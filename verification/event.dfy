/**
 * One arrival or departure of a stop as the timetable feeds describe it
 * (`DbTimetableEvent`, `DbTimetableArrival`, `DbTimetableDeparture`): ten
 * independently present-or-absent fields, the values derived from them, and
 * the field-by-field merge of a change into a base.
 */
module TimetableEvent {
  import opened Optional
  import opened Calendar

  /** A station path as `split('|')` produces it: never empty. */
  type Path = p: seq<string> | |p| >= 1 witness [""]

  /** The first position of `c` in `s`, or `|s|` when it does not occur. */
  function IndexOf(s: string, c: char): (i: nat)
    ensures i <= |s|
    ensures i < |s| ==> s[i] == c
    ensures forall j :: 0 <= j < i ==> s[j] != c
  {
    if s == [] then 0
    else if s[0] == c then 0
    else 1 + IndexOf(s[1..], c)
  }

  /** `s.split('|')`: the pieces between the bars; the pieces hold no bar. */
  function SplitPath(s: string): (p: Path)
    ensures forall k :: 0 <= k < |p| ==> '|' !in p[k]
    decreases |s|
  {
    var i := IndexOf(s, '|');
    if i == |s| then [s] else [s[..i]] + SplitPath(s[i + 1..])
  }

  /** `'|'.join(p)` */
  function JoinPath(p: Path): string
    decreases |p|
  {
    if |p| == 1 then p[0] else p[0] + "|" + JoinPath(p[1..])
  }

  lemma {:induction false} JoinOfSplit(s: string)
    ensures JoinPath(SplitPath(s)) == s
    decreases |s|
  {
    var i := IndexOf(s, '|');
    if i < |s| {
      var head, tail := s[..i], s[i + 1..];
      var rest := SplitPath(tail);
      assert SplitPath(s) == [head] + rest;
      JoinOfSplit(tail);
      JoinCons(head, rest);
      RejoinAt(s, i);
    }
  }

  lemma JoinCons(head: string, rest: Path)
    ensures JoinPath([head] + rest) == head + "|" + JoinPath(rest)
  {
    assert ([head] + rest)[1..] == rest;
  }

  lemma RejoinAt(s: string, i: nat)
    requires i < |s| && s[i] == '|'
    ensures s[..i] + "|" + s[i + 1..] == s
  {
  }

  lemma {:induction false} SplitOfJoin(p: Path)
    requires forall k :: 0 <= k < |p| ==> '|' !in p[k]
    ensures SplitPath(JoinPath(p)) == p
    decreases |p|
  {
    if |p| == 1 {
      NoBarIndex(p[0]);
    } else {
      var tail: Path := p[1..];
      var rest := JoinPath(tail);
      assert JoinPath(p) == p[0] + "|" + rest;
      BarAfterHead(p[0], rest);
      SplitOfJoin(tail);
      assert p == [p[0]] + tail;
    }
  }

  lemma NoBarIndex(h: string)
    requires '|' !in h
    ensures IndexOf(h, '|') == |h|
  {
  }

  /** In `h|rest` with no bar in `h`, the first bar follows `h`. */
  lemma BarAfterHead(h: string, rest: string)
    requires '|' !in h
    ensures var s := h + "|" + rest;
      IndexOf(s, '|') == |h| && s[..|h|] == h && s[|h| + 1..] == rest
  {
    var s := h + "|" + rest;
    assert s[|h|] == '|';
    assert forall j :: 0 <= j < |h| ==> s[j] == h[j];
  }

  const CancelledStatus: string := "c"
  const PlannedStatus: string := "p"

  datatype Event = Event(
    plannedPath: Option<Path>,
    changedPath: Option<Path>,
    plannedTime: Option<Instant>,
    changedTime: Option<Instant>,
    plannedStatus: Option<string>,
    changedStatus: Option<string>,
    plannedPlatform: Option<string>,
    changedPlatform: Option<string>,
    line: Option<string>,
    cancellationTime: Option<Instant>)

  /** An event with no field present, the neutral element of `Merge`. */
  const EmptyEvent: Event := Event(None, None, None, None, None, None, None, None, None, None)

  /** Delay in minutes, or the infinite delay of a cancelled train without a changed time. */
  datatype DelayValue = Finite(minutes: int) | Infinite

  /** The status shown: the changed one, else the planned one, else "p" (planned). */
  function Status(e: Event): (r: string)
    ensures e.changedStatus.Some? ==> r == e.changedStatus.value
    ensures e.changedStatus.None? ==> r == e.plannedStatus.GetOr(PlannedStatus)
  {
    if e.changedStatus.Some? then e.changedStatus.value
    else if e.plannedStatus.Some? then e.plannedStatus.value
    else PlannedStatus
  }

  predicate Cancelled(e: Event)
    ensures Cancelled(e) <==>
      e.changedStatus == Some(CancelledStatus) || (e.changedStatus.None? && e.plannedStatus == Some(CancelledStatus))
  {
    Status(e) == CancelledStatus
  }

  /** The time shown: the changed one, else the planned one, else none. */
  function ActualTime(e: Event): (r: Option<Instant>)
    ensures r.None? <==> e.changedTime.None? && e.plannedTime.None?
    ensures r.Some? ==> r == e.changedTime || r == e.plannedTime
    ensures e.changedTime.Some? ==> r == e.changedTime
  {
    if e.changedTime.Some? then e.changedTime
    else if e.plannedTime.Some? then e.plannedTime
    else None
  }

  function Platform(e: Event): (r: Option<string>)
    ensures r.None? <==> e.changedPlatform.None? && e.plannedPlatform.None?
    ensures r.Some? ==> r == e.changedPlatform || r == e.plannedPlatform
    ensures e.changedPlatform.Some? ==> r == e.changedPlatform
  {
    if e.changedPlatform.Some? then e.changedPlatform
    else if e.plannedPlatform.Some? then e.plannedPlatform
    else None
  }

  /** Known well enough to be shown: a planned path and a planned time. */
  predicate Complete(e: Event)
    ensures Complete(e) ==> ActualTime(e).Some? && Destination(e).Some? && Origin(e).Some?
  {
    e.plannedPath.Some? && e.plannedTime.Some?
  }

  /** `delay`: changed minus planned time in minutes, else infinite when cancelled, else zero. */
  function Delay(e: Event): (r: DelayValue)
    ensures r.Infinite? ==> Cancelled(e)
  {
    if e.changedTime.Some? && e.plannedTime.Some? then
      Finite((e.changedTime.value - e.plannedTime.value) / SecondsPerMinute)
    else if Cancelled(e) then
      Infinite
    else
      Finite(0)
  }

  /** All times of the event fall on whole minutes, as every time the feeds carry does. */
  predicate MinuteAligned(e: Event)
  {
    && (e.plannedTime.Some? ==> e.plannedTime.value % SecondsPerMinute == 0)
    && (e.changedTime.Some? ==> e.changedTime.value % SecondsPerMinute == 0)
    && (e.cancellationTime.Some? ==> e.cancellationTime.value % SecondsPerMinute == 0)
  }

  /**
   * The delay is the gap between the shown and the planned time: infinite exactly
   * for a cancelled event without a changed time, and otherwise the shown time is
   * the planned time plus the delay.
   */
  lemma DelayIsShownMinusPlanned(e: Event)
    requires e.plannedTime.Some? && MinuteAligned(e)
    ensures Delay(e).Infinite? <==> Cancelled(e) && e.changedTime.None?
    ensures Delay(e).Finite? ==>
      ActualTime(e) == Some(e.plannedTime.value + SecondsPerMinute * Delay(e).minutes)
  {
    if e.changedTime.Some? {
      var ct, pt := e.changedTime.value, e.plannedTime.value;
      assert (ct - pt) % 60 == 0 by {
        assert ct == 60 * (ct / 60) && pt == 60 * (pt / 60);
        assert ct - pt == 60 * (ct / 60 - pt / 60);
      }
      assert 60 * ((ct - pt) / 60) == ct - pt;
    }
  }

  /** With no status field at all an event is shown as planned, never as cancelled. */
  lemma NoStatusNotCancelled(e: Event)
    requires e.changedStatus.None? && e.plannedStatus.None?
    ensures Status(e) == PlannedStatus && !Cancelled(e) && Delay(e) != Infinite
  {
  }

  /**
   * `hide_after_timestamp`: the later of the planned and the changed time; for a
   * cancelled event the later of that and the cancellation time, plus five minutes.
   */
  function HideAfter(e: Event): (r: Instant)
    requires Complete(e)
    ensures r >= e.plannedTime.value && r >= ActualTime(e).value
    ensures Cancelled(e) ==> r >= e.plannedTime.value + 5 * SecondsPerMinute
    ensures Cancelled(e) ==> r >= ActualTime(e).value + 5 * SecondsPerMinute
    ensures Cancelled(e) && e.cancellationTime.Some? ==>
      r >= e.cancellationTime.value + 5 * SecondsPerMinute
    ensures !Cancelled(e) ==> r == e.plannedTime.value || r == ActualTime(e).value
    ensures Cancelled(e) ==>
      r - 5 * SecondsPerMinute in {e.plannedTime.value, ActualTime(e).value, e.cancellationTime.GetOr(e.plannedTime.value)}
  {
    var shown := Max(e.plannedTime.value, e.changedTime.GetOr(e.plannedTime.value));
    if Cancelled(e) then
      Max(shown, e.cancellationTime.GetOr(shown)) + 5 * SecondsPerMinute
    else
      shown
  }

  /** `hide_after_timestamp` as the source computes it, stepping a local `end`. */
  method HideAfterTimestamp(e: Event) returns (end: Instant)
    requires Complete(e)
    ensures end == HideAfter(e)
  {
    end := e.plannedTime.value;
    if e.changedTime.Some? {
      end := Max(e.changedTime.value, e.plannedTime.value);
    }
    if Cancelled(e) {
      if e.cancellationTime.Some? && e.cancellationTime.value > end {
        end := e.cancellationTime.value;
      }
      end := end + 5 * SecondsPerMinute;
    }
  }

  /** `DbTimetableEvent.merged`: every field is the change's if present, else the base's. */
  function Merge(base: Event, change: Event): (r: Event)
    ensures change.plannedPath.Some? ==> r.plannedPath == change.plannedPath
    ensures change.plannedPath.None? ==> r.plannedPath == base.plannedPath
    ensures change.changedPath.Some? ==> r.changedPath == change.changedPath
    ensures change.changedPath.None? ==> r.changedPath == base.changedPath
    ensures change.plannedTime.Some? ==> r.plannedTime == change.plannedTime
    ensures change.plannedTime.None? ==> r.plannedTime == base.plannedTime
    ensures change.changedTime.Some? ==> r.changedTime == change.changedTime
    ensures change.changedTime.None? ==> r.changedTime == base.changedTime
    ensures change.plannedStatus.Some? ==> r.plannedStatus == change.plannedStatus
    ensures change.plannedStatus.None? ==> r.plannedStatus == base.plannedStatus
    ensures change.changedStatus.Some? ==> r.changedStatus == change.changedStatus
    ensures change.changedStatus.None? ==> r.changedStatus == base.changedStatus
    ensures change.plannedPlatform.Some? ==> r.plannedPlatform == change.plannedPlatform
    ensures change.plannedPlatform.None? ==> r.plannedPlatform == base.plannedPlatform
    ensures change.changedPlatform.Some? ==> r.changedPlatform == change.changedPlatform
    ensures change.changedPlatform.None? ==> r.changedPlatform == base.changedPlatform
    ensures change.line.Some? ==> r.line == change.line
    ensures change.line.None? ==> r.line == base.line
    ensures change.cancellationTime.Some? ==> r.cancellationTime == change.cancellationTime
    ensures change.cancellationTime.None? ==> r.cancellationTime == base.cancellationTime
  {
    Event(
      Override(base.plannedPath, change.plannedPath),
      Override(base.changedPath, change.changedPath),
      Override(base.plannedTime, change.plannedTime),
      Override(base.changedTime, change.changedTime),
      Override(base.plannedStatus, change.plannedStatus),
      Override(base.changedStatus, change.changedStatus),
      Override(base.plannedPlatform, change.plannedPlatform),
      Override(base.changedPlatform, change.changedPlatform),
      Override(base.line, change.line),
      Override(base.cancellationTime, change.cancellationTime))
  }

  lemma MergeIdempotent(e: Event)
    ensures Merge(e, e) == e
  {
  }

  /** Merging a change in one step or two gives the same event: the feeds may be combined first. */
  lemma MergeAssociative(a: Event, b: Event, c: Event)
    ensures Merge(Merge(a, b), c) == Merge(a, Merge(b, c))
  {
  }

  /** Applying the same change again changes nothing more. */
  lemma MergeReapplied(base: Event, change: Event)
    ensures Merge(Merge(base, change), change) == Merge(base, change)
  {
  }

  lemma MergeEmpty(e: Event)
    ensures Merge(EmptyEvent, e) == e && Merge(e, EmptyEvent) == e
  {
  }

  /** Once complete, an event stays complete whatever change is merged into it. */
  lemma MergeKeepsComplete(base: Event, change: Event)
    ensures Complete(base) || Complete(change) ==> Complete(Merge(base, change))
    ensures Complete(Merge(base, change)) ==>
      (base.plannedPath.Some? || change.plannedPath.Some?) && (base.plannedTime.Some? || change.plannedTime.Some?)
  {
  }

  /**
   * A change without status fields leaves cancellation as it was; a change with a
   * changed status decides it.
   */
  lemma MergeStatus(base: Event, change: Event)
    ensures change.changedStatus.None? && change.plannedStatus.None? ==>
      Status(Merge(base, change)) == Status(base)
    ensures change.changedStatus.Some? ==> Status(Merge(base, change)) == change.changedStatus.value
  {
  }

  /** A change carrying a changed time decides the shown time; one without keeps the base's if it had one. */
  lemma MergeActualTime(base: Event, change: Event)
    ensures change.changedTime.Some? ==> ActualTime(Merge(base, change)) == change.changedTime
    ensures change.changedTime.None? && change.plannedTime.None? ==>
      ActualTime(Merge(base, change)) == ActualTime(base)
  {
  }

  /** `DbTimetableDeparture.destination`: the last station of the planned path. */
  function Destination(e: Event): (r: Option<string>)
    ensures r.Some? <==> e.plannedPath.Some?
    ensures r.Some? ==> r.value == e.plannedPath.value[|e.plannedPath.value| - 1]
  {
    if e.plannedPath.Some? then Some(e.plannedPath.value[|e.plannedPath.value| - 1]) else None
  }

  /** `DbTimetableArrival.origin`: the first station of the planned path. */
  function Origin(e: Event): (r: Option<string>)
    ensures r.Some? <==> e.plannedPath.Some?
    ensures r.Some? ==> r.value == e.plannedPath.value[0]
  {
    if e.plannedPath.Some? then Some(e.plannedPath.value[0]) else None
  }

  /** Destination and origin are read from the planned path only: a changed path does not move them. */
  lemma EndpointsIgnoreChangedPath(e: Event, p: Option<Path>)
    ensures Destination(e.(changedPath := p)) == Destination(e)
    ensures Origin(e.(changedPath := p)) == Origin(e)
  {
  }
}
