/**
 * One stop visit of one trip (`DbTimetableStop`): its identity, the trip label,
 * the optional arrival and departure, and the merge of a change into a base.
 */
module TimetableStop {
  import opened Optional
  import opened Decimal
  import opened Calendar
  import opened TimetableEvent

  datatype TripLabel = TripLabel(filterFlags: string, tripType: string, category: string, number: string)

  /**
   * The start of a trip as read from a stop id: a valid time whose year is
   * 2000 + YY, the only years `from_domnode` can produce.
   */
  type TripStart = dt: DateTime | ValidDateTime(dt) && 2000 <= dt.year <= 2099
    witness DateTime(2000, 1, 1, 0, 0)

  datatype Stop = Stop(
    idTrip: int,
    idStart: TripStart,
    idStop: nat,
    arrival: Option<Event>,
    departure: Option<Event>,
    tripLabel: Option<TripLabel>)

  /** The three parts of a stop id. */
  datatype StopKey = StopKey(trip: int, start: TripStart, stop: nat)

  function Key(s: Stop): StopKey
  {
    StopKey(s.idTrip, s.idStart, s.idStop)
  }

  /** `'{}-{:02}{:02}{:02}{:02}{:02}-{}'`: trip, `YYMMDDHHmm` of the trip start, stop number. */
  function RenderId(k: StopKey): (r: string)
    ensures |r| >= 14
    ensures r[0] == '-' <==> k.trip < 0
  {
    var t := IntToString(k.trip);
    var r := t + "-" + TimeField(k.start) + "-" + NatToString(k.stop);
    assert r[0] == t[0];
    r
  }

  /** `DbTimetableStop.id`, the key of the stop cache. */
  function Id(s: Stop): (r: string)
    ensures ParseId(r) == Some(Key(s))
  {
    ParseRenderedId(Key(s));
    RenderId(Key(s))
  }

  /**
   * The id pattern `(-?[0-9]+)-([0-9]{2}){5}-([0-9]+)` matched against the whole
   * string, the start read as by `_parse_fulltime`. None stands for the failed
   * assertion of a non-matching id and for the ValueError of an impossible date.
   */
  function ParseId(s: string): (r: Option<StopKey>)
    ensures r.Some? ==> |s| >= 14
    ensures r.Some? && r.value.trip < 0 ==> s[0] == '-'
  {
    if |s| > 0 && s[0] == '-' then ParseUnsignedId(s[1..], true) else ParseUnsignedId(s, false)
  }

  /** The id pattern after its optional minus sign, which `negative` records. */
  function ParseUnsignedId(rest: string, negative: bool): (r: Option<StopKey>)
    ensures r.Some? ==> |rest| >= 13
    ensures r.Some? && r.value.trip < 0 ==> negative
  {
    var i := IndexOf(rest, '-');
    if 1 <= i && i + 13 <= |rest| && rest[i + 11] == '-'
      && AllDigits(rest[..i]) && AllDigits(rest[i + 12..])
      && ParseFullTime(rest[i + 1..i + 11]).Some?
    then
      var magnitude: int := Value(rest[..i]);
      Some(StopKey(if negative then -magnitude else magnitude,
                   ParseFullTime(rest[i + 1..i + 11]).value, Value(rest[i + 12..])))
    else
      None
  }

  /** In `t-f-n` with `t` all digits, the first minus sign follows `t`. */
  lemma FirstDashAfterDigits(t: string, rest: string)
    requires AllDigits(t) && |rest| > |t| && rest[..|t|] == t && rest[|t|] == '-'
    ensures IndexOf(rest, '-') == |t|
  {
  }

  /** Where the pieces of `t-f-n` sit, for a ten-character time field `f`. */
  lemma RenderedSlices(t: string, f: string, n: string)
    requires |f| == 10
    ensures var rest := t + "-" + f + "-" + n;
      && |rest| == |t| + 12 + |n|
      && rest[..|t|] == t && rest[|t|] == '-'
      && rest[|t| + 1..|t| + 11] == f && rest[|t| + 11] == '-'
      && rest[|t| + 12..] == n
  {
  }

  /**
   * How the parser sees a string made of digits `t`, a minus sign, a time field
   * `f`, a minus sign and digits `n`, once an optional sign is removed.
   */
  lemma ParseFields(rest: string, t: string, f: string, n: string, negative: bool)
    requires |t| >= 1 && AllDigits(t) && |n| >= 1 && AllDigits(n) && ParseFullTime(f).Some?
    requires |rest| == |t| + 12 + |n| && rest[..|t|] == t && rest[|t|] == '-'
    requires rest[|t| + 1..|t| + 11] == f && rest[|t| + 11] == '-' && rest[|t| + 12..] == n
    ensures ParseUnsignedId(rest, negative).Some?
    ensures ParseUnsignedId(rest, negative).value.trip == if negative then -(Value(t) as int) else Value(t)
    ensures ParseUnsignedId(rest, negative).value.start == ParseFullTime(f).value
    ensures ParseUnsignedId(rest, negative).value.stop == Value(n)
  {
    FirstDashAfterDigits(t, rest);
  }

  /** Concatenation regrouped: a sign in front of the trip digits is a sign in front of the id. */
  lemma SignedConcat(sign: string, t: string, u: string)
    ensures (sign + t) + u == sign + (t + u)
  {
  }

  lemma Regroup(t: string, f: string, n: string)
    ensures t + ("-" + f + "-" + n) == t + "-" + f + "-" + n
  {
  }

  /** A rendered id is a sign for negative trips, then digits, dash, time field, dash, digits. */
  lemma RenderIdShape(k: StopKey)
    ensures var rest := NatToString(if k.trip < 0 then -k.trip else k.trip) + ("-" + TimeField(k.start)
                        + "-" + NatToString(k.stop));
      if k.trip < 0 then RenderId(k) == "-" + rest
      else RenderId(k) == rest && RenderId(k)[0] != '-'
  {
    var t := NatToString(if k.trip < 0 then -k.trip else k.trip);
    var f, n := TimeField(k.start), NatToString(k.stop);
    var u := "-" + f + "-" + n;
    Regroup(IntToString(k.trip), f, n);
    if k.trip < 0 {
      SignedConcat("-", t, u);
    } else {
      FirstOfConcat(t, u);
    }
  }

  lemma FirstOfConcat(t: string, u: string)
    requires |t| >= 1
    ensures (t + u)[0] == t[0]
  {
  }

  /** The digits of a trip number's magnitude. */
  function TripDigits(trip: int): (t: string)
    ensures |t| >= 1 && AllDigits(t)
  {
    NatToString(if trip < 0 then -trip else trip)
  }

  /** A rendered id with its sign taken off. */
  function UnsignedId(k: StopKey): string
  {
    TripDigits(k.trip) + ("-" + TimeField(k.start) + "-" + NatToString(k.stop))
  }

  /** The parser takes off the sign of a negative trip number and nothing else. */
  lemma ParseIdSign(k: StopKey)
    ensures ParseId(RenderId(k)) == ParseUnsignedId(UnsignedId(k), k.trip < 0)
  {
    RenderIdShape(k);
    if k.trip < 0 {
      assert RenderId(k)[1..] == UnsignedId(k);
    }
  }

  /** The part after the sign parses to the key's fields. */
  lemma ParseUnsignedIdOfRendered(k: StopKey)
    ensures ParseUnsignedId(UnsignedId(k), k.trip < 0) == Some(k)
  {
    var magnitude: nat := if k.trip < 0 then -k.trip else k.trip;
    var t, f, n := TripDigits(k.trip), TimeField(k.start), NatToString(k.stop);
    Regroup(t, f, n);
    RenderedSlices(t, f, n);
    ParseFullTimeOfTimeField(k.start);
    NatToStringRoundTrip(magnitude);
    NatToStringRoundTrip(k.stop);
    ParseFields(UnsignedId(k), t, f, n, k.trip < 0);
    var r := ParseUnsignedId(UnsignedId(k), k.trip < 0).value;
    assert r.trip == k.trip && r.start == k.start && r.stop == k.stop;
  }

  /** Parsing a rendered id gives back trip, start and stop number. */
  lemma ParseRenderedId(k: StopKey)
    ensures ParseId(RenderId(k)) == Some(k)
  {
    ParseIdSign(k);
    ParseUnsignedIdOfRendered(k);
  }

  /**
   * Two stops have the same id exactly when they agree on trip, start and stop
   * number, so a table keyed by `Key` is keyed as the cache is by `id`.
   */
  lemma IdInjective(a: Stop, b: Stop)
    ensures Id(a) == Id(b) <==> Key(a) == Key(b)
  {
    if Id(a) == Id(b) {
      ParseRenderedId(Key(a));
      ParseRenderedId(Key(b));
    }
  }

  /** The trip code of a board entry: the start's `YYMMDDHHmm` as one decimal number. */
  function TripCode(start: Timestamp): nat
  {
    100000000 * (start.year % 100) + 1000000 * start.month + 10000 * start.day
      + 100 * start.hour + start.minute
  }

  /** The trip code is the ten-digit middle field of the stop id read as a number. */
  lemma TripCodeIsIdField(start: Timestamp)
    ensures Value(TimeField(start)) == TripCode(start)
  {
    var y, mo, d, h, mi := Pad2(start.year % 100), Pad2(start.month), Pad2(start.day),
                           Pad2(start.hour), Pad2(start.minute);
    assert TimeField(start) == y + mo + d + h + mi;
    Pad2RoundTrip(start.year % 100);
    Pad2RoundTrip(start.month);
    Pad2RoundTrip(start.day);
    Pad2RoundTrip(start.hour);
    Pad2RoundTrip(start.minute);
    assert Pow10(2) == 100;
    ValueAppend(y, mo);
    var v1 := (start.year % 100) * 100 + start.month;
    assert Value(y + mo) == v1;
    ValueAppend(y + mo, d);
    var v2 := v1 * 100 + start.day;
    assert Value(y + mo + d) == v2;
    ValueAppend(y + mo + d, h);
    var v3 := v2 * 100 + start.hour;
    assert Value(y + mo + d + h) == v3;
    ValueAppend(y + mo + d + h, mi);
    assert Value(y + mo + d + h + mi) == v3 * 100 + start.minute;
  }

  /** The arrival or departure exists and is complete. */
  predicate PartComplete(part: Option<Event>)
  {
    part.Some? && Complete(part.value)
  }

  /** `DbTimetableStop.complete`: a label and at least one complete part. */
  predicate StopComplete(s: Stop)
    ensures StopComplete(s) <==>
      && s.tripLabel.Some?
      && (|| (s.arrival.Some? && s.arrival.value.plannedPath.Some? && s.arrival.value.plannedTime.Some?)
          || (s.departure.Some? && s.departure.value.plannedPath.Some? && s.departure.value.plannedTime.Some?))
  {
    s.tripLabel.Some? && (PartComplete(s.arrival) || PartComplete(s.departure))
  }

  /** `datetime(1, 1, 1)`, where the stop's hide-after instant starts. */
  const MinInstant: Instant := 0

  /** `DbTimetableStop.hide_after_timestamp`: the latest hide-after instant of the complete parts. */
  function StopHideAfter(s: Stop): (r: Instant)
    requires StopComplete(s)
    ensures PartComplete(s.arrival) ==> r >= HideAfter(s.arrival.value)
    ensures PartComplete(s.departure) ==> r >= HideAfter(s.departure.value)
    ensures r >= MinInstant
    ensures || r == MinInstant
            || (PartComplete(s.arrival) && r == HideAfter(s.arrival.value))
            || (PartComplete(s.departure) && r == HideAfter(s.departure.value))
  {
    var afterArrival :=
      if PartComplete(s.arrival) then Max(MinInstant, HideAfter(s.arrival.value)) else MinInstant;
    if PartComplete(s.departure) then Max(afterArrival, HideAfter(s.departure.value)) else afterArrival
  }

  /** With times on or after `datetime(1, 1, 1)`, the stop hides with its last complete part. */
  lemma StopHideAfterIsLatestPart(s: Stop)
    requires StopComplete(s)
    requires PartComplete(s.arrival) ==> s.arrival.value.plannedTime.value >= MinInstant
    requires PartComplete(s.departure) ==> s.departure.value.plannedTime.value >= MinInstant
    ensures PartComplete(s.arrival) && !PartComplete(s.departure) ==>
      StopHideAfter(s) == HideAfter(s.arrival.value)
    ensures !PartComplete(s.arrival) && PartComplete(s.departure) ==>
      StopHideAfter(s) == HideAfter(s.departure.value)
    ensures PartComplete(s.arrival) && PartComplete(s.departure) ==>
      StopHideAfter(s) == Max(HideAfter(s.arrival.value), HideAfter(s.departure.value))
  {
  }

  /** The arrival or departure of a merged stop: merged if both sides have one, else whichever does. */
  function MergePart(base: Option<Event>, change: Option<Event>): (r: Option<Event>)
    ensures base.Some? && change.Some? ==> r == Some(Merge(base.value, change.value))
    ensures base.None? ==> r == change
    ensures change.None? ==> r == base
  {
    match (base, change)
    case (Some(b), Some(c)) => Some(Merge(b, c))
    case (Some(_), None) => base
    case (None, _) => change
  }

  /**
   * `DbTimetableStop.merged`: the base's identity, the change's label if present
   * (the whole label, not field by field), and each part merged.
   */
  function MergeStop(base: Stop, change: Stop): (r: Stop)
    requires Key(base) == Key(change)
    ensures Key(r) == Key(base)
    ensures change.tripLabel.Some? ==> r.tripLabel == change.tripLabel
    ensures change.tripLabel.None? ==> r.tripLabel == base.tripLabel
    ensures r.arrival == MergePart(base.arrival, change.arrival)
    ensures r.departure == MergePart(base.departure, change.departure)
  {
    Stop(base.idTrip, base.idStart, base.idStop,
         MergePart(base.arrival, change.arrival),
         MergePart(base.departure, change.departure),
         Override(base.tripLabel, change.tripLabel))
  }

  lemma MergePartIdempotent(p: Option<Event>)
    ensures MergePart(p, p) == p
  {
    if p.Some? {
      MergeIdempotent(p.value);
    }
  }

  lemma MergeStopIdempotent(s: Stop)
    ensures MergeStop(s, s) == s
  {
    MergePartIdempotent(s.arrival);
    MergePartIdempotent(s.departure);
  }

  lemma MergePartAssociative(a: Option<Event>, b: Option<Event>, c: Option<Event>)
    ensures MergePart(MergePart(a, b), c) == MergePart(a, MergePart(b, c))
  {
    if a.Some? && b.Some? && c.Some? {
      MergeAssociative(a.value, b.value, c.value);
    }
  }

  /** Merging two changes one after the other is merging their merge. */
  lemma MergeStopAssociative(a: Stop, b: Stop, c: Stop)
    requires Key(a) == Key(b) == Key(c)
    ensures Key(MergeStop(b, c)) == Key(a)
    ensures MergeStop(MergeStop(a, b), c) == MergeStop(a, MergeStop(b, c))
  {
    MergePartAssociative(a.arrival, b.arrival, c.arrival);
    MergePartAssociative(a.departure, b.departure, c.departure);
  }

  lemma MergePartReapplied(base: Option<Event>, change: Option<Event>)
    ensures MergePart(MergePart(base, change), change) == MergePart(base, change)
  {
    if base.Some? && change.Some? {
      MergeReapplied(base.value, change.value);
    } else if change.Some? {
      MergeIdempotent(change.value);
    }
  }

  /** Reapplying a change that was already merged leaves the stop as it is. */
  lemma MergeStopReapplied(base: Stop, change: Stop)
    requires Key(base) == Key(change)
    ensures MergeStop(MergeStop(base, change), change) == MergeStop(base, change)
  {
    MergePartReapplied(base.arrival, change.arrival);
    MergePartReapplied(base.departure, change.departure);
  }

  lemma MergePartKeepsComplete(base: Option<Event>, change: Option<Event>)
    ensures PartComplete(base) || PartComplete(change) ==> PartComplete(MergePart(base, change))
  {
    if base.Some? && change.Some? {
      MergeKeepsComplete(base.value, change.value);
    }
  }

  /** A complete stop stays complete, whatever change is merged into it. */
  lemma MergeStopKeepsComplete(base: Stop, change: Stop)
    requires Key(base) == Key(change)
    ensures StopComplete(base) || StopComplete(change) ==> StopComplete(MergeStop(base, change))
  {
    MergePartKeepsComplete(base.arrival, change.arrival);
    MergePartKeepsComplete(base.departure, change.departure);
  }
}
