/**
 * The departure and arrival board (`DbTimetableClient`, `DbTimetableBoard`):
 * which hour slices are requested, which cached stops are listed at the
 * current time, the records listed for them, and the board sorted by planned time.
 */
module TimetableBoard {
  import opened Optional
  import opened Calendar
  import opened TimetableEvent
  import opened TimetableStop
  import opened ChangeIntegration

  /** A listed departure: planned time, train name, destination, station, trip code, trip number, delay. */
  datatype Departure = Departure(time: Instant, trainName: string, destination: Option<string>,
                                 stopId: int, tripCode: nat, lineCode: int, delay: DelayValue)

  /** A listed arrival: planned time, train name, origin, station, trip code, trip number, delay. */
  datatype Arrival = Arrival(time: Instant, trainName: string, origin: Option<string>,
                             stopId: int, tripCode: nat, lineCode: int, delay: DelayValue)

  /** `'{} {} ({})'` with a line, else `'{} {}'`: category, line and trip number. */
  function TrainName(tl: TripLabel, line: Option<string>): (r: string)
    ensures tl.category + " " <= r
    ensures tl.number <= r[|tl.category| + 1..] || line.Some?
  {
    if line.Some? then tl.category + " " + line.value + " (" + tl.number + ")"
    else tl.category + " " + tl.number
  }

  /**
   * The part (arrival or departure) of `s` is listed at `now`: the stop and the part
   * are complete, the part is not hidden yet, and its shown time is within the look-ahead.
   */
  predicate Listed(s: Stop, part: Option<Event>, now: Instant, lookahead: int)
    ensures Listed(s, part, now, lookahead) <==>
      StopComplete(s) && PartComplete(part)
      && ActualTime(part.value).value - lookahead <= now <= HideAfter(part.value)
  {
    && StopComplete(s) && PartComplete(part)
    && HideAfter(part.value) >= now
    && ActualTime(part.value).value <= now + lookahead
  }

  /** The body of the loop of `_departures` for one stop. */
  function DepartureOf(s: Stop, now: Instant, lookahead: int, stationEvaId: int): (r: Option<Departure>)
    ensures r.Some? <==> Listed(s, s.departure, now, lookahead)
    ensures r.Some? ==>
      && r.value.time == s.departure.value.plannedTime.value
      && r.value.trainName == TrainName(s.tripLabel.value, s.departure.value.line)
      && r.value.destination == Destination(s.departure.value)
      && r.value.stopId == stationEvaId
      && r.value.tripCode == TripCode(s.idStart)
      && r.value.lineCode == s.idTrip
      && r.value.delay == Delay(s.departure.value)
  {
    if Listed(s, s.departure, now, lookahead) then
      var e := s.departure.value;
      Some(Departure(e.plannedTime.value, TrainName(s.tripLabel.value, e.line), Destination(e),
                     stationEvaId, TripCode(s.idStart), s.idTrip, Delay(e)))
    else
      None
  }

  /** The body of the loop of `_arrivals` for one stop. */
  function ArrivalOf(s: Stop, now: Instant, lookahead: int, stationEvaId: int): (r: Option<Arrival>)
    ensures r.Some? <==> Listed(s, s.arrival, now, lookahead)
    ensures r.Some? ==>
      && r.value.time == s.arrival.value.plannedTime.value
      && r.value.trainName == TrainName(s.tripLabel.value, s.arrival.value.line)
      && r.value.origin == Origin(s.arrival.value)
      && r.value.stopId == stationEvaId
      && r.value.tripCode == TripCode(s.idStart)
      && r.value.lineCode == s.idTrip
      && r.value.delay == Delay(s.arrival.value)
  {
    if Listed(s, s.arrival, now, lookahead) then
      var e := s.arrival.value;
      Some(Arrival(e.plannedTime.value, TrainName(s.tripLabel.value, e.line), Origin(e),
                   stationEvaId, TripCode(s.idStart), s.idTrip, Delay(e)))
    else
      None
  }

  function DepartureFn(now: Instant, lookahead: int, stationEvaId: int): Stop -> Option<Departure>
  {
    s => DepartureOf(s, now, lookahead, stationEvaId)
  }

  function ArrivalFn(now: Instant, lookahead: int, stationEvaId: int): Stop -> Option<Arrival>
  {
    s => ArrivalOf(s, now, lookahead, stationEvaId)
  }

  /** What a generator that yields `f(x)` for each `x` where it is present produces, in order. */
  function FilterMap<A, B>(xs: seq<A>, f: A -> Option<B>): (r: seq<B>)
    ensures |r| <= |xs|
    decreases |xs|
  {
    if xs == [] then []
    else
      var last := f(xs[|xs| - 1]);
      FilterMap(xs[..|xs| - 1], f) + (if last.Some? then [last.value] else [])
  }

  /** An element is produced exactly when some input maps to it. */
  lemma {:induction false} FilterMapMembers<A, B>(xs: seq<A>, f: A -> Option<B>, y: B)
    ensures y in FilterMap(xs, f) <==> exists i :: 0 <= i < |xs| && f(xs[i]) == Some(y)
    decreases |xs|
  {
    if xs != [] {
      var init := xs[..|xs| - 1];
      FilterMapMembers(init, f, y);
      if exists i :: 0 <= i < |init| && f(init[i]) == Some(y) {
        var i :| 0 <= i < |init| && f(init[i]) == Some(y);
        assert xs[i] == init[i];
      }
      if exists i :: 0 <= i < |xs| && f(xs[i]) == Some(y) {
        var i :| 0 <= i < |xs| && f(xs[i]) == Some(y);
        if i < |init| {
          assert init[i] == xs[i];
        }
      }
    }
  }

  /** The `for s in stops: ... yield` loop shared by `_departures` and `_arrivals`. */
  method Collect<A, B>(xs: seq<A>, f: A -> Option<B>) returns (r: seq<B>)
    ensures r == FilterMap(xs, f)
  {
    r := [];
    var i := 0;
    while i < |xs|
      invariant 0 <= i <= |xs|
      invariant r == FilterMap(xs[..i], f)
    {
      assert xs[..i + 1][..i] == xs[..i];
      var item := f(xs[i]);
      if item.Some? {
        r := r + [item.value];
      }
      i := i + 1;
    }
    assert xs[..|xs|] == xs;
  }

  /** `_departures`: the departures listed at `now`, in stop order. */
  function Departures(stops: seq<Stop>, now: Instant, lookahead: int, stationEvaId: int): seq<Departure>
  {
    FilterMap(stops, DepartureFn(now, lookahead, stationEvaId))
  }

  /** `_arrivals`: the arrivals listed at `now`, in stop order. */
  function Arrivals(stops: seq<Stop>, now: Instant, lookahead: int, stationEvaId: int): seq<Arrival>
  {
    FilterMap(stops, ArrivalFn(now, lookahead, stationEvaId))
  }

  /** A departure is listed exactly when it is the record of a listed departure of some stop. */
  lemma DeparturesListed(stops: seq<Stop>, now: Instant, lookahead: int, stationEvaId: int, d: Departure)
    ensures d in Departures(stops, now, lookahead, stationEvaId) <==>
      exists i :: 0 <= i < |stops| && DepartureOf(stops[i], now, lookahead, stationEvaId) == Some(d)
  {
    var f := DepartureFn(now, lookahead, stationEvaId);
    FilterMapMembers(stops, f, d);
  }

  /** An arrival is listed exactly when it is the record of a listed arrival of some stop. */
  lemma ArrivalsListed(stops: seq<Stop>, now: Instant, lookahead: int, stationEvaId: int, a: Arrival)
    ensures a in Arrivals(stops, now, lookahead, stationEvaId) <==>
      exists i :: 0 <= i < |stops| && ArrivalOf(stops[i], now, lookahead, stationEvaId) == Some(a)
  {
    var f := ArrivalFn(now, lookahead, stationEvaId);
    FilterMapMembers(stops, f, a);
  }

  /** A listed part is shown up to and including its hide-after instant, and no later. */
  lemma ListedUntilHideAfter(s: Stop, part: Option<Event>, lookahead: int)
    requires StopComplete(s) && PartComplete(part)
    requires ActualTime(part.value).value <= HideAfter(part.value) + lookahead
    ensures Listed(s, part, HideAfter(part.value), lookahead)
    ensures !Listed(s, part, HideAfter(part.value) + 1, lookahead)
  {
  }

  /** A part is listed from `lookahead` seconds before its shown time. */
  lemma ListedFromLookahead(s: Stop, part: Option<Event>, lookahead: int)
    requires StopComplete(s) && PartComplete(part) && lookahead >= 0
    ensures var shown := ActualTime(part.value).value;
      Listed(s, part, shown - lookahead, lookahead) && !Listed(s, part, shown - lookahead - 1, lookahead)
  {
  }

  /** A part that is not cancelled is listed until both its planned and its shown time have passed. */
  lemma NotCancelledHidesAtLaterTime(e: Event, now: Instant)
    requires Complete(e) && !Cancelled(e)
    ensures HideAfter(e) >= now <==> e.plannedTime.value >= now || ActualTime(e).value >= now
  {
  }

  /** A cancelled part stays listed for five minutes after its shown time. */
  lemma CancelledListedFiveMoreMinutes(s: Stop, part: Option<Event>, now: Instant, lookahead: int)
    requires StopComplete(s) && PartComplete(part) && Cancelled(part.value) && lookahead >= 0
    requires ActualTime(part.value).value <= now <= ActualTime(part.value).value + 5 * SecondsPerMinute
    ensures Listed(s, part, now, lookahead)
  {
  }

  /** Each key is at most the next one. */
  ghost predicate SortedBy<T>(xs: seq<T>, key: T -> int)
  {
    forall i, j :: 0 <= i < j < |xs| ==> key(xs[i]) <= key(xs[j])
  }

  /** `x` placed before the first element whose key is at least its own. */
  function Insert<T>(x: T, ys: seq<T>, key: T -> int): (r: seq<T>)
    ensures |r| == |ys| + 1
    ensures r[0] == x || (ys != [] && r[0] == ys[0])
    decreases |ys|
  {
    if ys == [] || key(x) <= key(ys[0]) then [x] + ys
    else [ys[0]] + Insert(x, ys[1..], key)
  }

  /** An insertion adds exactly `x`. */
  lemma {:induction false} InsertPermutes<T>(x: T, ys: seq<T>, key: T -> int)
    ensures multiset(Insert(x, ys, key)) == multiset(ys) + multiset{x}
    decreases |ys|
  {
    if ys != [] && key(x) > key(ys[0]) {
      InsertPermutes(x, ys[1..], key);
      assert ys == [ys[0]] + ys[1..];
    }
  }

  /** Inserting into a sorted sequence keeps it sorted. */
  lemma {:induction false} InsertSorted<T>(x: T, ys: seq<T>, key: T -> int)
    requires SortedBy(ys, key)
    ensures SortedBy(Insert(x, ys, key), key)
    decreases |ys|
  {
    if ys != [] && key(x) > key(ys[0]) {
      var tail := ys[1..];
      var rest := Insert(x, tail, key);
      InsertSorted(x, tail, key);
      assert forall j :: 0 <= j < |tail| ==> key(ys[0]) <= key(tail[j]) by {
        forall j | 0 <= j < |tail| ensures key(ys[0]) <= key(tail[j]) {
          assert tail[j] == ys[j + 1];
        }
      }
      forall j | 0 <= j < |rest| ensures key(ys[0]) <= key(rest[j]) {
        InsertMember(x, tail, key, j);
      }
    }
  }

  /** Every element of an insertion is `x` or an element of `ys`. */
  lemma InsertMember<T>(x: T, ys: seq<T>, key: T -> int, j: int)
    requires 0 <= j < |ys| + 1
    ensures Insert(x, ys, key)[j] == x || exists i :: 0 <= i < |ys| && Insert(x, ys, key)[j] == ys[i]
  {
    var r := Insert(x, ys, key);
    InsertPermutes(x, ys, key);
    assert r[j] in multiset(r);
    assert r[j] in multiset(ys) || r[j] == x;
    if r[j] != x {
      assert r[j] in ys;
    }
  }

  /** `sorted(xs, key=key)`: an insertion sort, stable like Python's. */
  function SortBy<T>(xs: seq<T>, key: T -> int): (r: seq<T>)
    ensures multiset(r) == multiset(xs)
    ensures SortedBy(r, key)
    decreases |xs|
  {
    if xs == [] then []
    else
      assert xs == [xs[0]] + xs[1..];
      var rest := SortBy(xs[1..], key);
      InsertSorted(xs[0], rest, key);
      InsertPermutes(xs[0], rest, key);
      Insert(xs[0], rest, key)
  }

  /** The elements whose key is `k`, in order. */
  function WithKey<T>(xs: seq<T>, key: T -> int, k: int): seq<T>
    decreases |xs|
  {
    if xs == [] then []
    else (if key(xs[0]) == k then [xs[0]] else []) + WithKey(xs[1..], key, k)
  }

  lemma WithKeyCons<T>(h: T, t: seq<T>, key: T -> int, k: int)
    ensures WithKey([h] + t, key, k) == (if key(h) == k then [h] else []) + WithKey(t, key, k)
  {
    assert ([h] + t)[0] == h;
    assert ([h] + t)[1..] == t;
  }

  lemma {:induction false} InsertWithKey<T>(x: T, ys: seq<T>, key: T -> int, k: int)
    ensures WithKey(Insert(x, ys, key), key, k) == (if key(x) == k then [x] else []) + WithKey(ys, key, k)
    decreases |ys|
  {
    if ys == [] || key(x) <= key(ys[0]) {
      WithKeyCons(x, ys, key, k);
    } else {
      var h, tail := ys[0], ys[1..];
      var rest := Insert(x, tail, key);
      InsertWithKey(x, tail, key, k);
      WithKeyCons(h, rest, key, k);
      assert ys == [h] + tail;
      WithKeyCons(h, tail, key, k);
      if key(x) == k {
        assert key(h) != k;
      }
    }
  }

  /** Sorting keeps the order of elements with equal keys. */
  lemma {:induction false} SortStable<T>(xs: seq<T>, key: T -> int, k: int)
    ensures WithKey(SortBy(xs, key), key, k) == WithKey(xs, key, k)
    decreases |xs|
  {
    if xs != [] {
      SortStable(xs[1..], key, k);
      InsertWithKey(xs[0], SortBy(xs[1..], key), key, k);
    }
  }

  function DepartureTime(d: Departure): int { d.time }

  function ArrivalTime(a: Arrival): int { a.time }

  /** `DbTimetableBoard`: the raw stops, the time range, and both lists sorted by planned time. */
  datatype Board = Board(raw: seq<Stop>, timeRange: (Instant, Instant),
                         departures: seq<Departure>, arrivals: seq<Arrival>)

  /** The `DbTimetableBoard` constructor. */
  function MakeBoard(raw: seq<Stop>, timeRange: (Instant, Instant),
                     departures: seq<Departure>, arrivals: seq<Arrival>): (b: Board)
    ensures b.raw == raw && b.timeRange == timeRange
    ensures multiset(b.departures) == multiset(departures) && SortedBy(b.departures, DepartureTime)
    ensures multiset(b.arrivals) == multiset(arrivals) && SortedBy(b.arrivals, ArrivalTime)
    ensures forall t :: WithKey(b.departures, DepartureTime, t) == WithKey(departures, DepartureTime, t)
    ensures forall t :: WithKey(b.arrivals, ArrivalTime, t) == WithKey(arrivals, ArrivalTime, t)
  {
    SortStableAll(departures, DepartureTime);
    SortStableAll(arrivals, ArrivalTime);
    Board(raw, timeRange, SortBy(departures, DepartureTime), SortBy(arrivals, ArrivalTime))
  }

  lemma SortStableAll<T>(xs: seq<T>, key: T -> int)
    ensures forall k :: WithKey(SortBy(xs, key), key, k) == WithKey(xs, key, k)
  {
    forall k {
      SortStable(xs, key, k);
    }
  }

  /** The whole hours from the hour of `rangeMin` up to, not including, `rangeMax`. */
  function HourSlices(rangeMin: Instant, rangeMax: Instant): set<Instant>
  {
    set h | FloorHour(rangeMin) <= h < rangeMax && h % SecondsPerHour == 0
  }

  /** `_timeslices`: steps an hour at a time from the hour of `rangeMin` while below `rangeMax`. */
  method TimeSlices(rangeMin: Instant, rangeMax: Instant) returns (s: set<Instant>)
    ensures s == HourSlices(rangeMin, rangeMax)
  {
    s := {};
    var d := FloorHour(rangeMin);
    while d < rangeMax
      invariant d % SecondsPerHour == 0 && FloorHour(rangeMin) <= d
      invariant d == FloorHour(rangeMin) || d - SecondsPerHour < rangeMax
      invariant forall h :: h in s <==> FloorHour(rangeMin) <= h < d && h % SecondsPerHour == 0
      decreases rangeMax - d
    {
      s := s + {d};
      d := d + SecondsPerHour;
    }
  }

  /** The hour holding `now` is requested whenever the window reaches past `now`. */
  lemma CurrentHourRequested(now: Instant, lookbehind: int, lookahead: int)
    requires lookbehind >= 0 && lookahead > 0
    ensures FloorHour(now) in HourSlices(now - lookbehind, now + lookahead)
  {
    FloorHourMonotone(now - lookbehind, now);
  }

  lemma FloorHourMonotone(a: Instant, b: Instant)
    requires a <= b
    ensures FloorHour(a) <= FloorHour(b)
  {
    if FloorHour(a) > FloorHour(b) {
      assert FloorHour(a) >= FloorHour(b) + SecondsPerHour by {
        AlignedGap(FloorHour(a), FloorHour(b));
      }
    }
  }

  lemma AlignedGap(x: int, y: int)
    requires x % 3600 == 0 && y % 3600 == 0 && x > y
    ensures x >= y + 3600
  {
    assert x == 3600 * (x / 3600) && y == 3600 * (y / 3600);
  }

  /** With the default hour of look-behind and look-ahead, two or three hour slices are requested. */
  lemma DefaultWindowSlices(now: Instant)
    ensures var h := FloorHour(now);
      HourSlices(now - 3600, now + 3600) ==
        if now % 3600 == 0 then {h - 3600, h} else {h - 3600, h, h + 3600}
  {
    var h := FloorHour(now);
    assert FloorHour(now - 3600) == h - 3600 by {
      assert h - 3600 <= now - 3600 < h;
    }
    var s := HourSlices(now - 3600, now + 3600);
    forall x | x in s
      ensures x == h - 3600 || x == h || (x == h + 3600 && now % 3600 != 0)
    {
      assert x % 3600 == 0 && h - 3600 <= x < now + 3600;
      if x > h + 3600 {
        AlignedGap(x, h + 3600);
      } else if h - 3600 < x < h {
        AlignedGap(x, h - 3600);
      } else if h < x < h + 3600 {
        AlignedGap(x, h);
      }
    }
  }

  /** The board `current_board` builds from the cached stops at `currentTime`. */
  function BoardAt(stops: seq<Stop>, currentTime: Instant, lookbehind: int, lookahead: int,
                   stationEvaId: int): Board
  {
    MakeBoard(stops, (currentTime - lookbehind, currentTime + lookahead),
              Departures(stops, currentTime, lookahead, stationEvaId),
              Arrivals(stops, currentTime, lookahead, stationEvaId))
  }

  /** The board of `current_board`, its two lists gathered by the loops of `_departures` and `_arrivals`. */
  method BuildBoard(stops: seq<Stop>, currentTime: Instant, lookbehind: int, lookahead: int,
                    stationEvaId: int) returns (b: Board)
    ensures b == BoardAt(stops, currentTime, lookbehind, lookahead, stationEvaId)
  {
    var departures := Collect(stops, DepartureFn(currentTime, lookahead, stationEvaId));
    var arrivals := Collect(stops, ArrivalFn(currentTime, lookahead, stationEvaId));
    b := MakeBoard(stops, (currentTime - lookbehind, currentTime + lookahead), departures, arrivals);
  }

  /** Default look-behind and look-ahead of `DbTimetableClient`: one hour each. */
  const DefaultWindow: int := SecondsPerHour

  /** `DbTimetableClient`: a station, its look-behind and look-ahead, and the stop cache it refreshes. */
  class TimetableClient {
    const stationEvaId: int
    const lookbehind: int
    const lookahead: int
    const retriever: ChangeIntegrator

    ghost predicate Valid()
      reads this, retriever
    {
      retriever.Valid()
    }

    constructor (stationEvaId: int, lookbehind: int, lookahead: int)
      ensures Valid() && fresh(retriever)
      ensures this.stationEvaId == stationEvaId && this.lookbehind == lookbehind
      ensures this.lookahead == lookahead
      ensures retriever.lastChangeTime == None && retriever.stopCache == EmptyTable
    {
      this.stationEvaId := stationEvaId;
      this.lookbehind := lookbehind;
      this.lookahead := lookahead;
      retriever := new ChangeIntegrator();
    }

    /**
     * `current_board`: request the hour slices around `currentTime`, refresh the
     * cache at monotonic time `now`, and build the board from the cached stops.
     * None is a failed fetch, which leaves the cache as it was.
     */
    method CurrentBoard(currentTime: Instant, feeds: Feeds, now: int)
      returns (r: Option<Board>, ghost order: seq<Instant>)
      requires Valid()
      modifies retriever
      ensures Valid()
      ensures r.None? ==> unchanged(retriever)
      ensures r.Some? ==>
        r.value == BoardAt(Values(retriever.stopCache), currentTime, lookbehind, lookahead, stationEvaId)
      ensures r.Some? ==> retriever.lastChangeTime == Some(now)
      ensures var slices := HourSlices(currentTime - lookbehind, currentTime + lookahead);
        UseIncremental(old(retriever.timeslices), slices, old(retriever.lastChangeTime), now) ==>
          && r.None? == feeds.rchg.None?
          && (r.Some? ==> retriever.stopCache == Integrated(old(retriever.stopCache), feeds.rchg.value)
                          && retriever.timeslices == old(retriever.timeslices))
      ensures var slices := HourSlices(currentTime - lookbehind, currentTime + lookahead);
        !UseIncremental(old(retriever.timeslices), slices, old(retriever.lastChangeTime), now) ==>
          && r.None? == (!(slices <= feeds.plan.Keys) || feeds.fchg.None?)
          && (r.Some? ==> Enumerates(order, slices)
                          && (forall i :: 0 <= i < |order| ==> order[i] in feeds.plan)
                          && retriever.stopCache == Rebuilt(order, feeds.plan, feeds.fchg.value)
                          && retriever.timeslices == slices)
    {
      var rangeMin, rangeMax := currentTime - lookbehind, currentTime + lookahead;
      var slices := TimeSlices(rangeMin, rangeMax);
      assert slices == HourSlices(currentTime - lookbehind, currentTime + lookahead);
      var stops;
      stops, order := retriever.StopsWithChanges(slices, feeds, now);
      if stops.None? {
        return None, order;
      }
      var board := BuildBoard(stops.value, currentTime, lookbehind, lookahead, stationEvaId);
      r := Some(board);
    }
  }
}
