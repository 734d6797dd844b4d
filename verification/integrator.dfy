/**
 * The stop cache and its refresh policy (`_TimetableChangeIntegrator`): merging
 * a feed's records into the cache, and choosing between a cheap refresh from the
 * recent-change feed and a rebuild from the plan and full-change feeds.
 */
module ChangeIntegration {
  import opened Optional
  import opened Calendar
  import opened TimetableStop

  /**
   * The Python dict from stop id to stop: its keys in insertion order, and the
   * entries. It is keyed by `StopKey`, which `IdInjective` shows is the same as
   * keying by the rendered id.
   */
  datatype StopTable = StopTable(order: seq<StopKey>, entries: map<StopKey, Stop>)

  const EmptyTable: StopTable := StopTable([], map[])

  /** Keys listed once each, exactly the keys of the entries, each entry stored under its own id. */
  ghost predicate ValidTable(t: StopTable)
  {
    && (forall i :: 0 <= i < |t.order| ==> t.order[i] !in t.order[..i])
    && (forall k :: k in t.entries <==> k in t.order)
    && (forall k :: k in t.entries ==> Key(t.entries[k]) == k)
  }

  /** Every cached stop is complete. */
  ghost predicate AllComplete(t: StopTable)
  {
    forall k :: k in t.entries ==> StopComplete(t.entries[k])
  }

  /** Some record of the feed carries this id. */
  ghost predicate Mentions(chg: seq<Stop>, k: StopKey)
  {
    exists i :: 0 <= i < |chg| && Key(chg[i]) == k
  }

  /** One pass of the loop of `_integrate_changes`: merge into a cached stop, or add a complete new one. */
  function IntegrateOne(t: StopTable, c: Stop): (r: StopTable)
    requires ValidTable(t)
    ensures ValidTable(r)
    ensures Key(c) in t.entries ==>
      r == StopTable(t.order, t.entries[Key(c) := MergeStop(t.entries[Key(c)], c)])
    ensures Key(c) !in t.entries && StopComplete(c) ==>
      r == StopTable(t.order + [Key(c)], t.entries[Key(c) := c])
    ensures Key(c) !in t.entries && !StopComplete(c) ==> r == t
  {
    var k := Key(c);
    if k in t.entries then
      StopTable(t.order, t.entries[k := MergeStop(t.entries[k], c)])
    else if StopComplete(c) then
      StopTable(t.order + [k], t.entries[k := c])
    else
      t
  }

  /**
   * The table `_integrate_changes` returns: the records of `chg` integrated one after
   * the other. No key is removed and the existing keys keep their place.
   */
  function Integrated(t: StopTable, chg: seq<Stop>): (r: StopTable)
    requires ValidTable(t)
    ensures ValidTable(r)
    ensures t.entries.Keys <= r.entries.Keys
    ensures |t.order| <= |r.order| && r.order[..|t.order|] == t.order
    decreases |chg|
  {
    if chg == [] then t else IntegrateOne(Integrated(t, chg[..|chg| - 1]), chg[|chg| - 1])
  }

  /** `_integrate_changes`: copies the table and integrates the records in feed order. */
  method IntegrateChanges(stops: StopTable, chg: seq<Stop>) returns (r: StopTable)
    requires ValidTable(stops)
    ensures r == Integrated(stops, chg)
  {
    r := stops;
    var i := 0;
    while i < |chg|
      invariant 0 <= i <= |chg|
      invariant ValidTable(r)
      invariant r == Integrated(stops, chg[..i])
    {
      assert chg[..i + 1][..i] == chg[..i];
      r := IntegrateOne(r, chg[i]);
      i := i + 1;
    }
    assert chg[..|chg|] == chg;
  }

  lemma {:induction false} IntegratedLast(t: StopTable, chg: seq<Stop>, c: Stop)
    requires ValidTable(t)
    ensures Integrated(t, chg + [c]) == IntegrateOne(Integrated(t, chg), c)
  {
    assert (chg + [c])[..|chg|] == chg;
  }

  /** Integrating two feeds one after the other is integrating their concatenation. */
  lemma {:induction false} IntegratedAppend(t: StopTable, a: seq<Stop>, b: seq<Stop>)
    requires ValidTable(t)
    ensures Integrated(Integrated(t, a), b) == Integrated(t, a + b)
    decreases |b|
  {
    if b == [] {
      assert a + b == a;
    } else {
      var b', c := b[..|b| - 1], b[|b| - 1];
      assert b == b' + [c];
      assert a + b == (a + b') + [c];
      IntegratedAppend(t, a, b');
      IntegratedLast(Integrated(t, a), b', c);
      IntegratedLast(t, a + b', c);
    }
  }

  /** What one integration step does to the entry under key `k`. */
  lemma IntegrateOneEntry(t: StopTable, c: Stop, k: StopKey)
    requires ValidTable(t)
    ensures k in IntegrateOne(t, c).entries <==> k in t.entries || (k == Key(c) && StopComplete(c))
    ensures k in t.entries && k != Key(c) ==> IntegrateOne(t, c).entries[k] == t.entries[k]
  {
    var r := IntegrateOne(t, c);
    if Key(c) in t.entries {
      assert r.entries == t.entries[Key(c) := MergeStop(t.entries[Key(c)], c)];
    } else if StopComplete(c) {
      assert r.entries == t.entries[Key(c) := c];
    } else {
      assert r == t;
    }
  }

  lemma IntegratedStep(t: StopTable, chg: seq<Stop>)
    requires ValidTable(t) && chg != []
    ensures Integrated(t, chg) == IntegrateOne(Integrated(t, chg[..|chg| - 1]), chg[|chg| - 1])
  {
  }

  /** A cached stop that no record of the feed mentions keeps its value. */
  lemma {:induction false} IntegratedUntouched(t: StopTable, chg: seq<Stop>, k: StopKey)
    requires ValidTable(t)
    requires k in t.entries && !Mentions(chg, k)
    ensures k in Integrated(t, chg).entries && Integrated(t, chg).entries[k] == t.entries[k]
    decreases |chg|
  {
    if chg != [] {
      var chg', c := chg[..|chg| - 1], chg[|chg| - 1];
      assert !Mentions(chg', k);
      IntegratedUntouched(t, chg', k);
      IntegratedStep(t, chg);
      IntegrateOneEntry(Integrated(t, chg'), c, k);
    }
  }

  /** A key the table did not hold is there afterwards only because a complete record carried it. */
  lemma {:induction false} IntegratedNewKeys(t: StopTable, chg: seq<Stop>, k: StopKey)
    requires ValidTable(t)
    requires k in Integrated(t, chg).entries && k !in t.entries
    ensures exists i :: 0 <= i < |chg| && Key(chg[i]) == k && StopComplete(chg[i])
    decreases |chg|
  {
    var chg', c := chg[..|chg| - 1], chg[|chg| - 1];
    var mid := Integrated(t, chg');
    IntegratedStep(t, chg);
    IntegrateOneEntry(mid, c, k);
    if k in mid.entries {
      IntegratedNewKeys(t, chg', k);
      var i :| 0 <= i < |chg'| && Key(chg'[i]) == k && StopComplete(chg'[i]);
      assert chg[i] == chg'[i];
    } else {
      assert chg[|chg| - 1] == c;
    }
  }

  /** Every key of the result was in the table or is mentioned by the feed. */
  lemma IntegratedKeysFrom(t: StopTable, chg: seq<Stop>, k: StopKey)
    requires ValidTable(t)
    requires k in Integrated(t, chg).entries
    ensures k in t.entries || Mentions(chg, k)
  {
    if k !in t.entries {
      IntegratedNewKeys(t, chg, k);
    }
  }

  /** Complete entries stay complete, and every entry a feed adds is complete. */
  lemma {:induction false} IntegratedCompleteness(t: StopTable, chg: seq<Stop>)
    requires ValidTable(t)
    ensures forall k :: k in t.entries && StopComplete(t.entries[k]) ==>
      StopComplete(Integrated(t, chg).entries[k])
    ensures forall k :: k in Integrated(t, chg).entries && k !in t.entries ==>
      StopComplete(Integrated(t, chg).entries[k])
    decreases |chg|
  {
    if chg != [] {
      var chg', c := chg[..|chg| - 1], chg[|chg| - 1];
      var mid := Integrated(t, chg');
      IntegratedCompleteness(t, chg');
      IntegratedStep(t, chg);
      var r := IntegrateOne(mid, c);
      forall k | k in r.entries && (k !in t.entries || StopComplete(t.entries[k]))
        ensures StopComplete(r.entries[k])
      {
        IntegrateOneEntry(mid, c, k);
        if k == Key(c) && k in mid.entries {
          assert r.entries[k] == MergeStop(mid.entries[k], c);
          MergeStopKeepsComplete(mid.entries[k], c);
        }
      }
    }
  }

  /** A table of complete stops stays one: the cache never holds an incomplete stop. */
  lemma IntegratedAllComplete(t: StopTable, chg: seq<Stop>)
    requires ValidTable(t) && AllComplete(t)
    ensures AllComplete(Integrated(t, chg))
  {
    IntegratedCompleteness(t, chg);
  }

  /** Integrating the same record twice in a row is integrating it once. */
  lemma IntegrateOneReapplied(t: StopTable, c: Stop)
    requires ValidTable(t)
    ensures IntegrateOne(IntegrateOne(t, c), c) == IntegrateOne(t, c)
  {
    if Key(c) in t.entries {
      ReappliedToCached(t, c);
    } else if StopComplete(c) {
      ReappliedToAdded(t, c);
    }
  }

  lemma ReappliedToCached(t: StopTable, c: Stop)
    requires ValidTable(t) && Key(c) in t.entries
    ensures IntegrateOne(IntegrateOne(t, c), c) == IntegrateOne(t, c)
  {
    var k := Key(c);
    var once := IntegrateOne(t, c);
    var m := MergeStop(t.entries[k], c);
    assert once.entries[k] == m;
    MergeStopReapplied(t.entries[k], c);
    assert once.entries[k := MergeStop(m, c)] == once.entries;
  }

  lemma ReappliedToAdded(t: StopTable, c: Stop)
    requires ValidTable(t) && Key(c) !in t.entries && StopComplete(c)
    ensures IntegrateOne(IntegrateOne(t, c), c) == IntegrateOne(t, c)
  {
    var k := Key(c);
    var once := IntegrateOne(t, c);
    assert once.entries[k] == c;
    MergeStopIdempotent(c);
    assert once.entries[k := MergeStop(c, c)] == once.entries;
  }

  /** `[v for c, v in stop_cache.items()]`: the cached stops in insertion order. */
  function Values(t: StopTable): (r: seq<Stop>)
    requires ValidTable(t)
    ensures |r| == |t.order|
    ensures forall i :: 0 <= i < |r| ==> r[i] == t.entries[t.order[i]]
    ensures forall s :: s in r <==> exists k :: k in t.entries && t.entries[k] == s
  {
    var r := seq(|t.order|, i requires 0 <= i < |t.order| => t.entries[t.order[i]]);
    assert forall k :: k in t.entries ==> exists i :: 0 <= i < |t.order| && t.order[i] == k;
    r
  }

  /** The three feeds as a refresh sees them; a missing plan or an absent feed is a failed fetch. */
  datatype Feeds = Feeds(plan: map<Instant, seq<Stop>>, fchg: Option<seq<Stop>>, rchg: Option<seq<Stop>>)

  /** How long (in seconds of the monotonic clock) the recent-change feed is trusted. */
  const FreshnessSeconds: int := 90

  /** The incremental path: the same hour slices as last time, refreshed less than 90 s ago. */
  predicate UseIncremental(stored: set<Instant>, requested: set<Instant>, last: Option<int>, now: int)
    ensures UseIncremental(stored, requested, last, now) ==> last.Some? && stored == requested
    ensures UseIncremental(stored, requested, last, now) ==> now < last.value + FreshnessSeconds
  {
    stored == requested && last.Some? && now - last.value < FreshnessSeconds
  }

  /** Before the first refresh there is no last refresh time, so the first call always rebuilds. */
  lemma FirstCallRebuilds(stored: set<Instant>, requested: set<Instant>, now: int)
    ensures !UseIncremental(stored, requested, None, now)
  {
  }

  /** The table built from the plans of the slices, visited in `order`. */
  function PlanTable(order: seq<Instant>, plan: map<Instant, seq<Stop>>): (r: StopTable)
    requires forall i :: 0 <= i < |order| ==> order[i] in plan
    ensures ValidTable(r)
    decreases |order|
  {
    if order == [] then EmptyTable
    else Integrated(PlanTable(order[..|order| - 1], plan), plan[order[|order| - 1]])
  }

  /** The rebuilt cache: the plans of the slices, then the full-change feed. */
  function Rebuilt(order: seq<Instant>, plan: map<Instant, seq<Stop>>, fchg: seq<Stop>): (r: StopTable)
    requires forall i :: 0 <= i < |order| ==> order[i] in plan
    ensures ValidTable(r)
  {
    Integrated(PlanTable(order, plan), fchg)
  }

  /** A plan-built table holds complete stops only, even though plan records may be partial. */
  lemma {:induction false} PlanTableAllComplete(order: seq<Instant>, plan: map<Instant, seq<Stop>>)
    requires forall i :: 0 <= i < |order| ==> order[i] in plan
    ensures AllComplete(PlanTable(order, plan))
    decreases |order|
  {
    if order != [] {
      PlanTableAllComplete(order[..|order| - 1], plan);
      IntegratedAllComplete(PlanTable(order[..|order| - 1], plan), plan[order[|order| - 1]]);
    }
  }

  /** Some plan of a visited slice carries this id. */
  ghost predicate PlannedIn(order: seq<Instant>, plan: map<Instant, seq<Stop>>, k: StopKey)
    requires forall i :: 0 <= i < |order| ==> order[i] in plan
  {
    exists i :: 0 <= i < |order| && Mentions(plan[order[i]], k)
  }

  lemma {:induction false} PlanTableKeys(order: seq<Instant>, plan: map<Instant, seq<Stop>>, k: StopKey)
    requires forall i :: 0 <= i < |order| ==> order[i] in plan
    requires k in PlanTable(order, plan).entries
    ensures PlannedIn(order, plan, k)
    decreases |order|
  {
    var order' := order[..|order| - 1];
    var last := order[|order| - 1];
    IntegratedKeysFrom(PlanTable(order', plan), plan[last], k);
    if k in PlanTable(order', plan).entries {
      PlanTableKeys(order', plan, k);
      var i :| 0 <= i < |order'| && Mentions(plan[order'[i]], k);
      assert order[i] == order'[i];
    } else {
      assert Mentions(plan[order[|order| - 1]], k);
    }
  }

  /**
   * After a rebuild only stops of the requested slices' plans or of the full-change
   * feed are cached: stops of slices that left the window are gone.
   */
  lemma RebuiltKeys(order: seq<Instant>, plan: map<Instant, seq<Stop>>, fchg: seq<Stop>, k: StopKey)
    requires forall i :: 0 <= i < |order| ==> order[i] in plan
    requires k in Rebuilt(order, plan, fchg).entries
    ensures PlannedIn(order, plan, k) || Mentions(fchg, k)
  {
    IntegratedKeysFrom(PlanTable(order, plan), fchg, k);
    if k in PlanTable(order, plan).entries {
      PlanTableKeys(order, plan, k);
    }
  }

  /** `order` lists the elements of `s`, each once: one way Python may iterate a set. */
  ghost predicate Enumerates(order: seq<Instant>, s: set<Instant>)
  {
    && (forall i, j :: 0 <= i < j < |order| ==> order[i] != order[j])
    && (forall x :: x in order <==> x in s)
  }

  lemma HasMember(s: set<Instant>)
    requires s != {}
    ensures exists x :: x in s
  {
    if forall x :: x !in s {
      assert false;
    }
  }

  lemma PlanTableSnoc(order: seq<Instant>, plan: map<Instant, seq<Stop>>, slice: Instant)
    requires forall i :: 0 <= i < |order| ==> order[i] in plan
    requires slice in plan
    ensures forall i :: 0 <= i < |order + [slice]| ==> (order + [slice])[i] in plan
    ensures PlanTable(order + [slice], plan) == Integrated(PlanTable(order, plan), plan[slice])
  {
    assert (order + [slice])[..|order|] == order;
  }

  /**
   * The loop of the rebuild branch of `stops_with_changes`: integrate the plan of
   * every slice, in the order the set is iterated. A failed fetch yields None.
   */
  method FetchPlans(slices: set<Instant>, plan: map<Instant, seq<Stop>>)
    returns (r: Option<StopTable>, ghost order: seq<Instant>)
    ensures r.None? <==> !(slices <= plan.Keys)
    ensures r.Some? ==>
      && Enumerates(order, slices)
      && (forall i :: 0 <= i < |order| ==> order[i] in plan)
      && r.value == PlanTable(order, plan)
  {
    order := [];
    var stops := EmptyTable;
    var remaining := slices;
    while remaining != {}
      invariant remaining <= slices
      invariant forall i, j :: 0 <= i < j < |order| ==> order[i] != order[j]
      invariant forall x :: x in order <==> x in slices && x !in remaining
      invariant forall i :: 0 <= i < |order| ==> order[i] in plan
      invariant stops == PlanTable(order, plan)
      decreases remaining
    {
      HasMember(remaining);
      var slice :| slice in remaining;
      if slice !in plan {
        return None, order;
      }
      PlanTableSnoc(order, plan, slice);
      stops := IntegrateChanges(stops, plan[slice]);
      order := order + [slice];
      remaining := remaining - {slice};
    }
    assert slices <= plan.Keys by {
      forall x | x in slices ensures x in plan {
        var i :| 0 <= i < |order| && order[i] == x;
      }
    }
    r := Some(stops);
  }

  /**
   * The rebuild branch of `stops_with_changes`: the plans of the slices, then the
   * full-change feed. A failed fetch yields None.
   */
  method Rebuild(slices: set<Instant>, plan: map<Instant, seq<Stop>>, fchg: Option<seq<Stop>>)
    returns (r: Option<StopTable>, ghost order: seq<Instant>)
    ensures r.None? <==> !(slices <= plan.Keys) || fchg.None?
    ensures r.Some? ==>
      && Enumerates(order, slices)
      && (forall i :: 0 <= i < |order| ==> order[i] in plan)
      && r.value == Rebuilt(order, plan, fchg.value)
      && ValidTable(r.value) && AllComplete(r.value)
  {
    var planned;
    planned, order := FetchPlans(slices, plan);
    if planned.None? || fchg.None? {
      return None, order;
    }
    PlanTableAllComplete(order, plan);
    IntegratedAllComplete(planned.value, fchg.value);
    var rebuilt := IntegrateChanges(planned.value, fchg.value);
    r := Some(rebuilt);
  }

  class ChangeIntegrator {
    var lastChangeTime: Option<int>
    var timeslices: set<Instant>
    var stopCache: StopTable

    /** The cache is a well-formed table of complete stops. */
    ghost predicate Valid()
      reads this
    {
      ValidTable(stopCache) && AllComplete(stopCache)
    }

    constructor ()
      ensures Valid()
      ensures lastChangeTime == None && timeslices == {} && stopCache == EmptyTable
    {
      lastChangeTime := None;
      timeslices := {};
      stopCache := EmptyTable;
    }

    /**
     * `stops_with_changes`: refresh the cache for the requested hour slices at
     * monotonic time `now` and return the cached stops. A failed fetch (None)
     * leaves the state as it was. On a rebuild, `order` is the order in which
     * the slice set was iterated.
     */
    method StopsWithChanges(slices: set<Instant>, feeds: Feeds, now: int)
      returns (r: Option<seq<Stop>>, ghost order: seq<Instant>)
      requires Valid()
      modifies this
      ensures Valid()
      ensures r.None? ==> unchanged(this)
      ensures r.Some? ==> r.value == Values(stopCache) && lastChangeTime == Some(now)
      ensures UseIncremental(old(timeslices), slices, old(lastChangeTime), now) ==>
        && r.None? == feeds.rchg.None?
        && (r.Some? ==> stopCache == Integrated(old(stopCache), feeds.rchg.value)
                        && timeslices == old(timeslices))
      ensures !UseIncremental(old(timeslices), slices, old(lastChangeTime), now) ==>
        && r.None? == (!(slices <= feeds.plan.Keys) || feeds.fchg.None?)
        && (r.Some? ==> Enumerates(order, slices)
                        && (forall i :: 0 <= i < |order| ==> order[i] in feeds.plan)
                        && stopCache == Rebuilt(order, feeds.plan, feeds.fchg.value)
                        && timeslices == slices)
    {
      if UseIncremental(timeslices, slices, lastChangeTime, now) {
        order := [];
        if feeds.rchg.None? {
          return None, order;
        }
        IntegratedAllComplete(stopCache, feeds.rchg.value);
        stopCache := IntegrateChanges(stopCache, feeds.rchg.value);
      } else {
        var rebuilt;
        rebuilt, order := Rebuild(slices, feeds.plan, feeds.fchg);
        if rebuilt.None? {
          return None, order;
        }
        stopCache := rebuilt.value;
        timeslices := slices;
      }
      lastChangeTime := Some(now);
      r := Some(Values(stopCache));
    }
  }
}
