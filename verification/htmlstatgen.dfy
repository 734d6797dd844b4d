/**
 * The decisions the statistics pages make per row: the jump mark a row falls
 * under, the class of a delay cell, and the classes of a trip or departure row.
 */
module HtmlStatistics {
  import opened Optional
  import opened TimetableStop
  import opened TimetableBoard

  /**
   * `highest_smaller`: the largest element of `haystack` that is at most `target`,
   * None when there is none. Times of day are minutes since midnight.
   */
  method HighestSmaller(target: int, haystack: seq<int>) returns (r: Option<int>)
    ensures r.None? <==> forall i :: 0 <= i < |haystack| ==> haystack[i] > target
    ensures r.Some? ==> r.value in haystack && r.value <= target
    ensures r.Some? ==> forall i :: 0 <= i < |haystack| && haystack[i] <= target ==> haystack[i] <= r.value
  {
    r := None;
    var k := 0;
    while k < |haystack|
      invariant 0 <= k <= |haystack|
      invariant r.None? <==> forall i :: 0 <= i < k ==> haystack[i] > target
      invariant r.Some? ==> r.value in haystack[..k] && r.value <= target
      invariant r.Some? ==> forall i :: 0 <= i < k && haystack[i] <= target ==> haystack[i] <= r.value
    {
      var x := haystack[k];
      if x <= target && (r.None? || r.value < x) {
        r := Some(x);
      }
      k := k + 1;
    }
  }

  /** A delay statistic: a finite number of minutes, or infinity for a cancelled train. */
  datatype Stat = Finite(minutes: real) | Infinity

  datatype SpanClass = Ontime | Delayed

  /** Finite delays are ordered by value; infinity is above all of them. */
  predicate StatAtMost(a: Stat, b: Stat)
  {
    b.Infinity? || (a.Finite? && a.minutes <= b.minutes)
  }

  /** The class of the span `DELAY` writes; None is the empty cell written for a missing value. */
  function DelayClass(d: Option<Stat>): (r: Option<SpanClass>)
    ensures r.None? <==> d.None?
    ensures r == Some(Ontime) <==> d.Some? && d.value.Finite? && d.value.minutes < 5.0
    ensures r == Some(Delayed) <==> d.Some? && StatAtMost(Finite(5.0), d.value)
  {
    match d
    case None => None
    case Some(Infinity) => Some(Delayed)
    case Some(Finite(m)) => if m < 5.0 then Some(Ontime) else Some(Delayed)
  }

  /** A larger delay is never shown as more punctual. */
  lemma DelayClassMonotone(a: Stat, b: Stat)
    requires StatAtMost(a, b)
    ensures DelayClass(Some(a)) == Some(Delayed) ==> DelayClass(Some(b)) == Some(Delayed)
    ensures DelayClass(Some(b)) == Some(Ontime) ==> DelayClass(Some(a)) == Some(Ontime)
  {
  }

  /** `s.startswith(p)`. */
  predicate StartsWith(s: string, p: string)
  {
    |p| <= |s| && s[..|p|] == p
  }

  /** A train name of the long-distance services: IC/ICE, EC and NJ. */
  predicate IsLongDistance(trainName: string)
  {
    StartsWith(trainName, "IC") || StartsWith(trainName, "EC") || StartsWith(trainName, "NJ")
  }

  datatype RowClass = Lowdata | LongDistance | Regional

  /** `t.count < 0.5*dates.count`: fewer records than half the observed dates. */
  predicate FewRecords(count: int, datesCount: int)
  {
    (count as real) < 0.5 * (datesCount as real)
  }

  /** The classes of a row of `trip_list`, in the order they are written. */
  function TripRowClasses(count: int, datesCount: int, trainName: string): (r: seq<RowClass>)
    ensures Lowdata in r <==> 2 * count < datesCount
    ensures LongDistance in r <==> IsLongDistance(trainName)
    ensures Regional in r <==> !IsLongDistance(trainName)
    ensures |r| == if 2 * count < datesCount then 2 else 1
    ensures r[|r| - 1] != Lowdata
  {
    (if FewRecords(count, datesCount) then [Lowdata] else [])
      + (if IsLongDistance(trainName) then [LongDistance] else [Regional])
  }

  /** `dep_list` marks a row only as lowdata, under the same rule as `trip_list`. */
  function DepartureRowLowdata(count: int, datesCount: int): (lowdata: bool)
    ensures lowdata <==> Lowdata in TripRowClasses(count, datesCount, "")
  {
    FewRecords(count, datesCount)
  }

  lemma PrefixOfLonger(s: string, t: string, p: string)
    requires |p| <= |s| && s <= t
    ensures StartsWith(t, p) <==> StartsWith(s, p)
  {
    assert t[..|p|] == s[..|p|];
  }

  /**
   * A board train name counts as long-distance exactly when its category does:
   * the category is followed by a space, and none of the prefixes holds one.
   */
  lemma LongDistanceByCategory(tl: TripLabel, line: Option<string>)
    ensures IsLongDistance(TrainName(tl, line)) <==> IsLongDistance(tl.category)
  {
    var name := TrainName(tl, line);
    var head := tl.category + " ";
    assert head <= name;
    if |tl.category| >= 2 {
      assert tl.category <= name by {
        assert tl.category <= head;
      }
      PrefixOfLonger(tl.category, name, "IC");
      PrefixOfLonger(tl.category, name, "EC");
      PrefixOfLonger(tl.category, name, "NJ");
    } else {
      assert !IsLongDistance(tl.category);
      assert |head| <= |name| && name[|tl.category|] == ' ';
    }
  }
}
