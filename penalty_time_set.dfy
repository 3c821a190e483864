/**
 * The latest allowed times of a node, one per unit of delay penalty
 * (PenaltyTimeSet.java).  A set is an int array that the operations never
 * change: each of them fills a new array.
 */
module PenaltyTimes {
  import opened Util

  /** The first index whose element is at least t, or |s| when there is none. */
  function FirstAtLeast(s: seq<int>, t: int): (pos: nat)
    ensures pos <= |s|
    ensures forall i :: 0 <= i < pos ==> s[i] < t
    ensures pos < |s| ==> t <= s[pos]
  {
    if |s| == 0 || t <= s[0] then 0 else 1 + FirstAtLeast(s[1..], t)
  }

  /** The first index holding t; t must occur. */
  function FirstIndexOf(s: seq<int>, t: int): (pos: nat)
    requires t in s
    ensures pos < |s| && s[pos] == t
    ensures forall i :: 0 <= i < pos ==> s[i] != t
  {
    if s[0] == t then 0 else 1 + FirstIndexOf(s[1..], t)
  }

  /** The times with t inserted in front of the first element >= t. */
  function Inserted(s: seq<int>, t: int): seq<int>
  {
    var pos := FirstAtLeast(s, t);
    s[..pos] + [t] + s[pos..]
  }

  /** Every time moved earlier by delta. */
  function Shifted(s: seq<int>, delta: int): (r: seq<int>)
    ensures |r| == |s| && forall i :: 0 <= i < |s| ==> r[i] == s[i] - delta
  {
    seq(|s|, i requires 0 <= i < |s| => s[i] - delta)
  }

  /** The seconds of delay of t beyond the leading times below it, summed left to right. */
  function LeadingDelay(s: seq<int>, t: int): int
  {
    if |s| == 0 || s[0] >= t then 0 else (t - s[0]) + LeadingDelay(s[1..], t)
  }

  /** The seconds of delay of t beyond every time below it. */
  function TotalDelay(s: seq<int>, t: int): int
  {
    if |s| == 0 then 0 else (if s[0] < t then t - s[0] else 0) + TotalDelay(s[1..], t)
  }

  /**
   * maximumTime from index i on: the budget is spent on the gaps between
   * consecutive times, weighted by the number of times before the gap, and
   * what is left is spread over the times; the result is always counted
   * from the first time.
   */
  function MaximumTimeFrom(s: seq<int>, i: nat, budget: real): int
    requires 1 <= i <= |s|
    decreases |s| - i
  {
    if i == |s| then s[0] + (60.0 * budget / (|s| as real)).Floor
    else
      var delta := ((s[i] - s[i - 1]) * i) as real;
      if delta > budget then s[0] + (60.0 * budget / (i as real)).Floor
      else MaximumTimeFrom(s, i + 1, budget - delta)
  }

  /** The elementwise maximum of two equally long time lists. */
  function ElementwiseMax(s1: seq<int>, s2: seq<int>): (r: seq<int>)
    requires |s1| == |s2|
    ensures |r| == |s1|
    ensures forall i :: 0 <= i < |r| ==> r[i] == if s1[i] >= s2[i] then s1[i] else s2[i]
  {
    seq(|s1|, i requires 0 <= i < |s1| => if s1[i] >= s2[i] then s1[i] else s2[i])
  }

  class PenaltyTimeSet {
    const times: array<int>

    /** A set of the single time maxTime. */
    constructor (maxTime: int)
      ensures times[..] == [maxTime]
    {
      times := new int[1][maxTime];
    }

    constructor FromArray(a: array<int>)
      ensures times == a
    {
      times := a;
    }

    /** with: a copy with maxTime inserted before the first element >= maxTime. */
    method With(maxTime: int) returns (r: PenaltyTimeSet)
      ensures r.times[..] == Inserted(times[..], maxTime)
    {
      var pos := 0;
      while pos < times.Length && times[pos] < maxTime
        invariant 0 <= pos <= times.Length
        invariant forall i :: 0 <= i < pos ==> times[i] < maxTime
      {
        pos := pos + 1;
      }
      assert pos == FirstAtLeast(times[..], maxTime);
      ghost var inserted := times[..pos] + [maxTime] + times[pos..];
      var a := new int[times.Length + 1];
      var i := 0;
      while i < a.Length
        invariant 0 <= i <= a.Length
        invariant forall j :: 0 <= j < i ==> a[j] == inserted[j]
      {
        if i < pos {
          a[i] := times[i];
        } else if i == pos {
          a[i] := maxTime;
        } else {
          a[i] := times[i - 1];
        }
        i := i + 1;
      }
      assert a[..] == inserted;
      r := new PenaltyTimeSet.FromArray(a);
    }

    /** subtract: a copy with every time moved earlier by timeDelta. */
    method Subtract(timeDelta: int) returns (r: PenaltyTimeSet)
      ensures r.times[..] == Shifted(times[..], timeDelta)
    {
      var a := new int[times.Length];
      var i := 0;
      while i < a.Length
        invariant 0 <= i <= a.Length
        invariant forall j :: 0 <= j < i ==> a[j] == times[j] - timeDelta
      {
        a[i] := times[i] - timeDelta;
        i := i + 1;
      }
      r := new PenaltyTimeSet.FromArray(a);
    }

    /**
     * replaced: a sorted copy with the first occurrence of oldTime changed to
     * newTime.  The search runs past the end of the array when oldTime does
     * not occur, so it must occur.
     */
    method Replaced(oldTime: int, newTime: int) returns (r: PenaltyTimeSet)
      requires oldTime in times[..]
      ensures r.times[..] == SortInts(times[..][FirstIndexOf(times[..], oldTime) := newTime])
    {
      var pos := 0;
      while times[pos] != oldTime
        invariant 0 <= pos <= FirstIndexOf(times[..], oldTime)
        decreases times.Length - pos
      {
        pos := pos + 1;
      }
      var updated := SortInts(times[..][pos := newTime]);
      var a := new int[|updated|](j requires 0 <= j < |updated| => updated[j]);
      assert a[..] == updated;
      r := new PenaltyTimeSet.FromArray(a);
    }

    /**
     * delay: the seconds by which time exceeds the leading times below it,
     * in minutes.  The loop stops only at an element >= time, so one must
     * exist.
     */
    method Delay(time: int) returns (minutes: real)
      requires exists i :: 0 <= i < times.Length && time <= times[i]
      ensures minutes == LeadingDelay(times[..], time) as real / 60.0
    {
      var delaySeconds := 0;
      var i := 0;
      while times[i] < time
        invariant 0 <= i < times.Length
        invariant forall j :: 0 <= j < i ==> times[j] < time
        invariant delaySeconds + LeadingDelay(times[i..], time) == LeadingDelay(times[..], time)
        decreases times.Length - i
      {
        assert times[i..][1..] == times[i + 1..];
        delaySeconds := delaySeconds + (time - times[i]);
        i := i + 1;
        if i == times.Length {
          assert false;
        }
      }
      minutes := delaySeconds as real / 60.0;
    }

    /**
     * maximumTime: walks the gaps while the penalty budget lasts and turns
     * the rest of the budget into seconds after the first time.
     */
    method MaximumTime(maxPenalty: real) returns (r: int)
      requires times.Length >= 1
      ensures r == MaximumTimeFrom(times[..], 1, maxPenalty)
    {
      var budget := maxPenalty;
      var result := times[0];
      var i := 1;
      while i < times.Length
        invariant 1 <= i <= times.Length
        invariant MaximumTimeFrom(times[..], i, budget) == MaximumTimeFrom(times[..], 1, maxPenalty)
      {
        var delta := ((times[i] - times[i - 1]) * i) as real;
        if delta > budget {
          return result + (60.0 * budget / (i as real)).Floor;
        }
        budget := budget - delta;
        i := i + 1;
      }
      return result + (60.0 * budget / (times.Length as real)).Floor;
    }
  }

  /**
   * min: the first set when there is no second one; otherwise, despite the
   * name, the elementwise maximum of two sets of equal size.
   */
  method Min(timeSet1: PenaltyTimeSet, timeSet2: PenaltyTimeSet?) returns (r: PenaltyTimeSet)
    requires timeSet2 != null ==> timeSet1.times.Length == timeSet2.times.Length
    ensures timeSet2 == null ==> r == timeSet1
    ensures timeSet2 != null ==> r.times[..] == ElementwiseMax(timeSet1.times[..], timeSet2.times[..])
  {
    if timeSet2 == null {
      return timeSet1;
    }
    var a := new int[timeSet1.times.Length];
    var i := 0;
    while i < a.Length
      invariant 0 <= i <= a.Length
      invariant forall j :: 0 <= j < i ==>
        a[j] == if timeSet1.times[j] >= timeSet2.times[j] then timeSet1.times[j] else timeSet2.times[j]
    {
      a[i] := if timeSet1.times[i] >= timeSet2.times[i] then timeSet1.times[i] else timeSet2.times[i];
      i := i + 1;
    }
    r := new PenaltyTimeSet.FromArray(a);
  }

  // ---------------------------------------------------------------------
  // What the operations promise about sorted sets.

  /** with keeps a sorted set sorted and adds exactly the one time. */
  lemma {:induction false} InsertedSorted(s: seq<int>, t: int)
    requires SortedInts(s)
    ensures SortedInts(Inserted(s, t))
    ensures |Inserted(s, t)| == |s| + 1
    ensures multiset(Inserted(s, t)) == multiset(s) + multiset{t}
  {
    var pos := FirstAtLeast(s, t);
    var r := Inserted(s, t);
    assert s == s[..pos] + s[pos..];
    forall i, j | 0 <= i < j < |r|
      ensures r[i] <= r[j]
    {
      if j < pos {
      } else if j == pos {
      } else if i < pos {
        assert s[i] < t <= s[pos] <= s[j - 1];
      } else if i == pos {
        assert t <= s[pos] <= s[j - 1];
      }
    }
  }

  /** subtract keeps a set sorted and its size. */
  lemma {:induction false} ShiftedSorted(s: seq<int>, delta: int)
    requires SortedInts(s)
    ensures SortedInts(Shifted(s, delta))
  {
    var r := Shifted(s, delta);
    forall i, j | 0 <= i < j < |r|
      ensures r[i] <= r[j]
    {
      assert s[i] <= s[j];
    }
  }

  /** replaced yields a sorted set of the same size holding newTime in place of one oldTime. */
  lemma {:induction false} ReplacedSorted(s: seq<int>, oldTime: int, newTime: int)
    requires oldTime in s
    ensures var r := SortInts(s[FirstIndexOf(s, oldTime) := newTime]);
      SortedInts(r) && |r| == |s| &&
      multiset(r) == multiset(s) - multiset{oldTime} + multiset{newTime}
  {
    var pos := FirstIndexOf(s, oldTime);
    var u := s[pos := newTime];
    assert s == s[..pos] + [oldTime] + s[pos + 1..];
    assert u == s[..pos] + [newTime] + s[pos + 1..];
    assert |multiset(SortInts(u))| == |multiset(u)|;
  }

  /** On a sorted set the delay delay computes is the delay beyond every time below. */
  lemma {:induction false} LeadingDelayIsTotal(s: seq<int>, t: int)
    requires SortedInts(s)
    ensures LeadingDelay(s, t) == TotalDelay(s, t)
    decreases |s|
  {
    if |s| > 0 {
      assert SortedInts(s[1..]);
      LeadingDelayIsTotal(s[1..], t);
      if s[0] >= t {
        NoDelayBelowFirst(s[1..], t);
      }
    }
  }

  /** No time above t delays it. */
  lemma {:induction false} NoDelayBelowFirst(s: seq<int>, t: int)
    requires forall i :: 0 <= i < |s| ==> s[i] >= t
    ensures TotalDelay(s, t) == 0 && LeadingDelay(s, t) == 0
    decreases |s|
  {
    if |s| > 0 {
      NoDelayBelowFirst(s[1..], t);
    }
  }

  /** The delay of a time no later than the first time of a sorted set is 0. */
  lemma {:induction false} DelayBeforeFirstIsZero(s: seq<int>, t: int)
    requires SortedInts(s) && |s| > 0 && t <= s[0]
    ensures LeadingDelay(s, t) == 0 && TotalDelay(s, t) == 0
  {
    NoDelayBelowFirst(s, t);
  }

  /** Spreading a non-negative budget never yields more than budget · 60 seconds. */
  lemma {:induction false} SpreadBounds(budget: real, n: nat)
    requires 0.0 <= budget && 1 <= n
    ensures 0 <= (60.0 * budget / (n as real)).Floor <= (60.0 * budget).Floor
  {
    var q := 60.0 * budget / (n as real);
    assert q * (n as real) == 60.0 * budget;
    assert q <= 60.0 * budget;
  }

  /**
   * For a sorted set and a non-negative budget, maximumTime lies between the first time and
   * the first time plus the whole budget in seconds.
   */
  lemma {:induction false} MaximumTimeBounds(s: seq<int>, i: nat, budget: real, total: real)
    requires SortedInts(s)
    requires 1 <= i <= |s| && 0.0 <= budget <= total
    ensures s[0] <= MaximumTimeFrom(s, i, budget) <= s[0] + (60.0 * total).Floor
    decreases |s| - i
  {
    SpreadBounds(budget, if i == |s| then |s| else i);
    assert (60.0 * budget).Floor <= (60.0 * total).Floor;
    if i < |s| {
      var delta := ((s[i] - s[i - 1]) * i) as real;
      assert s[i - 1] <= s[i];
      assert 0.0 <= delta;
      if delta <= budget {
        MaximumTimeBounds(s, i + 1, budget - delta, total);
      }
    }
  }

  /** For a single time, maximumTime spends the whole budget, and that delay stays within it. */
  lemma {:induction false} MaximumTimeSingle(a: int, budget: real)
    requires 0.0 <= budget
    ensures MaximumTimeFrom([a], 1, budget) == a + (60.0 * budget).Floor
    ensures TotalDelay([a], MaximumTimeFrom([a], 1, budget)) as real / 60.0 <= budget
  {
    var t := a + (60.0 * budget).Floor;
    assert 60.0 * budget / 1.0 == 60.0 * budget;
    assert [a][1..] == [];
    assert TotalDelay([a], t) == (if a < t then t - a else 0);
  }

  /** min takes, position by position, the later of the two times, so both sets are bounded by it. */
  lemma {:induction false} ElementwiseMaxBounds(s1: seq<int>, s2: seq<int>)
    requires |s1| == |s2|
    ensures forall i :: 0 <= i < |s1| ==>
      s1[i] <= ElementwiseMax(s1, s2)[i] && s2[i] <= ElementwiseMax(s1, s2)[i]
    ensures SortedInts(s1) && SortedInts(s2) ==> SortedInts(ElementwiseMax(s1, s2))
  {
    var r := ElementwiseMax(s1, s2);
    if SortedInts(s1) && SortedInts(s2) {
      forall i, j | 0 <= i < j < |r|
        ensures r[i] <= r[j]
      {
        assert s1[i] <= s1[j] && s2[i] <= s2[j];
      }
    }
  }
}
