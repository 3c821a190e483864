/**
 * Candidate resolutions of a conflict (ConflictSchedule.java): a list of
 * restrictions together with a badness vector whose first component is the
 * most significant.  Vectors are compared component by component, values
 * closer than BADNESS_EPS counting as equal.
 */
module Schedules {
  import opened Common
  import opened Restrictions

  const BADNESS_EPS: real := 0.000001

  datatype Badness = Badness(values: seq<real>)
  {
    /** push: the new value becomes the most significant component. */
    function Push(value: real): (r: Badness)
      ensures |r.values| == |values| + 1
      ensures r.values[0] == value && r.values[1..] == values
    {
      Badness([value] + values)
    }

    /**
     * compareTo: skip leading pairs within BADNESS_EPS of each other; the
     * first pair that is not decides, and 0 if there is none.  Vectors of
     * different lengths are refused, and an empty vector is read at index 0.
     */
    method CompareTo(o: Badness) returns (c: int)
      requires |o.values| == |values| && |values| > 0
      ensures c == Compare(values, o.values)
    {
      var i := 0;
      while RealAbs(values[i] - o.values[i]) < BADNESS_EPS
        invariant 0 <= i < |values|
        invariant Compare(values, o.values) == CompareFrom(values, o.values, i)
        decreases |values| - i
      {
        i := i + 1;
        if i == |values| {
          return 0;
        }
      }
      c := if values[i] < o.values[i] then -1 else 1;
    }
  }

  /** Comparison of two badness vectors of one length, from index i on. */
  function CompareFrom(a: seq<real>, b: seq<real>, i: nat): (r: int)
    requires i < |a| == |b|
    ensures -1 <= r <= 1
    decreases |a| - i
  {
    if RealAbs(a[i] - b[i]) < BADNESS_EPS then
      if i + 1 == |a| then 0 else CompareFrom(a, b, i + 1)
    else if a[i] < b[i] then -1 else 1
  }

  function Compare(a: seq<real>, b: seq<real>): (r: int)
    requires 0 < |a| == |b|
  {
    CompareFrom(a, b, 0)
  }

  /** The two vectors agree within BADNESS_EPS at every index from i on. */
  predicate CloseFrom(a: seq<real>, b: seq<real>, i: nat)
    requires |a| == |b|
  {
    forall k :: i <= k < |a| ==> RealAbs(a[k] - b[k]) < BADNESS_EPS
  }

  lemma {:induction false} CompareFromZeroIff(a: seq<real>, b: seq<real>, i: nat)
    requires i < |a| == |b|
    ensures CompareFrom(a, b, i) == 0 <==> CloseFrom(a, b, i)
    decreases |a| - i
  {
    if RealAbs(a[i] - b[i]) < BADNESS_EPS && i + 1 < |a| {
      CompareFromZeroIff(a, b, i + 1);
    }
  }

  /** compareTo gives 0 exactly when every pair of components is within BADNESS_EPS. */
  lemma CompareZeroIff(a: seq<real>, b: seq<real>)
    requires 0 < |a| == |b|
    ensures Compare(a, b) == 0 <==> forall k :: 0 <= k < |a| ==> RealAbs(a[k] - b[k]) < BADNESS_EPS
  {
    CompareFromZeroIff(a, b, 0);
  }

  lemma {:induction false} FirstDifferenceDecidesFrom(a: seq<real>, b: seq<real>, i: nat, k: nat)
    requires i <= k < |a| == |b|
    requires forall j :: i <= j < k ==> RealAbs(a[j] - b[j]) < BADNESS_EPS
    requires RealAbs(a[k] - b[k]) >= BADNESS_EPS
    ensures CompareFrom(a, b, i) == if a[k] < b[k] then -1 else 1
    decreases k - i
  {
    if i < k {
      FirstDifferenceDecidesFrom(a, b, i + 1, k);
    }
  }

  /**
   * The first pair of components that differ by at least BADNESS_EPS
   * decides: -1 when the first vector's component is the smaller.
   */
  lemma FirstDifferenceDecides(a: seq<real>, b: seq<real>, k: nat)
    requires k < |a| == |b|
    requires forall j :: 0 <= j < k ==> RealAbs(a[j] - b[j]) < BADNESS_EPS
    requires RealAbs(a[k] - b[k]) >= BADNESS_EPS
    ensures Compare(a, b) == if a[k] < b[k] then -1 else 1
  {
    FirstDifferenceDecidesFrom(a, b, 0, k);
  }

  /** Every vector compares equal to itself. */
  lemma CompareReflexive(a: seq<real>)
    requires 0 < |a|
    ensures Compare(a, a) == 0
  {
    CompareZeroIff(a, a);
  }

  lemma {:induction false} CompareFromAntisymmetric(a: seq<real>, b: seq<real>, i: nat)
    requires i < |a| == |b|
    ensures CompareFrom(a, b, i) == -CompareFrom(b, a, i)
    decreases |a| - i
  {
    assert RealAbs(a[i] - b[i]) == RealAbs(b[i] - a[i]);
    if RealAbs(a[i] - b[i]) < BADNESS_EPS && i + 1 < |a| {
      CompareFromAntisymmetric(a, b, i + 1);
    }
  }

  /** Swapping the operands negates the result. */
  lemma CompareAntisymmetric(a: seq<real>, b: seq<real>)
    requires 0 < |a| == |b|
    ensures Compare(a, b) == -Compare(b, a)
  {
    CompareFromAntisymmetric(a, b, 0);
  }

  /**
   * After pushing onto two vectors, the pushed values decide when they are
   * BADNESS_EPS apart; otherwise the old vectors decide.
   */
  lemma PushIsMostSignificant(a: Badness, b: Badness, x: real, y: real)
    requires 0 < |a.values| == |b.values|
    ensures RealAbs(x - y) >= BADNESS_EPS ==>
      Compare(a.Push(x).values, b.Push(y).values) == if x < y then -1 else 1
    ensures RealAbs(x - y) < BADNESS_EPS ==>
      Compare(a.Push(x).values, b.Push(y).values) == Compare(a.values, b.values)
  {
    var pa, pb := a.Push(x).values, b.Push(y).values;
    if RealAbs(x - y) < BADNESS_EPS {
      CompareFromShift(a.values, b.values, x, y, 0);
    }
  }

  lemma {:induction false} CompareFromShift(a: seq<real>, b: seq<real>, x: real, y: real, i: nat)
    requires i < |a| == |b|
    ensures CompareFrom([x] + a, [y] + b, i + 1) == CompareFrom(a, b, i)
    decreases |a| - i
  {
    var pa, pb := [x] + a, [y] + b;
    assert pa[i + 1] == a[i] && pb[i + 1] == b[i];
    if RealAbs(a[i] - b[i]) < BADNESS_EPS && i + 1 < |a| {
      CompareFromShift(a, b, x, y, i + 1);
    }
  }

  /**
   * A candidate resolution: the restrictions to apply and how bad the
   * result is expected to be.
   */
  datatype ConflictSchedule = ConflictSchedule(restrictions: seq<Restriction>, badness: Badness)
  {
    /** withBadness: the same restrictions, the new value pushed onto the badness. */
    function WithBadness(value: real): (r: ConflictSchedule)
      ensures SameSchedule(r, this)
      ensures |r.badness.values| == |badness.values| + 1
      ensures r.badness.values[0] == value && r.badness.values[1..] == badness.values
    {
      ConflictSchedule(restrictions, badness.Push(value))
    }
  }

  /** The list-only constructor: an empty badness vector. */
  function Unscored(restrictions: seq<Restriction>): (r: ConflictSchedule)
    ensures r.restrictions == restrictions && |r.badness.values| == 0
  {
    ConflictSchedule(restrictions, Badness([]))
  }

  /** The constructor with one badness value. */
  function Scored(restrictions: seq<Restriction>, value: real): (r: ConflictSchedule)
    ensures r.restrictions == restrictions && r.badness.values == [value]
  {
    ConflictSchedule(restrictions, Badness([value]))
  }

  /** equals and hashCode look at the restriction list only. */
  predicate SameSchedule(a: ConflictSchedule, b: ConflictSchedule)
  {
    a.restrictions == b.restrictions
  }

  /**
   * Schedules that differ only in badness are equal: scoring a schedule
   * keeps it equal to exactly the schedules it was equal to.
   */
  lemma ScoringKeepsIdentity(s: ConflictSchedule, t: ConflictSchedule, value: real)
    ensures SameSchedule(Unscored(s.restrictions), s)
    ensures SameSchedule(s.WithBadness(value), t) <==> SameSchedule(s, t)
  {
  }
}
