/**
 * The per-edge time windows of one intention and the pure queries over
 * them (GraphConstraints.java): the TimeConstraint value, the four
 * neighbour bounds, one propagation step of the edge updater, the two
 * sweeps behind getOccupationTimes, and the measure under which
 * propagation stops.
 *
 * A window list `tc` holds one TimeConstraint per edge of the route graph,
 * `md` the edges' minimum durations and `inf` the infeasible edges.
 */
module TimeBounds {
  import opened Common
  import opened TimeUtil
  import opened RouteGraphs
  import opened Occupation

  /** An edge's window: enter no earlier than entryEarliest, leave no later than exitLatest. */
  datatype TimeConstraint = TimeConstraint(entryEarliest: int, exitLatest: int)
  {
    /** withEntryEarliest: raise the entry bound to time; a bound that would not rise keeps this window. */
    function WithEntryEarliest(time: int): (r: TimeConstraint)
      ensures r.exitLatest == exitLatest
      ensures r.entryEarliest >= entryEarliest && r.entryEarliest >= time
      ensures r == this || r.entryEarliest == time
      ensures time <= entryEarliest ==> r == this
    {
      if time <= entryEarliest then this else TimeConstraint(time, exitLatest)
    }

    /** withExitLatest: lower the exit bound to time; a bound that would not fall keeps this window. */
    function WithExitLatest(time: int): (r: TimeConstraint)
      ensures r.entryEarliest == entryEarliest
      ensures r.exitLatest <= exitLatest && r.exitLatest <= time
      ensures r == this || r.exitLatest == time
      ensures time >= exitLatest ==> r == this
    {
      if time >= exitLatest then this else TimeConstraint(entryEarliest, time)
    }
  }

  /** The window of an edge no requirement constrains: [0, TMAX]. */
  const Unconstrained: TimeConstraint := TimeConstraint(0, TMAX)

  /** c is at least as tight as d. */
  predicate Within(c: TimeConstraint, d: TimeConstraint)
  {
    c.entryEarliest >= d.entryEarliest && c.exitLatest <= d.exitLatest
  }

  /** Every window of tc2 is at least as tight as the same edge's window in tc1. */
  predicate Tighter(tc2: seq<TimeConstraint>, tc1: seq<TimeConstraint>)
  {
    |tc2| == |tc1| && forall i :: 0 <= i < |tc1| ==> Within(tc2[i], tc1[i])
  }

  /** Raising the entry bound twice is raising it once to the larger time, and the two withers commute. */
  lemma {:induction false} WithersCompose(c: TimeConstraint, a: int, b: int)
    ensures c.WithEntryEarliest(a).WithEntryEarliest(b) == c.WithEntryEarliest(Max(a, b))
    ensures c.WithExitLatest(a).WithExitLatest(b) == c.WithExitLatest(Min(a, b))
    ensures c.WithEntryEarliest(a).WithExitLatest(b) == c.WithExitLatest(b).WithEntryEarliest(a)
  {
  }

  /** The windows are one per edge, as are the minimum durations. */
  predicate Sized(edges: seq<Edge>, md: seq<int>, tc: seq<TimeConstraint>)
  {
    |md| == |edges| && |tc| == |edges|
  }

  predicate Indices(es: seq<nat>, n: nat)
  {
    forall k :: 0 <= k < |es| ==> es[k] < n
  }

  // ---------------------------------------------------------------------
  // The neighbour bounds.

  /**
   * getEarliestIncoming, getLatestIncoming, getLatestOutgoing and
   * getEarliestOutgoing: the same loop over a node's previous or next
   * edges with a different term, combination and start value.
   */
  datatype Bound = EarliestIncoming | LatestIncoming | LatestOutgoing | EarliestOutgoing
  {
    predicate TakesMin()
    {
      this == EarliestIncoming || this == EarliestOutgoing
    }

    predicate Incoming()
    {
      this == EarliestIncoming || this == LatestIncoming
    }

    /** The value with no feasible neighbour: TMAX for a minimum, 0 for a maximum. */
    function Default(): int
    {
      if TakesMin() then TMAX else 0
    }

    /** What one feasible neighbour edge contributes. */
    function Term(c: TimeConstraint, minDuration: int): int
    {
      match this
      case EarliestIncoming => c.entryEarliest + minDuration
      case LatestIncoming => c.exitLatest
      case LatestOutgoing => c.exitLatest - minDuration
      case EarliestOutgoing => c.entryEarliest
    }

    function Combine(acc: int, term: int): int
    {
      if TakesMin() then Min(acc, term) else Max(acc, term)
    }

    /**
     * The node check each query starts with: the earliest bounds refuse
     * the source (a node with no previous edge), the latest bounds the
     * sink (a node with no next edge).
     */
    predicate Queryable(edges: seq<Edge>, n: int)
    {
      if TakesMin() then Previous(edges, n) != [] else Next(edges, n) != []
    }
  }

  /** The loop of a neighbour query over the edges es, infeasible ones skipped. */
  function Fold(b: Bound, md: seq<int>, tc: seq<TimeConstraint>, inf: set<nat>, es: seq<nat>): (r: int)
    requires |md| == |tc| && Indices(es, |tc|)
    ensures b.TakesMin() ==> r <= TMAX
    ensures !b.TakesMin() ==> r >= 0
    decreases |es|
  {
    if es == [] then b.Default()
    else
      var e := es[|es| - 1];
      var acc := Fold(b, md, tc, inf, es[..|es| - 1]);
      if e in inf then acc else b.Combine(acc, b.Term(tc[e], md[e]))
  }

  /** The edges a query looks at: entering n for the incoming bounds, leaving n for the outgoing ones. */
  function Neighbours(b: Bound, edges: seq<Edge>, n: int): (r: seq<nat>)
    ensures Indices(r, |edges|)
  {
    if b.Incoming() then Previous(edges, n) else Next(edges, n)
  }

  function NeighbourBound(b: Bound, edges: seq<Edge>, md: seq<int>, tc: seq<TimeConstraint>,
                          inf: set<nat>, n: int): int
    requires Sized(edges, md, tc)
  {
    Fold(b, md, tc, inf, Neighbours(b, edges, n))
  }

  /**
   * A query is the extreme term over the feasible edges: no feasible term
   * beats it, nor does the start value, and it is the start value or one
   * of the feasible terms.
   */
  lemma {:induction false} FoldIsExtreme(b: Bound, md: seq<int>, tc: seq<TimeConstraint>, inf: set<nat>, es: seq<nat>)
    requires |md| == |tc| && Indices(es, |tc|)
    ensures b.TakesMin() ==> forall k :: 0 <= k < |es| && es[k] !in inf ==>
      Fold(b, md, tc, inf, es) <= b.Term(tc[es[k]], md[es[k]])
    ensures !b.TakesMin() ==> forall k :: 0 <= k < |es| && es[k] !in inf ==>
      Fold(b, md, tc, inf, es) >= b.Term(tc[es[k]], md[es[k]])
    ensures Fold(b, md, tc, inf, es) == b.Default() ||
      exists k :: 0 <= k < |es| && es[k] !in inf && Fold(b, md, tc, inf, es) == b.Term(tc[es[k]], md[es[k]])
    decreases |es|
  {
    if es != [] {
      var front := es[..|es| - 1];
      FoldIsExtreme(b, md, tc, inf, front);
      var r := Fold(b, md, tc, inf, es);
      var e := es[|es| - 1];
      assert forall k :: 0 <= k < |front| ==> es[k] == front[k];
      if r != b.Default() {
        if e !in inf && r == b.Term(tc[e], md[e]) {
          assert es[|es| - 1] == e;
        } else {
          var k :| 0 <= k < |front| && front[k] !in inf && Fold(b, md, tc, inf, front) == b.Term(tc[front[k]], md[front[k]]);
          assert es[k] == front[k];
        }
      }
    }
  }

  /** With no feasible edge a query gives its start value. */
  lemma {:induction false} FoldOfInfeasible(b: Bound, md: seq<int>, tc: seq<TimeConstraint>, inf: set<nat>, es: seq<nat>)
    requires |md| == |tc| && Indices(es, |tc|)
    requires forall k :: 0 <= k < |es| ==> es[k] in inf
    ensures Fold(b, md, tc, inf, es) == b.Default()
    decreases |es|
  {
    if es != [] {
      FoldOfInfeasible(b, md, tc, inf, es[..|es| - 1]);
    }
  }

  /**
   * Queries tighten with the windows: tighter windows and more infeasible
   * edges only raise the earliest bounds and only lower the latest ones.
   */
  lemma {:induction false} FoldTightens(b: Bound, md: seq<int>, tc1: seq<TimeConstraint>, tc2: seq<TimeConstraint>,
                                        inf1: set<nat>, inf2: set<nat>, es: seq<nat>)
    requires |md| == |tc1| && Tighter(tc2, tc1) && inf1 <= inf2 && Indices(es, |tc1|)
    ensures b.TakesMin() ==> Fold(b, md, tc2, inf2, es) >= Fold(b, md, tc1, inf1, es)
    ensures !b.TakesMin() ==> Fold(b, md, tc2, inf2, es) <= Fold(b, md, tc1, inf1, es)
    decreases |es|
  {
    if es != [] {
      FoldTightens(b, md, tc1, tc2, inf1, inf2, es[..|es| - 1]);
      var e := es[|es| - 1];
      assert Within(tc2[e], tc1[e]);
    }
  }

  /** A query reads only the windows of the edges it looks at. */
  lemma {:induction false} FoldFrame(b: Bound, md: seq<int>, tc1: seq<TimeConstraint>, tc2: seq<TimeConstraint>,
                                     inf: set<nat>, es: seq<nat>)
    requires |md| == |tc1| == |tc2| && Indices(es, |tc1|)
    requires forall k :: 0 <= k < |es| ==> tc1[es[k]] == tc2[es[k]]
    ensures Fold(b, md, tc1, inf, es) == Fold(b, md, tc2, inf, es)
    decreases |es|
  {
    if es != [] {
      FoldFrame(b, md, tc1, tc2, inf, es[..|es| - 1]);
    }
  }

  // ---------------------------------------------------------------------
  // One step of the edge updater.

  /**
   * The window process(edge) computes for a feasible edge: the entry bound
   * raised to the earliest incoming time unless the edge leaves the
   * source, then the exit bound lowered to the latest outgoing time unless
   * it enters the sink.  Both are read from the windows before the step.
   */
  function Propagated(edges: seq<Edge>, md: seq<int>, tc: seq<TimeConstraint>, inf: set<nat>, e: nat): (c: TimeConstraint)
    requires Sized(edges, md, tc) && e < |edges|
    ensures Within(c, tc[e])
    ensures Previous(edges, edges[e].start) != [] ==>
      c.entryEarliest >= NeighbourBound(EarliestIncoming, edges, md, tc, inf, edges[e].start)
    ensures c.entryEarliest == tc[e].entryEarliest ||
      c.entryEarliest == NeighbourBound(EarliestIncoming, edges, md, tc, inf, edges[e].start)
    ensures Next(edges, edges[e].end) != [] ==>
      c.exitLatest <= NeighbourBound(LatestOutgoing, edges, md, tc, inf, edges[e].end)
    ensures c.exitLatest == tc[e].exitLatest ||
      c.exitLatest == NeighbourBound(LatestOutgoing, edges, md, tc, inf, edges[e].end)
  {
    var c0 := tc[e];
    var c1 := if Previous(edges, edges[e].start) == [] then c0
              else c0.WithEntryEarliest(NeighbourBound(EarliestIncoming, edges, md, tc, inf, edges[e].start));
    if Next(edges, edges[e].end) == [] then c1
    else c1.WithExitLatest(NeighbourBound(LatestOutgoing, edges, md, tc, inf, edges[e].end))
  }

  /**
   * The test after the step: an edge is infeasible when its window is
   * shorter than its minimum duration, when the latest incoming time is
   * before its entry bound, or when the earliest outgoing time is after
   * its exit bound.
   */
  predicate Broken(edges: seq<Edge>, md: seq<int>, tc: seq<TimeConstraint>, inf: set<nat>, e: nat)
    requires Sized(edges, md, tc) && e < |edges|
  {
    tc[e].exitLatest - tc[e].entryEarliest < md[e] ||
    NeighbourBound(LatestIncoming, edges, md, tc, inf, edges[e].start) < tc[e].entryEarliest ||
    NeighbourBound(EarliestOutgoing, edges, md, tc, inf, edges[e].end) > tc[e].exitLatest
  }

  // ---------------------------------------------------------------------
  // Why the edge updater stops.

  /** The edges among the first n that are not infeasible. */
  function FeasibleSet(n: nat, inf: set<nat>): set<nat>
  {
    set i: nat | i < n && i !in inf
  }

  /** With every infeasible edge among the first n, the feasible ones number n less the infeasible ones. */
  lemma {:induction false} FeasibleCount(n: nat, inf: set<nat>)
    requires forall x | x in inf :: x < n
    ensures |FeasibleSet(n, inf)| == n - |inf|
  {
    if n == 0 {
      assert inf == {};
      assert FeasibleSet(n, inf) == {};
    } else {
      var rest := inf - {n - 1};
      FeasibleCount(n - 1, rest);
      if n - 1 in inf {
        assert FeasibleSet(n, inf) == FeasibleSet(n - 1, rest);
      } else {
        assert FeasibleSet(n, inf) == FeasibleSet(n - 1, rest) + {n - 1};
      }
    }
  }


  /** No entry bound above hi and no exit bound below lo. */
  predicate Bounded(tc: seq<TimeConstraint>, hi: int, lo: int)
  {
    forall i :: 0 <= i < |tc| ==> tc[i].entryEarliest <= hi && lo <= tc[i].exitLatest
  }

  /** How far a window can still tighten within [lo, hi]. */
  function Slack(c: TimeConstraint, hi: int, lo: int): int
  {
    (hi - c.entryEarliest) + (c.exitLatest - lo)
  }

  /** The total slack of the feasible edges among the first n. */
  function Potential(tc: seq<TimeConstraint>, inf: set<nat>, hi: int, lo: int, n: nat): int
    requires n <= |tc|
  {
    if n == 0 then 0
    else Potential(tc, inf, hi, lo, n - 1) + (if n - 1 in inf then 0 else Slack(tc[n - 1], hi, lo))
  }

  lemma {:induction false} PotentialNonNegative(tc: seq<TimeConstraint>, inf: set<nat>, hi: int, lo: int, n: nat)
    requires n <= |tc| && Bounded(tc, hi, lo)
    ensures Potential(tc, inf, hi, lo, n) >= 0
  {
    if n > 0 {
      PotentialNonNegative(tc, inf, hi, lo, n - 1);
    }
  }

  /** Replacing one feasible window changes the total by the change of its slack. */
  lemma {:induction false} PotentialUpdate(tc: seq<TimeConstraint>, inf: set<nat>, hi: int, lo: int, e: nat,
                                           c: TimeConstraint, n: nat)
    requires e < |tc| && n <= |tc| && e !in inf
    ensures Potential(tc[e := c], inf, hi, lo, n) ==
      Potential(tc, inf, hi, lo, n) + (if e < n then Slack(c, hi, lo) - Slack(tc[e], hi, lo) else 0)
  {
    if n > 0 {
      PotentialUpdate(tc, inf, hi, lo, e, c, n - 1);
    }
  }

  /** A window list has bounds: the larger of TMAX and every entry bound, the smaller of 0 and every exit bound. */
  lemma {:induction false} HasBounds(tc: seq<TimeConstraint>) returns (hi: int, lo: int)
    ensures Bounded(tc, hi, lo) && hi >= TMAX && lo <= 0
  {
    if tc == [] {
      hi, lo := TMAX, 0;
    } else {
      hi, lo := HasBounds(tc[..|tc| - 1]);
      var last := tc[|tc| - 1];
      hi, lo := Max(hi, last.entryEarliest), Min(lo, last.exitLatest);
      assert forall i :: 0 <= i < |tc| - 1 ==> tc[i] == tc[..|tc| - 1][i];
    }
  }

  /** A propagation step keeps windows within [lo, hi] when hi >= TMAX and lo <= 0. */
  lemma {:induction false} PropagatedBounded(edges: seq<Edge>, md: seq<int>, tc: seq<TimeConstraint>, inf: set<nat>,
                                             e: nat, hi: int, lo: int)
    requires Sized(edges, md, tc) && e < |edges| && Bounded(tc, hi, lo) && hi >= TMAX && lo <= 0
    ensures Bounded(tc[e := Propagated(edges, md, tc, inf, e)], hi, lo)
    ensures Propagated(edges, md, tc, inf, e) != tc[e] ==>
      Slack(Propagated(edges, md, tc, inf, e), hi, lo) < Slack(tc[e], hi, lo)
  {
    var c := Propagated(edges, md, tc, inf, e);
    assert c.entryEarliest <= hi;
    assert c.exitLatest >= lo;
  }

  /**
   * One call of process(edge), from the windows and infeasible edges
   * before it to those after it: nothing for an infeasible edge; else the
   * propagated window, and the edge marked infeasible if the new window
   * is broken.
   */
  predicate Step(edges: seq<Edge>, md: seq<int>, tc: seq<TimeConstraint>, inf: set<nat>, e: nat,
                 tc': seq<TimeConstraint>, inf': set<nat>)
    requires Sized(edges, md, tc) && e < |edges|
  {
    if e in inf then tc' == tc && inf' == inf
    else
      tc' == tc[e := Propagated(edges, md, tc, inf, e)] &&
      inf' == inf + (if Broken(edges, md, tc', inf, e) then {e} else {})
  }

  /** A step only tightens windows and only adds infeasible edges. */
  lemma {:induction false} StepTightens(edges: seq<Edge>, md: seq<int>, tc: seq<TimeConstraint>, inf: set<nat>, e: nat,
                                        tc': seq<TimeConstraint>, inf': set<nat>)
    requires Sized(edges, md, tc) && e < |edges| && Step(edges, md, tc, inf, e, tc', inf')
    ensures Tighter(tc', tc) && inf <= inf'
  {
  }

  /**
   * Why the edge updater's loop stops: a step that changes anything
   * either removes a feasible edge or lowers the total slack of the
   * feasible windows, which stays non-negative.
   */
  lemma {:induction false} StepDecreases(edges: seq<Edge>, md: seq<int>, tc: seq<TimeConstraint>, inf: set<nat>, e: nat,
                                         tc': seq<TimeConstraint>, inf': set<nat>, hi: int, lo: int)
    requires Sized(edges, md, tc) && e < |edges| && Step(edges, md, tc, inf, e, tc', inf')
    requires Bounded(tc, hi, lo) && hi >= TMAX && lo <= 0
    ensures Bounded(tc', hi, lo) && Potential(tc', inf', hi, lo, |edges|) >= 0
    ensures FeasibleSet(|edges|, inf') <= FeasibleSet(|edges|, inf)
    ensures FeasibleSet(|edges|, inf') == FeasibleSet(|edges|, inf) ==>
      inf' == inf &&
      (Potential(tc', inf', hi, lo, |edges|) < Potential(tc, inf, hi, lo, |edges|) || tc' == tc)
  {
    if e !in inf {
      PropagatedBounded(edges, md, tc, inf, e, hi, lo);
      if inf' != inf {
        assert e in FeasibleSet(|edges|, inf) && e !in FeasibleSet(|edges|, inf');
      } else {
        PotentialUpdate(tc, inf, hi, lo, e, tc'[e], |edges|);
      }
    }
    PotentialNonNegative(tc', inf', hi, lo, |edges|);
  }

  // ---------------------------------------------------------------------
  // The sweeps of getOccupationTimes over a flow of edges.

  predicate Flow(edges: seq<Edge>, flow: seq<nat>)
  {
    Indices(flow, |edges|)
  }

  /**
   * What the sweeps read at one flow edge: its window, its minimum
   * duration, the earliest outgoing time at its end and the latest
   * incoming time at its start.
   */
  datatype Leg = Leg(entryEarliest: int, exitLatest: int, minDuration: int, earliestOut: int, latestIn: int)

  function LegOf(edges: seq<Edge>, md: seq<int>, tc: seq<TimeConstraint>, inf: set<nat>, e: nat): Leg
    requires Sized(edges, md, tc) && e < |edges|
  {
    Leg(tc[e].entryEarliest, tc[e].exitLatest, md[e],
        NeighbourBound(EarliestOutgoing, edges, md, tc, inf, edges[e].end),
        NeighbourBound(LatestIncoming, edges, md, tc, inf, edges[e].start))
  }

  function Legs(edges: seq<Edge>, md: seq<int>, tc: seq<TimeConstraint>, inf: set<nat>, flow: seq<nat>): (legs: seq<Leg>)
    requires Sized(edges, md, tc) && Flow(edges, flow)
    ensures |legs| == |flow|
    ensures forall k :: 0 <= k < |flow| ==> legs[k] == LegOf(edges, md, tc, inf, flow[k])
  {
    seq(|flow|, k requires 0 <= k < |flow| => LegOf(edges, md, tc, inf, flow[k]))
  }

  /** The forward pass: the earliest time after the first k legs. */
  function Forward(legs: seq<Leg>, k: nat): int
    requires k <= |legs|
  {
    if k == 0 then 0
    else
      var leg := legs[k - 1];
      Max(Max(Forward(legs, k - 1), leg.entryEarliest) + leg.minDuration, leg.earliestOut)
  }

  /** The earliest entry into leg k. */
  function EntryAt(legs: seq<Leg>, k: nat): int
    requires k < |legs|
  {
    Max(Forward(legs, k), legs[k].entryEarliest)
  }

  /** The backward pass: the latest time before legs k, k+1, ... */
  function Backward(legs: seq<Leg>, k: nat): int
    requires k <= |legs|
    decreases |legs| - k
  {
    if k == |legs| then TMAX
    else
      var leg := legs[k];
      Min(Min(Backward(legs, k + 1), leg.exitLatest) - leg.minDuration, leg.latestIn)
  }

  /** The latest exit from leg k. */
  function ExitAt(legs: seq<Leg>, k: nat): int
    requires k < |legs|
  {
    Min(Backward(legs, k + 1), legs[k].exitLatest)
  }

  /** The last position of x in s, or -1. */
  function LastIndex(s: seq<nat>, x: nat): (i: int)
    ensures -1 <= i < |s|
    ensures i >= 0 ==> s[i] == x && forall j :: i < j < |s| ==> s[j] != x
    ensures i == -1 <==> x !in s
  {
    if s == [] then -1
    else if s[|s| - 1] == x then |s| - 1
    else LastIndex(s[..|s| - 1], x)
  }

  /** The first position of x in s, or -1. */
  function FirstIndex(s: seq<nat>, x: nat): (i: int)
    ensures -1 <= i < |s|
    ensures i >= 0 ==> s[i] == x && forall j :: 0 <= j < i ==> s[j] != x
    ensures i == -1 <==> x !in s
  {
    if s == [] then -1
    else if s[0] == x then 0
    else
      var j := FirstIndex(s[1..], x);
      if j == -1 then -1 else j + 1
  }

  lemma ForwardStep(legs: seq<Leg>, i: nat)
    requires i < |legs|
    ensures Forward(legs, i + 1) == Max(Max(Forward(legs, i), legs[i].entryEarliest) + legs[i].minDuration, legs[i].earliestOut)
    ensures EntryAt(legs, i) == Max(Forward(legs, i), legs[i].entryEarliest)
  {
  }

  lemma BackwardStep(legs: seq<Leg>, i: nat)
    requires 0 < i <= |legs|
    ensures Backward(legs, i - 1) == Min(Min(Backward(legs, i), legs[i - 1].exitLatest) - legs[i - 1].minDuration, legs[i - 1].latestIn)
    ensures ExitAt(legs, i - 1) == Min(Backward(legs, i), legs[i - 1].exitLatest)
  {
  }

  /** One more flow edge divides the weight by the number of feasible edges leaving its start. */
  lemma FlowWeightStep(edges: seq<Edge>, inf: set<nat>, w: real, flow: seq<nat>, i: nat)
    requires Flow(edges, flow) && i < |flow| && forall k :: 0 <= k <= i ==> flow[k] !in inf
    ensures CountFeasible(Next(edges, edges[flow[i]].start), inf) >= 1
    ensures FlowWeightUpTo(edges, inf, w, flow, i + 1) ==
      FlowWeightUpTo(edges, inf, w, flow, i) / CountFeasible(Next(edges, edges[flow[i]].start), inf) as real
  {
    NextComplete(edges, edges[flow[i]].start);
    CountFeasiblePositive(Next(edges, edges[flow[i]].start), inf, flow[i]);
  }

  /** The last position of x among the first i elements of s, or -1. */
  function LastBefore(s: seq<nat>, x: nat, i: nat): (r: int)
    requires i <= |s|
    ensures -1 <= r < i
  {
    if i == 0 then -1 else if s[i - 1] == x then i - 1 else LastBefore(s, x, i - 1)
  }

  lemma LastBeforeStep(s: seq<nat>, x: nat, y: nat, i: nat)
    requires i < |s|
    ensures LastBefore(s, x, i + 1) == if s[i] == x then i else LastBefore(s, x, i)
    ensures LastBefore(s, y, i + 1) == if s[i] == y then i else LastBefore(s, y, i)
  {
  }

  lemma {:induction false} LastBeforeIsLastIndex(s: seq<nat>, x: nat, i: nat)
    requires i <= |s|
    ensures LastBefore(s, x, i) == LastIndex(s[..i], x)
    ensures i == |s| ==> LastBefore(s, x, i) == LastIndex(s, x)
  {
    assert s[..|s|] == s;
    if i > 0 {
      LastBeforeIsLastIndex(s, x, i - 1);
      assert s[..i][..i - 1] == s[..i - 1];
    }
  }

  /** The first position of x from position i of s on, or -1. */
  function FirstFrom(s: seq<nat>, x: nat, i: nat): (r: int)
    requires i <= |s|
    ensures r == -1 || i <= r < |s|
    decreases |s| - i
  {
    if i == |s| then -1 else if s[i] == x then i else FirstFrom(s, x, i + 1)
  }

  lemma {:induction false} FirstFromIsFirstIndex(s: seq<nat>, x: nat, i: nat)
    requires i <= |s|
    ensures FirstFrom(s, x, i) == (if FirstIndex(s[i..], x) >= 0 then FirstIndex(s[i..], x) + i else -1)
    decreases |s| - i
  {
    if i < |s| {
      FirstFromIsFirstIndex(s, x, i + 1);
      assert s[i..][1..] == s[i + 1..];
    }
  }

  /** countFeasibleEdges */
  function CountFeasible(es: seq<nat>, inf: set<nat>): nat
  {
    if es == [] then 0
    else CountFeasible(es[..|es| - 1], inf) + (if es[|es| - 1] in inf then 0 else 1)
  }

  lemma {:induction false} CountFeasiblePositive(es: seq<nat>, inf: set<nat>, e: nat)
    requires e in es && e !in inf
    ensures CountFeasible(es, inf) >= 1
  {
    if es[|es| - 1] != e {
      assert e in es[..|es| - 1];
      CountFeasiblePositive(es[..|es| - 1], inf, e);
    }
  }

  /** No flow edge is infeasible. */
  predicate AllFeasible(flow: seq<nat>, inf: set<nat>)
  {
    forall k :: 0 <= k < |flow| ==> flow[k] !in inf
  }

  /**
   * The flow's weight: the weight of its first node, divided at each flow
   * edge by the number of feasible edges leaving that edge's start.
   */
  function FlowWeight(edges: seq<Edge>, inf: set<nat>, w: real, flow: seq<nat>): real
    requires Flow(edges, flow) && AllFeasible(flow, inf)
  {
    FlowWeightUpTo(edges, inf, w, flow, |flow|)
  }

  /** The weight after the first i flow edges. */
  function FlowWeightUpTo(edges: seq<Edge>, inf: set<nat>, w: real, flow: seq<nat>, i: nat): real
    requires Flow(edges, flow) && i <= |flow| && forall k :: 0 <= k < i ==> flow[k] !in inf
  {
    if i == 0 then w
    else
      var e := flow[i - 1];
      NextComplete(edges, edges[e].start);
      CountFeasiblePositive(Next(edges, edges[e].start), inf, e);
      FlowWeightUpTo(edges, inf, w, flow, i - 1) / CountFeasible(Next(edges, edges[e].start), inf) as real
  }

  lemma {:induction false} FlowWeightUpToPositive(edges: seq<Edge>, inf: set<nat>, w: real, flow: seq<nat>, i: nat)
    requires Flow(edges, flow) && i <= |flow| && (forall k :: 0 <= k < i ==> flow[k] !in inf) && w > 0.0
    ensures FlowWeightUpTo(edges, inf, w, flow, i) > 0.0
  {
    if i > 0 {
      FlowWeightUpToPositive(edges, inf, w, flow, i - 1);
      var e := flow[i - 1];
      NextComplete(edges, edges[e].start);
      CountFeasiblePositive(Next(edges, edges[e].start), inf, e);
    }
  }

  /** A flow of feasible edges starting at a node of positive weight has a positive weight. */
  lemma FlowWeightPositive(edges: seq<Edge>, inf: set<nat>, w: real, flow: seq<nat>)
    requires Flow(edges, flow) && AllFeasible(flow, inf) && w > 0.0
    ensures FlowWeight(edges, inf, w, flow) > 0.0
  {
    FlowWeightUpToPositive(edges, inf, w, flow, |flow|);
  }

  /**
   * The times of legs from the start leg to the end leg, none when they
   * cross.  The entry bounds are taken at the start edge, the exit bounds
   * at the end edge; the forward pass keeps the last match, the backward
   * pass, which runs in reverse, the first.
   */
  function SweptTimes(legs: seq<Leg>, flow: seq<nat>, start: nat, end: nat, weight: real): (r: Option<OccupationTimes>)
    requires |legs| == |flow| && start in flow && end in flow
    ensures r.Some? ==> r.value.entryEarliest <= r.value.entryLatest && r.value.exitEarliest <= r.value.exitLatest
  {
    var entryEarliest := EntryAt(legs, LastIndex(flow, start));
    var exitEarliest := Forward(legs, LastIndex(flow, end) + 1);
    var exitLatest := ExitAt(legs, FirstIndex(flow, end));
    var entryLatest := Backward(legs, FirstIndex(flow, start));
    if entryLatest < entryEarliest || exitLatest < exitEarliest then None
    else Some(OccupationTimes(entryEarliest, exitEarliest, entryLatest, exitLatest, weight))
  }

  /** getOccupationTimes: none when a flow edge is infeasible, else the swept times. */
  function OccupationTimesOf(edges: seq<Edge>, md: seq<int>, tc: seq<TimeConstraint>, inf: set<nat>, w: real,
                             start: nat, end: nat, flow: seq<nat>): (r: Option<OccupationTimes>)
    requires Sized(edges, md, tc) && Flow(edges, flow) && start in flow && end in flow
    ensures r.Some? ==> AllFeasible(flow, inf)
  {
    if !AllFeasible(flow, inf) then None
    else SweptTimes(Legs(edges, md, tc, inf, flow), flow, start, end, FlowWeight(edges, inf, w, flow))
  }

  predicate DurationsNonNegative(legs: seq<Leg>)
  {
    forall k :: 0 <= k < |legs| ==> legs[k].minDuration >= 0
  }

  lemma {:induction false} ForwardNonNegative(legs: seq<Leg>, k: nat)
    requires DurationsNonNegative(legs) && k <= |legs|
    ensures Forward(legs, k) >= 0
  {
    if k > 0 {
      ForwardNonNegative(legs, k - 1);
    }
  }

  lemma {:induction false} BackwardAtMostTmax(legs: seq<Leg>, k: nat)
    requires DurationsNonNegative(legs) && k <= |legs|
    ensures Backward(legs, k) <= TMAX
    decreases |legs| - k
  {
    if k < |legs| {
      BackwardAtMostTmax(legs, k + 1);
    }
  }

  /** With non-negative durations the forward pass never goes back in time. */
  lemma {:induction false} ForwardGrows(legs: seq<Leg>, i: nat, j: nat)
    requires DurationsNonNegative(legs) && i <= j <= |legs|
    ensures Forward(legs, i) <= Forward(legs, j)
    decreases j - i
  {
    if i < j {
      ForwardGrows(legs, i, j - 1);
    }
  }

  /** With non-negative durations the backward pass never goes forward in time. */
  lemma {:induction false} BackwardShrinks(legs: seq<Leg>, i: nat, j: nat)
    requires DurationsNonNegative(legs) && i <= j <= |legs|
    ensures Backward(legs, i) <= Backward(legs, j)
    decreases j - i
  {
    if i < j {
      BackwardShrinks(legs, i + 1, j);
    }
  }

  /**
   * The swept times lie inside the windows: no entry before the start
   * leg's entry bound or before 0, no exit after the end leg's exit bound
   * or after TMAX.  When the start edge comes no later in the flow than
   * the end edge, the window leaves room for the start edge's minimum
   * duration after the earliest entry and for the end edge's before the
   * latest exit.
   */
  lemma {:induction false} SweptWithinWindows(legs: seq<Leg>, flow: seq<nat>, start: nat, end: nat, weight: real)
    requires |legs| == |flow| && start in flow && end in flow && DurationsNonNegative(legs)
    requires SweptTimes(legs, flow, start, end, weight).Some?
    ensures var t := SweptTimes(legs, flow, start, end, weight).value;
      t.entryEarliest >= legs[LastIndex(flow, start)].entryEarliest && t.entryEarliest >= 0 &&
      t.exitLatest <= legs[FirstIndex(flow, end)].exitLatest && t.exitLatest <= TMAX
    ensures var t := SweptTimes(legs, flow, start, end, weight).value;
      LastIndex(flow, start) <= LastIndex(flow, end) ==>
        t.exitEarliest >= t.entryEarliest + legs[LastIndex(flow, start)].minDuration
    ensures var t := SweptTimes(legs, flow, start, end, weight).value;
      FirstIndex(flow, start) <= FirstIndex(flow, end) ==>
        t.entryLatest + legs[FirstIndex(flow, end)].minDuration <= t.exitLatest
  {
    var ls, le := LastIndex(flow, start), LastIndex(flow, end);
    var fs, fe := FirstIndex(flow, start), FirstIndex(flow, end);
    ForwardNonNegative(legs, ls);
    BackwardAtMostTmax(legs, fe + 1);
    if ls <= le {
      ForwardGrows(legs, ls + 1, le + 1);
    }
    if fs <= fe {
      BackwardShrinks(legs, fs, fe);
    }
  }

  /**
   * getOccupationTimes keeps inside the edges' windows (the start edge's
   * entry bound, the end edge's exit bound, and [0, TMAX]); with
   * non-negative durations, an end edge after the start edge leaves room
   * for their minimum durations; and a positive start weight gives a
   * positive weight, so the weight check never fails.
   */
  lemma {:induction false} OccupationWithinWindows(edges: seq<Edge>, md: seq<int>, tc: seq<TimeConstraint>, inf: set<nat>,
                                                   w: real, start: nat, end: nat, flow: seq<nat>)
    requires Sized(edges, md, tc) && Flow(edges, flow) && start in flow && end in flow
    requires forall e :: 0 <= e < |md| ==> md[e] >= 0
    requires OccupationTimesOf(edges, md, tc, inf, w, start, end, flow).Some?
    ensures var t := OccupationTimesOf(edges, md, tc, inf, w, start, end, flow).value;
      t.entryEarliest >= tc[start].entryEarliest && t.entryEarliest >= 0 &&
      t.exitLatest <= tc[end].exitLatest && t.exitLatest <= TMAX &&
      t.entryEarliest <= t.entryLatest && t.exitEarliest <= t.exitLatest &&
      (w > 0.0 ==> t.weight > 0.0)
    ensures var t := OccupationTimesOf(edges, md, tc, inf, w, start, end, flow).value;
      LastIndex(flow, start) <= LastIndex(flow, end) ==> t.exitEarliest >= t.entryEarliest + md[start]
    ensures var t := OccupationTimesOf(edges, md, tc, inf, w, start, end, flow).value;
      FirstIndex(flow, start) <= FirstIndex(flow, end) ==> t.entryLatest + md[end] <= t.exitLatest
  {
    var legs := Legs(edges, md, tc, inf, flow);
    var weight := FlowWeight(edges, inf, w, flow);
    assert DurationsNonNegative(legs) by {
      forall k | 0 <= k < |legs| ensures legs[k].minDuration >= 0 {
        assert legs[k] == LegOf(edges, md, tc, inf, flow[k]);
      }
    }
    SweptWithinWindows(legs, flow, start, end, weight);
    assert legs[LastIndex(flow, start)] == LegOf(edges, md, tc, inf, start);
    assert legs[FirstIndex(flow, end)] == LegOf(edges, md, tc, inf, end);
    if w > 0.0 {
      FlowWeightPositive(edges, inf, w, flow);
    }
  }

  // ---------------------------------------------------------------------
  // The "not found" marker of getOccupationTimes.

  /**
   * getOccupationTimes as written marks a bound not yet found with -1 and
   * throws when a bound still holds -1 after its pass.  With the start
   * and end edges in the flow every bound is found, so it throws exactly
   * when a swept bound is -1 itself.
   */
  predicate ThrowsAsWritten(legs: seq<Leg>, flow: seq<nat>, start: nat, end: nat)
    requires |legs| == |flow| && start in flow && end in flow
  {
    EntryAt(legs, LastIndex(flow, start)) == -1 || Forward(legs, LastIndex(flow, end) + 1) == -1 ||
    Backward(legs, FirstIndex(flow, start)) == -1 || ExitAt(legs, FirstIndex(flow, end)) == -1
  }

  /**
   * A graph the edge updater leaves as it is.  The source edge enters
   * node 0; two parallel sections 0 -> 1 (edges 1 and 2) lead to node 1,
   * which has two sections out, 1 -> 2 (edge 3) and 1 -> 3 (edge 4); the
   * sink edges leave nodes 2 and 3.  The flow [1, 3] enters node 1 over
   * edge 1 (window [0, 100], minimum duration 1) and leaves it over edge 3
   * (window [0, 0]); edges 2 and 4 keep both feasible.
   */
  const ExampleEdges: seq<Edge> := [Edge(SOURCE, 0, DefaultSection), Edge(0, 1, DefaultSection),
                                    Edge(0, 1, DefaultSection), Edge(1, 2, DefaultSection),
                                    Edge(1, 3, DefaultSection), Edge(2, SINK, DefaultSection),
                                    Edge(3, SINK, DefaultSection)]
  const ExampleDurations: seq<int> := [0, 1, 0, 0, 0, 0, 0]
  const ExampleWindows: seq<TimeConstraint> := [Unconstrained, TimeConstraint(0, 100), Unconstrained,
                                                TimeConstraint(0, 0), Unconstrained, Unconstrained, Unconstrained]

  /** The nodes the example's edges join. */
  predicate ExampleShape(es: seq<Edge>)
  {
    |es| == 7 &&
    es[0].start == SOURCE && es[0].end == 0 && es[1].start == 0 && es[1].end == 1 &&
    es[2].start == 0 && es[2].end == 1 && es[3].start == 1 && es[3].end == 2 &&
    es[4].start == 1 && es[4].end == 3 && es[5].start == 2 && es[5].end == SINK &&
    es[6].start == 3 && es[6].end == SINK
  }

  /** Appending an edge appends its index to its two nodes' adjacency lists. */
  lemma AdjacencySnoc(edges: seq<Edge>, e: Edge, n: int)
    ensures Next(edges + [e], n) == Next(edges, n) + (if e.start == n then [|edges|] else [])
    ensures Previous(edges + [e], n) == Previous(edges, n) + (if e.end == n then [|edges|] else [])
  {
    assert (edges + [e])[..|edges|] == edges;
  }

  /** The edges leaving and entering one node of the example, edge by edge. */
  lemma ExampleNode(es: seq<Edge>, n: int)
    requires ExampleShape(es)
    ensures Next(es, n) ==
      (if n == SOURCE then [0] else []) + (if n == 0 then [1] else []) + (if n == 0 then [2] else []) +
      (if n == 1 then [3] else []) + (if n == 1 then [4] else []) + (if n == 2 then [5] else []) +
      (if n == 3 then [6] else [])
    ensures Previous(es, n) ==
      (if n == 0 then [0] else []) + (if n == 1 then [1] else []) + (if n == 1 then [2] else []) +
      (if n == 2 then [3] else []) + (if n == 3 then [4] else []) + (if n == SINK then [5] else []) +
      (if n == SINK then [6] else [])
  {
    assert es[..1] == [] + [es[0]] && es[..2] == es[..1] + [es[1]] && es[..3] == es[..2] + [es[2]];
    assert es[..4] == es[..3] + [es[3]] && es[..5] == es[..4] + [es[4]] && es[..6] == es[..5] + [es[5]];
    assert es == es[..6] + [es[6]];
    AdjacencySnoc([], es[0], n);
    AdjacencySnoc(es[..1], es[1], n);
    AdjacencySnoc(es[..2], es[2], n);
    AdjacencySnoc(es[..3], es[3], n);
    AdjacencySnoc(es[..4], es[4], n);
    AdjacencySnoc(es[..5], es[5], n);
    AdjacencySnoc(es[..6], es[6], n);
  }

  /** A query over one feasible edge combines its term with the start value. */
  lemma FoldOne(b: Bound, md: seq<int>, tc: seq<TimeConstraint>, x: nat)
    requires |md| == |tc| && x < |tc|
    ensures Fold(b, md, tc, {}, [x]) == b.Combine(b.Default(), b.Term(tc[x], md[x]))
  {
    assert [x][..0] == [];
  }

  /** A query over two feasible edges combines their terms in order. */
  lemma FoldTwo(b: Bound, md: seq<int>, tc: seq<TimeConstraint>, x: nat, y: nat)
    requires |md| == |tc| && x < |tc| && y < |tc|
    ensures Fold(b, md, tc, {}, [x, y]) ==
      b.Combine(b.Combine(b.Default(), b.Term(tc[x], md[x])), b.Term(tc[y], md[y]))
  {
    assert [x, y][..1] == [x];
    FoldOne(b, md, tc, x);
  }

  /** The example's neighbour bounds at the source and the sink. */
  lemma ExampleBoundsAtEnds(es: seq<Edge>)
    requires ExampleShape(es)
    ensures Sized(es, ExampleDurations, ExampleWindows)
    ensures NeighbourBound(LatestIncoming, es, ExampleDurations, ExampleWindows, {}, SOURCE) == 0
    ensures NeighbourBound(EarliestOutgoing, es, ExampleDurations, ExampleWindows, {}, SINK) == TMAX
    ensures Previous(es, SOURCE) == [] && Next(es, SINK) == []
  {
    ExampleNode(es, SOURCE);
    ExampleNode(es, SINK);
  }

  /** The example's neighbour bounds at node 0: one edge in, the two parallel sections out. */
  lemma ExampleBoundsAt0(es: seq<Edge>)
    requires ExampleShape(es)
    ensures Sized(es, ExampleDurations, ExampleWindows)
    ensures NeighbourBound(EarliestIncoming, es, ExampleDurations, ExampleWindows, {}, 0) == 0
    ensures NeighbourBound(LatestIncoming, es, ExampleDurations, ExampleWindows, {}, 0) == TMAX
    ensures NeighbourBound(LatestOutgoing, es, ExampleDurations, ExampleWindows, {}, 0) == TMAX
    ensures NeighbourBound(EarliestOutgoing, es, ExampleDurations, ExampleWindows, {}, 0) == 0
    ensures Previous(es, 0) == [0] && Next(es, 0) == [1, 2]
  {
    ExampleNode(es, 0);
    assert Previous(es, 0) == [0] && Next(es, 0) == [1, 2];
    FoldOne(EarliestIncoming, ExampleDurations, ExampleWindows, 0);
    FoldOne(LatestIncoming, ExampleDurations, ExampleWindows, 0);
    FoldTwo(LatestOutgoing, ExampleDurations, ExampleWindows, 1, 2);
    FoldTwo(EarliestOutgoing, ExampleDurations, ExampleWindows, 1, 2);
  }

  /** The example's neighbour bounds at node 1: the two parallel sections in, two sections out. */
  lemma ExampleBoundsAt1(es: seq<Edge>)
    requires ExampleShape(es)
    ensures Sized(es, ExampleDurations, ExampleWindows)
    ensures NeighbourBound(EarliestIncoming, es, ExampleDurations, ExampleWindows, {}, 1) == 0
    ensures NeighbourBound(LatestIncoming, es, ExampleDurations, ExampleWindows, {}, 1) == TMAX
    ensures NeighbourBound(LatestOutgoing, es, ExampleDurations, ExampleWindows, {}, 1) == TMAX
    ensures NeighbourBound(EarliestOutgoing, es, ExampleDurations, ExampleWindows, {}, 1) == 0
    ensures Previous(es, 1) == [1, 2] && Next(es, 1) == [3, 4]
  {
    ExampleNode(es, 1);
    assert Previous(es, 1) == [1, 2] && Next(es, 1) == [3, 4];
    FoldTwo(EarliestIncoming, ExampleDurations, ExampleWindows, 1, 2);
    FoldTwo(LatestIncoming, ExampleDurations, ExampleWindows, 1, 2);
    FoldTwo(LatestOutgoing, ExampleDurations, ExampleWindows, 3, 4);
    FoldTwo(EarliestOutgoing, ExampleDurations, ExampleWindows, 3, 4);
  }

  /** The example's neighbour bounds at node 2: edge 3 in, a sink edge out. */
  lemma ExampleBoundsAt2(es: seq<Edge>)
    requires ExampleShape(es)
    ensures Sized(es, ExampleDurations, ExampleWindows)
    ensures NeighbourBound(EarliestIncoming, es, ExampleDurations, ExampleWindows, {}, 2) == 0
    ensures NeighbourBound(LatestIncoming, es, ExampleDurations, ExampleWindows, {}, 2) == 0
    ensures NeighbourBound(LatestOutgoing, es, ExampleDurations, ExampleWindows, {}, 2) == TMAX
    ensures NeighbourBound(EarliestOutgoing, es, ExampleDurations, ExampleWindows, {}, 2) == 0
    ensures Previous(es, 2) == [3] && Next(es, 2) == [5]
  {
    ExampleNode(es, 2);
    FoldOne(EarliestIncoming, ExampleDurations, ExampleWindows, 3);
    FoldOne(LatestIncoming, ExampleDurations, ExampleWindows, 3);
    FoldOne(LatestOutgoing, ExampleDurations, ExampleWindows, 5);
    FoldOne(EarliestOutgoing, ExampleDurations, ExampleWindows, 5);
  }

  /** The example's neighbour bounds at node 3: edge 4 in, a sink edge out. */
  lemma ExampleBoundsAt3(es: seq<Edge>)
    requires ExampleShape(es)
    ensures Sized(es, ExampleDurations, ExampleWindows)
    ensures NeighbourBound(EarliestIncoming, es, ExampleDurations, ExampleWindows, {}, 3) == 0
    ensures NeighbourBound(LatestIncoming, es, ExampleDurations, ExampleWindows, {}, 3) == TMAX
    ensures NeighbourBound(LatestOutgoing, es, ExampleDurations, ExampleWindows, {}, 3) == TMAX
    ensures NeighbourBound(EarliestOutgoing, es, ExampleDurations, ExampleWindows, {}, 3) == 0
    ensures Previous(es, 3) == [4] && Next(es, 3) == [6]
  {
    ExampleNode(es, 3);
    FoldOne(EarliestIncoming, ExampleDurations, ExampleWindows, 4);
    FoldOne(LatestIncoming, ExampleDurations, ExampleWindows, 4);
    FoldOne(LatestOutgoing, ExampleDurations, ExampleWindows, 6);
    FoldOne(EarliestOutgoing, ExampleDurations, ExampleWindows, 6);
  }

  /**
   * An edge whose window already lies within its neighbour bounds, and
   * is long enough and reachable, is neither changed nor broken.
   */
  lemma StepLeaves(edges: seq<Edge>, md: seq<int>, tc: seq<TimeConstraint>, inf: set<nat>, e: nat, s: int, t: int)
    requires Sized(edges, md, tc) && e < |edges| && edges[e].start == s && edges[e].end == t
    requires Previous(edges, s) == [] || NeighbourBound(EarliestIncoming, edges, md, tc, inf, s) <= tc[e].entryEarliest
    requires Next(edges, t) == [] || NeighbourBound(LatestOutgoing, edges, md, tc, inf, t) >= tc[e].exitLatest
    requires tc[e].exitLatest - tc[e].entryEarliest >= md[e]
    requires NeighbourBound(LatestIncoming, edges, md, tc, inf, s) >= tc[e].entryEarliest
    requires NeighbourBound(EarliestOutgoing, edges, md, tc, inf, t) <= tc[e].exitLatest
    ensures Propagated(edges, md, tc, inf, e) == tc[e] && !Broken(edges, md, tc, inf, e)
  {
  }

  /** The legs of a two-edge flow. */
  lemma LegsOfTwo(edges: seq<Edge>, md: seq<int>, tc: seq<TimeConstraint>, inf: set<nat>, x: nat, y: nat)
    requires Sized(edges, md, tc) && x < |edges| && y < |edges|
    ensures Flow(edges, [x, y])
    ensures Legs(edges, md, tc, inf, [x, y]) == [LegOf(edges, md, tc, inf, x), LegOf(edges, md, tc, inf, y)]
  {
    var flow := [x, y];
    assert Flow(edges, flow) by { assert flow[0] == x && flow[1] == y; }
    var legs := Legs(edges, md, tc, inf, flow);
    assert legs[0] == LegOf(edges, md, tc, inf, x);
    assert legs[1] == LegOf(edges, md, tc, inf, y);
  }

  /** Edge 0, the source edge into node 0, is left as it is. */
  lemma ExampleFixpointEdge0(es: seq<Edge>)
    requires ExampleShape(es)
    ensures Sized(es, ExampleDurations, ExampleWindows)
    ensures Propagated(es, ExampleDurations, ExampleWindows, {}, 0) == ExampleWindows[0]
    ensures !Broken(es, ExampleDurations, ExampleWindows, {}, 0)
  {
    ExampleBoundsAtEnds(es);
    ExampleBoundsAt0(es);
    StepLeaves(es, ExampleDurations, ExampleWindows, {}, 0, SOURCE, 0);
  }

  /** Edge 1, the first section from node 0 to node 1, is left as it is. */
  lemma ExampleFixpointEdge1(es: seq<Edge>)
    requires ExampleShape(es)
    ensures Sized(es, ExampleDurations, ExampleWindows)
    ensures Propagated(es, ExampleDurations, ExampleWindows, {}, 1) == ExampleWindows[1]
    ensures !Broken(es, ExampleDurations, ExampleWindows, {}, 1)
  {
    ExampleBoundsAt0(es);
    ExampleBoundsAt1(es);
    StepLeaves(es, ExampleDurations, ExampleWindows, {}, 1, 0, 1);
  }

  /** Edge 2, the parallel section from node 0 to node 1, is left as it is. */
  lemma ExampleFixpointEdge2(es: seq<Edge>)
    requires ExampleShape(es)
    ensures Sized(es, ExampleDurations, ExampleWindows)
    ensures Propagated(es, ExampleDurations, ExampleWindows, {}, 2) == ExampleWindows[2]
    ensures !Broken(es, ExampleDurations, ExampleWindows, {}, 2)
  {
    ExampleBoundsAt0(es);
    ExampleBoundsAt1(es);
    StepLeaves(es, ExampleDurations, ExampleWindows, {}, 2, 0, 1);
  }

  /** Edge 3, the section from node 1 to node 2, is left as it is. */
  lemma ExampleFixpointEdge3(es: seq<Edge>)
    requires ExampleShape(es)
    ensures Sized(es, ExampleDurations, ExampleWindows)
    ensures Propagated(es, ExampleDurations, ExampleWindows, {}, 3) == ExampleWindows[3]
    ensures !Broken(es, ExampleDurations, ExampleWindows, {}, 3)
  {
    ExampleBoundsAt1(es);
    ExampleBoundsAt2(es);
    StepLeaves(es, ExampleDurations, ExampleWindows, {}, 3, 1, 2);
  }

  /** Edge 4, the section from node 1 to node 3, is left as it is. */
  lemma ExampleFixpointEdge4(es: seq<Edge>)
    requires ExampleShape(es)
    ensures Sized(es, ExampleDurations, ExampleWindows)
    ensures Propagated(es, ExampleDurations, ExampleWindows, {}, 4) == ExampleWindows[4]
    ensures !Broken(es, ExampleDurations, ExampleWindows, {}, 4)
  {
    ExampleBoundsAt1(es);
    ExampleBoundsAt3(es);
    StepLeaves(es, ExampleDurations, ExampleWindows, {}, 4, 1, 3);
  }

  /** Edge 5, the sink edge out of node 2, is left as it is. */
  lemma ExampleFixpointEdge5(es: seq<Edge>)
    requires ExampleShape(es)
    ensures Sized(es, ExampleDurations, ExampleWindows)
    ensures Propagated(es, ExampleDurations, ExampleWindows, {}, 5) == ExampleWindows[5]
    ensures !Broken(es, ExampleDurations, ExampleWindows, {}, 5)
  {
    ExampleBoundsAt2(es);
    ExampleBoundsAtEnds(es);
    StepLeaves(es, ExampleDurations, ExampleWindows, {}, 5, 2, SINK);
  }

  /** Edge 6, the sink edge out of node 3, is left as it is. */
  lemma ExampleFixpointEdge6(es: seq<Edge>)
    requires ExampleShape(es)
    ensures Sized(es, ExampleDurations, ExampleWindows)
    ensures Propagated(es, ExampleDurations, ExampleWindows, {}, 6) == ExampleWindows[6]
    ensures !Broken(es, ExampleDurations, ExampleWindows, {}, 6)
  {
    ExampleBoundsAt3(es);
    ExampleBoundsAtEnds(es);
    StepLeaves(es, ExampleDurations, ExampleWindows, {}, 6, 3, SINK);
  }

  /** No edge of the example changes under the edge updater's step, and none is broken. */
  lemma ExampleAtFixpoint(es: seq<Edge>, e: nat)
    requires ExampleShape(es) && e < |es|
    ensures Sized(es, ExampleDurations, ExampleWindows)
    ensures Propagated(es, ExampleDurations, ExampleWindows, {}, e) == ExampleWindows[e]
    ensures !Broken(es, ExampleDurations, ExampleWindows, {}, e)
  {
    if e == 0 {
      ExampleFixpointEdge0(es);
    } else if e == 1 {
      ExampleFixpointEdge1(es);
    } else if e == 2 {
      ExampleFixpointEdge2(es);
    } else if e == 3 {
      ExampleFixpointEdge3(es);
    } else if e == 4 {
      ExampleFixpointEdge4(es);
    } else if e == 5 {
      ExampleFixpointEdge5(es);
    } else {
      ExampleFixpointEdge6(es);
    }
  }

  lemma ExampleLegs(es: seq<Edge>)
    requires ExampleShape(es)
    ensures Sized(es, ExampleDurations, ExampleWindows) && Flow(es, [1, 3])
    ensures Legs(es, ExampleDurations, ExampleWindows, {}, [1, 3]) == [Leg(0, 100, 1, 0, TMAX), Leg(0, 0, 0, 0, TMAX)]
  {
    ExampleBoundsAt0(es);
    ExampleBoundsAt1(es);
    ExampleBoundsAt2(es);
    LegsOfTwo(es, ExampleDurations, ExampleWindows, {}, 1, 3);
  }

  lemma ExampleSweep()
    ensures ThrowsAsWritten([Leg(0, 100, 1, 0, TMAX), Leg(0, 0, 0, 0, TMAX)], [1, 3], 1, 3)
    ensures SweptTimes([Leg(0, 100, 1, 0, TMAX), Leg(0, 0, 0, 0, TMAX)], [1, 3], 1, 3, 1.0).None?
  {
    var legs := [Leg(0, 100, 1, 0, TMAX), Leg(0, 0, 0, 0, TMAX)];
    assert LastIndex([1, 3], 1) == 0 && FirstIndex([1, 3], 1) == 0;
    assert Backward(legs, 2) == TMAX;
    assert Backward(legs, 1) == 0;
    assert Backward(legs, 0) == -1;
    assert Forward(legs, 0) == 0;
  }

  /**
   * A flow the edge updater leaves feasible: edge 1 with window [0, 100]
   * and minimum duration 1 into node 1, then edge 3 with window [0, 0]
   * out of it, every window at the updater's fixpoint.  The backward pass
   * gives entryLatest = min(0, 100) - 1 = -1 at edge 1, so the code throws
   * where the crossed bounds call for no times.
   */
  lemma SentinelCounterexample()
    ensures Sized(ExampleEdges, ExampleDurations, ExampleWindows) && Flow(ExampleEdges, [1, 3])
    ensures forall e :: 0 <= e < |ExampleEdges| ==>
      Propagated(ExampleEdges, ExampleDurations, ExampleWindows, {}, e) == ExampleWindows[e] &&
      !Broken(ExampleEdges, ExampleDurations, ExampleWindows, {}, e)
    ensures ThrowsAsWritten(Legs(ExampleEdges, ExampleDurations, ExampleWindows, {}, [1, 3]), [1, 3], 1, 3)
    ensures OccupationTimesOf(ExampleEdges, ExampleDurations, ExampleWindows, {}, 1.0, 1, 3, [1, 3]).None?
  {
    assert ExampleShape(ExampleEdges);
    forall e | 0 <= e < |ExampleEdges|
      ensures Propagated(ExampleEdges, ExampleDurations, ExampleWindows, {}, e) == ExampleWindows[e] &&
              !Broken(ExampleEdges, ExampleDurations, ExampleWindows, {}, e)
    {
      ExampleAtFixpoint(ExampleEdges, e);
    }
    ExampleLegs(ExampleEdges);
    ExampleSweep();
    assert AllFeasible([1, 3], {});
  }

  /**
   * With non-negative durations the earliest bounds are never -1, so the
   * code throws only where the latest bounds have crossed the earliest
   * ones: where no times is the intended answer.
   */
  lemma {:induction false} SentinelOnlyWhenCrossed(legs: seq<Leg>, flow: seq<nat>, start: nat, end: nat, weight: real)
    requires |legs| == |flow| && start in flow && end in flow && DurationsNonNegative(legs)
    requires ThrowsAsWritten(legs, flow, start, end)
    ensures SweptTimes(legs, flow, start, end, weight).None?
  {
    ForwardNonNegative(legs, LastIndex(flow, start));
    ForwardNonNegative(legs, LastIndex(flow, end) + 1);
  }
}
