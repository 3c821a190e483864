/**
 * The time bounds of one intention over its route graph
 * (GraphConstraints.java).  Each edge carries a window [entryEarliest,
 * exitLatest]; tightening one window propagates through a worklist to its
 * neighbours, and an edge whose window no longer fits joins the set of
 * infeasible edges, which only grows.
 *
 * All mutable state lives in fields that the methods reassign with new
 * values, so a copy shares nothing that a later change could reach.
 */
module Constraints {
  import opened Common
  import opened TimeUtil
  import opened Util
  import opened RouteGraphs
  import opened Occupation
  import opened PenaltyTimes
  import opened TimeBounds
  import Restrictions

  /** The nodes of a graph (getNodes): every start and end of an edge. */
  function NodesOf(edges: seq<Edge>): set<int>
  {
    (set i | 0 <= i < |edges| :: edges[i].start) + (set i | 0 <= i < |edges| :: edges[i].end)
  }

  function SetOf(s: seq<nat>): set<nat>
  {
    set x | x in s
  }

  predicate EdgeSet(es: set<nat>, n: nat)
  {
    forall x | x in es :: x < n
  }

  /** The time a propagation map carries for node n, 0 when it has none (getOrDefault). */
  function TimeOr0(times: map<int, int>, n: int): int
  {
    if n in times then times[n] else 0
  }

  /** A visit records the time now for the node exactly when it beats the neighbour bound there. */
  function Recorded(beats: bool, times: map<int, int>, n: int, now: int): map<int, int>
  {
    if beats then times[n := now] else times
  }

  /** A visit queues the neighbour edges exactly when the time beats the neighbour bound. */
  function Queued(beats: bool, pending: set<nat>, neighbours: seq<nat>): set<nat>
  {
    if beats then pending + SetOf(neighbours) else pending
  }

  /**
   * increaseEarliestEntry's ForwardUpdater at a feasible edge: the time
   * propagated to its end beats the earliest outgoing time there.
   */
  function Raises(edges: seq<Edge>, md: seq<int>, tc: seq<TimeConstraint>, inf: set<nat>,
                  edge: nat, minTime: map<int, int>): bool
    requires Sized(edges, md, tc) && edge < |edges|
  {
    TimeOr0(minTime, edges[edge].start) + md[edge] > NeighbourBound(EarliestOutgoing, edges, md, tc, inf, edges[edge].end)
  }

  /**
   * decreaseLatestExit's BackwardUpdater at a feasible edge: the time
   * propagated back to its start is below the latest incoming time there.
   */
  function Lowers(edges: seq<Edge>, md: seq<int>, tc: seq<TimeConstraint>, inf: set<nat>,
                  edge: nat, maxTime: map<int, int>): bool
    requires Sized(edges, md, tc) && edge < |edges|
  {
    TimeOr0(maxTime, edges[edge].end) - md[edge] < NeighbourBound(LatestIncoming, edges, md, tc, inf, edges[edge].start)
  }

  /**
   * The state of an updater's walk: the times propagated so far, the
   * queued edges and the nodes reported for the change set.
   */
  datatype WalkState = WalkState(times: map<int, int>, pending: set<nat>, changeSet: set<int>)

  /**
   * The ForwardUpdater's visit of a feasible edge taken off the queue: its
   * end is reported and, exactly when the propagated time beats the
   * earliest outgoing time there, that time is recorded for the end and
   * the edges after it are queued.
   */
  function ForwardVisited(edges: seq<Edge>, md: seq<int>, tc: seq<TimeConstraint>, inf: set<nat>,
                          edge: nat, s: WalkState): WalkState
    requires Sized(edges, md, tc) && edge < |edges|
  {
    var raises := Raises(edges, md, tc, inf, edge, s.times);
    WalkState(Recorded(raises, s.times, edges[edge].end, TimeOr0(s.times, edges[edge].start) + md[edge]),
              Queued(raises, s.pending, Next(edges, edges[edge].end)), s.changeSet + {edges[edge].end})
  }

  /** The mirror image of ForwardVisited: the BackwardUpdater works on the edge's start and the edges before it. */
  function BackwardVisited(edges: seq<Edge>, md: seq<int>, tc: seq<TimeConstraint>, inf: set<nat>,
                           edge: nat, s: WalkState): WalkState
    requires Sized(edges, md, tc) && edge < |edges|
  {
    var lowers := Lowers(edges, md, tc, inf, edge, s.times);
    WalkState(Recorded(lowers, s.times, edges[edge].start, TimeOr0(s.times, edges[edge].end) - md[edge]),
              Queued(lowers, s.pending, Previous(edges, edges[edge].start)), s.changeSet + {edges[edge].start})
  }

  /**
   * One turn of the ForwardUpdater at position i of the topological edge
   * order: the edge there is taken off the queue and, when it was queued
   * and is feasible, visited.
   */
  function ForwardTurn(edges: seq<Edge>, md: seq<int>, tc: seq<TimeConstraint>, inf: set<nat>, order: seq<nat>,
                       i: nat, s: WalkState): WalkState
    requires Sized(edges, md, tc) && Indices(order, |edges|) && i < |order|
  {
    var edge := order[i];
    var taken := s.(pending := s.pending - {edge});
    if edge !in s.pending || edge in inf then taken else ForwardVisited(edges, md, tc, inf, edge, taken)
  }

  /** The mirror image of ForwardTurn for the BackwardUpdater, at position i - 1. */
  function BackwardTurn(edges: seq<Edge>, md: seq<int>, tc: seq<TimeConstraint>, inf: set<nat>, order: seq<nat>,
                        i: nat, s: WalkState): WalkState
    requires Sized(edges, md, tc) && Indices(order, |edges|) && 0 < i <= |order|
  {
    var edge := order[i - 1];
    var taken := s.(pending := s.pending - {edge});
    if edge !in s.pending || edge in inf then taken else BackwardVisited(edges, md, tc, inf, edge, taken)
  }

  /**
   * The ForwardUpdater's walk from position i of the topological edge
   * order: it stops at the end of the order or once nothing is queued,
   * and yields the change set.
   */
  function ForwardWalk(edges: seq<Edge>, md: seq<int>, tc: seq<TimeConstraint>, inf: set<nat>, order: seq<nat>,
                       i: nat, s: WalkState): set<int>
    requires Sized(edges, md, tc) && Indices(order, |edges|)
    decreases |order| - i
  {
    if i >= |order| || s.pending == {} then s.changeSet
    else ForwardWalk(edges, md, tc, inf, order, i + 1, ForwardTurn(edges, md, tc, inf, order, i, s))
  }

  /** The BackwardUpdater's walk down from position i of the topological edge order. */
  function BackwardWalk(edges: seq<Edge>, md: seq<int>, tc: seq<TimeConstraint>, inf: set<nat>, order: seq<nat>,
                        i: nat, s: WalkState): set<int>
    requires Sized(edges, md, tc) && Indices(order, |edges|) && i <= |order|
    decreases i
  {
    if i == 0 || s.pending == {} then s.changeSet
    else BackwardWalk(edges, md, tc, inf, order, i - 1, BackwardTurn(edges, md, tc, inf, order, i, s))
  }

  lemma QueuedEdges(beats: bool, pending: set<nat>, neighbours: seq<nat>, n: nat)
    requires EdgeSet(pending, n) && forall k :: 0 <= k < |neighbours| ==> neighbours[k] < n
    ensures EdgeSet(Queued(beats, pending, neighbours), n)
  {
  }

  /** Every node's penalty time set is non-empty and sorted. */
  predicate PenaltySetsSorted(pts: map<int, seq<int>>)
  {
    forall n | n in pts :: |pts[n]| >= 1 && SortedInts(pts[n])
  }

  /** Every feasible edge into node n leaves no later than time t. */
  predicate ExitsBy(edges: seq<Edge>, tc: seq<TimeConstraint>, inf: set<nat>, n: int, t: int)
    requires |tc| == |edges|
  {
    var prevs := Previous(edges, n);
    forall k :: 0 <= k < |prevs| ==> prevs[k] in inf || tc[prevs[k]].exitLatest <= t
  }

  /** Tightening windows and marking edges infeasible keeps every ExitsBy. */
  lemma ExitsByTightened(edges: seq<Edge>, tc1: seq<TimeConstraint>, inf1: set<nat>,
                         tc2: seq<TimeConstraint>, inf2: set<nat>, n: int, t: int)
    requires |tc1| == |edges| && Tighter(tc2, tc1) && inf1 <= inf2
    requires ExitsBy(edges, tc1, inf1, n, t)
    ensures ExitsBy(edges, tc2, inf2, n, t)
  {
    var prevs := Previous(edges, n);
    forall k | 0 <= k < |prevs|
      ensures prevs[k] in inf2 || tc2[prevs[k]].exitLatest <= t
    {
      assert Within(tc2[prevs[k]], tc1[prevs[k]]);
    }
  }

  /** The nodes updateMaxTimes visits: those of the order other than the source and the sink. */
  function InnerNodes(edges: seq<Edge>, nodes: seq<int>): set<int>
  {
    set n | n in nodes && Previous(edges, n) != [] && Next(edges, n) != []
  }

  /**
   * The minimum start penalty that updatePathPenalties computes from the
   * windows and the infeasible edges of a graph.  Its double arithmetic is
   * not modelled: each set of constraints carries the computation as a
   * given function.
   */
  type PathPenalty = (seq<TimeConstraint>, set<nat>) -> Penalty

  /**
   * A minimum penalty m reached from m0 while the windows narrowed from
   * (tc0, inf0) to (tc, inf): m0 itself, or the positive path penalty of
   * windows (wtc, winf) between the two.
   */
  ghost predicate PricedBetween(pathPenalty: PathPenalty, m0: Penalty, m: Penalty,
                                tc0: seq<TimeConstraint>, inf0: set<nat>, wtc: seq<TimeConstraint>, winf: set<nat>,
                                tc: seq<TimeConstraint>, inf: set<nat>)
  {
    m == m0 ||
    (Fin(0.0).Below(m) && m == pathPenalty(wtc, winf) &&
     Tighter(wtc, tc0) && inf0 <= winf && Tighter(tc, wtc) && winf <= inf)
  }

  /** updatePathPenalties' effect on the minimum penalty: a positive start penalty replaces it. */
  function Repenalized(minPenalty: Penalty, startPenalty: Penalty): (r: Penalty)
    ensures Fin(0.0).Below(startPenalty) ==> r == startPenalty
    ensures !Fin(0.0).Below(startPenalty) ==> r == minPenalty
  {
    if Fin(0.0).Below(startPenalty) then startPenalty else minPenalty
  }

  class GraphConstraints {
    const edges: seq<Edge>
    const sortedNodes: seq<int>
    const sortedEdges: seq<nat>
    const minDurations: seq<int>
    const latestAllowedTimes: map<int, int>
    const pathPenalty: PathPenalty

    var weights: map<int, real>
    var timeConstraints: seq<TimeConstraint>
    var infeasibleEdges: set<nat>
    var penaltyTimeSets: map<int, seq<int>>
    var maxPenalty: Penalty
    var minPenalty: Penalty
    /** markedEdgeInfeasibleSinceLastUpdate */
    var dirty: bool

    ghost predicate Valid()
      reads this
    {
      Sized(edges, minDurations, timeConstraints) &&
      EdgeSet(infeasibleEdges, |edges|) &&
      EdgesListed(edges, sortedEdges) &&
      PenaltySetsSorted(penaltyTimeSets)
    }

    /** The state the time propagation leaves alone. */
    function Penalties(): (map<int, real>, map<int, seq<int>>, Penalty, Penalty)
      reads this
    {
      (weights, penaltyTimeSets, maxPenalty, minPenalty)
    }

    /** The state the time propagation leaves alone once the path penalties are recomputed. */
    function Budgets(): (map<int, real>, map<int, seq<int>>, Penalty)
      reads this
    {
      (weights, penaltyTimeSets, maxPenalty)
    }

    /**
     * The minimum penalty is m0, or it is the positive start penalty
     * that the path penalties give on the current windows.
     */
    ghost predicate PenaltyFrom(m0: Penalty)
      reads this
    {
      minPenalty == m0 || (Fin(0.0).Below(minPenalty) && minPenalty == pathPenalty(timeConstraints, infeasibleEdges))
    }

    /** The private constructor: every field given. */
    constructor Init(edges: seq<Edge>, sortedNodes: seq<int>, sortedEdges: seq<nat>, minDurations: seq<int>,
                     latestAllowedTimes: map<int, int>, weights: map<int, real>,
                     timeConstraints: seq<TimeConstraint>, infeasibleEdges: set<nat>,
                     penaltyTimeSets: map<int, seq<int>>, maxPenalty: Penalty, minPenalty: Penalty,
                     pathPenalty: PathPenalty)
      requires Sized(edges, minDurations, timeConstraints) && EdgeSet(infeasibleEdges, |edges|)
      requires EdgesListed(edges, sortedEdges) && PenaltySetsSorted(penaltyTimeSets)
      ensures Valid() && !dirty
      ensures this.edges == edges && this.sortedNodes == sortedNodes && this.sortedEdges == sortedEdges
      ensures this.minDurations == minDurations && this.latestAllowedTimes == latestAllowedTimes
      ensures this.weights == weights && this.timeConstraints == timeConstraints
      ensures this.infeasibleEdges == infeasibleEdges && this.penaltyTimeSets == penaltyTimeSets
      ensures this.maxPenalty == maxPenalty && this.minPenalty == minPenalty && this.pathPenalty == pathPenalty
    {
      this.edges := edges;
      this.sortedNodes := sortedNodes;
      this.sortedEdges := sortedEdges;
      this.minDurations := minDurations;
      this.latestAllowedTimes := latestAllowedTimes;
      this.weights := weights;
      this.timeConstraints := timeConstraints;
      this.infeasibleEdges := infeasibleEdges;
      this.penaltyTimeSets := penaltyTimeSets;
      this.maxPenalty := maxPenalty;
      this.minPenalty := minPenalty;
      this.pathPenalty := pathPenalty;
      this.dirty := false;
    }

    /** areFeasible: not every edge is infeasible and the minimum penalty is within the budget. */
    predicate AreFeasible()
      reads this
    {
      |infeasibleEdges| < |edges| && minPenalty.AtMost(maxPenalty)
    }

    /** The constraints are feasible exactly when some edge is feasible and the minimum penalty is within the budget. */
    lemma AreFeasibleMeans()
      requires Valid()
      ensures AreFeasible() <==> FeasibleSet(|edges|, infeasibleEdges) != {} && minPenalty.AtMost(maxPenalty)
    {
      FeasibleCount(|edges|, infeasibleEdges);
    }

    /** Clean: no edge was marked infeasible since the last update, unless the constraints are infeasible anyway. */
    predicate Clean()
      reads this
    {
      !(dirty && AreFeasible())
    }

    /** The ends of the feasible edges. */
    function FeasibleEnds(): set<int>
      reads this
    {
      set j | 0 <= j < |edges| && j !in infeasibleEdges :: edges[j].end
    }

    /** The starts of the feasible edges. */
    function FeasibleStarts(): set<int>
      reads this
    {
      set j | 0 <= j < |edges| && j !in infeasibleEdges :: edges[j].start
    }

    /** The neighbour bound b at node n on the current windows. */
    function BoundAt(b: Bound, n: int): int
      reads this
      requires Valid()
    {
      NeighbourBound(b, edges, minDurations, timeConstraints, infeasibleEdges, n)
    }

    /**
     * getEarliestIncoming, getLatestIncoming, getLatestOutgoing,
     * getEarliestOutgoing: one loop over the previous or next edges of n,
     * skipping infeasible ones.
     */
    method Query(b: Bound, n: int) returns (r: int)
      requires Valid() && b.Queryable(edges, n)
      ensures r == BoundAt(b, n)
    {
      var es := Neighbours(b, edges, n);
      r := b.Default();
      var i := 0;
      while i < |es|
        invariant 0 <= i <= |es|
        invariant r == Fold(b, minDurations, timeConstraints, infeasibleEdges, es[..i])
      {
        assert es[..i + 1][..i] == es[..i];
        var e := es[i];
        if e !in infeasibleEdges {
          r := b.Combine(r, b.Term(timeConstraints[e], minDurations[e]));
        }
        i := i + 1;
      }
      assert es[..|es|] == es;
    }

    /** getEntryLatest: the latest incoming time at the edge's start. */
    method EntryLatest(e: nat) returns (r: int)
      requires Valid() && e < |edges|
      ensures r == BoundAt(LatestIncoming, edges[e].start)
    {
      NextComplete(edges, edges[e].start);
      r := Query(LatestIncoming, edges[e].start);
    }

    /** getExitEarliest: the earliest outgoing time at the edge's end. */
    method ExitEarliest(e: nat) returns (r: int)
      requires Valid() && e < |edges|
      ensures r == BoundAt(EarliestOutgoing, edges[e].end)
    {
      PreviousComplete(edges, edges[e].end);
      r := Query(EarliestOutgoing, edges[e].end);
    }

    /**
     * markInfeasibleNoUpdate: add the edge to the infeasible set; report
     * whether it is new there, and if so note that an update is due.
     */
    method MarkInfeasibleNoUpdate(e: nat) returns (added: bool)
      modifies this
      requires Valid() && e < |edges|
      ensures Valid() && timeConstraints == old(timeConstraints) && Penalties() == old(Penalties())
      ensures added == (e !in old(infeasibleEdges))
      ensures infeasibleEdges == old(infeasibleEdges) + {e}
      ensures dirty == (old(dirty) || added)
    {
      if e in infeasibleEdges {
        return false;
      }
      infeasibleEdges := infeasibleEdges + {e};
      dirty := true;
      return true;
    }

    /**
     * The first half of EdgeUpdater.process for a feasible edge: the entry
     * bound raised to the earliest incoming time unless the edge leaves the
     * source, requeueing the edges after it, then the exit bound lowered
     * to the latest outgoing time unless it enters the sink, requeueing
     * the edges before it.
     */
    method PropagateWindow(e: nat, pending: set<nat>, changed: set<int>)
      returns (c: TimeConstraint, pending': set<nat>, changed': set<int>)
      requires Valid() && e < |edges| && EdgeSet(pending, |edges|)
      ensures c == Propagated(edges, minDurations, timeConstraints, infeasibleEdges, e)
      ensures c == timeConstraints[e] ==> pending' == pending
      ensures EdgeSet(pending', |edges|) && changed <= changed'
    {
      pending', changed' := pending, changed;
      var edge := edges[e];
      c := timeConstraints[e];
      NextComplete(edges, edge.start);
      PreviousComplete(edges, edge.end);
      if Previous(edges, edge.start) != [] {
        var earliestIncoming := Query(EarliestIncoming, edge.start);
        if earliestIncoming > c.entryEarliest {
          c := c.WithEntryEarliest(earliestIncoming);
          pending' := pending' + SetOf(Next(edges, edge.end));
          changed' := changed' + {edge.start, edge.end};
        }
      }
      if Next(edges, edge.end) != [] {
        var latestOutgoing := Query(LatestOutgoing, edge.end);
        if latestOutgoing < c.exitLatest {
          c := c.WithExitLatest(latestOutgoing);
          pending' := pending' + SetOf(Previous(edges, edge.start));
          changed' := changed' + {edge.start, edge.end};
        }
      }
    }

    /** The second half of EdgeUpdater.process: the infeasibility test on the current windows. */
    method IsBroken(e: nat) returns (broken: bool)
      requires Valid() && e < |edges|
      ensures broken == Broken(edges, minDurations, timeConstraints, infeasibleEdges, e)
    {
      var constraint := timeConstraints[e];
      var latestIncoming := EntryLatest(e);
      var earliestOutgoing := ExitEarliest(e);
      broken := constraint.exitLatest - constraint.entryEarliest < minDurations[e] ||
        latestIncoming < constraint.entryEarliest || earliestOutgoing > constraint.exitLatest;
    }

    /**
     * EdgeUpdater.process: one step of the edge updater; an edge marked
     * infeasible requeues all its neighbours, and an update becomes due.
     * A node with a latest allowed time is affected when the step raises
     * the entry bound of an edge leaving it or marks such an edge
     * infeasible.
     */
    method Process(e: nat, pending: set<nat>, changed: set<int>)
      returns (pending': set<nat>, changed': set<int>, affected: bool)
      modifies this
      requires Valid() && e < |edges| && EdgeSet(pending, |edges|)
      ensures Valid() && Penalties() == old(Penalties())
      ensures Step(edges, minDurations, old(timeConstraints), old(infeasibleEdges), e, timeConstraints, infeasibleEdges)
      ensures dirty == (old(dirty) || infeasibleEdges != old(infeasibleEdges))
      ensures timeConstraints == old(timeConstraints) && infeasibleEdges == old(infeasibleEdges) ==> pending' == pending
      ensures EdgeSet(pending', |edges|) && changed <= changed'
      ensures affected <==>
        (e !in old(infeasibleEdges) && edges[e].start in latestAllowedTimes &&
         (old(timeConstraints[e].entryEarliest) < timeConstraints[e].entryEarliest || e in infeasibleEdges))
    {
      pending', changed', affected := pending, changed, false;
      if e in infeasibleEdges {
        return;
      }
      var c;
      c, pending', changed' := PropagateWindow(e, pending, changed);
      affected := timeConstraints[e].entryEarliest < c.entryEarliest && edges[e].start in latestAllowedTimes;
      timeConstraints := timeConstraints[e := c];
      var broken := IsBroken(e);
      if broken {
        var _ := MarkInfeasibleNoUpdate(e);
        pending' := pending' + SetOf(Previous(edges, edges[e].start)) + SetOf(Next(edges, edges[e].end));
        affected := affected || edges[e].start in latestAllowedTimes;
      }
    }

    /**
     * updatePathPenalties, for the minimum penalty: a positive start
     * penalty on the current windows becomes the minimum penalty.  The
     * edges it marks infeasible past the budget are not modelled.
     */
    method UpdatePathPenalties()
      modifies this
      requires Valid()
      ensures Valid() && Budgets() == old(Budgets()) && dirty == old(dirty)
      ensures timeConstraints == old(timeConstraints) && infeasibleEdges == old(infeasibleEdges)
      ensures minPenalty == Repenalized(old(minPenalty), pathPenalty(timeConstraints, infeasibleEdges))
    {
      var startPenalty := pathPenalty(timeConstraints, infeasibleEdges);
      if Fin(0.0).Below(startPenalty) {
        minPenalty := startPenalty;
      }
    }

    /**
     * EdgeUpdater.run: process pending edges in any order until none is
     * left.  It stops because every step either shrinks the feasible
     * edges, or tightens a window within bounds it cannot pass, or only
     * removes the edge from the worklist.
     */
    method RunEdgeUpdater(pending0: set<nat>, affected0: bool) returns (changed: set<int>, affected: bool)
      modifies this
      requires Valid() && EdgeSet(pending0, |edges|)
      ensures Valid() && Budgets() == old(Budgets())
      ensures Tighter(timeConstraints, old(timeConstraints)) && old(infeasibleEdges) <= infeasibleEdges
      ensures dirty == (old(dirty) || infeasibleEdges != old(infeasibleEdges))
      ensures affected0 ==> affected
      ensures minPenalty == if affected then Repenalized(old(minPenalty), pathPenalty(timeConstraints, infeasibleEdges))
                            else old(minPenalty)
    {
      ghost var tc0, inf0, dirty0, p0 := timeConstraints, infeasibleEdges, dirty, Penalties();
      ghost var hi, lo := HasBounds(timeConstraints);
      var pending := pending0;
      changed, affected := {}, affected0;
      PotentialNonNegative(timeConstraints, infeasibleEdges, hi, lo, |edges|);
      while pending != {}
        invariant Valid() && Penalties() == p0 && (affected0 ==> affected)
        invariant EdgeSet(pending, |edges|)
        invariant Tighter(timeConstraints, tc0) && inf0 <= infeasibleEdges
        invariant dirty == (dirty0 || infeasibleEdges != inf0)
        invariant Bounded(timeConstraints, hi, lo)
        invariant Potential(timeConstraints, infeasibleEdges, hi, lo, |edges|) >= 0
        decreases FeasibleSet(|edges|, infeasibleEdges), Potential(timeConstraints, infeasibleEdges, hi, lo, |edges|), pending
      {
        var e :| e in pending;
        ghost var tc1, inf1 := timeConstraints, infeasibleEdges;
        var more;
        pending, changed, more := Process(e, pending - {e}, changed);
        affected := affected || more;
        StepTightens(edges, minDurations, tc1, inf1, e, timeConstraints, infeasibleEdges);
        StepDecreases(edges, minDurations, tc1, inf1, e, timeConstraints, infeasibleEdges, hi, lo);
      }
      if affected {
        UpdatePathPenalties();
      }
    }

    /**
     * updateForIncreasedEarliestEntry and updateForDecreasedLatestExit:
     * run the edge updater on the edge and its neighbours; a raised entry
     * bound affects the edge's start from the outset when it has a latest
     * allowed time.
     */
    method UpdateAround(e: nat, entryRaised: bool) returns (changed: set<int>)
      modifies this
      requires Valid() && e < |edges|
      ensures Valid() && Budgets() == old(Budgets())
      ensures Tighter(timeConstraints, old(timeConstraints)) && old(infeasibleEdges) <= infeasibleEdges
      ensures dirty == (old(dirty) || infeasibleEdges != old(infeasibleEdges))
      ensures PenaltyFrom(old(minPenalty))
      ensures entryRaised && edges[e].start in latestAllowedTimes ==>
        minPenalty == Repenalized(old(minPenalty), pathPenalty(timeConstraints, infeasibleEdges))
    {
      var pending := {e} + SetOf(Previous(edges, edges[e].start)) + SetOf(Next(edges, edges[e].end));
      var affected;
      changed, affected := RunEdgeUpdater(pending, entryRaised && edges[e].start in latestAllowedTimes);
    }

    /** updateForNewInfeasible: run the edge updater on the neighbours of the given edges. */
    method UpdateForNewInfeasible(es: set<nat>) returns (changed: set<int>)
      modifies this
      requires Valid() && EdgeSet(es, |edges|)
      ensures Valid() && Budgets() == old(Budgets())
      ensures Tighter(timeConstraints, old(timeConstraints)) && old(infeasibleEdges) <= infeasibleEdges
      ensures dirty == (old(dirty) || infeasibleEdges != old(infeasibleEdges))
      ensures PenaltyFrom(old(minPenalty))
    {
      var pending: set<nat> := {};
      var rest := es;
      while rest != {}
        invariant rest <= es && EdgeSet(pending, |edges|)
        decreases rest
      {
        var x :| x in rest;
        rest := rest - {x};
        pending := pending + SetOf(Previous(edges, edges[x].start)) + SetOf(Next(edges, edges[x].end));
      }
      var affected;
      changed, affected := RunEdgeUpdater(pending, false);
    }

    /**
     * update: after an edge was marked infeasible, and only while the
     * constraints are feasible, recompute the path penalties, clear the
     * mark and report every node.
     */
    method Update() returns (changed: set<int>)
      modifies this
      requires Valid()
      ensures Valid() && Clean()
      ensures timeConstraints == old(timeConstraints) && infeasibleEdges == old(infeasibleEdges)
      ensures Budgets() == old(Budgets())
      ensures old(dirty && AreFeasible()) ==>
        !dirty && changed == NodesOf(edges) &&
        minPenalty == Repenalized(old(minPenalty), pathPenalty(timeConstraints, infeasibleEdges))
      ensures !old(dirty && AreFeasible()) ==> dirty == old(dirty) && changed == {} && minPenalty == old(minPenalty)
    {
      if !dirty || !AreFeasible() {
        return {};
      }
      UpdatePathPenalties();
      dirty := false;
      changed := NodesOf(edges);
    }

    /**
     * The update of increaseEarliestEntry's ForwardUpdater at one feasible
     * edge: its end is reported, and exactly when the raised time at its
     * end beats the earliest outgoing time there, that time is recorded
     * for the end and the edges after it are queued.
     */
    method ForwardVisit(edge: nat, minTime: map<int, int>, pending: set<nat>, changeSet: set<int>)
      returns (minTime': map<int, int>, pending': set<nat>, changeSet': set<int>)
      requires Valid() && edge < |edges| && edge !in infeasibleEdges && EdgeSet(pending, |edges|)
      ensures WalkState(minTime', pending', changeSet') ==
              ForwardVisited(edges, minDurations, timeConstraints, infeasibleEdges, edge, WalkState(minTime, pending, changeSet))
    {
      var earliestOutgoingEnd := ExitEarliest(edge);
      var now := TimeOr0(minTime, edges[edge].start) + minDurations[edge];
      assert Raises(edges, minDurations, timeConstraints, infeasibleEdges, edge, minTime) == (now > earliestOutgoingEnd);
      minTime', pending', changeSet' := minTime, pending, changeSet + {edges[edge].end};
      if now > earliestOutgoingEnd {
        minTime' := minTime[edges[edge].end := now];
        pending' := pending + SetOf(Next(edges, edges[edge].end));
      }
    }

    /** One turn of the ForwardUpdater's walk: the edge at position i is taken off the queue, and visited when feasible. */
    method ForwardTake(i: nat, minTime: map<int, int>, pending: set<nat>, changeSet: set<int>)
      returns (minTime': map<int, int>, pending': set<nat>, changeSet': set<int>)
      requires Valid() && i < |sortedEdges| && EdgeSet(pending, |edges|)
      ensures EdgeSet(pending', |edges|) && changeSet <= changeSet' <= changeSet + FeasibleEnds()
      ensures WalkState(minTime', pending', changeSet') ==
              ForwardTurn(edges, minDurations, timeConstraints, infeasibleEdges, sortedEdges, i, WalkState(minTime, pending, changeSet))
      ensures pending - {sortedEdges[i]} <= pending'
      ensures sortedEdges[i] in pending && sortedEdges[i] !in infeasibleEdges ==>
                edges[sortedEdges[i]].end in changeSet'
    {
      var edge := sortedEdges[i];
      minTime', pending', changeSet' := minTime, pending - {edge}, changeSet;
      if edge in pending && edge !in infeasibleEdges {
        minTime', pending', changeSet' := ForwardVisit(edge, minTime, pending', changeSet);
        QueuedEdges(Raises(edges, minDurations, timeConstraints, infeasibleEdges, edge, minTime), pending - {edge},
                    Next(edges, edges[edge].end), |edges|);
        assert edges[edge].end in FeasibleEnds();
      }
    }

    /**
     * The change set of increaseEarliestEntry (a ForwardUpdater): the walk
     * in topological order from the changed edge, with its start at the
     * new time.  It holds only ends of feasible edges, the changed edge's
     * among them.
     */
    method ForwardChangeSet(e: nat, entryEarliest: int) returns (changeSet: set<int>)
      requires Valid() && e < |edges|
      ensures changeSet ==
              ForwardWalk(edges, minDurations, timeConstraints, infeasibleEdges, sortedEdges, 0,
                          WalkState(map[edges[e].start := entryEarliest], {e}, {}))
      ensures e !in infeasibleEdges ==> edges[e].end in changeSet
      ensures changeSet <= FeasibleEnds()
    {
      changeSet := {};
      var minTime := map[edges[e].start := entryEarliest];
      var pending := {e};
      var i := 0;
      while i < |sortedEdges| && pending != {}
        invariant 0 <= i <= |sortedEdges|
        invariant (e in pending && forall k :: 0 <= k < i ==> sortedEdges[k] != e) ||
                  e in infeasibleEdges || edges[e].end in changeSet
        invariant changeSet <= FeasibleEnds()
        invariant EdgeSet(pending, |edges|)
        invariant ForwardWalk(edges, minDurations, timeConstraints, infeasibleEdges, sortedEdges, i, WalkState(minTime, pending, changeSet)) ==
                  ForwardWalk(edges, minDurations, timeConstraints, infeasibleEdges, sortedEdges, 0,
                              WalkState(map[edges[e].start := entryEarliest], {e}, {}))
      {
        minTime, pending, changeSet := ForwardTake(i, minTime, pending, changeSet);
        i := i + 1;
      }
      assert e in sortedEdges;
    }

    /**
     * The update of decreaseLatestExit's BackwardUpdater at one feasible
     * edge: its start is reported, and exactly when the lowered time at
     * its start is below the latest incoming time there, that time is
     * recorded for the start and the edges before it are queued.
     */
    method BackwardVisit(edge: nat, maxTime: map<int, int>, pending: set<nat>, changeSet: set<int>)
      returns (maxTime': map<int, int>, pending': set<nat>, changeSet': set<int>)
      requires Valid() && edge < |edges| && edge !in infeasibleEdges && EdgeSet(pending, |edges|)
      ensures WalkState(maxTime', pending', changeSet') ==
              BackwardVisited(edges, minDurations, timeConstraints, infeasibleEdges, edge, WalkState(maxTime, pending, changeSet))
    {
      var latestIncomingStart := EntryLatest(edge);
      var now := TimeOr0(maxTime, edges[edge].end) - minDurations[edge];
      assert Lowers(edges, minDurations, timeConstraints, infeasibleEdges, edge, maxTime) == (now < latestIncomingStart);
      maxTime', pending', changeSet' := maxTime, pending, changeSet + {edges[edge].start};
      if now < latestIncomingStart {
        maxTime' := maxTime[edges[edge].start := now];
        pending' := pending + SetOf(Previous(edges, edges[edge].start));
      }
    }

    /** One turn of the BackwardUpdater's walk: the edge at position i - 1 is taken off the queue and visited when feasible. */
    method BackwardTake(i: nat, maxTime: map<int, int>, pending: set<nat>, changeSet: set<int>)
      returns (maxTime': map<int, int>, pending': set<nat>, changeSet': set<int>)
      requires Valid() && 0 < i <= |sortedEdges| && EdgeSet(pending, |edges|)
      ensures EdgeSet(pending', |edges|) && changeSet <= changeSet' <= changeSet + FeasibleStarts()
      ensures WalkState(maxTime', pending', changeSet') ==
              BackwardTurn(edges, minDurations, timeConstraints, infeasibleEdges, sortedEdges, i, WalkState(maxTime, pending, changeSet))
      ensures pending - {sortedEdges[i - 1]} <= pending'
      ensures sortedEdges[i - 1] in pending && sortedEdges[i - 1] !in infeasibleEdges ==>
                edges[sortedEdges[i - 1]].start in changeSet'
    {
      var edge := sortedEdges[i - 1];
      maxTime', pending', changeSet' := maxTime, pending - {edge}, changeSet;
      if edge in pending && edge !in infeasibleEdges {
        maxTime', pending', changeSet' := BackwardVisit(edge, maxTime, pending', changeSet);
        QueuedEdges(Lowers(edges, minDurations, timeConstraints, infeasibleEdges, edge, maxTime), pending - {edge},
                    Previous(edges, edges[edge].start), |edges|);
        assert edges[edge].start in FeasibleStarts();
      }
    }

    /**
     * The change set of decreaseLatestExit (a BackwardUpdater): the walk
     * in reverse topological order from the changed edge, with its end at
     * the new time.  It holds only starts of feasible edges, the changed
     * edge's among them.
     */
    method BackwardChangeSet(e: nat, exitLatest: int) returns (changeSet: set<int>)
      requires Valid() && e < |edges|
      ensures changeSet ==
              BackwardWalk(edges, minDurations, timeConstraints, infeasibleEdges, sortedEdges, |sortedEdges|,
                           WalkState(map[edges[e].end := exitLatest], {e}, {}))
      ensures e !in infeasibleEdges ==> edges[e].start in changeSet
      ensures changeSet <= FeasibleStarts()
    {
      changeSet := {};
      var maxTime := map[edges[e].end := exitLatest];
      var pending := {e};
      var i := |sortedEdges|;
      while i > 0 && pending != {}
        invariant 0 <= i <= |sortedEdges|
        invariant (e in pending && forall k :: i <= k < |sortedEdges| ==> sortedEdges[k] != e) ||
                  e in infeasibleEdges || edges[e].start in changeSet
        invariant changeSet <= FeasibleStarts()
        invariant EdgeSet(pending, |edges|)
        invariant BackwardWalk(edges, minDurations, timeConstraints, infeasibleEdges, sortedEdges, i, WalkState(maxTime, pending, changeSet)) ==
                  BackwardWalk(edges, minDurations, timeConstraints, infeasibleEdges, sortedEdges, |sortedEdges|,
                               WalkState(map[edges[e].end := exitLatest], {e}, {}))
      {
        maxTime, pending, changeSet := BackwardTake(i, maxTime, pending, changeSet);
        i := i - 1;
      }
      assert e in sortedEdges;
    }

    /**
     * increaseEarliestEntry: a no-op returning no nodes when the edge is
     * infeasible or already enters no earlier than the time; otherwise the
     * edge enters no earlier than the time afterwards, its start and end
     * are reported, and the change is propagated and the update run.
     */
    method IncreaseEarliestEntry(e: nat, entryEarliest: int) returns (changeSet: set<int>)
      modifies this
      requires Valid() && e < |edges|
      ensures Valid() && Budgets() == old(Budgets()) && PenaltyFrom(old(minPenalty))
      ensures Tighter(timeConstraints, old(timeConstraints)) && old(infeasibleEdges) <= infeasibleEdges
      ensures old(e in infeasibleEdges || timeConstraints[e].entryEarliest >= entryEarliest) ==>
        changeSet == {} && unchanged(this)
      ensures !old(e in infeasibleEdges || timeConstraints[e].entryEarliest >= entryEarliest) ==>
        timeConstraints[e].entryEarliest >= entryEarliest && edges[e].start in changeSet && edges[e].end in changeSet &&
        Clean()
      ensures e in infeasibleEdges || timeConstraints[e].entryEarliest >= entryEarliest
      ensures old(Clean()) ==> Clean()
    {
      var constraint := timeConstraints[e];
      if e in infeasibleEdges || constraint.entryEarliest >= entryEarliest {
        return {};
      }
      timeConstraints := timeConstraints[e := constraint.WithEntryEarliest(entryEarliest)];
      ghost var raised := timeConstraints;
      changeSet := ForwardChangeSet(e, entryEarliest);
      var more := UpdateAround(e, true);
      changeSet := changeSet + more + {edges[e].start, edges[e].end};
      assert Within(timeConstraints[e], raised[e]);
      var updated := Update();
      changeSet := changeSet + updated;
    }

    /**
     * decreaseLatestExit: the mirror image of increaseEarliestEntry for
     * the exit bound.
     */
    method DecreaseLatestExit(e: nat, exitLatest: int) returns (changeSet: set<int>)
      modifies this
      requires Valid() && e < |edges|
      ensures Valid() && Budgets() == old(Budgets()) && PenaltyFrom(old(minPenalty))
      ensures Tighter(timeConstraints, old(timeConstraints)) && old(infeasibleEdges) <= infeasibleEdges
      ensures old(e in infeasibleEdges || timeConstraints[e].exitLatest <= exitLatest) ==>
        changeSet == {} && unchanged(this)
      ensures !old(e in infeasibleEdges || timeConstraints[e].exitLatest <= exitLatest) ==>
        timeConstraints[e].exitLatest <= exitLatest && edges[e].start in changeSet && edges[e].end in changeSet &&
        Clean()
      ensures e in infeasibleEdges || timeConstraints[e].exitLatest <= exitLatest
      ensures old(Clean()) ==> Clean()
    {
      var constraint := timeConstraints[e];
      if e in infeasibleEdges || constraint.exitLatest <= exitLatest {
        return {};
      }
      timeConstraints := timeConstraints[e := constraint.WithExitLatest(exitLatest)];
      ghost var lowered := timeConstraints;
      changeSet := BackwardChangeSet(e, exitLatest);
      var more := UpdateAround(e, false);
      changeSet := changeSet + more + {edges[e].start, edges[e].end};
      assert Within(timeConstraints[e], lowered[e]);
      var updated := Update();
      changeSet := changeSet + updated;
    }

    /**
     * markInfeasible: mark every given edge, propagate from the newly
     * marked ones, and run the update.
     */
    method MarkInfeasible(es: set<nat>) returns (changed: set<int>)
      modifies this
      requires Valid() && EdgeSet(es, |edges|)
      ensures Valid() && Budgets() == old(Budgets()) && PenaltyFrom(old(minPenalty)) && Clean()
      ensures Tighter(timeConstraints, old(timeConstraints)) && old(infeasibleEdges) + es <= infeasibleEdges
    {
      ghost var tc0, inf0, p0 := timeConstraints, infeasibleEdges, Penalties();
      var newInfeasible: set<nat> := {};
      var rest := es;
      while rest != {}
        invariant Valid() && Penalties() == p0 && timeConstraints == tc0
        invariant rest <= es && inf0 + (es - rest) <= infeasibleEdges
        invariant EdgeSet(newInfeasible, |edges|)
        decreases rest
      {
        var x :| x in rest;
        rest := rest - {x};
        var added := MarkInfeasibleNoUpdate(x);
        if added {
          newInfeasible := newInfeasible + {x};
        }
      }
      var _ := UpdateForNewInfeasible(newInfeasible);
      changed := Update();
    }

    /**
     * The body of updateMaxTimes at one inner node: its penalty time set,
     * with its own latest allowed time added, gives the node's maximum
     * time under the budget; every edge into the node is made to leave by
     * then, and the set moved back by each edge's minimum duration is
     * merged into the set of the edge's start.  Fails where the source
     * would throw: no set for the node, or sets of different sizes.
     */
    method UpdateMaxTimesAt(node: int, budget: real) returns (ok: bool, latest: int, changed: set<int>)
      modifies this
      requires Valid()
      ensures Valid() && weights == old(weights) && maxPenalty == old(maxPenalty)
      ensures Tighter(timeConstraints, old(timeConstraints)) && old(infeasibleEdges) <= infeasibleEdges
      ensures node !in latestAllowedTimes && node !in old(penaltyTimeSets) ==> !ok && unchanged(this)
      ensures ok ==> ExitsBy(edges, timeConstraints, infeasibleEdges, node, latest)
      ensures ok && node in old(penaltyTimeSets) && node !in latestAllowedTimes ==>
        latest == MaximumTimeFrom(old(penaltyTimeSets)[node], 1, budget)
    {
      changed := {};
      var pts: seq<int>;
      if node in latestAllowedTimes {
        if node in penaltyTimeSets {
          InsertedSorted(penaltyTimeSets[node], latestAllowedTimes[node]);
          pts := Inserted(penaltyTimeSets[node], latestAllowedTimes[node]);
        } else {
          pts := [latestAllowedTimes[node]];
        }
      } else if node in penaltyTimeSets {
        pts := penaltyTimeSets[node];
      } else {
        return false, 0, {};
      }
      latest := MaximumTimeFrom(pts, 1, budget);
      var prevs := Previous(edges, node);
      ghost var tc0, inf0, p0 := timeConstraints, infeasibleEdges, Budgets();
      var k := 0;
      while k < |prevs|
        invariant 0 <= k <= |prevs|
        invariant Valid() && Budgets() == p0
        invariant Tighter(timeConstraints, tc0) && inf0 <= infeasibleEdges
        invariant forall j :: 0 <= j < k ==> prevs[j] in infeasibleEdges || timeConstraints[prevs[j]].exitLatest <= latest
      {
        ghost var tc1, inf1 := timeConstraints, infeasibleEdges;
        var more := DecreaseLatestExit(prevs[k], latest);
        changed := changed + more;
        forall j | 0 <= j < k
          ensures prevs[j] in infeasibleEdges || timeConstraints[prevs[j]].exitLatest <= latest
        {
          assert Within(timeConstraints[prevs[j]], tc1[prevs[j]]);
        }
        k := k + 1;
      }
      ok := MergeBack(prevs, pts);
    }

    /** The second loop of updateMaxTimes' body: merge the moved set into each previous edge's start. */
    method MergeBack(prevs: seq<nat>, pts: seq<int>) returns (ok: bool)
      modifies this
      requires Valid() && Indices(prevs, |edges|) && |pts| >= 1 && SortedInts(pts)
      ensures Valid() && timeConstraints == old(timeConstraints) && infeasibleEdges == old(infeasibleEdges)
      ensures weights == old(weights) && maxPenalty == old(maxPenalty) && minPenalty == old(minPenalty)
      ensures dirty == old(dirty)
      ensures ok ==> forall k :: 0 <= k < |prevs| ==> edges[prevs[k]].start in penaltyTimeSets
    {
      var k := 0;
      while k < |prevs|
        invariant 0 <= k <= |prevs|
        invariant Valid() && timeConstraints == old(timeConstraints) && infeasibleEdges == old(infeasibleEdges)
        invariant weights == old(weights) && maxPenalty == old(maxPenalty) && minPenalty == old(minPenalty)
        invariant dirty == old(dirty)
        invariant forall j :: 0 <= j < k ==> edges[prevs[j]].start in penaltyTimeSets
      {
        var start := edges[prevs[k]].start;
        var shifted := Shifted(pts, minDurations[prevs[k]]);
        ShiftedSorted(pts, minDurations[prevs[k]]);
        if start in penaltyTimeSets {
          var existing := penaltyTimeSets[start];
          if |existing| != |shifted| {
            return false;
          }
          ElementwiseMaxBounds(shifted, existing);
          penaltyTimeSets := penaltyTimeSets[start := ElementwiseMax(shifted, existing)];
        } else {
          penaltyTimeSets := penaltyTimeSets[start := shifted];
        }
        k := k + 1;
      }
      return true;
    }

    /**
     * updateMaxTimes: the body above at every inner node, in reverse
     * topological order; afterwards every feasible edge into a visited
     * node leaves no later than that node's maximum time.
     */
    method UpdateMaxTimes(budget: real) returns (ok: bool, changed: set<int>, maxTimes: map<int, int>)
      modifies this
      requires Valid()
      ensures Valid() && weights == old(weights) && maxPenalty == old(maxPenalty)
      ensures Tighter(timeConstraints, old(timeConstraints)) && old(infeasibleEdges) <= infeasibleEdges
      ensures forall n | n in maxTimes :: ExitsBy(edges, timeConstraints, infeasibleEdges, n, maxTimes[n])
      ensures ok ==> maxTimes.Keys == InnerNodes(edges, sortedNodes)
    {
      ghost var tc0, inf0 := timeConstraints, infeasibleEdges;
      ghost var w0, max0 := weights, maxPenalty;
      changed, maxTimes := {}, map[];
      var i := |sortedNodes|;
      while i > 0
        invariant 0 <= i <= |sortedNodes|
        invariant Valid() && weights == w0 && maxPenalty == max0
        invariant Tighter(timeConstraints, tc0) && inf0 <= infeasibleEdges
        invariant forall n | n in maxTimes :: ExitsBy(edges, timeConstraints, infeasibleEdges, n, maxTimes[n])
        invariant maxTimes.Keys == InnerNodes(edges, sortedNodes[i..])
      {
        var node := sortedNodes[i - 1];
        assert sortedNodes[i - 1..] == [node] + sortedNodes[i..];
        if Previous(edges, node) != [] && Next(edges, node) != [] {
          ghost var tc1, inf1, before := timeConstraints, infeasibleEdges, maxTimes;
          var nodeOk, latest, more := UpdateMaxTimesAt(node, budget);
          if !nodeOk {
            return false, changed, maxTimes;
          }
          changed := changed + more;
          forall n | n in before
            ensures ExitsBy(edges, timeConstraints, infeasibleEdges, n, before[n])
          {
            ExitsByTightened(edges, tc1, inf1, timeConstraints, infeasibleEdges, n, before[n]);
          }
          maxTimes := maxTimes[node := latest];
        }
        i := i - 1;
      }
      ok := true;
    }

    /**
     * setMaxPenalty: the budget may only shrink (the source refuses a
     * larger one); a budget not below the current one changes nothing,
     * otherwise it becomes the budget, the maximum times are recomputed
     * and the update run.
     */
    method SetMaxPenalty(penalty: real) returns (ok: bool, changes: set<int>)
      modifies this
      requires Valid() && PenaltyLess(Fin(penalty), maxPenalty)
      ensures Valid() && weights == old(weights)
      ensures !Fin(penalty).Below(old(maxPenalty)) ==> unchanged(this) && ok && changes == {}
      ensures Fin(penalty).Below(old(maxPenalty)) ==> maxPenalty == Fin(penalty)
      ensures maxPenalty.AtMost(old(maxPenalty))
      ensures Tighter(timeConstraints, old(timeConstraints)) && old(infeasibleEdges) <= infeasibleEdges
      ensures Fin(penalty).Below(old(maxPenalty)) && ok ==> Clean()
    {
      if !Fin(penalty).Below(maxPenalty) {
        return true, {};
      }
      maxPenalty := Fin(penalty);
      var maxTimes;
      ok, changes, maxTimes := UpdateMaxTimes(penalty);
      if ok {
        var more := Update();
        changes := changes + more;
      }
    }

    /** What the sweeps read at one flow edge, the neighbour bounds by their queries. */
    method ReadLeg(e: nat) returns (leg: Leg)
      requires Valid() && e < |edges|
      ensures leg == LegOf(edges, minDurations, timeConstraints, infeasibleEdges, e)
    {
      var earliestOut := ExitEarliest(e);
      var latestIn := EntryLatest(e);
      leg := Leg(timeConstraints[e].entryEarliest, timeConstraints[e].exitLatest, minDurations[e], earliestOut, latestIn);
    }

    /** What the sweeps read along a flow, edge by edge. */
    method ReadLegs(flow: seq<nat>) returns (legs: seq<Leg>)
      requires Valid() && Flow(edges, flow)
      ensures legs == Legs(edges, minDurations, timeConstraints, infeasibleEdges, flow)
    {
      legs := [];
      var i := 0;
      while i < |flow|
        invariant 0 <= i <= |flow| && |legs| == i
        invariant forall k :: 0 <= k < i ==> legs[k] == LegOf(edges, minDurations, timeConstraints, infeasibleEdges, flow[k])
      {
        var leg := ReadLeg(flow[i]);
        legs := legs + [leg];
        i := i + 1;
      }
    }

    /**
     * getOccupationTimes, without the -1 sentinel: none when a flow edge
     * is infeasible or the swept times cross, otherwise the swept times
     * with the flow's weight; the source refuses a weight that is not
     * positive, reported here as invalidWeight.
     */
    method GetOccupationTimes(start: nat, end: nat, flow: seq<nat>) returns (r: Option<OccupationTimes>, invalidWeight: bool)
      requires Valid() && Clean() && Flow(edges, flow) && start in flow && end in flow
      requires edges[flow[0]].start in weights
      ensures invalidWeight <==>
        AllFeasible(flow, infeasibleEdges) && FlowWeight(edges, infeasibleEdges, weights[edges[flow[0]].start], flow) <= 0.0
      ensures !invalidWeight ==>
        r == OccupationTimesOf(edges, minDurations, timeConstraints, infeasibleEdges, weights[edges[flow[0]].start],
                               start, end, flow)
    {
      var legs := ReadLegs(flow);
      r, invalidWeight := TimesAlong(edges, infeasibleEdges, weights[edges[flow[0]].start], legs, flow, start, end);
    }

    /** copy: the same values in a fresh object, the update mark cleared; refused while an update is due. */
    method Copy() returns (c: GraphConstraints)
      requires Valid() && Clean()
      ensures fresh(c) && c.Valid() && !c.dirty
      ensures c.edges == edges && c.sortedNodes == sortedNodes && c.sortedEdges == sortedEdges
      ensures c.minDurations == minDurations && c.latestAllowedTimes == latestAllowedTimes
      ensures c.timeConstraints == timeConstraints && c.infeasibleEdges == infeasibleEdges
      ensures c.Penalties() == Penalties() && c.pathPenalty == pathPenalty
    {
      c := new GraphConstraints.Init(edges, sortedNodes, sortedEdges, minDurations, latestAllowedTimes, weights,
                                     timeConstraints, infeasibleEdges, penaltyTimeSets, maxPenalty, minPenalty,
                                     pathPenalty);
    }
  }

  /** countFeasibleEdges: how many of the edges are not infeasible. */
  method CountFeasibleEdges(es: seq<nat>, infeasibleEdges: set<nat>) returns (count: nat)
    ensures count == CountFeasible(es, infeasibleEdges)
  {
    count := 0;
    var i := 0;
    while i < |es|
      invariant 0 <= i <= |es|
      invariant count == CountFeasible(es[..i], infeasibleEdges)
    {
      assert es[..i + 1][..i] == es[..i];
      if es[i] !in infeasibleEdges {
        count := count + 1;
      }
      i := i + 1;
    }
    assert es[..|es|] == es;
  }

  /**
   * The body of getOccupationTimes once the legs of the flow are read: the
   * forward sweep, the weight check, the backward sweep and the crossing
   * check.
   */
  method TimesAlong(edges: seq<Edge>, inf: set<nat>, w: real, legs: seq<Leg>, flow: seq<nat>, start: nat, end: nat)
    returns (r: Option<OccupationTimes>, invalidWeight: bool)
    requires Flow(edges, flow) && |legs| == |flow| && start in flow && end in flow
    ensures invalidWeight <==> AllFeasible(flow, inf) && FlowWeight(edges, inf, w, flow) <= 0.0
    ensures !invalidWeight ==>
      r == if AllFeasible(flow, inf) then SweptTimes(legs, flow, start, end, FlowWeight(edges, inf, w, flow)) else None
  {
    var feasible, entryEarliest, exitEarliest, weight := ForwardSweep(edges, inf, w, legs, flow, start, end);
    if !feasible {
      return None, false;
    }
    if weight <= 0.0 {
      return None, true;
    }
    var entryLatest, exitLatest := BackwardSweep(legs, flow, start, end);
    if entryLatest < entryEarliest || exitLatest < exitEarliest {
      return None, false;
    }
    return Some(OccupationTimes(entryEarliest, exitEarliest, entryLatest, exitLatest, weight)), false;
  }

  /**
   * The forward pass of getOccupationTimes over the legs of a flow,
   * starting from the weight w of the flow's first node:
   * none feasible when a flow edge is infeasible; else the earliest
   * entry at the (last) start edge, the earliest exit after the (last)
   * end edge, and the weight of the flow.
   */
  method ForwardSweep(edges: seq<Edge>, inf: set<nat>, w: real, legs: seq<Leg>, flow: seq<nat>, start: nat, end: nat)
    returns (feasible: bool, entryEarliest: int, exitEarliest: int, weight: real)
    requires Flow(edges, flow) && |legs| == |flow| && start in flow && end in flow
    ensures feasible == AllFeasible(flow, inf)
    ensures feasible ==>
      entryEarliest == EntryAt(legs, LastIndex(flow, start)) &&
      exitEarliest == Forward(legs, LastIndex(flow, end) + 1) &&
      weight == FlowWeight(edges, inf, w, flow)
  {
    feasible, weight := WeightAlongFlow(edges, inf, w, flow);
    entryEarliest, exitEarliest := -1, -1;
    if feasible {
      entryEarliest, exitEarliest := ForwardTimes(legs, flow, start, end);
    }
  }

  /**
   * The weight share of a flow: the weight of its first node divided by the
   * number of feasible outgoing edges at each node along it; infeasible as
   * soon as one of its edges is infeasible.
   */
  method WeightAlongFlow(edges: seq<Edge>, inf: set<nat>, w: real, flow: seq<nat>) returns (feasible: bool, weight: real)
    requires Flow(edges, flow)
    ensures feasible == AllFeasible(flow, inf)
    ensures feasible ==> weight == FlowWeight(edges, inf, w, flow)
  {
    weight := w;
    var i := 0;
    while i < |flow|
      invariant 0 <= i <= |flow|
      invariant forall k :: 0 <= k < i ==> flow[k] !in inf
      invariant weight == FlowWeightUpTo(edges, inf, w, flow, i)
    {
      var edge := flow[i];
      if edge in inf {
        return false, weight;
      }
      FlowWeightStep(edges, inf, w, flow, i);
      var outCount := CountFeasibleEdges(Next(edges, edges[edge].start), inf);
      weight := weight / outCount as real;
      i := i + 1;
    }
    feasible := true;
  }

  /**
   * The forward pass over the legs of a feasible flow: the earliest entry at
   * the (last) start edge and the earliest exit at the (last) end edge.
   */
  method ForwardTimes(legs: seq<Leg>, flow: seq<nat>, start: nat, end: nat) returns (entryEarliest: int, exitEarliest: int)
    requires |legs| == |flow| && start in flow && end in flow
    ensures entryEarliest == EntryAt(legs, LastIndex(flow, start))
    ensures exitEarliest == Forward(legs, LastIndex(flow, end) + 1)
  {
    entryEarliest, exitEarliest := -1, -1;
    var current := 0;
    var i := 0;
    ghost var startAt, endAt := -1, -1;
    while i < |flow|
      invariant 0 <= i <= |flow|
      invariant current == Forward(legs, i)
      invariant startAt == LastBefore(flow, start, i) && endAt == LastBefore(flow, end, i)
      invariant startAt >= 0 ==> entryEarliest == EntryAt(legs, startAt)
      invariant endAt >= 0 ==> exitEarliest == Forward(legs, endAt + 1)
    {
      var edge := flow[i];
      ForwardStep(legs, i);
      LastBeforeStep(flow, start, end, i);
      startAt := if edge == start then i else startAt;
      endAt := if edge == end then i else endAt;
      current := Max(current, legs[i].entryEarliest);
      if edge == start {
        entryEarliest := current;
      }
      current := Max(current + legs[i].minDuration, legs[i].earliestOut);
      if edge == end {
        exitEarliest := current;
      }
      i := i + 1;
    }
    LastBeforeIsLastIndex(flow, start, |flow|);
    LastBeforeIsLastIndex(flow, end, |flow|);
  }

  /**
   * The backward pass of getOccupationTimes over the legs of a flow: the
   * latest exit at the (first) end edge and the latest entry before the
   * (first) start edge.
   */
  method BackwardSweep(legs: seq<Leg>, flow: seq<nat>, start: nat, end: nat) returns (entryLatest: int, exitLatest: int)
    requires |legs| == |flow| && start in flow && end in flow
    ensures entryLatest == Backward(legs, FirstIndex(flow, start))
    ensures exitLatest == ExitAt(legs, FirstIndex(flow, end))
  {
    entryLatest, exitLatest := -1, -1;
    var current := TMAX;
    var i := |flow|;
    ghost var startAt, endAt := -1, -1;
    while i > 0
      invariant 0 <= i <= |flow|
      invariant current == Backward(legs, i)
      invariant startAt == FirstFrom(flow, start, i) && endAt == FirstFrom(flow, end, i)
      invariant startAt >= 0 ==> entryLatest == Backward(legs, startAt)
      invariant endAt >= 0 ==> exitLatest == ExitAt(legs, endAt)
    {
      var edge := flow[i - 1];
      BackwardStep(legs, i);
      startAt := if edge == start then i - 1 else startAt;
      endAt := if edge == end then i - 1 else endAt;
      current := Common.Min(current, legs[i - 1].exitLatest);
      if edge == end {
        exitLatest := current;
      }
      current := Common.Min(current - legs[i - 1].minDuration, legs[i - 1].latestIn);
      if edge == start {
        entryLatest := current;
      }
      i := i - 1;
    }
    FirstFromIsFirstIndex(flow, start, 0);
    FirstFromIsFirstIndex(flow, end, 0);
    assert flow[0..] == flow;
  }

  /** Tightening a copy leaves the original as it was. */
  method TightenCopy(gc: GraphConstraints, e: nat, t: int) returns (c: GraphConstraints)
    requires gc.Valid() && gc.Clean() && e < |gc.edges|
    ensures fresh(c) && unchanged(gc) && c.Valid() && c.edges == gc.edges
    ensures e in c.infeasibleEdges || c.timeConstraints[e].entryEarliest >= t
    ensures Tighter(c.timeConstraints, gc.timeConstraints) && gc.infeasibleEdges <= c.infeasibleEdges
  {
    c := gc.Copy();
    var _ := c.IncreaseEarliestEntry(e, t);
  }

  /** Edges done keep entering no earlier than t once tightened further. */
  lemma EntriesKept(tc1: seq<TimeConstraint>, inf1: set<nat>, tc2: seq<TimeConstraint>, inf2: set<nat>, done: set<nat>, t: int)
    requires Tighter(tc2, tc1) && inf1 <= inf2 && EdgeSet(done, |tc1|)
    requires forall e | e in done :: e in inf1 || tc1[e].entryEarliest >= t
    ensures forall e | e in done :: e in inf2 || tc2[e].entryEarliest >= t
  {
    forall e | e in done
      ensures e in inf2 || tc2[e].entryEarliest >= t
    {
      assert Within(tc2[e], tc1[e]);
    }
  }

  /** Edges done keep leaving no later than t once tightened further. */
  lemma ExitsKept(tc1: seq<TimeConstraint>, inf1: set<nat>, tc2: seq<TimeConstraint>, inf2: set<nat>, done: set<nat>, t: int)
    requires Tighter(tc2, tc1) && inf1 <= inf2 && EdgeSet(done, |tc1|)
    requires forall e | e in done :: e in inf1 || tc1[e].exitLatest <= t
    ensures forall e | e in done :: e in inf2 || tc2[e].exitLatest <= t
  {
    forall e | e in done
      ensures e in inf2 || tc2[e].exitLatest <= t
    {
      assert Within(tc2[e], tc1[e]);
    }
  }

  /**
   * applyTo (IntentionRestriction): an IncreaseMinTime raises the earliest
   * entry of each of its edges to its time, a DecreaseMaxTime lowers the
   * latest exit of each, in whatever order the edge set yields them, and
   * the nodes each call reports are collected; a MarkPathInfeasible marks
   * its edges infeasible.  Afterwards every edge of the restriction is
   * infeasible or within the restricted time.
   */
  method ApplyTo(r: Restrictions.Restriction, gc: GraphConstraints)
    returns (affected: set<int>, ghost wtc: seq<TimeConstraint>, ghost winf: set<nat>)
    modifies gc
    requires gc.Valid() && EdgeSet(r.edges, |gc.edges|)
    ensures gc.Valid() && gc.Budgets() == old(gc.Budgets())
    ensures Tighter(gc.timeConstraints, old(gc.timeConstraints)) && old(gc.infeasibleEdges) <= gc.infeasibleEdges
    ensures PricedBetween(gc.pathPenalty, old(gc.minPenalty), gc.minPenalty, old(gc.timeConstraints),
                          old(gc.infeasibleEdges), wtc, winf, gc.timeConstraints, gc.infeasibleEdges)
    ensures r.IncreaseMinTime? ==>
      forall e | e in r.edges :: e in gc.infeasibleEdges || gc.timeConstraints[e].entryEarliest >= r.minTime
    ensures r.DecreaseMaxTime? ==>
      forall e | e in r.edges :: e in gc.infeasibleEdges || gc.timeConstraints[e].exitLatest <= r.maxTime
    ensures r.MarkPathInfeasible? ==> r.edges <= gc.infeasibleEdges && gc.Clean()
    ensures old(gc.Clean()) ==> gc.Clean()
  {
    wtc, winf := gc.timeConstraints, gc.infeasibleEdges;
    if r.MarkPathInfeasible? {
      affected := gc.MarkInfeasible(r.edges);
      wtc, winf := gc.timeConstraints, gc.infeasibleEdges;
      return;
    }
    affected := {};
    var rest := r.edges;
    ghost var done: set<nat> := {};
    ghost var clean := gc.Clean();
    while rest != {}
      invariant gc.Valid() && gc.Budgets() == old(gc.Budgets())
      invariant Tighter(gc.timeConstraints, old(gc.timeConstraints)) && old(gc.infeasibleEdges) <= gc.infeasibleEdges
      invariant PricedBetween(gc.pathPenalty, old(gc.minPenalty), gc.minPenalty, old(gc.timeConstraints),
                              old(gc.infeasibleEdges), wtc, winf, gc.timeConstraints, gc.infeasibleEdges)
      invariant rest <= r.edges && done == r.edges - rest
      invariant r.IncreaseMinTime? ==>
        forall e | e in done :: e in gc.infeasibleEdges || gc.timeConstraints[e].entryEarliest >= r.minTime
      invariant r.DecreaseMaxTime? ==>
        forall e | e in done :: e in gc.infeasibleEdges || gc.timeConstraints[e].exitLatest <= r.maxTime
      invariant clean ==> gc.Clean()
      decreases rest
    {
      var e :| e in rest;
      ghost var tc, inf := gc.timeConstraints, gc.infeasibleEdges;
      label step:
      var nodes;
      if r.IncreaseMinTime? {
        nodes := gc.IncreaseEarliestEntry(e, r.minTime);
        EntriesKept(tc, inf, gc.timeConstraints, gc.infeasibleEdges, done, r.minTime);
      } else {
        nodes := gc.DecreaseLatestExit(e, r.maxTime);
        ExitsKept(tc, inf, gc.timeConstraints, gc.infeasibleEdges, done, r.maxTime);
      }
      if gc.minPenalty != old@step(gc.minPenalty) {
        wtc, winf := gc.timeConstraints, gc.infeasibleEdges;
      }
      affected := affected + nodes;
      rest := rest - {e};
      done := done + {e};
    }
  }
}
