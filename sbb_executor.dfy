/*
 * The solver's executor: the state it searches over (resource plans and
 * time constraints keyed by resource and intention, plus the committed
 * minimum penalty), the state changer that applies a conflict schedule
 * by draining the restriction queue, and the worst-conflict and option
 * queries the directors call.
 */
module Executors {
  import opened Common
  import opened RouteGraphs
  import opened TimeBounds
  import opened Occupation
  import opened ResourceOccupations
  import opened Restrictions
  import opened Schedules
  import opened RestrictionQueues
  import opened Constraints
  import opened ResourcePlans
  import opened ConnectionOccupations
  import Util
  import opened Stores

  /**
   * State: the plans and constraints are shared between states and must be
   * copied before they change; a state changer does that key by key.
   */
  datatype State = State(resourcePlans: map<string, ResourcePlan>,
                         graphConstraints: map<string, GraphConstraints>,
                         minPenalty: Penalty)

  /**
   * The parts of the problem the changer reads: the service intentions in
   * scenario order with the nodes of their route graphs, and each
   * intention's resource occupations indexed by start and end node.
   */
  datatype Problem = Problem(intentions: seq<string>,
                             graphNodes: map<string, set<int>>,
                             occupations: map<string, GraphResourceOccupations>,
                             edgesByMarker: map<string, map<string, set<nat>>>)
  {
    /** getEdgesByMarker of the intention's route graph; a marker on no edge has none. */
    function MarkerEdges(intention: string, marker: string): set<nat>
    {
      if intention in edgesByMarker && marker in edgesByMarker[intention] then edgesByMarker[intention][marker] else {}
    }
  }

  /** The occupation's flow is a flow of the constraints' graph, with a weight at its first node. */
  predicate FitsGraph(gc: GraphConstraints, o: ResourceOccupation)
    reads gc
  {
    Flow(gc.edges, o.flow) && o.start in o.flow && o.end in o.flow && gc.edges[o.flow[0]].start in gc.weights
  }

  /** The times of the occupation under the constraints as they stand. */
  ghost function TimesNow(gc: GraphConstraints, o: ResourceOccupation): Option<OccupationTimes>
    reads gc
    requires gc.Valid() && FitsGraph(gc, o)
  {
    OccupationTimesOf(gc.edges, gc.minDurations, gc.timeConstraints, gc.infeasibleEdges,
                      gc.weights[gc.edges[o.flow[0]].start], o.start, o.end, o.flow)
  }

  /** getOccupationTimes of the occupation; invalidWeight when the source's weight assertion fails. */
  method OccupationTimesNow(gc: GraphConstraints, o: ResourceOccupation)
    returns (times: Option<OccupationTimes>, invalidWeight: bool)
    requires gc.Valid() && gc.Clean() && FitsGraph(gc, o)
    ensures invalidWeight <==>
      AllFeasible(o.flow, gc.infeasibleEdges) &&
      FlowWeight(gc.edges, gc.infeasibleEdges, gc.weights[gc.edges[o.flow[0]].start], o.flow) <= 0.0
    ensures !invalidWeight ==> times == TimesNow(gc, o)
  {
    times, invalidWeight := gc.GetOccupationTimes(o.start, o.end, o.flow);
  }

  // ---------------------------------------------------------------------
  // applyConnectionConstraints
  // ---------------------------------------------------------------------

  /**
   * The feasible edges entering the start node of a feasible arrival edge
   * that may still be left after latestArrival.
   */
  function LateEdges(b: EdgeBounds, arrivalEdges: set<nat>, latestArrival: int): set<nat>
    requires b.Sized()
  {
    set p | p in Incoming(b.edges, arrivalEdges - b.infeasibleEdges) && p !in b.infeasibleEdges &&
            b.timeConstraints[p].exitLatest > latestArrival
  }

  /**
   * The feasible edges leaving the end node of a feasible departure edge
   * that may still be entered before earliestDeparture.
   */
  function EarlyEdges(b: EdgeBounds, departureEdges: set<nat>, earliestDeparture: int): set<nat>
    requires b.Sized()
  {
    set n | n in Outgoing(b.edges, departureEdges - b.infeasibleEdges) && n !in b.infeasibleEdges &&
            b.timeConstraints[n].entryEarliest < earliestDeparture
  }

  /**
   * The restrictions applyConnectionConstraints queues for one connection
   * whose earliest arrival and latest departure are known: the late
   * edges before the arrival may be left no later than latestDeparture
   * minus the connection time, the early edges after the departure
   * entered no earlier than earliestArrival plus it (in int arithmetic);
   * an empty edge set queues nothing.
   */
  function ConnectionRestrictions(c: Connection, from: EdgeBounds, to: EdgeBounds,
                                  arrivalEdges: set<nat>, departureEdges: set<nat>,
                                  earliestArrival: int, latestDeparture: int): seq<Restriction>
    requires from.Sized() && to.Sized()
  {
    var latestArrival := Wrap32(latestDeparture - c.minConnectionTime);
    var earliestDeparture := Wrap32(earliestArrival + c.minConnectionTime);
    var late := LateEdges(from, arrivalEdges, latestArrival);
    var early := EarlyEdges(to, departureEdges, earliestDeparture);
    (if late == {} then [] else [DecreaseMaxTime(c.intentionFrom, latestArrival, late)]) +
    (if early == {} then [] else [IncreaseMinTime(c.intentionTo, earliestDeparture, early)])
  }

  /**
   * A restriction that bites: its edge set is non-empty and each of its
   * edges is feasible and still allowed past the restricted time.
   */
  predicate Violated(r: Restriction, b: EdgeBounds)
    requires b.Sized()
  {
    r.edges != {} &&
    match r
    case DecreaseMaxTime(_, maxTime, edges) =>
      forall e :: e in edges ==> b.Feasible(e) && b.timeConstraints[e].exitLatest > maxTime
    case IncreaseMinTime(_, minTime, edges) =>
      forall e :: e in edges ==> b.Feasible(e) && b.timeConstraints[e].entryEarliest < minTime
    case MarkPathInfeasible(_, _) => false
  }

  /** A restriction that holds no longer bites. */
  lemma EnforcedNotViolated(r: Restriction, b: EdgeBounds)
    requires b.Sized() && Enforced(r, b)
    ensures !Violated(r, b)
  {
    if r.edges != {} {
      var e :| e in r.edges;
    }
  }

  /**
   * Every goal restriction waits in the queue held, or is covered by a
   * restriction already applied (in met).
   */
  ghost predicate AnsweredBy(goals: set<Restriction>, held: Contents, met: set<Restriction>)
  {
    forall r :: r in goals ==> held.Waits(r) || exists p :: p in met && Covers(p, r)
  }

  /** A queue that keeps what it held and a growing set of applied restrictions still answer the goals. */
  lemma {:induction false} AnsweredKept(goals: set<Restriction>, before: Contents, now: Contents,
                                        met0: set<Restriction>, met1: set<Restriction>)
    requires AnsweredBy(goals, before, met0) && now.Keeps(before) && met0 <= met1
    ensures AnsweredBy(goals, now, met1)
  {
    forall r | r in goals && !now.Waits(r)
      ensures exists p :: p in met1 && Covers(p, r)
    {
      if before.Waits(r) {
        KeptWaits(now, before, r);
      }
    }
  }

  /**
   * Popping a restriction and applying it answers every goal that waited
   * for it: the popped one covers what left the queue.
   */
  lemma {:induction false} AnsweredPopped(goals: set<Restriction>, before: Contents, after: Contents,
                                          met0: set<Restriction>, met1: set<Restriction>, popped: Restriction)
    requires AnsweredBy(goals, before, met0) && met0 + {popped} <= met1
    requires forall r :: before.Waits(r) ==> after.Waits(r) || Covers(popped, r)
    ensures AnsweredBy(goals, after, met1)
  {
    forall r | r in goals && !after.Waits(r)
      ensures exists p :: p in met1 && Covers(p, r)
    {
      if before.Waits(r) {
        assert popped in met1 && Covers(popped, r);
      }
    }
  }

  /**
   * Popping a restriction of another intention than every goal's and
   * skipping it answers the goals as before: it covers none of them.
   */
  lemma {:induction false} AnsweredSkipped(goals: set<Restriction>, before: Contents, after: Contents,
                                           met: set<Restriction>, popped: Restriction)
    requires AnsweredBy(goals, before, met)
    requires forall r :: before.Waits(r) ==> after.Waits(r) || Covers(popped, r)
    requires forall r :: r in goals ==> r.intention != popped.intention
    ensures AnsweredBy(goals, after, met)
  {
    forall r | r in goals && !after.Waits(r)
      ensures exists p :: p in met && Covers(p, r)
    {
      assert !Covers(popped, r);
      assert !before.Waits(r);
    }
  }

  /**
   * A popped restriction answers the goals as before whether it was
   * applied or, being of another intention than every goal's, skipped.
   */
  lemma AnsweredStep(goals: set<Restriction>, before: Contents, after: Contents,
                     met0: set<Restriction>, met1: set<Restriction>, popped: Restriction, applied: bool)
    requires AnsweredBy(goals, before, met0)
    requires forall r :: before.Waits(r) ==> after.Waits(r) || Covers(popped, r)
    requires applied ==> met0 + {popped} <= met1
    requires !applied ==> met0 <= met1 && forall r :: r in goals ==> r.intention != popped.intention
    ensures AnsweredBy(goals, after, met1)
  {
    if applied {
      AnsweredPopped(goals, before, after, met0, met1, popped);
    } else {
      AnsweredSkipped(goals, before, after, met0, popped);
      AnsweredKept(goals, after, after, met0, met1);
    }
  }

  /** Goals answered with the popped restriction applied stay answered once it is among the applied ones. */
  lemma {:induction false} AnsweredGrown(goals: set<Restriction>, held: Contents, met0: set<Restriction>,
                                         met1: set<Restriction>, popped: Restriction, applied: bool)
    requires AnsweredBy(goals, held, if applied then met0 + {popped} else met0)
    requires met0 <= met1 && (applied ==> popped in met1)
    ensures AnsweredBy(goals, held, met1)
  {
    AnsweredKept(goals, held, held, if applied then met0 + {popped} else met0, met1);
  }

  /**
   * With the queue empty every goal is covered by an applied
   * restriction, and so holds on its intention's bounds.
   */
  lemma {:induction false} AnsweredDone(goals: set<Restriction>, held: Contents, met: set<Restriction>,
                                        floor: map<string, EdgeBounds>, bs: map<string, EdgeBounds>)
    requires AnsweredBy(goals, held, met) && held.times == map[] && held.marks == map[]
    requires NarrowedFrom(floor, bs, met)
    ensures forall r :: r in goals ==> r.intention in bs && bs[r.intention].Sized() && Enforced(r, bs[r.intention])
  {
    forall r | r in goals
      ensures r.intention in bs && bs[r.intention].Sized() && Enforced(r, bs[r.intention])
    {
      assert !held.Waits(r);
      var p :| p in met && Covers(p, r);
      EnforcedCovered(p, r, bs[p.intention]);
    }
  }

  /**
   * Every restriction a connection queues bites on its own intention's
   * edges, and it restricts every late (early) neighbour edge there is.
   */
  lemma ConnectionRestrictionsViolated(c: Connection, from: EdgeBounds, to: EdgeBounds,
                                       arrivalEdges: set<nat>, departureEdges: set<nat>,
                                       earliestArrival: int, latestDeparture: int)
    requires from.Sized() && to.Sized()
    ensures var rs := ConnectionRestrictions(c, from, to, arrivalEdges, departureEdges, earliestArrival, latestDeparture);
      |rs| <= 2 &&
      forall r :: r in rs ==>
        (r.DecreaseMaxTime? && r.intention == c.intentionFrom && Violated(r, from)) ||
        (r.IncreaseMinTime? && r.intention == c.intentionTo && Violated(r, to))
  {
    var latestArrival := Wrap32(latestDeparture - c.minConnectionTime);
    var earliestDeparture := Wrap32(earliestArrival + c.minConnectionTime);
    var late := LateEdges(from, arrivalEdges, latestArrival);
    var early := EarlyEdges(to, departureEdges, earliestDeparture);
    forall e | e in late
      ensures from.Feasible(e)
    {
      assert e in Incoming(from.edges, arrivalEdges - from.infeasibleEdges);
    }
    forall e | e in early
      ensures to.Feasible(e)
    {
      assert e in Outgoing(to.edges, departureEdges - to.infeasibleEdges);
    }
  }

  /**
   * The late edges are exactly the feasible edges entering a feasible
   * arrival edge's start node that may be left after latestArrival.
   */
  lemma LateEdgesComplete(b: EdgeBounds, arrivalEdges: set<nat>, latestArrival: int, e: nat, p: nat)
    requires b.Sized() && e in arrivalEdges && b.Feasible(e) && b.Feasible(p)
    requires b.edges[p].end == b.edges[e].start && b.timeConstraints[p].exitLatest > latestArrival
    ensures p in LateEdges(b, arrivalEdges, latestArrival)
  {
    IncomingComplete(b.edges, arrivalEdges - b.infeasibleEdges, e, p);
  }

  /**
   * The early edges are exactly the feasible edges leaving a feasible
   * departure edge's end node that may be entered before earliestDeparture.
   */
  lemma EarlyEdgesComplete(b: EdgeBounds, departureEdges: set<nat>, earliestDeparture: int, e: nat, n: nat)
    requires b.Sized() && e in departureEdges && b.Feasible(e) && b.Feasible(n)
    requires b.edges[n].start == b.edges[e].end && b.timeConstraints[n].entryEarliest < earliestDeparture
    ensures n in EarlyEdges(b, departureEdges, earliestDeparture)
  {
    OutgoingComplete(b.edges, departureEdges - b.infeasibleEdges, e, n);
  }

  /** How applying one popped restriction ended. */
  datatype RestrictStep = Restricted(changed: set<int>, touched: set<ResourceOccupation>, increase: Penalty) | Refuted | Raised

  /** Moving an element from the rest to the done part keeps every key in one of them. */
  lemma Moved<T>(keys: set<T>, done: set<T>, rest: set<T>, k: T)
    requires keys <= done + rest && k in rest
    ensures keys <= (done + {k}) + (rest - {k})
  {
  }

  /** How one intention's round of increaseMinPenalty ended. */
  datatype LimitStep = Limited(increase: Penalty) | Infeasible | Threw

  /**
   * How much a minimum penalty grew: penaltyAfter - penaltyBefore when
   * it grew (+Infinity when it became infinite), 0 otherwise.
   */
  function PenaltyIncrease(before: Penalty, after: Penalty): (d: Penalty)
    ensures d == Fin(0.0) || Fin(0.0).Below(d)
    ensures Fin(0.0).Below(d) <==> before.Below(after)
    ensures before.Below(after) ==> before.Plus(d) == after
  {
    match (before, after)
    case (Fin(b), Fin(a)) => if b < a then Fin(a - b) else Fin(0.0)
    case (Fin(_), Inf) => Inf
    case (Inf, _) => Fin(0.0)
  }

  /** Restrictions that all restrict times mark no intention infeasible. */
  lemma NoMarks(rs: seq<Restriction>)
    requires forall r :: r in rs ==> !r.MarkPathInfeasible?
    ensures MarkedOf(rs) == {}
  {
  }

  /**
   * ea is the smallest entryEarliest over the feasible arrival edges, or
   * Integer.MAX_VALUE when there is none.
   */
  predicate EarliestEntry(b: EdgeBounds, arrivalEdges: set<nat>, ea: int)
    requires b.Sized()
  {
    ea <= IntMax &&
    (forall e :: e in arrivalEdges && b.Feasible(e) ==> ea <= b.timeConstraints[e].entryEarliest) &&
    (ea == IntMax || exists e :: e in arrivalEdges && b.Feasible(e) && ea == b.timeConstraints[e].entryEarliest)
  }

  /**
   * ld is the largest exitLatest over the feasible departure edges, or 0
   * when there is none.
   */
  predicate LatestExit(b: EdgeBounds, departureEdges: set<nat>, ld: int)
    requires b.Sized()
  {
    ld >= 0 &&
    (forall e :: e in departureEdges && b.Feasible(e) ==> b.timeConstraints[e].exitLatest <= ld) &&
    (ld == 0 || exists e :: e in departureEdges && b.Feasible(e) && ld == b.timeConstraints[e].exitLatest)
  }

  lemma EarliestEntryUnique(b: EdgeBounds, arrivalEdges: set<nat>, ea: int, ea': int)
    requires b.Sized() && EarliestEntry(b, arrivalEdges, ea) && EarliestEntry(b, arrivalEdges, ea')
    ensures ea == ea'
  {
    if ea != IntMax {
      var e :| e in arrivalEdges && b.Feasible(e) && ea == b.timeConstraints[e].entryEarliest;
      assert ea' <= ea;
    }
    if ea' != IntMax {
      var e :| e in arrivalEdges && b.Feasible(e) && ea' == b.timeConstraints[e].entryEarliest;
      assert ea <= ea';
    }
  }

  lemma LatestExitUnique(b: EdgeBounds, departureEdges: set<nat>, ld: int, ld': int)
    requires b.Sized() && LatestExit(b, departureEdges, ld) && LatestExit(b, departureEdges, ld')
    ensures ld == ld'
  {
    if ld != 0 {
      var e :| e in departureEdges && b.Feasible(e) && ld == b.timeConstraints[e].exitLatest;
      assert ld <= ld';
    }
    if ld' != 0 {
      var e :| e in departureEdges && b.Feasible(e) && ld' == b.timeConstraints[e].exitLatest;
      assert ld' <= ld;
    }
  }

  /** The earliest entry over the feasible arrival edges, taken one edge at a time from Integer.MAX_VALUE. */
  ghost function MinEntry(b: EdgeBounds, arrivalEdges: set<nat>): int
    requires b.Sized()
    decreases arrivalEdges
  {
    if arrivalEdges == {} then IntMax
    else
      var e :| e in arrivalEdges;
      var rest := MinEntry(b, arrivalEdges - {e});
      if b.Feasible(e) then Min(rest, b.timeConstraints[e].entryEarliest) else rest
  }

  /** The latest exit over the feasible departure edges, taken one edge at a time from 0. */
  ghost function MaxExit(b: EdgeBounds, departureEdges: set<nat>): int
    requires b.Sized()
    decreases departureEdges
  {
    if departureEdges == {} then 0
    else
      var e :| e in departureEdges;
      var rest := MaxExit(b, departureEdges - {e});
      if b.Feasible(e) then Max(rest, b.timeConstraints[e].exitLatest) else rest
  }

  lemma {:induction false} MinEntryIsEarliest(b: EdgeBounds, arrivalEdges: set<nat>)
    requires b.Sized()
    ensures EarliestEntry(b, arrivalEdges, MinEntry(b, arrivalEdges))
    decreases arrivalEdges
  {
    if arrivalEdges != {} {
      var e :| e in arrivalEdges && MinEntry(b, arrivalEdges) ==
        if b.Feasible(e) then Min(MinEntry(b, arrivalEdges - {e}), b.timeConstraints[e].entryEarliest)
        else MinEntry(b, arrivalEdges - {e});
      var rest := MinEntry(b, arrivalEdges - {e});
      MinEntryIsEarliest(b, arrivalEdges - {e});
      var m := MinEntry(b, arrivalEdges);
      assert m == if b.Feasible(e) then Min(rest, b.timeConstraints[e].entryEarliest) else rest;
      forall x | x in arrivalEdges && b.Feasible(x)
        ensures m <= b.timeConstraints[x].entryEarliest
      {
        if x != e {
          assert x in arrivalEdges - {e};
        }
      }
      if m != IntMax && !(b.Feasible(e) && m == b.timeConstraints[e].entryEarliest) {
        assert m == rest;
        var x :| x in arrivalEdges - {e} && b.Feasible(x) && rest == b.timeConstraints[x].entryEarliest;
      }
    }
  }

  lemma {:induction false} MaxExitIsLatest(b: EdgeBounds, departureEdges: set<nat>)
    requires b.Sized()
    ensures LatestExit(b, departureEdges, MaxExit(b, departureEdges))
    decreases departureEdges
  {
    if departureEdges != {} {
      var e :| e in departureEdges && MaxExit(b, departureEdges) ==
        if b.Feasible(e) then Max(MaxExit(b, departureEdges - {e}), b.timeConstraints[e].exitLatest)
        else MaxExit(b, departureEdges - {e});
      var rest := MaxExit(b, departureEdges - {e});
      MaxExitIsLatest(b, departureEdges - {e});
      var m := MaxExit(b, departureEdges);
      assert m == if b.Feasible(e) then Max(rest, b.timeConstraints[e].exitLatest) else rest;
      forall x | x in departureEdges && b.Feasible(x)
        ensures b.timeConstraints[x].exitLatest <= m
      {
        if x != e {
          assert x in departureEdges - {e};
        }
      }
      if m != 0 && !(b.Feasible(e) && m == b.timeConstraints[e].exitLatest) {
        assert m == rest;
        var x :| x in departureEdges - {e} && b.Feasible(x) && rest == b.timeConstraints[x].exitLatest;
      }
    }
  }

  /**
   * The restrictions applyConnectionConstraints queues for one connection:
   * those for the earliest arrival over the source intention's feasible
   * arrival edges and the latest departure over the target intention's
   * feasible departure edges.
   */
  ghost function Queued(c: Connection, from: EdgeBounds, to: EdgeBounds,
                        arrivalEdges: set<nat>, departureEdges: set<nat>): seq<Restriction>
    requires from.Sized() && to.Sized()
  {
    ConnectionRestrictions(c, from, to, arrivalEdges, departureEdges, MinEntry(from, arrivalEdges), MaxExit(to, departureEdges))
  }

  /**
   * A connection applyConnectionConstraints can handle: both intentions
   * have constraints and each marker's edges belong to its graph.
   */
  predicate ConnectionFits(c: Connection, problem: Problem, bs: map<string, EdgeBounds>)
  {
    c.intentionFrom in bs && c.intentionTo in bs &&
    EdgeSet(problem.MarkerEdges(c.intentionFrom, c.markerFrom), |bs[c.intentionFrom].edges|) &&
    EdgeSet(problem.MarkerEdges(c.intentionTo, c.markerTo), |bs[c.intentionTo].edges|)
  }

  /**
   * What a connection queues on the bounds of each intention; nothing
   * when it does not fit.
   */
  ghost function QueuedIn(c: Connection, problem: Problem, bs: map<string, EdgeBounds>): seq<Restriction>
  {
    if ConnectionFits(c, problem, bs) && bs[c.intentionFrom].Sized() && bs[c.intentionTo].Sized() then
      Queued(c, bs[c.intentionFrom], bs[c.intentionTo],
             problem.MarkerEdges(c.intentionFrom, c.markerFrom), problem.MarkerEdges(c.intentionTo, c.markerTo))
    else []
  }

  /** The time restrictions each connection queues on the bounds of each intention, connection by connection. */
  ghost function ConnectionQueues(connections: seq<Connection>, problem: Problem, bs: map<string, EdgeBounds>)
    : (ts: seq<set<Restriction>>)
    ensures |ts| == |connections|
    ensures forall k :: 0 <= k < |connections| ==> ts[k] == TimesOf(QueuedIn(connections[k], problem, bs))
  {
    seq(|connections|, k requires 0 <= k < |connections| => TimesOf(QueuedIn(connections[k], problem, bs)))
  }

  /** The union of the first n sets. */
  ghost function UnionUpTo(ts: seq<set<Restriction>>, n: nat): set<Restriction>
    requires n <= |ts|
  {
    if n == 0 then {} else UnionUpTo(ts, n - 1) + ts[n - 1]
  }

  /** The time restrictions all connections queue on the bounds of each intention. */
  ghost function ConnectionTimes(connections: seq<Connection>, problem: Problem, bs: map<string, EdgeBounds>)
    : set<Restriction>
  {
    UnionUpTo(ConnectionQueues(connections, problem, bs), |connections|)
  }

  /**
   * The body of applyConnectionConstraints' loop for one connection: the
   * earliest arrival over the feasible arrival edges (Integer.MAX_VALUE
   * when there is none), the latest departure over the feasible departure
   * edges (0 when there is none), and the restrictions they give.
   */
  method RestrictionsFor(c: Connection, from: GraphConstraints, to: GraphConstraints,
                         arrivalEdges: set<nat>, departureEdges: set<nat>)
    returns (earliestArrival: int, latestDeparture: int, rs: seq<Restriction>)
    requires from.Valid() && to.Valid() && EdgeSet(arrivalEdges, |from.edges|) && EdgeSet(departureEdges, |to.edges|)
    ensures forall e :: e in arrivalEdges && e !in from.infeasibleEdges ==>
      earliestArrival <= from.timeConstraints[e].entryEarliest
    ensures earliestArrival == IntMax || exists e :: (e in arrivalEdges && e !in from.infeasibleEdges &&
      earliestArrival == from.timeConstraints[e].entryEarliest)
    ensures forall e :: e in departureEdges && e !in to.infeasibleEdges ==>
      to.timeConstraints[e].exitLatest <= latestDeparture
    ensures latestDeparture == 0 || exists e :: (e in departureEdges && e !in to.infeasibleEdges &&
      latestDeparture == to.timeConstraints[e].exitLatest)
    ensures rs == ConnectionRestrictions(c, BoundsOf(from), BoundsOf(to), arrivalEdges, departureEdges,
                                         earliestArrival, latestDeparture)
    ensures earliestArrival == MinEntry(BoundsOf(from), arrivalEdges)
    ensures latestDeparture == MaxExit(BoundsOf(to), departureEdges)
    ensures rs == Queued(c, BoundsOf(from), BoundsOf(to), arrivalEdges, departureEdges)
  {
    var latestArrivalBound, earliestDepartureBound;
    earliestArrival, latestArrivalBound := ArrivalTimes(from, arrivalEdges);
    earliestDepartureBound, latestDeparture := DepartureTimes(to, departureEdges);
    rs := ConnectionRestrictions(c, BoundsOf(from), BoundsOf(to), arrivalEdges, departureEdges,
                                 earliestArrival, latestDeparture);
    MinEntryIsEarliest(BoundsOf(from), arrivalEdges);
    EarliestEntryUnique(BoundsOf(from), arrivalEdges, earliestArrival, MinEntry(BoundsOf(from), arrivalEdges));
    MaxExitIsLatest(BoundsOf(to), departureEdges);
    LatestExitUnique(BoundsOf(to), departureEdges, latestDeparture, MaxExit(BoundsOf(to), departureEdges));
  }

  /**
   * One round of applyConnectionConstraints' loop: the connection's
   * restrictions join the queue, and each time restriction added bites
   * on the bounds of the intention it restricts.
   */
  method QueueConnection(q: RestrictionQueue, c: Connection, from: GraphConstraints, to: GraphConstraints,
                         arrivalEdges: set<nat>, departureEdges: set<nat>)
    returns (rs: seq<Restriction>)
    requires q.Valid() && from.Valid() && to.Valid()
    requires EdgeSet(arrivalEdges, |from.edges|) && EdgeSet(departureEdges, |to.edges|)
    modifies q
    ensures rs == Queued(c, BoundsOf(from), BoundsOf(to), arrivalEdges, departureEdges)
    ensures q.PendingTimes() == old(q.PendingTimes()) + TimesOf(rs)
    ensures q.Valid() && q.poppedElements == old(q.poppedElements)
    ensures q.infeasibleEdges.Keys == old(q.infeasibleEdges.Keys) && q.Held().Keeps(old(q.Held()))
    ensures old(q.PendingTimes()) <= q.PendingTimes()
    ensures forall r :: r in q.PendingTimes() - old(q.PendingTimes()) ==>
      (r.intention == c.intentionFrom && Violated(r, BoundsOf(from))) ||
      (r.intention == c.intentionTo && Violated(r, BoundsOf(to)))
  {
    var earliestArrival, latestDeparture, found := RestrictionsFor(c, from, to, arrivalEdges, departureEdges);
    rs := Enqueue(q, c, BoundsOf(from), BoundsOf(to), arrivalEdges, departureEdges, earliestArrival, latestDeparture);
  }

  /** The restrictions for the given arrival and departure times join the queue; each time restriction bites. */
  method Enqueue(q: RestrictionQueue, c: Connection, from: EdgeBounds, to: EdgeBounds,
                 arrivalEdges: set<nat>, departureEdges: set<nat>, earliestArrival: int, latestDeparture: int)
    returns (rs: seq<Restriction>)
    requires q.Valid() && from.Sized() && to.Sized()
    modifies q
    ensures rs == ConnectionRestrictions(c, from, to, arrivalEdges, departureEdges, earliestArrival, latestDeparture)
    ensures q.PendingTimes() == old(q.PendingTimes()) + TimesOf(rs)
    ensures q.Valid() && q.poppedElements == old(q.poppedElements)
    ensures q.infeasibleEdges.Keys == old(q.infeasibleEdges.Keys) && q.Held().Keeps(old(q.Held()))
    ensures forall r :: r in q.PendingTimes() - old(q.PendingTimes()) ==>
      (r.intention == c.intentionFrom && Violated(r, from)) ||
      (r.intention == c.intentionTo && Violated(r, to))
  {
    rs := ConnectionRestrictions(c, from, to, arrivalEdges, departureEdges, earliestArrival, latestDeparture);
    ConnectionRestrictionsViolated(c, from, to, arrivalEdges, departureEdges, earliestArrival, latestDeparture);
    q.AddAll(rs);
    NoMarks(rs);
  }

  /** The occupations listed as starting or ending at one node. */
  function AtNode(gro: GraphResourceOccupations, n: int): set<ResourceOccupation>
  {
    (set o | o in gro.OccupationsStartingAt(n)) + (set o | o in gro.OccupationsEndingAt(n))
  }

  /** The occupations listed as starting or ending at one of the nodes. */
  function Touched(gro: GraphResourceOccupations, nodes: set<int>): set<ResourceOccupation>
  {
    set n, o | n in nodes && o in AtNode(gro, n) :: o
  }

  lemma TouchedStep(gro: GraphResourceOccupations, done: set<int>, n: int)
    ensures Touched(gro, done + {n}) == Touched(gro, done) + AtNode(gro, n)
  {
  }

  /** The loop of syncResourcePlan and drainQueue that collects the occupations touching changed nodes. */
  method CollectTouched(gro: GraphResourceOccupations, nodes: set<int>) returns (needsUpdate: set<ResourceOccupation>)
    ensures needsUpdate == Touched(gro, nodes)
  {
    needsUpdate := {};
    var rest := nodes;
    while exists n :: n in rest
      invariant rest <= nodes
      invariant needsUpdate == Touched(gro, nodes - rest)
      decreases rest
    {
      var n :| n in rest;
      TouchedStep(gro, nodes - rest, n);
      needsUpdate := needsUpdate + AtNode(gro, n);
      assert nodes - (rest - {n}) == (nodes - rest) + {n};
      rest := rest - {n};
    }
  }

  ghost predicate StateValid(s: State)
    reads s.resourcePlans.Values, s.graphConstraints.Values
  {
    PlansValid(s.resourcePlans) && ConstraintsValid(s.graphConstraints)
  }

  /** The resources of a set of occupations. */
  function Resources(os: set<ResourceOccupation>): set<string>
  {
    set o | o in os :: o.resource
  }

  /** Taking one more occupation out of the rest adds its resource to those done. */
  lemma ResourcesStep(copied: set<string>, all: set<ResourceOccupation>, rest: set<ResourceOccupation>,
                      o: ResourceOccupation)
    requires o in rest && rest <= all
    ensures all - (rest - {o}) == (all - rest) + {o}
    ensures copied + Resources(all - (rest - {o})) == (copied + Resources(all - rest)) + {o.resource}
  {
    assert all - (rest - {o}) == (all - rest) + {o};
  }

  /**
   * The occupations syncResourcePlan updates: those of the intention that
   * start or end at a changed node.
   */
  function TouchedOccupations(occupations: map<string, GraphResourceOccupations>, intention: string, nodes: set<int>)
    : set<ResourceOccupation>
  {
    if intention in occupations then Touched(occupations[intention], nodes) else {}
  }

  /** A restriction that bites on the bounds of its intention. */
  ghost predicate BitesIn(r: Restriction, bs: map<string, EdgeBounds>)
  {
    r.intention in bs && bs[r.intention].Sized() && Violated(r, bs[r.intention])
  }

  /** What the queue gained since pending0 are time restrictions that bite. */
  ghost predicate BitingSince(q: RestrictionQueue, pending0: set<Restriction>, bs: map<string, EdgeBounds>)
    reads q
  {
    pending0 <= q.PendingTimes() && AllBite(q.PendingTimes() - pending0, bs)
  }

  /** Every restriction of the set bites on the bounds of its intention. */
  ghost predicate AllBite(added: set<Restriction>, bs: map<string, EdgeBounds>)
  {
    forall r :: r in added ==> BitesIn(r, bs)
  }

  /** Restrictions added in two rounds, each biting, all bite. */
  lemma BitingStep(pending0: set<Restriction>, before: set<Restriction>, after: set<Restriction>,
                   bs: map<string, EdgeBounds>)
    requires pending0 <= before <= after
    requires AllBite(before - pending0, bs) && AllBite(after - before, bs)
    ensures AllBite(after - pending0, bs)
  {
    assert after - pending0 == (before - pending0) + (after - before);
  }

  /** Restrictions that bite on one of a connection's two bounds bite on the bounds of their intention. */
  lemma BitingPair(added: set<Restriction>, bs: map<string, EdgeBounds>, c: Connection, from: EdgeBounds, to: EdgeBounds)
    requires c.intentionFrom in bs && c.intentionTo in bs && from == bs[c.intentionFrom] && to == bs[c.intentionTo]
    requires from.Sized() && to.Sized()
    requires forall r :: r in added ==>
      (r.intention == c.intentionFrom && Violated(r, from)) ||
      (r.intention == c.intentionTo && Violated(r, to))
    ensures AllBite(added, bs)
  {
  }

  /**
   * The loop of applyConnectionConstraints over the connections: it
   * throws at the first connection that does not fit, and otherwise the
   * time restrictions of every connection join the queue, each biting.
   */
  method QueueConnections(q: RestrictionQueue, problem: Problem, connections: seq<Connection>,
                          gcs: map<string, GraphConstraints>, ghost bs: map<string, EdgeBounds>) returns (thrown: bool)
    requires q.Valid() && Snapshot(gcs, bs)
    modifies q
    ensures q.Valid() && q.poppedElements == old(q.poppedElements)
    ensures q.infeasibleEdges.Keys == old(q.infeasibleEdges.Keys) && q.Held().Keeps(old(q.Held()))
    ensures BitingSince(q, old(q.PendingTimes()), bs)
    ensures thrown <==> exists k :: 0 <= k < |connections| && !ConnectionFits(connections[k], problem, bs)
    ensures !thrown ==> q.PendingTimes() == old(q.PendingTimes()) + ConnectionTimes(connections, problem, bs)
  {
    ghost var pending0 := q.PendingTimes();
    ghost var ts := ConnectionQueues(connections, problem, bs);
    var k := 0;
    while k < |connections|
      invariant 0 <= k <= |connections|
      invariant QueuedUpTo(q, pending0, connections, problem, bs, ts, k)
      invariant q.poppedElements == old(q.poppedElements) && q.infeasibleEdges.Keys == old(q.infeasibleEdges.Keys)
      invariant q.Held().Keeps(old(q.Held()))
    {
      var c := connections[k];
      if !(c.intentionFrom in gcs && c.intentionTo in gcs) {
        assert !ConnectionFits(c, problem, bs);
        return true;
      }
      var from, to := gcs[c.intentionFrom], gcs[c.intentionTo];
      var arrivalEdges := problem.MarkerEdges(c.intentionFrom, c.markerFrom);
      var departureEdges := problem.MarkerEdges(c.intentionTo, c.markerTo);
      if !(EdgeSet(arrivalEdges, |from.edges|) && EdgeSet(departureEdges, |to.edges|)) {
        assert !ConnectionFits(c, problem, bs);
        return true;
      }
      k := QueueFitting(q, problem, connections, k, from, to, bs, ts, pending0);
    }
    thrown := false;
  }

  /**
   * The body of applyConnectionConstraints' loop for a connection k that
   * fits: its time restrictions join those of the connections before
   * it, each of which bites.
   */
  method QueueFitting(q: RestrictionQueue, problem: Problem, connections: seq<Connection>, k: nat,
                      from: GraphConstraints, to: GraphConstraints, ghost bs: map<string, EdgeBounds>,
                      ghost ts: seq<set<Restriction>>, ghost pending0: set<Restriction>) returns (next: nat)
    requires k < |connections| && from.Valid() && to.Valid() && ConnectionFits(connections[k], problem, bs)
    requires bs[connections[k].intentionFrom] == BoundsOf(from) && bs[connections[k].intentionTo] == BoundsOf(to)
    requires ts == ConnectionQueues(connections, problem, bs)
    requires QueuedUpTo(q, pending0, connections, problem, bs, ts, k)
    modifies q
    ensures next == k + 1 && QueuedUpTo(q, pending0, connections, problem, bs, ts, next)
    ensures q.poppedElements == old(q.poppedElements) && q.infeasibleEdges.Keys == old(q.infeasibleEdges.Keys)
    ensures q.Held().Keeps(old(q.Held()))
  {
    var c := connections[k];
    var arrivalEdges := problem.MarkerEdges(c.intentionFrom, c.markerFrom);
    var departureEdges := problem.MarkerEdges(c.intentionTo, c.markerTo);
    ghost var mid := q.PendingTimes();
    var rs := QueueConnection(q, c, from, to, arrivalEdges, departureEdges);
    assert rs == QueuedIn(c, problem, bs);
    BitingPair(q.PendingTimes() - mid, bs, c, bs[c.intentionFrom], bs[c.intentionTo]);
    next := k + 1;
    QueuedStep(pending0, mid, q.PendingTimes(), rs, connections, problem, bs, ts, k, next);
  }

  /**
   * One more connection's time restrictions, each biting, keep the loop
   * state of applyConnectionConstraints.
   */
  lemma QueuedStep(pending0: set<Restriction>, mid: set<Restriction>, after: set<Restriction>, rs: seq<Restriction>,
                   connections: seq<Connection>, problem: Problem, bs: map<string, EdgeBounds>,
                   ts: seq<set<Restriction>>, k: nat, next: nat)
    requires k < |connections| && next == k + 1 && ts == ConnectionQueues(connections, problem, bs)
    requires ConnectionFits(connections[k], problem, bs) && rs == QueuedIn(connections[k], problem, bs)
    requires mid == pending0 + UnionUpTo(ts, k) && after == mid + TimesOf(rs)
    requires pending0 <= mid && AllBite(mid - pending0, bs) && AllBite(after - mid, bs)
    requires AllFit(connections, problem, bs, k)
    ensures after == pending0 + UnionUpTo(ts, next)
    ensures pending0 <= after && AllBite(after - pending0, bs)
    ensures AllFit(connections, problem, bs, next)
  {
    BitingStep(pending0, mid, after, bs);
    UnionAssoc(pending0, UnionUpTo(ts, k), TimesOf(rs));
    AllFitStep(connections, problem, bs, k);
  }

  /**
   * applyConnectionConstraints' loop after k connections: each of them
   * fits, their time restrictions joined the queue and each bites.
   */
  ghost predicate QueuedUpTo(q: RestrictionQueue, pending0: set<Restriction>, connections: seq<Connection>,
                             problem: Problem, bs: map<string, EdgeBounds>, ts: seq<set<Restriction>>, k: nat)
    reads q
    requires k <= |connections| && k <= |ts|
  {
    q.Valid() && BitingSince(q, pending0, bs) && AllFit(connections, problem, bs, k) &&
    q.PendingTimes() == pending0 + UnionUpTo(ts, k)
  }

  /** The bounds of every intention's constraints, each valid. */
  ghost predicate Snapshot(gcs: map<string, GraphConstraints>, bs: map<string, EdgeBounds>)
    reads gcs.Values
  {
    (forall i :: i in bs ==> i in gcs) &&
    (forall i :: i in gcs ==> i in bs && gcs[i].Valid() && bs[i] == BoundsOf(gcs[i]))
  }

  /** The first n connections fit. */
  ghost predicate AllFit(connections: seq<Connection>, problem: Problem, bs: map<string, EdgeBounds>, n: nat)
    requires n <= |connections|
  {
    forall j :: 0 <= j < n ==> ConnectionFits(connections[j], problem, bs)
  }

  lemma AllFitStep(connections: seq<Connection>, problem: Problem, bs: map<string, EdgeBounds>, n: nat)
    requires n < |connections| && AllFit(connections, problem, bs, n) && ConnectionFits(connections[n], problem, bs)
    ensures AllFit(connections, problem, bs, n + 1)
  {
  }

  /**
   * StateChanger: applies restrictions to one state.  Plans and
   * constraints are copied the first time they change and installed under
   * their key; the objects of the state it started from are never changed.
   */
  /** An occupation planned before a step that changed no plan and no constraints is planned after it. */
  twostate lemma PlannedKept(sc: StateChanger)
    requires old(sc.constraints.Valid()) && unchanged(sc.plans, sc.constraints)
    requires forall k :: k in sc.plans.plans ==> unchanged(sc.plans.plans[k])
    requires forall k :: k in sc.constraints.constraints ==> unchanged(sc.constraints.constraints[k])
    ensures sc.constraints.Valid() && forall x :: old(sc.Planned(x)) ==> sc.Planned(x)
  {
    ConstraintsKept(sc.constraints);
  }

  /** A step that changes none of the changer's objects keeps it valid. */
  twostate lemma ValidKept(sc: StateChanger)
    requires old(sc.Valid()) && unchanged(sc, sc.plans, sc.constraints, sc.restrictionQueue)
    requires forall k :: k in sc.plans.plans ==> unchanged(sc.plans.plans[k])
    requires forall k :: k in sc.constraints.constraints ==> unchanged(sc.constraints.constraints[k])
    ensures sc.Valid()
  {
    ConstraintsKept(sc.constraints);
  }

  class StateChanger {
    const problem: Problem
    const maxPenalty: real
    const connections: seq<Connection>
    const restrictionQueue: RestrictionQueue
    const plans: PlanStore
    const constraints: ConstraintStore
    var minPenalty: Penalty

    ghost predicate Valid()
      reads this, restrictionQueue, plans, constraints, plans.plans.Values, constraints.constraints.Values
    {
      plans.Valid() && constraints.Valid() && restrictionQueue.Valid()
    }

    constructor (problem: Problem, maxPenalty: real, connections: seq<Connection>, state: State)
      requires StateValid(state)
      ensures Valid() && fresh(restrictionQueue) && fresh(plans) && fresh(constraints)
      ensures restrictionQueue.IsEmpty()
      ensures this.problem == problem && this.maxPenalty == maxPenalty && this.connections == connections
      ensures plans.initial == state.resourcePlans && plans.plans == state.resourcePlans && plans.copied == {}
      ensures constraints.initial == state.graphConstraints && constraints.constraints == state.graphConstraints
      ensures constraints.copied == {} && minPenalty == state.minPenalty
      ensures plans.owned == {} && constraints.owned == {}
      ensures constraints.floor == old(BoundsMap(state.graphConstraints)) && constraints.met == {}
    {
      constraints := new ConstraintStore(state.graphConstraints);
      this.problem := problem;
      this.maxPenalty := maxPenalty;
      this.connections := connections;
      this.minPenalty := state.minPenalty;
      plans := new PlanStore(state.resourcePlans);
      restrictionQueue := new RestrictionQueue();
    }

    /**
     * The plan of the occupation's resource holds the times the
     * occupation has under its intention's constraints as they stand.
     */
    ghost predicate Planned(o: ResourceOccupation)
      reads this, plans, constraints, plans.plans.Values, constraints.constraints.Values
      requires constraints.Valid()
    {
      o.resource in plans.plans && o.intention in constraints.constraints &&
      FitsGraph(constraints.constraints[o.intention], o) &&
      PlannedTimes(plans.plans[o.resource].timeByOccupation, o) == TimesNow(constraints.constraints[o.intention], o)
    }

    /**
     * updateResourcePlan: the occupation's times under its constraints
     * as they stand are set in, or when there are none removed from, the
     * plan of the resource, a copy prepared for modification; no other
     * occupation's times change.  Problem data that does not fit together
     * makes it throw.
     */
    method UpdateResourcePlan(resource: string, occupation: ResourceOccupation) returns (thrown: bool)
      requires Valid()
      modifies plans, plans.owned, restrictionQueue
      ensures !thrown ==> Valid() && plans.plans.Keys == old(plans.plans.Keys)
      ensures !thrown ==> plans.copied == old(plans.copied) + {resource}
      ensures !thrown && resource == occupation.resource ==> Planned(occupation)
      ensures !thrown ==> forall x :: old(Planned(x)) ==> Planned(x)
      ensures forall p :: p in plans.owned ==> p in old(plans.owned) || fresh(p)
      ensures restrictionQueue.Held().Keeps(old(restrictionQueue.Held()))
    {
      if !(resource in plans.plans && occupation.intention in constraints.constraints &&
           FitsGraph(constraints.constraints[occupation.intention], occupation)) {
        return true;
      }
      var times, invalidWeight := OccupationTimesNow(constraints.constraints[occupation.intention], occupation);
      if invalidWeight {
        return true;
      }
      PlannedKept(this);
      var ok := StorePlanned(resource, occupation, times);
      thrown := !ok;
    }

    /**
     * Storing times that are the occupation's times as they stand makes it
     * planned, and keeps every occupation that was planned so.
     */
    method StorePlanned(resource: string, occupation: ResourceOccupation, times: Option<OccupationTimes>)
      returns (ok: bool)
      requires Valid() && resource in plans.plans && occupation.intention in constraints.constraints
      requires FitsGraph(constraints.constraints[occupation.intention], occupation)
      requires times == TimesNow(constraints.constraints[occupation.intention], occupation)
      modifies plans, plans.owned, restrictionQueue
      ensures ok ==> Valid() && plans.plans.Keys == old(plans.plans.Keys)
      ensures ok ==> plans.copied == old(plans.copied) + {resource}
      ensures ok && resource == occupation.resource ==> Planned(occupation)
      ensures ok ==> forall x :: old(Planned(x)) ==> Planned(x)
      ensures forall p :: p in plans.owned ==> p in old(plans.owned) || fresh(p)
      ensures restrictionQueue.Held().Keeps(old(restrictionQueue.Held()))
    {
      ok := StoreTimes(resource, occupation, times);
      if ok {
        forall x | old(Planned(x))
          ensures Planned(x)
        {
          if x.resource == resource {
            assert PlannedTimes(plans.plans[resource].timeByOccupation, x) == PlannedTimes(old(plans.plans[resource].timeByOccupation), x)
                   || x == occupation;
          }
        }
      }
    }

    /**
     * The plan store's step of updateResourcePlan: the times are set in,
     * or removed from, the resource's plan, and the graph constraints are
     * left as they are.
     */
    method StoreTimes(resource: string, occupation: ResourceOccupation, times: Option<OccupationTimes>)
      returns (ok: bool)
      requires Valid() && resource in plans.plans
      modifies plans, plans.owned, restrictionQueue
      ensures ok ==> Valid()
      ensures plans.plans.Keys == old(plans.plans.Keys) && plans.copied == old(plans.copied) + {resource}
      ensures plans.plans[resource].timeByOccupation == Stored(old(plans.plans[resource].timeByOccupation), occupation, times)
      ensures forall k :: k in plans.plans && k != resource ==> plans.plans[k].timeByOccupation == old(plans.plans[k].timeByOccupation)
      ensures unchanged(constraints) && forall k :: k in constraints.constraints ==> unchanged(constraints.constraints[k])
      ensures forall p :: p in plans.owned ==> p in old(plans.owned) || fresh(p)
      ensures restrictionQueue.Held().Keeps(old(restrictionQueue.Held()))
    {
      ok := plans.Store(resource, occupation, times, restrictionQueue);
      if ok {
        ConstraintsKept(constraints);
      }
    }

    /**
     * One turn of the loop over needsUpdate: the occupation's plan is
     * updated, and the occupations already done stay up to date.
     */
    method UpdateNext(o: ResourceOccupation, ghost done: set<ResourceOccupation>) returns (thrown: bool)
      requires Valid() && forall x :: x in done ==> Planned(x)
      modifies plans, plans.owned, restrictionQueue
      ensures !thrown ==> Valid() && plans.plans.Keys == old(plans.plans.Keys)
      ensures !thrown ==> plans.copied == old(plans.copied) + {o.resource}
      ensures !thrown ==> forall x :: x in done + {o} ==> Planned(x)
      ensures forall p :: p in plans.owned ==> p in old(plans.owned) || fresh(p)
      ensures restrictionQueue.Held().Keeps(old(restrictionQueue.Held()))
    {
      thrown := UpdateResourcePlan(o.resource, o);
    }

    /**
     * The loop over needsUpdate in syncResourcePlan and drainQueue: the
     * plan of every occupation's resource is updated, so exactly those
     * resources get their plans copied and every one of the occupations
     * has its times under its constraints in its plan.
     */
    method UpdateAll(needsUpdate: set<ResourceOccupation>) returns (thrown: bool)
      requires Valid()
      modifies plans, plans.owned, restrictionQueue
      ensures !thrown ==> Valid() && plans.plans.Keys == old(plans.plans.Keys)
      ensures !thrown ==> plans.copied == old(plans.copied) + Resources(needsUpdate)
      ensures !thrown ==> forall o :: o in needsUpdate ==> Planned(o)
      ensures forall p :: p in plans.owned ==> p in old(plans.owned) || fresh(p)
      ensures restrictionQueue.Held().Keeps(old(restrictionQueue.Held()))
    {
      var rest := needsUpdate;
      while exists o :: o in rest
        invariant rest <= needsUpdate && Valid() && plans.plans.Keys == old(plans.plans.Keys)
        invariant restrictionQueue.Held().Keeps(old(restrictionQueue.Held()))
        invariant plans.copied == old(plans.copied) + Resources(needsUpdate - rest)
        invariant forall o :: o in needsUpdate - rest ==> Planned(o)
        invariant forall p :: p in plans.owned ==> p in old(plans.owned) || fresh(p)
        decreases rest
      {
        var o :| o in rest;
        var failed := UpdateNext(o, needsUpdate - rest);
        if failed {
          return true;
        }
        ResourcesStep(old(plans.copied), needsUpdate, rest, o);
        rest := rest - {o};
      }
      assert needsUpdate - rest == needsUpdate;
      return false;
    }

    /**
     * syncResourcePlan: the plans of the occupations of the intention that
     * start or end at a changed node are brought up to date.  An intention
     * without occupations throws once there is a node to look up.
     */
    method SyncResourcePlan(intention: string, changedNodes: set<int>) returns (thrown: bool)
      requires Valid()
      modifies plans, plans.owned, restrictionQueue
      ensures !thrown ==> Valid() && plans.plans.Keys == old(plans.plans.Keys)
      ensures !thrown ==>
        plans.copied == old(plans.copied) + Resources(TouchedOccupations(problem.occupations, intention, changedNodes))
      ensures !thrown ==> forall o :: o in TouchedOccupations(problem.occupations, intention, changedNodes) ==> Planned(o)
      ensures forall p :: p in plans.owned ==> p in old(plans.owned) || fresh(p)
      ensures restrictionQueue.Held().Keeps(old(restrictionQueue.Held()))
    {
      if intention !in problem.occupations {
        return changedNodes != {};
      }
      var needsUpdate := CollectTouched(problem.occupations[intention], changedNodes);
      thrown := UpdateAll(needsUpdate);
    }

    /** A restriction that bites on the current constraints of its intention. */
    ghost predicate Bites(r: Restriction)
      reads this, constraints, constraints.constraints.Values
      requires constraints.Valid()
    {
      BitesIn(r, BoundsMap(constraints.constraints))
    }

    /**
     * applyConnectionConstraints: for every connection, the restrictions
     * its arrival and departure times call for join the queue.  A
     * connection whose intention has no constraints throws, as does a
     * marker edge set that does not fit the intention's graph.  Nothing
     * but the queue's time restrictions changes, and every time
     * restriction it adds bites.
     */
    method ApplyConnectionConstraints() returns (thrown: bool)
      requires Valid()
      modifies restrictionQueue
      ensures Valid()
      ensures restrictionQueue.poppedElements == old(restrictionQueue.poppedElements)
      ensures restrictionQueue.infeasibleEdges.Keys == old(restrictionQueue.infeasibleEdges.Keys)
      ensures restrictionQueue.Held().Keeps(old(restrictionQueue.Held()))
      ensures BitingSince(restrictionQueue, old(restrictionQueue.PendingTimes()), old(BoundsMap(constraints.constraints)))
      ensures thrown <==>
        exists k :: 0 <= k < |connections| && !ConnectionFits(connections[k], problem, old(BoundsMap(constraints.constraints)))
      ensures !thrown ==>
        restrictionQueue.PendingTimes() == old(restrictionQueue.PendingTimes()) +
          ConnectionTimes(connections, problem, old(BoundsMap(constraints.constraints)))
    {
      ghost var bs := BoundsMap(constraints.constraints);
      thrown := QueueConnections(restrictionQueue, problem, connections, constraints.constraints, bs);
      assert plans.Valid() && constraints.Valid();
    }

    /**
     * Why drainQueue and increaseMinPenalty give up on a state: the
     * summed minimum penalty is over the budget, or the constraints of
     * some intention are infeasible.
     */
    ghost predicate Failed()
      reads this, constraints, constraints.constraints.Values
    {
      !(minPenalty.Fin? && minPenalty.value <= maxPenalty) ||
      exists k :: k in constraints.constraints && !constraints.constraints[k].AreFeasible()
    }

    /**
     * One round of increaseMinPenalty's loop: the intention's constraints,
     * prepared for modification, get the budget its minimum penalty and
     * the remaining penalty leave it, within the per-intention cap, and
     * the plans of the nodes that changed follow.  The result says how
     * much its minimum penalty grew.
     */
    method LimitOne(intention: string, remaining: real, ghost done: set<string>) returns (step: LimitStep)
      requires Valid() && intention in constraints.constraints && constraints.Capped(done)
      modifies plans, plans.owned, constraints, constraints.owned, restrictionQueue
      ensures constraints.constraints.Keys == old(constraints.constraints.Keys)
      ensures constraints.copied == old(constraints.copied) + {intention}
      ensures !step.Threw? ==> Valid() && plans.plans.Keys == old(plans.plans.Keys)
      ensures step.Infeasible? ==> !constraints.constraints[intention].AreFeasible()
      ensures step.Limited? ==> constraints.Capped(done + {intention})
      ensures forall p :: p in plans.owned ==> p in old(plans.owned) || fresh(p)
      ensures forall g :: g in constraints.owned ==> g in old(constraints.owned) || fresh(g)
      ensures restrictionQueue.Held().Keeps(old(restrictionQueue.Held())) && constraints.met == old(constraints.met)
    {
      var changes;
      step, changes := LimitIntention(intention, remaining, done);
      if !step.Limited? {
        return;
      }
      var thrown := SyncLimited(intention, changes);
      if thrown {
        return Threw;
      }
    }

    /** SyncResourcePlan as LimitOne needs it: the plans stay valid. */
    method SyncLimited(intention: string, changedNodes: set<int>) returns (thrown: bool)
      requires Valid()
      modifies plans, plans.owned, restrictionQueue
      ensures !thrown ==> Valid() && plans.plans.Keys == old(plans.plans.Keys)
      ensures unchanged(constraints) && forall k :: k in constraints.constraints ==> unchanged(constraints.constraints[k])
      ensures forall p :: p in plans.owned ==> p in old(plans.owned) || fresh(p)
      ensures restrictionQueue.Held().Keeps(old(restrictionQueue.Held()))
    {
      thrown := SyncResourcePlan(intention, changedNodes);
    }

    /**
     * The store's limit for LimitOne, before the plans follow: the
     * intention's constraints get their budget, and the step says
     * whether they threw, became infeasible or grew by how much.
     */
    method LimitIntention(intention: string, remaining: real, ghost done: set<string>)
      returns (step: LimitStep, changes: set<int>)
      requires Valid() && intention in constraints.constraints && constraints.Capped(done)
      modifies constraints, constraints.owned
      ensures constraints.constraints.Keys == old(constraints.constraints.Keys)
      ensures constraints.copied == old(constraints.copied) + {intention}
      ensures !step.Threw? ==> Valid()
      ensures step.Infeasible? ==> !constraints.constraints[intention].AreFeasible()
      ensures step.Limited? ==> constraints.Capped(done + {intention})
      ensures step.Limited? ==>
        step.increase == PenaltyIncrease(old(constraints.constraints[intention].minPenalty),
                                         constraints.constraints[intention].minPenalty)
      ensures forall g :: g in constraints.owned ==> g in old(constraints.owned) || fresh(g)
      ensures constraints.met == old(constraints.met)
    {
      var thrown, feasible, before, after;
      thrown, changes, feasible, before, after := constraints.Limit(intention, remaining, done);
      if thrown {
        return Threw, changes;
      }
      if !feasible {
        return Infeasible, changes;
      }
      return Limited(PenaltyIncrease(before, after)), changes;
    }

    /**
     * increaseMinPenalty's loop over the intentions, in an arbitrary
     * order, up to the first intention whose minimum penalty grew (its
     * growth is returned), an infeasible one, or an exception.  When it
     * runs to the end every intention is within the per-intention cap.
     */
    method LimitAll(remaining: real) returns (step: LimitStep)
      requires Valid()
      modifies plans, plans.owned, constraints, constraints.owned, restrictionQueue
      ensures constraints.constraints.Keys == old(constraints.constraints.Keys)
      ensures !step.Threw? ==> Valid() && plans.plans.Keys == old(plans.plans.Keys)
      ensures step.Infeasible? ==> exists k :: k in constraints.constraints && !constraints.constraints[k].AreFeasible()
      ensures step == Limited(Fin(0.0)) ==> constraints.Capped(constraints.constraints.Keys)
      ensures forall p :: p in plans.owned ==> p in old(plans.owned) || fresh(p)
      ensures forall g :: g in constraints.owned ==> g in old(constraints.owned) || fresh(g)
      ensures restrictionQueue.Held().Keeps(old(restrictionQueue.Held())) && constraints.met == old(constraints.met)
    {
      var rest := constraints.constraints.Keys;
      ghost var done := {};
      while exists k :: k in rest
        invariant constraints.constraints.Keys == old(constraints.constraints.Keys) <= done + rest
        invariant Valid() && plans.plans.Keys == old(plans.plans.Keys) && constraints.Capped(done)
        invariant restrictionQueue.Held().Keeps(old(restrictionQueue.Held())) && constraints.met == old(constraints.met)
        invariant forall p :: p in plans.owned ==> p in old(plans.owned) || fresh(p)
        invariant forall g :: g in constraints.owned ==> g in old(constraints.owned) || fresh(g)
        decreases rest
      {
        var k :| k in rest;
        step := LimitOne(k, remaining, done);
        if !step.Limited? || step.increase != Fin(0.0) {
          return;
        }
        Moved(old(constraints.constraints.Keys), done, rest, k);
        done, rest := done + {k}, rest - {k};
      }
      assert old(constraints.constraints.Keys) <= done;
      return Limited(Fin(0.0));
    }

    /**
     * increaseMinPenalty: the minimum penalty grows by delta; while it is
     * within the budget every intention's constraints get the budget the
     * rest leaves them, and when an intention's minimum penalty grows on
     * the way the step is repeated for the growth, which fuel bounds.
     * True leaves every intention within the per-intention cap and the
     * total within the budget; false means the state failed.
     */
    method IncreaseMinPenalty(delta: Penalty, fuel: nat) returns (result: Outcome<bool>)
      requires Valid()
      modifies this, plans, plans.owned, constraints, constraints.owned, restrictionQueue
      decreases fuel
      ensures constraints.constraints.Keys == old(constraints.constraints.Keys)
      ensures result.Returned? ==> Valid() && plans.plans.Keys == old(plans.plans.Keys)
      ensures result == Returned(true) ==> minPenalty.Fin? && minPenalty.value <= maxPenalty
      ensures result == Returned(true) ==> constraints.Capped(constraints.constraints.Keys)
      ensures result == Returned(false) ==> Failed()
      ensures forall p :: p in plans.owned ==> p in old(plans.owned) || fresh(p)
      ensures forall g :: g in constraints.owned ==> g in old(constraints.owned) || fresh(g)
      ensures restrictionQueue.Held().Keeps(old(restrictionQueue.Held())) && constraints.met == old(constraints.met)
    {
      minPenalty := minPenalty.Plus(delta);
      if !(minPenalty.Fin? && maxPenalty - minPenalty.value >= 0.0) {
        return Returned(false);
      }
      var step := LimitAll(maxPenalty - minPenalty.value);
      match step
      case Threw => return Thrown;
      case Infeasible => return Returned(false);
      case Limited(increase) =>
        if increase == Fin(0.0) {
          return Returned(true);
        }
        if fuel == 0 {
          return OutOfFuel;
        }
        result := IncreaseMinPenalty(increase, fuel - 1);
    }

    /**
     * The part of drainQueue's loop that applies one popped restriction:
     * the constraints of its intention, prepared for modification, are
     * restricted; infeasible constraints end the drain.  Otherwise the
     * occupations at the changed nodes need their plans updated, and the
     * growth of the intention's minimum penalty is reported.  A
     * restriction of an intention without constraints, with edges outside
     * its graph, or with changes where there are no occupations throws.
     */
    method ApplyOne(r: Restriction) returns (step: RestrictStep)
      requires Valid()
      modifies constraints, constraints.owned
      ensures !step.Raised? ==> Valid() && constraints.constraints.Keys == old(constraints.constraints.Keys)
      ensures step.Refuted? ==> Failed()
      ensures old(constraints.met) <= constraints.met
      ensures !step.Raised? ==> constraints.Applied(r, old(constraints.bounds))
      ensures step.Restricted? ==>
        r.intention in old(constraints.constraints) &&
        step.touched == TouchedOccupations(problem.occupations, r.intention, step.changed) &&
        (Fin(0.0).Below(step.increase) <==>
         old(constraints.constraints[r.intention].minPenalty).Below(constraints.constraints[r.intention].minPenalty))
      ensures forall g :: g in constraints.owned ==> g in old(constraints.owned) || fresh(g)
    {
      if !(r.intention in constraints.constraints && EdgeSet(r.edges, |constraints.constraints[r.intention].edges|)) {
        return Raised;
      }
      var changed, feasible, before, after := RestrictIntention(r);
      if !feasible {
        return Refuted;
      }
      var touched := {};
      if r.intention in problem.occupations {
        label collect:
        touched := CollectTouched(problem.occupations[r.intention], changed);
        ValidKept@collect(this);
      } else if changed != {} {
        return Raised;
      }
      return Restricted(changed, touched, PenaltyIncrease(before, after));
    }

    /**
     * The store's restrict for ApplyOne: r holds on its intention's
     * narrowed bounds, and infeasible constraints fail the state.
     */
    method RestrictIntention(r: Restriction) returns (changed: set<int>, feasible: bool, before: Penalty, after: Penalty)
      requires Valid() && r.intention in constraints.constraints
      requires EdgeSet(r.edges, |constraints.constraints[r.intention].edges|)
      modifies constraints, constraints.owned
      ensures Valid() && constraints.constraints.Keys == old(constraints.constraints.Keys)
      ensures !feasible ==> Failed()
      ensures constraints.Applied(r, old(constraints.bounds)) && constraints.met == old(constraints.met) + {r}
      ensures before == old(constraints.constraints[r.intention].minPenalty)
      ensures after == constraints.constraints[r.intention].minPenalty
      ensures forall g :: g in constraints.owned ==> g in old(constraints.owned) || fresh(g)
    {
      ghost var priced;
      changed, feasible, before, after, priced := constraints.Restrict(r.intention, r);
    }

    /**
     * What drainQueue does each time the queue runs empty: the plans of
     * the occupations waiting for an update follow their constraints, a
     * grown minimum penalty is spread over the intentions (false: the
     * state failed), and the connection constraints queue what they call
     * for.
     */
    method Settle(needsUpdate: set<ResourceOccupation>, increase: Penalty, fuel: nat) returns (result: Outcome<bool>)
      requires Valid()
      modifies this, plans, plans.owned, constraints, constraints.owned, restrictionQueue
      ensures result.Returned? ==> Valid()
      ensures result == Returned(false) ==> Failed()
      ensures forall p :: p in plans.owned ==> p in old(plans.owned) || fresh(p)
      ensures forall g :: g in constraints.owned ==> g in old(constraints.owned) || fresh(g)
      ensures restrictionQueue.Held().Keeps(old(restrictionQueue.Held())) && constraints.met == old(constraints.met)
      ensures result == Returned(true) && !Fin(0.0).Below(increase) ==> forall o :: o in needsUpdate ==> Planned(o)
    {
      var thrown := UpdateAll(needsUpdate);
      if thrown {
        return Thrown;
      }
      if Fin(0.0).Below(increase) {
        result := IncreaseMinPenalty(increase, fuel);
        if result != Returned(true) {
          return;
        }
      }
      label queue:
      thrown := ApplyConnectionConstraints();
      if thrown {
        return Thrown;
      }
      PlannedKept@queue(this);
      return Returned(true);
    }

    /**
     * drainQueue: restrictions are popped and applied until the queue is
     * empty; each time it runs empty the pending work is settled, which
     * may queue more.  The result is the changed state, or none when the
     * state failed.  The source's loop has no bound; fuel bounds the
     * number of restrictions applied.
     */
    method DrainQueue(fuel: nat, ghost goals: set<Restriction>) returns (result: Outcome<Option<State>>)
      requires Valid() && AnsweredBy(goals, restrictionQueue.Held(), constraints.met)
      modifies this, plans, plans.owned, constraints, constraints.owned, restrictionQueue
      ensures result == Returned(None) ==> Failed()
      ensures result.Returned? && result.value.Some? ==>
        Valid() && restrictionQueue.IsEmpty() &&
        result.value.value == State(plans.plans, constraints.constraints, minPenalty) &&
        StateValid(result.value.value)
      ensures result.Returned? && result.value.Some? ==>
        forall r :: r in goals ==> var bs := constraints.bounds;
          r.intention in bs && bs[r.intention].Sized() && Enforced(r, bs[r.intention])
    {
      var needsUpdate := {};
      var increase := Fin(0.0);
      var fuelLeft := fuel;
      while !restrictionQueue.IsEmpty()
        invariant Valid() && AnsweredBy(goals, restrictionQueue.Held(), constraints.met)
        invariant forall p :: p in plans.owned ==> p in old(plans.owned) || fresh(p)
        invariant forall g :: g in constraints.owned ==> g in old(constraints.owned) || fresh(g)
        decreases fuelLeft
      {
        if fuelLeft == 0 {
          return OutOfFuel;
        }
        fuelLeft := fuelLeft - 1;
        var stop;
        stop, needsUpdate, increase := DrainOne(needsUpdate, increase, fuelLeft, goals);
        if stop.Some? {
          return stop.value;
        }
      }
      AnsweredDone(goals, restrictionQueue.Held(), constraints.met, constraints.floor, constraints.bounds);
      return Returned(Some(State(plans.plans, constraints.constraints, minPenalty)));
    }

    /**
     * One turn of the drain loop: the head restriction is popped and
     * applied; once the queue runs empty the accumulated updates are
     * settled.  A stop ends the drain with that outcome.
     */
    method DrainOne(needsUpdate: set<ResourceOccupation>, increase: Penalty, fuel: nat, ghost goals: set<Restriction>)
      returns (stop: Option<Outcome<Option<State>>>, needsUpdate': set<ResourceOccupation>, increase': Penalty)
      requires Valid() && !restrictionQueue.IsEmpty() && AnsweredBy(goals, restrictionQueue.Held(), constraints.met)
      modifies this, plans, plans.owned, constraints, constraints.owned, restrictionQueue
      ensures stop.None? ==> Valid() && AnsweredBy(goals, restrictionQueue.Held(), constraints.met)
      ensures stop == Some(Returned(None)) ==> Failed()
      ensures stop.Some? ==> !(stop.value.Returned? && stop.value.value.Some?)
      ensures forall p :: p in plans.owned ==> p in old(plans.owned) || fresh(p)
      ensures forall g :: g in constraints.owned ==> g in old(constraints.owned) || fresh(g)
    {
      stop, needsUpdate', increase' := None, needsUpdate, increase;
      var step := ApplyHead(goals);
      if !step.Restricted? {
        stop := Some(if step.Raised? then Thrown else Returned(None));
      } else if restrictionQueue.IsEmpty() {
        stop := SettleDrained(needsUpdate + step.touched, increase.Plus(step.increase), fuel, goals);
        needsUpdate', increase' := {}, Fin(0.0);
      } else {
        needsUpdate', increase' := needsUpdate + step.touched, increase.Plus(step.increase);
      }
    }

    /** The head of the queue is popped and applied to its intention's constraints. */
    method ApplyHead(ghost goals: set<Restriction>) returns (step: RestrictStep)
      requires Valid() && !restrictionQueue.IsEmpty() && AnsweredBy(goals, restrictionQueue.Held(), constraints.met)
      modifies restrictionQueue, constraints, constraints.owned
      ensures !step.Raised? ==> Valid() && AnsweredBy(goals, restrictionQueue.Held(), constraints.met)
      ensures step.Refuted? ==> Failed()
      ensures forall g :: g in constraints.owned ==> g in old(constraints.owned) || fresh(g)
    {
      ghost var before := restrictionQueue.Held();
      var r := restrictionQueue.Pop();
      ghost var met0 := constraints.met;
      step := ApplyOne(r);
      if !step.Raised? {
        AnsweredPopped(goals, before, restrictionQueue.Held(), met0, constraints.met, r);
      }
    }

    /** Settle once the queue has run empty, as a stop of the drain loop. */
    method SettleDrained(needsUpdate: set<ResourceOccupation>, increase: Penalty, fuel: nat, ghost goals: set<Restriction>)
      returns (stop: Option<Outcome<Option<State>>>)
      requires Valid() && AnsweredBy(goals, restrictionQueue.Held(), constraints.met)
      modifies this, plans, plans.owned, constraints, constraints.owned, restrictionQueue
      ensures stop.None? ==> Valid() && AnsweredBy(goals, restrictionQueue.Held(), constraints.met)
      ensures stop == Some(Returned(None)) ==> Failed()
      ensures stop.Some? ==> !(stop.value.Returned? && stop.value.value.Some?)
      ensures forall p :: p in plans.owned ==> p in old(plans.owned) || fresh(p)
      ensures forall g :: g in constraints.owned ==> g in old(constraints.owned) || fresh(g)
    {
      ghost var before := restrictionQueue.Held();
      var settled := Settle(needsUpdate, increase, fuel);
      AnsweredKept(goals, before, restrictionQueue.Held(), constraints.met, constraints.met);
      match settled
      case Thrown => stop := Some(Thrown);
      case OutOfFuel => stop := Some(OutOfFuel);
      case Returned(ok) => stop := if ok then None else Some(Returned(None));
    }

    /** apply: the schedule's restrictions are queued and the queue drained. */
    method Apply(schedule: ConflictSchedule, fuel: nat) returns (result: Outcome<Option<State>>)
      requires Valid()
      modifies this, plans, plans.owned, constraints, constraints.owned, restrictionQueue
      ensures result == Returned(None) ==> Failed()
      ensures result.Returned? && result.value.Some? ==>
        Valid() && restrictionQueue.IsEmpty() &&
        result.value.value == State(plans.plans, constraints.constraints, minPenalty) &&
        StateValid(result.value.value)
      ensures result.Returned? && result.value.Some? ==>
        forall r :: r in schedule.restrictions ==> var bs := constraints.bounds;
          r.intention in bs && bs[r.intention].Sized() && Enforced(r, bs[r.intention])
    {
      restrictionQueue.AddAll(schedule.restrictions);
      ghost var goals := set r | r in schedule.restrictions;
      result := DrainQueue(fuel, goals);
    }

    /**
     * syncAllResourcePlans: in scenario order, the plans of every
     * occupation of every intention are brought up to date, and the queue
     * this fills is drained.  An intention without a route graph throws.
     */
    method SyncAllResourcePlans(fuel: nat) returns (result: Outcome<Option<State>>)
      requires Valid()
      modifies this, plans, plans.owned, constraints, constraints.owned, restrictionQueue
      ensures result == Returned(None) ==> Failed()
      ensures result.Returned? && result.value.Some? ==>
        Valid() && restrictionQueue.IsEmpty() &&
        result.value.value == State(plans.plans, constraints.constraints, minPenalty) &&
        StateValid(result.value.value)
    {
      var k := 0;
      while k < |problem.intentions|
        invariant 0 <= k <= |problem.intentions| && Valid()
        invariant forall p :: p in plans.owned ==> p in old(plans.owned) || fresh(p)
        invariant constraints.owned == old(constraints.owned)
      {
        var intention := problem.intentions[k];
        if intention !in problem.graphNodes {
          return Thrown;
        }
        var thrown := SyncResourcePlan(intention, problem.graphNodes[intention]);
        if thrown {
          return Thrown;
        }
        k := k + 1;
      }
      result := DrainQueue(fuel, {});
    }
  }

  /**
   * The maps of a state derived from another: the same keys, and each
   * value either shared with the other state or an object it does not hold.
   */
  ghost predicate SharesOrOwns<T>(current: map<string, T>, initial: map<string, T>)
  {
    current.Keys == initial.Keys &&
    forall k :: k in current ==> current[k] == initial[k] || current[k] !in initial.Values
  }

  /** Copy on write derives the current map from the initial one. */
  lemma CopyOnWriteDerives<T>(current: map<string, T>, initial: map<string, T>, copied: set<string>)
    requires CopiedOnWrite(current, initial, copied)
    ensures SharesOrOwns(current, initial)
  {
    forall k | k in current && k in copied
      ensures current[k] !in initial.Values
    {
      forall j | j in initial
        ensures initial[j] != current[k]
      {
      }
    }
  }

  /**
   * SbbExecutor.apply: a fresh state changer applies the schedule to the
   * state.  The state passed in is not modified; a resulting state is
   * valid and shares every plan and constraint object it did not copy.
   */
  method Apply(problem: Problem, maxPenalty: real, connections: seq<Connection>, state: State,
               schedule: ConflictSchedule, fuel: nat) returns (result: Outcome<Option<State>>)
    requires StateValid(state)
    ensures result.Returned? && result.value.Some? ==>
      StateValid(result.value.value) &&
      SharesOrOwns(result.value.value.resourcePlans, state.resourcePlans) &&
      SharesOrOwns(result.value.value.graphConstraints, state.graphConstraints)
    ensures result.Returned? && result.value.Some? ==>
      var gcs := result.value.value.graphConstraints;
      ConstraintsValid(gcs) &&
      NarrowsAll(BoundsMap(gcs), old(BoundsMap(state.graphConstraints)), schedule.restrictions)
  {
    ghost var floor := BoundsMap(state.graphConstraints);
    var changer := new StateChanger(problem, maxPenalty, connections, state);
    assert changer.constraints.floor == floor;
    result := changer.Apply(schedule, fuel);
    if result.Returned? && result.value.Some? {
      CopyOnWriteDerives(changer.plans.plans, changer.plans.initial, changer.plans.copied);
      CopyOnWriteDerives(changer.constraints.constraints, changer.constraints.initial, changer.constraints.copied);
      StoreOutcome(changer.constraints, schedule.restrictions);
    }
  }

  /**
   * A valid store whose bounds enforce the restrictions: every
   * intention's constraints tighten its initial bounds and enforce its
   * restrictions.
   */
  lemma StoreOutcome(cs: ConstraintStore, rs: seq<Restriction>)
    requires cs.Valid()
    requires forall r :: r in rs ==>
      r.intention in cs.bounds && cs.bounds[r.intention].Sized() && Enforced(r, cs.bounds[r.intention])
    ensures NarrowsAll(BoundsMap(cs.constraints), cs.floor, rs)
  {
    var now := BoundsMap(cs.constraints);
    assert now == cs.bounds;
    forall k | k in now
      ensures now[k].Sized() && Tightens(now[k], cs.floor[k])
    {
      assert Tightens(cs.bounds[k], cs.floor[k]);
    }
  }

  /**
   * The bounds now narrow the bounds before, intention by intention, and
   * every restriction of rs holds on its intention's bounds now.
   */
  ghost predicate NarrowsAll(now: map<string, EdgeBounds>, before: map<string, EdgeBounds>, rs: seq<Restriction>)
  {
    now.Keys == before.Keys &&
    (forall k :: k in now ==> now[k].Sized() && Tightens(now[k], before[k])) &&
    (forall r :: r in rs ==> r.intention in now && now[r.intention].Sized() && Enforced(r, now[r.intention]))
  }
}
