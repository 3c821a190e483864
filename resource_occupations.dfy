/**
 * The resource occupations of one intention's route graph
 * (GraphResourceOccupations.java): every maximal run of edges that hold a
 * resource, traced from the edge where the run begins to the edges where
 * it ends, with the flow of edges it covers and its minimum duration.
 */
module ResourceOccupations {
  import opened Common
  import opened RouteGraphs

  /**
   * An intention's requirement on the sections carrying a marker: a
   * minimum stopping time, four optional times ("HH:MM:SS", empty when
   * not given) and the weights of entry and exit delays.
   */
  datatype SectionRequirement = SectionRequirement(
    sectionMarker: string,
    minStoppingTime: int,
    entryEarliest: string,
    exitEarliest: string,
    entryLatest: string,
    exitLatest: string,
    entryDelayWeight: real,
    exitDelayWeight: real)

  /**
   * The requirements keyed by section marker, as the HashMap holds them
   * after putting every requirement with a non-empty marker in list order.
   */
  function RequirementsByMarker(reqs: seq<SectionRequirement>): map<string, SectionRequirement>
  {
    if reqs == [] then map[]
    else
      var byMarker := RequirementsByMarker(reqs[..|reqs| - 1]);
      var last := reqs[|reqs| - 1];
      if last.sectionMarker != "" then byMarker[last.sectionMarker := last] else byMarker
  }

  /**
   * A marker is keyed exactly when some requirement names it and it is
   * not empty, and the requirement kept is the last one naming it.
   */
  lemma {:induction false} LastRequirementWins(reqs: seq<SectionRequirement>, m: string)
    ensures m in RequirementsByMarker(reqs) <==>
            m != "" && exists i :: 0 <= i < |reqs| && reqs[i].sectionMarker == m
    ensures m in RequirementsByMarker(reqs) ==>
            exists i :: 0 <= i < |reqs| && reqs[i] == RequirementsByMarker(reqs)[m] &&
                        reqs[i].sectionMarker == m &&
                        forall j :: i < j < |reqs| ==> reqs[j].sectionMarker != m
    decreases |reqs|
  {
    if reqs != [] {
      var init := reqs[..|reqs| - 1];
      var last := reqs[|reqs| - 1];
      var r0 := RequirementsByMarker(init);
      var r := RequirementsByMarker(reqs);
      assert r == if last.sectionMarker != "" then r0[last.sectionMarker := last] else r0;
      LastRequirementWins(init, m);
      if last.sectionMarker == m && m != "" {
        assert r[m] == reqs[|reqs| - 1];
      } else {
        assert (m in r <==> m in r0) && (m in r ==> r[m] == r0[m]);
        if m in r0 {
          var i :| 0 <= i < |init| && init[i] == r0[m] && init[i].sectionMarker == m &&
                   forall j :: i < j < |init| ==> init[j].sectionMarker != m;
          assert reqs[i] == init[i];
        }
        if m != "" && exists i :: 0 <= i < |reqs| && reqs[i].sectionMarker == m {
          var i :| 0 <= i < |reqs| && reqs[i].sectionMarker == m;
          assert i < |init| && init[i] == reqs[i];
        }
      }
    }
  }

  /** The first loop of findEdgeMinDurations. */
  method FindRequirements(reqs: seq<SectionRequirement>) returns (byMarker: map<string, SectionRequirement>)
    ensures byMarker == RequirementsByMarker(reqs)
  {
    byMarker := map[];
    var i := 0;
    while i < |reqs|
      invariant 0 <= i <= |reqs|
      invariant byMarker == RequirementsByMarker(reqs[..i])
    {
      assert reqs[..i + 1][..i] == reqs[..i];
      if reqs[i].sectionMarker != "" {
        byMarker := byMarker[reqs[i].sectionMarker := reqs[i]];
      }
      i := i + 1;
    }
    assert reqs[..i] == reqs;
  }

  /**
   * An edge's minimum duration: its section's minimum running time plus the
   * minimum stopping time of the requirement keyed by its first section
   * marker (0 without a marker or without such a requirement).
   */
  function EdgeMinDuration(section: Section, byMarker: map<string, SectionRequirement>): int
  {
    section.minimumRunningTime +
    (if |section.sectionMarkers| > 0 && section.sectionMarkers[0] in byMarker
     then byMarker[section.sectionMarkers[0]].minStoppingTime else 0)
  }

  /** findEdgeMinDurations: the minimum duration of every edge, by edge index. */
  method FindEdgeMinDurations(edges: seq<Edge>, reqs: seq<SectionRequirement>) returns (durations: seq<int>)
    ensures |durations| == |edges|
    ensures forall e :: 0 <= e < |edges| ==> durations[e] == EdgeMinDuration(edges[e].section, RequirementsByMarker(reqs))
  {
    var byMarker := FindRequirements(reqs);
    durations := [];
    var i := 0;
    while i < |edges|
      invariant 0 <= i <= |edges| && |durations| == i
      invariant forall e :: 0 <= e < i ==> durations[e] == EdgeMinDuration(edges[e].section, byMarker)
    {
      var section := edges[i].section;
      var minStoppingTime := 0;
      if |section.sectionMarkers| > 0 {
        minStoppingTime := if section.sectionMarkers[0] in byMarker
                           then byMarker[section.sectionMarkers[0]].minStoppingTime else 0;
      }
      durations := durations + [section.minimumRunningTime + minStoppingTime];
      i := i + 1;
    }
  }

  /**
   * An edge without a marker, or whose marker no requirement names, takes
   * just its running time; otherwise the last requirement naming the
   * marker adds its stopping time.
   */
  lemma MinDurationOfEdge(section: Section, reqs: seq<SectionRequirement>)
    ensures |section.sectionMarkers| == 0 ==>
            EdgeMinDuration(section, RequirementsByMarker(reqs)) == section.minimumRunningTime
    ensures |section.sectionMarkers| > 0 &&
            (forall i :: 0 <= i < |reqs| ==> reqs[i].sectionMarker != section.sectionMarkers[0]) ==>
            EdgeMinDuration(section, RequirementsByMarker(reqs)) == section.minimumRunningTime
    ensures |section.sectionMarkers| > 0 && section.sectionMarkers[0] != "" &&
            (exists i :: 0 <= i < |reqs| && reqs[i].sectionMarker == section.sectionMarkers[0]) ==>
            exists i :: 0 <= i < |reqs| && reqs[i].sectionMarker == section.sectionMarkers[0] &&
                        (forall j :: i < j < |reqs| ==> reqs[j].sectionMarker != section.sectionMarkers[0]) &&
                        EdgeMinDuration(section, RequirementsByMarker(reqs)) ==
                        section.minimumRunningTime + reqs[i].minStoppingTime
  {
    if |section.sectionMarkers| > 0 {
      LastRequirementWins(reqs, section.sectionMarkers[0]);
    }
  }

  /**
   * ResourceOccupation: a run of edges holding a resource from start to
   * end.  The flow is the run, possibly with the non-holding edge before
   * it and the non-holding edge after it.
   */
  datatype ResourceOccupation = ResourceOccupation(
    intention: string,
    resource: string,
    start: nat,
    end: nat,
    flow: seq<nat>,
    minDuration: int)
  {
    /** getFlowStartIndex: 0 when the flow begins with the start edge, else 1. */
    function FlowStartIndex(): nat
      requires |flow| > 0
    {
      if flow[0] == start then 0 else 1
    }

    /** getFlowEndIndex: the last index when the flow ends with the end edge, else the one before. */
    function FlowEndIndex(): int
      requires |flow| > 0
    {
      if flow[|flow| - 1] == end then |flow| - 1 else |flow| - 2
    }
  }

  /** The summed minimum durations of the given edges (an index outside the list counts 0). */
  function DurationSum(minDurations: seq<int>, s: seq<nat>): int
  {
    if s == [] then 0
    else DurationSum(minDurations, s[..|s| - 1]) +
         (if s[|s| - 1] < |minDurations| then minDurations[s[|s| - 1]] else 0)
  }

  /** edgeOccupies: the gap-filled occupation map lists r for edge e. */
  predicate Holds(occ: seq<set<string>>, e: nat, r: string)
  {
    e < |occ| && r in occ[e]
  }

  /** How many of the given edges hold r. */
  function HoldingCount(occ: seq<set<string>>, es: seq<nat>, r: string): nat
  {
    if es == [] then 0
    else HoldingCount(occ, es[..|es| - 1], r) + (if Holds(occ, es[|es| - 1], r) then 1 else 0)
  }

  /** The count is the length exactly when all hold, and 0 exactly when none does. */
  lemma {:induction false} HoldingCountBounds(occ: seq<set<string>>, es: seq<nat>, r: string)
    ensures HoldingCount(occ, es, r) <= |es|
    ensures HoldingCount(occ, es, r) == |es| <==> forall k :: 0 <= k < |es| ==> Holds(occ, es[k], r)
    ensures HoldingCount(occ, es, r) == 0 <==> forall k :: 0 <= k < |es| ==> !Holds(occ, es[k], r)
    decreases |es|
  {
    if es != [] {
      var init := es[..|es| - 1];
      HoldingCountBounds(occ, init, r);
      assert forall k :: 0 <= k < |init| ==> init[k] == es[k];
    }
  }

  /** edgesOccupyCount */
  method OccupyCount(occ: seq<set<string>>, es: seq<nat>, r: string) returns (count: nat)
    ensures count == HoldingCount(occ, es, r)
  {
    count := 0;
    var i := 0;
    while i < |es|
      invariant 0 <= i <= |es|
      invariant count == HoldingCount(occ, es[..i], r)
    {
      assert es[..i + 1][..i] == es[..i];
      if Holds(occ, es[i], r) {
        count := count + 1;
      }
      i := i + 1;
    }
    assert es[..i] == es;
  }

  /**
   * An occupation of r begins at edge e when e leaves the source, or when
   * some edge entering e's start node does not hold r.
   */
  predicate Begins(edges: seq<Edge>, occ: seq<set<string>>, e: nat, r: string)
    requires e < |edges|
  {
    var n := edges[e].start;
    n == SOURCE || exists p :: 0 <= p < |edges| && edges[p].end == n && !Holds(occ, p, r)
  }

  /** And it ends at edge e when e enters the sink, or some edge leaving e's end node does not hold r. */
  predicate Ends(edges: seq<Edge>, occ: seq<set<string>>, e: nat, r: string)
    requires e < |edges|
  {
    var n := edges[e].end;
    n == SINK || exists q :: 0 <= q < |edges| && edges[q].start == n && !Holds(occ, q, r)
  }

  /** No edge entering node n holds r. */
  predicate NoneHoldsBefore(edges: seq<Edge>, occ: seq<set<string>>, n: int, r: string)
  {
    forall p :: 0 <= p < |edges| && edges[p].end == n ==> !Holds(occ, p, r)
  }

  /**
   * The test traceResourceOccupation makes at node n: the run of r goes
   * on through n when n is not the sink and every edge leaving it holds r.
   */
  predicate PassesOn(edges: seq<Edge>, occ: seq<set<string>>, n: int, r: string)
  {
    n != SINK && HoldingCount(occ, Next(edges, n), r) == |Next(edges, n)|
  }

  /** Begins read off a node's previous list, as build does. */
  lemma BeginsByPrevious(edges: seq<Edge>, occ: seq<set<string>>, e: nat, r: string)
    requires e < |edges|
    ensures var previous := Previous(edges, edges[e].start);
            Begins(edges, occ, e, r) <==> edges[e].start == SOURCE || HoldingCount(occ, previous, r) != |previous|
    ensures var previous := Previous(edges, edges[e].start);
            NoneHoldsBefore(edges, occ, edges[e].start, r) <==> HoldingCount(occ, previous, r) == 0
  {
    var n := edges[e].start;
    var previous := Previous(edges, n);
    PreviousComplete(edges, n);
    HoldingCountBounds(occ, previous, r);
    if n != SOURCE && Begins(edges, occ, e, r) {
      var p :| 0 <= p < |edges| && edges[p].end == n && !Holds(occ, p, r);
      assert p in previous;
    }
    if HoldingCount(occ, previous, r) != |previous| {
      var k :| 0 <= k < |previous| && !Holds(occ, previous[k], r);
      assert edges[previous[k]].end == n;
    }
    if !NoneHoldsBefore(edges, occ, n, r) {
      var p :| 0 <= p < |edges| && edges[p].end == n && Holds(occ, p, r);
      assert p in previous;
    }
  }

  /** Ends read off a node's next list, as traceResourceOccupation does. */
  lemma EndsByNext(edges: seq<Edge>, occ: seq<set<string>>, e: nat, r: string)
    requires e < |edges|
    ensures Ends(edges, occ, e, r) <==> !PassesOn(edges, occ, edges[e].end, r)
  {
    var n := edges[e].end;
    var next := Next(edges, n);
    NextComplete(edges, n);
    HoldingCountBounds(occ, next, r);
    if n != SINK && Ends(edges, occ, e, r) {
      var q :| 0 <= q < |edges| && edges[q].start == n && !Holds(occ, q, r);
      assert q in next;
    }
    if n != SINK && HoldingCount(occ, next, r) != |next| {
      var k :| 0 <= k < |next| && !Holds(occ, next[k], r);
      assert edges[next[k]].start == n;
    }
  }

  /**
   * What traceResourceOccupation guarantees of every occupation it adds:
   * the flow is a chain; from the start index to the end index it is the
   * run from start to end and every edge of it holds the resource; an
   * extra edge before or after the run does not hold it; the minimum
   * duration sums the run alone; and the run is maximal, beginning where
   * an occupation begins and ending where one ends.
   */
  ghost predicate Traced(edges: seq<Edge>, occ: seq<set<string>>, minDurations: seq<int>, intention: string,
                         o: ResourceOccupation)
  {
    o.intention == intention && IsChain(edges, o.flow) &&
    var si := o.FlowStartIndex();
    var ei := o.FlowEndIndex();
    0 <= si <= ei < |o.flow| && o.flow[si] == o.start && o.flow[ei] == o.end &&
    (forall k :: si <= k <= ei ==> Holds(occ, o.flow[k], o.resource)) &&
    (si == 1 ==> !Holds(occ, o.flow[0], o.resource)) &&
    (ei == |o.flow| - 2 ==> !Holds(occ, o.flow[|o.flow| - 1], o.resource)) &&
    o.minDuration == DurationSum(minDurations, o.flow[si..ei + 1]) &&
    Begins(edges, occ, o.start, o.resource) && Ends(edges, occ, o.end, o.resource)
  }

  /** The flow index getters find the start and end edges of a traced occupation. */
  lemma TracedIndices(edges: seq<Edge>, occ: seq<set<string>>, minDurations: seq<int>, intention: string,
                      o: ResourceOccupation)
    requires Traced(edges, occ, minDurations, intention, o)
    ensures o.FlowStartIndex() <= 1 && o.flow[o.FlowStartIndex()] == o.start
    ensures o.FlowEndIndex() >= |o.flow| - 2 && o.flow[o.FlowEndIndex()] == o.end
    ensures Holds(occ, o.start, o.resource) && Holds(occ, o.end, o.resource)
  {
  }

  /**
   * The state of a trace: the flow so far ends at current and holds r from
   * the start edge on, possibly after one non-holding predecessor, and
   * minDuration sums the holding part.
   */
  ghost predicate TraceState(edges: seq<Edge>, occ: seq<set<string>>, minDurations: seq<int>, start: nat,
                             flow: seq<nat>, current: nat, r: string, minDuration: int)
  {
    |minDurations| == |edges| &&
    IsChain(edges, flow) && flow[|flow| - 1] == current &&
    (flow[0] == start || (|flow| >= 2 && flow[1] == start && !Holds(occ, flow[0], r))) &&
    var si := if flow[0] == start then 0 else 1;
    (forall k :: si <= k < |flow| ==> Holds(occ, flow[k], r)) &&
    minDuration == DurationSum(minDurations, flow[si..]) &&
    start < |edges| && Begins(edges, occ, start, r)
  }

  /**
   * The occupations a trace from flow (with minDuration summed so far)
   * adds, described by their shape: the flow extended by edges that hold
   * r, up to a last holding edge, the end, past which the run does not
   * pass on.  Where no edge after the end holds r the flow stops at the
   * end; where some do and some do not, the flow takes one non-holding
   * edge after the end.  The minimum duration adds the extension's run.
   */
  ghost predicate Completes(edges: seq<Edge>, occ: seq<set<string>>, minDurations: seq<int>, intention: string,
                            start: nat, r: string, flow: seq<nat>, minDuration: int, o: ResourceOccupation)
  {
    o.intention == intention && o.resource == r && o.start == start &&
    0 < |flow| <= |o.flow| && o.flow[..|flow|] == flow && IsChain(edges, o.flow) &&
    (forall k :: |flow| <= k < |o.flow| - 1 ==> Holds(occ, o.flow[k], r)) &&
    var last := |o.flow| - 1;
    if Holds(occ, o.flow[last], r) then
      o.end == o.flow[last] && !PassesOn(edges, occ, edges[o.end].end, r) &&
      HoldingCount(occ, Next(edges, edges[o.end].end), r) == 0 &&
      o.minDuration == minDuration + DurationSum(minDurations, o.flow[|flow|..])
    else
      |flow| <= last && o.end == o.flow[last - 1] && !PassesOn(edges, occ, edges[o.end].end, r) &&
      HoldingCount(occ, Next(edges, edges[o.end].end), r) > 0 &&
      o.minDuration == minDuration + DurationSum(minDurations, o.flow[|flow|..last])
  }

  /** os holds exactly the occupations a trace from flow adds. */
  ghost predicate TraceYields(edges: seq<Edge>, occ: seq<set<string>>, minDurations: seq<int>, intention: string,
                              start: nat, r: string, flow: seq<nat>, minDuration: int, os: seq<ResourceOccupation>)
  {
    (forall o :: o in os ==> Completes(edges, occ, minDurations, intention, start, r, flow, minDuration, o)) &&
    (forall o :: Completes(edges, occ, minDurations, intention, start, r, flow, minDuration, o) ==> o in os)
  }

  /** Putting an edge in front of a sequence adds its minimum duration to the sum. */
  lemma {:induction false} DurationSumCons(minDurations: seq<int>, x: nat, s: seq<nat>)
    requires x < |minDurations|
    ensures DurationSum(minDurations, [x] + s) == minDurations[x] + DurationSum(minDurations, s)
    decreases |s|
  {
    if s != [] {
      var init := s[..|s| - 1];
      assert ([x] + s)[..|s|] == [x] + init;
      DurationSumCons(minDurations, x, init);
    } else {
      assert ([x] + s)[..0] == [];
    }
  }

  /** The sum over a concatenation. */
  lemma {:induction false} DurationSumConcat(minDurations: seq<int>, a: seq<nat>, b: seq<nat>)
    ensures DurationSum(minDurations, a + b) == DurationSum(minDurations, a) + DurationSum(minDurations, b)
    decreases |b|
  {
    if b == [] {
      assert a + b == a;
    } else {
      var init := b[..|b| - 1];
      assert (a + b)[..|a + b| - 1] == a + init;
      DurationSumConcat(minDurations, a, init);
    }
  }

  /**
   * An occupation that a trace from flow adds and that takes the holding
   * edge e next is one the trace from flow + [e] adds, and conversely.
   */
  lemma CompletesThrough(edges: seq<Edge>, occ: seq<set<string>>, minDurations: seq<int>, intention: string,
                         start: nat, r: string, flow: seq<nat>, minDuration: int, e: nat, o: ResourceOccupation)
    requires 0 < |flow| && e < |minDurations| && Holds(occ, e, r)
    requires |flow| < |o.flow| && o.flow[|flow|] == e
    ensures Completes(edges, occ, minDurations, intention, start, r, flow, minDuration, o) <==>
            Completes(edges, occ, minDurations, intention, start, r, flow + [e], minDuration + minDurations[e], o)
  {
    var last := |o.flow| - 1;
    if o.flow[..|flow|] == flow {
      assert o.flow[..|flow| + 1] == flow + [e];
    }
    if o.flow[..|flow| + 1] == flow + [e] {
      assert o.flow[..|flow|] == (flow + [e])[..|flow|] == flow;
    }
    assert o.flow[|flow|..] == [e] + o.flow[|flow| + 1..];
    DurationSumCons(minDurations, e, o.flow[|flow| + 1..]);
    if |flow| < last {
      assert o.flow[|flow|..last] == [e] + o.flow[|flow| + 1..last];
      DurationSumCons(minDurations, e, o.flow[|flow| + 1..last]);
    }
  }

  /**
   * One step of a trace at current, the end of flow: an occupation the
   * trace adds either stops at current (then no next edge holds r), or
   * takes a next edge; a holding one carries the trace on, a non-holding
   * one closes the occupation at current on a mixed fork.
   */
  lemma CompletesStep(edges: seq<Edge>, occ: seq<set<string>>, minDurations: seq<int>, intention: string,
                      start: nat, r: string, flow: seq<nat>, current: nat, minDuration: int, o: ResourceOccupation)
    requires TraceState(edges, occ, minDurations, start, flow, current, r, minDuration)
    requires Completes(edges, occ, minDurations, intention, start, r, flow, minDuration, o)
    ensures |o.flow| == |flow| ==>
              !PassesOn(edges, occ, edges[current].end, r) &&
              HoldingCount(occ, Next(edges, edges[current].end), r) == 0 &&
              o == ResourceOccupation(intention, r, start, current, flow, minDuration)
    ensures |o.flow| > |flow| ==> o.flow[|flow|] in Next(edges, edges[current].end)
    ensures |o.flow| > |flow| && Holds(occ, o.flow[|flow|], r) ==>
              Completes(edges, occ, minDurations, intention, start, r, flow + [o.flow[|flow|]],
                        minDuration + minDurations[o.flow[|flow|]], o)
    ensures |o.flow| > |flow| && !Holds(occ, o.flow[|flow|], r) ==>
              !PassesOn(edges, occ, edges[current].end, r) &&
              HoldingCount(occ, Next(edges, edges[current].end), r) > 0 &&
              o == ResourceOccupation(intention, r, start, current, flow + [o.flow[|flow|]], minDuration)
  {
    var n := |flow|;
    assert o.flow[n - 1] == flow[n - 1] == current;
    if |o.flow| == n {
      assert o.flow == o.flow[..n] == flow;
      assert o.flow[n..] == [];
    } else {
      var e := o.flow[n];
      assert edges[o.flow[n - 1]].end == edges[o.flow[n]].start;
      NextComplete(edges, edges[current].end);
      if Holds(occ, e, r) {
        CompletesThrough(edges, occ, minDurations, intention, start, r, flow, minDuration, e, o);
      } else {
        assert |o.flow| == n + 1;
        assert o.flow == o.flow[..n] + [e] == flow + [e];
        assert o.flow[n..n] == [];
      }
    }
  }

  /** The lone occupation that ends at current, with the flow as it is. */
  lemma EndsHere(edges: seq<Edge>, occ: seq<set<string>>, minDurations: seq<int>, intention: string,
                 start: nat, flow: seq<nat>, current: nat, r: string, minDuration: int)
    requires TraceState(edges, occ, minDurations, start, flow, current, r, minDuration)
    requires !PassesOn(edges, occ, edges[current].end, r)
    requires HoldingCount(occ, Next(edges, edges[current].end), r) == 0
    ensures Completes(edges, occ, minDurations, intention, start, r, flow, minDuration,
                      ResourceOccupation(intention, r, start, current, flow, minDuration))
    ensures TraceYields(edges, occ, minDurations, intention, start, r, flow, minDuration,
                        [ResourceOccupation(intention, r, start, current, flow, minDuration)])
  {
    var next := Next(edges, edges[current].end);
    var o0 := ResourceOccupation(intention, r, start, current, flow, minDuration);
    HoldingCountBounds(occ, next, r);
    assert o0.flow[..|flow|] == flow && o0.flow[|flow|..] == [];
    forall o | Completes(edges, occ, minDurations, intention, start, r, flow, minDuration, o)
      ensures o == o0
    {
      CompletesStep(edges, occ, minDurations, intention, start, r, flow, current, minDuration, o);
    }
  }

  /** The occupation closing at current with the non-holding next edge e appended to the flow. */
  lemma EndsBefore(edges: seq<Edge>, occ: seq<set<string>>, minDurations: seq<int>, intention: string,
                   start: nat, flow: seq<nat>, current: nat, r: string, minDuration: int, e: nat)
    requires TraceState(edges, occ, minDurations, start, flow, current, r, minDuration)
    requires !PassesOn(edges, occ, edges[current].end, r)
    requires HoldingCount(occ, Next(edges, edges[current].end), r) > 0
    requires e in Next(edges, edges[current].end) && !Holds(occ, e, r)
    ensures Completes(edges, occ, minDurations, intention, start, r, flow, minDuration,
                      ResourceOccupation(intention, r, start, current, flow + [e], minDuration))
  {
    ChainAppend(edges, flow, e);
    assert (flow + [e])[..|flow|] == flow;
    assert (flow + [e])[|flow|..|flow|] == [];
  }

  /** A chain stays a chain when an edge leaving its last edge's end is appended. */
  lemma ChainAppend(edges: seq<Edge>, flow: seq<nat>, edge: nat)
    requires IsChain(edges, flow) && edge < |edges| && edges[edge].start == edges[flow[|flow| - 1]].end
    ensures IsChain(edges, flow + [edge])
  {
    var f := flow + [edge];
    forall j, k | 0 <= j < |f| && 0 <= k < |f| && k == j + 1
      ensures edges[f[j]].end == edges[f[k]].start
    {
      if k < |flow| {
        assert f[j] == flow[j] && f[k] == flow[k];
      }
    }
  }

  /** Appending an edge adds its minimum duration to the sum. */
  lemma DurationSumAppend(minDurations: seq<int>, s: seq<nat>, edge: nat)
    requires edge < |minDurations|
    ensures DurationSum(minDurations, s + [edge]) == DurationSum(minDurations, s) + minDurations[edge]
  {
    assert (s + [edge])[..|s|] == s;
  }

  /** The suffix from i of a sequence with x appended. */
  lemma SuffixAppend(s: seq<nat>, i: nat, x: nat)
    requires i <= |s|
    ensures (s + [x])[i..] == s[i..] + [x]
  {
  }

  /** Appending a holding next edge keeps the trace state, and moves forward in the node order. */
  lemma Extended(edges: seq<Edge>, occ: seq<set<string>>, sortedNodes: seq<int>, minDurations: seq<int>,
                 start: nat, flow: seq<nat>, current: nat, r: string, minDuration: int, edge: nat)
    requires NodesSorted(edges, sortedNodes)
    requires TraceState(edges, occ, minDurations, start, flow, current, r, minDuration)
    requires edge < |edges| && edges[edge].start == edges[current].end && Holds(occ, edge, r)
    ensures TraceState(edges, occ, minDurations, start, flow + [edge], edge, r, minDuration + minDurations[edge])
    ensures Pos(sortedNodes, edges[current].end) < Pos(sortedNodes, edges[edge].end) < |sortedNodes|
  {
    var si := if flow[0] == start then 0 else 1;
    var f := flow + [edge];
    ChainAppend(edges, flow, edge);
    SuffixAppend(flow, si, edge);
    DurationSumAppend(minDurations, flow[si..], edge);
    forall k | si <= k < |f|
      ensures Holds(occ, f[k], r)
    {
      if k < |flow| {
        assert f[k] == flow[k];
      }
    }
  }

  /**
   * traceResourceOccupation: follow the run of r on from current.  When
   * the run passes on it continues into every next edge; when no next
   * edge holds r it ends at current; otherwise it continues into the
   * holding next edges and ends with each non-holding one appended to the
   * flow.  The occupations come in the order the Java code adds them.
   */
  method TraceOccupations(edges: seq<Edge>, occ: seq<set<string>>, sortedNodes: seq<int>, minDurations: seq<int>,
                          intention: string, start: nat, flow: seq<nat>, current: nat, r: string, minDuration: int)
    returns (os: seq<ResourceOccupation>)
    requires NodesSorted(edges, sortedNodes)
    requires TraceState(edges, occ, minDurations, start, flow, current, r, minDuration)
    ensures TraceYields(edges, occ, minDurations, intention, start, r, flow, minDuration, os)
    decreases |sortedNodes| - Pos(sortedNodes, edges[current].end), 2
  {
    var node := edges[current].end;
    var next := Next(edges, node);
    var outgoing := OccupyCount(occ, next, r);
    if node != SINK && outgoing == |next| {
      os := ContinueAll(edges, occ, sortedNodes, minDurations, intention, start, flow, current, r, minDuration);
    } else if outgoing == 0 {
      EndsHere(edges, occ, minDurations, intention, start, flow, current, r, minDuration);
      os := [ResourceOccupation(intention, r, start, current, flow, minDuration)];
    } else {
      os := Fork(edges, occ, sortedNodes, minDurations, intention, start, flow, current, r, minDuration);
    }
  }

  /**
   * Every occupation listed so far is one the trace from flow adds, and
   * so is every one taking a next edge in taken, and nothing else.
   */
  ghost predicate YieldsThrough(edges: seq<Edge>, occ: seq<set<string>>, minDurations: seq<int>, intention: string,
                                start: nat, r: string, flow: seq<nat>, minDuration: int, taken: seq<nat>,
                                os: seq<ResourceOccupation>)
  {
    (forall o :: o in os ==> Completes(edges, occ, minDurations, intention, start, r, flow, minDuration, o)) &&
    (forall o :: (Completes(edges, occ, minDurations, intention, start, r, flow, minDuration, o) &&
                  |o.flow| > |flow| && o.flow[|flow|] in taken) ==> o in os)
  }

  /** The trace through the holding next edge e adds its occupations to those taken before. */
  lemma YieldsThroughHolding(edges: seq<Edge>, occ: seq<set<string>>, minDurations: seq<int>, intention: string,
                             start: nat, r: string, flow: seq<nat>, current: nat, minDuration: int, taken: seq<nat>,
                             os: seq<ResourceOccupation>, e: nat, more: seq<ResourceOccupation>)
    requires TraceState(edges, occ, minDurations, start, flow, current, r, minDuration)
    requires YieldsThrough(edges, occ, minDurations, intention, start, r, flow, minDuration, taken, os)
    requires e < |edges| && Holds(occ, e, r)
    requires TraceYields(edges, occ, minDurations, intention, start, r, flow + [e], minDuration + minDurations[e], more)
    ensures YieldsThrough(edges, occ, minDurations, intention, start, r, flow, minDuration, taken + [e], os + more)
  {
    forall o | o in more
      ensures Completes(edges, occ, minDurations, intention, start, r, flow, minDuration, o)
    {
      assert o.flow[..|flow| + 1] == flow + [e];
      CompletesThrough(edges, occ, minDurations, intention, start, r, flow, minDuration, e, o);
    }
    forall o | Completes(edges, occ, minDurations, intention, start, r, flow, minDuration, o) &&
               |o.flow| > |flow| && o.flow[|flow|] in taken + [e]
      ensures o in os + more
    {
      if o.flow[|flow|] == e {
        CompletesStep(edges, occ, minDurations, intention, start, r, flow, current, minDuration, o);
      }
    }
  }

  /** The non-holding next edge e adds the occupation closing at current. */
  lemma YieldsThroughClosing(edges: seq<Edge>, occ: seq<set<string>>, minDurations: seq<int>, intention: string,
                             start: nat, r: string, flow: seq<nat>, current: nat, minDuration: int, taken: seq<nat>,
                             os: seq<ResourceOccupation>, e: nat)
    requires TraceState(edges, occ, minDurations, start, flow, current, r, minDuration)
    requires YieldsThrough(edges, occ, minDurations, intention, start, r, flow, minDuration, taken, os)
    requires !PassesOn(edges, occ, edges[current].end, r)
    requires HoldingCount(occ, Next(edges, edges[current].end), r) > 0
    requires e in Next(edges, edges[current].end) && !Holds(occ, e, r)
    ensures YieldsThrough(edges, occ, minDurations, intention, start, r, flow, minDuration, taken + [e],
                          os + [ResourceOccupation(intention, r, start, current, flow + [e], minDuration)])
  {
    EndsBefore(edges, occ, minDurations, intention, start, flow, current, r, minDuration, e);
    forall o | Completes(edges, occ, minDurations, intention, start, r, flow, minDuration, o) &&
               |o.flow| > |flow| && o.flow[|flow|] in taken + [e]
      ensures o in os + [ResourceOccupation(intention, r, start, current, flow + [e], minDuration)]
    {
      if o.flow[|flow|] == e {
        CompletesStep(edges, occ, minDurations, intention, start, r, flow, current, minDuration, o);
      }
    }
  }

  /** Once every next edge is taken, every occupation that leaves current is listed. */
  lemma YieldsAll(edges: seq<Edge>, occ: seq<set<string>>, minDurations: seq<int>, intention: string,
                  start: nat, r: string, flow: seq<nat>, current: nat, minDuration: int, os: seq<ResourceOccupation>)
    requires TraceState(edges, occ, minDurations, start, flow, current, r, minDuration)
    requires YieldsThrough(edges, occ, minDurations, intention, start, r, flow, minDuration,
                           Next(edges, edges[current].end), os)
    requires PassesOn(edges, occ, edges[current].end, r) || HoldingCount(occ, Next(edges, edges[current].end), r) > 0
    ensures TraceYields(edges, occ, minDurations, intention, start, r, flow, minDuration, os)
  {
    forall o | Completes(edges, occ, minDurations, intention, start, r, flow, minDuration, o)
      ensures o in os
    {
      CompletesStep(edges, occ, minDurations, intention, start, r, flow, current, minDuration, o);
    }
  }

  /** One holding next edge: the trace goes on through it and its occupations join those listed. */
  method TakeHolding(edges: seq<Edge>, occ: seq<set<string>>, sortedNodes: seq<int>, minDurations: seq<int>,
                     intention: string, start: nat, flow: seq<nat>, current: nat, r: string, minDuration: int,
                     taken: seq<nat>, os0: seq<ResourceOccupation>, edge: nat)
    returns (os: seq<ResourceOccupation>)
    requires NodesSorted(edges, sortedNodes)
    requires TraceState(edges, occ, minDurations, start, flow, current, r, minDuration)
    requires YieldsThrough(edges, occ, minDurations, intention, start, r, flow, minDuration, taken, os0)
    requires edge < |edges| && edges[edge].start == edges[current].end && Holds(occ, edge, r)
    ensures YieldsThrough(edges, occ, minDurations, intention, start, r, flow, minDuration, taken + [edge], os)
    decreases |sortedNodes| - Pos(sortedNodes, edges[current].end), 0
  {
    Extended(edges, occ, sortedNodes, minDurations, start, flow, current, r, minDuration, edge);
    var more := TraceOccupations(edges, occ, sortedNodes, minDurations, intention, start, flow + [edge], edge, r,
                                 minDuration + minDurations[edge]);
    YieldsThroughHolding(edges, occ, minDurations, intention, start, r, flow, current, minDuration, taken,
                         os0, edge, more);
    os := os0 + more;
  }

  /** The branch of the trace where the run passes on: it goes on through every next edge. */
  method ContinueAll(edges: seq<Edge>, occ: seq<set<string>>, sortedNodes: seq<int>, minDurations: seq<int>,
                     intention: string, start: nat, flow: seq<nat>, current: nat, r: string, minDuration: int)
    returns (os: seq<ResourceOccupation>)
    requires NodesSorted(edges, sortedNodes)
    requires TraceState(edges, occ, minDurations, start, flow, current, r, minDuration)
    requires PassesOn(edges, occ, edges[current].end, r)
    ensures TraceYields(edges, occ, minDurations, intention, start, r, flow, minDuration, os)
    decreases |sortedNodes| - Pos(sortedNodes, edges[current].end), 1
  {
    var next := Next(edges, edges[current].end);
    HoldingCountBounds(occ, next, r);
    os := [];
    var i := 0;
    while i < |next|
      invariant 0 <= i <= |next|
      invariant YieldsThrough(edges, occ, minDurations, intention, start, r, flow, minDuration, next[..i], os)
    {
      var edge := next[i];
      assert next[..i + 1] == next[..i] + [edge];
      os := TakeHolding(edges, occ, sortedNodes, minDurations, intention, start, flow, current, r, minDuration,
                        next[..i], os, edge);
      i := i + 1;
    }
    assert next[..i] == next;
    YieldsAll(edges, occ, minDurations, intention, start, r, flow, current, minDuration, os);
  }

  /** The branch of the trace where some next edges hold r and the run does not pass on. */
  method Fork(edges: seq<Edge>, occ: seq<set<string>>, sortedNodes: seq<int>, minDurations: seq<int>,
              intention: string, start: nat, flow: seq<nat>, current: nat, r: string, minDuration: int)
    returns (os: seq<ResourceOccupation>)
    requires NodesSorted(edges, sortedNodes)
    requires TraceState(edges, occ, minDurations, start, flow, current, r, minDuration)
    requires !PassesOn(edges, occ, edges[current].end, r)
    requires HoldingCount(occ, Next(edges, edges[current].end), r) > 0
    ensures TraceYields(edges, occ, minDurations, intention, start, r, flow, minDuration, os)
    decreases |sortedNodes| - Pos(sortedNodes, edges[current].end), 1
  {
    var next := Next(edges, edges[current].end);
    os := [];
    var i := 0;
    while i < |next|
      invariant 0 <= i <= |next|
      invariant YieldsThrough(edges, occ, minDurations, intention, start, r, flow, minDuration, next[..i], os)
    {
      var edge := next[i];
      assert next[..i + 1] == next[..i] + [edge];
      if Holds(occ, edge, r) {
        os := TakeHolding(edges, occ, sortedNodes, minDurations, intention, start, flow, current, r, minDuration,
                          next[..i], os, edge);
      } else {
        YieldsThroughClosing(edges, occ, minDurations, intention, start, r, flow, current, minDuration, next[..i],
                             os, edge);
        os := os + [ResourceOccupation(intention, r, start, current, flow + [edge], minDuration)];
      }
      i := i + 1;
    }
    assert next[..i] == next;
    YieldsAll(edges, occ, minDurations, intention, start, r, flow, current, minDuration, os);
  }

  /** The minimum duration of a trace's occupation sums its whole run: the trace's part and the extension. */
  lemma DurationOfRun(minDurations: seq<int>, flow: seq<nat>, f: seq<nat>, si: nat, ei: nat,
                      minDuration: int, total: int)
    requires si <= |flow| <= ei + 1 <= |f| && f[..|flow|] == flow
    requires minDuration == DurationSum(minDurations, flow[si..])
    requires total == minDuration + DurationSum(minDurations, f[|flow|..ei + 1])
    ensures total == DurationSum(minDurations, f[si..ei + 1])
  {
    assert f[si..ei + 1] == flow[si..] + f[|flow|..ei + 1];
    DurationSumConcat(minDurations, flow[si..], f[|flow|..ei + 1]);
  }

  /** A trace's occupations are traced: sound runs that begin and end where occupations do. */
  lemma CompletesTraced(edges: seq<Edge>, occ: seq<set<string>>, minDurations: seq<int>, intention: string,
                        start: nat, r: string, flow: seq<nat>, current: nat, minDuration: int, o: ResourceOccupation)
    requires TraceState(edges, occ, minDurations, start, flow, current, r, minDuration)
    requires Completes(edges, occ, minDurations, intention, start, r, flow, minDuration, o)
    ensures Traced(edges, occ, minDurations, intention, o)
  {
    var n := |flow|;
    var last := |o.flow| - 1;
    var si := if flow[0] == start then 0 else 1;
    var ei := if Holds(occ, o.flow[last], r) then last else last - 1;
    if ei == last {
      assert o.flow[n..] == o.flow[n..ei + 1];
    }
    DurationOfRun(minDurations, flow, o.flow, si, ei, minDuration, o.minDuration);
    assert o.flow[0] == flow[0] && (si == 1 ==> o.flow[1] == flow[1]);
    assert o.FlowStartIndex() == si;
    assert o.FlowEndIndex() == ei;
    RunHolds(occ, r, flow, o.flow, si, ei);
    EndsByNext(edges, occ, o.end, r);
    TracedOf(edges, occ, minDurations, intention, o, si, ei);
  }

  /** Traced, from its parts with the flow indices named. */
  lemma TracedOf(edges: seq<Edge>, occ: seq<set<string>>, minDurations: seq<int>, intention: string,
                 o: ResourceOccupation, si: nat, ei: nat)
    requires o.intention == intention && IsChain(edges, o.flow)
    requires si == o.FlowStartIndex() && ei == o.FlowEndIndex()
    requires si <= ei < |o.flow| && o.flow[si] == o.start && o.flow[ei] == o.end
    requires forall k :: si <= k <= ei ==> Holds(occ, o.flow[k], o.resource)
    requires si == 1 ==> !Holds(occ, o.flow[0], o.resource)
    requires ei == |o.flow| - 2 ==> !Holds(occ, o.flow[|o.flow| - 1], o.resource)
    requires o.minDuration == DurationSum(minDurations, o.flow[si..ei + 1])
    requires o.start < |edges| && o.end < |edges|
    requires Begins(edges, occ, o.start, o.resource) && Ends(edges, occ, o.end, o.resource)
    ensures Traced(edges, occ, minDurations, intention, o)
  {
  }

  /** The trace's part and the extension hold r, so the whole run does. */
  lemma RunHolds(occ: seq<set<string>>, r: string, flow: seq<nat>, f: seq<nat>, si: nat, ei: nat)
    requires si <= ei < |f| && |flow| <= |f| && f[..|flow|] == flow
    requires forall k :: si <= k < |flow| ==> Holds(occ, flow[k], r)
    requires forall k :: |flow| <= k < |f| - 1 ==> Holds(occ, f[k], r)
    requires ei == |f| - 1 ==> Holds(occ, f[ei], r)
    ensures forall k :: si <= k <= ei ==> Holds(occ, f[k], r)
  {
    forall k | si <= k <= ei
      ensures Holds(occ, f[k], r)
    {
      if k < |flow| {
        assert f[k] == flow[k];
      }
    }
  }

  /**
   * An occupation build traces from edge for r: edge holds r and an
   * occupation begins there; when no edge entering its start node holds r
   * the trace starts from edge alone, otherwise from a non-holding edge
   * entering that node followed by edge.
   */
  ghost predicate StartsWith(edges: seq<Edge>, occ: seq<set<string>>, minDurations: seq<int>, intention: string,
                             edge: nat, r: string, o: ResourceOccupation)
    requires edge < |edges| && |minDurations| == |edges|
  {
    Holds(occ, edge, r) && Begins(edges, occ, edge, r) &&
    if NoneHoldsBefore(edges, occ, edges[edge].start, r) then
      Completes(edges, occ, minDurations, intention, edge, r, [edge], minDurations[edge], o)
    else
      |o.flow| >= 2 && !Holds(occ, o.flow[0], r) &&
      Completes(edges, occ, minDurations, intention, edge, r, [o.flow[0], edge], minDurations[edge], o)
  }

  /** The trace from edge alone starts in a trace state. */
  lemma StartAlone(edges: seq<Edge>, occ: seq<set<string>>, minDurations: seq<int>, edge: nat, r: string)
    requires |minDurations| == |edges| && edge < |edges| && Holds(occ, edge, r) && Begins(edges, occ, edge, r)
    ensures TraceState(edges, occ, minDurations, edge, [edge], edge, r, minDurations[edge])
  {
    assert [edge][..0] == [] && [edge][0..] == [edge];
  }

  /** The trace from a non-holding edge p entering edge's start node, then edge, starts in a trace state. */
  lemma StartAfter(edges: seq<Edge>, occ: seq<set<string>>, minDurations: seq<int>, edge: nat, r: string, p: nat)
    requires |minDurations| == |edges| && edge < |edges| && Holds(occ, edge, r) && Begins(edges, occ, edge, r)
    requires p < |edges| && edges[p].end == edges[edge].start && !Holds(occ, p, r)
    ensures TraceState(edges, occ, minDurations, edge, [p, edge], edge, r, minDurations[edge])
  {
    assert [p, edge][1..] == [edge] && [edge][..0] == [];
  }

  /** os lists only occupations build traces from edge, and every one whose flow begins with an edge of taken. */
  ghost predicate StartsListed(edges: seq<Edge>, occ: seq<set<string>>, minDurations: seq<int>, intention: string,
                               edge: nat, r: string, taken: seq<nat>, os: seq<ResourceOccupation>)
    requires edge < |edges| && |minDurations| == |edges|
  {
    (forall o :: o in os ==> StartsWith(edges, occ, minDurations, intention, edge, r, o)) &&
    (forall o :: (StartsWith(edges, occ, minDurations, intention, edge, r, o) && o.flow[0] in taken) ==> o in os)
  }

  /** One more previous edge of the loop of build: a non-holding one adds the trace through it. */
  lemma StartsListedStep(edges: seq<Edge>, occ: seq<set<string>>, minDurations: seq<int>, intention: string,
                         edge: nat, r: string, taken: seq<nat>, os: seq<ResourceOccupation>, p: nat,
                         more: seq<ResourceOccupation>)
    requires |minDurations| == |edges| && edge < |edges| && Holds(occ, edge, r) && Begins(edges, occ, edge, r)
    requires !NoneHoldsBefore(edges, occ, edges[edge].start, r)
    requires StartsListed(edges, occ, minDurations, intention, edge, r, taken, os)
    requires !Holds(occ, p, r) ==>
               TraceYields(edges, occ, minDurations, intention, edge, r, [p, edge], minDurations[edge], more)
    ensures StartsListed(edges, occ, minDurations, intention, edge, r, taken + [p],
                         if Holds(occ, p, r) then os else os + more)
  {
    if !Holds(occ, p, r) {
      forall o | o in more
        ensures StartsWith(edges, occ, minDurations, intention, edge, r, o)
      {
        assert o.flow[..2] == [p, edge];
        assert o.flow[0] == p;
      }
    }
  }

  /** The trace from edge alone lists exactly what build traces from edge when no entering edge holds r. */
  lemma AloneListed(edges: seq<Edge>, occ: seq<set<string>>, minDurations: seq<int>, intention: string,
                    edge: nat, r: string, os: seq<ResourceOccupation>)
    requires |minDurations| == |edges| && edge < |edges| && Holds(occ, edge, r) && Begins(edges, occ, edge, r)
    requires NoneHoldsBefore(edges, occ, edges[edge].start, r)
    requires TraceYields(edges, occ, minDurations, intention, edge, r, [edge], minDurations[edge], os)
    ensures forall o :: o in os ==> StartsWith(edges, occ, minDurations, intention, edge, r, o)
    ensures forall o :: StartsWith(edges, occ, minDurations, intention, edge, r, o) ==> o in os
  {
  }

  /** Once every edge entering edge's start node is taken, every occupation build traces from edge is listed. */
  lemma AfterListed(edges: seq<Edge>, occ: seq<set<string>>, minDurations: seq<int>, intention: string,
                    edge: nat, r: string, os: seq<ResourceOccupation>)
    requires |minDurations| == |edges| && edge < |edges| && !NoneHoldsBefore(edges, occ, edges[edge].start, r)
    requires StartsListed(edges, occ, minDurations, intention, edge, r, Previous(edges, edges[edge].start), os)
    ensures forall o :: o in os ==> StartsWith(edges, occ, minDurations, intention, edge, r, o)
    ensures forall o :: StartsWith(edges, occ, minDurations, intention, edge, r, o) ==> o in os
  {
    PreviousComplete(edges, edges[edge].start);
    forall o | StartsWith(edges, occ, minDurations, intention, edge, r, o)
      ensures o in os
    {
      assert o.flow[..2] == [o.flow[0], edge];
      assert edges[o.flow[0]].end == edges[o.flow[1]].start;
      assert o.flow[0] in Previous(edges, edges[edge].start);
    }
  }

  /**
   * The body of build for one resource r of an edge leaving node: unless
   * node is not the source and every edge entering it holds r, the
   * occupations are traced from the edge alone, or from each non-holding
   * previous edge in turn.
   */
  method OccupationsAt(edges: seq<Edge>, occ: seq<set<string>>, sortedNodes: seq<int>, minDurations: seq<int>,
                       intention: string, node: int, edge: nat, r: string) returns (os: seq<ResourceOccupation>)
    requires NodesSorted(edges, sortedNodes) && |minDurations| == |edges|
    requires edge < |edges| && edges[edge].start == node && Holds(occ, edge, r)
    ensures forall o :: o in os ==> StartsWith(edges, occ, minDurations, intention, edge, r, o)
    ensures forall o :: StartsWith(edges, occ, minDurations, intention, edge, r, o) ==> o in os
  {
    var previous := Previous(edges, node);
    var incoming := OccupyCount(occ, previous, r);
    BeginsByPrevious(edges, occ, edge, r);
    if node != SOURCE && incoming == |previous| {
      return [];
    }
    var minDuration := minDurations[edge];
    if incoming == 0 {
      StartAlone(edges, occ, minDurations, edge, r);
      os := TraceOccupations(edges, occ, sortedNodes, minDurations, intention, edge, [edge], edge, r, minDuration);
      AloneListed(edges, occ, minDurations, intention, edge, r, os);
    } else {
      os := [];
      var k := 0;
      while k < |previous|
        invariant 0 <= k <= |previous|
        invariant StartsListed(edges, occ, minDurations, intention, edge, r, previous[..k], os)
      {
        var p := previous[k];
        var more := [];
        if !Holds(occ, p, r) {
          StartAfter(edges, occ, minDurations, edge, r, p);
          more := TraceOccupations(edges, occ, sortedNodes, minDurations, intention, edge, [p, edge],
                                   edge, r, minDuration);
        }
        StartsListedStep(edges, occ, minDurations, intention, edge, r, previous[..k], os, p, more);
        assert previous[..k + 1] == previous[..k] + [p];
        os := if Holds(occ, p, r) then os else os + more;
        k := k + 1;
      }
      assert previous[..k] == previous;
      AfterListed(edges, occ, minDurations, intention, edge, r, os);
    }
  }

  /** An occupation listed by build: one traced from its start edge. */
  ghost predicate Occupation(edges: seq<Edge>, occ: seq<set<string>>, minDurations: seq<int>, intention: string,
                             o: ResourceOccupation)
  {
    |minDurations| == |edges| && o.start < |edges| &&
    StartsWith(edges, occ, minDurations, intention, o.start, o.resource, o)
  }

  /** Every occupation build lists is traced. */
  lemma OccupationTraced(edges: seq<Edge>, occ: seq<set<string>>, minDurations: seq<int>, intention: string,
                         o: ResourceOccupation)
    requires Occupation(edges, occ, minDurations, intention, o)
    ensures Traced(edges, occ, minDurations, intention, o)
  {
    var edge := o.start;
    var r := o.resource;
    if NoneHoldsBefore(edges, occ, edges[edge].start, r) {
      assert [edge][..0] == [] && [edge][0..] == [edge];
      CompletesTraced(edges, occ, minDurations, intention, edge, r, [edge], edge, minDurations[edge], o);
    } else {
      var flow := [o.flow[0], edge];
      assert o.flow[..2] == flow;
      assert flow[1..] == [edge] && [edge][..0] == [];
      CompletesTraced(edges, occ, minDurations, intention, edge, r, flow, edge, minDurations[edge], o);
    }
  }

  /**
   * Every node an edge enters, but the sink, has an edge leaving it, and
   * no edge enters the source: the shape a built route graph has.
   */
  predicate NoDeadEnds(edges: seq<Edge>)
  {
    forall e :: 0 <= e < |edges| ==> edges[e].end != SOURCE && (edges[e].end != SINK ==> Next(edges, edges[e].end) != [])
  }

  /** In a graph without dead ends every trace adds at least one occupation. */
  lemma RunCompletes(edges: seq<Edge>, occ: seq<set<string>>, sortedNodes: seq<int>, minDurations: seq<int>,
                     intention: string, start: nat, flow: seq<nat>, current: nat, r: string, minDuration: int)
    returns (o: ResourceOccupation)
    requires NodesSorted(edges, sortedNodes) && NoDeadEnds(edges)
    requires TraceState(edges, occ, minDurations, start, flow, current, r, minDuration)
    ensures Completes(edges, occ, minDurations, intention, start, r, flow, minDuration, o)
    decreases |sortedNodes| - Pos(sortedNodes, edges[current].end)
  {
    var next := Next(edges, edges[current].end);
    HoldingCountBounds(occ, next, r);
    if HoldingCount(occ, next, r) == 0 {
      o := ResourceOccupation(intention, r, start, current, flow, minDuration);
      EndsHere(edges, occ, minDurations, intention, start, flow, current, r, minDuration);
    } else if !PassesOn(edges, occ, edges[current].end, r) && exists k :: 0 <= k < |next| && !Holds(occ, next[k], r) {
      var k :| 0 <= k < |next| && !Holds(occ, next[k], r);
      o := ResourceOccupation(intention, r, start, current, flow + [next[k]], minDuration);
      EndsBefore(edges, occ, minDurations, intention, start, flow, current, r, minDuration, next[k]);
    } else {
      var edge := next[0];
      assert Holds(occ, edge, r);
      Extended(edges, occ, sortedNodes, minDurations, start, flow, current, r, minDuration, edge);
      o := RunCompletes(edges, occ, sortedNodes, minDurations, intention, start, flow + [edge], edge, r,
                        minDuration + minDurations[edge]);
      assert o.flow[..|flow| + 1] == flow + [edge];
      assert o.flow[|flow|] == edge;
      CompletesThrough(edges, occ, minDurations, intention, start, r, flow, minDuration, edge, o);
    }
  }

  /** In a graph without dead ends an occupation is listed wherever one begins. */
  lemma BeginsListed(edges: seq<Edge>, occ: seq<set<string>>, sortedNodes: seq<int>, minDurations: seq<int>,
                     intention: string, e: nat, r: string) returns (o: ResourceOccupation)
    requires NodesSorted(edges, sortedNodes) && NoDeadEnds(edges) && |minDurations| == |edges|
    requires e < |edges| && Holds(occ, e, r) && Begins(edges, occ, e, r)
    ensures Occupation(edges, occ, minDurations, intention, o) && o.start == e && o.resource == r
  {
    if NoneHoldsBefore(edges, occ, edges[e].start, r) {
      assert [e][..0] == [] && [e][0..] == [e];
      o := RunCompletes(edges, occ, sortedNodes, minDurations, intention, e, [e], e, r, minDurations[e]);
    } else {
      var q :| 0 <= q < |edges| && edges[q].end == edges[e].start && !Holds(occ, q, r);
      assert [q, e][1..] == [e] && [e][..0] == [];
      o := RunCompletes(edges, occ, sortedNodes, minDurations, intention, e, [q, e], e, r, minDurations[e]);
      assert o.flow[..2] == [q, e];
    }
  }

  /** The value at key k of a multimap, empty when k is absent. */
  function ListAt<K>(index: map<K, seq<ResourceOccupation>>, k: K): seq<ResourceOccupation>
  {
    if k in index then index[k] else []
  }

  /** byResource lists exactly the found occupations, each under its resource. */
  ghost predicate ResourceIndexed(found: seq<ResourceOccupation>, byResource: map<string, seq<ResourceOccupation>>)
  {
    (forall o :: o in found ==> o in ListAt(byResource, o.resource)) &&
    (forall k, o :: k in byResource && o in byResource[k] ==> o in found && o.resource == k)
  }

  /** byStartNode lists exactly the found occupations, each under its start edge's start node. */
  ghost predicate StartIndexed(edges: seq<Edge>, found: seq<ResourceOccupation>,
                               byStartNode: map<int, seq<ResourceOccupation>>)
  {
    (forall o :: o in found ==> o.start < |edges| && o in ListAt(byStartNode, edges[o.start].start)) &&
    (forall n, o :: n in byStartNode && o in byStartNode[n] ==>
      o in found && o.start < |edges| && edges[o.start].start == n)
  }

  /** byEndNode lists exactly the found occupations, each under its end edge's end node. */
  ghost predicate EndIndexed(edges: seq<Edge>, found: seq<ResourceOccupation>,
                             byEndNode: map<int, seq<ResourceOccupation>>)
  {
    (forall o :: o in found ==> o.end < |edges| && o in ListAt(byEndNode, edges[o.end].end)) &&
    (forall n, o :: n in byEndNode && o in byEndNode[n] ==>
      o in found && o.end < |edges| && edges[o.end].end == n)
  }

  /** The three multimaps list exactly the found occupations. */
  ghost predicate Indexed(edges: seq<Edge>, found: seq<ResourceOccupation>,
                          byResource: map<string, seq<ResourceOccupation>>,
                          byStartNode: map<int, seq<ResourceOccupation>>,
                          byEndNode: map<int, seq<ResourceOccupation>>)
  {
    ResourceIndexed(found, byResource) && StartIndexed(edges, found, byStartNode) &&
    EndIndexed(edges, found, byEndNode)
  }

  /** Appending o to the list at key k of a multimap. */
  function Appended<K(!new)>(index: map<K, seq<ResourceOccupation>>, k: K, o: ResourceOccupation): (r: map<K, seq<ResourceOccupation>>)
    ensures k in r && ListAt(r, k) == ListAt(index, k) + [o]
    ensures forall j :: j != k ==> ListAt(r, j) == ListAt(index, j)
  {
    index[k := ListAt(index, k) + [o]]
  }

  lemma ResourceIndexedAppend(found: seq<ResourceOccupation>, byResource: map<string, seq<ResourceOccupation>>,
                              o: ResourceOccupation)
    requires ResourceIndexed(found, byResource)
    ensures ResourceIndexed(found + [o], Appended(byResource, o.resource, o))
  {
    var br := Appended(byResource, o.resource, o);
    forall x | x in found + [o]
      ensures x in ListAt(br, x.resource)
    {
      if x != o {
        assert x in found;
      }
    }
    forall k, x | k in br && x in br[k]
      ensures x in found + [o] && x.resource == k
    {
      assert x in ListAt(br, k);
      if k != o.resource || x != o {
        assert x in ListAt(byResource, k);
      }
    }
  }

  lemma StartIndexedAppend(edges: seq<Edge>, found: seq<ResourceOccupation>,
                           byStartNode: map<int, seq<ResourceOccupation>>, o: ResourceOccupation)
    requires StartIndexed(edges, found, byStartNode) && o.start < |edges|
    ensures StartIndexed(edges, found + [o], Appended(byStartNode, edges[o.start].start, o))
  {
    var bs := Appended(byStartNode, edges[o.start].start, o);
    forall x | x in found + [o]
      ensures x.start < |edges| && x in ListAt(bs, edges[x.start].start)
    {
      if x != o {
        assert x in found;
      }
    }
    forall n, x | n in bs && x in bs[n]
      ensures x in found + [o] && x.start < |edges| && edges[x.start].start == n
    {
      assert x in ListAt(bs, n);
      if n != edges[o.start].start || x != o {
        assert x in ListAt(byStartNode, n);
      }
    }
  }

  lemma EndIndexedAppend(edges: seq<Edge>, found: seq<ResourceOccupation>,
                         byEndNode: map<int, seq<ResourceOccupation>>, o: ResourceOccupation)
    requires EndIndexed(edges, found, byEndNode) && o.end < |edges|
    ensures EndIndexed(edges, found + [o], Appended(byEndNode, edges[o.end].end, o))
  {
    var be := Appended(byEndNode, edges[o.end].end, o);
    forall x | x in found + [o]
      ensures x.end < |edges| && x in ListAt(be, edges[x.end].end)
    {
      if x != o {
        assert x in found;
      }
    }
    forall n, x | n in be && x in be[n]
      ensures x in found + [o] && x.end < |edges| && edges[x.end].end == n
    {
      assert x in ListAt(be, n);
      if n != edges[o.end].end || x != o {
        assert x in ListAt(byEndNode, n);
      }
    }
  }

  /** The Builder of GraphResourceOccupations. */
  class OccupationsBuilder {
    const edges: seq<Edge>
    const occ: seq<set<string>>
    const sortedNodes: seq<int>
    const intention: string
    const minDurations: seq<int>
    var byResource: map<string, seq<ResourceOccupation>>
    var byStartNode: map<int, seq<ResourceOccupation>>
    var byEndNode: map<int, seq<ResourceOccupation>>
    /** Every occupation added so far, in order. */
    ghost var found: seq<ResourceOccupation>

    ghost predicate Valid()
      reads this
    {
      NodesSorted(edges, sortedNodes) && |minDurations| == |edges| &&
      Indexed(edges, found, byResource, byStartNode, byEndNode)
    }

    constructor (g: RouteGraph, intention: string, minDurations: seq<int>)
      requires NodesSorted(g.edges, g.sortedNodes) && |minDurations| == |g.edges|
      ensures Valid() && found == []
      ensures edges == g.edges && occ == g.occupations && sortedNodes == g.sortedNodes
      ensures this.intention == intention && this.minDurations == minDurations
    {
      edges := g.edges;
      occ := g.occupations;
      sortedNodes := g.sortedNodes;
      this.intention := intention;
      this.minDurations := minDurations;
      byResource := map[];
      byStartNode := map[];
      byEndNode := map[];
      found := [];
    }

    /** addOccupation: o is put into all three multimaps. */
    method AddOccupation(o: ResourceOccupation)
      requires Valid() && o.start < |edges| && o.end < |edges|
      modifies this
      ensures Valid() && found == old(found) + [o]
      ensures byResource == Appended(old(byResource), o.resource, o)
      ensures byStartNode == Appended(old(byStartNode), edges[o.start].start, o)
      ensures byEndNode == Appended(old(byEndNode), edges[o.end].end, o)
    {
      ResourceIndexedAppend(found, byResource, o);
      StartIndexedAppend(edges, found, byStartNode, o);
      EndIndexedAppend(edges, found, byEndNode, o);
      byResource := Appended(byResource, o.resource, o);
      byStartNode := Appended(byStartNode, edges[o.start].start, o);
      byEndNode := Appended(byEndNode, edges[o.end].end, o);
      found := found + [o];
    }

    /** The occupations one trace yields, added in order. */
    method AddAll(os: seq<ResourceOccupation>)
      requires Valid() && forall o :: o in os ==> o.start < |edges| && o.end < |edges|
      modifies this
      ensures Valid() && found == old(found) + os
    {
      var i := 0;
      while i < |os|
        invariant 0 <= i <= |os|
        invariant Valid() && found == old(found) + os[..i]
      {
        AddOccupation(os[i]);
        assert os[..i + 1] == os[..i] + [os[i]];
        i := i + 1;
      }
      assert os[..i] == os;
    }

    /** Every occupation found so far is one build lists. */
    ghost predicate AllOccupations()
      reads this
    {
      forall o :: o in found ==> Occupation(edges, occ, minDurations, intention, o)
    }

    /** The loop of build over the resources of one edge (a hash set, walked in no fixed order). */
    method BuildEdge(node: int, edge: nat)
      requires Valid() && AllOccupations() && edge < |edges| && edges[edge].start == node
      modifies this
      ensures Valid() && AllOccupations() && (forall o :: o in old(found) ==> o in found)
      ensures forall o :: Occupation(edges, occ, minDurations, intention, o) && o.start == edge ==> o in found
    {
      var resources := if edge < |occ| then occ[edge] else {};
      var todo := resources;
      while todo != {}
        invariant todo <= resources
        invariant Valid() && AllOccupations() && (forall o :: o in old(found) ==> o in found)
        invariant forall o :: (Occupation(edges, occ, minDurations, intention, o) && o.start == edge &&
                               o.resource in resources - todo) ==> o in found
        decreases |todo|
      {
        NonEmptyHasElement(todo);
        var r :| r in todo;
        var os := OccupationsAt(edges, occ, sortedNodes, minDurations, intention, node, edge, r);
        AddAll(os);
        todo := todo - {r};
      }
    }

    /** The loop of build over the next edges of one node. */
    method BuildNode(node: int)
      requires Valid() && AllOccupations()
      modifies this
      ensures Valid() && AllOccupations() && (forall o :: o in old(found) ==> o in found)
      ensures forall o :: Occupation(edges, occ, minDurations, intention, o) && edges[o.start].start == node ==>
                o in found
    {
      var next := Next(edges, node);
      NextComplete(edges, node);
      var j := 0;
      while j < |next|
        invariant 0 <= j <= |next|
        invariant Valid() && AllOccupations() && (forall o :: o in old(found) ==> o in found)
        invariant forall o :: Occupation(edges, occ, minDurations, intention, o) && o.start in next[..j] ==> o in found
      {
        assert next[..j + 1] == next[..j] + [next[j]];
        BuildEdge(node, next[j]);
        j := j + 1;
      }
      assert next[..j] == next;
    }

    /**
     * build: over the nodes in topological order, their next edges and the
     * resources each edge holds.  Afterwards the occupations found are
     * those found before and exactly the ones build lists.
     */
    method Build()
      requires Valid() && AllOccupations()
      modifies this
      ensures Valid() && AllOccupations() && (forall o :: o in old(found) ==> o in found)
      ensures forall o :: Occupation(edges, occ, minDurations, intention, o) ==> o in found
    {
      var nodes := sortedNodes;
      var i := 0;
      while i < |nodes|
        invariant 0 <= i <= |nodes|
        invariant Valid() && AllOccupations() && (forall o :: o in old(found) ==> o in found)
        invariant forall o :: (Occupation(edges, occ, minDurations, intention, o) &&
                               edges[o.start].start in nodes[..i]) ==> o in found
      {
        assert nodes[..i + 1] == nodes[..i] + [nodes[i]];
        BuildNode(nodes[i]);
        i := i + 1;
      }
      assert nodes[..i] == nodes;
    }
  }

  /** GraphResourceOccupations: the three multimaps build fills. */
  datatype GraphResourceOccupations = GraphResourceOccupations(
    byResource: map<string, seq<ResourceOccupation>>,
    byStartNode: map<int, seq<ResourceOccupation>>,
    byEndNode: map<int, seq<ResourceOccupation>>)
  {
    /** getOccupiedResources */
    function OccupiedResources(): set<string>
    {
      byResource.Keys
    }

    /** getOccupations(resource) */
    function Occupations(resource: string): seq<ResourceOccupation>
    {
      ListAt(byResource, resource)
    }

    /** getOccupationsStartingAt(node) */
    function OccupationsStartingAt(node: int): seq<ResourceOccupation>
    {
      ListAt(byStartNode, node)
    }

    /** getOccupationsEndingAt(node) */
    function OccupationsEndingAt(node: int): seq<ResourceOccupation>
    {
      ListAt(byEndNode, node)
    }
  }

  /** The durations findEdgeMinDurations computes, as a value. */
  function FindEdgeDurations(edges: seq<Edge>, reqs: seq<SectionRequirement>): (d: seq<int>)
    ensures |d| == |edges|
  {
    seq(|edges|, e requires 0 <= e < |edges| => EdgeMinDuration(edges[e].section, RequirementsByMarker(reqs)))
  }

  /**
   * create(graph, intention): the occupations of every resource in the
   * graph, listed under their resource and their start and end nodes.
   * They are exactly the occupations traced from each edge where a run of
   * a resource begins; each is a maximal traced run; and in a graph
   * without dead ends one begins at every such edge.
   */
  method Create(g: RouteGraph, intention: string, reqs: seq<SectionRequirement>)
    returns (occupations: GraphResourceOccupations, ghost found: seq<ResourceOccupation>)
    requires NodesSorted(g.edges, g.sortedNodes)
    ensures Indexed(g.edges, found, occupations.byResource, occupations.byStartNode, occupations.byEndNode)
    ensures forall o :: o in found <==> Occupation(g.edges, g.occupations, FindEdgeDurations(g.edges, reqs), intention, o)
    ensures forall o :: o in found ==> Traced(g.edges, g.occupations, FindEdgeDurations(g.edges, reqs), intention, o)
    ensures NoDeadEnds(g.edges) ==>
              forall e, r :: 0 <= e < |g.edges| && Holds(g.occupations, e, r) && Begins(g.edges, g.occupations, e, r) ==>
                exists o :: o in occupations.Occupations(r) && o.start == e
  {
    var minDurations := FindEdgeMinDurations(g.edges, reqs);
    assert minDurations == FindEdgeDurations(g.edges, reqs);
    var builder := new OccupationsBuilder(g, intention, minDurations);
    builder.Build();
    occupations := GraphResourceOccupations(builder.byResource, builder.byStartNode, builder.byEndNode);
    found := builder.found;
    forall o | o in found
      ensures Traced(g.edges, g.occupations, minDurations, intention, o)
    {
      OccupationTraced(g.edges, g.occupations, minDurations, intention, o);
    }
    if NoDeadEnds(g.edges) {
      forall e, r | 0 <= e < |g.edges| && Holds(g.occupations, e, r) && Begins(g.edges, g.occupations, e, r)
        ensures exists o :: o in occupations.Occupations(r) && o.start == e
      {
        var o := BeginsListed(g.edges, g.occupations, g.sortedNodes, minDurations, intention, e, r);
        assert o in found;
        assert o in ListAt(occupations.byResource, o.resource);
      }
    }
  }
}
