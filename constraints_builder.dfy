/**
 * GraphConstraints.Builder: the initial windows of one intention's route
 * graph.  The intention's section requirements give edges an earliest
 * entry and nodes a latest allowed time; then, in topological order, every
 * edge leaving a node is made to enter no earlier than the earliest
 * arrival at that node over its incoming edges.
 */
module ConstraintsBuilder {
  import opened Common
  import opened TimeUtil
  import opened RouteGraphs
  import opened TimeBounds
  import opened ResourceOccupations
  import opened Constraints

  /** NO_REQUIREMENTS: no marker, no stop, no times, delay weights 0. */
  const NoRequirements: SectionRequirement := SectionRequirement("", 0, "", "", "", "", 0.0, 0.0)

  /**
   * The builder's requirements map: every requirement put under its
   * marker in list order, so the last one naming a marker is kept.
   */
  function RequirementMap(reqs: seq<SectionRequirement>): map<string, SectionRequirement>
  {
    if reqs == [] then map[]
    else RequirementMap(reqs[..|reqs| - 1])[reqs[|reqs| - 1].sectionMarker := reqs[|reqs| - 1]]
  }

  /** The only delay weights the builder accepts. */
  predicate DelayWeightValid(w: real)
  {
    w == 0.0 || w == 1.0
  }

  predicate DelayWeightsValid(reqs: seq<SectionRequirement>)
  {
    forall i :: 0 <= i < |reqs| ==>
      DelayWeightValid(reqs[i].entryDelayWeight) && DelayWeightValid(reqs[i].exitDelayWeight)
  }

  /** getSectionRequirement: the requirement under the edge's first marker, NO_REQUIREMENTS otherwise. */
  function RequirementOf(e: Edge, byMarker: map<string, SectionRequirement>): SectionRequirement
  {
    if |e.section.sectionMarkers| > 0 && e.section.sectionMarkers[0] in byMarker
    then byMarker[e.section.sectionMarkers[0]] else NoRequirements
  }

  /** A time field is either not given (empty) or parses. */
  predicate FieldParses(s: string)
  {
    s == "" || TimeValue(s).Some?
  }

  predicate TimesParse(r: SectionRequirement)
  {
    FieldParses(r.entryEarliest) && FieldParses(r.exitEarliest) &&
    FieldParses(r.entryLatest) && FieldParses(r.exitLatest)
  }

  /** The windows before any requirement: [0, TMAX] on every edge. */
  function InitialWindows(n: nat): (tc: seq<TimeConstraint>)
    ensures |tc| == n && forall e :: 0 <= e < n ==> tc[e] == Unconstrained
  {
    seq(n, _ => Unconstrained)
  }

  /** The edges es made to enter no earlier than t, the others as they were. */
  function Raised(tc: seq<TimeConstraint>, es: seq<nat>, t: int): (r: seq<TimeConstraint>)
    ensures |r| == |tc|
  {
    seq(|tc|, i requires 0 <= i < |tc| => if i in es then tc[i].WithEntryEarliest(t) else tc[i])
  }

  /** Raising entry bounds tightens the windows and reaches t on every raised edge. */
  lemma RaisedTightens(tc: seq<TimeConstraint>, es: seq<nat>, t: int)
    ensures Tighter(Raised(tc, es, t), tc)
    ensures forall i :: 0 <= i < |tc| && i in es ==> Raised(tc, es, t)[i].entryEarliest >= t
    ensures forall i :: 0 <= i < |tc| ==> Raised(tc, es, t)[i].exitLatest == tc[i].exitLatest
  {
  }

  /** The loop over next edges that raises their entry bounds to t. */
  method RaiseEntries(tc: seq<TimeConstraint>, es: seq<nat>, t: int) returns (r: seq<TimeConstraint>)
    requires forall k :: 0 <= k < |es| ==> es[k] < |tc|
    ensures r == Raised(tc, es, t)
  {
    r := tc;
    var k := 0;
    while k < |es|
      invariant 0 <= k <= |es| && |r| == |tc|
      invariant forall i :: 0 <= i < |tc| ==> r[i] == if i in es[..k] then tc[i].WithEntryEarliest(t) else tc[i]
    {
      assert es[..k + 1] == es[..k] + [es[k]];
      r := r[es[k] := r[es[k]].WithEntryEarliest(t)];
      k := k + 1;
    }
    assert es[..k] == es;
  }

  /** What the requirement pass has built so far: the windows and the latest allowed times. */
  datatype Bounds = Bounds(windows: seq<TimeConstraint>, latestAllowed: map<int, int>)

  /**
   * The requirement pass at edge e: its requirement's earliest entry
   * raises the edge itself, its earliest exit raises every edge leaving
   * its end, its latest entry and exit become the latest allowed times of
   * its start and end.  A time that does not parse makes the build fail.
   */
  function EdgeStep(edges: seq<Edge>, r: SectionRequirement, e: nat, b: Bounds): Option<Bounds>
    requires e < |edges| && |b.windows| == |edges|
  {
    if !TimesParse(r) then None
    else
      var w1 := if r.entryEarliest == "" then b.windows
                else b.windows[e := b.windows[e].WithEntryEarliest(TimeValue(r.entryEarliest).value)];
      var w2 := if r.exitEarliest == "" then w1
                else Raised(w1, Next(edges, edges[e].end), TimeValue(r.exitEarliest).value);
      var l1 := if r.entryLatest == "" then b.latestAllowed
                else b.latestAllowed[edges[e].start := TimeValue(r.entryLatest).value];
      var l2 := if r.exitLatest == "" then l1
                else l1[edges[e].end := TimeValue(r.exitLatest).value];
      Some(Bounds(w2, l2))
  }

  /** The requirement pass over the first k edges, in the graph's edge order. */
  function RequirementPhase(edges: seq<Edge>, byMarker: map<string, SectionRequirement>, k: nat): (r: Option<Bounds>)
    requires k <= |edges|
    ensures r.Some? ==> |r.value.windows| == |edges|
  {
    if k == 0 then Some(Bounds(InitialWindows(|edges|), map[]))
    else
      match RequirementPhase(edges, byMarker, k - 1)
      case None => None
      case Some(b) => EdgeStep(edges, RequirementOf(edges[k - 1], byMarker), k - 1, b)
  }

  /** The requirement pass fails exactly when a given time of some edge's requirement does not parse. */
  lemma {:induction false} PhaseFails(edges: seq<Edge>, byMarker: map<string, SectionRequirement>, k: nat)
    requires k <= |edges|
    ensures RequirementPhase(edges, byMarker, k).None? <==>
            exists j :: 0 <= j < k && !TimesParse(RequirementOf(edges[j], byMarker))
  {
    if k > 0 {
      PhaseFails(edges, byMarker, k - 1);
      var r := RequirementOf(edges[k - 1], byMarker);
      match RequirementPhase(edges, byMarker, k - 1)
      case None =>
        var j :| 0 <= j < k - 1 && !TimesParse(RequirementOf(edges[j], byMarker));
        assert 0 <= j < k;
      case Some(b) =>
        EdgeStepFails(edges, r, k - 1, b);
        assert RequirementPhase(edges, byMarker, k) == EdgeStep(edges, r, k - 1, b);
    }
  }

  /** One step of the requirement pass fails exactly when its requirement's times do not parse. */
  lemma EdgeStepFails(edges: seq<Edge>, r: SectionRequirement, e: nat, b: Bounds)
    requires e < |edges| && |b.windows| == |edges|
    ensures EdgeStep(edges, r, e, b).None? <==> !TimesParse(r)
  {
  }

  /** Edge j's requirement is met by the windows tc: its earliest entry on j, its earliest exit on every edge after j. */
  predicate EntryRequirementMet(edges: seq<Edge>, byMarker: map<string, SectionRequirement>, tc: seq<TimeConstraint>, j: nat)
    requires j < |edges| && |tc| == |edges|
  {
    RequirementMet(edges, RequirementOf(edges[j], byMarker), tc, j)
  }

  predicate RequirementMet(edges: seq<Edge>, r: SectionRequirement, tc: seq<TimeConstraint>, j: nat)
    requires j < |edges| && |tc| == |edges|
  {
    (r.entryEarliest != "" && TimeValue(r.entryEarliest).Some? ==>
       tc[j].entryEarliest >= TimeValue(r.entryEarliest).value) &&
    (r.exitEarliest != "" && TimeValue(r.exitEarliest).Some? ==>
       forall x :: x in Next(edges, edges[j].end) ==> tc[x].entryEarliest >= TimeValue(r.exitEarliest).value)
  }

  /** Requirement r names node n as the start of its latest entry or the end of its latest exit at edge e. */
  predicate NamesNode(edges: seq<Edge>, r: SectionRequirement, e: nat, n: int)
    requires e < |edges|
  {
    (r.entryLatest != "" && edges[e].start == n) || (r.exitLatest != "" && edges[e].end == n)
  }

  /**
   * One step of the requirement pass tightens the windows, keeps every
   * exit bound, meets the edge's requirement and adds the nodes its
   * latest times name.
   */
  lemma EdgeStepFacts(edges: seq<Edge>, r: SectionRequirement, e: nat, b: Bounds)
    requires e < |edges| && |b.windows| == |edges| && EdgeStep(edges, r, e, b).Some?
    ensures Tighter(EdgeStep(edges, r, e, b).value.windows, b.windows)
    ensures forall x :: 0 <= x < |edges| ==> EdgeStep(edges, r, e, b).value.windows[x].exitLatest == b.windows[x].exitLatest
    ensures RequirementMet(edges, r, EdgeStep(edges, r, e, b).value.windows, e)
    ensures forall n :: n in EdgeStep(edges, r, e, b).value.latestAllowed <==> n in b.latestAllowed || NamesNode(edges, r, e, n)
  {
    var w1 := if r.entryEarliest == "" then b.windows
              else b.windows[e := b.windows[e].WithEntryEarliest(TimeValue(r.entryEarliest).value)];
    assert Tighter(w1, b.windows);
    if r.exitEarliest != "" {
      RaisedTightens(w1, Next(edges, edges[e].end), TimeValue(r.exitEarliest).value);
    }
  }

  lemma RequirementTightened(edges: seq<Edge>, r: SectionRequirement, tc1: seq<TimeConstraint>, tc2: seq<TimeConstraint>, j: nat)
    requires j < |edges| && |tc1| == |edges| && Tighter(tc2, tc1)
    requires RequirementMet(edges, r, tc1, j)
    ensures RequirementMet(edges, r, tc2, j)
  {
    assert Within(tc2[j], tc1[j]);
    if r.exitEarliest != "" && TimeValue(r.exitEarliest).Some? {
      forall x | x in Next(edges, edges[j].end)
        ensures tc2[x].entryEarliest >= TimeValue(r.exitEarliest).value
      {
        assert Within(tc2[x], tc1[x]);
      }
    }
  }

  /** The requirement pass only raises entry bounds: exits stay at TMAX, entries at 0 or above. */
  lemma {:induction false} PhaseWindows(edges: seq<Edge>, byMarker: map<string, SectionRequirement>, k: nat)
    requires k <= |edges| && RequirementPhase(edges, byMarker, k).Some?
    ensures Tighter(RequirementPhase(edges, byMarker, k).value.windows, InitialWindows(|edges|))
    ensures forall e :: 0 <= e < |edges| ==> RequirementPhase(edges, byMarker, k).value.windows[e].exitLatest == TMAX
  {
    if k > 0 {
      PhaseWindows(edges, byMarker, k - 1);
      var b := RequirementPhase(edges, byMarker, k - 1).value;
      var w := RequirementPhase(edges, byMarker, k).value.windows;
      EdgeStepFacts(edges, RequirementOf(edges[k - 1], byMarker), k - 1, b);
      forall e | 0 <= e < |edges|
        ensures Within(w[e], InitialWindows(|edges|)[e])
      {
        assert Within(w[e], b.windows[e]);
      }
    }
  }

  /** After the requirement pass over k edges, every one of them has its earliest entry and exit times met. */
  lemma {:induction false} PhaseRespects(edges: seq<Edge>, byMarker: map<string, SectionRequirement>, k: nat)
    requires k <= |edges| && RequirementPhase(edges, byMarker, k).Some?
    ensures forall j :: 0 <= j < k ==> EntryRequirementMet(edges, byMarker, RequirementPhase(edges, byMarker, k).value.windows, j)
  {
    if k > 0 {
      PhaseRespects(edges, byMarker, k - 1);
      var b := RequirementPhase(edges, byMarker, k - 1).value;
      var w := RequirementPhase(edges, byMarker, k).value.windows;
      EdgeStepFacts(edges, RequirementOf(edges[k - 1], byMarker), k - 1, b);
      forall j | 0 <= j < k - 1
        ensures EntryRequirementMet(edges, byMarker, w, j)
      {
        assert EntryRequirementMet(edges, byMarker, b.windows, j);
        RequirementTightened(edges, RequirementOf(edges[j], byMarker), b.windows, w, j);
      }
    }
  }

  /** Edge j's requirement names node n as the start of its latest entry or the end of its latest exit. */
  predicate NamesLatest(edges: seq<Edge>, byMarker: map<string, SectionRequirement>, j: nat, n: int)
    requires j < |edges|
  {
    NamesNode(edges, RequirementOf(edges[j], byMarker), j, n)
  }

  /** A node has a latest allowed time exactly when some requirement of the first k edges gives one. */
  lemma {:induction false} PhaseLatest(edges: seq<Edge>, byMarker: map<string, SectionRequirement>, k: nat, n: int)
    requires k <= |edges| && RequirementPhase(edges, byMarker, k).Some?
    ensures n in RequirementPhase(edges, byMarker, k).value.latestAllowed <==>
            exists j :: 0 <= j < k && NamesLatest(edges, byMarker, j, n)
  {
    if k > 0 {
      PhaseLatest(edges, byMarker, k - 1, n);
      var b := RequirementPhase(edges, byMarker, k - 1).value;
      EdgeStepFacts(edges, RequirementOf(edges[k - 1], byMarker), k - 1, b);
      NamedSplit(edges, byMarker, k, n);
    }
  }

  lemma NamedSplit(edges: seq<Edge>, byMarker: map<string, SectionRequirement>, k: nat, n: int)
    requires 0 < k <= |edges|
    ensures (exists j :: 0 <= j < k && NamesLatest(edges, byMarker, j, n)) <==>
            (exists j :: 0 <= j < k - 1 && NamesLatest(edges, byMarker, j, n)) || NamesLatest(edges, byMarker, k - 1, n)
  {
    if exists j :: 0 <= j < k && NamesLatest(edges, byMarker, j, n) {
      var j :| 0 <= j < k && NamesLatest(edges, byMarker, j, n);
      if j < k - 1 {
        assert 0 <= j < k - 1;
      }
    }
  }

  /** Once the pass has failed it stays failed. */
  lemma {:induction false} PhaseStaysFailed(edges: seq<Edge>, byMarker: map<string, SectionRequirement>, i: nat, k: nat)
    requires i <= k <= |edges| && RequirementPhase(edges, byMarker, i).None?
    ensures RequirementPhase(edges, byMarker, k).None?
    decreases k - i
  {
    if i < k {
      PhaseStaysFailed(edges, byMarker, i + 1, k);
    }
  }

  // ---------------------------------------------------------------------
  // The earliest-arrival pass.

  /** A topological order lists each node once. */
  predicate DistinctNodes(s: seq<int>)
  {
    forall j, k :: 0 <= j < k < |s| ==> s[j] != s[k]
  }

  lemma {:induction false} PosOfDistinct(s: seq<int>, i: nat)
    requires DistinctNodes(s) && i < |s|
    ensures Pos(s, s[i]) == i
  {
    if i > 0 {
      assert s[0] != s[i];
      assert s[1..][i - 1] == s[i];
      PosOfDistinct(s[1..], i - 1);
    }
  }

  /**
   * The window the earliest-arrival pass leaves on edge e, given the
   * windows tc0 of the requirement pass: an edge out of the source keeps
   * its window, any other enters no earlier than the earliest arrival at
   * its start in the final windows tc.
   */
  function ArrivalWindow(edges: seq<Edge>, md: seq<int>, tc0: seq<TimeConstraint>, tc: seq<TimeConstraint>, e: nat): TimeConstraint
    requires Sized(edges, md, tc) && |tc0| == |edges| && e < |edges|
  {
    if Previous(edges, edges[e].start) == [] then tc0[e]
    else tc0[e].WithEntryEarliest(NeighbourBound(EarliestIncoming, edges, md, tc, {}, edges[e].start))
  }

  ghost predicate ArrivalsApplied(edges: seq<Edge>, md: seq<int>, tc0: seq<TimeConstraint>, tc: seq<TimeConstraint>)
    requires Sized(edges, md, tc) && |tc0| == |edges|
  {
    forall e :: 0 <= e < |edges| ==> tc[e] == ArrivalWindow(edges, md, tc0, tc, e)
  }

  /** The pass up to position i of the order: edges leaving the nodes before i are done, the others untouched. */
  ghost predicate ArrivalsUpTo(edges: seq<Edge>, md: seq<int>, sn: seq<int>, tc0: seq<TimeConstraint>,
                               tc: seq<TimeConstraint>, i: nat)
    requires Sized(edges, md, tc) && |tc0| == |edges| && NodesSorted(edges, sn)
  {
    forall e :: 0 <= e < |edges| ==>
      tc[e] == if Pos(sn, edges[e].start) < i then ArrivalWindow(edges, md, tc0, tc, e) else tc0[e]
  }

  /** Changing only edges out of sn[i] leaves the earliest arrival at every node up to i as it was. */
  lemma ArrivalFrame(edges: seq<Edge>, md: seq<int>, sn: seq<int>, tc: seq<TimeConstraint>, tc': seq<TimeConstraint>,
                     i: nat, m: int)
    requires Sized(edges, md, tc) && |tc'| == |edges| && NodesSorted(edges, sn) && DistinctNodes(sn) && i < |sn|
    requires forall e :: 0 <= e < |edges| && edges[e].start != sn[i] ==> tc'[e] == tc[e]
    requires m in sn && Pos(sn, m) <= i
    ensures NeighbourBound(EarliestIncoming, edges, md, tc', {}, m) == NeighbourBound(EarliestIncoming, edges, md, tc, {}, m)
  {
    var prevs := Previous(edges, m);
    PosOfDistinct(sn, i);
    forall k | 0 <= k < |prevs|
      ensures tc[prevs[k]] == tc'[prevs[k]]
    {
      assert edges[prevs[k]].end == m;
    }
    FoldFrame(EarliestIncoming, md, tc, tc', {}, prevs);
  }

  /** One node of the earliest-arrival pass keeps ArrivalsUpTo, one position further. */
  lemma ArrivalStep(edges: seq<Edge>, md: seq<int>, sn: seq<int>, tc0: seq<TimeConstraint>,
                    tc: seq<TimeConstraint>, tc': seq<TimeConstraint>, i: nat)
    requires Sized(edges, md, tc) && |tc0| == |edges| && NodesSorted(edges, sn) && DistinctNodes(sn) && i < |sn|
    requires ArrivalsUpTo(edges, md, sn, tc0, tc, i)
    requires tc' == if Previous(edges, sn[i]) == [] then tc
                    else Raised(tc, Next(edges, sn[i]), NeighbourBound(EarliestIncoming, edges, md, tc, {}, sn[i]))
    ensures ArrivalsUpTo(edges, md, sn, tc0, tc', i + 1)
  {
    var n := sn[i];
    NextComplete(edges, n);
    assert forall e :: 0 <= e < |edges| && edges[e].start != n ==> tc'[e] == tc[e];
    forall e | 0 <= e < |edges|
      ensures tc'[e] == if Pos(sn, edges[e].start) < i + 1 then ArrivalWindow(edges, md, tc0, tc', e) else tc0[e]
    {
      assert tc[e] == if Pos(sn, edges[e].start) < i then ArrivalWindow(edges, md, tc0, tc, e) else tc0[e];
      if edges[e].start == n {
        assert e in Next(edges, n);
      }
      ArrivalStepAt(edges, md, sn, tc0, tc, tc', i, e);
    }
  }

  /** ArrivalStep for one edge: edges out of sn[i] get the arrival there, the others keep their window. */
  lemma ArrivalStepAt(edges: seq<Edge>, md: seq<int>, sn: seq<int>, tc0: seq<TimeConstraint>,
                      tc: seq<TimeConstraint>, tc': seq<TimeConstraint>, i: nat, e: nat)
    requires Sized(edges, md, tc) && |tc0| == |edges| && |tc'| == |edges| && NodesSorted(edges, sn)
    requires DistinctNodes(sn) && i < |sn| && e < |edges|
    requires forall f :: 0 <= f < |edges| && edges[f].start != sn[i] ==> tc'[f] == tc[f]
    requires tc[e] == if Pos(sn, edges[e].start) < i then ArrivalWindow(edges, md, tc0, tc, e) else tc0[e]
    requires edges[e].start == sn[i] ==>
               tc'[e] == if Previous(edges, sn[i]) == [] then tc[e]
                         else tc[e].WithEntryEarliest(NeighbourBound(EarliestIncoming, edges, md, tc, {}, sn[i]))
    ensures tc'[e] == if Pos(sn, edges[e].start) < i + 1 then ArrivalWindow(edges, md, tc0, tc', e) else tc0[e]
  {
    var m := edges[e].start;
    if m == sn[i] {
      PosOfDistinct(sn, i);
      ArrivalFrame(edges, md, sn, tc, tc', i, m);
    } else if Pos(sn, m) < i {
      ArrivalFrame(edges, md, sn, tc, tc', i, m);
    }
  }

  /** The loop of build over a node's previous edges: the earliest time the train can arrive there. */
  method EarliestArrival(edges: seq<Edge>, md: seq<int>, tc: seq<TimeConstraint>, node: int) returns (arrival: int)
    requires Sized(edges, md, tc)
    ensures arrival == NeighbourBound(EarliestIncoming, edges, md, tc, {}, node)
  {
    var prevs := Previous(edges, node);
    arrival := TMAX;
    var k := 0;
    while k < |prevs|
      invariant 0 <= k <= |prevs|
      invariant arrival == Fold(EarliestIncoming, md, tc, {}, prevs[..k])
    {
      assert prevs[..k + 1][..k] == prevs[..k];
      arrival := Min(arrival, tc[prevs[k]].entryEarliest + md[prevs[k]]);
      k := k + 1;
    }
    assert prevs[..k] == prevs;
  }

  /**
   * The builder of GraphConstraints: the requirements by marker and the
   * windows are fields it fills in; every edge has a window from the
   * start, [0, TMAX] until something raises it.
   */
  class Builder {
    const edges: seq<Edge>
    const sortedNodes: seq<int>
    const sortedEdges: seq<nat>
    const minDurations: seq<int>
    const sectionRequirements: seq<SectionRequirement>

    var requirements: map<string, SectionRequirement>
    var timeConstraints: seq<TimeConstraint>

    constructor (edges: seq<Edge>, sortedNodes: seq<int>, sortedEdges: seq<nat>, minDurations: seq<int>,
                 sectionRequirements: seq<SectionRequirement>)
      ensures this.edges == edges && this.sortedNodes == sortedNodes && this.sortedEdges == sortedEdges
      ensures this.minDurations == minDurations && this.sectionRequirements == sectionRequirements
      ensures requirements == map[] && timeConstraints == InitialWindows(|edges|)
    {
      this.edges := edges;
      this.sortedNodes := sortedNodes;
      this.sortedEdges := sortedEdges;
      this.minDurations := minDurations;
      this.sectionRequirements := sectionRequirements;
      requirements := map[];
      timeConstraints := InitialWindows(|edges|);
    }

    /** The requirements loop of build: each put under its marker; a delay weight other than 0 or 1 fails the build. */
    method CollectRequirements() returns (ok: bool)
      modifies this
      requires requirements == map[]
      ensures timeConstraints == old(timeConstraints)
      ensures ok <==> DelayWeightsValid(sectionRequirements)
      ensures ok ==> requirements == RequirementMap(sectionRequirements)
    {
      var reqs := sectionRequirements;
      var i := 0;
      while i < |reqs|
        invariant 0 <= i <= |reqs| && timeConstraints == old(timeConstraints)
        invariant requirements == RequirementMap(reqs[..i])
        invariant forall j :: 0 <= j < i ==>
          DelayWeightValid(reqs[j].entryDelayWeight) && DelayWeightValid(reqs[j].exitDelayWeight)
      {
        var r := reqs[i];
        assert reqs[..i + 1][..i] == reqs[..i];
        requirements := requirements[r.sectionMarker := r];
        if !DelayWeightValid(r.entryDelayWeight) || !DelayWeightValid(r.exitDelayWeight) {
          return false;
        }
        i := i + 1;
      }
      assert reqs[..i] == reqs;
      ok := true;
    }

    /** The loop of build over the edges: the requirement pass. */
    method ApplyRequirements() returns (ok: bool, latest: map<int, int>)
      modifies this
      requires timeConstraints == InitialWindows(|edges|)
      ensures requirements == old(requirements)
      ensures ok <==> RequirementPhase(edges, requirements, |edges|).Some?
      ensures ok ==> RequirementPhase(edges, requirements, |edges|) == Some(Bounds(timeConstraints, latest))
    {
      latest := map[];
      var i := 0;
      while i < |edges|
        invariant 0 <= i <= |edges| && requirements == old(requirements)
        invariant RequirementPhase(edges, requirements, i) == Some(Bounds(timeConstraints, latest))
      {
        var b;
        ok, b := ApplyEdge(i, Bounds(timeConstraints, latest));
        if !ok {
          PhaseStaysFailed(edges, requirements, i + 1, |edges|);
          return;
        }
        timeConstraints, latest := b.windows, b.latestAllowed;
        i := i + 1;
      }
      ok := true;
    }

    /** The body of the edge loop for edge e. */
    method ApplyEdge(e: nat, b: Bounds) returns (ok: bool, b': Bounds)
      requires e < |edges| && |b.windows| == |edges|
      ensures ok <==> EdgeStep(edges, RequirementOf(edges[e], requirements), e, b).Some?
      ensures ok ==> EdgeStep(edges, RequirementOf(edges[e], requirements), e, b) == Some(b')
    {
      var edge := edges[e];
      var r := RequirementOf(edge, requirements);
      var tc, latest := b.windows, b.latestAllowed;
      if r.entryEarliest != "" {
        var t := ParseTime(r.entryEarliest);
        if t.None? {
          return false, b;
        }
        tc := tc[e := tc[e].WithEntryEarliest(t.value)];
      }
      if r.exitEarliest != "" {
        var t := ParseTime(r.exitEarliest);
        if t.None? {
          return false, b;
        }
        tc := RaiseEntries(tc, Next(edges, edge.end), t.value);
      }
      if r.entryLatest != "" {
        var t := ParseTime(r.entryLatest);
        if t.None? {
          return false, b;
        }
        latest := latest[edge.start := t.value];
      }
      if r.exitLatest != "" {
        var t := ParseTime(r.exitLatest);
        if t.None? {
          return false, b;
        }
        latest := latest[edge.end := t.value];
      }
      return true, Bounds(tc, latest);
    }

    /**
     * The earliest-times loop of build: in topological order, every node
     * but the source raises the entry bound of its next edges to the
     * earliest arrival over its previous edges.
     */
    method EarliestTimes()
      modifies this
      requires Sized(edges, minDurations, timeConstraints) && NodesSorted(edges, sortedNodes) && DistinctNodes(sortedNodes)
      ensures requirements == old(requirements) && |timeConstraints| == |edges|
      ensures ArrivalsApplied(edges, minDurations, old(timeConstraints), timeConstraints)
    {
      ghost var tc0 := timeConstraints;
      var i := 0;
      while i < |sortedNodes|
        invariant 0 <= i <= |sortedNodes| && |timeConstraints| == |edges| && requirements == old(requirements)
        invariant ArrivalsUpTo(edges, minDurations, sortedNodes, tc0, timeConstraints, i)
      {
        var node := sortedNodes[i];
        ghost var tc := timeConstraints;
        if Previous(edges, node) != [] {
          var arrival := EarliestArrival(edges, minDurations, timeConstraints, node);
          timeConstraints := RaiseEntries(timeConstraints, Next(edges, node), arrival);
        }
        ArrivalStep(edges, minDurations, sortedNodes, tc0, tc, timeConstraints, i);
        i := i + 1;
      }
      forall e | 0 <= e < |edges|
        ensures timeConstraints[e] == ArrivalWindow(edges, minDurations, tc0, timeConstraints, e)
      {
        assert Pos(sortedNodes, edges[e].start) < i;
      }
    }

    /**
     * build: the requirements, the requirement pass and the earliest
     * times, then a GraphConstraints with no infeasible edge, no penalty
     * time sets, an unbounded budget, minimum penalty 0 and the given
     * path penalty computation.  Fails where
     * the source throws: a delay weight other than 0 or 1, or a time that
     * does not parse.
     */
    method Build(weights: map<int, real>, pathPenalty: PathPenalty) returns (gc: Option<GraphConstraints>)
      modifies this
      requires requirements == map[] && timeConstraints == InitialWindows(|edges|)
      requires |minDurations| == |edges| && NodesSorted(edges, sortedNodes) && DistinctNodes(sortedNodes)
      requires EdgesListed(edges, sortedEdges)
      ensures gc.None? <==>
        !DelayWeightsValid(sectionRequirements) ||
        RequirementPhase(edges, RequirementMap(sectionRequirements), |edges|).None?
      ensures gc.Some? ==>
        var phase := RequirementPhase(edges, RequirementMap(sectionRequirements), |edges|).value;
        var c := gc.value;
        fresh(c) && c.Valid() && !c.dirty && c.edges == edges && c.sortedNodes == sortedNodes &&
        c.minDurations == minDurations && c.weights == weights &&
        ArrivalsApplied(edges, minDurations, phase.windows, c.timeConstraints) &&
        c.latestAllowedTimes == phase.latestAllowed &&
        c.infeasibleEdges == {} && c.penaltyTimeSets == map[] && c.maxPenalty == Inf && c.minPenalty == Fin(0.0) &&
        c.pathPenalty == pathPenalty
    {
      var ok := CollectRequirements();
      if !ok {
        return None;
      }
      var latest;
      ok, latest := ApplyRequirements();
      if !ok {
        return None;
      }
      ghost var phaseWindows := timeConstraints;
      EarliestTimes();
      var c := new GraphConstraints.Init(edges, sortedNodes, sortedEdges, minDurations, latest, weights,
                                         timeConstraints, {}, map[], Inf, Fin(0.0), pathPenalty);
      gc := Some(c);
    }
  }

  /**
   * The windows build hands over: every exit bound TMAX, every entry
   * bound 0 or more, each requirement's earliest entry and exit met,
   * and every edge not leaving the source entering no earlier than the
   * earliest arrival at its start.
   */
  lemma BuiltWindows(edges: seq<Edge>, md: seq<int>, byMarker: map<string, SectionRequirement>, tc: seq<TimeConstraint>)
    requires Sized(edges, md, tc) && RequirementPhase(edges, byMarker, |edges|).Some?
    requires ArrivalsApplied(edges, md, RequirementPhase(edges, byMarker, |edges|).value.windows, tc)
    ensures Tighter(tc, InitialWindows(|edges|))
    ensures forall e :: 0 <= e < |edges| ==> tc[e].exitLatest == TMAX
    ensures forall j :: 0 <= j < |edges| ==> EntryRequirementMet(edges, byMarker, tc, j)
    ensures forall e :: 0 <= e < |edges| && Previous(edges, edges[e].start) != [] ==>
      tc[e].entryEarliest >= NeighbourBound(EarliestIncoming, edges, md, tc, {}, edges[e].start)
  {
    var w := RequirementPhase(edges, byMarker, |edges|).value.windows;
    PhaseWindows(edges, byMarker, |edges|);
    PhaseRespects(edges, byMarker, |edges|);
    assert Tighter(tc, w) by {
      forall e | 0 <= e < |edges|
        ensures Within(tc[e], w[e])
      {
        assert tc[e] == ArrivalWindow(edges, md, w, tc, e);
      }
    }
    forall j | 0 <= j < |edges|
      ensures EntryRequirementMet(edges, byMarker, tc, j)
    {
      assert EntryRequirementMet(edges, byMarker, w, j);
      RequirementTightened(edges, RequirementOf(edges[j], byMarker), w, tc, j);
    }
    forall e | 0 <= e < |edges|
      ensures tc[e].exitLatest == TMAX && Within(tc[e], InitialWindows(|edges|)[e])
    {
      assert Within(tc[e], w[e]) && Within(w[e], InitialWindows(|edges|)[e]);
    }
    forall e | 0 <= e < |edges| && Previous(edges, edges[e].start) != []
      ensures tc[e].entryEarliest >= NeighbourBound(EarliestIncoming, edges, md, tc, {}, edges[e].start)
    {
      assert tc[e] == ArrivalWindow(edges, md, w, tc, e);
    }
  }
}
