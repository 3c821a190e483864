/**
 * The route graph of one service intention (RouteGraph.java).  Route
 * paths are chains of sections; sections meet at nodes named by route
 * alternative markers, and a synthetic source and sink close the graph.
 *
 * Nodes are ids: -1 for the source, -2 for the sink, 0, 1, 2, ... for the
 * rest.  Edges are Java objects compared by identity, so an edge is its
 * index in the graph's edge list.  A node's next and previous lists are
 * the edges leaving and entering it in creation order (Next, Previous).
 * The topological orders come from a sorting library that is not part of
 * this model: they are inputs, checked against the edges.
 */
module RouteGraphs {
  import opened Common
  import opened Paths
  import opened RouteGroups
  import opened GapFilling

  const SOURCE: int := -1
  const SINK: int := -2

  /** The parts of a route section the solver reads. */
  datatype Section = Section(
    entryMarker: string,
    exitMarker: string,
    sectionMarkers: seq<string>,
    penalty: real,
    minimumRunningTime: int,
    resources: seq<string>)

  /** RouteSection.getDefaultInstance(): what source and sink edges carry. */
  const DefaultSection: Section := Section("", "", [], 0.0, 0, [])

  datatype Edge = Edge(start: int, end: int, section: Section)

  /** Node.getNext: the edges leaving n, in creation order. */
  function Next(edges: seq<Edge>, n: int): (r: seq<nat>)
    ensures forall k :: 0 <= k < |r| ==> r[k] < |edges| && edges[r[k]].start == n
  {
    if edges == [] then []
    else Next(edges[..|edges| - 1], n) + (if edges[|edges| - 1].start == n then [|edges| - 1] else [])
  }

  /** Node.getPrevious: the edges entering n, in creation order. */
  function Previous(edges: seq<Edge>, n: int): (r: seq<nat>)
    ensures forall k :: 0 <= k < |r| ==> r[k] < |edges| && edges[r[k]].end == n
  {
    if edges == [] then []
    else Previous(edges[..|edges| - 1], n) + (if edges[|edges| - 1].end == n then [|edges| - 1] else [])
  }

  /** Node.getNext lists every edge leaving n, once, in creation order. */
  lemma {:induction false} NextComplete(edges: seq<Edge>, n: int)
    ensures forall i :: 0 <= i < |edges| && edges[i].start == n ==> i in Next(edges, n)
    ensures forall j, k :: 0 <= j < k < |Next(edges, n)| ==> Next(edges, n)[j] < Next(edges, n)[k]
    decreases |edges|
  {
    if edges != [] {
      NextComplete(edges[..|edges| - 1], n);
    }
  }

  /** Node.getPrevious lists every edge entering n, once, in creation order. */
  lemma {:induction false} PreviousComplete(edges: seq<Edge>, n: int)
    ensures forall i :: 0 <= i < |edges| && edges[i].end == n ==> i in Previous(edges, n)
    ensures forall j, k :: 0 <= j < k < |Previous(edges, n)| ==> Previous(edges, n)[j] < Previous(edges, n)[k]
    decreases |edges|
  {
    if edges != [] {
      PreviousComplete(edges[..|edges| - 1], n);
    }
  }

  /**
   * createEdge keeps adjacency symmetric: a new edge is appended to its
   * start node's next list and its end node's previous list, and every
   * other list stays as it was.
   */
  lemma {:induction false} AppendEdgeAdjacency(edges: seq<Edge>, e: Edge, n: int)
    ensures Next(edges + [e], n) == Next(edges, n) + (if e.start == n then [|edges|] else [])
    ensures Previous(edges + [e], n) == Previous(edges, n) + (if e.end == n then [|edges|] else [])
  {
    assert (edges + [e])[..|edges|] == edges;
  }

  /** getMarker: the first section marker, if the section has one. */
  function Marker(e: Edge): Option<string>
  {
    if |e.section.sectionMarkers| == 0 then None else Some(e.section.sectionMarkers[0])
  }

  /** The position of n in a list that holds it. */
  function Pos(s: seq<int>, n: int): (r: nat)
    requires n in s
    ensures r < |s| && s[r] == n
  {
    if s[0] == n then 0 else 1 + Pos(s[1..], n)
  }

  /** The node order from the sorting library puts every edge's start before its end. */
  predicate NodesSorted(edges: seq<Edge>, sortedNodes: seq<int>)
  {
    forall i :: 0 <= i < |edges| ==>
      edges[i].start in sortedNodes && edges[i].end in sortedNodes &&
      Pos(sortedNodes, edges[i].start) < Pos(sortedNodes, edges[i].end)
  }

  /** The edge order lists every edge and nothing else. */
  predicate EdgesListed(edges: seq<Edge>, sortedEdges: seq<nat>)
  {
    (forall k :: 0 <= k < |sortedEdges| ==> sortedEdges[k] < |edges|) &&
    (forall i :: 0 <= i < |edges| ==> i in sortedEdges)
  }

  datatype RouteGraph = RouteGraph(
    id: string,
    edges: seq<Edge>,
    sortedNodes: seq<int>,
    sortedEdges: seq<nat>,
    edgesByMarker: map<string, set<nat>>,
    occupations: seq<set<string>>)
  {
    ghost predicate Valid()
    {
      NodesSorted(edges, sortedNodes) && EdgesListed(edges, sortedEdges) &&
      |occupations| == |edges| &&
      MarkerIndexed(edges, edgesByMarker)
    }

    /** Node.isSource: no previous edges. */
    predicate IsSource(n: int)
    {
      Previous(edges, n) == []
    }

    /** Node.isSink: no next edges. */
    predicate IsSink(n: int)
    {
      Next(edges, n) == []
    }

    /** getEdgeResourceOccupations */
    function ResourcesOf(e: nat): set<string>
      requires e < |occupations|
    {
      occupations[e]
    }
  }

  /** The marker index lists an edge exactly under its first section marker. */
  predicate MarkerIndexed(edges: seq<Edge>, index: map<string, set<nat>>)
  {
    (forall m :: m in index ==> forall i :: i in index[m] ==> i < |edges| && Marker(edges[i]) == Some(m)) &&
    (forall i :: 0 <= i < |edges| && Marker(edges[i]).Some? ==>
      Marker(edges[i]).value in index && i in index[Marker(edges[i]).value])
  }

  /**
   * indexEdgesByMarker: each edge with a marker goes into the multimap
   * under its first marker; edges without one are not indexed.
   */
  method IndexEdgesByMarker(edges: seq<Edge>) returns (index: map<string, set<nat>>)
    ensures MarkerIndexed(edges, index)
  {
    index := map[];
    var i := 0;
    while i < |edges|
      invariant 0 <= i <= |edges|
      invariant forall m :: m in index ==> forall j :: j in index[m] ==> j < i && Marker(edges[j]) == Some(m)
      invariant forall j :: 0 <= j < i && Marker(edges[j]).Some? ==>
        Marker(edges[j]).value in index && j in index[Marker(edges[j]).value]
    {
      var marker := Marker(edges[i]);
      if marker.Some? {
        var old_ := if marker.value in index then index[marker.value] else {};
        index := index[marker.value := old_ + {i}];
      }
      i := i + 1;
    }
  }

  /** The edges are a chain: each starts where the previous one ended. */
  predicate IsChain(edges: seq<Edge>, p: seq<nat>)
  {
    |p| > 0 &&
    (forall k :: 0 <= k < |p| ==> p[k] < |edges|) &&
    (forall j, k {:trigger p[j], p[k]} :: 0 <= j < |p| && 0 <= k < |p| && k == j + 1 ==> edges[p[j]].end == edges[p[k]].start)
  }

  /** A source-to-sink path. */
  predicate IsCompletePath(edges: seq<Edge>, p: seq<nat>)
  {
    IsChain(edges, p) && edges[p[0]].start == SOURCE && edges[p[|p| - 1]].end == SINK
  }

  /** The summed section penalties of the given edges (indices outside the list count 0). */
  function PenaltySum(edges: seq<Edge>, p: seq<nat>): real
  {
    if p == [] then 0.0
    else (if p[0] < |edges| then edges[p[0]].section.penalty else 0.0) + PenaltySum(edges, p[1..])
  }

  /** The section penalties of q's edges from position from up to position j. */
  function RunningPenalty(edges: seq<Edge>, q: seq<nat>, from: nat, j: nat): real
    requires from <= j <= |q|
  {
    PenaltySum(edges, q[from..j])
  }

  /** Splitting off the first edge of a running penalty. */
  lemma RunningStep(edges: seq<Edge>, q: seq<nat>, from: nat, j: nat)
    requires from < j <= |q| && q[from] < |edges|
    ensures RunningPenalty(edges, q, from, j) == edges[q[from]].section.penalty + RunningPenalty(edges, q, from + 1, j)
  {
    assert q[from..j][0] == q[from];
    assert q[from..j][1..] == q[from + 1..j];
  }

  /**
   * q is one of the paths the recursion emits from prefix with the given
   * running penalty: a chain that continues prefix, reaches the sink with
   * its last edge and not before, and whose running penalty stays within
   * maxPenalty after every edge it adds to prefix.
   */
  ghost predicate Emitted(edges: seq<Edge>, q: seq<nat>, prefix: seq<nat>, penalty: real, maxPenalty: Penalty)
  {
    IsChain(edges, q) && |q| >= |prefix| && q[..|prefix|] == prefix &&
    edges[q[|q| - 1]].end == SINK &&
    (forall j :: 0 <= j < |q| - 1 ==> edges[q[j]].end != SINK) &&
    (forall j :: |prefix| < j <= |q| ==> Fin(penalty + RunningPenalty(edges, q, |prefix|, j)).AtMost(maxPenalty))
  }

  /** A prefix ending at the sink emits itself and nothing else. */
  lemma EmittedAtSink(edges: seq<Edge>, q: seq<nat>, prefix: seq<nat>, penalty: real, maxPenalty: Penalty)
    requires IsChain(edges, prefix) && edges[prefix[|prefix| - 1]].end == SINK
    requires forall j :: 0 <= j < |prefix| - 1 ==> edges[prefix[j]].end != SINK
    ensures Emitted(edges, prefix, prefix, penalty, maxPenalty)
    ensures Emitted(edges, q, prefix, penalty, maxPenalty) ==> q == prefix
  {
    assert prefix[..|prefix|] == prefix;
    if Emitted(edges, q, prefix, penalty, maxPenalty) && |q| > |prefix| {
      assert false;
    }
  }

  /** What a path found through one next edge emits, prefix emits too, with the same total penalty. */
  lemma ExtendedPath(edges: seq<Edge>, q: seq<nat>, prefix: seq<nat>, next: nat, penalty: real, maxPenalty: Penalty)
    requires next < |edges|
    requires Fin(penalty + edges[next].section.penalty).AtMost(maxPenalty)
    requires Emitted(edges, q, prefix + [next], penalty + edges[next].section.penalty, maxPenalty)
    ensures Emitted(edges, q, prefix, penalty, maxPenalty)
    ensures penalty + edges[next].section.penalty + PenaltySum(edges, q[|prefix| + 1..]) ==
            penalty + PenaltySum(edges, q[|prefix|..])
  {
    var n := |prefix|;
    assert q[..n] == q[..n + 1][..n];
    assert q[n] == (prefix + [next])[n] == next;
    forall j | n < j <= |q|
      ensures Fin(penalty + RunningPenalty(edges, q, n, j)).AtMost(maxPenalty)
    {
      RunningStep(edges, q, n, j);
      if j == n + 1 {
        assert q[n + 1..j] == [];
      }
    }
    assert q[n..][0] == next && q[n..][1..] == q[n + 1..];
  }

  /**
   * Conversely a path prefix emits, when prefix does not end at the sink,
   * goes on through a next edge the recursion tries, within maxPenalty,
   * and the longer prefix emits it.
   */
  lemma EmittedThroughNext(edges: seq<Edge>, q: seq<nat>, prefix: seq<nat>, penalty: real, maxPenalty: Penalty)
    requires IsChain(edges, prefix) && edges[prefix[|prefix| - 1]].end != SINK
    requires Emitted(edges, q, prefix, penalty, maxPenalty)
    ensures |q| > |prefix|
    ensures q[|prefix|] in Next(edges, edges[prefix[|prefix| - 1]].end)
    ensures Fin(penalty + edges[q[|prefix|]].section.penalty).AtMost(maxPenalty)
    ensures Emitted(edges, q, prefix + [q[|prefix|]], penalty + edges[q[|prefix|]].section.penalty, maxPenalty)
  {
    var n := |prefix|;
    assert q[n - 1] == prefix[n - 1];
    var next := q[n];
    assert edges[q[n - 1]].end == edges[next].start;
    NextComplete(edges, edges[prefix[n - 1]].end);
    RunningStep(edges, q, n, n + 1);
    assert q[n + 1..n + 1] == [];
    assert q[..n + 1] == q[..n] + [next];
    var m := n + 1;
    forall j | m < j <= |q|
      ensures Fin(penalty + edges[next].section.penalty + RunningPenalty(edges, q, m, j)).AtMost(maxPenalty)
    {
      RunningStep(edges, q, n, j);
    }
  }

  /** In a sorted graph the nodes along a chain move strictly forward. */
  lemma {:induction false} ChainMovesForward(edges: seq<Edge>, sortedNodes: seq<int>, p: seq<nat>, j: nat, k: nat)
    requires NodesSorted(edges, sortedNodes) && IsChain(edges, p)
    requires j < k < |p|
    ensures Pos(sortedNodes, edges[p[j]].start) < Pos(sortedNodes, edges[p[k]].start)
    decreases k - j
  {
    assert edges[p[k - 1]].end == edges[p[k]].start;
    if j < k - 1 {
      ChainMovesForward(edges, sortedNodes, p, j, k - 1);
    }
  }

  /** So a chain never uses an edge twice. */
  lemma ChainDistinct(edges: seq<Edge>, sortedNodes: seq<int>, p: seq<nat>)
    requires NodesSorted(edges, sortedNodes) && IsChain(edges, p)
    ensures forall j, k :: 0 <= j < k < |p| ==> p[j] != p[k]
  {
    forall j, k | 0 <= j < k < |p|
      ensures p[j] != p[k]
    {
      ChainMovesForward(edges, sortedNodes, p, j, k);
    }
  }

  /** Some path from position from on in out has the edges q. */
  ghost predicate Lists(out: seq<Path>, from: nat, q: seq<nat>)
  {
    exists k :: from <= k < |out| && out[k].edges == q
  }

  /** Paths listed stay listed when more are appended. */
  lemma ListsGrow(before: seq<Path>, out: seq<Path>, from: nat, q: seq<nat>)
    requires |out| >= |before| && out[..|before|] == before && Lists(before, from, q)
    ensures Lists(out, from, q)
  {
    var k :| from <= k < |before| && before[k].edges == q;
    assert out[k] == before[k];
  }

  /** A path listed from a later position is listed from an earlier one. */
  lemma ListsFrom(out: seq<Path>, from: nat, later: nat, q: seq<nat>)
    requires from <= later && Lists(out, later, q)
    ensures Lists(out, from, q)
  {
  }

  /** Every path from position from on in out is numbered by its position and emitted from prefix. */
  ghost predicate EmitsAll(edges: seq<Edge>, out: seq<Path>, from: nat, prefix: seq<nat>, penalty: real, maxPenalty: Penalty)
  {
    forall k :: from <= k < |out| ==>
      out[k].id == k && Emitted(edges, out[k].edges, prefix, penalty, maxPenalty) &&
      out[k].penalty == penalty + PenaltySum(edges, out[k].edges[|prefix|..])
  }

  /** The paths a longer prefix emits, within maxPenalty, the shorter prefix emits too. */
  lemma EmitsAllExtended(edges: seq<Edge>, out: seq<Path>, from: nat, prefix: seq<nat>, next: nat, path: seq<nat>,
                         penalty: real, newPenalty: real, maxPenalty: Penalty)
    requires next < |edges| && path == prefix + [next] && newPenalty == penalty + edges[next].section.penalty
    requires Fin(newPenalty).AtMost(maxPenalty)
    requires EmitsAll(edges, out, from, path, newPenalty, maxPenalty)
    ensures EmitsAll(edges, out, from, prefix, penalty, maxPenalty)
  {
    forall k | from <= k < |out|
      ensures Emitted(edges, out[k].edges, prefix, penalty, maxPenalty)
      ensures out[k].penalty == penalty + PenaltySum(edges, out[k].edges[|prefix|..])
    {
      ExtendedPath(edges, out[k].edges, prefix, next, penalty, maxPenalty);
    }
  }

  /** Two emitted runs of paths, one after the other, form one. */
  lemma EmitsAllJoin(edges: seq<Edge>, before: seq<Path>, out: seq<Path>, from: nat, prefix: seq<nat>,
                     penalty: real, maxPenalty: Penalty)
    requires |out| >= |before| && out[..|before|] == before
    requires EmitsAll(edges, before, from, prefix, penalty, maxPenalty)
    requires EmitsAll(edges, out, |before|, prefix, penalty, maxPenalty)
    ensures EmitsAll(edges, out, from, prefix, penalty, maxPenalty)
  {
    forall k | from <= k < |before|
      ensures out[k] == before[k]
    {
    }
  }

  /** A prefix grown by a next edge is still a chain that reaches the sink at most with its last edge. */
  lemma PrefixGrows(edges: seq<Edge>, prefix: seq<nat>, next: nat, path: seq<nat>)
    requires IsChain(edges, prefix) && edges[prefix[|prefix| - 1]].end != SINK
    requires forall j :: 0 <= j < |prefix| - 1 ==> edges[prefix[j]].end != SINK
    requires next < |edges| && edges[next].start == edges[prefix[|prefix| - 1]].end && path == prefix + [next]
    ensures IsChain(edges, path) && path[|path| - 1] == next
    ensures forall j :: 0 <= j < |path| - 1 ==> edges[path[j]].end != SINK
  {
  }

  /**
   * The loop step of the recursion: the paths through the next edges
   * tried so far stay listed, and the paths through the next edge just
   * tried are listed when its penalty is within maxPenalty, as the
   * recursive call lists them; beyond maxPenalty there are none.
   */
  lemma ListedThroughNexts(edges: seq<Edge>, prefix: seq<nat>, penalty: real, maxPenalty: Penalty,
                           nexts: seq<nat>, i: nat, next: nat, path: seq<nat>, newPenalty: real,
                           result: seq<Path>, before: seq<Path>, out: seq<Path>)
    requires IsChain(edges, prefix) && edges[prefix[|prefix| - 1]].end != SINK
    requires i < |nexts| && next == nexts[i] && next < |edges|
    requires path == prefix + [next] && newPenalty == penalty + edges[next].section.penalty
    requires |before| >= |result| && |out| >= |before| && out[..|before|] == before
    requires forall q :: Emitted(edges, q, prefix, penalty, maxPenalty) && |q| > |prefix| && q[|prefix|] in nexts[..i] ==>
      Lists(before, |result|, q)
    requires Fin(newPenalty).AtMost(maxPenalty) ==>
      forall q :: Emitted(edges, q, path, newPenalty, maxPenalty) ==> Lists(out, |before|, q)
    ensures forall q :: Emitted(edges, q, prefix, penalty, maxPenalty) && |q| > |prefix| && q[|prefix|] in nexts[..i + 1] ==>
      Lists(out, |result|, q)
  {
    forall q | Emitted(edges, q, prefix, penalty, maxPenalty) && |q| > |prefix| && q[|prefix|] in nexts[..i + 1]
      ensures Lists(out, |result|, q)
    {
      if q[|prefix|] in nexts[..i] {
        ListsGrow(before, out, |result|, q);
      } else {
        assert q[|prefix|] == next;
        EmittedThroughNext(edges, q, prefix, penalty, maxPenalty);
        ListsFrom(out, |result|, |before|, q);
      }
    }
  }

  /**
   * The recursive half of generatePaths: prefix ends with edge e.  A
   * prefix reaching the sink becomes a path numbered by its position in
   * the result; otherwise each next edge is tried in order, unless the
   * running penalty would exceed maxPenalty.  The new paths are exactly
   * the ones prefix emits.
   */
  method GeneratePathsFrom(g: RouteGraph, e: nat, prefix: seq<nat>, result: seq<Path>, penalty: real, maxPenalty: Penalty)
    returns (out: seq<Path>)
    requires NodesSorted(g.edges, g.sortedNodes)
    requires IsChain(g.edges, prefix) && prefix[|prefix| - 1] == e
    requires forall j :: 0 <= j < |prefix| - 1 ==> g.edges[prefix[j]].end != SINK
    ensures |out| >= |result| && out[..|result|] == result
    ensures EmitsAll(g.edges, out, |result|, prefix, penalty, maxPenalty)
    ensures forall q :: Emitted(g.edges, q, prefix, penalty, maxPenalty) ==>
      Lists(out, |result|, q)
    decreases |g.sortedNodes| - Pos(g.sortedNodes, g.edges[e].end), 1
  {
    if g.edges[e].end == SINK {
      var path := new Path(|result|, prefix, penalty);
      out := result + [path];
      assert prefix[|prefix|..] == [];
      forall q | Emitted(g.edges, q, prefix, penalty, maxPenalty)
        ensures out[|result|].edges == q
      {
        EmittedAtSink(g.edges, q, prefix, penalty, maxPenalty);
      }
      EmittedAtSink(g.edges, prefix, prefix, penalty, maxPenalty);
      return;
    }
    out := GenerateThroughNexts(g, e, prefix, result, penalty, maxPenalty);
  }

  /** The loop of the recursive half: each next edge in order, unless the running penalty would exceed maxPenalty. */
  method GenerateThroughNexts(g: RouteGraph, e: nat, prefix: seq<nat>, result: seq<Path>, penalty: real, maxPenalty: Penalty)
    returns (out: seq<Path>)
    requires NodesSorted(g.edges, g.sortedNodes)
    requires IsChain(g.edges, prefix) && prefix[|prefix| - 1] == e && g.edges[e].end != SINK
    requires forall j :: 0 <= j < |prefix| - 1 ==> g.edges[prefix[j]].end != SINK
    ensures |out| >= |result| && out[..|result|] == result
    ensures EmitsAll(g.edges, out, |result|, prefix, penalty, maxPenalty)
    ensures forall q :: Emitted(g.edges, q, prefix, penalty, maxPenalty) ==>
      Lists(out, |result|, q)
    decreases |g.sortedNodes| - Pos(g.sortedNodes, g.edges[e].end), 0
  {
    out := result;
    var nexts := Next(g.edges, g.edges[e].end);
    var i := 0;
    while i < |nexts|
      invariant 0 <= i <= |nexts|
      invariant |out| >= |result| && out[..|result|] == result
      invariant EmitsAll(g.edges, out, |result|, prefix, penalty, maxPenalty)
      invariant forall q :: Emitted(g.edges, q, prefix, penalty, maxPenalty) && |q| > |prefix| && q[|prefix|] in nexts[..i] ==>
        Lists(out, |result|, q)
    {
      var next := nexts[i];
      var path := prefix + [next];
      var newPenalty := penalty + g.edges[next].section.penalty;
      ghost var before := out;
      if Fin(newPenalty).AtMost(maxPenalty) {
        PrefixGrows(g.edges, prefix, next, path);
        out := GeneratePathsFrom(g, next, path, out, newPenalty, maxPenalty);
        EmitsAllExtended(g.edges, out, |before|, prefix, next, path, penalty, newPenalty, maxPenalty);
        EmitsAllJoin(g.edges, before, out, |result|, prefix, penalty, maxPenalty);
      }
      ListedThroughNexts(g.edges, prefix, penalty, maxPenalty, nexts, i, next, path, newPenalty, result, before, out);
      i := i + 1;
    }
    forall q | Emitted(g.edges, q, prefix, penalty, maxPenalty)
      ensures Lists(out, |result|, q)
    {
      EmittedThroughNext(g.edges, q, prefix, penalty, maxPenalty);
      assert nexts[..i] == nexts;
    }
  }

  /**
   * The complete paths generatePaths lists: a source-to-sink chain that
   * reaches the sink only with its last edge and whose running penalty
   * stays within maxPenalty after each edge past the source edge.
   */
  ghost predicate Generated(edges: seq<Edge>, q: seq<nat>, maxPenalty: Penalty)
  {
    IsCompletePath(edges, q) && Emitted(edges, q, [q[0]], 0.0, maxPenalty)
  }

  /** A path emitted from a single source edge is a complete path that generatePaths lists. */
  lemma StartedAtSource(edges: seq<Edge>, q: seq<nat>, first: nat, maxPenalty: Penalty)
    requires first < |edges| && edges[first].start == SOURCE
    requires Emitted(edges, q, [first], 0.0, maxPenalty)
    ensures Generated(edges, q, maxPenalty)
  {
    assert q[0] == q[..1][0];
  }

  /** Every path from position from on is numbered by its position, listed by generatePaths and carries its summed penalty. */
  ghost predicate GeneratesAll(edges: seq<Edge>, paths: seq<Path>, from: nat, maxPenalty: Penalty)
  {
    forall k :: from <= k < |paths| ==>
      paths[k].id == k && Generated(edges, paths[k].edges, maxPenalty) &&
      paths[k].penalty == PenaltySum(edges, paths[k].edges[1..])
  }

  /** The loop step of generatePaths: the paths emitted from one source edge join those found before. */
  lemma GeneratedFromStart(edges: seq<Edge>, before: seq<Path>, out: seq<Path>, first: nat, maxPenalty: Penalty)
    requires first < |edges| && edges[first].start == SOURCE
    requires |out| >= |before| && out[..|before|] == before
    requires GeneratesAll(edges, before, 0, maxPenalty)
    requires EmitsAll(edges, out, |before|, [first], 0.0, maxPenalty)
    ensures GeneratesAll(edges, out, 0, maxPenalty)
  {
    forall k | 0 <= k < |out|
      ensures out[k].id == k && Generated(edges, out[k].edges, maxPenalty)
      ensures out[k].penalty == PenaltySum(edges, out[k].edges[1..])
    {
      if k < |before| {
        assert out[k] == before[k];
      } else {
        StartedAtSource(edges, out[k].edges, first, maxPenalty);
      }
    }
  }

  /** The loop step of generatePaths: the paths through the source edges tried so far are listed. */
  lemma ListedThroughStarts(edges: seq<Edge>, maxPenalty: Penalty, starts: seq<nat>, i: nat,
                            before: seq<Path>, out: seq<Path>)
    requires i < |starts| && |out| >= |before| && out[..|before|] == before
    requires forall q :: Generated(edges, q, maxPenalty) && q[0] in starts[..i] ==> Lists(before, 0, q)
    requires forall q :: Emitted(edges, q, [starts[i]], 0.0, maxPenalty) ==> Lists(out, |before|, q)
    ensures forall q :: Generated(edges, q, maxPenalty) && q[0] in starts[..i + 1] ==> Lists(out, 0, q)
  {
    forall q | Generated(edges, q, maxPenalty) && q[0] in starts[..i + 1]
      ensures Lists(out, 0, q)
    {
      if q[0] in starts[..i] {
        ListsGrow(before, out, 0, q);
      } else {
        assert q[0] == starts[i];
        ListsFrom(out, 0, |before|, q);
      }
    }
  }

  /**
   * generatePaths: every source-to-sink path whose running penalty stays
   * within maxPenalty, numbered 0, 1, 2, ... in discovery order.  The
   * group's constructor refuses an empty collection, so no path at all is
   * a failure.
   */
  method GeneratePaths(g: RouteGraph, intention: string, boost: real, maxPenalty: Penalty)
    returns (paths: seq<Path>, group: Option<RouteGroup>)
    requires NodesSorted(g.edges, g.sortedNodes)
    ensures GeneratesAll(g.edges, paths, 0, maxPenalty)
    ensures forall q :: Generated(g.edges, q, maxPenalty) ==> Lists(paths, 0, q)
    ensures forall j, k :: 0 <= j < k < |paths| ==> paths[j] != paths[k]
    ensures group.Some? <==> |paths| > 0
    ensures group.Some? ==> fresh(group.value) && group.value.Valid()
    ensures group.Some? ==> group.value.paths == (set p | p in paths) && group.value.intention == intention
  {
    paths := [];
    var starts := Next(g.edges, SOURCE);
    var i := 0;
    while i < |starts|
      invariant 0 <= i <= |starts|
      invariant GeneratesAll(g.edges, paths, 0, maxPenalty)
      invariant forall q :: Generated(g.edges, q, maxPenalty) && q[0] in starts[..i] ==> Lists(paths, 0, q)
    {
      var edgeToStart := starts[i];
      ghost var before := paths;
      paths := GeneratePathsFrom(g, edgeToStart, [edgeToStart], paths, 0.0, maxPenalty);
      GeneratedFromStart(g.edges, before, paths, edgeToStart, maxPenalty);
      ListedThroughStarts(g.edges, maxPenalty, starts, i, before, paths);
      i := i + 1;
    }
    forall q | Generated(g.edges, q, maxPenalty)
      ensures Lists(paths, 0, q)
    {
      NextComplete(g.edges, SOURCE);
      assert starts[..i] == starts;
    }
    if |paths| == 0 {
      return paths, None;
    }
    var rg := new RouteGroup(intention, boost, paths);
    group := Some(rg);
  }

  /**
   * A graph with a source-to-sink path has one that generatePaths lists
   * without a penalty bound: the path up to its first edge into the sink.
   */
  lemma FirstToSink(edges: seq<Edge>, q: seq<nat>) returns (r: seq<nat>)
    requires IsCompletePath(edges, q)
    ensures Generated(edges, r, Inf)
  {
    var j := 0;
    while edges[q[j]].end != SINK
      invariant j < |q|
      invariant forall i :: 0 <= i < j ==> edges[q[i]].end != SINK
      decreases |q| - j
    {
      j := j + 1;
    }
    r := q[..j + 1];
    assert r[..1] == [r[0]];
    assert forall i :: 0 <= i < |r| ==> r[i] == q[i];
  }

  /** The resources a section names, as a set. */
  function SectionSet(e: Edge): set<string>
  {
    set r | r in e.section.resources
  }

  /** The occupation map before gap filling: each edge holds what its section names. */
  function SectionSets(edges: seq<Edge>): (occ: seq<set<string>>)
    ensures |occ| == |edges|
  {
    seq(|edges|, i requires 0 <= i < |edges| => SectionSet(edges[i]))
  }

  /** The first loop of createResourceOccpationMap. */
  method SectionResources(edges: seq<Edge>) returns (occ: seq<set<string>>)
    ensures occ == SectionSets(edges)
  {
    occ := [];
    var i := 0;
    while i < |edges|
      invariant 0 <= i <= |edges|
      invariant occ == SectionSets(edges)[..i]
    {
      occ := occ + [set r | r in edges[i].section.resources];
      i := i + 1;
    }
  }

  /** Edge e lies on one of the paths. */
  ghost predicate OnSomePath(paths: set<Path>, e: nat)
  {
    exists q :: q in paths && e in q.edges
  }

  /** All the resources of an occupation map. */
  function Union(occ: seq<set<string>>): (u: set<string>)
    ensures forall e :: 0 <= e < |occ| ==> occ[e] <= u
  {
    set e, r | 0 <= e < |occ| && r in occ[e] :: r
  }

  lemma {:induction false} HeldWithin(occ: seq<set<string>>, p: seq<nat>, a: nat, b: nat, known: set<string>)
    requires a <= b <= |p| && OnEdges(p, |occ|)
    requires forall e :: 0 <= e < |occ| ==> occ[e] <= known
    ensures Held(occ, p, a, b) <= known
    decreases b
  {
    if a < b {
      HeldWithin(occ, p, a, b - 1, known);
    }
  }

  /** Filling one path keeps every edge between its section resources and the known resources. */
  lemma FillKeepsBounds(base: seq<set<string>>, before: seq<set<string>>, occ: seq<set<string>>, p: seq<nat>,
                        known: set<string>)
    requires OnEdges(p, |before|) && |occ| == |before| == |base|
    requires forall e :: 0 <= e < |before| ==> base[e] <= before[e] <= known
    requires forall j {:trigger occ[p[j]]} :: 0 <= j < |p| ==> occ[p[j]] == before[p[j]] + Bridged(before, p, j, |p|)
    requires forall e :: 0 <= e < |before| && e !in p ==> occ[e] == before[e]
    ensures forall e :: 0 <= e < |occ| ==> base[e] <= occ[e] <= known
  {
    forall e | 0 <= e < |occ|
      ensures base[e] <= occ[e] <= known
    {
      if e in p {
        var j :| 0 <= j < |p| && p[j] == e;
        assert occ[p[j]] == before[p[j]] + Bridged(before, p, j, |p|);
        HeldWithin(before, p, 0, j, known);
      }
    }
  }

  /** Every chain of the list runs over distinct edges of an occupation map of size n. */
  predicate FillableChains(chains: seq<seq<nat>>, n: nat)
  {
    forall k :: 0 <= k < |chains| ==> OnEdges(chains[k], n) && Distinct(chains[k])
  }

  /** The occupation map after filling the gaps along each chain in turn. */
  ghost function FillAll(base: seq<set<string>>, chains: seq<seq<nat>>): (occ: seq<set<string>>)
    requires FillableChains(chains, |base|)
    ensures |occ| == |base|
  {
    if chains == [] then base
    else Filled(FillAll(base, chains[..|chains| - 1]), chains[|chains| - 1])
  }

  /** order lists each path of taken exactly once, and nothing else. */
  ghost predicate Enumerates(order: seq<Path>, taken: set<Path>)
  {
    (forall k :: 0 <= k < |order| ==> order[k] in taken) &&
    (forall q :: q in taken ==> q in order) &&
    (forall j, k :: 0 <= j < k < |order| ==> order[j] != order[k])
  }

  lemma EnumeratesOneMore(order: seq<Path>, taken: set<Path>, path: Path)
    requires Enumerates(order, taken) && path !in taken
    ensures Enumerates(order + [path], taken + {path})
  {
  }

  /** One more path filled after the others: the fill of the longer list. */
  lemma FillAllStep(base: seq<set<string>>, taken: seq<Path>, path: Path, before: seq<set<string>>,
                    occ: seq<set<string>>)
    requires FillableChains(ChainsOf(taken), |base|) && before == FillAll(base, ChainsOf(taken))
    requires OnEdges(path.edges, |base|) && Distinct(path.edges) && occ == Filled(before, path.edges)
    ensures FillableChains(ChainsOf(taken + [path]), |base|) && occ == FillAll(base, ChainsOf(taken + [path]))
  {
    var longer := taken + [path];
    var chains := ChainsOf(longer);
    assert longer[..|taken|] == taken;
    assert chains == ChainsOf(taken) + [path.edges];
    assert chains[..|taken|] == ChainsOf(taken);
    forall k | 0 <= k < |chains|
      ensures OnEdges(chains[k], |base|) && Distinct(chains[k])
    {
      if k < |taken| {
        assert chains[k] == ChainsOf(taken)[k];
      }
    }
    assert FillAll(base, chains) == Filled(before, path.edges);
  }

  /** The edge lists of a list of paths. */
  function ChainsOf(order: seq<Path>): (chains: seq<seq<nat>>)
    ensures |chains| == |order| && forall k :: 0 <= k < |order| ==> chains[k] == order[k].edges
  {
    if order == [] then [] else ChainsOf(order[..|order| - 1]) + [order[|order| - 1].edges]
  }

  /**
   * The gap-filling loop of createResourceOccpationMap over the paths of
   * the graph (a hash set, taken in an unspecified order).  The map read
   * by each path's fill is the one the previous paths left, so the result
   * is the fill of the paths one after another in the order taken: order
   * lists every path once.  No edge loses a resource, no resource is
   * invented, and an edge on none of the paths keeps exactly its
   * section's resources.
   */
  method FillAllGaps(edges: seq<Edge>, sortedNodes: seq<int>, base: seq<set<string>>, paths: set<Path>)
    returns (occ: seq<set<string>>, ghost order: seq<Path>)
    requires NodesSorted(edges, sortedNodes) && |base| == |edges|
    requires forall q :: q in paths ==> IsChain(edges, q.edges)
    ensures Enumerates(order, paths)
    ensures FillableChains(ChainsOf(order), |base|) && occ == FillAll(base, ChainsOf(order))
    ensures |occ| == |edges|
    ensures forall e :: 0 <= e < |edges| ==> base[e] <= occ[e] <= Union(base)
    ensures forall e :: 0 <= e < |edges| && !OnSomePath(paths, e) ==> occ[e] == base[e]
  {
    ghost var known := Union(base);
    occ := base;
    order := [];
    var todo := paths;
    while todo != {}
      invariant todo <= paths
      invariant Enumerates(order, paths - todo)
      invariant FillableChains(ChainsOf(order), |base|) && occ == FillAll(base, ChainsOf(order))
      invariant |occ| == |edges|
      invariant forall e :: 0 <= e < |edges| ==> base[e] <= occ[e] <= known
      invariant forall e :: 0 <= e < |edges| && !OnSomePath(paths - todo, e) ==> occ[e] == base[e]
      decreases |todo|
    {
      NonEmptyHasElement(todo);
      var path :| path in todo;
      ChainDistinct(edges, sortedNodes, path.edges);
      ghost var before := occ;
      occ := FillGaps(occ, path.edges);
      FillKeepsBounds(base, before, occ, path.edges, known);
      forall e | 0 <= e < |edges| && !OnSomePath(paths - (todo - {path}), e)
        ensures occ[e] == base[e]
      {
        assert !OnSomePath(paths - todo, e);
        assert e !in path.edges;
      }
      FillAllStep(base, order, path, before, occ);
      EnumeratesOneMore(order, paths - todo, path);
      assert paths - (todo - {path}) == (paths - todo) + {path};
      order := order + [path];
      todo := todo - {path};
    }
  }

  /**
   * The edges made from a route path: one per section, each starting
   * where the previous one ended, all between ordinary nodes.
   */
  predicate SectionChain(added: seq<Edge>, path: seq<Section>)
  {
    |added| == |path| &&
    (forall k :: 0 <= k < |added| ==> added[k].section == path[k] && 0 <= added[k].start && 0 <= added[k].end) &&
    (forall k :: 0 <= k < |added| - 1 ==> added[k].end == added[k + 1].start)
  }

  /** Every non-empty exit marker of the path names the end node of its section's edge. */
  predicate MarkersName(nodes: map<string, nat>, added: seq<Edge>, path: seq<Section>)
    requires |added| == |path|
  {
    forall k :: 0 <= k < |path| && path[k].exitMarker != "" ==>
      path[k].exitMarker in nodes && nodes[path[k].exitMarker] == added[k].end
  }

  /** One more section keeps the chain and the marker naming. */
  lemma ChainGrows(added: seq<Edge>, path: seq<Section>, i: nat, e: Edge,
                   nodes: map<string, nat>, nodes': map<string, nat>)
    requires i < |path| && SectionChain(added, path[..i]) && MarkersName(nodes, added, path[..i])
    requires e.section == path[i] && 0 <= e.start && 0 <= e.end
    requires i > 0 ==> added[i - 1].end == e.start
    requires forall name :: name in nodes ==> name in nodes' && nodes'[name] == nodes[name]
    requires path[i].exitMarker != "" ==> path[i].exitMarker in nodes' && nodes'[path[i].exitMarker] == e.end
    ensures SectionChain(added + [e], path[..i + 1]) && MarkersName(nodes', added + [e], path[..i + 1])
  {
    assert path[..i + 1] == path[..i] + [path[i]];
  }

  /** Appending one element to a concatenation. */
  lemma AppendOne(a: seq<Edge>, b: seq<Edge>, x: Edge)
    ensures a + b + [x] == a + (b + [x])
  {
  }

  /** The part after a prefix. */
  lemma AppendedSuffix(a: seq<Edge>, b: seq<Edge>)
    ensures (a + b)[|a|..] == b && (a + b)[..|a|] == a
  {
  }

  /**
   * The route-graph builder: a name-to-node map for the route alternative
   * markers, the start and end nodes of the route paths added so far, the
   * edges in creation order and the next free node id.
   */
  class Builder {
    const id: string
    var nodes: map<string, nat>
    var startNodes: set<nat>
    var endNodes: set<nat>
    var edges: seq<Edge>
    var nextNodeId: nat

    /** Node ids handed out so far are below nextNodeId; source and sink are the only other nodes. */
    ghost predicate Valid()
      reads this
    {
      (forall name :: name in nodes ==> nodes[name] < nextNodeId) &&
      (forall n :: n in startNodes ==> n < nextNodeId) &&
      (forall n :: n in endNodes ==> n < nextNodeId) &&
      (forall k :: 0 <= k < |edges| ==> Known(edges[k].start) && Known(edges[k].end))
    }

    ghost predicate Known(n: int)
      reads this
    {
      n == SOURCE || n == SINK || 0 <= n < nextNodeId
    }

    constructor (id: string)
      ensures Valid()
      ensures this.id == id && nodes == map[] && startNodes == {} && endNodes == {} && edges == [] && nextNodeId == 0
    {
      this.id := id;
      nodes := map[];
      startNodes := {};
      endNodes := {};
      edges := [];
      nextNodeId := 0;
    }

    /**
     * getNode: an empty marker always gives a fresh node; a marker seen
     * before gives its node again; a new marker gives a fresh node that is
     * remembered under it.  Fresh nodes take the next id.
     */
    method GetNode(name: string) returns (n: nat)
      requires Valid()
      modifies this
      ensures Valid() && n < nextNodeId
      ensures name == "" ==> n == old(nextNodeId) && nextNodeId == n + 1 && nodes == old(nodes)
      ensures name != "" && name in old(nodes) ==>
        n == old(nodes)[name] && nextNodeId == old(nextNodeId) && nodes == old(nodes)
      ensures name != "" && name !in old(nodes) ==>
        n == old(nextNodeId) && nextNodeId == n + 1 && nodes == old(nodes)[name := n]
      ensures name == "" || name !in old(nodes) ==>
        forall k :: 0 <= k < |edges| ==> edges[k].start != n && edges[k].end != n
      ensures edges == old(edges) && startNodes == old(startNodes) && endNodes == old(endNodes)
      ensures old(nextNodeId) <= nextNodeId
    {
      if name == "" {
        n := nextNodeId;
        nextNodeId := nextNodeId + 1;
        return;
      }
      if name in nodes {
        n := nodes[name];
        return;
      }
      n := nextNodeId;
      nextNodeId := nextNodeId + 1;
      nodes := nodes[name := n];
    }

    /**
     * createEdge: the edge is appended to the edge list, which appends it
     * to its start node's next list and its end node's previous list
     * (AppendEdgeAdjacency).
     */
    method CreateEdge(from: int, to: int, section: Section)
      requires Valid() && Known(from) && Known(to)
      modifies this
      ensures Valid()
      ensures edges == old(edges) + [Edge(from, to, section)]
      ensures nodes == old(nodes) && startNodes == old(startNodes) && endNodes == old(endNodes)
      ensures nextNodeId == old(nextNodeId)
    {
      edges := edges + [Edge(from, to, section)];
    }

    /** The body of add's loop: the node for the section's exit marker, and the edge to it. */
    method AddSection(node: nat, section: Section) returns (end: nat)
      requires Valid() && node < nextNodeId
      modifies this
      ensures Valid() && end < nextNodeId && old(nextNodeId) <= nextNodeId
      ensures edges == old(edges) + [Edge(node, end, section)]
      ensures startNodes == old(startNodes) && endNodes == old(endNodes)
      ensures forall name :: name in old(nodes) ==> name in nodes && nodes[name] == old(nodes)[name]
      ensures section.exitMarker != "" ==> section.exitMarker in nodes && nodes[section.exitMarker] == end
    {
      end := GetNode(section.exitMarker);
      CreateEdge(node, end, section);
    }

    /**
     * add: a route path without sections is refused.  Otherwise each
     * section becomes an edge starting where the previous one ended; the
     * first entry marker and every exit marker name the nodes, the first
     * node becomes a start node and the last an end node.
     */
    method Add(path: seq<Section>) returns (ok: bool)
      requires Valid()
      modifies this
      ensures Valid()
      ensures ok <==> |path| > 0
      ensures !ok ==> unchanged(this)
      ensures ok ==> |edges| == |old(edges)| + |path| && edges[..|old(edges)|] == old(edges)
      ensures ok ==> SectionChain(edges[|old(edges)|..], path)
      ensures ok ==> startNodes == old(startNodes) + {edges[|old(edges)|].start as nat}
      ensures ok ==> endNodes == old(endNodes) + {edges[|edges| - 1].end as nat}
      ensures ok && path[0].entryMarker != "" ==>
        path[0].entryMarker in nodes && nodes[path[0].entryMarker] == edges[|old(edges)|].start
      ensures ok ==> MarkersName(nodes, edges[|old(edges)|..], path)
      ensures forall name :: name in old(nodes) ==> name in nodes && nodes[name] == old(nodes)[name]
    {
      if |path| == 0 {
        return false;
      }
      var first := GetNode(path[0].entryMarker);
      startNodes := startNodes + {first};
      ghost var added;
      var last;
      last, added := AddSections(first, path);
      AppendedSuffix(old(edges), added);
      endNodes := endNodes + {last};
      return true;
    }

    /** The loop of add: one edge per section, from the first node on. */
    method AddSections(first: nat, path: seq<Section>) returns (last: nat, ghost added: seq<Edge>)
      requires Valid() && first < nextNodeId && |path| > 0
      modifies this
      ensures Valid() && last < nextNodeId
      ensures edges == old(edges) + added && SectionChain(added, path)
      ensures added[0].start == first && added[|added| - 1].end == last
      ensures startNodes == old(startNodes) && endNodes == old(endNodes)
      ensures MarkersName(nodes, added, path)
      ensures forall name :: name in old(nodes) ==> name in nodes && nodes[name] == old(nodes)[name]
    {
      ghost var edges0, nodes0 := edges, nodes;
      added := [];
      var node := first;
      var i := 0;
      while i < |path|
        invariant 0 <= i <= |path|
        invariant Valid() && node < nextNodeId
        invariant edges == edges0 + added && SectionChain(added, path[..i])
        invariant i == 0 ==> node == first
        invariant i > 0 ==> added[0].start == first && added[i - 1].end == node
        invariant startNodes == old(startNodes) && endNodes == old(endNodes)
        invariant MarkersName(nodes, added, path[..i])
        invariant forall name :: name in nodes0 ==> name in nodes && nodes[name] == nodes0[name]
      {
        ghost var nodesBefore := nodes;
        var end := AddSection(node, path[i]);
        AppendOne(edges0, added, Edge(node, end, path[i]));
        ChainGrows(added, path, i, Edge(node, end, path[i]), nodesBefore, nodes);
        added := added + [Edge(node, end, path[i])];
        node := end;
        i := i + 1;
      }
      assert path[..i] == path;
      last := node;
    }

    /**
     * build: a source edge into every start node without previous edges,
     * then a sink edge out of every end node without next edges (both
     * hash sets are walked in an unspecified order), then the graph.
     */
    method Build(sortNodes: seq<Edge> -> seq<int>, sortEdges: seq<Edge> -> seq<nat>) returns (g: Option<RouteGraph>)
      requires Valid()
      modifies this
      ensures |edges| >= |old(edges)| && edges[..|old(edges)|] == old(edges)
      ensures forall n :: n in startNodes && Previous(old(edges), n) == [] ==> Edge(SOURCE, n, DefaultSection) in edges
      ensures forall n :: n in endNodes && Next(old(edges), n) == [] ==> Edge(n, SINK, DefaultSection) in edges
      ensures forall k :: |old(edges)| <= k < |edges| ==> ClosingEdge(old(edges), startNodes, endNodes, edges[k])
      ensures g.Some? <==> NodesSorted(edges, sortNodes(edges)) && EdgesListed(edges, sortEdges(edges)) &&
                           exists q :: IsCompletePath(edges, q)
      ensures g.Some? ==> GraphOf(g.value, id, edges)
      ensures g.Some? ==> g.value.sortedNodes == sortNodes(edges) && g.value.sortedEdges == sortEdges(edges)
    {
      ghost var before := edges;
      var sources := SourceEdges(edges, startNodes);
      var sinks := SinkEdges(edges + sources, endNodes);
      forall n: nat
        ensures Next(before + sources, n) == Next(before, n)
      {
        NextUnchanged(before, sources, n);
      }
      edges := edges + sources + sinks;
      assert edges[..|before|] == before;
      assert forall k :: |before| <= k < |edges| ==> edges[k] == (sources + sinks)[k - |before|];
      g := NewRouteGraph(id, edges, sortNodes(edges), sortEdges(edges));
    }
  }

  /** The first loop of build: a source edge into each start node that has no previous edge. */
  method SourceEdges(edges: seq<Edge>, startNodes: set<nat>) returns (added: seq<Edge>)
    ensures forall k :: 0 <= k < |added| ==>
              added[k].start == SOURCE && added[k].section == DefaultSection &&
              added[k].end in startNodes && Previous(edges, added[k].end) == []
    ensures forall n :: n in startNodes && Previous(edges, n) == [] ==> Edge(SOURCE, n, DefaultSection) in added
  {
    added := [];
    var todo := startNodes;
    while todo != {}
      invariant todo <= startNodes
      invariant forall k :: 0 <= k < |added| ==>
                  added[k].start == SOURCE && added[k].section == DefaultSection && added[k].end !in todo &&
                  added[k].end in startNodes && Previous(edges, added[k].end) == []
      invariant forall n :: n in startNodes - todo && Previous(edges, n) == [] ==> Edge(SOURCE, n, DefaultSection) in added
      decreases |todo|
    {
      NonEmptyHasElement(todo);
      var n :| n in todo;
      PreviousUnchanged(edges, added, n);
      if Previous(edges + added, n) == [] {
        added := added + [Edge(SOURCE, n, DefaultSection)];
      }
      todo := todo - {n};
    }
  }

  /** The second loop of build: a sink edge out of each end node that has no next edge. */
  method SinkEdges(edges: seq<Edge>, endNodes: set<nat>) returns (added: seq<Edge>)
    ensures forall k :: 0 <= k < |added| ==>
              added[k].end == SINK && added[k].section == DefaultSection &&
              added[k].start in endNodes && Next(edges, added[k].start) == []
    ensures forall n :: n in endNodes && Next(edges, n) == [] ==> Edge(n, SINK, DefaultSection) in added
  {
    added := [];
    var todo := endNodes;
    while todo != {}
      invariant todo <= endNodes
      invariant forall k :: 0 <= k < |added| ==>
                  added[k].end == SINK && added[k].section == DefaultSection && added[k].start !in todo &&
                  added[k].start in endNodes && Next(edges, added[k].start) == []
      invariant forall n :: n in endNodes - todo && Next(edges, n) == [] ==> Edge(n, SINK, DefaultSection) in added
      decreases |todo|
    {
      NonEmptyHasElement(todo);
      var n :| n in todo;
      NextUnchanged(edges, added, n);
      if Next(edges + added, n) == [] {
        added := added + [Edge(n, SINK, DefaultSection)];
      }
      todo := todo - {n};
    }
  }

  /** An edge build adds: from the source into a start node without previous edges, or from an end node without next edges into the sink. */
  predicate ClosingEdge(edges: seq<Edge>, startNodes: set<nat>, endNodes: set<nat>, e: Edge)
  {
    e.section == DefaultSection &&
    ((e.start == SOURCE && e.end in startNodes && Previous(edges, e.end) == []) ||
     (e.end == SINK && e.start in endNodes && Next(edges, e.start) == []))
  }

  /** Edges that end elsewhere leave a node's previous list alone. */
  lemma {:induction false} PreviousUnchanged(edges: seq<Edge>, added: seq<Edge>, n: int)
    requires forall k :: 0 <= k < |added| ==> added[k].end != n
    ensures Previous(edges + added, n) == Previous(edges, n)
    decreases |added|
  {
    if added != [] {
      var last := added[|added| - 1];
      var init := added[..|added| - 1];
      assert last == added[|added| - 1];
      assert edges + added == (edges + init) + [last];
      AppendEdgeAdjacency(edges + init, last, n);
      assert Previous(edges + init, n) + [] == Previous(edges + init, n);
      PreviousUnchanged(edges, init, n);
    } else {
      assert edges + added == edges;
    }
  }

  /** Edges that start elsewhere leave a node's next list alone. */
  lemma {:induction false} NextUnchanged(edges: seq<Edge>, added: seq<Edge>, n: int)
    requires forall k :: 0 <= k < |added| ==> added[k].start != n
    ensures Next(edges + added, n) == Next(edges, n)
    decreases |added|
  {
    if added != [] {
      var last := added[|added| - 1];
      var init := added[..|added| - 1];
      assert last == added[|added| - 1];
      assert edges + added == (edges + init) + [last];
      AppendEdgeAdjacency(edges + init, last, n);
      assert Next(edges + init, n) + [] == Next(edges + init, n);
      NextUnchanged(edges, init, n);
    } else {
      assert edges + added == edges;
    }
  }

  /**
   * What the RouteGraph constructor makes of the edges: the sorted orders,
   * the marker index and the resource occupations, each edge holding at
   * least its own section's resources and nothing no section names.
   */
  ghost predicate GraphOf(g: RouteGraph, id: string, edges: seq<Edge>)
  {
    g.Valid() && g.id == id && g.edges == edges &&
    (forall e :: 0 <= e < |edges| ==> SectionSets(edges)[e] <= g.occupations[e] <= Union(SectionSets(edges))) &&
    (exists chains :: FillOrder(edges, chains) && g.occupations == FillAll(SectionSets(edges), chains)) &&
    exists q :: IsCompletePath(edges, q)
  }

  /**
   * The chains gap filling runs over, in the order taken: the
   * source-to-sink chains of the graph (each up to its first sink edge),
   * all of them and nothing else.
   */
  ghost predicate FillOrder(edges: seq<Edge>, chains: seq<seq<nat>>)
  {
    FillableChains(chains, |edges|) &&
    (forall k :: 0 <= k < |chains| ==> Generated(edges, chains[k], Inf)) &&
    (forall q :: Generated(edges, q, Inf) ==> q in chains)
  }

  /** An enumeration of the generated path set is a fill order. */
  lemma EnumeratesGenerated(edges: seq<Edge>, paths: seq<Path>, order: seq<Path>)
    requires forall k :: 0 <= k < |paths| ==> Generated(edges, paths[k].edges, Inf)
    requires forall q :: Generated(edges, q, Inf) ==> Lists(paths, 0, q)
    requires FillableChains(ChainsOf(order), |edges|)
    requires Enumerates(order, set p | p in paths)
    ensures FillOrder(edges, ChainsOf(order))
  {
    var chains := ChainsOf(order);
    forall k | 0 <= k < |chains|
      ensures Generated(edges, chains[k], Inf)
    {
      var i :| 0 <= i < |paths| && paths[i] == order[k];
    }
    forall q | Generated(edges, q, Inf)
      ensures q in chains
    {
      var i :| 0 <= i < |paths| && paths[i].edges == q;
      assert paths[i] in set p | p in paths;
      assert paths[i] in order;
      var k :| 0 <= k < |order| && order[k] == paths[i];
      assert chains[k] == q;
    }
  }

  /**
   * The RouteGraph constructor.  The topological orders come from the
   * sorting library; one that is not an order of these edges (the library
   * fails on a cycle) gives no graph.  Gap filling enumerates the paths
   * without a penalty bound, and the route group it builds refuses an
   * empty collection, so a graph without a source-to-sink path gives no
   * graph either.
   */
  method NewRouteGraph(id: string, edges: seq<Edge>, sortedNodes: seq<int>, sortedEdges: seq<nat>)
    returns (g: Option<RouteGraph>)
    ensures g.Some? <==> NodesSorted(edges, sortedNodes) && EdgesListed(edges, sortedEdges) &&
                         exists q :: IsCompletePath(edges, q)
    ensures g.Some? ==> GraphOf(g.value, id, edges)
    ensures g.Some? ==> g.value.sortedNodes == sortedNodes && g.value.sortedEdges == sortedEdges
  {
    if !NodesSorted(edges, sortedNodes) || !EdgesListed(edges, sortedEdges) {
      return None;
    }
    var index := IndexEdgesByMarker(edges);
    var base := SectionResources(edges);
    var graph := RouteGraph(id, edges, sortedNodes, sortedEdges, index, base);
    var paths, group := GeneratePaths(graph, "?", 1.0, Inf);
    if group.None? {
      if exists q :: IsCompletePath(edges, q) {
        var q :| IsCompletePath(edges, q);
        var r := FirstToSink(edges, q);
        assert false;
      }
      return None;
    }
    assert Generated(edges, paths[0].edges, Inf);
    var occ, order := FillAllGaps(edges, sortedNodes, base, group.value.paths);
    EnumeratesGenerated(edges, paths, order);
    g := Some(graph.(occupations := occ));
  }

  /**
   * RouteGraph.build(route): every route path is added to a fresh builder
   * (a path without sections is an error), then the builder builds.
   */
  method BuildRoute(id: string, routePaths: seq<seq<Section>>, sortNodes: seq<Edge> -> seq<int>,
                    sortEdges: seq<Edge> -> seq<nat>) returns (g: Option<RouteGraph>, ghost edges: seq<Edge>)
    ensures (exists i :: 0 <= i < |routePaths| && |routePaths[i]| == 0) ==> g.None?
    ensures (forall i :: 0 <= i < |routePaths| ==> |routePaths[i]| > 0) ==>
      (g.Some? <==> NodesSorted(edges, sortNodes(edges)) && EdgesListed(edges, sortEdges(edges)) &&
                    exists q :: IsCompletePath(edges, q))
    ensures g.Some? ==> GraphOf(g.value, id, edges) && g.value.sortedNodes == sortNodes(edges)
    ensures g.Some? ==> |edges| >= TotalSections(routePaths)
  {
    var builder := new Builder(id);
    var i := 0;
    while i < |routePaths|
      invariant 0 <= i <= |routePaths|
      invariant builder.Valid() && builder.id == id
      invariant |builder.edges| == TotalSections(routePaths[..i])
      invariant forall j :: 0 <= j < i ==> |routePaths[j]| > 0
      modifies builder
    {
      var ok := builder.Add(routePaths[i]);
      if !ok {
        return None, builder.edges;
      }
      TotalSectionsStep(routePaths, i);
      i := i + 1;
    }
    TotalSectionsAll(routePaths);
    g := builder.Build(sortNodes, sortEdges);
    edges := builder.edges;
  }

  /** The number of sections over all route paths. */
  function TotalSections(routePaths: seq<seq<Section>>): nat
  {
    if routePaths == [] then 0 else TotalSections(routePaths[..|routePaths| - 1]) + |routePaths[|routePaths| - 1]|
  }

  /** One more route path adds its sections to the count. */
  lemma TotalSectionsStep(routePaths: seq<seq<Section>>, i: nat)
    requires i < |routePaths|
    ensures TotalSections(routePaths[..i + 1]) == TotalSections(routePaths[..i]) + |routePaths[i]|
  {
    assert routePaths[..i + 1][..i] == routePaths[..i];
  }

  lemma TotalSectionsAll(routePaths: seq<seq<Section>>)
    ensures TotalSections(routePaths[..|routePaths|]) == TotalSections(routePaths)
  {
    assert routePaths[..|routePaths|] == routePaths;
  }
}
