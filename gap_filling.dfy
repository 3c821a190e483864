/**
 * The gap filling of RouteGraph.createResourceOccpationMap.  Walking one
 * path, a resource held on an earlier edge, released, and held again is
 * also marked on every edge in between, so each resource is held along a
 * contiguous stretch of the path.
 *
 * The resource multimap is a sequence indexed by edge: occ[e] is the set
 * of resources edge e holds.  A path is a list of distinct edge indices.
 */
module GapFilling {

  /** Every position of p names an edge of an occupation map of size n. */
  predicate OnEdges(p: seq<nat>, n: nat)
  {
    forall k :: 0 <= k < |p| ==> p[k] < n
  }

  predicate Distinct(p: seq<nat>)
  {
    forall j, k :: 0 <= j < k < |p| ==> p[j] != p[k]
  }

  /** The resources held anywhere on positions a .. b-1 of p. */
  ghost function Held(occ: seq<set<string>>, p: seq<nat>, a: nat, b: nat): set<string>
    requires a <= b <= |p| && OnEdges(p, |occ|)
    decreases b
  {
    if a == b then {} else Held(occ, p, a, b - 1) + occ[p[b - 1]]
  }

  /** The closed form of the filling: a resource is added at position j when it is held both before and after j. */
  ghost function Bridged(occ: seq<set<string>>, p: seq<nat>, j: nat, upTo: nat): set<string>
    requires j < upTo <= |p| && OnEdges(p, |occ|)
  {
    Held(occ, p, 0, j) * Held(occ, p, j + 1, upTo)
  }

  lemma {:induction false} HeldHas(occ: seq<set<string>>, p: seq<nat>, a: nat, b: nat, k: nat, r: string)
    requires a <= k < b <= |p| && OnEdges(p, |occ|)
    requires r in occ[p[k]]
    ensures r in Held(occ, p, a, b)
    decreases b
  {
    if k < b - 1 {
      HeldHas(occ, p, a, b - 1, k, r);
    }
  }

  lemma {:induction false} HeldWitness(occ: seq<set<string>>, p: seq<nat>, a: nat, b: nat, r: string)
    returns (k: nat)
    requires a <= b <= |p| && OnEdges(p, |occ|)
    requires r in Held(occ, p, a, b)
    ensures a <= k < b && r in occ[p[k]]
    decreases b
  {
    if r in occ[p[b - 1]] {
      k := b - 1;
    } else {
      k := HeldWitness(occ, p, a, b - 1, r);
    }
  }

  /** The map agrees with the filling for the first `node` positions, counting `extra` as held at position node. */
  ghost predicate FilledUpTo(occ0: seq<set<string>>, occ: seq<set<string>>, p: seq<nat>, node: nat, extra: set<string>)
    requires node < |p| && OnEdges(p, |occ0|)
  {
    |occ| == |occ0| &&
    (forall j {:trigger occ[p[j]]} :: 0 <= j < node ==> occ[p[j]] == occ0[p[j]] + Held(occ0, p, 0, j) * (Held(occ0, p, j + 1, node) + extra)) &&
    (forall j :: node <= j < |p| ==> occ[p[j]] == occ0[p[j]]) &&
    (forall e :: 0 <= e < |occ0| && e !in p ==> occ[e] == occ0[e])
  }

  /**
   * occupationExit: a resource seen before position node maps to one past
   * the last position holding it; one handled at position node maps to node + 1.
   */
  ghost predicate ExitsTrack(occ0: seq<set<string>>, p: seq<nat>, node: nat, exit: map<string, int>, done: set<string>)
    requires node <= |p| && OnEdges(p, |occ0|)
  {
    exit.Keys == Held(occ0, p, 0, node) + done &&
    (forall r :: r in done ==> exit[r] == node + 1) &&
    (forall r :: r in exit && r !in done ==>
       0 < exit[r] <= node && r in occ0[p[exit[r] - 1]] && r !in Held(occ0, p, exit[r], node))
  }

  /**
   * Handling resource r at position node: if it was seen before, its exit
   * names a position holding it; either way its exit becomes node + 1.
   */
  lemma ExitStep(occ0: seq<set<string>>, p: seq<nat>, node: nat, exit: map<string, int>, done: set<string>, r: string)
    requires node < |p| && OnEdges(p, |occ0|)
    requires ExitsTrack(occ0, p, node, exit, done)
    requires done <= occ0[p[node]] && r in occ0[p[node]] && r !in done
    ensures r in exit ==> r in Held(occ0, p, 0, node) && 0 < exit[r] <= node && r in occ0[p[exit[r] - 1]]
    ensures r !in exit ==> r !in Held(occ0, p, 0, node)
    ensures ExitsTrack(occ0, p, node, exit[r := node + 1], done + {r})
  {
    var exit' := exit[r := node + 1];
    assert exit'.Keys == exit.Keys + {r};
    forall r' | r' in exit' && r' !in done + {r}
      ensures 0 < exit'[r'] <= node && r' in occ0[p[exit'[r'] - 1]] && r' !in Held(occ0, p, exit'[r'], node)
    {
      assert exit'[r'] == exit[r'];
    }
  }

  /** The inner loop `for (int i = exit; i < node; ++i) map.put(path.get(i), resource)`. */
  method AddAlong(occ: seq<set<string>>, p: seq<nat>, from: nat, to: nat, r: string) returns (occ': seq<set<string>>)
    requires from <= to <= |p| && OnEdges(p, |occ|) && Distinct(p)
    ensures |occ'| == |occ|
    ensures forall j {:trigger occ'[p[j]]} :: from <= j < to ==> occ'[p[j]] == occ[p[j]] + {r}
    ensures forall j {:trigger occ'[p[j]]} :: 0 <= j < |p| && !(from <= j < to) ==> occ'[p[j]] == occ[p[j]]
    ensures forall e :: 0 <= e < |occ| && e !in p ==> occ'[e] == occ[e]
  {
    occ' := occ;
    var i := from;
    while i < to
      invariant from <= i <= to
      invariant |occ'| == |occ|
      invariant forall j {:trigger occ'[p[j]]} :: from <= j < i ==> occ'[p[j]] == occ[p[j]] + {r}
      invariant forall j {:trigger occ'[p[j]]} :: 0 <= j < |p| && !(from <= j < i) ==> occ'[p[j]] == occ[p[j]]
      invariant forall e :: 0 <= e < |occ| && e !in p ==> occ'[e] == occ[e]
    {
      occ' := occ'[p[i] := occ'[p[i]] + {r}];
      i := i + 1;
    }
  }

  /** A resource met again: the edges since its last exit are filled, and the map matches the filling with r handled. */
  lemma FillStep(occ0: seq<set<string>>, occ: seq<set<string>>, occ': seq<set<string>>, p: seq<nat>, node: nat,
                 done: set<string>, r: string, e: int)
    requires node < |p| && OnEdges(p, |occ0|) && Distinct(p)
    requires FilledUpTo(occ0, occ, p, node, done)
    requires r in occ0[p[node]] && r in Held(occ0, p, 0, node)
    requires 0 < e <= node && r in occ0[p[e - 1]]
    requires |occ'| == |occ|
    requires forall j {:trigger occ'[p[j]]} :: e <= j < node ==> occ'[p[j]] == occ[p[j]] + {r}
    requires forall j {:trigger occ'[p[j]]} :: 0 <= j < |p| && !(e <= j < node) ==> occ'[p[j]] == occ[p[j]]
    requires forall x :: 0 <= x < |occ| && x !in p ==> occ'[x] == occ[x]
    ensures FilledUpTo(occ0, occ', p, node, done + {r})
  {
    forall j {:trigger occ'[p[j]]} | 0 <= j < node
      ensures occ'[p[j]] == occ0[p[j]] + Held(occ0, p, 0, j) * (Held(occ0, p, j + 1, node) + (done + {r}))
    {
      FillStepAt(occ0, p, node, done, r, e, j, occ[p[j]], occ'[p[j]]);
    }
  }

  /** FillStep at one position j before node. */
  lemma FillStepAt(occ0: seq<set<string>>, p: seq<nat>, node: nat, done: set<string>, r: string, e: int, j: nat,
                   before: set<string>, after: set<string>)
    requires j < node < |p| && OnEdges(p, |occ0|)
    requires 0 < e <= node && r in occ0[p[e - 1]]
    requires before == occ0[p[j]] + Held(occ0, p, 0, j) * (Held(occ0, p, j + 1, node) + done)
    requires after == before + (if e <= j then {r} else {})
    ensures after == occ0[p[j]] + Held(occ0, p, 0, j) * (Held(occ0, p, j + 1, node) + (done + {r}))
  {
    if e <= j {
      HeldHas(occ0, p, 0, j, e - 1, r);
    } else if j < e - 1 {
      HeldHas(occ0, p, j + 1, node, e - 1, r);
    }
  }

  /** A resource met for the first time: nothing before node holds it, so the filling is unchanged. */
  lemma FirstSeenStep(occ0: seq<set<string>>, occ: seq<set<string>>, p: seq<nat>, node: nat, done: set<string>, r: string)
    requires node < |p| && OnEdges(p, |occ0|)
    requires FilledUpTo(occ0, occ, p, node, done)
    requires r !in Held(occ0, p, 0, node)
    ensures FilledUpTo(occ0, occ, p, node, done + {r})
  {
    forall j | 0 <= j < node
      ensures r !in Held(occ0, p, 0, j)
    {
      if r in Held(occ0, p, 0, j) {
        var k := HeldWitness(occ0, p, 0, j, r);
        HeldHas(occ0, p, 0, node, k, r);
      }
    }
  }

  /** Once every resource of position node is handled, the invariants hold for node + 1. */
  lemma NodeStep(occ0: seq<set<string>>, occ: seq<set<string>>, p: seq<nat>, node: nat, exit: map<string, int>)
    requires node < |p| && OnEdges(p, |occ0|)
    requires FilledUpTo(occ0, occ, p, node, occ0[p[node]])
    requires ExitsTrack(occ0, p, node, exit, occ0[p[node]])
    ensures node + 1 < |p| ==> FilledUpTo(occ0, occ, p, node + 1, {})
    ensures ExitsTrack(occ0, p, node + 1, exit, {})
    ensures forall j {:trigger occ[p[j]]} :: 0 <= j <= node ==> occ[p[j]] == occ0[p[j]] + Bridged(occ0, p, j, node + 1)
    ensures |occ| == |occ0| && forall e :: 0 <= e < |occ0| && e !in p ==> occ[e] == occ0[e]
  {
    assert Held(occ0, p, node + 1, node + 1) == {};
  }

  /** What the loop over the resources of the edge at position node keeps, with `done` handled so far. */
  ghost predicate EdgeInvariant(occ0: seq<set<string>>, p: seq<nat>, node: nat, occ: seq<set<string>>,
                                entry: map<string, int>, exit: map<string, int>, done: set<string>)
    requires node < |p| && OnEdges(p, |occ0|)
  {
    done <= occ0[p[node]] &&
    FilledUpTo(occ0, occ, p, node, done) &&
    ExitsTrack(occ0, p, node, exit, done) &&
    entry.Keys == exit.Keys
  }

  /**
   * One step of the loop over the resources of the edge at position node:
   * a resource seen before has the edges since its last exit filled (when
   * there are any) and its exit moved; a new one gets its entry and exit.
   */
  method HandleResource(occ0: seq<set<string>>, p: seq<nat>, node: nat, occ: seq<set<string>>,
                        occupationEntry: map<string, int>, occupationExit: map<string, int>,
                        ghost done: set<string>, resource: string)
    returns (occ': seq<set<string>>, entry': map<string, int>, exit': map<string, int>)
    requires node < |p| && OnEdges(p, |occ0|) && Distinct(p)
    requires resource in occ0[p[node]] && resource !in done
    requires EdgeInvariant(occ0, p, node, occ, occupationEntry, occupationExit, done)
    ensures EdgeInvariant(occ0, p, node, occ', entry', exit', done + {resource})
  {
    ExitStep(occ0, p, node, occupationExit, done, resource);
    occ' := occ;
    entry' := occupationEntry;
    if resource in occupationEntry {
      var exit := occupationExit[resource];
      if exit != node {
        occ' := AddAlong(occ, p, exit, node, resource);
      }
      FillStep(occ0, occ, occ', p, node, done, resource, exit);
    } else {
      FirstSeenStep(occ0, occ, p, node, done, resource);
      entry' := occupationEntry[resource := node];
    }
    exit' := occupationExit[resource := node + 1];
  }

  /** A proper subset leaves an element out. */
  lemma SomeLeft(done: set<string>, resources: set<string>)
    requires done <= resources && done != resources
    ensures exists r :: r in resources - done
  {
    assert |resources - done| > 0;
  }

  /**
   * The body of the loop over a path's edges: every resource of the edge
   * at position node is handled in turn (the Java copy of the edge's
   * resource set is iterated in an unspecified order).
   */
  method HandleEdge(occ0: seq<set<string>>, p: seq<nat>, node: nat, occ: seq<set<string>>,
                    occupationEntry: map<string, int>, occupationExit: map<string, int>)
    returns (occ': seq<set<string>>, entry': map<string, int>, exit': map<string, int>)
    requires node < |p| && OnEdges(p, |occ0|) && Distinct(p)
    requires FilledUpTo(occ0, occ, p, node, {})
    requires ExitsTrack(occ0, p, node, occupationExit, {})
    requires occupationEntry.Keys == occupationExit.Keys
    ensures node + 1 < |p| ==> FilledUpTo(occ0, occ', p, node + 1, {})
    ensures ExitsTrack(occ0, p, node + 1, exit', {})
    ensures entry'.Keys == exit'.Keys
    ensures |occ'| == |occ0|
    ensures forall j {:trigger occ'[p[j]]} :: 0 <= j <= node ==> occ'[p[j]] == occ0[p[j]] + Bridged(occ0, p, j, node + 1)
    ensures forall e :: 0 <= e < |occ0| && e !in p ==> occ'[e] == occ0[e]
  {
    occ', entry', exit' := occ, occupationEntry, occupationExit;
    var resources := occ[p[node]];
    var done: set<string> := {};
    while done != resources
      invariant resources == occ0[p[node]]
      invariant EdgeInvariant(occ0, p, node, occ', entry', exit', done)
      decreases |resources - done|
    {
      SomeLeft(done, resources);
      var resource :| resource in resources - done;
      occ', entry', exit' := HandleResource(occ0, p, node, occ', entry', exit', done, resource);
      done := done + {resource};
    }
    assert done == occ0[p[node]];
    NodeStep(occ0, occ', p, node, exit');
  }

  /** The position of edge e on path p (the first one; the only one when p is distinct). */
  function PositionOf(p: seq<nat>, e: nat): (j: nat)
    requires e in p
    ensures j < |p| && p[j] == e
    ensures forall k :: 0 <= k < j ==> p[k] != e
  {
    if p[0] == e then 0 else 1 + PositionOf(p[1..], e)
  }

  /** The whole occupation map after filling the gaps along path p. */
  ghost function Filled(occ0: seq<set<string>>, p: seq<nat>): (occ: seq<set<string>>)
    requires OnEdges(p, |occ0|)
    ensures |occ| == |occ0|
  {
    seq(|occ0|, e requires 0 <= e < |occ0| =>
      if e in p then occ0[e] + Bridged(occ0, p, PositionOf(p, e), |p|) else occ0[e])
  }

  /** The position-wise description of a fill determines the whole map. */
  lemma FilledClosedForm(occ0: seq<set<string>>, occ: seq<set<string>>, p: seq<nat>)
    requires OnEdges(p, |occ0|) && Distinct(p) && |occ| == |occ0|
    requires forall j {:trigger occ[p[j]]} :: 0 <= j < |p| ==> occ[p[j]] == occ0[p[j]] + Bridged(occ0, p, j, |p|)
    requires forall e :: 0 <= e < |occ0| && e !in p ==> occ[e] == occ0[e]
    ensures occ == Filled(occ0, p)
  {
    forall e | 0 <= e < |occ0|
      ensures occ[e] == Filled(occ0, p)[e]
    {
      if e in p {
        var j := PositionOf(p, e);
        assert occ[p[j]] == occ0[p[j]] + Bridged(occ0, p, j, |p|);
      }
    }
  }

  /**
   * The loop over one path's edges.  Afterwards every edge of the path
   * holds what it held before plus the resources held both before and
   * after it on the path; edges off the path are untouched.
   */
  method FillGaps(occ0: seq<set<string>>, p: seq<nat>) returns (occ: seq<set<string>>)
    requires OnEdges(p, |occ0|) && Distinct(p)
    ensures |occ| == |occ0|
    ensures forall j {:trigger occ[p[j]]} :: 0 <= j < |p| ==> occ[p[j]] == occ0[p[j]] + Bridged(occ0, p, j, |p|)
    ensures forall e :: 0 <= e < |occ0| && e !in p ==> occ[e] == occ0[e]
    ensures occ == Filled(occ0, p)
  {
    occ := occ0;
    var occupationEntry: map<string, int> := map[];
    var occupationExit: map<string, int> := map[];
    var node := 0;
    while node < |p|
      invariant 0 <= node <= |p|
      invariant node < |p| ==> FilledUpTo(occ0, occ, p, node, {})
      invariant ExitsTrack(occ0, p, node, occupationExit, {})
      invariant occupationEntry.Keys == occupationExit.Keys
      invariant |occ| == |occ0|
      invariant forall j {:trigger occ[p[j]]} :: 0 <= j < node ==> occ[p[j]] == occ0[p[j]] + Bridged(occ0, p, j, node)
      invariant forall e :: 0 <= e < |occ0| && e !in p ==> occ[e] == occ0[e]
    {
      occ, occupationEntry, occupationExit := HandleEdge(occ0, p, node, occ, occupationEntry, occupationExit);
      node := node + 1;
    }
    FilledClosedForm(occ0, occ, p);
  }

  /**
   * What gap filling promises: along the path each resource is held on a
   * contiguous stretch (held at positions a < b means held everywhere in
   * between), and no edge loses a resource.
   */
  lemma {:induction false} FilledIsContiguous(occ0: seq<set<string>>, occ: seq<set<string>>, p: seq<nat>,
                                              a: nat, j: nat, b: nat, r: string)
    requires OnEdges(p, |occ0|) && |occ| == |occ0|
    requires forall k {:trigger occ[p[k]]} :: 0 <= k < |p| ==> occ[p[k]] == occ0[p[k]] + Bridged(occ0, p, k, |p|)
    requires a < j < b < |p| && r in occ[p[a]] && r in occ[p[b]]
    ensures r in occ[p[j]]
    ensures occ0[p[j]] <= occ[p[j]]
  {
    var before := a;
    assert occ[p[a]] == occ0[p[a]] + Bridged(occ0, p, a, |p|);
    if r !in occ0[p[a]] {
      assert r in Held(occ0, p, 0, a);
      before := HeldWitness(occ0, p, 0, a, r);
    }
    var after := b;
    assert occ[p[b]] == occ0[p[b]] + Bridged(occ0, p, b, |p|);
    if r !in occ0[p[b]] {
      assert r in Held(occ0, p, b + 1, |p|);
      after := HeldWitness(occ0, p, b + 1, |p|, r);
    }
    assert before < j < after && r in occ0[p[before]] && r in occ0[p[after]];
    HeldHas(occ0, p, 0, j, before, r);
    HeldHas(occ0, p, j + 1, |p|, after, r);
    assert r in Held(occ0, p, 0, j) && r in Held(occ0, p, j + 1, |p|);
    assert r in Bridged(occ0, p, j, |p|);
    assert occ[p[j]] == occ0[p[j]] + Bridged(occ0, p, j, |p|);
  }
}
