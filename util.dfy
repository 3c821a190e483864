/**
 * Small helpers of Util.java: the run-collapsed printing of path ids and the
 * epsilon comparisons of weights and penalties.
 */
module Util {
  import opened Common
  import opened TimeUtil
  import opened Paths

  const WEIGHT_EPS: real := 1.0e-8
  const PENALTY_EPS: real := 1.0e-6

  /** |w1 - w2| < WEIGHT_EPS. */
  function WeightEquals(w1: real, w2: real): (r: bool)
    ensures r <==> -WEIGHT_EPS < w1 - w2 < WEIGHT_EPS
  {
    RealAbs(w1 - w2) < WEIGHT_EPS
  }

  /** The weight comparison is reflexive and symmetric. */
  lemma WeightEqualsSymmetric(w1: real, w2: real)
    ensures WeightEquals(w1, w1)
    ensures WeightEquals(w1, w2) == WeightEquals(w2, w1)
  {
  }

  /**
   * penaltyEquals: exact comparison when the first penalty is not finite,
   * otherwise equality up to PENALTY_EPS.
   */
  function PenaltyEquals(p1: Penalty, p2: Penalty): (r: bool)
    ensures p1 == p2 ==> r
    ensures p1.Inf? ==> (r <==> p2.Inf?)
    ensures p1.Fin? ==> (r <==> p2.Fin? && -PENALTY_EPS < p1.value - p2.value < PENALTY_EPS)
  {
    if p1.Inf? then p1 == p2
    else p2.Fin? && RealAbs(p1.value - p2.value) < PENALTY_EPS
  }

  /**
   * penaltyLess: p1 - p2 < PENALTY_EPS in IEEE arithmetic, where
   * Infinity - Infinity is NaN and every comparison with NaN is false.
   */
  function PenaltyLess(p1: Penalty, p2: Penalty): (r: bool)
    ensures p1.AtMost(p2) && !(p1.Inf? && p2.Inf?) ==> r
    ensures r ==> p1.Fin?
    ensures p1.Fin? && p2.Fin? ==> (r <==> p1.value - p2.value < PENALTY_EPS)
    ensures p1.Fin? && p2.Inf? ==> r
  {
    match (p1, p2)
    case (Fin(a), Fin(b)) => a - b < PENALTY_EPS
    case (Fin(_), Inf) => true
    case (Inf, _) => false
  }

  /** Integer.toString. */
  function IntToString(i: int): string
    decreases if i < 0 then 1 else 0
  {
    if i < 0 then "-" + IntToString(-i) else NatToString(i)
  }

  predicate SortedInts(s: seq<int>)
  {
    forall i, j :: 0 <= i < j < |s| ==> s[i] <= s[j]
  }

  /** Inserts x into a sorted sequence before its first element >= x. */
  function InsertSorted(x: int, s: seq<int>): (r: seq<int>)
    requires SortedInts(s)
    ensures SortedInts(r)
    ensures multiset(r) == multiset(s) + multiset{x}
    ensures forall k :: 0 <= k < |r| ==> r[k] == x || r[k] in s
  {
    if |s| == 0 then [x]
    else if x <= s[0] then [x] + s
    else
      var tail := InsertSorted(x, s[1..]);
      InsertBehind(x, s, tail);
      [s[0]] + tail
  }

  /** The step of InsertSorted past a smaller head. */
  lemma InsertBehind(x: int, s: seq<int>, tail: seq<int>)
    requires SortedInts(s) && |s| > 0 && s[0] < x
    requires SortedInts(tail) && multiset(tail) == multiset(s[1..]) + multiset{x}
    requires forall k :: 0 <= k < |tail| ==> tail[k] == x || tail[k] in s[1..]
    ensures SortedInts([s[0]] + tail)
    ensures multiset([s[0]] + tail) == multiset(s) + multiset{x}
    ensures forall k :: 0 <= k < |[s[0]] + tail| ==> ([s[0]] + tail)[k] == x || ([s[0]] + tail)[k] in s
  {
    HeadBelowTail(x, s, tail);
    SortedCons(s[0], tail);
    assert s == [s[0]] + s[1..];
    ConsMembers(x, s, tail);
  }

  /** Every element of the tail is at least the head of s. */
  lemma HeadBelowTail(x: int, s: seq<int>, tail: seq<int>)
    requires SortedInts(s) && |s| > 0 && s[0] < x
    requires forall k :: 0 <= k < |tail| ==> tail[k] == x || tail[k] in s[1..]
    ensures forall k :: 0 <= k < |tail| ==> s[0] <= tail[k]
  {
    forall k | 0 <= k < |tail|
      ensures s[0] <= tail[k]
    {
      if tail[k] != x {
        var j :| 0 <= j < |s[1..]| && s[1..][j] == tail[k];
        assert s[j + 1] == tail[k];
      }
    }
  }

  /** A sorted sequence stays sorted behind a head no larger than its elements. */
  lemma SortedCons(h: int, tail: seq<int>)
    requires SortedInts(tail) && forall k :: 0 <= k < |tail| ==> h <= tail[k]
    ensures SortedInts([h] + tail)
  {
    var r := [h] + tail;
    forall i, j | 0 <= i < j < |r|
      ensures r[i] <= r[j]
    {
      assert r[j] == tail[j - 1];
      if i > 0 {
        assert r[i] == tail[i - 1];
      }
    }
  }

  /** The elements of [s[0]] + tail come from s or are x. */
  lemma ConsMembers(x: int, s: seq<int>, tail: seq<int>)
    requires |s| > 0 && s == [s[0]] + s[1..]
    requires forall k :: 0 <= k < |tail| ==> tail[k] == x || tail[k] in s[1..]
    ensures forall k :: 0 <= k < |[s[0]] + tail| ==> ([s[0]] + tail)[k] == x || ([s[0]] + tail)[k] in s
  {
    var r := [s[0]] + tail;
    forall k | 0 <= k < |r|
      ensures r[k] == x || r[k] in s
    {
      if k > 0 {
        assert r[k] == tail[k - 1];
      }
    }
  }

  /** The ids in ascending order, as the library sort by Integer.compare leaves them. */
  function SortInts(s: seq<int>): (r: seq<int>)
    ensures SortedInts(r)
    ensures multiset(r) == multiset(s)
  {
    if |s| == 0 then []
    else
      assert s == s[..|s| - 1] + [s[|s| - 1]];
      InsertSorted(s[|s| - 1], SortInts(s[..|s| - 1]))
  }

  /** A maximal run first, first+1, ..., last of consecutive ids. */
  datatype Run = Run(first: int, last: int)

  /** The runs after one more id: it extends the last run when it follows on, else opens a new one. */
  function AddToRuns(runs: seq<Run>, x: int): (r: seq<Run>)
    ensures |r| > 0 && r[|r| - 1].last == x
    ensures |runs| > 0 && runs[|runs| - 1].last + 1 == x ==>
      |r| == |runs| && r[|r| - 1].first == runs[|runs| - 1].first
    ensures !(|runs| > 0 && runs[|runs| - 1].last + 1 == x) ==> r == runs + [Run(x, x)]
  {
    if |runs| > 0 && runs[|runs| - 1].last + 1 == x then
      runs[..|runs| - 1] + [Run(runs[|runs| - 1].first, x)]
    else
      runs + [Run(x, x)]
  }

  /** The ids first, first+1, ..., last of a run. */
  function RunIds(first: int, last: int): (r: seq<int>)
    requires first <= last
    ensures |r| == last - first + 1 && r[0] == first && r[|r| - 1] == last
    ensures forall k :: 0 <= k < |r| ==> r[k] == first + k
    decreases last - first
  {
    if first == last then [first] else RunIds(first, last - 1) + [last]
  }

  /** The ids a list of runs stands for, run after run. */
  function Expand(runs: seq<Run>): seq<int>
    requires forall k :: 0 <= k < |runs| ==> runs[k].first <= runs[k].last
  {
    if |runs| == 0 then [] else Expand(runs[..|runs| - 1]) + RunIds(runs[|runs| - 1].first, runs[|runs| - 1].last)
  }

  predicate StrictlyIncreasing(ids: seq<int>)
  {
    forall i, j :: 0 <= i < j < |ids| ==> ids[i] < ids[j]
  }

  /** The runs of consecutive ids of a sorted id list. */
  function Runs(ids: seq<int>): (runs: seq<Run>)
    ensures |ids| == 0 <==> |runs| == 0
    ensures |runs| > 0 ==> runs[0].first == ids[0] && runs[|runs| - 1].last == ids[|ids| - 1]
    ensures forall k :: 0 <= k < |runs| ==> runs[k].first <= runs[k].last
  {
    if |ids| == 0 then [] else AddToRuns(Runs(ids[..|ids| - 1]), ids[|ids| - 1])
  }

  /** Adding one id to runs that stand for some ids makes them stand for those ids and the new one. */
  lemma AddToRunsExpands(runs: seq<Run>, x: int)
    requires forall k :: 0 <= k < |runs| ==> runs[k].first <= runs[k].last
    ensures forall k :: 0 <= k < |AddToRuns(runs, x)| ==> AddToRuns(runs, x)[k].first <= AddToRuns(runs, x)[k].last
    ensures Expand(AddToRuns(runs, x)) == Expand(runs) + [x]
  {
    var r := AddToRuns(runs, x);
    var n := |runs|;
    if n > 0 && runs[n - 1].last + 1 == x {
      assert r[..n - 1] == runs[..n - 1];
      assert RunIds(runs[n - 1].first, x) == RunIds(runs[n - 1].first, x - 1) + [x];
    } else {
      assert r[..n] == runs;
    }
  }

  /** Read run after run, the runs give back exactly the ids, in order. */
  lemma {:induction false} RunsPartition(ids: seq<int>)
    ensures Expand(Runs(ids)) == ids
  {
    if |ids| > 0 {
      var init := ids[..|ids| - 1];
      RunsPartition(init);
      AddToRunsExpands(Runs(init), ids[|ids| - 1]);
      LastSplit(ids);
    }
  }

  lemma LastSplit(ids: seq<int>)
    requires |ids| > 0
    ensures ids[..|ids| - 1] + [ids[|ids| - 1]] == ids
  {
  }

  /** No two neighbouring runs could be joined into one. */
  lemma {:induction false} RunsMaximal(ids: seq<int>)
    ensures forall k :: 0 <= k < |Runs(ids)| - 1 ==> Runs(ids)[k].last + 1 != Runs(ids)[k + 1].first
  {
    if |ids| > 0 {
      var init := ids[..|ids| - 1];
      RunsMaximal(init);
      var prev := Runs(init);
      var r := Runs(ids);
      if !(|prev| > 0 && prev[|prev| - 1].last + 1 == ids[|ids| - 1]) {
        assert r[..|prev|] == prev;
      }
    }
  }

  /** Over strictly increasing ids more than one id lies between neighbouring runs. */
  lemma {:induction false} RunsSeparated(ids: seq<int>)
    requires StrictlyIncreasing(ids)
    ensures forall k :: 0 <= k < |Runs(ids)| - 1 ==> Runs(ids)[k].last + 1 < Runs(ids)[k + 1].first
  {
    if |ids| > 0 {
      var init := ids[..|ids| - 1];
      var x := ids[|ids| - 1];
      RunsSeparated(init);
      var prev := Runs(init);
      var r := Runs(ids);
      if !(|prev| > 0 && prev[|prev| - 1].last + 1 == x) {
        assert r[..|prev|] == prev;
        if |prev| > 0 {
          assert prev[|prev| - 1].last == init[|init| - 1] < x;
        }
      }
    }
  }

  /** "/first" for a run of one id, "/first-last" for a longer one. */
  function RenderRun(run: Run): string
  {
    "/" + IntToString(run.first) + (if run.first == run.last then "" else "-" + IntToString(run.last))
  }

  function RenderRuns(runs: seq<Run>): string
  {
    if |runs| == 0 then "" else RenderRuns(runs[..|runs| - 1]) + RenderRun(runs[|runs| - 1])
  }

  function PathIds(paths: seq<Path>): (ids: seq<int>)
    ensures |ids| == |paths|
    ensures forall i :: 0 <= i < |paths| ==> ids[i] == paths[i].id
  {
    if |paths| == 0 then [] else PathIds(paths[..|paths| - 1]) + [paths[|paths| - 1].id]
  }

  /** What pathIdsString prints: the collapsed runs, or a star and the count when longer than 30 characters. */
  function PathIdsText(paths: seq<Path>): string
  {
    var text := RenderRuns(Runs(SortInts(PathIds(paths))));
    if |text| > 30 then "/*(" + IntToString(|paths|) + ")" else text
  }

  /** Every id of the sorted list is the id of some path. */
  lemma {:induction false} SortedIdsFromPaths(paths: seq<Path>, sorted: seq<int>)
    requires sorted == SortInts(PathIds(paths))
    ensures forall i :: 0 <= i < |sorted| ==> exists k :: 0 <= k < |paths| && paths[k].id == sorted[i]
  {
    forall i | 0 <= i < |sorted|
      ensures exists k :: 0 <= k < |paths| && paths[k].id == sorted[i]
    {
      assert sorted[i] in multiset(PathIds(paths));
      var k :| 0 <= k < |PathIds(paths)| && PathIds(paths)[k] == sorted[i];
      assert paths[k].id == sorted[i];
    }
  }

  /** The text printed while the last run is still open: everything up to its first id. */
  function OpenText(runs: seq<Run>): string
    requires |runs| > 0
  {
    RenderRuns(runs[..|runs| - 1]) + "/" + IntToString(runs[|runs| - 1].first)
  }

  /**
   * Closing the last run appends its "-last" part exactly when the run is
   * longer than one id.
   */
  lemma {:induction false} CloseRun(runs: seq<Run>, p: string, merged: bool, lastId: int)
    requires |runs| > 0 && runs[|runs| - 1].last == lastId
    requires merged <==> runs[|runs| - 1].first != lastId
    requires p == OpenText(runs)
    ensures merged ==> RenderRuns(runs) == p + "-" + IntToString(lastId)
    ensures !merged ==> RenderRuns(runs) == p
  {
    var last := runs[|runs| - 1];
    var front := RenderRuns(runs[..|runs| - 1]);
    var head := "/" + IntToString(last.first);
    assert RenderRuns(runs) == front + RenderRun(last);
    if merged {
      var tail := "-" + IntToString(lastId);
      assert RenderRun(last) == head + tail;
      assert front + (head + tail) == (front + head) + tail;
    } else {
      assert RenderRun(last) == head + "";
      assert front + (head + "") == front + head;
    }
  }

  /** An id that follows on extends the open run and prints nothing. */
  lemma {:induction false} ExtendRun(runs: seq<Run>, id: int)
    requires |runs| > 0 && runs[|runs| - 1].last + 1 == id
    ensures |AddToRuns(runs, id)| == |runs|
    ensures AddToRuns(runs, id)[|runs| - 1] == Run(runs[|runs| - 1].first, id)
    ensures OpenText(AddToRuns(runs, id)) == OpenText(runs)
  {
    var next := AddToRuns(runs, id);
    assert next[..|next| - 1] == runs[..|runs| - 1];
  }

  /**
   * Any other id closes the open run, if there is one, and opens a new run
   * by printing "/id".
   */
  lemma {:induction false} StartRun(runs: seq<Run>, p: string, merged: bool, lastId: int, id: int)
    requires |runs| > 0 ==> runs[|runs| - 1].last == lastId && runs[|runs| - 1].last + 1 != id
    requires |runs| > 0 ==> (merged <==> runs[|runs| - 1].first != lastId)
    requires |runs| > 0 ==> p == OpenText(runs)
    requires |runs| == 0 ==> p == "" && !merged
    ensures AddToRuns(runs, id) == runs + [Run(id, id)]
    ensures merged ==> OpenText(runs + [Run(id, id)]) == p + "-" + IntToString(lastId) + "/" + IntToString(id)
    ensures !merged ==> OpenText(runs + [Run(id, id)]) == p + "/" + IntToString(id)
  {
    var next := runs + [Run(id, id)];
    assert next[..|next| - 1] == runs;
    if |runs| > 0 {
      CloseRun(runs, p, merged, lastId);
    } else {
      assert p == RenderRuns(runs);
    }
  }

  /**
   * The state of pathIdsString after the ids `ids`: the last id, whether the
   * open run is longer than one id, and the text printed so far.
   */
  ghost predicate Printing(ids: seq<int>, p: string, lastId: int, merged: bool)
  {
    IntMin <= lastId && (lastId == IntMin ==> !merged) &&
    if |ids| == 0 then lastId == IntMin && !merged && p == ""
    else
      var runs := Runs(ids);
      lastId == ids[|ids| - 1] && (merged <==> runs[|runs| - 1].first != lastId) && p == OpenText(runs)
  }

  /** One more id keeps the printing state in step with the runs. */
  lemma {:induction false} PrintAppend(ids: seq<int>, p: string, lastId: int, merged: bool,
                                       id: int, p': string, merged': bool)
    requires Printing(ids, p, lastId, merged)
    requires IntMin <= id && id != IntMin + 1
    requires id == lastId + 1 ==> p' == p && merged'
    requires id != lastId + 1 ==> !merged'
    requires id != lastId + 1 ==>
      p' == (if lastId != IntMin && merged then p + "-" + IntToString(lastId) else p) + "/" + IntToString(id)
    ensures Printing(ids + [id], p', id, merged')
  {
    var ids' := ids + [id];
    assert ids'[..|ids'| - 1] == ids;
    var runs := Runs(ids);
    assert Runs(ids') == AddToRuns(runs, id);
    if id == lastId + 1 {
      ExtendRun(runs, id);
    } else {
      StartRun(runs, p, merged, lastId, id);
      if lastId == IntMin {
        assert p' == p + "/" + IntToString(id);
      }
    }
  }

  /** The next prefix of a sequence. */
  lemma PrefixStep(ids: seq<int>, i: nat)
    requires i < |ids|
    ensures ids[..i + 1] == ids[..i] + [ids[i]]
  {
  }

  /** One iteration of pathIdsString, stated on the prefixes of the sorted ids. */
  lemma {:induction false} PrintStep(ids: seq<int>, i: nat, p: string, lastId: int, merged: bool,
                                     p': string, merged': bool)
    requires i < |ids| && Printing(ids[..i], p, lastId, merged)
    requires IntMin <= ids[i] && ids[i] != IntMin + 1
    requires ids[i] == lastId + 1 ==> p' == p && merged'
    requires ids[i] != lastId + 1 ==> !merged'
    requires ids[i] != lastId + 1 ==>
      p' == (if lastId != IntMin && merged then p + "-" + IntToString(lastId) else p) + "/" + IntToString(ids[i])
    ensures Printing(ids[..i + 1], p', ids[i], merged')
  {
    var front := ids[..i];
    PrintAppend(front, p, lastId, merged, ids[i], p', merged');
    PrefixStep(ids, i);
  }

  /** After the last id, closing the open run gives the rendered runs. */
  lemma {:induction false} PrintDone(ids: seq<int>, p: string, lastId: int, merged: bool, p': string)
    requires Printing(ids, p, lastId, merged)
    requires p' == if merged then p + "-" + IntToString(lastId) else p
    ensures p' == RenderRuns(Runs(ids))
  {
    if |ids| > 0 {
      CloseRun(Runs(ids), p, merged, lastId);
    }
  }

  /**
   * The loop of pathIdsString: one pass over the sorted ids, remembering
   * the last id and whether the current run has grown beyond one id.  The
   * first id of the pass is compared with the sentinel Integer.MIN_VALUE,
   * so an id of Integer.MIN_VALUE + 1 is left out of the contract.
   */
  method PrintRuns(ids: seq<int>) returns (p: string)
    requires forall i :: 0 <= i < |ids| ==> IntMin <= ids[i]
    ensures (forall i :: 0 <= i < |ids| ==> ids[i] != IntMin + 1) ==> p == RenderRuns(Runs(ids))
  {
    ghost var clean := forall i :: 0 <= i < |ids| ==> ids[i] != IntMin + 1;
    p := "";
    var lastId := IntMin;
    var merged := false;
    var i := 0;
    while i < |ids|
      invariant 0 <= i <= |ids|
      invariant clean ==> Printing(ids[..i], p, lastId, merged)
    {
      var id := ids[i];
      ghost var p0, merged0 := p, merged;
      if id == lastId + 1 {
        merged := true;
      } else if lastId != IntMin {
        if merged {
          p := p + "-" + IntToString(lastId);
        }
        p := p + "/" + IntToString(id);
        merged := false;
      } else {
        p := p + "/" + IntToString(id);
        merged := false;
      }
      if clean {
        PrintStep(ids, i, p0, lastId, merged0, p, merged);
      }
      lastId := id;
      i := i + 1;
    }
    ghost var p0 := p;
    if merged {
      p := p + "-" + IntToString(lastId);
    }
    if clean {
      assert ids[..i] == ids;
      PrintDone(ids, p0, lastId, merged, p);
    }
  }

  /**
   * pathIdsString: the runs of the sorted ids, or a star and the number of
   * paths when that text is longer than 30 characters.
   */
  method PathIdsString(paths: seq<Path>) returns (r: string)
    requires forall p :: p in paths ==> IsInt32(p.id)
    ensures (forall p :: p in paths ==> p.id != IntMin + 1) ==> r == PathIdsText(paths)
  {
    var sorted := SortInts(PathIds(paths));
    SortedIdsFromPaths(paths, sorted);
    forall i | 0 <= i < |sorted|
      ensures IntMin <= sorted[i]
      ensures (forall p :: p in paths ==> p.id != IntMin + 1) ==> sorted[i] != IntMin + 1
    {
      var k :| 0 <= k < |paths| && paths[k].id == sorted[i];
      assert paths[k] in paths;
    }
    var p := PrintRuns(sorted);
    if |p| > 30 {
      return "/*(" + IntToString(|paths|) + ")";
    }
    return p;
  }
}
