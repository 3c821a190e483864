/**
 * The work list of restrictions still to apply (IntentionRestrictionQueue.java).
 * Infeasibility marks are kept merged, one per intention, and are handed
 * out before any time restriction; time restrictions are kept as a set per
 * intention, so equal ones are stored once.  Which intention or restriction
 * a hash iteration yields first is not specified: pop chooses arbitrarily.
 */
module RestrictionQueues {
  import opened Common
  import opened Restrictions

  /** The time restrictions of a list. */
  function TimesOf(rs: seq<Restriction>): set<Restriction>
  {
    set r | r in rs && !r.MarkPathInfeasible?
  }

  /** The intentions a list marks infeasible. */
  function MarkedOf(rs: seq<Restriction>): set<string>
  {
    set r | r in rs && r.MarkPathInfeasible? :: r.intention
  }

  lemma UnionAssoc<T>(a: set<T>, b: set<T>, c: set<T>)
    ensures a + b + c == a + (b + c)
  {
  }

  lemma WholePrefix(rs: seq<Restriction>)
    ensures rs[..|rs|] == rs
  {
  }

  /** Growing a prefix by one restriction grows its time restrictions or its marked intentions by it. */
  lemma PrefixStep(rs: seq<Restriction>, k: nat)
    requires k < |rs|
    ensures TimesOf(rs[..k + 1]) == TimesOf(rs[..k]) + (if rs[k].MarkPathInfeasible? then {} else {rs[k]})
    ensures MarkedOf(rs[..k + 1]) == MarkedOf(rs[..k]) + (if rs[k].MarkPathInfeasible? then {rs[k].intention} else {})
  {
    assert rs[..k + 1] == rs[..k] + [rs[k]];
  }

  /** What a queue holds: each intention's time restrictions and its merged infeasibility mark. */
  datatype Contents = Contents(times: map<string, set<Restriction>>, marks: map<string, Restriction>)
  {
    /**
     * The restriction is waiting: a time restriction in its intention's
     * set, a mark whose edges its intention's merged mark covers.
     */
    predicate Waits(r: Restriction)
    {
      if r.MarkPathInfeasible? then r.intention in marks && r.edges <= marks[r.intention].edges
      else r.intention in times && r in times[r.intention]
    }

    /** Everything waiting in before still waits: sets only grow and marks only merge. */
    predicate Keeps(before: Contents)
    {
      (forall i :: i in before.times ==> i in times && before.times[i] <= times[i]) &&
      (forall i :: i in before.marks ==> i in marks && before.marks[i].edges <= marks[i].edges)
    }
  }

  /** A queue that keeps another's contents still has every restriction waiting there. */
  lemma KeptWaits(now: Contents, before: Contents, r: Restriction)
    requires now.Keeps(before) && before.Waits(r)
    ensures now.Waits(r)
  {
  }

  /** Keeping is transitive. */
  lemma KeepsTrans(c: Contents, b: Contents, a: Contents)
    requires c.Keeps(b) && b.Keeps(a)
    ensures c.Keeps(a)
  {
  }

  /**
   * What the popped restriction p answers for: itself, and when it is a
   * mark, every mark of its intention within its edges.
   */
  predicate Covers(p: Restriction, r: Restriction)
  {
    r == p || (p.MarkPathInfeasible? && r.MarkPathInfeasible? && r.intention == p.intention && r.edges <= p.edges)
  }

  class RestrictionQueue {
    /** intention -> its pending time restrictions (a multimap without empty entries) */
    var restrictions: map<string, set<Restriction>>
    /** intention -> its merged pending infeasibility mark */
    var infeasibleEdges: map<string, Restriction>
    var poppedElements: nat

    ghost predicate Valid()
      reads this
    {
      (forall i :: i in restrictions ==> restrictions[i] != {}) &&
      (forall i, r :: i in restrictions && r in restrictions[i] ==> !r.MarkPathInfeasible? && r.intention == i) &&
      (forall i :: i in infeasibleEdges ==>
        infeasibleEdges[i].MarkPathInfeasible? && infeasibleEdges[i].intention == i)
    }

    /** The queue's contents as a value. */
    function Held(): Contents
      reads this
    {
      Contents(restrictions, infeasibleEdges)
    }

    /** Every time restriction waiting in the queue. */
    ghost function PendingTimes(): set<Restriction>
      reads this
    {
      set i, r | i in restrictions && r in restrictions[i] :: r
    }

    /** Every restriction waiting in the queue. */
    ghost function Pending(): set<Restriction>
      reads this
    {
      (set i | i in infeasibleEdges :: infeasibleEdges[i]) + PendingTimes()
    }

    constructor ()
      ensures Valid() && IsEmpty() && poppedElements == 0
      ensures restrictions == map[] && infeasibleEdges == map[]
    {
      restrictions := map[];
      infeasibleEdges := map[];
      poppedElements := 0;
    }

    /** isEmpty: no infeasibility mark and no time restriction is waiting. */
    predicate IsEmpty()
      reads this
    {
      infeasibleEdges == map[] && restrictions == map[]
    }

    /** A queue is empty exactly when nothing is pending. */
    lemma EmptyIffNothingPending()
      requires Valid()
      ensures IsEmpty() <==> Pending() == {}
    {
      if infeasibleEdges != map[] {
        var i :| i in infeasibleEdges;
        assert infeasibleEdges[i] in Pending();
      } else if restrictions != map[] {
        var i :| i in restrictions;
        var r :| r in restrictions[i];
        assert r in Pending();
      }
    }

    /** add: marks are merged into the intention's slot, anything else joins its set. */
    method Add(restriction: Restriction)
      requires Valid()
      modifies this
      ensures Valid()
      ensures poppedElements == old(poppedElements)
      ensures restriction.MarkPathInfeasible? ==>
        restrictions == old(restrictions) &&
        infeasibleEdges == old(infeasibleEdges)[restriction.intention :=
          Merge(if restriction.intention in old(infeasibleEdges)
                then Some(old(infeasibleEdges)[restriction.intention]) else None, restriction)]
      ensures !restriction.MarkPathInfeasible? ==>
        infeasibleEdges == old(infeasibleEdges) &&
        restrictions == old(restrictions)[restriction.intention :=
          (if restriction.intention in old(restrictions) then old(restrictions)[restriction.intention] else {})
          + {restriction}]
      ensures PendingTimes() == old(PendingTimes()) + (if restriction.MarkPathInfeasible? then {} else {restriction})
      ensures infeasibleEdges.Keys ==
        old(infeasibleEdges).Keys + (if restriction.MarkPathInfeasible? then {restriction.intention} else {})
      ensures Held().Keeps(old(Held())) && Held().Waits(restriction)
    {
      if restriction.MarkPathInfeasible? {
        AddInfeasible(restriction);
      } else {
        ghost var before := restrictions;
        var existing := if restriction.intention in restrictions then restrictions[restriction.intention] else {};
        restrictions := restrictions[restriction.intention := existing + {restriction}];
        TimeRestrictionAdded(before, restriction);
      }
    }

    method AddInfeasible(restriction: Restriction)
      requires Valid() && restriction.MarkPathInfeasible?
      modifies this
      ensures Valid()
      ensures restrictions == old(restrictions) && poppedElements == old(poppedElements)
      ensures infeasibleEdges == old(infeasibleEdges)[restriction.intention :=
        Merge(if restriction.intention in old(infeasibleEdges)
              then Some(old(infeasibleEdges)[restriction.intention]) else None, restriction)]
    {
      var existing := if restriction.intention in infeasibleEdges then Some(infeasibleEdges[restriction.intention]) else None;
      infeasibleEdges := infeasibleEdges[restriction.intention := Merge(existing, restriction)];
    }

    /** Adding a time restriction to its intention's set adds exactly it to the pending time restrictions. */
    lemma TimeRestrictionAdded(before: map<string, set<Restriction>>, r: Restriction)
      requires !r.MarkPathInfeasible?
      requires restrictions == before[r.intention :=
        (if r.intention in before then before[r.intention] else {}) + {r}]
      ensures PendingTimes() == (set i, x | i in before && x in before[i] :: x) + {r}
    {
      var old_ := set i, x | i in before && x in before[i] :: x;
      forall x | x in PendingTimes()
        ensures x in old_ + {r}
      {
        var i :| i in restrictions && x in restrictions[i];
        if i != r.intention || x != r {
          assert i in before && x in before[i];
        }
      }
      forall x | x in old_ + {r}
        ensures x in PendingTimes()
      {
        if x != r {
          var i :| i in before && x in before[i];
          assert i in restrictions && x in restrictions[i];
        } else {
          assert r.intention in restrictions && r in restrictions[r.intention];
        }
      }
    }

    /**
     * addAll: add, in list order.  Afterwards every time restriction of the
     * list is pending, every intention with a mark in the list has a
     * merged mark, and every restriction of the list waits.
     */
    method AddAll(rs: seq<Restriction>)
      requires Valid()
      modifies this
      ensures Valid() && poppedElements == old(poppedElements)
      ensures PendingTimes() == old(PendingTimes()) + TimesOf(rs)
      ensures infeasibleEdges.Keys == old(infeasibleEdges).Keys + MarkedOf(rs)
      ensures Held().Keeps(old(Held())) && forall r :: r in rs ==> Held().Waits(r)
    {
      ghost var popped0, pending0, marked0 := poppedElements, PendingTimes(), infeasibleEdges.Keys;
      var k := 0;
      while k < |rs|
        invariant 0 <= k <= |rs|
        invariant Valid() && poppedElements == popped0
        invariant PendingTimes() == pending0 + TimesOf(rs[..k])
        invariant infeasibleEdges.Keys == marked0 + MarkedOf(rs[..k])
        invariant Held().Keeps(old(Held())) && forall j :: 0 <= j < k ==> Held().Waits(rs[j])
      {
        ghost var before := Held();
        Add(rs[k]);
        KeepsTrans(Held(), before, old(Held()));
        forall j | 0 <= j < k
          ensures Held().Waits(rs[j])
        {
          KeptWaits(Held(), before, rs[j]);
        }
        PrefixStep(rs, k);
        UnionAssoc(pending0, TimesOf(rs[..k]), if rs[k].MarkPathInfeasible? then {} else {rs[k]});
        UnionAssoc(marked0, MarkedOf(rs[..k]), if rs[k].MarkPathInfeasible? then {rs[k].intention} else {});
        k := k + 1;
      }
      WholePrefix(rs);
    }

    /**
     * pop: a pending infeasibility mark whenever there is one, otherwise
     * some pending time restriction; it leaves the queue and the popped
     * count grows by one.  An empty queue throws.
     */
    method Pop() returns (result: Restriction)
      requires Valid() && !IsEmpty()
      modifies this
      ensures Valid()
      ensures poppedElements == old(poppedElements) + 1
      ensures result in old(Pending())
      ensures old(infeasibleEdges) != map[] ==>
        result.MarkPathInfeasible? && result.intention in old(infeasibleEdges) &&
        result == old(infeasibleEdges)[result.intention] &&
        infeasibleEdges == old(infeasibleEdges) - {result.intention} &&
        restrictions == old(restrictions)
      ensures old(infeasibleEdges) == map[] ==>
        !result.MarkPathInfeasible? && result.intention in old(restrictions) &&
        result in old(restrictions)[result.intention] &&
        infeasibleEdges == old(infeasibleEdges) &&
        restrictions == RemoveFrom(old(restrictions), result.intention, result)
      ensures forall r :: old(Held()).Waits(r) ==> Held().Waits(r) || Covers(result, r)
    {
      if infeasibleEdges != map[] {
        var intention :| intention in infeasibleEdges;
        poppedElements := poppedElements + 1;
        result := infeasibleEdges[intention];
        infeasibleEdges := infeasibleEdges - {intention};
        return;
      }
      var intention :| intention in restrictions;
      var r := restrictions[intention];
      result :| result in r;
      restrictions := RemoveFrom(restrictions, intention, result);
      poppedElements := poppedElements + 1;
    }
  }

  /** HashMultiMap.remove: the value leaves the key's set, and a key whose set empties leaves the map. */
  function RemoveFrom(m: map<string, set<Restriction>>, key: string, value: Restriction): (r: map<string, set<Restriction>>)
    requires key in m
    ensures forall k :: k in r ==> k in m
    ensures forall k :: k in m && k != key ==> k in r && r[k] == m[k]
    ensures key in r <==> m[key] - {value} != {}
    ensures key in r ==> r[key] == m[key] - {value}
  {
    var rest := m[key] - {value};
    if rest == {} then m - {key} else m[key := rest]
  }
}
