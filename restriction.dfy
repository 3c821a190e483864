/**
 * The restrictions the solver imposes on one intention
 * (IntentionRestriction.java): raise the earliest entry or lower the latest
 * exit of a set of edges, or mark a set of edges infeasible.  Edges are
 * indices into the intention's route graph.
 */
module Restrictions {
  import opened Common
  import opened TimeUtil

  datatype Restriction =
    | IncreaseMinTime(intention: string, minTime: int, edges: set<nat>)
    | DecreaseMaxTime(intention: string, maxTime: int, edges: set<nat>)
    | MarkPathInfeasible(intention: string, edges: set<nat>)
  {
    /** Every constructor refuses an empty edge set. */
    predicate Valid()
    {
      edges != {}
    }

    /** getRestrictionInterval: [minTime, TMAX], [0, maxTime], or none for an infeasibility mark. */
    function RestrictionInterval(): (r: Option<Interval>)
      ensures r.None? <==> this.MarkPathInfeasible?
      ensures this.IncreaseMinTime? ==> r.value.start == minTime && r.value.end == TMAX
      ensures this.DecreaseMaxTime? ==> r.value.start == 0 && r.value.end == maxTime
    {
      match this
      case IncreaseMinTime(_, minTime, _) => Some(Interval(minTime, TMAX))
      case DecreaseMaxTime(_, maxTime, _) => Some(Interval(0, maxTime))
      case MarkPathInfeasible(_, _) => None
    }
  }

  /**
   * equals, as the Java classes chain it: the base class compares the
   * intention, each subclass its kind, its time and its edge set.
   */
  predicate SameRestriction(a: Restriction, b: Restriction)
  {
    a.intention == b.intention &&
    match (a, b)
    case (IncreaseMinTime(_, t1, e1), IncreaseMinTime(_, t2, e2)) => t1 == t2 && e1 == e2
    case (DecreaseMaxTime(_, t1, e1), DecreaseMaxTime(_, t2, e2)) => t1 == t2 && e1 == e2
    case (MarkPathInfeasible(_, e1), MarkPathInfeasible(_, e2)) => e1 == e2
    case _ => false
  }

  /** Java equality of restrictions is value equality. */
  lemma SameRestrictionIsEquality(a: Restriction, b: Restriction)
    ensures SameRestriction(a, b) <==> a == b
  {
  }

  /**
   * merge: the first infeasibility mark of an intention is taken as is,
   * a further one is united with it.  Merging marks of two intentions is
   * refused.
   */
  function Merge(existing: Option<Restriction>, restriction: Restriction): (r: Restriction)
    requires restriction.MarkPathInfeasible?
    requires existing.Some? ==> existing.value.MarkPathInfeasible? && existing.value.intention == restriction.intention
    ensures r.MarkPathInfeasible? && r.intention == restriction.intention
    ensures existing.None? ==> r == restriction
    ensures existing.Some? ==> r.edges == existing.value.edges + restriction.edges
    ensures restriction.Valid() ==> r.Valid()
  {
    if existing.None? then restriction
    else MarkPathInfeasible(existing.value.intention, existing.value.edges + restriction.edges)
  }

  /** Merging marks in either order gives the same mark. */
  lemma {:induction false} MergeCommutes(a: Restriction, b: Restriction)
    requires a.MarkPathInfeasible? && b.MarkPathInfeasible? && a.intention == b.intention
    ensures Merge(Some(a), b) == Merge(Some(b), a)
  {
    assert a.edges + b.edges == b.edges + a.edges;
  }
}
