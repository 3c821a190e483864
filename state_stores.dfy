/*
 * Copy-on-write stores of the state changer: the resource plans and the
 * graph constraints of a state, copied the first time they change.
 */
module Stores {
  import opened Common
  import opened Occupation
  import opened ResourceOccupations
  import opened RestrictionQueues
  import opened Constraints
  import opened TimeBounds
  import opened ResourcePlans
  import opened RouteGraphs
  import opened Restrictions
  import Util

  /** Debug.MAX_PENALTY_PER_INTENTION */
  const MaxPenaltyPerIntention: real := 28.0

  /**
   * The budget increaseMinPenalty gives one intention: Math.min of the
   * per-intention cap and the intention's minimum penalty plus what is
   * left of the overall budget (an infinite minimum leaves the cap).
   */
  function Budget(minPenalty: Penalty, remaining: real): (r: real)
    ensures r <= MaxPenaltyPerIntention
    ensures minPenalty.Fin? && minPenalty.value + remaining < MaxPenaltyPerIntention ==> r == minPenalty.value + remaining
    ensures minPenalty.Inf? || minPenalty.value + remaining >= MaxPenaltyPerIntention ==> r == MaxPenaltyPerIntention
  {
    if minPenalty.Fin? && minPenalty.value + remaining < MaxPenaltyPerIntention then minPenalty.value + remaining
    else MaxPenaltyPerIntention
  }

  /**
   * Copy on write: the keys stay those of the initial map; a key not yet
   * copied still holds the initial value, a copied key holds an object of
   * its own that the initial map does not hold.
   */
  ghost predicate CopiedOnWrite<T>(current: map<string, T>, initial: map<string, T>, copied: set<string>)
  {
    current.Keys == initial.Keys && copied <= current.Keys &&
    (forall k :: k in current && k !in copied ==> current[k] == initial[k]) &&
    (forall k, j :: k in copied && j in initial ==> current[k] != initial[j]) &&
    (forall k1, k2 :: k1 in copied && k2 in copied && k1 != k2 ==> current[k1] != current[k2])
  }

  /** The times a plan holds for an occupation, if any. */
  function PlannedTimes(times: map<ResourceOccupation, OccupationTimes>, o: ResourceOccupation): Option<OccupationTimes>
  {
    if o in times then Some(times[o]) else None
  }

  /** The times map after setting (Some) or removing (None) one occupation's times. */
  function Stored(times: map<ResourceOccupation, OccupationTimes>, o: ResourceOccupation, t: Option<OccupationTimes>)
    : (r: map<ResourceOccupation, OccupationTimes>)
    ensures PlannedTimes(r, o) == t
    ensures forall p :: p != o ==> PlannedTimes(r, p) == PlannedTimes(times, p)
  {
    if t.Some? then times[o := t.value] else times - {o}
  }

  /** Installing a new object under a key not yet copied keeps copy on write. */
  lemma CopyInstalled<T>(current: map<string, T>, initial: map<string, T>, copied: set<string>, k: string, v: T)
    requires CopiedOnWrite(current, initial, copied) && k in current && k !in copied
    requires forall j :: j in initial ==> v != initial[j]
    requires forall j :: j in current ==> v != current[j]
    ensures CopiedOnWrite(current[k := v], initial, copied + {k})
  {
  }

  ghost predicate PlansValid(plans: map<string, ResourcePlan>)
    reads plans.Values
  {
    forall k {:trigger plans[k].Valid()} :: k in plans ==> plans[k].Valid()
  }

  /** Constraints held by a state are valid and need no update, so they can be copied and queried. */
  ghost predicate ConstraintsValid(constraints: map<string, GraphConstraints>)
    reads constraints.Values
  {
    forall k {:trigger constraints[k].Valid()} {:trigger constraints[k].Clean()} ::
      k in constraints ==> constraints[k].Valid() && constraints[k].Clean()
  }

  /**
   * The bounds of one intention's edges that the connection constraints
   * read, with the minimum penalty the constraints hold on them.
   */
  datatype EdgeBounds = EdgeBounds(edges: seq<Edge>, timeConstraints: seq<TimeConstraint>, infeasibleEdges: set<nat>,
                                   minPenalty: Penalty)
  {
    predicate Sized()
    {
      |timeConstraints| == |edges|
    }

    predicate Feasible(e: nat)
    {
      e < |edges| && e !in infeasibleEdges
    }
  }

  function BoundsOf(gc: GraphConstraints): (b: EdgeBounds)
    reads gc
    requires gc.Valid()
    ensures b.Sized()
  {
    Bounds(gc)
  }

  /** The bounds of every intention's constraints. */
  ghost function BoundsMap(gcs: map<string, GraphConstraints>): (bs: map<string, EdgeBounds>)
    reads gcs.Values
    requires ConstraintsValid(gcs)
    ensures bs.Keys == gcs.Keys
  {
    map k | k in gcs :: BoundsOf(gcs[k])
  }

  /**
   * What applyTo achieves: the restriction's edges are edges of the graph
   * and each is infeasible or enters no earlier than the minimum time
   * (leaves no later than the maximum time); a mark holds once all its
   * edges are infeasible.
   */
  predicate Enforced(r: Restriction, b: EdgeBounds)
    requires b.Sized()
  {
    EdgeSet(r.edges, |b.edges|) &&
    match r
    case IncreaseMinTime(_, minTime, edges) =>
      forall e :: e in edges ==> e in b.infeasibleEdges || b.timeConstraints[e].entryEarliest >= minTime
    case DecreaseMaxTime(_, maxTime, edges) =>
      forall e :: e in edges ==> e in b.infeasibleEdges || b.timeConstraints[e].exitLatest <= maxTime
    case MarkPathInfeasible(_, edges) => edges <= b.infeasibleEdges
  }

  /** The bounds b2 narrow b1: the same graph, no window wider, no infeasible edge feasible again. */
  predicate Tightens(b2: EdgeBounds, b1: EdgeBounds)
  {
    b2.edges == b1.edges && Tighter(b2.timeConstraints, b1.timeConstraints) && b1.infeasibleEdges <= b2.infeasibleEdges
  }

  /** What applyTo promises of each kind of restriction is that it holds. */
  lemma EnforcedByKind(r: Restriction, b: EdgeBounds)
    requires b.Sized() && EdgeSet(r.edges, |b.edges|)
    requires r.IncreaseMinTime? ==> forall e | e in r.edges :: e in b.infeasibleEdges || b.timeConstraints[e].entryEarliest >= r.minTime
    requires r.DecreaseMaxTime? ==> forall e | e in r.edges :: e in b.infeasibleEdges || b.timeConstraints[e].exitLatest <= r.maxTime
    requires r.MarkPathInfeasible? ==> r.edges <= b.infeasibleEdges
    ensures Enforced(r, b)
  {
  }

  /** A restriction that holds keeps holding as the bounds narrow. */
  lemma {:induction false} EnforcedKept(r: Restriction, b1: EdgeBounds, b2: EdgeBounds)
    requires b1.Sized() && b2.Sized() && Tightens(b2, b1) && Enforced(r, b1)
    ensures Enforced(r, b2)
  {
    forall e | e in r.edges && e !in b2.infeasibleEdges
      ensures Within(b2.timeConstraints[e], b1.timeConstraints[e])
    {
    }
  }

  /** The popped restriction holding, everything it covers holds. */
  lemma EnforcedCovered(p: Restriction, r: Restriction, b: EdgeBounds)
    requires b.Sized() && Covers(p, r) && Enforced(p, b)
    ensures Enforced(r, b)
  {
  }

  /**
   * Bounds bs that narrow the floor, with every restriction of met
   * holding on its intention's bounds.
   */
  ghost predicate NarrowedFrom(floor: map<string, EdgeBounds>, bs: map<string, EdgeBounds>, met: set<Restriction>)
  {
    bs.Keys == floor.Keys &&
    (forall k {:trigger Tightens(bs[k], floor[k])} :: k in bs ==> bs[k].Sized() && Tightens(bs[k], floor[k])) &&
    (forall r :: r in met ==> r.intention in bs && bs[r.intention].Sized() && Enforced(r, bs[r.intention]))
  }

  /** Narrowing one intention's bounds keeps the floor narrowed and every restriction met. */
  lemma NarrowKept(floor: map<string, EdgeBounds>, bs1: map<string, EdgeBounds>, bs2: map<string, EdgeBounds>,
                   met: set<Restriction>, k: string)
    requires NarrowedFrom(floor, bs1, met) && k in bs1 && k in bs2 && bs2 == bs1[k := bs2[k]]
    requires bs2[k].Sized() && Tightens(bs2[k], bs1[k])
    ensures NarrowedFrom(floor, bs2, met)
  {
    assert Tightens(bs1[k], floor[k]);
    forall j | j in bs2
      ensures bs2[j].Sized() && Tightens(bs2[j], floor[j])
    {
      assert Tightens(bs1[j], floor[j]);
    }
    forall r | r in met
      ensures r.intention in bs2 && bs2[r.intention].Sized() && Enforced(r, bs2[r.intention])
    {
      if r.intention == k {
        EnforcedKept(r, bs1[k], bs2[k]);
      }
    }
  }

  /** A restriction that holds joins the ones met. */
  lemma NarrowedAdd(floor: map<string, EdgeBounds>, bs: map<string, EdgeBounds>, met: set<Restriction>, r: Restriction)
    requires NarrowedFrom(floor, bs, met) && r.intention in bs && bs[r.intention].Sized() && Enforced(r, bs[r.intention])
    ensures NarrowedFrom(floor, bs, met + {r})
  {
    forall p | p in met + {r}
      ensures p.intention in bs && bs[p.intention].Sized() && Enforced(p, bs[p.intention])
    {
      if p != r {
        assert p in met;
      }
    }
    forall k | k in bs
      ensures bs[k].Sized() && Tightens(bs[k], floor[k])
    {
      assert Tightens(bs[k], floor[k]);
    }
  }


  /** The bounds of one intention's constraints, valid or not. */
  function Bounds(gc: GraphConstraints): EdgeBounds
    reads gc
  {
    EdgeBounds(gc.edges, gc.timeConstraints, gc.infeasibleEdges, gc.minPenalty)
  }

  /**
   * The minimum penalty of bounds b, narrowed from f: f's own, or the
   * positive path penalty of the windows w between the two.
   */
  ghost predicate Priced(pathPenalty: PathPenalty, f: EdgeBounds, b: EdgeBounds, w: EdgeBounds)
  {
    PricedBetween(pathPenalty, f.minPenalty, b.minPenalty, f.timeConstraints, f.infeasibleEdges,
                  w.timeConstraints, w.infeasibleEdges, b.timeConstraints, b.infeasibleEdges)
  }

  /**
   * Pricing composes: bounds priced from f by w1, narrowed again and
   * repriced by w2, are priced from f by w1 when the penalty stayed and by
   * w2 when it moved.
   */
  lemma PricedChain(pathPenalty: PathPenalty, f: EdgeBounds, b1: EdgeBounds, w1: EdgeBounds,
                    b2: EdgeBounds, w2: EdgeBounds)
    requires Priced(pathPenalty, f, b1, w1) && Priced(pathPenalty, b1, b2, w2)
    requires Tighter(b1.timeConstraints, f.timeConstraints) && f.infeasibleEdges <= b1.infeasibleEdges
    requires Tighter(b2.timeConstraints, b1.timeConstraints) && b1.infeasibleEdges <= b2.infeasibleEdges
    ensures Priced(pathPenalty, f, b2, if b2.minPenalty == b1.minPenalty then w1 else w2)
  {
    if b2.minPenalty == b1.minPenalty {
      if b1.minPenalty != f.minPenalty {
        TighterTrans(b2.timeConstraints, b1.timeConstraints, w1.timeConstraints);
      }
    } else {
      TighterTrans(w2.timeConstraints, b1.timeConstraints, f.timeConstraints);
    }
  }

  /** Narrowing windows twice narrows them. */
  lemma TighterTrans(tc3: seq<TimeConstraint>, tc2: seq<TimeConstraint>, tc1: seq<TimeConstraint>)
    requires Tighter(tc3, tc2) && Tighter(tc2, tc1)
    ensures Tighter(tc3, tc1)
  {
    forall i | 0 <= i < |tc1|
      ensures Within(tc3[i], tc1[i])
    {
      assert Within(tc3[i], tc2[i]) && Within(tc2[i], tc1[i]);
    }
  }

  /** The bounds bs are those of the constraints cs. */
  ghost predicate Mirrors(bs: map<string, EdgeBounds>, cs: map<string, GraphConstraints>)
    reads cs.Values
  {
    bs.Keys == cs.Keys &&
    forall k {:trigger Bounds(cs[k])} :: k in cs ==> bs[k] == Bounds(cs[k])
  }

  lemma MirrorInstalled(bs: map<string, EdgeBounds>, cs: map<string, GraphConstraints>, k: string, gc: GraphConstraints)
    requires Mirrors(bs, cs) && k in cs
    requires Bounds(gc) == bs[k]
    ensures Mirrors(bs, cs[k := gc])
  {
  }

  lemma ConstraintsInstalled(cs: map<string, GraphConstraints>, k: string, gc: GraphConstraints)
    requires ConstraintsValid(cs) && gc.Valid() && gc.Clean()
    ensures ConstraintsValid(cs[k := gc])
  {
  }

  /** The same plan contents in two objects. */
  ghost predicate SamePlan(a: ResourcePlan, b: ResourcePlan)
    reads a, b
  {
    a.resource == b.resource && a.releaseSeconds == b.releaseSeconds && a.boost == b.boost &&
    a.occupationsByIntention == b.occupationsByIntention && a.timeByOccupation == b.timeByOccupation &&
    a.mergedOccupation == b.mergedOccupation && a.intentOccupations == b.intentOccupations
  }

  /** The same constraint contents in two objects. */
  ghost predicate SameConstraints(a: GraphConstraints, b: GraphConstraints)
    reads a, b
  {
    a.edges == b.edges && a.sortedNodes == b.sortedNodes && a.sortedEdges == b.sortedEdges &&
    a.minDurations == b.minDurations && a.latestAllowedTimes == b.latestAllowedTimes &&
    a.timeConstraints == b.timeConstraints && a.infeasibleEdges == b.infeasibleEdges &&
    a.Penalties() == b.Penalties() && a.pathPenalty == b.pathPenalty
  }

  /**
   * The branch of updateResourcePlan that writes the plan: remove the
   * occupation when it has no times, set them otherwise.
   */
  method SetOrRemove(plan: ResourcePlan, occupation: ResourceOccupation, times: Option<OccupationTimes>,
                     queue: RestrictionQueue) returns (ok: bool)
    requires plan.Valid() && queue.Valid()
    modifies plan, queue
    ensures ok ==> plan.Valid()
    ensures plan.timeByOccupation == Stored(old(plan.timeByOccupation), occupation, times)
    ensures queue.Valid() && queue.poppedElements == old(queue.poppedElements)
    ensures queue.Held().Keeps(old(queue.Held()))
  {
    if times.None? {
      ok := plan.Remove(occupation, queue);
    } else {
      ok := plan.Set(occupation, times.value, queue);
    }
  }

  /**
   * The state changer's resource plans with the copiedResourcePlans set:
   * a plan is copied the first time it is prepared for modification.
   */
  class PlanStore {
    /** The plans of the state the changer started from. */
    ghost const initial: map<string, ResourcePlan>
    var copied: set<string>
    var plans: map<string, ResourcePlan>
    /** The copies made so far, the only plans the changer may change. */
    ghost var owned: set<ResourcePlan>

    /** Copy on write, with every copy owned and no owned plan one of the initial ones. */
    ghost predicate Copying()
      reads this
    {
      CopiedOnWrite(plans, initial, copied) &&
      (forall k :: k in copied ==> plans[k] in owned) &&
      (forall p, j :: p in owned && j in initial ==> p != initial[j])
    }

    ghost predicate Valid()
      reads this, plans.Values
    {
      Copying() && PlansValid(plans)
    }

    constructor (plans: map<string, ResourcePlan>)
      requires PlansValid(plans)
      ensures Valid() && initial == plans && this.plans == plans && copied == {} && owned == {}
    {
      initial := plans;
      this.plans := plans;
      copied := {};
      owned := {};
    }

    /**
     * prepareResourcePlanForModification: the first call for a resource
     * installs a copy under it; every call returns the plan now installed.
     */
    method Prepare(resource: string) returns (plan: ResourcePlan)
      requires Valid() && resource in plans
      modifies this
      ensures Valid() && plan == plans[resource] && owned == old(owned) + {plan}
      ensures copied == old(copied) + {resource}
      ensures forall k :: k in plans && k != resource ==> plans[k] != plan
      ensures resource in old(copied) ==> plans == old(plans) && plan in old(owned)
      ensures resource !in old(copied) ==>
        fresh(plan) && plans == old(plans)[resource := plan] && SamePlan(plan, old(plans[resource]))
    {
      if resource in copied {
        return plans[resource];
      }
      plan := plans[resource].Copy();
      CopyInstalled(plans, initial, copied, resource, plan);
      copied := copied + {resource};
      plans := plans[resource := plan];
      owned := owned + {plan};
    }

    /**
     * The plan of a resource, prepared for modification, with the
     * occupation's times set (Some) or removed (None) and its scan's
     * restrictions queued; ok is false when the plan's interval checks fail.
     */
    method Store(resource: string, occupation: ResourceOccupation, times: Option<OccupationTimes>,
                 queue: RestrictionQueue) returns (ok: bool)
      requires Valid() && resource in plans && queue.Valid()
      modifies this, owned, queue
      ensures ok ==> Valid()
      ensures plans.Keys == old(plans.Keys) && copied == old(copied) + {resource}
      ensures plans[resource].timeByOccupation == Stored(old(plans[resource].timeByOccupation), occupation, times)
      ensures forall k :: k in plans && k != resource ==> plans[k].timeByOccupation == old(plans[k].timeByOccupation)
      ensures queue.Valid() && queue.poppedElements == old(queue.poppedElements)
      ensures queue.Held().Keeps(old(queue.Held()))
      ensures forall p :: p in owned ==> p in old(owned) || fresh(p)
    {
      var plan := Prepare(resource);
      ok := SetOrRemove(plan, occupation, times, queue);
    }
  }

  /** Plans that no step has touched stay valid. */
  twostate lemma PlansKept(ps: PlanStore)
    requires old(ps.Valid()) && unchanged(ps)
    requires forall k :: k in ps.plans ==> unchanged(ps.plans[k])
    ensures ps.Valid()
  {
  }

  /** Constraints that no step has touched stay valid. */
  twostate lemma ConstraintsKept(cs: ConstraintStore)
    requires old(cs.Valid()) && unchanged(cs)
    requires forall k :: k in cs.constraints ==> unchanged(cs.constraints[k])
    ensures cs.Valid()
  {
  }

  /**
   * The state changer's graph constraints with the copiedGraphConstraints
   * set: constraints are copied the first time they are prepared for
   * modification.
   */
  class ConstraintStore {
    /** The constraints of the state the changer started from. */
    ghost const initial: map<string, GraphConstraints>
    var copied: set<string>
    var constraints: map<string, GraphConstraints>
    /** The copies made so far, the only constraints the changer may change. */
    ghost var owned: set<GraphConstraints>
    /** The bounds of the initial constraints, which the installed ones only ever narrow. */
    ghost const floor: map<string, EdgeBounds>
    /** The restrictions applied so far. */
    ghost var met: set<Restriction>
    /** The bounds of the installed constraints. */
    ghost var bounds: map<string, EdgeBounds>

    /** Copy on write, with every copy owned and no owned constraints among the initial ones. */
    ghost predicate Copying()
      reads this
    {
      CopiedOnWrite(constraints, initial, copied) &&
      (forall k :: k in copied ==> constraints[k] in owned) &&
      (forall g, j :: g in owned && j in initial ==> g != initial[j])
    }

    /**
     * Every intention's bounds narrow its initial ones, and every
     * restriction applied so far holds on its intention's bounds.
     */
    ghost predicate Narrowed()
      reads this, constraints.Values
      requires ConstraintsValid(constraints)
    {
      Mirrors(bounds, constraints) && NarrowedFrom(floor, bounds, met)
    }

    /**
     * The restriction r was applied on top of the bounds before: it holds
     * on its intention's narrowed bounds, and no other intention's bounds
     * changed.
     */
    ghost predicate Applied(r: Restriction, before: map<string, EdgeBounds>)
      reads this
    {
      r in met && r.intention in bounds && r.intention in before &&
      bounds[r.intention].Sized() && Enforced(r, bounds[r.intention]) &&
      bounds == before[r.intention := bounds[r.intention]] && Tightens(bounds[r.intention], before[r.intention])
    }

    ghost predicate Valid()
      reads this, constraints.Values
    {
      Copying() && ConstraintsValid(constraints) && Narrowed()
    }

    /**
     * The intentions increaseMinPenalty has been through: their
     * constraints were copied and are within the per-intention cap.
     */
    ghost predicate Capped(done: set<string>)
      reads this, constraints.Values
    {
      forall k :: k in done && k in constraints ==>
        k in copied && constraints[k].maxPenalty.AtMost(Fin(MaxPenaltyPerIntention))
    }

    constructor (constraints: map<string, GraphConstraints>)
      requires ConstraintsValid(constraints)
      ensures Valid() && initial == constraints && this.constraints == constraints && copied == {} && owned == {}
      ensures floor == BoundsMap(constraints) && bounds == floor && met == {}
    {
      initial := constraints;
      this.constraints := constraints;
      copied := {};
      owned := {};
      floor := BoundsMap(constraints);
      met := {};
      bounds := BoundsMap(constraints);
    }

    /**
     * prepareGraphConstraintsForModification: the first call for an
     * intention installs a copy under it; every call returns the
     * constraints now installed.
     */
    method Prepare(intention: string) returns (gc: GraphConstraints)
      requires Valid() && intention in constraints
      modifies this
      ensures Valid() && gc == constraints[intention] && owned == old(owned) + {gc}
      ensures copied == old(copied) + {intention} && met == old(met) && bounds == old(bounds)
      ensures forall k :: k in constraints && k != intention ==> constraints[k] != gc
      ensures constraints == old(constraints)[intention := gc]
      ensures intention in old(copied) ==> constraints == old(constraints) && gc in old(owned)
      ensures intention !in old(copied) ==>
        fresh(gc) && constraints == old(constraints)[intention := gc] &&
        SameConstraints(gc, old(constraints[intention]))
    {
      if intention in copied {
        gc := constraints[intention];
        assert constraints == constraints[intention := gc];
        return;
      }
      gc := constraints[intention].Copy();
      assert Bounds(gc) == Bounds(constraints[intention]);
      Install(intention, gc);
    }

    /** Installs the copy gc under the intention. */
    method Install(intention: string, gc: GraphConstraints)
      requires Valid() && intention in constraints && intention !in copied
      requires gc.Valid() && gc.Clean() && gc !in owned && Bounds(gc) == bounds[intention]
      requires forall j :: j in initial ==> gc != initial[j]
      requires forall j :: j in constraints ==> gc != constraints[j]
      modifies this
      ensures Valid() && owned == old(owned) + {gc} && copied == old(copied) + {intention}
      ensures constraints == old(constraints)[intention := gc] && met == old(met) && bounds == old(bounds)
    {
      CopyInstalled(constraints, initial, copied, intention, gc);
      ConstraintsInstalled(constraints, intention, gc);
      MirrorInstalled(bounds, constraints, intention, gc);
      copied, constraints, owned := copied + {intention}, constraints[intention := gc], owned + {gc};
    }

    /**
     * The part of drainQueue that applies one restriction: the intention's
     * constraints, prepared for modification, are restricted as applyTo
     * promises (windows only tighten, no edge becomes feasible again, and
     * every edge of the restriction ends infeasible or within its time);
     * no other intention's constraints change.  Affected are the nodes
     * applyTo reports; before and after the minimum penalty around the
     * change.
     */
    method Restrict(intention: string, r: Restriction)
      returns (affected: set<int>, feasible: bool, before: Penalty, after: Penalty, ghost w: EdgeBounds)
      requires Valid() && intention in constraints && r.intention == intention
      requires EdgeSet(r.edges, |constraints[intention].edges|)
      modifies this, owned
      ensures Valid() && constraints.Keys == old(constraints.Keys) && copied == old(copied) + {intention}
      ensures constraints == old(constraints)[intention := constraints[intention]]
      ensures intention in old(copied) ==> constraints == old(constraints)
      ensures intention !in old(copied) ==> constraints[intention].pathPenalty == old(constraints[intention].pathPenalty)
      ensures bounds == old(bounds)[intention := bounds[intention]] && Tightens(bounds[intention], old(bounds[intention]))
      ensures bounds[intention].Sized() && Enforced(r, bounds[intention]) && met == old(met) + {r}
      ensures Applied(r, old(bounds)) && Priced(constraints[intention].pathPenalty, old(bounds[intention]), bounds[intention], w)
      ensures feasible == constraints[intention].AreFeasible()
      ensures before == old(constraints[intention].minPenalty) && after == constraints[intention].minPenalty
      ensures forall g :: g in owned ==> g in old(owned) || fresh(g)
    {
      var gc := Prepare(intention);
      before := gc.minPenalty;
      assert before == old(constraints[intention].minPenalty);
      affected, w := Tighten(intention, gc, r);
      feasible := gc.AreFeasible();
      after := gc.minPenalty;
    }

    /**
     * applyTo on the intention's installed copy: its bounds narrow and
     * the restriction joins the ones met.
     */
    method Tighten(intention: string, gc: GraphConstraints, r: Restriction)
      returns (affected: set<int>, ghost w: EdgeBounds)
      requires Valid() && intention in copied && gc == constraints[intention]
      requires r.intention == intention && EdgeSet(r.edges, |gc.edges|)
      modifies this, gc
      ensures Valid() && constraints == old(constraints) && copied == old(copied) && owned == old(owned)
      ensures bounds == old(bounds)[intention := bounds[intention]] && Tightens(bounds[intention], old(bounds[intention]))
      ensures bounds[intention].Sized() && Enforced(r, bounds[intention]) && met == old(met) + {r}
      ensures Priced(gc.pathPenalty, old(bounds[intention]), bounds[intention], w)
    {
      ghost var was := Bounds(gc);
      assert was == bounds[intention];
      ghost var wtc, winf;
      affected, wtc, winf := ApplyTo(r, gc);
      w := EdgeBounds(gc.edges, wtc, winf, gc.minPenalty);
      forall k | k in constraints && k != intention
        ensures bounds[k] == Bounds(constraints[k])
      {
        assert bounds[k] == old(Bounds(constraints[k]));
      }
      ghost var now := BoundsOf(gc);
      EnforcedByKind(r, now);
      Renarrow(intention, now);
      NarrowedAdd(floor, bounds, met, r);
      met := met + {r};
    }

    /**
     * The part of increaseMinPenalty that handles one intention: its
     * constraints, prepared for modification, get the budget its minimum
     * penalty leaves (before); changes are the nodes whose bounds moved.
     * A budget above the current one fails the source's check (thrown).
     */
    method Limit(intention: string, remaining: real, ghost done: set<string>)
      returns (thrown: bool, changes: set<int>, feasible: bool, before: Penalty, after: Penalty)
      requires Valid() && intention in constraints && Capped(done)
      modifies this, owned
      ensures constraints.Keys == old(constraints.Keys) && copied == old(copied) + {intention}
      ensures !thrown ==> Valid() && feasible == constraints[intention].AreFeasible()
      ensures !thrown ==> constraints[intention].maxPenalty.AtMost(Fin(Budget(before, remaining)))
      ensures !thrown ==> Capped(done + {intention})
      ensures !thrown ==>
        bounds == old(bounds)[intention := bounds[intention]] && Tightens(bounds[intention], old(bounds[intention]))
      ensures constraints == old(constraints)[intention := constraints[intention]]
      ensures before == old(constraints[intention].minPenalty)
      ensures !thrown ==> after == constraints[intention].minPenalty
      ensures forall g :: g in owned ==> g in old(owned) || fresh(g)
      ensures met == old(met)
    {
      var gc := Prepare(intention);
      before := gc.minPenalty;
      var penalty := Budget(before, remaining);
      if !Util.PenaltyLess(Fin(penalty), gc.maxPenalty) {
        return true, {}, false, before, before;
      }
      var ok;
      ok, changes := Cap(intention, gc, penalty);
      if !ok {
        return true, {}, false, before, before;
      }
      thrown, feasible, after := false, gc.AreFeasible(), gc.minPenalty;
    }

    /** setMaxPenalty on the intention's installed copy, with its narrowed bounds recorded. */
    method Cap(intention: string, gc: GraphConstraints, penalty: real) returns (ok: bool, changes: set<int>)
      requires Valid() && intention in copied && gc == constraints[intention] && Util.PenaltyLess(Fin(penalty), gc.maxPenalty)
      modifies this, gc
      ensures constraints == old(constraints) && copied == old(copied) && owned == old(owned) && met == old(met)
      ensures gc.maxPenalty.AtMost(old(gc.maxPenalty))
      ensures Fin(penalty).Below(old(gc.maxPenalty)) ==> gc.maxPenalty == Fin(penalty)
      ensures !Fin(penalty).Below(old(gc.maxPenalty)) ==> ok && gc.maxPenalty == old(gc.maxPenalty)
      ensures ok ==> Valid()
      ensures ok ==> bounds == old(bounds)[intention := bounds[intention]] && Tightens(bounds[intention], old(bounds[intention]))
    {
      ghost var was := Bounds(gc);
      assert was == bounds[intention];
      ok, changes := gc.SetMaxPenalty(penalty);
      if !ok {
        return;
      }
      forall k | k in constraints && k != intention
        ensures bounds[k] == Bounds(constraints[k])
      {
        assert bounds[k] == old(Bounds(constraints[k]));
      }
      Renarrow(intention, BoundsOf(gc));
    }

    /**
     * Records the bounds of the intention's constraints after they
     * narrowed; the other intentions' bounds are still those recorded.
     */
    ghost method Renarrow(intention: string, b: EdgeBounds)
      requires Copying() && ConstraintsValid(constraints) && intention in constraints && bounds.Keys == constraints.Keys
      requires forall k :: k in constraints && k != intention ==> bounds[k] == Bounds(constraints[k])
      requires b == Bounds(constraints[intention]) && Tightens(b, bounds[intention]) && NarrowedFrom(floor, bounds, met)
      modifies this
      ensures Valid() && bounds == old(bounds)[intention := b]
      ensures constraints == old(constraints) && copied == old(copied) && owned == old(owned) && met == old(met)
    {
      assert constraints[intention].Valid();
      NarrowKept(floor, bounds, bounds[intention := b], met, intention);
      bounds := bounds[intention := b];
    }
  }

}
