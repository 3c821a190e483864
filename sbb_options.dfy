/*
 * The executor's view of a state (SbbExecutor.java): which conflict to
 * resolve next, and the schedules that resolve it, rescored by the
 * penalty their intentions carry and sorted by badness.
 */
module Options {
  import opened Common
  import opened Restrictions
  import opened Schedules
  import opened ConnectionOccupations
  import opened Executors
  import opened Constraints
  import opened RestrictionQueues
  import opened Stores
  import opened ResourceOccupations
  import Occupation

  /** ResourcePlan.Max: the densest range of a plan and its density. */
  datatype DensityRange = DensityRange(density: real, interval: Interval)

  /** A conflict on a resource over a time range, or on a connection. */
  datatype Conflict =
    | ResourceConflict(badness: real, resource: string, range: Interval)
    | ConnectionConflict(badness: real, occupation: ConnectionOccupation)

  /**
   * getConflict for a resource plan: none without a densest range,
   * otherwise the density scaled by the resource's boost, which the
   * source asserts to be positive.
   */
  function PlanConflict(resource: string, maxDensityRange: Option<DensityRange>, boost: real)
    : (r: Outcome<Option<Conflict>>)
    ensures r == Returned(None) <==> maxDensityRange.None?
    ensures r == Thrown <==> maxDensityRange.Some? && maxDensityRange.value.density * boost <= 0.0
    ensures r.Returned? && r.value.Some? ==>
      r.value.value.ResourceConflict? && r.value.value.resource == resource &&
      r.value.value.range == maxDensityRange.value.interval && r.value.value.badness > 0.0
  {
    match maxDensityRange
    case None => Returned(None)
    case Some(range) =>
      var maxDensity := range.density * boost;
      if maxDensity <= 0.0 then Thrown else Returned(Some(ResourceConflict(maxDensity, resource, range.interval)))
  }

  /** getConflict for a connection: none unless the occupation's badness is positive. */
  function OccupationConflict(occupation: ConnectionOccupation, badness: real): (r: Option<Conflict>)
    ensures r.Some? <==> badness > 0.0
    ensures r.Some? ==> r.value.ConnectionConflict? && r.value.badness > 0.0 && r.value.occupation == occupation
  {
    if badness <= 0.0 then None else Some(ConnectionConflict(badness, occupation))
  }

  /**
   * getWorstConflict over the conflicts of the plans (in the map's
   * iteration order) followed by those of the connections: none when
   * nothing conflicts, otherwise a conflict of maximal badness, the first
   * one met winning ties.
   */
  method WorstConflict(candidates: seq<Option<Conflict>>) returns (result: Option<Conflict>)
    ensures result.None? <==> forall i :: 0 <= i < |candidates| ==> candidates[i].None?
    ensures result.Some? ==> exists i :: 0 <= i < |candidates| && candidates[i] == result &&
                                         forall j :: 0 <= j < i && candidates[j].Some? ==>
                                                       candidates[j].value.badness < result.value.badness
    ensures result.Some? ==>
      forall j :: 0 <= j < |candidates| && candidates[j].Some? ==> candidates[j].value.badness <= result.value.badness
  {
    result := None;
    ghost var at := 0;
    var k := 0;
    while k < |candidates|
      invariant 0 <= k <= |candidates|
      invariant result.None? <==> forall i :: 0 <= i < k ==> candidates[i].None?
      invariant result.Some? ==> 0 <= at < k && candidates[at] == result
      invariant result.Some? ==>
        forall j :: 0 <= j < at && candidates[j].Some? ==> candidates[j].value.badness < result.value.badness
      invariant result.Some? ==>
        forall j :: 0 <= j < k && candidates[j].Some? ==> candidates[j].value.badness <= result.value.badness
    {
      var conflict := candidates[k];
      if conflict.Some? && (result.None? || conflict.value.badness > result.value.badness) {
        result, at := conflict, k;
      }
      k := k + 1;
    }
  }

  // ---------------------------------------------------------------------
  // rescore
  // ---------------------------------------------------------------------

  /** The intentions some restrictions restrict. */
  function IntentionsOf(rs: seq<Restriction>): set<string>
  {
    set r | r in rs :: r.intention
  }

  lemma IntentionsOfPrefix(rs: seq<Restriction>, i: nat)
    requires i < |rs|
    ensures IntentionsOf(rs[..i + 1]) == IntentionsOf(rs[..i]) + {rs[i].intention}
  {
    assert rs[..i + 1] == rs[..i] + [rs[i]];
  }

  /** The intentions one schedule restricts. */
  function ScheduleIntentions(schedule: ConflictSchedule): set<string>
  {
    IntentionsOf(schedule.restrictions)
  }

  /** The intentions any restriction of the schedules restricts. */
  function Intentions(schedules: seq<ConflictSchedule>): set<string>
  {
    set s, r | s in schedules && r in s.restrictions :: r.intention
  }

  /** The minimum penalty of every intention of a map of constraints. */
  ghost function PenaltiesOf(gcs: map<string, GraphConstraints>): (m: map<string, Penalty>)
    reads gcs.Values
    ensures m.Keys == gcs.Keys
  {
    map k | k in gcs :: gcs[k].minPenalty
  }

  /** The sum of the penalties of some keys; +Infinity absorbs. */
  ghost function Total(penalties: map<string, Penalty>, keys: set<string>): Penalty
    requires keys <= penalties.Keys
    decreases keys
  {
    if keys == {} then Fin(0.0)
    else
      var k :| k in keys;
      Total(penalties, keys - {k}).Plus(penalties[k])
  }

  /** Penalty addition may be regrouped and reordered. */
  lemma PlusSwap(a: Penalty, b: Penalty, c: Penalty)
    ensures a.Plus(b).Plus(c) == a.Plus(c).Plus(b)
  {
  }

  /** The sum does not depend on the order the keys are taken in: any key can be added last. */
  lemma {:induction false} TotalRemove(penalties: map<string, Penalty>, keys: set<string>, k: string)
    requires k in keys && keys <= penalties.Keys
    ensures Total(penalties, keys) == Total(penalties, keys - {k}).Plus(penalties[k])
    decreases keys
  {
    var j :| j in keys && Total(penalties, keys) == Total(penalties, keys - {j}).Plus(penalties[j]);
    if j != k {
      TotalRemove(penalties, keys - {j}, k);
      TotalRemove(penalties, keys - {k}, j);
      assert keys - {j} - {k} == keys - {k} - {j};
      PlusSwap(Total(penalties, keys - {j} - {k}), penalties[k], penalties[j]);
    }
  }

  /** The sum only reads the penalties of its keys. */
  lemma {:induction false} TotalOfAgreeing(p: map<string, Penalty>, q: map<string, Penalty>, keys: set<string>)
    requires keys <= p.Keys && keys <= q.Keys
    requires forall k :: k in keys ==> p[k] == q[k]
    ensures Total(p, keys) == Total(q, keys)
    decreases keys
  {
    if keys != {} {
      var k :| k in keys && Total(p, keys) == Total(p, keys - {k}).Plus(p[k]);
      TotalRemove(q, keys, k);
      TotalOfAgreeing(p, q, keys - {k});
    }
  }

  /** The path penalty of every intention's constraints. */
  function PricingOf(gcs: map<string, GraphConstraints>): (m: map<string, PathPenalty>)
    ensures m.Keys == gcs.Keys && forall k :: k in gcs ==> m[k] == gcs[k].pathPenalty
  {
    map k | k in gcs :: gcs[k].pathPenalty
  }

  /**
   * A trial of the schedule from the bounds floor: bounds bs that narrow
   * floor, move only the schedule's own intentions and have every one of
   * the schedule's restrictions hold; every intention's trial penalty is
   * the minimum penalty of its bounds, which is floor's own or the path
   * penalty of windows ws between floor and bs.
   */
  ghost predicate TrialOf(trial: map<string, Penalty>, floor: map<string, EdgeBounds>,
                          pricing: map<string, PathPenalty>, schedule: ConflictSchedule,
                          bs: map<string, EdgeBounds>, ws: map<string, EdgeBounds>)
  {
    trial.Keys == floor.Keys && pricing.Keys == floor.Keys && ws.Keys == floor.Keys &&
    NarrowsAll(bs, floor, schedule.restrictions) &&
    (forall k :: k in floor && k !in ScheduleIntentions(schedule) ==> bs[k] == floor[k]) &&
    (forall k :: k in floor ==> trial[k] == bs[k].minPenalty && Priced(pricing[k], floor[k], bs[k], ws[k]))
  }

  /**
   * The minimum penalties a trial of the schedule can leave: those of some
   * narrowing of the state's constraints that the schedule's restrictions
   * hold on, unchanged outside the intentions the schedule restricts.
   */
  ghost predicate Trialled(trial: map<string, Penalty>, state: State, schedule: ConflictSchedule)
    reads state.graphConstraints.Values
  {
    ConstraintsValid(state.graphConstraints) &&
    exists bs, ws :: TrialOf(trial, BoundsMap(state.graphConstraints), PricingOf(state.graphConstraints), schedule, bs, ws)
  }

  /**
   * A schedule that restricts none of the summed intentions scores the
   * state's own sum: only its own intentions can move a trial's total.
   */
  lemma UntouchedTrialTotal(trial: map<string, Penalty>, state: State, schedule: ConflictSchedule,
                            intentions: set<string>)
    requires Trialled(trial, state, schedule) && intentions <= trial.Keys
    requires ScheduleIntentions(schedule) !! intentions
    ensures Total(trial, intentions) == Total(PenaltiesOf(state.graphConstraints), intentions)
  {
    var gcs := state.graphConstraints;
    var floor := BoundsMap(gcs);
    var bs, ws :| TrialOf(trial, floor, PricingOf(gcs), schedule, bs, ws);
    forall k | k in intentions
      ensures trial[k] == PenaltiesOf(gcs)[k]
    {
      assert bs[k] == floor[k];
    }
    TotalOfAgreeing(trial, PenaltiesOf(gcs), intentions);
  }

  /**
   * Bounds traced from floor, narrowing it and holding every restriction
   * of the schedule, whose copied intentions are the schedule's own, make
   * a trial of the schedule of their minimum penalties.
   */
  lemma {:induction false} TracedTrial(initial: map<string, GraphConstraints>, floor: map<string, EdgeBounds>,
                                       bounds: map<string, EdgeBounds>, current: map<string, GraphConstraints>,
                                       priced: map<string, EdgeBounds>, met: set<Restriction>,
                                       trial: map<string, Penalty>, schedule: ConflictSchedule)
    requires TracedFrom(initial, floor, bounds, ScheduleIntentions(schedule), current, priced)
    requires NarrowedFrom(floor, bounds, met)
    requires trial.Keys == bounds.Keys && forall k :: k in trial ==> trial[k] == bounds[k].minPenalty
    requires forall r :: r in schedule.restrictions ==>
      r.intention in bounds && bounds[r.intention].Sized() && Enforced(r, bounds[r.intention])
    ensures TrialOf(trial, floor, PricingOf(initial), schedule, bounds, priced)
  {
    forall k | k in bounds
      ensures bounds[k].Sized() && Tightens(bounds[k], floor[k])
    {
      assert Tightens(bounds[k], floor[k]);
    }
  }

  /**
   * A trial drained with every one of the schedule's restrictions holding
   * on its bounds leaves, as its minimum penalties, a trial of the schedule
   * from its initial bounds.
   */
  lemma TrialFound(trial: Trial, schedule: ConflictSchedule)
    requires trial.Valid() && trial.Traced()
    requires trial.constraints.copied == ScheduleIntentions(schedule)
    requires forall r :: r in schedule.restrictions ==>
      r.intention in trial.constraints.bounds && trial.constraints.bounds[r.intention].Sized() &&
      Enforced(r, trial.constraints.bounds[r.intention])
    ensures exists bs, ws :: TrialOf(PenaltiesOf(trial.constraints.constraints), trial.constraints.floor,
                                     PricingOf(trial.constraints.initial), schedule, bs, ws)
  {
    var cs := trial.constraints;
    var t := PenaltiesOf(cs.constraints);
    assert cs.Narrowed();
    forall k | k in t
      ensures t[k] == cs.bounds[k].minPenalty
    {
      assert cs.bounds[k] == Bounds(cs.constraints[k]);
    }
    TracedTrial(cs.initial, cs.floor, cs.bounds, cs.constraints, trial.priced, cs.met, t, schedule);
  }

  /** A schedule rescored by a trial of its own: its badness led by the trial's total. */
  ghost predicate TrialScored(state: State, intentions: set<string>, schedule: ConflictSchedule,
                              scored: ConflictSchedule)
    reads state.graphConstraints.Values
  {
    SameSchedule(scored, schedule) &&
    exists trial :: Trialled(trial, state, schedule) && intentions <= trial.Keys &&
      Total(trial, intentions).Fin? &&
      scored.badness.values == [Total(trial, intentions).value] + schedule.badness.values
  }

  /** Every schedule rescored by a trial of its own, over all the intentions the schedules restrict. */
  ghost predicate RescoredBy(state: State, schedules: seq<ConflictSchedule>, scored: seq<ConflictSchedule>)
    reads state.graphConstraints.Values
  {
    |scored| == |schedules| &&
    forall i :: 0 <= i < |schedules| ==> TrialScored(state, Intentions(schedules), schedules[i], scored[i])
  }

  /**
   * The trial's total is the most significant badness component: two
   * rescored schedules whose totals differ by the epsilon or more compare
   * as their totals do; others compare as they did before.
   */
  lemma TrialTotalDecides(a: ConflictSchedule, b: ConflictSchedule, x: real, y: real)
    requires 0 < |a.badness.values| == |b.badness.values|
    ensures RealAbs(x - y) >= BADNESS_EPS ==>
      Compare(a.WithBadness(x).badness.values, b.WithBadness(y).badness.values) == if x < y then -1 else 1
    ensures RealAbs(x - y) < BADNESS_EPS ==>
      Compare(a.WithBadness(x).badness.values, b.WithBadness(y).badness.values) ==
      Compare(a.badness.values, b.badness.values)
  {
    PushIsMostSignificant(a.badness, b.badness, x, y);
  }

  /**
   * The bounds of constraints copied on write from initial, as a trial
   * leaves them: those of intentions not copied are the initial ones in
   * floor, every intention keeps its path penalty, and every minimum
   * penalty is priced from floor by the windows in priced.
   */
  ghost predicate TracedFrom(initial: map<string, GraphConstraints>, floor: map<string, EdgeBounds>,
                             bounds: map<string, EdgeBounds>, copied: set<string>,
                             current: map<string, GraphConstraints>, priced: map<string, EdgeBounds>)
  {
    floor.Keys == initial.Keys && bounds.Keys == floor.Keys && priced.Keys == floor.Keys &&
    current.Keys == initial.Keys &&
    (forall k :: k in bounds && k !in copied ==> bounds[k] == floor[k]) &&
    (forall k :: k in current ==> current[k].pathPenalty == initial[k].pathPenalty) &&
    (forall k :: k in bounds ==> Priced(initial[k].pathPenalty, floor[k], bounds[k], priced[k]))
  }

  /** Narrowing a copied intention's bounds to ones priced from floor keeps the trial traced. */
  lemma Repriced(initial: map<string, GraphConstraints>, floor: map<string, EdgeBounds>,
                 bounds: map<string, EdgeBounds>, copied: set<string>, current: map<string, GraphConstraints>,
                 priced: map<string, EdgeBounds>, k: string, b: EdgeBounds, w: EdgeBounds)
    requires TracedFrom(initial, floor, bounds, copied, current, priced) && k in copied && k in bounds
    requires Priced(initial[k].pathPenalty, floor[k], b, w)
    ensures TracedFrom(initial, floor, bounds[k := b], copied, current, priced[k := w])
  {
  }

  /** A step that changes none of the trial's objects keeps it valid and traced. */
  twostate lemma TrialKept(t: Trial)
    requires old(t.Valid()) && unchanged(t, t.plans, t.constraints, t.queue)
    requires forall k :: k in t.plans.plans ==> unchanged(t.plans.plans[k])
    requires forall k :: k in t.constraints.constraints ==> unchanged(t.constraints.constraints[k])
    ensures t.Valid() && t.Traced() == old(t.Traced())
  {
    ConstraintsKept(t.constraints);
  }

  /** A step that changes only the queue, and leaves it valid, keeps the trial valid and traced. */
  twostate lemma QueueMoved(t: Trial)
    requires old(t.Valid()) && unchanged(t, t.plans, t.constraints) && t.queue.Valid()
    requires forall k :: k in t.plans.plans ==> unchanged(t.plans.plans[k])
    requires forall k :: k in t.constraints.constraints ==> unchanged(t.constraints.constraints[k])
    ensures t.Valid() && t.Traced() == old(t.Traced())
  {
    PlansKept(t.plans);
    ConstraintsKept(t.constraints);
  }

  /** Constraints no step has touched keep their validity and their bounds. */
  twostate lemma StateKept(gcs: map<string, GraphConstraints>)
    requires old(ConstraintsValid(gcs)) && forall k :: k in gcs ==> unchanged(gcs[k])
    ensures ConstraintsValid(gcs) && BoundsMap(gcs) == old(BoundsMap(gcs))
  {
  }

  /** A step that leaves the trial and its constraint store alone keeps it traced. */
  twostate lemma TracedKept(t: Trial)
    requires unchanged(t, t.constraints)
    ensures t.Traced() == old(t.Traced())
  {
  }

  /**
   * The copies rescore tries one schedule on: the constraints of the
   * intentions the schedule restricts, the plans copied as they change,
   * and a restriction queue of its own.  The state's objects stay as they
   * are.
   */
  class Trial {
    const problem: Problem
    const queue: RestrictionQueue
    const plans: PlanStore
    const constraints: ConstraintStore
    /** Per intention, the windows that price its minimum penalty from its initial bounds. */
    ghost var priced: map<string, EdgeBounds>

    /**
     * Only the copies narrow: an intention that was not copied keeps its
     * initial bounds, every intention keeps its initial path penalty, and
     * every minimum penalty is priced from the initial bounds.
     */
    ghost predicate Traced()
      reads this, constraints
    {
      TracedFrom(constraints.initial, constraints.floor, constraints.bounds, constraints.copied, constraints.constraints, priced)
    }

    ghost predicate Valid()
      reads this, queue, plans, constraints, plans.plans.Values, constraints.constraints.Values
    {
      plans.Valid() && constraints.Valid() && queue.Valid()
    }

    constructor (problem: Problem, state: State)
      requires StateValid(state)
      ensures Valid() && Traced() && fresh(queue) && fresh(plans) && fresh(constraints) && queue.IsEmpty()
      ensures this.problem == problem
      ensures plans.initial == state.resourcePlans && plans.plans == state.resourcePlans
      ensures constraints.initial == state.graphConstraints && constraints.constraints == state.graphConstraints
      ensures constraints.copied == {} && plans.owned == {} && constraints.owned == {}
      ensures constraints.floor == old(BoundsMap(state.graphConstraints)) && constraints.met == {}
    {
      var cs := new ConstraintStore(state.graphConstraints);
      this.problem := problem;
      constraints := cs;
      priced := cs.floor;
      plans := new PlanStore(state.resourcePlans);
      queue := new RestrictionQueue();
    }

    /** The copy of one intention's constraints, which keeps its bounds and its path penalty. */
    method CopyIntention(intention: string)
      requires constraints.Valid() && Traced() && intention in constraints.constraints
      modifies constraints
      ensures constraints.Valid() && Traced()
      ensures constraints.copied == old(constraints.copied) + {intention} && constraints.met == old(constraints.met)
      ensures constraints.constraints.Keys == old(constraints.constraints.Keys)
      ensures forall g :: g in constraints.owned ==> g in old(constraints.owned) || fresh(g)
    {
      var copy := constraints.Prepare(intention);
    }

    /**
     * The copies of the constraints of every intention the schedule
     * restricts; an intention without constraints throws.
     */
    method CopyIntentions(schedule: ConflictSchedule) returns (thrown: bool)
      requires Valid() && Traced() && constraints.copied == {}
      modifies constraints
      ensures thrown <==> !(ScheduleIntentions(schedule) <= constraints.constraints.Keys)
      ensures constraints.constraints.Keys == old(constraints.constraints.Keys)
      ensures !thrown ==> Valid() && Traced() && constraints.copied == ScheduleIntentions(schedule)
      ensures constraints.met == old(constraints.met)
      ensures forall g :: g in constraints.owned ==> g in old(constraints.owned) || fresh(g)
    {
      var rs := schedule.restrictions;
      var i := 0;
      while i < |rs|
        invariant 0 <= i <= |rs|
        invariant constraints.Valid() && Traced() && constraints.constraints.Keys == old(constraints.constraints.Keys)
        invariant constraints.copied == IntentionsOf(rs[..i]) && constraints.met == old(constraints.met)
        invariant forall g :: g in constraints.owned ==> g in old(constraints.owned) || fresh(g)
      {
        var intention := rs[i].intention;
        if intention !in constraints.constraints {
          assert rs[i] in rs;
          return true;
        }
        CopyIntention(intention);
        IntentionsOfPrefix(rs, i);
        i := i + 1;
      }
      assert rs[..i] == rs;
      return false;
    }

    /**
     * The update of one occupation in rescore's drain: skipped when its
     * intention was not copied; otherwise the plan of its resource, copied
     * on first change, gets the occupation's times under the copied
     * constraints, or loses them when there are none.  A resource without
     * a plan, an occupation that does not fit its graph, a failing weight
     * assertion and a failing plan check throw.
     */
    method UpdateOccupation(o: ResourceOccupation) returns (thrown: bool)
      requires Valid()
      modifies plans, plans.owned, queue
      ensures !thrown ==> Valid()
      ensures plans.plans.Keys == old(plans.plans.Keys)
      ensures o.intention !in constraints.copied ==> !thrown && plans.plans == old(plans.plans)
      ensures !thrown && o.intention in constraints.copied ==>
        o.resource in plans.plans && FitsGraph(constraints.constraints[o.intention], o) &&
        plans.plans[o.resource].timeByOccupation ==
          Stored(old(plans.plans[o.resource].timeByOccupation), o, TimesNow(constraints.constraints[o.intention], o))
      ensures queue.Held().Keeps(old(queue.Held()))
      ensures forall p :: p in plans.owned ==> p in old(plans.owned) || fresh(p)
    {
      if o.intention !in constraints.copied {
        return false;
      }
      thrown := RefreshOccupation(o);
    }

    /** The update of one occupation of a copied intention. */
    method RefreshOccupation(o: ResourceOccupation) returns (thrown: bool)
      requires Valid() && o.intention in constraints.copied
      modifies plans, plans.owned, queue
      ensures !thrown ==> Valid()
      ensures plans.plans.Keys == old(plans.plans.Keys)
      ensures !thrown ==>
        o.resource in plans.plans && FitsGraph(constraints.constraints[o.intention], o) &&
        plans.plans[o.resource].timeByOccupation ==
          Stored(old(plans.plans[o.resource].timeByOccupation), o, TimesNow(constraints.constraints[o.intention], o))
      ensures queue.Held().Keeps(old(queue.Held()))
      ensures forall p :: p in plans.owned ==> p in old(plans.owned) || fresh(p)
    {
      var gc := constraints.constraints[o.intention];
      if !(o.resource in plans.plans && FitsGraph(gc, o)) {
        return true;
      }
      ghost var stored := plans.plans[o.resource].timeByOccupation;
      label look:
      var times, invalidWeight := OccupationTimesNow(gc, o);
      TrialKept@look(this);
      if invalidWeight {
        return true;
      }
      assert plans.plans[o.resource].timeByOccupation == stored;
      var ok := StoreTimes(o, times);
      assert times == TimesNow(gc, o);
      thrown := !ok;
    }

    /** The times of an occupation stored in the plan of its resource, copied on first change. */
    method StoreTimes(o: ResourceOccupation, times: Option<Occupation.OccupationTimes>) returns (ok: bool)
      requires Valid() && o.resource in plans.plans
      modifies plans, plans.owned, queue
      ensures ok ==> Valid()
      ensures plans.plans.Keys == old(plans.plans.Keys)
      ensures plans.plans[o.resource].timeByOccupation == Stored(old(plans.plans[o.resource].timeByOccupation), o, times)
      ensures unchanged(constraints) && forall k :: k in constraints.constraints ==> unchanged(constraints.constraints[k])
      ensures queue.Held().Keeps(old(queue.Held()))
      ensures forall p :: p in plans.owned ==> p in old(plans.owned) || fresh(p)
    {
      ok := plans.Store(o.resource, o, times, queue);
      ConstraintsKept(constraints);
    }

    /** The loop over needsUpdate in rescore's drain. */
    method UpdateOccupations(needsUpdate: set<ResourceOccupation>) returns (thrown: bool)
      requires Valid()
      modifies plans, plans.owned, queue
      ensures !thrown ==> Valid()
      ensures queue.Held().Keeps(old(queue.Held()))
      ensures forall p :: p in plans.owned ==> p in old(plans.owned) || fresh(p)
    {
      var rest := needsUpdate;
      while exists o :: o in rest
        invariant rest <= needsUpdate && Valid()
        invariant queue.Held().Keeps(old(queue.Held()))
        invariant forall p :: p in plans.owned ==> p in old(plans.owned) || fresh(p)
        decreases rest
      {
        var o :| o in rest;
        ghost var held := queue.Held();
        var failed := UpdateOccupation(o);
        KeepsTrans(queue.Held(), held, old(queue.Held()));
        if failed {
          return true;
        }
        rest := rest - {o};
      }
      return false;
    }

    /**
     * A popped restriction in rescore's drain: skipped when its intention
     * was not copied, otherwise applied to the copy, where it then holds;
     * needsUpdate are the intention's occupations at the nodes that
     * changed.  Edges outside the graph and changes of an intention
     * without occupations throw.
     */
    method RestrictCopy(r: Restriction) returns (thrown: bool, needsUpdate: set<ResourceOccupation>)
      requires Valid() && Traced()
      modifies this`priced, constraints, constraints.owned
      ensures !thrown ==> Valid() && Traced()
      ensures r.intention !in constraints.copied ==>
        !thrown && needsUpdate == {} && constraints.bounds == old(constraints.bounds) && constraints.met == old(constraints.met)
      ensures !thrown && r.intention in constraints.copied ==> constraints.Applied(r, old(constraints.bounds))
      ensures !thrown && r.intention in constraints.copied ==> r in constraints.met
      ensures old(constraints.met) <= constraints.met
      ensures constraints.copied == old(constraints.copied)
      ensures constraints.constraints.Keys == old(constraints.constraints.Keys)
      ensures forall g :: g in constraints.owned ==> g in old(constraints.owned) || fresh(g)
    {
      needsUpdate := {};
      if r.intention !in constraints.copied {
        return false, {};
      }
      if !EdgeSet(r.edges, |constraints.constraints[r.intention].edges|) {
        return true, {};
      }
      var changed := RestrictTraced(r);
      if r.intention in problem.occupations {
        label collect:
        needsUpdate := CollectTouched(problem.occupations[r.intention], changed);
        TrialKept@collect(this);
      } else if changed != {} {
        return true, {};
      }
      thrown := false;
    }

    /**
     * A restriction applied to the copy of its intention, where it then
     * holds; the intention's minimum penalty stays priced from its
     * initial bounds.
     */
    method RestrictTraced(r: Restriction) returns (changed: set<int>)
      requires Valid() && Traced() && r.intention in constraints.copied
      requires EdgeSet(r.edges, |constraints.constraints[r.intention].edges|)
      modifies this`priced, constraints, constraints.owned
      ensures Valid() && Traced()
      ensures constraints.Applied(r, old(constraints.bounds)) && old(constraints.met) <= constraints.met
      ensures constraints.copied == old(constraints.copied)
      ensures constraints.constraints.Keys == old(constraints.constraints.Keys)
      ensures forall g :: g in constraints.owned ==> g in old(constraints.owned) || fresh(g)
    {
      label restrict:
      changed := TightenTraced(r);
      PlansKept@restrict(plans);
    }

    /** The copy's constraints tightened by the restriction, and the intention repriced. */
    method TightenTraced(r: Restriction) returns (changed: set<int>)
      requires constraints.Valid() && Traced() && r.intention in constraints.copied
      requires EdgeSet(r.edges, |constraints.constraints[r.intention].edges|)
      modifies this`priced, constraints, constraints.owned
      ensures constraints.Valid() && Traced()
      ensures constraints.Applied(r, old(constraints.bounds)) && old(constraints.met) <= constraints.met
      ensures constraints.copied == old(constraints.copied)
      ensures constraints.constraints.Keys == old(constraints.constraints.Keys)
      ensures forall g :: g in constraints.owned ==> g in old(constraints.owned) || fresh(g)
      ensures unchanged(plans, queue) && forall k :: k in plans.plans ==> unchanged(plans.plans[k])
    {
      var k := r.intention;
      ghost var oldb := constraints.bounds[k];
      assert Tightens(oldb, constraints.floor[k]);
      var gc := constraints.constraints[k];
      assert forall j :: j in plans.plans ==> plans.plans[j] as object != gc as object && plans.plans[j] as object != constraints as object;
      assert plans as object != gc as object && queue as object != gc as object;
      ghost var w;
      changed, w := constraints.Tighten(k, gc, r);
      PricedChain(constraints.initial[k].pathPenalty, constraints.floor[k], oldb, priced[k], constraints.bounds[k], w);
      ghost var wk := if constraints.bounds[k].minPenalty == oldb.minPenalty then priced[k] else w;
      Repriced(constraints.initial, constraints.floor, old(constraints.bounds), constraints.copied, constraints.constraints,
               priced, k, constraints.bounds[k], wk);
      Reprice(k, wk);
    }

    /** The intention's minimum penalty priced by the window w from now on. */
    ghost method Reprice(k: string, w: EdgeBounds)
      requires constraints.Valid()
      requires TracedFrom(constraints.initial, constraints.floor, constraints.bounds, constraints.copied,
                          constraints.constraints, priced[k := w])
      modifies this`priced
      ensures priced == old(priced)[k := w] && Traced()
      ensures unchanged(constraints) && constraints.Valid()
      ensures unchanged(plans, queue) && forall j :: j in plans.plans ==> unchanged(plans.plans[j])
    {
      label reprice:
      priced := priced[k := w];
      ConstraintsKept@reprice(constraints);
    }

    /**
     * One turn of rescore's drain: the head restriction is popped and
     * applied to its copy, and the occupations it touches get their times
     * updated.  The goals, restrictions of copied intentions, stay either
     * waiting or covered by an applied restriction.
     */
    method Step(ghost goals: set<Restriction>) returns (thrown: bool)
      requires Valid() && Traced() && !queue.IsEmpty()
      requires AnsweredBy(goals, queue.Held(), constraints.met)
      requires forall r :: r in goals ==> r.intention in constraints.copied
      modifies this`priced, plans, plans.owned, constraints, constraints.owned, queue
      ensures !thrown ==> Valid() && Traced() && AnsweredBy(goals, queue.Held(), constraints.met)
      ensures old(constraints.met) <= constraints.met
      ensures constraints.copied == old(constraints.copied)
      ensures constraints.constraints.Keys == old(constraints.constraints.Keys)
      ensures forall p :: p in plans.owned ==> p in old(plans.owned) || fresh(p)
      ensures forall g :: g in constraints.owned ==> g in old(constraints.owned) || fresh(g)
    {
      var needsUpdate;
      thrown, needsUpdate := PopRestriction(goals);
      if thrown {
        return;
      }
      ghost var held := queue.Held();
      label update:
      thrown := UpdateOccupations(needsUpdate);
      TracedKept@update(this);
      AnsweredKept(goals, held, queue.Held(), constraints.met, constraints.met);
    }

    /** The head restriction popped and applied to its copy; the goals stay answered. */
    method PopRestriction(ghost goals: set<Restriction>) returns (thrown: bool, needsUpdate: set<ResourceOccupation>)
      requires Valid() && Traced() && !queue.IsEmpty()
      requires AnsweredBy(goals, queue.Held(), constraints.met)
      requires forall r :: r in goals ==> r.intention in constraints.copied
      modifies this`priced, constraints, constraints.owned, queue
      ensures !thrown ==> Valid() && Traced() && AnsweredBy(goals, queue.Held(), constraints.met)
      ensures old(constraints.met) <= constraints.met
      ensures constraints.copied == old(constraints.copied)
      ensures constraints.constraints.Keys == old(constraints.constraints.Keys)
      ensures forall g :: g in constraints.owned ==> g in old(constraints.owned) || fresh(g)
    {
      ghost var needed;
      var r;
      r, needed := TakeRestriction(goals);
      thrown, needsUpdate := RestrictCopy(r);
      if thrown {
        return;
      }
      AnsweredGrown(goals, queue.Held(), old(constraints.met), constraints.met, r, r.intention in constraints.copied);
    }

    /**
     * Pops the queue's next restriction.  The goals stay answered by the
     * applied restrictions together with the popped one when its
     * intention is copied, and without it otherwise.
     */
    method TakeRestriction(ghost goals: set<Restriction>) returns (r: Restriction, ghost needed: set<Restriction>)
      requires Valid() && !queue.IsEmpty()
      requires AnsweredBy(goals, queue.Held(), constraints.met)
      requires forall g :: g in goals ==> g.intention in constraints.copied
      modifies queue
      ensures Valid()
      ensures needed == if r.intention in constraints.copied then constraints.met + {r} else constraints.met
      ensures AnsweredBy(goals, queue.Held(), needed)
    {
      ghost var held0 := queue.Held();
      r := queue.Pop();
      needed := if r.intention in constraints.copied then constraints.met + {r} else constraints.met;
      AnsweredStep(goals, held0, queue.Held(), constraints.met, needed, r, r.intention in constraints.copied);
    }

    /** The restrictions queued, where each of them waits. */
    method Enqueue(rs: seq<Restriction>)
      requires Valid()
      modifies queue
      ensures Valid() && Traced() == old(Traced()) && unchanged(plans, constraints)
      ensures AnsweredBy((set r | r in rs), queue.Held(), constraints.met)
    {
      label queued:
      queue.AddAll(rs);
      QueueMoved@queued(this);
    }

    /**
     * The schedule's restrictions queued and drained through the copies of
     * its intentions, whose minimum penalties are then a trial of the
     * schedule on the state the copies were taken from.
     */
    method Run(fuel: nat, schedule: ConflictSchedule, ghost state: State) returns (result: Outcome<()>)
      requires Valid() && Traced() && constraints.copied == ScheduleIntentions(schedule)
      requires constraints.initial == state.graphConstraints && ConstraintsValid(state.graphConstraints)
      requires constraints.floor == BoundsMap(state.graphConstraints)
      requires plans.owned == {} && forall k :: k in state.graphConstraints ==> state.graphConstraints[k] !in constraints.owned
      modifies this`priced, plans, plans.owned, constraints, constraints.owned, queue
      ensures result.Returned? ==> Trialled(PenaltiesOf(constraints.constraints), state, schedule)
      ensures constraints.constraints.Keys == old(constraints.constraints.Keys)
      ensures forall p :: p in plans.owned ==> p in old(plans.owned) || fresh(p)
      ensures forall g :: g in constraints.owned ==> g in old(constraints.owned) || fresh(g)
    {
      ghost var goals := set r | r in schedule.restrictions;
      label start:
      Enqueue(schedule.restrictions);
      label drain:
      result := Drain(fuel, goals);
      if result.Returned? {
        TrialFound(this, schedule);
        forall k | k in state.graphConstraints
          ensures unchanged@start(state.graphConstraints[k])
        {
          var g := state.graphConstraints[k];
          assert old@drain(g !in constraints.owned);
          assert old@drain(plans.owned) == {};
          assert g as object != plans as object && g as object != this as object;
          assert g as object != constraints as object && g as object != queue as object;
        }
        StateKept@start(state.graphConstraints);
      }
    }

    /**
     * The drain loop of rescore, which runs until the queue is empty; the
     * fuel bounds the number of restrictions it pops.  Only the copies
     * change: the copied intentions stay those copied, and once the queue
     * is empty every goal holds on the bounds.
     */
    method Drain(fuel: nat, ghost goals: set<Restriction>) returns (result: Outcome<()>)
      requires Valid() && Traced()
      requires AnsweredBy(goals, queue.Held(), constraints.met)
      requires forall r :: r in goals ==> r.intention in constraints.copied
      modifies this`priced, plans, plans.owned, constraints, constraints.owned, queue
      ensures result.Returned? ==> Valid() && Traced() && queue.IsEmpty()
      ensures result.Returned? ==> forall r :: r in goals ==>
        r.intention in constraints.bounds && constraints.bounds[r.intention].Sized() &&
        Enforced(r, constraints.bounds[r.intention])
      ensures constraints.copied == old(constraints.copied)
      ensures constraints.constraints.Keys == old(constraints.constraints.Keys)
      ensures forall p :: p in plans.owned ==> p in old(plans.owned) || fresh(p)
      ensures forall g :: g in constraints.owned ==> g in old(constraints.owned) || fresh(g)
    {
      var fuelLeft := fuel;
      while !queue.IsEmpty()
        invariant Valid() && Traced() && AnsweredBy(goals, queue.Held(), constraints.met)
        invariant constraints.copied == old(constraints.copied)
        invariant constraints.constraints.Keys == old(constraints.constraints.Keys)
        invariant forall p :: p in plans.owned ==> p in old(plans.owned) || fresh(p)
        invariant forall g :: g in constraints.owned ==> g in old(constraints.owned) || fresh(g)
        decreases fuelLeft
      {
        if fuelLeft == 0 {
          return OutOfFuel;
        }
        fuelLeft := fuelLeft - 1;
        var thrown := Step(goals);
        if thrown {
          return Thrown;
        }
      }
      AnsweredDone(goals, queue.Held(), constraints.met, constraints.floor, constraints.bounds);
      return Returned(());
    }
  }

  /**
   * The sum rescore takes of the minimum penalties of the intentions; an
   * intention without constraints throws.
   */
  method SumPenalties(gcs: map<string, GraphConstraints>, intentions: set<string>) returns (result: Option<Penalty>)
    ensures result.Some? <==> intentions <= gcs.Keys
    ensures result.Some? ==> result.value == Total(PenaltiesOf(gcs), intentions)
  {
    ghost var penalties := PenaltiesOf(gcs);
    var total := Fin(0.0);
    var rest := intentions;
    while exists k :: k in rest
      invariant rest <= intentions && intentions - rest <= gcs.Keys
      invariant total == Total(penalties, intentions - rest)
      decreases rest
    {
      var k :| k in rest;
      if k !in gcs {
        return None;
      }
      TotalRemove(penalties, intentions - (rest - {k}), k);
      assert intentions - (rest - {k}) - {k} == intentions - rest;
      total := total.Plus(gcs[k].minPenalty);
      rest := rest - {k};
    }
    assert intentions - rest == intentions;
    return Some(total);
  }

  /**
   * A fresh trial of the schedule: the constraints of its intentions
   * copied, which throws when one of them has no constraints.
   */
  method NewTrial(problem: Problem, state: State, schedule: ConflictSchedule) returns (trial: Trial, thrown: bool)
    requires StateValid(state)
    ensures fresh(trial) && fresh(trial.plans) && fresh(trial.constraints) && fresh(trial.queue)
    ensures thrown <==> !(ScheduleIntentions(schedule) <= state.graphConstraints.Keys)
    ensures trial.constraints.initial == state.graphConstraints
    ensures ConstraintsValid(state.graphConstraints) && trial.constraints.floor == BoundsMap(state.graphConstraints)
    ensures trial.constraints.constraints.Keys == state.graphConstraints.Keys
    ensures trial.plans.owned == {} && forall g :: g in trial.constraints.owned ==> fresh(g)
    ensures !thrown ==> trial.Valid() && trial.Traced() && trial.constraints.copied == ScheduleIntentions(schedule)
  {
    label start:
    trial := new Trial(problem, state);
    thrown := trial.CopyIntentions(schedule);
    StateKept@start(state.graphConstraints);
  }

  /**
   * The trial of one schedule in rescore: the constraints of its
   * intentions are copied, its restrictions drained through the copies,
   * and the minimum penalties of all the intentions summed, each taken
   * from its copy if there is one and from the state otherwise.
   */
  method TrialPenalty(problem: Problem, state: State, schedule: ConflictSchedule, intentions: set<string>,
                      fuel: nat) returns (result: Outcome<Penalty>)
    requires StateValid(state)
    ensures !(ScheduleIntentions(schedule) <= state.graphConstraints.Keys) ==> result == Thrown
    ensures result.Returned? ==>
      intentions <= state.graphConstraints.Keys &&
      exists trial :: Trialled(trial, state, schedule) && result.value == Total(trial, intentions)
  {
    var trial, thrown := NewTrial(problem, state, schedule);
    if thrown {
      return Thrown;
    }
    var ran := trial.Run(fuel, schedule, state);
    if !ran.Returned? {
      return if ran.Thrown? then Thrown else OutOfFuel;
    }
    result := TrialTotal(trial.constraints.constraints, state, schedule, intentions);
  }

  /**
   * The sum over the intentions of the minimum penalties a trial left in
   * its constraints; an intention without constraints throws.
   */
  method TrialTotal(gcs: map<string, GraphConstraints>, state: State, schedule: ConflictSchedule,
                    intentions: set<string>) returns (result: Outcome<Penalty>)
    requires Trialled(PenaltiesOf(gcs), state, schedule)
    ensures result.Returned? || result.Thrown?
    ensures result.Returned? ==>
      intentions <= state.graphConstraints.Keys &&
      exists trial :: Trialled(trial, state, schedule) && result.value == Total(trial, intentions)
  {
    ghost var penalties := PenaltiesOf(gcs);
    var total := SumPenalties(gcs, intentions);
    if total.None? {
      return Thrown;
    }
    assert Trialled(penalties, state, schedule) && total.value == Total(penalties, intentions);
    return Returned(total.value);
  }

  /**
   * One schedule rescored: its trial's total pushed onto its badness.  An
   * infinite total throws, as a real badness cannot hold it.
   */
  method ScoreOne(problem: Problem, state: State, schedule: ConflictSchedule, intentions: set<string>, fuel: nat)
    returns (result: Outcome<ConflictSchedule>)
    requires StateValid(state)
    ensures !(ScheduleIntentions(schedule) <= state.graphConstraints.Keys) ==> result == Thrown
    ensures result.Returned? ==> TrialScored(state, intentions, schedule, result.value)
  {
    var penalty := TrialPenalty(problem, state, schedule, intentions, fuel);
    if !penalty.Returned? {
      return if penalty.Thrown? then Thrown else OutOfFuel;
    }
    if penalty.value.Inf? {
      return Thrown;
    }
    ghost var trial :| Trialled(trial, state, schedule) && penalty.value == Total(trial, intentions);
    var scored := schedule.WithBadness(penalty.value.value);
    assert TrialScored(state, intentions, schedule, scored);
    return Returned(scored);
  }

  /**
   * rescore: every schedule is tried on copies of its intentions'
   * constraints, and the summed minimum penalty of all the intentions the
   * schedules restrict, as that trial leaves them, is pushed onto its
   * badness.  An intention without constraints throws, and so, in this
   * model, does an infinite sum, which a real badness cannot hold.
   */
  method Rescore(problem: Problem, state: State, schedules: seq<ConflictSchedule>, fuel: nat)
    returns (result: Outcome<seq<ConflictSchedule>>)
    requires StateValid(state)
    ensures !(Intentions(schedules) <= state.graphConstraints.Keys) ==> !result.Returned?
    ensures result.Returned? ==> RescoredBy(state, schedules, result.value)
  {
    var intentions := set s, r | s in schedules && r in s.restrictions :: r.intention;
    assert intentions == Intentions(schedules);
    var rescored := [];
    var i := 0;
    while i < |schedules|
      invariant 0 <= i <= |schedules| && |rescored| == i
      invariant forall j :: 0 <= j < i ==> TrialScored(state, intentions, schedules[j], rescored[j])
      invariant forall j :: 0 <= j < i ==> ScheduleIntentions(schedules[j]) <= state.graphConstraints.Keys
    {
      var scored := ScoreOne(problem, state, schedules[i], intentions, fuel);
      if !scored.Returned? {
        return if scored.Thrown? then Thrown else OutOfFuel;
      }
      rescored := rescored + [scored.value];
      i := i + 1;
    }
    assert intentions <= state.graphConstraints.Keys by {
      forall x | x in intentions
        ensures x in state.graphConstraints
      {
        var s, r :| s in schedules && r in s.restrictions && r.intention == x;
        var j :| 0 <= j < |schedules| && schedules[j] == s;
        assert x in ScheduleIntentions(schedules[j]);
      }
    }
    return Returned(rescored);
  }

  // ---------------------------------------------------------------------
  // sorting by badness
  // ---------------------------------------------------------------------

  /** Badness vectors all of one positive length n, so that any two compare. */
  predicate Width(schedules: seq<ConflictSchedule>, n: nat)
  {
    n > 0 && forall s :: s in schedules ==> |s.badness.values| == n
  }

  /** The width of a list is that of its members, whatever their order. */
  lemma WidthOfMembers(a: seq<ConflictSchedule>, b: seq<ConflictSchedule>, n: nat)
    requires Width(a, n) && forall x :: x in b ==> x in multiset(a)
    ensures Width(b, n)
  {
  }

  /** The tail of a list with a first element has that list's width. */
  lemma WidthOfTail(s: ConflictSchedule, t: seq<ConflictSchedule>, n: nat)
    requires Width([s] + t, n) && t != []
    ensures Width([s] + t[1..], n) && Width(t, n) && Width(t[1..], n)
  {
    assert forall x :: x in t[1..] ==> x in t;
  }

  /** The first schedule compares with the second and is not worse. */
  predicate InOrder(a: ConflictSchedule, b: ConflictSchedule)
  {
    0 < |a.badness.values| == |b.badness.values| && Compare(a.badness.values, b.badness.values) <= 0
  }

  /** Ascending by badness: each schedule is in order with the next one. */
  ghost predicate Ordered(schedules: seq<ConflictSchedule>)
  {
    forall i, j {:trigger schedules[i], schedules[j]} ::
      0 <= i < j < |schedules| && j == i + 1 ==> InOrder(schedules[i], schedules[j])
  }

  /** Inserts a schedule before the first one it is not worse than. */
  function Insert(s: ConflictSchedule, sorted: seq<ConflictSchedule>, n: nat): (r: seq<ConflictSchedule>)
    requires Width([s] + sorted, n)
    ensures multiset(r) == multiset(sorted) + multiset{s}
    ensures |r| == |sorted| + 1 && (r[0] == s || (sorted != [] && r[0] == sorted[0]))
  {
    if sorted == [] then [s]
    else if Compare(s.badness.values, sorted[0].badness.values) <= 0 then [s] + sorted
    else
      WidthOfTail(s, sorted, n);
      assert sorted == [sorted[0]] + sorted[1..];
      [sorted[0]] + Insert(s, sorted[1..], n)
  }

  /** Insertion sort, the stable sort the source gets from its collection library. */
  function Sort(schedules: seq<ConflictSchedule>, n: nat): (r: seq<ConflictSchedule>)
    requires Width(schedules, n)
    ensures multiset(r) == multiset(schedules)
  {
    if schedules == [] then []
    else
      assert schedules == [schedules[0]] + schedules[1..];
      WidthOfMembers(schedules, schedules[1..], n);
      var rest := Sort(schedules[1..], n);
      WidthOfMembers(schedules, [schedules[0]] + rest, n);
      Insert(schedules[0], rest, n)
  }

  /** Inserting into an ordered list keeps it ordered. */
  lemma {:induction false} InsertOrdered(s: ConflictSchedule, sorted: seq<ConflictSchedule>, n: nat)
    requires Width([s] + sorted, n) && Ordered(sorted)
    ensures Ordered(Insert(s, sorted, n))
    decreases |sorted|
  {
    if sorted != [] && Compare(s.badness.values, sorted[0].badness.values) > 0 {
      var tail := sorted[1..];
      WidthOfTail(s, sorted, n);
      InsertOrdered(s, tail, n);
      CompareAntisymmetric(s.badness.values, sorted[0].badness.values);
      var r := Insert(s, sorted, n);
      var t := Insert(s, tail, n);
      assert r == [sorted[0]] + t;
      assert InOrder(sorted[0], t[0]) by {
        assert sorted[0] in [s] + sorted;
        if t[0] != s {
          assert t[0] == sorted[1];
        }
      }
      forall i, j | 0 <= i < j < |r| && j == i + 1
        ensures InOrder(r[i], r[j])
      {
        if i > 0 {
          assert r[i] == t[i - 1] && r[j] == t[j - 1];
        }
      }
    }
  }

  /** The sort orders by badness. */
  lemma {:induction false} SortOrdered(schedules: seq<ConflictSchedule>, n: nat)
    requires Width(schedules, n)
    ensures Ordered(Sort(schedules, n))
    decreases |schedules|
  {
    if schedules != [] {
      assert schedules == [schedules[0]] + schedules[1..];
      WidthOfMembers(schedules, schedules[1..], n);
      SortOrdered(schedules[1..], n);
      var rest := Sort(schedules[1..], n);
      WidthOfMembers(schedules, [schedules[0]] + rest, n);
      InsertOrdered(schedules[0], rest, n);
    }
  }

  /** The schedules getOptions sorts: rescored by their trials when there is a penalty budget. */
  ghost predicate Scored(state: State, maxPenalty: real, schedules: seq<ConflictSchedule>, scored: seq<ConflictSchedule>)
    reads state.graphConstraints.Values
  {
    if maxPenalty > 0.0 then RescoredBy(state, schedules, scored) else scored == schedules
  }

  /**
   * getOptions for the schedules createConflictSchedules gives for the
   * conflict: rescored when there is a penalty budget, then sorted
   * ascending by badness.  Badness vectors that cannot be compared (of
   * different or zero length) make the sort throw once it compares them.
   */
  method GetOptions(problem: Problem, state: State, maxPenalty: real, schedules: seq<ConflictSchedule>, fuel: nat)
    returns (result: Outcome<seq<ConflictSchedule>>)
    requires StateValid(state)
    ensures result == OutOfFuel ==> maxPenalty > 0.0
    ensures result.Returned? && maxPenalty > 0.0 ==> Intentions(schedules) <= state.graphConstraints.Keys
    ensures result.Returned? ==>
      exists scored :: Scored(state, maxPenalty, schedules, scored) &&
        multiset(result.value) == multiset(scored) && Ordered(result.value)
    ensures result == Thrown && maxPenalty <= 0.0 ==> |schedules| > 1 && !Width(schedules, |schedules[0].badness.values|)
  {
    var scored := schedules;
    if maxPenalty > 0.0 {
      var rescored := Rescore(problem, state, schedules, fuel);
      if !rescored.Returned? {
        return rescored;
      }
      scored := rescored.value;
    }
    assert Scored(state, maxPenalty, schedules, scored);
    if |scored| <= 1 {
      return Returned(scored);
    }
    var n := |scored[0].badness.values|;
    if !Width(scored, n) {
      return Thrown;
    }
    SortOrdered(scored, n);
    return Returned(Sort(scored, n));
  }
}
