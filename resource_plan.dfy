/**
 * The plan of one resource (ResourcePlan.java): for every intention that
 * may use the resource, the occupation windows of its flows merged into one
 * IntentionInterval, with the exits moved later by the resource's release
 * time.  From intervals that are visited on all paths the plan derives
 * restrictions that every schedule must obey, and at a conflict point it
 * proposes single-restriction schedules.
 *
 * Densities, the maximum-density search and the scoring of schedules are
 * not part of this model; the conflict point and the density order of the
 * conflicting intervals are inputs.
 */
module ResourcePlans {
  import opened Common
  import opened TimeUtil
  import Util
  import opened Occupation
  import opened ResourceOccupations
  import opened Restrictions
  import opened Schedules
  import RestrictionQueues

  /**
   * The merged window of one intention on the resource.  The field order
   * is the order of the Java constructor.
   */
  datatype IntentionInterval = IntentionInterval(
    intention: string,
    entryEarliest: int,
    entryLatest: int,
    exitEarliest: int,
    exitLatest: int,
    minDuration: int,
    weight: real)
  {
    /** The four checks of the constructor: each failing one throws. */
    predicate Checked()
    {
      exitLatest - entryLatest >= minDuration &&
      exitEarliest - entryEarliest >= minDuration &&
      entryEarliest <= entryLatest &&
      exitEarliest <= exitLatest
    }

    function Start(): int { entryEarliest }

    function End(): int { exitLatest }

    /** isVisitedOnAllPaths: the weight equals 1 up to WEIGHT_EPS. */
    predicate VisitedOnAllPaths()
    {
      Util.WeightEquals(weight, 1.0)
    }

    /** Entering at `entry` and leaving at `exit` is a placement this window allows. */
    predicate Admits(entry: int, exit: int)
    {
      entryEarliest <= entry <= entryLatest &&
      exitEarliest <= exit <= exitLatest &&
      exit - entry >= minDuration
    }
  }

  /** The constructor: none where one of its checks throws. */
  function NewIntentionInterval(intention: string, entryEarliest: int, entryLatest: int, exitEarliest: int,
                                exitLatest: int, minDuration: int, weight: real): (r: Option<IntentionInterval>)
    ensures r.Some? ==> r.value.Checked()
    ensures r.Some? ==> r.value == IntentionInterval(intention, entryEarliest, entryLatest, exitEarliest, exitLatest,
                                                     minDuration, weight)
    ensures r.None? ==> !IntentionInterval(intention, entryEarliest, entryLatest, exitEarliest, exitLatest,
                                           minDuration, weight).Checked()
  {
    if exitLatest - entryLatest < minDuration then None
    else if exitEarliest - entryEarliest < minDuration then None
    else if entryEarliest > entryLatest then None
    else if exitEarliest > exitLatest then None
    else Some(IntentionInterval(intention, entryEarliest, entryLatest, exitEarliest, exitLatest, minDuration, weight))
  }

  /** A window passing the checks allows its earliest and its latest placement. */
  lemma CheckedAdmitsExtremes(ii: IntentionInterval)
    requires ii.Checked()
    ensures ii.Admits(ii.entryEarliest, ii.exitEarliest)
    ensures ii.Admits(ii.entryLatest, ii.exitLatest)
  {
  }

  /** The interval map's overlap query, on intervals that include their start and exclude their end. */
  predicate Overlaps(ii: IntentionInterval, interval: Interval)
  {
    ii.Start() < interval.end && interval.start < ii.End()
  }

  /** getOverlappers of the interval map: the stored windows overlapping [start, end). */
  function Overlappers(intents: set<IntentionInterval>, interval: Interval): (r: set<IntentionInterval>)
    ensures r <= intents
    ensures forall c :: c in intents && Overlaps(c, interval) ==> c in r
  {
    set c | c in intents && Overlaps(c, interval)
  }

  // ---------------------------------------------------------------------
  // Constraint and restricted intervals
  // ---------------------------------------------------------------------

  /**
   * getConstraintInterval: where `occ` can still be placed next to
   * `conflict`, which is visited on all paths.  If `occ` cannot leave before
   * the conflict may latest enter, it must enter after the conflict may
   * earliest leave, and symmetrically; none when what remains is shorter
   * than the minimum duration.
   */
  function ConstraintInterval(occ: IntentionInterval, conflict: IntentionInterval): (r: Option<Interval>)
    requires conflict.VisitedOnAllPaths()
    ensures r.Some? ==> occ.entryEarliest <= r.value.start && r.value.end <= occ.exitLatest
    ensures r.Some? ==> r.value.end - r.value.start >= occ.minDuration
  {
    var entryEarliest :=
      if occ.exitEarliest > conflict.entryLatest then Max(occ.entryEarliest, conflict.exitEarliest)
      else occ.entryEarliest;
    var exitLatest :=
      if occ.entryLatest < conflict.exitEarliest then Min(occ.exitLatest, conflict.entryLatest)
      else occ.exitLatest;
    if exitLatest - entryEarliest < occ.minDuration then None
    else Some(Interval(entryEarliest, exitLatest))
  }

  /**
   * The constraint interval cuts off no placement of `occ` that fits beside
   * some placement of the conflict: such a placement lies inside it, so it
   * is never none when one exists.
   */
  lemma ConstraintIntervalSound(occ: IntentionInterval, conflict: IntentionInterval,
                                entry: int, exit: int, conflictEntry: int, conflictExit: int)
    requires conflict.VisitedOnAllPaths()
    requires occ.Admits(entry, exit) && conflict.Admits(conflictEntry, conflictExit)
    requires exit <= conflictEntry || conflictExit <= entry
    ensures ConstraintInterval(occ, conflict).Some?
    ensures ConstraintInterval(occ, conflict).value.start <= entry
    ensures exit <= ConstraintInterval(occ, conflict).value.end
  {
    if occ.exitEarliest > conflict.entryLatest {
      assert conflictExit <= entry;
    }
    if occ.entryLatest < conflict.exitEarliest {
      assert exit <= conflictEntry;
    }
  }

  /**
   * restrictedIntentionInterval: the window narrowed to a restriction's
   * interval, whose end is a graph exit time and so moves by the release
   * time; none for no restriction or when nothing remains.  The
   * constructor's checks always pass on the way.
   */
  function RestrictedIntentionInterval(ii: IntentionInterval, restriction: Option<Interval>, releaseSeconds: int)
    : (r: Option<IntentionInterval>)
    requires ii.Checked()
    ensures restriction.None? ==> r.None?
    ensures r.Some? ==> r.value.Checked()
    ensures r.Some? ==> r.value.intention == ii.intention && r.value.minDuration == ii.minDuration &&
                        r.value.weight == ii.weight
    ensures r.Some? ==> ii.entryEarliest <= r.value.entryEarliest && r.value.entryLatest <= ii.entryLatest &&
                        ii.exitEarliest <= r.value.exitEarliest && r.value.exitLatest <= ii.exitLatest
  {
    if restriction.None? then None
    else
      var interval := restriction.value;
      var entryEarliest := Max(ii.entryEarliest, interval.start);
      var exitEarliest := Max(ii.exitEarliest, entryEarliest + ii.minDuration);
      var exitLatest := Min(ii.exitLatest, interval.end + releaseSeconds);
      var entryLatest := Min(ii.entryLatest, interval.end + releaseSeconds - ii.minDuration);
      if entryLatest < entryEarliest || exitLatest < exitEarliest then None
      else Some(IntentionInterval(ii.intention, entryEarliest, entryLatest, exitEarliest, exitLatest,
                                  ii.minDuration, ii.weight))
  }

  /**
   * Every placement the window allows that also obeys the restriction is a
   * placement of the restricted window, which therefore exists.
   */
  lemma RestrictedKeepsPlacements(ii: IntentionInterval, interval: Interval, releaseSeconds: int, entry: int, exit: int)
    requires ii.Checked() && ii.Admits(entry, exit)
    requires interval.start <= entry && exit <= interval.end + releaseSeconds
    ensures RestrictedIntentionInterval(ii, Some(interval), releaseSeconds).Some?
    ensures RestrictedIntentionInterval(ii, Some(interval), releaseSeconds).value.Admits(entry, exit)
  {
  }

  /** And conversely the restricted window allows only placements that obey the restriction. */
  lemma RestrictedObeys(ii: IntentionInterval, interval: Interval, releaseSeconds: int, entry: int, exit: int)
    requires ii.Checked()
    requires RestrictedIntentionInterval(ii, Some(interval), releaseSeconds).Some?
    requires RestrictedIntentionInterval(ii, Some(interval), releaseSeconds).value.Admits(entry, exit)
    ensures ii.Admits(entry, exit)
    ensures interval.start <= entry && exit <= interval.end + releaseSeconds
  {
  }

  // ---------------------------------------------------------------------
  // Merging an intention's occupation windows
  // ---------------------------------------------------------------------

  /**
   * What the plan reads besides its merged intervals: the occupations of
   * each intention on this resource (the multimap's values in its
   * iteration order), the current window of each occupation, and the
   * release time.
   */
  datatype Occupancy = Occupancy(
    byIntention: map<string, seq<ResourceOccupation>>,
    times: map<ResourceOccupation, OccupationTimes>,
    releaseSeconds: int)
  {
    function Occupations(intention: string): seq<ResourceOccupation>
    {
      if intention in byIntention then byIntention[intention] else []
    }
  }

  /** Every occupation is listed under its own intention. */
  predicate ByIntention(byIntention: map<string, seq<ResourceOccupation>>)
  {
    forall i, k :: i in byIntention && 0 <= k < |byIntention[i]| ==> byIntention[i][k].intention == i
  }

  /** The running values of updateMergedOccupation's loop. */
  datatype Merge = Merge(
    entryEarliest: int,
    entryLatest: int,
    exitEarliest: int,
    exitLatest: int,
    minDuration: int,
    weight: real)

  /** The values before the loop. */
  const NoMerge: Merge := Merge(TMAX, 0, TMAX, 0, TMAX, 0.0)

  /** One iteration: an occupation without a window is skipped. */
  function MergeStep(m: Merge, o: ResourceOccupation, times: map<ResourceOccupation, OccupationTimes>): Merge
  {
    if o !in times then m
    else
      var t := times[o];
      Merge(Min(m.entryEarliest, t.entryEarliest), Max(m.entryLatest, t.entryLatest),
            Min(m.exitEarliest, t.exitEarliest), Max(m.exitLatest, t.exitLatest),
            Min(m.minDuration, o.minDuration), m.weight + t.weight)
  }

  /** The values after the loop has visited the occupations `os`. */
  function MergeOf(os: seq<ResourceOccupation>, times: map<ResourceOccupation, OccupationTimes>): Merge
    decreases |os|
  {
    if os == [] then NoMerge else MergeStep(MergeOf(os[..|os| - 1], times), os[|os| - 1], times)
  }

  /** Correction by the release time: both exits and the minimum duration move later. */
  function Released(m: Merge, releaseSeconds: int): Merge
  {
    m.(exitEarliest := m.exitEarliest + releaseSeconds, exitLatest := m.exitLatest + releaseSeconds,
       minDuration := m.minDuration + releaseSeconds)
  }

  /** The comparison that decides "no change": the four bounds and the weight, not the minimum duration. */
  predicate SameBounds(ii: IntentionInterval, m: Merge)
  {
    ii.entryEarliest == m.entryEarliest && ii.entryLatest == m.entryLatest &&
    ii.exitEarliest == m.exitEarliest && ii.exitLatest == m.exitLatest && ii.weight == m.weight
  }

  /** The merged interval an intention gets when one is built from `m`. */
  function IntervalOf(intention: string, m: Merge): IntentionInterval
  {
    IntentionInterval(intention, m.entryEarliest, m.entryLatest, m.exitEarliest, m.exitLatest, m.minDuration, m.weight)
  }

  /**
   * A window that an occupation's flow can actually be given: ordered
   * bounds inside [0, TMAX], and room for the occupation's minimum
   * duration both when entering earliest and when entering latest.
   */
  predicate Fits(o: ResourceOccupation, t: OccupationTimes)
  {
    0 <= t.entryEarliest <= t.entryLatest <= TMAX &&
    0 <= t.exitEarliest <= t.exitLatest <= TMAX &&
    t.exitEarliest - t.entryEarliest >= o.minDuration &&
    t.exitLatest - t.entryLatest >= o.minDuration
  }

  predicate HasTimes(os: seq<ResourceOccupation>, times: map<ResourceOccupation, OccupationTimes>)
  {
    exists k :: 0 <= k < |os| && os[k] in times
  }

  /**
   * The merge is the minimum entryEarliest, maximum entryLatest, minimum
   * exitEarliest, maximum exitLatest and minimum minDuration over the
   * occupations with a window, and the sum of their weights (the initial
   * values are TMAX and 0).
   */
  lemma {:induction false} MergeBounds(os: seq<ResourceOccupation>, times: map<ResourceOccupation, OccupationTimes>)
    ensures var m := MergeOf(os, times);
      forall k :: 0 <= k < |os| && os[k] in times ==>
        m.entryEarliest <= times[os[k]].entryEarliest && m.entryLatest >= times[os[k]].entryLatest &&
        m.exitEarliest <= times[os[k]].exitEarliest && m.exitLatest >= times[os[k]].exitLatest &&
        m.minDuration <= os[k].minDuration
    ensures !HasTimes(os, times) ==> MergeOf(os, times) == NoMerge
    decreases |os|
  {
    if os != [] {
      var init := os[..|os| - 1];
      MergeBounds(init, times);
      forall k | 0 <= k < |init| ensures init[k] == os[k] { }
      TimesOfPrefix(os, times);
    }
  }

  /** A list has an occupation with a window when its front part or its last element does. */
  lemma TimesOfPrefix(os: seq<ResourceOccupation>, times: map<ResourceOccupation, OccupationTimes>)
    requires os != []
    ensures HasTimes(os, times) <==> HasTimes(os[..|os| - 1], times) || os[|os| - 1] in times
  {
    var init := os[..|os| - 1];
    if HasTimes(os, times) {
      var k :| 0 <= k < |os| && os[k] in times;
      if k < |os| - 1 {
        assert init[k] in times;
      }
    }
    if HasTimes(init, times) {
      var k :| 0 <= k < |init| && init[k] in times;
      assert os[k] in times;
    }
  }

  /** Where some occupation has a window inside [0, TMAX], the merged entry bounds are those of some of them. */
  lemma {:induction false} EntriesAttained(os: seq<ResourceOccupation>, times: map<ResourceOccupation, OccupationTimes>)
    requires forall k :: 0 <= k < |os| && os[k] in times ==> Fits(os[k], times[os[k]])
    requires HasTimes(os, times)
    ensures var m := MergeOf(os, times);
      (exists k :: 0 <= k < |os| && os[k] in times && times[os[k]].entryEarliest == m.entryEarliest) &&
      (exists k :: 0 <= k < |os| && os[k] in times && times[os[k]].entryLatest == m.entryLatest)
    decreases |os|
  {
    var init := os[..|os| - 1];
    var last := |os| - 1;
    var m0 := MergeOf(init, times);
    forall k | 0 <= k < |init| ensures init[k] == os[k] { }
    TimesOfPrefix(os, times);
    if !HasTimes(init, times) {
      MergeBounds(init, times);
    } else {
      EntriesAttained(init, times);
      var a :| 0 <= a < |init| && init[a] in times && times[init[a]].entryEarliest == m0.entryEarliest;
      var b :| 0 <= b < |init| && init[b] in times && times[init[b]].entryLatest == m0.entryLatest;
      assert os[a] in times && os[b] in times;
    }
  }

  /** And so are the merged exit bounds. */
  lemma {:induction false} ExitsAttained(os: seq<ResourceOccupation>, times: map<ResourceOccupation, OccupationTimes>)
    requires forall k :: 0 <= k < |os| && os[k] in times ==> Fits(os[k], times[os[k]])
    requires HasTimes(os, times)
    ensures var m := MergeOf(os, times);
      (exists k :: 0 <= k < |os| && os[k] in times && times[os[k]].exitEarliest == m.exitEarliest) &&
      (exists k :: 0 <= k < |os| && os[k] in times && times[os[k]].exitLatest == m.exitLatest)
    decreases |os|
  {
    var init := os[..|os| - 1];
    var last := |os| - 1;
    var m0 := MergeOf(init, times);
    forall k | 0 <= k < |init| ensures init[k] == os[k] { }
    TimesOfPrefix(os, times);
    if !HasTimes(init, times) {
      MergeBounds(init, times);
    } else {
      ExitsAttained(init, times);
      var a :| 0 <= a < |init| && init[a] in times && times[init[a]].exitEarliest == m0.exitEarliest;
      var b :| 0 <= b < |init| && init[b] in times && times[init[b]].exitLatest == m0.exitLatest;
      assert os[a] in times && os[b] in times;
    }
  }

  /**
   * Merged windows of flows that fit pass the constructor's checks, before
   * and after the release correction: updateMergedOccupation then never
   * throws.
   */
  lemma MergeChecked(os: seq<ResourceOccupation>, times: map<ResourceOccupation, OccupationTimes>, releaseSeconds: int)
    requires forall k :: 0 <= k < |os| && os[k] in times ==> Fits(os[k], times[os[k]])
    requires HasTimes(os, times)
    ensures IntervalOf("", MergeOf(os, times)).Checked()
    ensures IntervalOf("", Released(MergeOf(os, times), releaseSeconds)).Checked()
  {
    var m := MergeOf(os, times);
    MergeBounds(os, times);
    EntriesAttained(os, times);
    ExitsAttained(os, times);
    var b :| 0 <= b < |os| && os[b] in times && times[os[b]].entryLatest == m.entryLatest;
    var c :| 0 <= c < |os| && os[c] in times && times[os[c]].exitEarliest == m.exitEarliest;
    assert Fits(os[b], times[os[b]]) && Fits(os[c], times[os[c]]);
  }

  /** The merge depends only on the windows of the listed occupations. */
  lemma {:induction false} MergeAgrees(os: seq<ResourceOccupation>, t1: map<ResourceOccupation, OccupationTimes>,
                                       t2: map<ResourceOccupation, OccupationTimes>)
    requires forall k :: 0 <= k < |os| ==> (os[k] in t1 <==> os[k] in t2)
    requires forall k :: 0 <= k < |os| && os[k] in t1 ==> t1[os[k]] == t2[os[k]]
    ensures MergeOf(os, t1) == MergeOf(os, t2)
    decreases |os|
  {
    if os != [] {
      var init := os[..|os| - 1];
      forall k | 0 <= k < |init| ensures init[k] == os[k] { }
      MergeAgrees(init, t1, t2);
    }
  }

  /** The loop of updateMergedOccupation. */
  method MergeOccupations(os: seq<ResourceOccupation>, times: map<ResourceOccupation, OccupationTimes>)
    returns (m: Merge)
    ensures m == MergeOf(os, times)
  {
    m := NoMerge;
    var i := 0;
    while i < |os|
      invariant 0 <= i <= |os|
      invariant m == MergeOf(os[..i], times)
    {
      assert os[..i + 1][..i] == os[..i];
      var o := os[i];
      if o in times {
        var t := times[o];
        m := Merge(Min(m.entryEarliest, t.entryEarliest), Max(m.entryLatest, t.entryLatest),
                   Min(m.exitEarliest, t.exitEarliest), Max(m.exitLatest, t.exitLatest),
                   Min(m.minDuration, o.minDuration), m.weight + t.weight);
      }
      i := i + 1;
    }
    assert os[..i] == os;
  }

  // ---------------------------------------------------------------------
  // Building restrictions
  // ---------------------------------------------------------------------

  /**
   * An occupation whose window the interval restricts.  The interval's end
   * is an exit time on the resource, so it is moved back by the release
   * time before it is compared with the occupation's graph window.
   */
  predicate RestrictedOccupation(d: Occupancy, o: ResourceOccupation, interval: Interval)
  {
    o in d.times && d.times[o].IsRestrictedBy(Interval(interval.start, interval.end - d.releaseSeconds))
  }

  /** The intention's occupations that the interval restricts. */
  function OverlappingOf(d: Occupancy, intention: string, interval: Interval): set<ResourceOccupation>
  {
    set o | o in d.Occupations(intention) && RestrictedOccupation(d, o, interval)
  }

  /** getOverlappingResourceOccupations. */
  method GetOverlappingResourceOccupations(d: Occupancy, intention: string, interval: Interval)
    returns (r: set<ResourceOccupation>)
    ensures r == OverlappingOf(d, intention, interval)
  {
    var os := d.Occupations(intention);
    r := {};
    var i := 0;
    while i < |os|
      invariant 0 <= i <= |os|
      invariant r == set o | o in os[..i] && RestrictedOccupation(d, o, interval)
    {
      assert os[..i + 1] == os[..i] + [os[i]];
      var o := os[i];
      var time := if o in d.times then Some(d.times[o]) else None;
      if time.Some? && time.value.IsRestrictedBy(Interval(interval.start, interval.end - d.releaseSeconds)) {
        r := r + {o};
      }
      i := i + 1;
    }
    assert os[..i] == os;
  }

  function StartEdges(os: set<ResourceOccupation>): set<nat>
  {
    set o | o in os :: o.start
  }

  function EndEdges(os: set<ResourceOccupation>): set<nat>
  {
    set o | o in os :: o.end
  }

  /** The edges of each flow from its start index to its end index. */
  function FlowEdges(os: seq<ResourceOccupation>): set<nat>
  {
    set o, i | o in os && |o.flow| > 0 && o.FlowStartIndex() <= i <= o.FlowEndIndex() :: o.flow[i]
  }

  /** createIncreaseMinTimeRestriction: the start edges of the affected occupations, from the interval's start. */
  method CreateIncreaseMinTimeRestriction(intention: string, restriction: Interval, affected: set<ResourceOccupation>)
    returns (r: Restriction)
    ensures r == IncreaseMinTime(intention, restriction.start, StartEdges(affected))
  {
    var edges: set<nat> := {};
    var rest := affected;
    while rest != {}
      invariant rest <= affected
      invariant edges == StartEdges(affected - rest)
      decreases |rest|
    {
      NonEmptyHasElement(rest);
      var o :| o in rest;
      assert affected - (rest - {o}) == (affected - rest) + {o};
      edges := edges + {o.start};
      rest := rest - {o};
    }
    assert affected - rest == affected;
    r := IncreaseMinTime(intention, restriction.start, edges);
  }

  /**
   * createDecreaseMaxTimeRestriction: the end edges of the affected
   * occupations, up to the interval's end moved back by the release time.
   */
  method CreateDecreaseMaxTimeRestriction(intention: string, restriction: Interval, affected: set<ResourceOccupation>,
                                          releaseSeconds: int)
    returns (r: Restriction)
    ensures r == DecreaseMaxTime(intention, restriction.end - releaseSeconds, EndEdges(affected))
  {
    var edges: set<nat> := {};
    var rest := affected;
    while rest != {}
      invariant rest <= affected
      invariant edges == EndEdges(affected - rest)
      decreases |rest|
    {
      NonEmptyHasElement(rest);
      var o :| o in rest;
      assert affected - (rest - {o}) == (affected - rest) + {o};
      edges := edges + {o.end};
      rest := rest - {o};
    }
    assert affected - rest == affected;
    r := DecreaseMaxTime(intention, restriction.end - releaseSeconds, edges);
  }

  /** The flow edges of one occupation, as createMarkInfeasibleRestriction's inner loop collects them. */
  function FlowPart(o: ResourceOccupation, from: int, to: int): set<nat>
    requires 0 <= from && to < |o.flow|
  {
    set i | from <= i <= to :: o.flow[i]
  }

  /** createMarkInfeasibleRestriction: every flow edge of every affected occupation. */
  method CreateMarkInfeasibleRestriction(intention: string, affected: seq<ResourceOccupation>) returns (r: Restriction)
    requires forall k :: 0 <= k < |affected| ==> |affected[k].flow| > 0
    ensures r == MarkPathInfeasible(intention, FlowEdges(affected))
  {
    var edges: set<nat> := {};
    var k := 0;
    while k < |affected|
      invariant 0 <= k <= |affected|
      invariant edges == FlowEdges(affected[..k])
    {
      var o := affected[k];
      var i := o.FlowStartIndex();
      var last := o.FlowEndIndex();
      var part: set<nat> := {};
      while i <= last
        invariant o.FlowStartIndex() <= i <= Max(o.FlowStartIndex(), last + 1)
        invariant part == FlowPart(o, o.FlowStartIndex(), i - 1)
        decreases last - i
      {
        part := part + {o.flow[i]};
        i := i + 1;
      }
      assert part == FlowPart(o, o.FlowStartIndex(), last);
      FlowEdgesStep(affected, k);
      edges := edges + part;
      k := k + 1;
    }
    assert affected[..k] == affected;
    r := MarkPathInfeasible(intention, edges);
  }

  lemma FlowEdgesStep(os: seq<ResourceOccupation>, k: nat)
    requires k < |os| && |os[k].flow| > 0
    ensures FlowEdges(os[..k + 1]) == FlowEdges(os[..k]) + FlowPart(os[k], os[k].FlowStartIndex(), os[k].FlowEndIndex())
  {
    assert os[..k + 1] == os[..k] + [os[k]];
  }

  // ---------------------------------------------------------------------
  // Restrictions forced by intervals visited on all paths
  // ---------------------------------------------------------------------

  /**
   * checkForAdditionalRestrictions: nothing against itself; a mark of all
   * the intention's flows when no constraint interval remains; otherwise a
   * raised entry if the start moved and a lowered exit if the end moved,
   * each on the intention's occupations that the constraint restricts.
   * Every restriction tightens the interval it comes from.
   */
  function Additional(d: Occupancy, occ: IntentionInterval, conflict: IntentionInterval): (r: seq<Restriction>)
    requires conflict.VisitedOnAllPaths()
    ensures |r| <= 2
    ensures forall k :: 0 <= k < |r| ==> r[k].intention == occ.intention
    ensures forall k :: 0 <= k < |r| && r[k].IncreaseMinTime? ==> r[k].minTime > occ.entryEarliest
    ensures forall k :: 0 <= k < |r| && r[k].DecreaseMaxTime? ==> r[k].maxTime + d.releaseSeconds < occ.exitLatest
    ensures forall k :: 0 <= k < |r| && r[k].MarkPathInfeasible? ==> ConstraintInterval(occ, conflict).None?
  {
    if occ == conflict then []
    else match ConstraintInterval(occ, conflict)
      case None => [MarkPathInfeasible(occ.intention, FlowEdges(d.Occupations(occ.intention)))]
      case Some(c) =>
        (if c.start != occ.entryEarliest
         then [IncreaseMinTime(occ.intention, c.start, StartEdges(OverlappingOf(d, occ.intention, c)))] else []) +
        (if c.end != occ.exitLatest
         then [DecreaseMaxTime(occ.intention, c.end - d.releaseSeconds, EndEdges(OverlappingOf(d, occ.intention, c)))]
         else [])
  }

  /**
   * The forced restrictions cut off no compatible schedule: when `occ` can
   * be placed beside some placement of the conflict, no mark is emitted
   * and the placement obeys every emitted time restriction.
   */
  lemma AdditionalSound(d: Occupancy, occ: IntentionInterval, conflict: IntentionInterval,
                        entry: int, exit: int, conflictEntry: int, conflictExit: int)
    requires conflict.VisitedOnAllPaths()
    requires occ.Admits(entry, exit) && conflict.Admits(conflictEntry, conflictExit)
    requires exit <= conflictEntry || conflictExit <= entry
    ensures forall r :: r in Additional(d, occ, conflict) ==>
      !r.MarkPathInfeasible? &&
      (r.IncreaseMinTime? ==> r.minTime <= entry) &&
      (r.DecreaseMaxTime? ==> exit - d.releaseSeconds <= r.maxTime)
  {
    ConstraintIntervalSound(occ, conflict, entry, exit, conflictEntry, conflictExit);
  }

  /** The restrictions checkForAdditionalRestrictions builds, in the order it adds them. */
  method AdditionalRestrictions(d: Occupancy, occupations: IntentionInterval, conflict: IntentionInterval)
    returns (rs: seq<Restriction>)
    requires conflict.VisitedOnAllPaths()
    requires forall k :: 0 <= k < |d.Occupations(occupations.intention)| ==>
      |d.Occupations(occupations.intention)[k].flow| > 0
    ensures rs == Additional(d, occupations, conflict)
  {
    if occupations == conflict {
      return [];
    }
    var constraint := ConstraintInterval(occupations, conflict);
    if constraint.None? {
      var r := CreateMarkInfeasibleRestriction(occupations.intention, d.Occupations(occupations.intention));
      return [r];
    }
    var c := constraint.value;
    var raised: seq<Restriction> := [];
    if c.start != occupations.entryEarliest {
      var affected := GetOverlappingResourceOccupations(d, occupations.intention, c);
      var r := CreateIncreaseMinTimeRestriction(occupations.intention, c, affected);
      raised := [r];
    }
    var lowered: seq<Restriction> := [];
    if c.end != occupations.exitLatest {
      var affected := GetOverlappingResourceOccupations(d, occupations.intention, c);
      var r := CreateDecreaseMaxTimeRestriction(occupations.intention, c, affected, d.releaseSeconds);
      lowered := [r];
    }
    rs := raised + lowered;
  }

  /** checkForAdditionalRestrictions: the forced restrictions join the queue. */
  method CheckForAdditionalRestrictions(d: Occupancy, occupations: IntentionInterval, conflict: IntentionInterval,
                                        queue: RestrictionQueues.RestrictionQueue)
    requires conflict.VisitedOnAllPaths() && queue.Valid()
    requires forall k :: 0 <= k < |d.Occupations(occupations.intention)| ==>
      |d.Occupations(occupations.intention)[k].flow| > 0
    modifies queue
    ensures queue.Valid() && queue.poppedElements == old(queue.poppedElements)
    ensures queue.Held().Keeps(old(queue.Held()))
    ensures queue.PendingTimes() == old(queue.PendingTimes()) + RestrictionQueues.TimesOf(Additional(d, occupations, conflict))
    ensures queue.infeasibleEdges.Keys ==
      old(queue.infeasibleEdges).Keys + RestrictionQueues.MarkedOf(Additional(d, occupations, conflict))
  {
    var rs := AdditionalRestrictions(d, occupations, conflict);
    queue.AddAll(rs);
  }

  // ---------------------------------------------------------------------
  // Candidate schedules at a conflict point
  // ---------------------------------------------------------------------

  /** The earliest entry of `moved` after `other` has left, not before the point, and past its own earliest entry. */
  function EntryAfter(moved: IntentionInterval, other: IntentionInterval, point: int): int
  {
    var after := Max(other.exitEarliest, point);
    if after == moved.entryEarliest then after + 1 else after
  }

  /** `moved` enters after `other` has used the point: present only when `moved` can still enter then. */
  function AfterOption(d: Occupancy, moved: IntentionInterval, other: IntentionInterval, point: int)
    : (r: Option<Restriction>)
    ensures r.Some? <==> EntryAfter(moved, other, point) <= moved.entryLatest
    ensures r.Some? ==>
      r.value.IncreaseMinTime? && r.value.intention == moved.intention &&
      r.value.minTime >= other.exitEarliest && r.value.minTime >= point && r.value.minTime != moved.entryEarliest
  {
    var after := EntryAfter(moved, other, point);
    if moved.entryLatest >= after then
      var restriction := Interval(after, moved.exitLatest);
      Some(IncreaseMinTime(moved.intention, restriction.start,
                           StartEdges(OverlappingOf(d, moved.intention, restriction))))
    else None
  }

  /** `moved` leaves before `other` enters and by the point: present only when `moved` can have left then. */
  function BeforeOption(d: Occupancy, moved: IntentionInterval, other: IntentionInterval, point: int)
    : (r: Option<Restriction>)
    ensures r.Some? <==> moved.exitEarliest <= Min(other.entryLatest, point)
    ensures r.Some? ==>
      r.value.DecreaseMaxTime? && r.value.intention == moved.intention &&
      r.value.maxTime + d.releaseSeconds <= other.entryLatest && r.value.maxTime + d.releaseSeconds <= point
  {
    var before := Min(other.entryLatest, point);
    if moved.exitEarliest <= before then
      var restriction := Interval(moved.entryEarliest, before);
      Some(DecreaseMaxTime(moved.intention, restriction.end - d.releaseSeconds,
                           EndEdges(OverlappingOf(d, moved.intention, restriction))))
    else None
  }

  /** Dropping an intention's paths through the resource, offered only when it is not visited on all paths. */
  function DropOption(d: Occupancy, ii: IntentionInterval): (r: Option<Restriction>)
    ensures r.Some? <==> !ii.VisitedOnAllPaths()
    ensures r.Some? ==> r.value.MarkPathInfeasible? && r.value.intention == ii.intention
  {
    if !ii.VisitedOnAllPaths() then Some(MarkPathInfeasible(ii.intention, FlowEdges(d.Occupations(ii.intention))))
    else None
  }

  /** The single-restriction schedule of a present option. */
  function Candidate(option: Option<Restriction>): (r: seq<ConflictSchedule>)
    ensures |r| <= 1
    ensures forall k :: 0 <= k < |r| ==>
      option.Some? && r[k].restrictions == [option.value] && r[k].badness.values == []
  {
    if option.Some? then [Unscored([option.value])] else []
  }

  /**
   * buildConflictSchedulesForPoint: with the primary using the point, the
   * secondary after it or before it; with the secondary using the point,
   * the primary after it or before it; then dropping the primary, then
   * dropping the secondary.
   */
  function SchedulesForPoint(d: Occupancy, primary: IntentionInterval, secondary: IntentionInterval, point: int)
    : seq<ConflictSchedule>
  {
    Candidate(AfterOption(d, secondary, primary, point)) + Candidate(BeforeOption(d, secondary, primary, point)) +
    Candidate(AfterOption(d, primary, secondary, point)) + Candidate(BeforeOption(d, primary, secondary, point)) +
    Candidate(DropOption(d, primary)) + Candidate(DropOption(d, secondary))
  }

  /**
   * Every candidate holds one restriction on one of the two intentions;
   * only an interval not visited on all paths can be dropped; and when both
   * intervals cover the point, each time restriction strictly narrows the
   * interval it moves: a raised entry lies past its earliest entry, a
   * lowered exit before its latest exit.
   */
  lemma SchedulesForPointRestrict(d: Occupancy, primary: IntentionInterval, secondary: IntentionInterval, point: int)
    requires primary.Start() <= point < primary.End() && secondary.Start() <= point < secondary.End()
    ensures forall s :: s in SchedulesForPoint(d, primary, secondary, point) ==>
      PointCandidate(d, primary, secondary, s)
  {
    var a := Candidate(AfterOption(d, secondary, primary, point));
    var b := Candidate(BeforeOption(d, secondary, primary, point));
    var c := Candidate(AfterOption(d, primary, secondary, point));
    var e := Candidate(BeforeOption(d, primary, secondary, point));
    var f := Candidate(DropOption(d, primary));
    var g := Candidate(DropOption(d, secondary));
    assert forall s :: s in a ==> PointCandidate(d, primary, secondary, s);
    assert forall s :: s in b ==> PointCandidate(d, primary, secondary, s);
    assert forall s :: s in c ==> PointCandidate(d, primary, secondary, s);
    assert forall s :: s in e ==> PointCandidate(d, primary, secondary, s);
    assert forall s :: s in f ==> PointCandidate(d, primary, secondary, s);
    assert forall s :: s in g ==> PointCandidate(d, primary, secondary, s);
  }

  /** What each candidate at the point satisfies. */
  ghost predicate PointCandidate(d: Occupancy, primary: IntentionInterval, secondary: IntentionInterval,
                                 s: ConflictSchedule)
  {
    |s.restrictions| == 1 &&
    var r := s.restrictions[0];
    (r.intention == primary.intention || r.intention == secondary.intention) &&
    (r.MarkPathInfeasible? ==>
       (r.intention == primary.intention && !primary.VisitedOnAllPaths()) ||
       (r.intention == secondary.intention && !secondary.VisitedOnAllPaths())) &&
    (r.IncreaseMinTime? && r.intention == primary.intention && r.intention != secondary.intention ==>
       primary.entryEarliest < r.minTime <= primary.entryLatest) &&
    (r.IncreaseMinTime? && r.intention == secondary.intention && r.intention != primary.intention ==>
       secondary.entryEarliest < r.minTime <= secondary.entryLatest) &&
    (r.DecreaseMaxTime? && r.intention == primary.intention && r.intention != secondary.intention ==>
       r.maxTime + d.releaseSeconds < primary.exitLatest) &&
    (r.DecreaseMaxTime? && r.intention == secondary.intention && r.intention != primary.intention ==>
       r.maxTime + d.releaseSeconds < secondary.exitLatest)
  }

  /** The list of buildConflictSchedulesForPoint, pushed case by case. */
  method BuildConflictSchedulesForPoint(d: Occupancy, primary: IntentionInterval, secondary: IntentionInterval,
                                        point: int)
    returns (result: seq<ConflictSchedule>)
    requires primary.Start() <= point < primary.End()
    requires secondary.Start() <= point < secondary.End()
    requires forall k :: 0 <= k < |d.Occupations(primary.intention)| ==> |d.Occupations(primary.intention)[k].flow| > 0
    requires forall k :: 0 <= k < |d.Occupations(secondary.intention)| ==>
      |d.Occupations(secondary.intention)[k].flow| > 0
    ensures result == SchedulesForPoint(d, primary, secondary, point)
  {
    var after := PushAfter(d, secondary, primary, point);
    var before := PushBefore(d, secondary, primary, point);
    var after2 := PushAfter(d, primary, secondary, point);
    var before2 := PushBefore(d, primary, secondary, point);
    var drop := PushDrop(d, primary);
    var drop2 := PushDrop(d, secondary);
    result := after + before + after2 + before2 + drop + drop2;
  }

  /** Case "after": at most one schedule, pushed when the moved interval can still enter late enough. */
  method PushAfter(d: Occupancy, moved: IntentionInterval, other: IntentionInterval, point: int)
    returns (pushed: seq<ConflictSchedule>)
    ensures pushed == Candidate(AfterOption(d, moved, other, point))
  {
    var earliestEntryAfter := Max(other.exitEarliest, point);
    if earliestEntryAfter == moved.entryEarliest {
      earliestEntryAfter := earliestEntryAfter + 1;
    }
    pushed := [];
    if moved.entryLatest >= earliestEntryAfter {
      var restriction := Interval(earliestEntryAfter, moved.exitLatest);
      var affected := GetOverlappingResourceOccupations(d, moved.intention, restriction);
      var r := CreateIncreaseMinTimeRestriction(moved.intention, restriction, affected);
      pushed := [Unscored([r])];
    }
  }

  /** Case "before": at most one schedule, pushed when the moved interval can have left early enough. */
  method PushBefore(d: Occupancy, moved: IntentionInterval, other: IntentionInterval, point: int)
    returns (pushed: seq<ConflictSchedule>)
    ensures pushed == Candidate(BeforeOption(d, moved, other, point))
  {
    var latestExitBefore := Min(other.entryLatest, point);
    pushed := [];
    if moved.exitEarliest <= latestExitBefore {
      var restriction := Interval(moved.entryEarliest, latestExitBefore);
      var affected := GetOverlappingResourceOccupations(d, moved.intention, restriction);
      var r := CreateDecreaseMaxTimeRestriction(moved.intention, restriction, affected, d.releaseSeconds);
      pushed := [Unscored([r])];
    }
  }

  /** Case "drop": a mark of all the intention's flows unless it is visited on all paths. */
  method PushDrop(d: Occupancy, ii: IntentionInterval) returns (pushed: seq<ConflictSchedule>)
    requires forall k :: 0 <= k < |d.Occupations(ii.intention)| ==> |d.Occupations(ii.intention)[k].flow| > 0
    ensures pushed == Candidate(DropOption(d, ii))
  {
    pushed := [];
    if !ii.VisitedOnAllPaths() {
      var r := CreateMarkInfeasibleRestriction(ii.intention, d.Occupations(ii.intention));
      pushed := [Unscored([r])];
    }
  }

  // ---------------------------------------------------------------------
  // The plan
  // ---------------------------------------------------------------------

  /** Every occupation is listed under its own intention and has a non-empty flow. */
  predicate WellFormedOccupations(byIntention: map<string, seq<ResourceOccupation>>)
  {
    forall i, k :: i in byIntention && 0 <= k < |byIntention[i]| ==>
      byIntention[i][k].intention == i && |byIntention[i][k].flow| > 0
  }

  /** The flows of an intention's windows all fit. */
  predicate AllFit(d: Occupancy, intention: string)
  {
    var os := d.Occupations(intention);
    forall k :: 0 <= k < |os| && os[k] in d.times ==> Fits(os[k], d.times[os[k]])
  }

  /** The merge updateMergedOccupation computes for an intention, release correction included. */
  function CurrentMerge(d: Occupancy, intention: string): Merge
  {
    Released(MergeOf(d.Occupations(intention), d.times), d.releaseSeconds)
  }

  /**
   * The stored interval of an intention agrees with the merge of its
   * windows in the four bounds and the weight; an intention of weight 0
   * has none.
   */
  ghost predicate MergedAt(d: Occupancy, merged: map<string, IntentionInterval>, intention: string)
  {
    (intention in merged ==> SameBounds(merged[intention], CurrentMerge(d, intention))) &&
    (intention !in merged ==> CurrentMerge(d, intention).weight == 0.0)
  }

  /** Each stored interval is keyed by its intention and passed the checks; the interval map holds exactly them. */
  ghost predicate Structured(merged: map<string, IntentionInterval>, intents: set<IntentionInterval>)
  {
    (forall i :: i in merged ==> merged[i].intention == i && merged[i].Checked()) &&
    intents == merged.Values
  }

  /** updateMergedOccupation reports no change: a non-zero weight and the same bounds and weight as stored. */
  predicate Unchanged(merged: map<string, IntentionInterval>, intention: string, m: Merge)
  {
    m.weight != 0.0 && intention in merged && SameBounds(merged[intention], m)
  }

  lemma ValuesRemove(merged: map<string, IntentionInterval>, intention: string)
    requires forall i :: i in merged ==> merged[i].intention == i
    requires intention in merged
    ensures (merged - {intention}).Values == merged.Values - {merged[intention]}
  {
    var rest := merged - {intention};
    forall v | v in merged.Values - {merged[intention]} ensures v in rest.Values {
      var i :| i in merged && merged[i] == v;
      assert i != intention;
      assert rest[i] == v;
    }
  }

  lemma ValuesPut(merged: map<string, IntentionInterval>, intention: string, ii: IntentionInterval)
    requires intention !in merged
    ensures merged[intention := ii].Values == merged.Values + {ii}
  {
    var m' := merged[intention := ii];
    assert m'[intention] == ii;
    forall v | v in merged.Values ensures v in m'.Values {
      var i :| i in merged && merged[i] == v;
      assert m'[i] == v;
    }
  }

  /** The windows of other intentions' occupations are untouched, so their merges are too. */
  lemma OthersKept(d: Occupancy, d': Occupancy, merged: map<string, IntentionInterval>, o: ResourceOccupation)
    requires WellFormedOccupations(d.byIntention)
    requires d'.byIntention == d.byIntention && d'.releaseSeconds == d.releaseSeconds
    requires forall o' :: o' != o ==> (o' in d'.times <==> o' in d.times)
    requires forall o' :: o' != o && o' in d.times ==> d'.times[o'] == d.times[o']
    requires forall i :: MergedAt(d, merged, i)
    ensures forall i :: i != o.intention ==> MergedAt(d', merged, i)
  {
    forall i | i != o.intention ensures MergedAt(d', merged, i) {
      var os := d.Occupations(i);
      assert d'.Occupations(i) == os;
      assert forall k :: 0 <= k < |os| ==> os[k] != o;
      MergeAgrees(os, d.times, d'.times);
      assert CurrentMerge(d', i) == CurrentMerge(d, i);
      assert MergedAt(d, merged, i);
    }
  }

  /** The restrictions scan derives for one updated interval. */
  ghost function FromConflicts(d: Occupancy, occ: IntentionInterval, conflicts: set<IntentionInterval>): set<Restriction>
  {
    set c, r | c in conflicts && c.VisitedOnAllPaths() && r in Additional(d, occ, c) :: r
  }

  ghost function ToConflicts(d: Occupancy, occ: IntentionInterval, conflicts: set<IntentionInterval>): set<Restriction>
    requires occ.VisitedOnAllPaths()
  {
    set c, r | c in conflicts && r in Additional(d, c, occ) :: r
  }

  /**
   * scan: what the updated interval must obey because of each overlapping
   * interval visited on all paths, and, when it is itself visited on all
   * paths, what each overlapping interval must obey because of it.
   */
  ghost function ScanEmitted(d: Occupancy, merged: map<string, IntentionInterval>, intents: set<IntentionInterval>,
                             updated: string): set<Restriction>
  {
    if updated !in merged then {}
    else
      var occ := merged[updated];
      var overlappers := Overlappers(intents, Interval(occ.Start(), occ.End()));
      FromConflicts(d, occ, overlappers) + (if occ.VisitedOnAllPaths() then ToConflicts(d, occ, overlappers) else {})
  }

  function TimesIn(rs: set<Restriction>): set<Restriction>
  {
    set r | r in rs && !r.MarkPathInfeasible?
  }

  function MarkedIn(rs: set<Restriction>): set<string>
  {
    set r | r in rs && r.MarkPathInfeasible? :: r.intention
  }

  lemma FromStep(d: Occupancy, occ: IntentionInterval, done: set<IntentionInterval>, c: IntentionInterval)
    ensures var added := if c.VisitedOnAllPaths() then Additional(d, occ, c) else [];
      TimesIn(FromConflicts(d, occ, done + {c})) == TimesIn(FromConflicts(d, occ, done)) + RestrictionQueues.TimesOf(added) &&
      MarkedIn(FromConflicts(d, occ, done + {c})) == MarkedIn(FromConflicts(d, occ, done)) + RestrictionQueues.MarkedOf(added)
  {
    var added := if c.VisitedOnAllPaths() then Additional(d, occ, c) else [];
    assert FromConflicts(d, occ, done + {c}) == FromConflicts(d, occ, done) + (set r | r in added);
  }

  lemma ToStep(d: Occupancy, occ: IntentionInterval, done: set<IntentionInterval>, c: IntentionInterval)
    requires occ.VisitedOnAllPaths()
    ensures TimesIn(ToConflicts(d, occ, done + {c})) ==
      TimesIn(ToConflicts(d, occ, done)) + RestrictionQueues.TimesOf(Additional(d, c, occ))
    ensures MarkedIn(ToConflicts(d, occ, done + {c})) ==
      MarkedIn(ToConflicts(d, occ, done)) + RestrictionQueues.MarkedOf(Additional(d, c, occ))
  {
    assert ToConflicts(d, occ, done + {c}) == ToConflicts(d, occ, done) + (set r | r in Additional(d, c, occ));
  }

  /** scan's first loop: the updated interval against each overlapping interval visited on all paths. */
  method ScanFrom(d: Occupancy, occ: IntentionInterval, overlappers: set<IntentionInterval>,
                  queue: RestrictionQueues.RestrictionQueue)
    requires WellFormedOccupations(d.byIntention) && queue.Valid()
    modifies queue
    ensures queue.Valid() && queue.poppedElements == old(queue.poppedElements)
    ensures queue.Held().Keeps(old(queue.Held()))
    ensures queue.PendingTimes() == old(queue.PendingTimes()) + TimesIn(FromConflicts(d, occ, overlappers))
    ensures queue.infeasibleEdges.Keys == old(queue.infeasibleEdges).Keys + MarkedIn(FromConflicts(d, occ, overlappers))
  {
    ghost var pending0, marked0 := queue.PendingTimes(), queue.infeasibleEdges.Keys;
    var rest := overlappers;
    while rest != {}
      invariant rest <= overlappers
      invariant queue.Valid() && queue.poppedElements == old(queue.poppedElements)
      invariant queue.Held().Keeps(old(queue.Held()))
      invariant queue.PendingTimes() == pending0 + TimesIn(FromConflicts(d, occ, overlappers - rest))
      invariant queue.infeasibleEdges.Keys == marked0 + MarkedIn(FromConflicts(d, occ, overlappers - rest))
      decreases |rest|
    {
      NonEmptyHasElement(rest);
      var conflict :| conflict in rest;
      ghost var done := overlappers - rest;
      if conflict.VisitedOnAllPaths() {
        CheckForAdditionalRestrictions(d, occ, conflict, queue);
      }
      rest := rest - {conflict};
      assert overlappers - rest == done + {conflict};
      FromStep(d, occ, done, conflict);
      ghost var added := if conflict.VisitedOnAllPaths() then Additional(d, occ, conflict) else [];
      RestrictionQueues.UnionAssoc(pending0, TimesIn(FromConflicts(d, occ, done)), RestrictionQueues.TimesOf(added));
      RestrictionQueues.UnionAssoc(marked0, MarkedIn(FromConflicts(d, occ, done)), RestrictionQueues.MarkedOf(added));
    }
    assert overlappers - rest == overlappers;
  }

  /** scan's second loop: each overlapping interval against the updated one, which is visited on all paths. */
  method ScanTo(d: Occupancy, occ: IntentionInterval, overlappers: set<IntentionInterval>,
                queue: RestrictionQueues.RestrictionQueue)
    requires occ.VisitedOnAllPaths()
    requires WellFormedOccupations(d.byIntention) && queue.Valid()
    modifies queue
    ensures queue.Valid() && queue.poppedElements == old(queue.poppedElements)
    ensures queue.Held().Keeps(old(queue.Held()))
    ensures queue.PendingTimes() == old(queue.PendingTimes()) + TimesIn(ToConflicts(d, occ, overlappers))
    ensures queue.infeasibleEdges.Keys == old(queue.infeasibleEdges).Keys + MarkedIn(ToConflicts(d, occ, overlappers))
  {
    ghost var pending0, marked0 := queue.PendingTimes(), queue.infeasibleEdges.Keys;
    var rest := overlappers;
    while rest != {}
      invariant rest <= overlappers
      invariant queue.Valid() && queue.poppedElements == old(queue.poppedElements)
      invariant queue.Held().Keeps(old(queue.Held()))
      invariant queue.PendingTimes() == pending0 + TimesIn(ToConflicts(d, occ, overlappers - rest))
      invariant queue.infeasibleEdges.Keys == marked0 + MarkedIn(ToConflicts(d, occ, overlappers - rest))
      decreases |rest|
    {
      NonEmptyHasElement(rest);
      var conflict :| conflict in rest;
      ghost var done := overlappers - rest;
      CheckForAdditionalRestrictions(d, conflict, occ, queue);
      rest := rest - {conflict};
      assert overlappers - rest == done + {conflict};
      ToStep(d, occ, done, conflict);
      RestrictionQueues.UnionAssoc(pending0, TimesIn(ToConflicts(d, occ, done)),
                                   RestrictionQueues.TimesOf(Additional(d, conflict, occ)));
      RestrictionQueues.UnionAssoc(marked0, MarkedIn(ToConflicts(d, occ, done)),
                                   RestrictionQueues.MarkedOf(Additional(d, conflict, occ)));
    }
    assert overlappers - rest == overlappers;
  }

  /** The stored interval of an intention, as a set of at most one element. */
  function StoredAt(merged: map<string, IntentionInterval>, intention: string): set<IntentionInterval>
  {
    if intention in merged then {merged[intention]} else {}
  }

  /** Windows that all fit give a merge of non-zero weight that passes the interval checks. */
  lemma AllFitChecked(d: Occupancy, intention: string)
    requires AllFit(d, intention)
    requires CurrentMerge(d, intention).weight != 0.0
    ensures IntervalOf(intention, CurrentMerge(d, intention)).Checked()
  {
    var os := d.Occupations(intention);
    MergeBounds(os, d.times);
    MergeChecked(os, d.times, d.releaseSeconds);
  }

  lemma EmittedSplit(a: set<Restriction>, b: set<Restriction>)
    ensures TimesIn(a + b) == TimesIn(a) + TimesIn(b)
    ensures MarkedIn(a + b) == MarkedIn(a) + MarkedIn(b)
  {
  }

  /** The stored intervals agree with the windows for every intention. */
  ghost predicate Consistent(d: Occupancy, merged: map<string, IntentionInterval>, intents: set<IntentionInterval>)
  {
    Structured(merged, intents) && forall i :: MergedAt(d, merged, i)
  }

  /** Dropping the stored interval of an intention whose merge has weight 0. */
  lemma DropKeepsConsistent(d: Occupancy, merged: map<string, IntentionInterval>, intents: set<IntentionInterval>,
                            intention: string)
    requires Structured(merged, intents)
    requires forall i :: i != intention ==> MergedAt(d, merged, i)
    requires CurrentMerge(d, intention).weight == 0.0
    ensures Consistent(d, merged - {intention}, intents - StoredAt(merged, intention))
  {
    if intention in merged {
      ValuesRemove(merged, intention);
    } else {
      assert merged - {intention} == merged;
    }
    var merged' := merged - {intention};
    forall i ensures MergedAt(d, merged', i) {
      if i != intention {
        assert MergedAt(d, merged, i);
      }
    }
  }

  /** Storing the interval built from the merge of an intention. */
  lemma PutKeepsConsistent(d: Occupancy, merged: map<string, IntentionInterval>, intents: set<IntentionInterval>,
                           intention: string)
    requires Structured(merged, intents)
    requires forall i :: i != intention ==> MergedAt(d, merged, i)
    requires IntervalOf(intention, CurrentMerge(d, intention)).Checked()
    ensures var ii := IntervalOf(intention, CurrentMerge(d, intention));
      Consistent(d, merged[intention := ii], intents - StoredAt(merged, intention) + {ii})
  {
    var ii := IntervalOf(intention, CurrentMerge(d, intention));
    if intention in merged {
      ValuesRemove(merged, intention);
      assert merged[intention := ii] == (merged - {intention})[intention := ii];
      ValuesPut(merged - {intention}, intention, ii);
    } else {
      ValuesPut(merged, intention, ii);
    }
    var merged' := merged[intention := ii];
    forall i ensures MergedAt(d, merged', i) {
      if i != intention {
        assert MergedAt(d, merged, i);
      }
    }
  }

  /**
   * The body of updateMergedOccupation on values. Weight 0 drops the
   * stored interval; the same bounds and weight as stored report no
   * change; otherwise the old interval leaves the index and the new one
   * is built, which fails (ok false) when it does not pass the interval
   * checks, leaving the old one out of the index but in the map.
   */
  method MergedUpdate(d: Occupancy, merged: map<string, IntentionInterval>, intents: set<IntentionInterval>,
                      intention: string)
    returns (changed: bool, ok: bool, merged': map<string, IntentionInterval>, intents': set<IntentionInterval>)
    requires Structured(merged, intents)
    requires forall i :: i != intention ==> MergedAt(d, merged, i)
    ensures ok <==> CurrentMerge(d, intention).weight == 0.0 || Unchanged(merged, intention, CurrentMerge(d, intention)) ||
                    IntervalOf(intention, CurrentMerge(d, intention)).Checked()
    ensures changed <==> !Unchanged(merged, intention, CurrentMerge(d, intention))
    ensures AllFit(d, intention) ==> ok
    ensures ok ==> Consistent(d, merged', intents')
    ensures ok ==> merged' - {intention} == merged - {intention}
    ensures ok && changed && intention in merged' ==>
      merged'[intention] == IntervalOf(intention, CurrentMerge(d, intention))
    ensures ok && !changed ==> merged' == merged && intents' == intents
    ensures !ok ==> merged' == merged && intents' == intents - StoredAt(merged, intention)
  {
    var merge := MergeOccupations(d.Occupations(intention), d.times);
    if merge.weight == 0.0 {
      DropKeepsConsistent(d, merged, intents, intention);
      merged', intents' := merged - {intention}, intents - StoredAt(merged, intention);
      return true, true, merged', intents';
    }
    var released := Released(merge, d.releaseSeconds);
    if intention in merged && SameBounds(merged[intention], released) {
      assert MergedAt(d, merged, intention);
      return false, true, merged, intents;
    }
    intents' := intents - StoredAt(merged, intention);
    if AllFit(d, intention) {
      AllFitChecked(d, intention);
    }
    var ii := NewIntentionInterval(intention, released.entryEarliest, released.entryLatest, released.exitEarliest,
                                   released.exitLatest, released.minDuration, released.weight);
    if ii.None? {
      return true, false, merged, intents';
    }
    PutKeepsConsistent(d, merged, intents, intention);
    merged', intents' := merged[intention := ii.value], intents' + {ii.value};
    return true, true, merged', intents';
  }

  /**
   * The resource plan of one resource: the windows given to the
   * occupations of the resource, their merge per intention, and the
   * merged intervals indexed for overlap queries.
   */
  class ResourcePlan {
    const resource: string
    const releaseSeconds: int
    const boost: real
    const occupationsByIntention: map<string, seq<ResourceOccupation>>
    var timeByOccupation: map<ResourceOccupation, OccupationTimes>
    var mergedOccupation: map<string, IntentionInterval>
    var intentOccupations: set<IntentionInterval>

    function Data(): Occupancy
      reads this
    {
      Occupancy(occupationsByIntention, timeByOccupation, releaseSeconds)
    }

    ghost predicate Valid()
      reads this
    {
      WellFormedOccupations(occupationsByIntention) &&
      Consistent(Data(), mergedOccupation, intentOccupations)
    }

    constructor (resource: string, releaseSeconds: int, boost: real,
                 occupationsByIntention: map<string, seq<ResourceOccupation>>)
      requires WellFormedOccupations(occupationsByIntention)
      ensures this.resource == resource && this.releaseSeconds == releaseSeconds && this.boost == boost
      ensures this.occupationsByIntention == occupationsByIntention
      ensures timeByOccupation == map[] && mergedOccupation == map[] && intentOccupations == {}
      ensures Valid()
    {
      this.resource := resource;
      this.releaseSeconds := releaseSeconds;
      this.boost := boost;
      this.occupationsByIntention := occupationsByIntention;
      timeByOccupation := map[];
      mergedOccupation := map[];
      intentOccupations := {};
      new;
      forall i ensures MergedAt(Data(), mergedOccupation, i) {
        MergeBounds(Data().Occupations(i), timeByOccupation);
      }
    }

    /** A plan with the same state that later updates do not share. */
    method Copy() returns (c: ResourcePlan)
      requires Valid()
      ensures fresh(c) && c.Valid()
      ensures c.resource == resource && c.releaseSeconds == releaseSeconds && c.boost == boost
      ensures c.occupationsByIntention == occupationsByIntention
      ensures c.timeByOccupation == timeByOccupation && c.mergedOccupation == mergedOccupation
      ensures c.intentOccupations == intentOccupations
    {
      c := new ResourcePlan(resource, releaseSeconds, boost, occupationsByIntention);
      c.timeByOccupation := timeByOccupation;
      c.mergedOccupation := mergedOccupation;
      c.intentOccupations := intentOccupations;
      assert c.Data() == Data();
    }

    /**
     * updateMergedOccupation: recomputes the merge of the intention's
     * windows and stores the outcome of MergedUpdate.
     */
    method UpdateMergedOccupation(intention: string) returns (changed: bool, ok: bool)
      requires WellFormedOccupations(occupationsByIntention)
      requires Structured(mergedOccupation, intentOccupations)
      requires forall i :: i != intention ==> MergedAt(Data(), mergedOccupation, i)
      modifies this
      ensures timeByOccupation == old(timeByOccupation)
      ensures ok <==> CurrentMerge(Data(), intention).weight == 0.0 ||
                      Unchanged(old(mergedOccupation), intention, CurrentMerge(Data(), intention)) ||
                      IntervalOf(intention, CurrentMerge(Data(), intention)).Checked()
      ensures changed <==> !Unchanged(old(mergedOccupation), intention, CurrentMerge(Data(), intention))
      ensures AllFit(Data(), intention) ==> ok
      ensures ok ==> Valid()
      ensures ok ==> mergedOccupation - {intention} == old(mergedOccupation) - {intention}
      ensures ok && changed && intention in mergedOccupation ==>
        mergedOccupation[intention] == IntervalOf(intention, CurrentMerge(Data(), intention))
      ensures ok && !changed ==> mergedOccupation == old(mergedOccupation)
      ensures !ok ==> mergedOccupation == old(mergedOccupation)
      ensures !ok ==> intentOccupations == old(intentOccupations) - StoredAt(old(mergedOccupation), intention)
    {
      var merged, intents;
      changed, ok, merged, intents := MergedUpdate(Data(), mergedOccupation, intentOccupations, intention);
      mergedOccupation := merged;
      intentOccupations := intents;
    }
  
    /**
     * scan: the restrictions the updated intention's stored interval
     * forces on or receives from the stored intervals that overlap it.
     */
    method Scan(updatedIntention: string, queue: RestrictionQueues.RestrictionQueue)
      requires Valid() && queue.Valid()
      modifies queue
      ensures queue.Valid() && queue.poppedElements == old(queue.poppedElements)
      ensures queue.Held().Keeps(old(queue.Held()))
      ensures queue.PendingTimes() == old(queue.PendingTimes()) +
        TimesIn(ScanEmitted(Data(), mergedOccupation, intentOccupations, updatedIntention))
      ensures queue.infeasibleEdges.Keys == old(queue.infeasibleEdges).Keys +
        MarkedIn(ScanEmitted(Data(), mergedOccupation, intentOccupations, updatedIntention))
    {
      if updatedIntention !in mergedOccupation {
        return;
      }
      var occupation := mergedOccupation[updatedIntention];
      var overlappers := Overlappers(intentOccupations, Interval(occupation.Start(), occupation.End()));
      ghost var pending0, marked0 := queue.PendingTimes(), queue.infeasibleEdges.Keys;
      ScanFrom(Data(), occupation, overlappers, queue);
      if occupation.VisitedOnAllPaths() {
        ScanTo(Data(), occupation, overlappers, queue);
        ghost var from, to := FromConflicts(Data(), occupation, overlappers), ToConflicts(Data(), occupation, overlappers);
        EmittedSplit(from, to);
        RestrictionQueues.UnionAssoc(pending0, TimesIn(from), TimesIn(to));
        RestrictionQueues.UnionAssoc(marked0, MarkedIn(from), MarkedIn(to));
      }
    }

    /**
     * set: gives an occupation a new window and, when the merged interval
     * of its intention changed, scans it. ok is false when the new merge
     * does not pass the interval checks.
     */
    method Set(occupation: ResourceOccupation, times: OccupationTimes, queue: RestrictionQueues.RestrictionQueue)
      returns (ok: bool)
      requires Valid() && queue.Valid()
      modifies this, queue
      ensures timeByOccupation == old(timeByOccupation)[occupation := times]
      ensures AllFit(Data(), occupation.intention) ==> ok
      ensures ok ==> Valid() && mergedOccupation - {occupation.intention} == old(mergedOccupation) - {occupation.intention}
      ensures queue.Valid() && queue.poppedElements == old(queue.poppedElements)
      ensures queue.Held().Keeps(old(queue.Held()))
      ensures !ok || Unchanged(old(mergedOccupation), occupation.intention, CurrentMerge(Data(), occupation.intention)) ==>
        queue.PendingTimes() == old(queue.PendingTimes()) && queue.infeasibleEdges.Keys == old(queue.infeasibleEdges).Keys
      ensures ok && !Unchanged(old(mergedOccupation), occupation.intention, CurrentMerge(Data(), occupation.intention)) ==>
        queue.PendingTimes() == old(queue.PendingTimes()) +
          TimesIn(ScanEmitted(Data(), mergedOccupation, intentOccupations, occupation.intention)) &&
        queue.infeasibleEdges.Keys == old(queue.infeasibleEdges).Keys +
          MarkedIn(ScanEmitted(Data(), mergedOccupation, intentOccupations, occupation.intention))
    {
      ghost var d0 := Data();
      timeByOccupation := timeByOccupation[occupation := times];
      OthersKept(d0, Data(), mergedOccupation, occupation);
      var changed;
      changed, ok := UpdateMergedOccupation(occupation.intention);
      if ok && changed {
        Scan(occupation.intention, queue);
      }
    }

    /** remove: takes an occupation's window away, then as in set. */
    method Remove(occupation: ResourceOccupation, queue: RestrictionQueues.RestrictionQueue) returns (ok: bool)
      requires Valid() && queue.Valid()
      modifies this, queue
      ensures timeByOccupation == old(timeByOccupation) - {occupation}
      ensures AllFit(Data(), occupation.intention) ==> ok
      ensures ok ==> Valid() && mergedOccupation - {occupation.intention} == old(mergedOccupation) - {occupation.intention}
      ensures queue.Valid() && queue.poppedElements == old(queue.poppedElements)
      ensures queue.Held().Keeps(old(queue.Held()))
      ensures !ok || Unchanged(old(mergedOccupation), occupation.intention, CurrentMerge(Data(), occupation.intention)) ==>
        queue.PendingTimes() == old(queue.PendingTimes()) && queue.infeasibleEdges.Keys == old(queue.infeasibleEdges).Keys
      ensures ok && !Unchanged(old(mergedOccupation), occupation.intention, CurrentMerge(Data(), occupation.intention)) ==>
        queue.PendingTimes() == old(queue.PendingTimes()) +
          TimesIn(ScanEmitted(Data(), mergedOccupation, intentOccupations, occupation.intention)) &&
        queue.infeasibleEdges.Keys == old(queue.infeasibleEdges).Keys +
          MarkedIn(ScanEmitted(Data(), mergedOccupation, intentOccupations, occupation.intention))
    {
      ghost var d0 := Data();
      timeByOccupation := timeByOccupation - {occupation};
      OthersKept(d0, Data(), mergedOccupation, occupation);
      var changed;
      changed, ok := UpdateMergedOccupation(occupation.intention);
      if ok && changed {
        Scan(occupation.intention, queue);
      }
    }

    /**
     * createConflictSchedules for a point: with fewer than two stored
     * intervals covering it, the single empty schedule of badness 0;
     * otherwise the schedules resolving the overlap of the first two in
     * density order, each restricting one of them at the point.
     */
    method CreateConflictSchedules(range: Interval, sortedConflicts: seq<IntentionInterval>)
      returns (r: seq<ConflictSchedule>)
      requires Valid()
      requires range.end - range.start == 0
      requires |sortedConflicts| == |Overlappers(intentOccupations, Interval(range.start, range.end + 1))|
      requires forall k :: 0 <= k < |sortedConflicts| ==>
        sortedConflicts[k] in Overlappers(intentOccupations, Interval(range.start, range.end + 1))
      requires forall i, j :: 0 <= i < j < |sortedConflicts| ==> sortedConflicts[i] != sortedConflicts[j]
      ensures |sortedConflicts| < 2 ==> r == [Scored([], 0.0)]
      ensures |sortedConflicts| >= 2 ==> r == SchedulesForPoint(Data(), sortedConflicts[0], sortedConflicts[1], range.start)
      ensures |sortedConflicts| >= 2 ==>
        forall s :: s in r ==> PointCandidate(Data(), sortedConflicts[0], sortedConflicts[1], s)
    {
      var conflicts := Overlappers(intentOccupations, Interval(range.start, range.end + 1));
      if |conflicts| < 2 {
        return [Scored([], 0.0)];
      }
      assert Overlaps(sortedConflicts[0], Interval(range.start, range.end + 1));
      assert Overlaps(sortedConflicts[1], Interval(range.start, range.end + 1));
      r := BuildConflictSchedulesForPoint(Data(), sortedConflicts[0], sortedConflicts[1], range.start);
      SchedulesForPointRestrict(Data(), sortedConflicts[0], sortedConflicts[1], range.start);
    }
  }
}
