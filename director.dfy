/**
 * The generic backtracking search of the solver. A director keeps a stack
 * of decisions; each decision holds a state, the conflict chosen for it
 * and the options that resolve that conflict, with a cursor over the
 * options. One search loop serves four strategies, which differ in how
 * they choose the next conflict and how they back out of a dead end:
 * the plain director, the hard-collecting director, the priority-conflict
 * director and the boosting director.
 */
module Directors {
  import opened Common

  /**
   * The solver the search drives: the worst conflict of a state (None
   * when the state is a solution), the options for a conflict, and the
   * state an option leads to (None when the option fails).
   */
  datatype Executor<!S, !C(!new), !O> = Executor(
    worstConflict: S -> Option<C>,
    getOptions: (S, C) -> seq<O>,
    apply: (S, O) -> Option<S>)

  /** Which of the four directors runs the search. */
  datatype Strategy =
    | Plain
    | HardCollecting
    | PriorityConflicts(maxPriorityListSize: int)
    | Boosting(boostHardConflictSize: int)

  /** A stack entry; the conflict is None only in the hard-collecting sentinel. */
  class Decision<S, C(!new), O> {
    const state: S
    const conflict: Option<C>
    const options: seq<O>
    var next: nat

    constructor (state: S, conflict: Option<C>, options: seq<O>)
      ensures this.state == state && this.conflict == conflict && this.options == options
      ensures next == 0
    {
      this.state := state;
      this.conflict := conflict;
      this.options := options;
      next := 0;
    }

    predicate HasNextOption()
      reads this
    {
      next < |options|
    }

    /** Hands out the option under the cursor and moves the cursor on. */
    method NextOption() returns (option: O)
      requires HasNextOption()
      modifies this
      ensures option == options[old(next)]
      ensures next == old(next) + 1
    {
      option := options[next];
      next := next + 1;
    }
  }

  /**
   * What scanning a decision's options from cursor `from` yields: the state
   * of the first option that applies and the cursor just past it, or None
   * with the cursor at the end.
   */
  function FirstApplied<S, C(!new), O>(executor: Executor<S, C, O>, state: S, options: seq<O>, from: nat): (Option<S>, nat)
    decreases |options| - from
  {
    if from >= |options| then (None, from)
    else match executor.apply(state, options[from])
      case Some(s) => (Some(s), from + 1)
      case None => FirstApplied(executor, state, options, from + 1)
  }

  /** The scan takes the first option that applies, in list order, and skips only failing ones. */
  lemma {:induction false} FirstAppliedMeans<S, C(!new), O>(executor: Executor<S, C, O>, state: S, options: seq<O>, from: nat)
    requires from <= |options|
    ensures var (r, k) := FirstApplied(executor, state, options, from);
      && from <= k <= |options|
      && (r.None? ==> k == |options|)
      && (r.Some? ==> from < k && executor.apply(state, options[k - 1]) == r)
      && (forall i :: from <= i < |options| && (r.None? || i < k - 1) ==> executor.apply(state, options[i]).None?)
    decreases |options| - from
  {
    if from < |options| && executor.apply(state, options[from]).None? {
      FirstAppliedMeans(executor, state, options, from + 1);
    }
  }

  /** Every decision on the stack carries a conflict. */
  ghost predicate Live<S, C(!new), O>(ds: seq<Decision<S, C, O>>)
  {
    forall i :: 0 <= i < |ds| ==> ds[i].conflict.Some?
  }

  /** `after` is `before` with one decision per conflict pushed, in order. */
  ghost predicate Replayed<S, C(!new), O>(before: seq<Decision<S, C, O>>, after: seq<Decision<S, C, O>>, conflicts: seq<C>)
  {
    && |after| == |before| + |conflicts|
    && after[..|before|] == before
    && forall i :: 0 <= i < |conflicts| ==> after[|before| + i].conflict == Some(conflicts[i])
  }

  /**
   * Applying, in order, the option each decision last handed out leads
   * from `from` through the decisions' states to `to`.
   */
  ghost predicate Chain<S, C(!new), O>(executor: Executor<S, C, O>, ds: seq<Decision<S, C, O>>, from: S, to: S)
    reads set i | 0 <= i < |ds| :: ds[i]
    decreases |ds|
  {
    if ds == [] then from == to
    else
      && ds[0].state == from
      && 0 < ds[0].next <= |ds[0].options|
      && match executor.apply(from, ds[0].options[ds[0].next - 1])
         case Some(s) => Chain(executor, ds[1..], s, to)
         case None => false
  }

  /** Pushing a decision in front of a replay of the remaining conflicts replays them all. */
  lemma Pushed<S, C(!new), O>(executor: Executor<S, C, O>, before: seq<Decision<S, C, O>>, decision: Decision<S, C, O>,
                        after: seq<Decision<S, C, O>>, hard: seq<C>, start: nat, mid: S, end: S)
    requires start < |hard| && decision.conflict == Some(hard[start])
    requires 0 < decision.next <= |decision.options|
    requires executor.apply(decision.state, decision.options[decision.next - 1]) == Some(mid)
    requires Replayed(before + [decision], after, hard[start + 1..])
    requires Chain(executor, after[|before + [decision]|..], mid, end)
    ensures Replayed(before, after, hard[start..])
    ensures Chain(executor, after[|before|..], decision.state, end)
  {
    assert after[|before|] == decision;
    assert after[|before|..][1..] == after[|before + [decision]|..];
    forall i | 0 <= i < |hard| - start
      ensures after[|before| + i].conflict == Some(hard[start..][i])
    {
      if i > 0 {
        assert after[|before + [decision]| + (i - 1)].conflict == Some(hard[start + 1..][i - 1]);
      }
    }
  }

  /** Two replays one after the other replay the joined conflicts, and keep every decision live. */
  lemma ReplayedAppend<S, C(!new), O>(before: seq<Decision<S, C, O>>, mid: seq<Decision<S, C, O>>, after: seq<Decision<S, C, O>>,
                                hard: seq<C>, c: C)
    requires Live(before)
    requires Replayed(before, mid, hard[0..])
    requires Replayed(mid, after, [c][0..])
    ensures Replayed(before, after, hard + [c]) && Live(after)
  {
    assert hard[0..] == hard;
    assert [c][0..] == [c];
    assert after[..|before|] == mid[..|before|];
    forall i | 0 <= i < |after|
      ensures after[i].conflict.Some?
    {
      if i >= |before| + |hard| {
        assert [c][0..][0] == c;
        assert after[|mid| + 0].conflict == Some([c][0..][0]);
      } else if i >= |before| {
        assert after[i] == mid[i];
        assert mid[|before| + (i - |before|)].conflict == Some(hard[i - |before|]);
      } else {
        assert after[i] == before[i];
      }
    }
  }

  /**
   * What tryApply yields: replaying the conflicts hard[start..] from
   * `state`, trying the options of hard[start] from the k-th on, in list
   * order, and keeping the first whose state replays the rest; None when
   * no option does.
   */
  function ReplayOutcome<S, C(!new), O>(executor: Executor<S, C, O>, state: S, hard: seq<C>, start: nat, k: nat): Option<S>
    requires start <= |hard|
    decreases |hard| - start, if start < |hard| then |executor.getOptions(state, hard[start])| - k else 0
  {
    if start == |hard| then Some(state)
    else
      var options := executor.getOptions(state, hard[start]);
      if k >= |options| then None
      else match executor.apply(state, options[k])
        case None => ReplayOutcome(executor, state, hard, start, k + 1)
        case Some(s) =>
          var rest := ReplayOutcome(executor, s, hard, start + 1, 0);
          if rest.Some? then rest else ReplayOutcome(executor, state, hard, start, k + 1)
  }

  /**
   * The reference replay: for each conflict of hard[start..] in turn,
   * apply the option ks picks for it; None when a pick is out of range or
   * its option fails.
   */
  function Follow<S, C(!new), O>(executor: Executor<S, C, O>, state: S, hard: seq<C>, start: nat, ks: seq<nat>): Option<S>
    requires start <= |hard| && |ks| == |hard| - start
    decreases |ks|
  {
    if start == |hard| then Some(state)
    else
      var options := executor.getOptions(state, hard[start]);
      if ks[0] >= |options| then None
      else match executor.apply(state, options[ks[0]])
        case None => None
        case Some(s) => Follow(executor, s, hard, start + 1, ks[1..])
  }

  /** The replay is complete: when some choice of options replays the conflicts, tryApply finds one. */
  lemma {:induction false} ReplayComplete<S, C(!new), O>(executor: Executor<S, C, O>, state: S, hard: seq<C>, start: nat,
                                                   k: nat, ks: seq<nat>)
    requires start <= |hard| && |ks| == |hard| - start
    requires Follow(executor, state, hard, start, ks).Some?
    requires start < |hard| ==> k <= ks[0]
    ensures ReplayOutcome(executor, state, hard, start, k).Some?
    decreases |hard| - start, if start < |hard| then ks[0] - k else 0
  {
    if start < |hard| {
      var options := executor.getOptions(state, hard[start]);
      if k < ks[0] {
        ReplayComplete(executor, state, hard, start, k + 1, ks);
      } else {
        var s := executor.apply(state, options[k]).value;
        ReplayComplete(executor, s, hard, start + 1, 0, ks[1..]);
      }
    }
  }

  /** The replay is sound: the state tryApply yields is the one some choice of options leads to. */
  lemma {:induction false} ReplaySound<S, C(!new), O>(executor: Executor<S, C, O>, state: S, hard: seq<C>, start: nat,
                                                k: nat, end: S) returns (ks: seq<nat>)
    requires start <= |hard|
    requires ReplayOutcome(executor, state, hard, start, k) == Some(end)
    ensures |ks| == |hard| - start && Follow(executor, state, hard, start, ks) == Some(end)
    decreases |hard| - start, if start < |hard| then |executor.getOptions(state, hard[start])| - k else 0
  {
    if start == |hard| {
      ks := [];
    } else {
      var options := executor.getOptions(state, hard[start]);
      match executor.apply(state, options[k])
      case None =>
        ks := ReplaySound(executor, state, hard, start, k + 1, end);
      case Some(s) =>
        if ReplayOutcome(executor, s, hard, start + 1, 0).Some? {
          var tail := ReplaySound(executor, s, hard, start + 1, 0, end);
          ks := [k] + tail;
          assert ks[1..] == tail;
        } else {
          ks := ReplaySound(executor, state, hard, start, k + 1, end);
        }
    }
  }

  /**
   * `to` is reached from `from` by applying, conflict after conflict, one
   * of the options the executor offers for it.
   */
  ghost predicate Reaches<S, C(!new), O>(executor: Executor<S, C, O>, from: S, to: S)
  {
    exists hard: seq<C>, ks: seq<nat> :: |ks| == |hard| && Follow(executor, from, hard, 0, ks) == Some(to)
  }

  /** Following one more conflict's option after a replay. */
  lemma {:induction false} FollowAppend<S, C(!new), O>(executor: Executor<S, C, O>, state: S, hard: seq<C>, start: nat,
                                                      ks: seq<nat>, c: C, k: nat, mid: S)
    requires start <= |hard| && |ks| == |hard| - start
    requires Follow(executor, state, hard, start, ks) == Some(mid)
    ensures Follow(executor, state, hard + [c], start, ks + [k]) ==
            if k < |executor.getOptions(mid, c)| then executor.apply(mid, executor.getOptions(mid, c)[k]) else None
    decreases |ks|
  {
    if start < |hard| {
      assert (hard + [c])[start] == hard[start];
      assert (ks + [k])[1..] == ks[1..] + [k];
      var options := executor.getOptions(state, hard[start]);
      var s := executor.apply(state, options[ks[0]]).value;
      FollowAppend(executor, s, hard, start + 1, ks[1..], c, k, mid);
    } else {
      assert [k][1..] == [];
    }
  }

  /** A state reaches itself, by the empty replay. */
  lemma ReachesItself<S, C(!new), O>(executor: Executor<S, C, O>, state: S)
    ensures Reaches(executor, state, state)
  {
    assert Follow(executor, state, [], 0, []) == Some(state);
  }

  /** Applying one more offered option extends what a state reaches. */
  lemma ReachesStep<S, C(!new), O>(executor: Executor<S, C, O>, from: S, mid: S, c: C, k: nat, to: S)
    requires Reaches(executor, from, mid)
    requires k < |executor.getOptions(mid, c)| && executor.apply(mid, executor.getOptions(mid, c)[k]) == Some(to)
    ensures Reaches(executor, from, to)
  {
    var hard: seq<C>, ks: seq<nat> :| |ks| == |hard| && Follow(executor, from, hard, 0, ks) == Some(mid);
    FollowAppend(executor, from, hard, 0, ks, c, k, mid);
    assert |ks + [k]| == |hard + [c]|;
  }

  /** A state the origin reaches; with no origin nothing is claimed. */
  ghost predicate From<S, C(!new), O>(executor: Executor<S, C, O>, origin: Option<S>, state: S)
  {
    origin.Some? ==> Reaches(executor, origin.value, state)
  }

  /**
   * Every state on the stack is reached from the origin, and every decision
   * with a conflict offers the executor's options for it; with no origin
   * nothing is claimed.
   */
  ghost predicate GroundedStack<S, C(!new), O>(executor: Executor<S, C, O>, origin: Option<S>, ds: seq<Decision<S, C, O>>)
    decreases |ds|
  {
    origin.Some? && ds != [] ==>
      GroundedStack(executor, origin, ds[..|ds| - 1]) && GroundedAt(executor, origin, ds[|ds| - 1])
  }

  /** One decision of a grounded stack. */
  ghost predicate GroundedAt<S, C(!new), O>(executor: Executor<S, C, O>, origin: Option<S>, d: Decision<S, C, O>)
  {
    && From(executor, origin, d.state)
    && (d.conflict.Some? ==> d.options == executor.getOptions(d.state, d.conflict.value))
  }

  /** A state one offered option away from a state the origin reaches is reached too. */
  lemma FromStep<S, C(!new), O>(executor: Executor<S, C, O>, origin: Option<S>, mid: S, c: C, k: nat, to: S)
    requires From(executor, origin, mid)
    requires k < |executor.getOptions(mid, c)| && executor.apply(mid, executor.getOptions(mid, c)[k]) == Some(to)
    ensures From(executor, origin, to)
  {
    if origin.Some? {
      ReachesStep(executor, origin.value, mid, c, k, to);
    }
  }

  /** Popping a frame keeps the stack grounded, and the frame on top was reached from the origin. */
  lemma GroundedBelow<S, C(!new), O>(executor: Executor<S, C, O>, origin: Option<S>, ds: seq<Decision<S, C, O>>)
    requires GroundedStack(executor, origin, ds) && ds != []
    ensures GroundedStack(executor, origin, ds[..|ds| - 1]) && From(executor, origin, ds[|ds| - 1].state)
    ensures origin.Some? && ds[|ds| - 1].conflict.Some? ==>
      ds[|ds| - 1].options == executor.getOptions(ds[|ds| - 1].state, ds[|ds| - 1].conflict.value)
  {
  }

  /** The state the top decision's scan finds is reached from the origin. */
  lemma GroundedApplied<S, C(!new), O>(executor: Executor<S, C, O>, origin: Option<S>, ds: seq<Decision<S, C, O>>,
                                       from: nat, to: S)
    requires GroundedStack(executor, origin, ds) && ds != [] && ds[|ds| - 1].conflict.Some?
    requires FirstApplied(executor, ds[|ds| - 1].state, ds[|ds| - 1].options, from).0 == Some(to)
    ensures From(executor, origin, to)
  {
    var top := ds[|ds| - 1];
    GroundedBelow(executor, origin, ds);
    if origin.Some? && from <= |top.options| {
      FirstAppliedMeans(executor, top.state, top.options, from);
      var k := FirstApplied(executor, top.state, top.options, from).1;
      FromStep(executor, origin, top.state, top.conflict.value, k - 1, to);
    }
  }

  /** Pushing a decision for a reached state, offering the executor's options, keeps the stack grounded. */
  lemma GroundedPush<S, C(!new), O>(executor: Executor<S, C, O>, origin: Option<S>, ds: seq<Decision<S, C, O>>,
                                    d: Decision<S, C, O>)
    requires GroundedStack(executor, origin, ds) && From(executor, origin, d.state)
    requires d.conflict.Some? ==> d.options == executor.getOptions(d.state, d.conflict.value)
    ensures GroundedStack(executor, origin, ds + [d])
  {
    assert (ds + [d])[..|ds|] == ds;
  }

  /** How a hard-collecting backtrack leaves the search, with the hard list it collected. */
  datatype Exit<S, C> =
    | StackEmpty(hard: seq<C>)                // the source pops an empty stack
    | Resume(hard: seq<C>, depth: nat, state: S)
    | JumpBack(hard: seq<C>, depth: nat)
    | Exhausted(hard: seq<C>, final: Option<S>)

  /** The states and conflicts of a live stack, bottom first. */
  function Frames<S, C(!new), O>(ds: seq<Decision<S, C, O>>): (frames: seq<(S, C)>)
    requires Live(ds)
    ensures |frames| == |ds|
    ensures forall i :: 0 <= i < |ds| ==> frames[i] == (ds[i].state, ds[i].conflict.value)
  {
    seq(|ds|, i requires 0 <= i < |ds| => (ds[i].state, ds[i].conflict.value))
  }

  /**
   * The collecting backtrack over the frames left below the dead end,
   * popped from the top: a frame on whose state the hard list replays and
   * then the frame's own conflict resolves resumes the search at depth
   * (the frames below it) with the replayed state; a frame on whose state
   * only the hard list replays adds its conflict to the list, and the
   * boosting director jumps back once the list reaches its size bound; a
   * frame on which the list does not replay is dropped. When the last
   * frame is gone the list is replayed once more on its state.
   */
  function Collect<S, C(!new), O>(executor: Executor<S, C, O>, strategy: Strategy, stack: seq<(S, C)>, hard: seq<C>)
    : (e: Exit<S, C>)
    ensures |hard| <= |e.hard| && e.hard[..|hard|] == hard
    ensures e.StackEmpty? ==> stack == [] && e.hard == hard
    ensures e.Resume? || e.JumpBack? ==> e.depth < |stack|
    ensures e.JumpBack? ==> strategy.Boosting? && |e.hard| == strategy.boostHardConflictSize
    decreases |stack|
  {
    if stack == [] then StackEmpty(hard)
    else
      var (st, c) := stack[|stack| - 1];
      var rest := stack[..|stack| - 1];
      var first := ReplayOutcome(executor, st, hard, 0, 0);
      var resumed := if first.Some? then ReplayOutcome(executor, first.value, [c], 0, 0) else None;
      if resumed.Some? then Resume(hard, |rest|, resumed.value)
      else
        var grown := if first.Some? then hard + [c] else hard;
        if first.Some? && strategy.Boosting? && |grown| == strategy.boostHardConflictSize then JumpBack(grown, |rest|)
        else if rest == [] then Exhausted(grown, ReplayOutcome(executor, st, grown, 0, 0))
        else Collect(executor, strategy, rest, grown)
  }

  /** Popping a frame on which the hard list and then the frame's conflict replay resumes there. */
  lemma PopResumes<S, C(!new), O>(executor: Executor<S, C, O>, strategy: Strategy, stack: seq<(S, C)>, hard: seq<C>,
                            mid: S, end: S)
    requires stack != []
    requires ReplayOutcome(executor, stack[|stack| - 1].0, hard, 0, 0) == Some(mid)
    requires ReplayOutcome(executor, mid, [stack[|stack| - 1].1], 0, 0) == Some(end)
    ensures Collect(executor, strategy, stack, hard) == Resume(hard, |stack| - 1, end)
  {
  }

  /** Popping a frame on which only the hard list replays, with the list at the boosting bound, jumps back. */
  lemma PopJumps<S, C(!new), O>(executor: Executor<S, C, O>, strategy: Strategy, stack: seq<(S, C)>, hard: seq<C>, mid: S)
    requires stack != []
    requires ReplayOutcome(executor, stack[|stack| - 1].0, hard, 0, 0) == Some(mid)
    requires ReplayOutcome(executor, mid, [stack[|stack| - 1].1], 0, 0).None?
    requires strategy.Boosting? && |hard| + 1 == strategy.boostHardConflictSize
    ensures Collect(executor, strategy, stack, hard) == JumpBack(hard + [stack[|stack| - 1].1], |stack| - 1)
  {
  }

  /**
   * Popping a frame that does not resume there nor jump back: the hard
   * list grows by the frame's conflict when it replayed, and either the
   * last frame is gone and the grown list is replayed once more on its
   * state, or the backtrack goes on below.
   */
  lemma PopGoesOn<S, C(!new), O>(executor: Executor<S, C, O>, strategy: Strategy, stack: seq<(S, C)>, hard: seq<C>,
                           grown: seq<C>)
    requires stack != []
    requires var first := ReplayOutcome(executor, stack[|stack| - 1].0, hard, 0, 0);
      && (first.Some? ==> ReplayOutcome(executor, first.value, [stack[|stack| - 1].1], 0, 0).None?)
      && grown == (if first.Some? then hard + [stack[|stack| - 1].1] else hard)
      && !(first.Some? && strategy.Boosting? && |grown| == strategy.boostHardConflictSize)
    ensures |stack| == 1 ==>
      Collect(executor, strategy, stack, hard) == Exhausted(grown, ReplayOutcome(executor, stack[0].0, grown, 0, 0))
    ensures |stack| > 1 ==>
      Collect(executor, strategy, stack, hard) == Collect(executor, strategy, stack[..|stack| - 1], grown)
  {
  }

  class Director<S, C(!new), O> {
    const executor: Executor<S, C, O>
    const strategy: Strategy
    var decisions: seq<Decision<S, C, O>>
    var steps: nat
    // the priority-conflict director's state
    var priorityConflicts: seq<C>
    var backtracklength: nat
    // the boosting director's state; `boosted` lists the conflicts handed to the booster, in order
    var boosted: seq<C>
    var lastBoost: nat
    var lastjump: nat
    var jumplength: int

    constructor (executor: Executor<S, C, O>, strategy: Strategy)
      ensures this.executor == executor && this.strategy == strategy
      ensures decisions == [] && steps == 0
      ensures priorityConflicts == [] && backtracklength == 0
      ensures boosted == [] && lastBoost == 0 && lastjump == 0 && jumplength == 10
      ensures Valid()
    {
      this.executor := executor;
      this.strategy := strategy;
      decisions := [];
      steps := 0;
      priorityConflicts := [];
      backtracklength := 0;
      boosted := [];
      lastBoost := 0;
      lastjump := 0;
      jumplength := 10;
    }

    /** The priority list never holds more than its maximum size. */
    ghost predicate Valid()
      reads this
    {
      strategy.PriorityConflicts? ==> |priorityConflicts| <= Max(strategy.maxPriorityListSize, 0)
    }

    predicate Solved(state: S)
    {
      executor.worstConflict(state).None?
    }

    function Top(): Decision<S, C, O>
      requires decisions != []
      reads this
    {
      decisions[|decisions| - 1]
    }

    /** The stack is grounded in the origin (see GroundedStack). */
    ghost predicate Grounded(origin: Option<S>)
      reads this
    {
      GroundedStack(executor, origin, decisions)
    }

    /**
     * Searches from the initial state: a state without conflicts is
     * returned as it is; otherwise the result is a solution, the state of
     * the sentinel a hard-collecting backtrack left on top, or None when
     * the stack ran empty.
     */
    method Work(initialState: S, fuel: nat) returns (result: Outcome<Option<S>>)
      requires Valid() && Live(decisions)
      modifies this, decisions
      ensures Valid()
      ensures Solved(initialState) ==> result == Returned(Some(initialState))
      ensures result == Returned(None) ==> decisions == []
      ensures result.Returned? && result.value.Some? ==>
        || Solved(result.value.value)
        || (decisions != [] && Top().conflict.None? && Top().state == result.value.value)
      ensures result.Returned? && result.value.Some? && (strategy.Plain? || strategy.PriorityConflicts?) ==>
        Solved(result.value.value)
      ensures old(decisions) == [] && result.Returned? && result.value.Some? ==>
        Reaches(executor, initialState, result.value.value)
    {
      var initialConflict := executor.worstConflict(initialState);
      if initialConflict.None? {
        return Returned(Some(initialState));
      }
      ghost var origin := if decisions == [] then Some(initialState) else None;
      ReachesItself(executor, initialState);
      assert Grounded(origin);
      ProcessConflict(initialState, initialConflict.value, origin);
      var left := fuel;
      while true
        invariant Valid() && decisions != [] && Live(decisions)
        invariant Grounded(origin) && origin == (if old(decisions) == [] then Some(initialState) else None)
        invariant forall d :: d in decisions ==> d in old(decisions) || fresh(d)
        decreases left
      {
        if left == 0 {
          return OutOfFuel;
        }
        left := left - 1;
        assert Top() in decisions;
        var stop := Step(origin);
        if stop.Some? {
          return stop.value;
        }
      }
    }

    /**
     * Where a round of the search loop leaves it: None goes on with a live
     * stack; a returned state is reached from the origin and is solved, or
     * is the state of a sentinel on top (never for the plain and priority
     * strategies); None returned means the stack ran empty.
     */
    ghost predicate StepEnds(stop: Option<Outcome<Option<S>>>, origin: Option<S>)
      reads this
    {
      && Valid() && Grounded(origin)
      && (stop.None? ==> decisions != [] && Live(decisions))
      && stop != Some(OutOfFuel)
      && (stop == Some(Returned(None)) ==> decisions == [])
      && (stop.Some? && stop.value.Returned? && stop.value.value.Some? ==>
            var found := stop.value.value.value;
            && From(executor, origin, found)
            && (|| Solved(found)
                || (decisions != [] && Top().conflict.None? && Top().state == found))
            && (strategy.Plain? || strategy.PriorityConflicts? ==> Solved(found)))
    }

    /**
     * One round of the search loop: applies the top decision's next
     * option and goes on from the state it reaches, or backtracks when no
     * option is left.
     */
    method Step(ghost origin: Option<S>) returns (stop: Option<Outcome<Option<S>>>)
      requires Valid() && decisions != [] && Live(decisions) && Grounded(origin)
      modifies this, Top()
      ensures forall d :: d in decisions ==> d in old(decisions) || fresh(d)
      ensures StepEnds(stop, origin)
    {
      steps := steps + 1;
      var newState := ApplyTop(origin);
      if newState.Some? {
        stop := Advance(newState.value, origin);
      } else {
        stop := Retreat(origin);
      }
    }

    /**
     * Goes on from a state an option reached: returns it when no conflict
     * is left, otherwise pushes a decision for the next conflict.
     */
    method Advance(state: S, ghost origin: Option<S>) returns (stop: Option<Outcome<Option<S>>>)
      requires Valid() && Live(decisions) && Grounded(origin) && From(executor, origin, state)
      modifies this`priorityConflicts, this`backtracklength, this`decisions
      ensures forall d :: d in decisions ==> d in old(decisions) || fresh(d)
      ensures StepEnds(stop, origin)
    {
      var conflict := ChooseNextConflict(state);
      if conflict.None? {
        return Some(Returned(Some(state)));
      }
      ProcessConflict(state, conflict.value, origin);
      return None;
    }

    /**
     * Backs out of a dead end: the search stops when the backtrack throws,
     * when the stack runs empty or at a sentinel left on top.
     */
    method Retreat(ghost origin: Option<S>) returns (stop: Option<Outcome<Option<S>>>)
      requires Valid() && decisions != [] && Live(decisions) && Grounded(origin)
      modifies this
      ensures forall d :: d in decisions ==> d in old(decisions) || fresh(d)
      ensures StepEnds(stop, origin)
    {
      var thrown := Backtrack(origin);
      if thrown {
        return Some(Thrown);
      }
      if decisions == [] {
        return Some(Returned(None));
      }
      if Top().conflict.None? {
        GroundedBelow(executor, origin, decisions);
        return Some(Returned(Some(Top().state)));
      }
      return None;
    }

    /** Tries the top decision's remaining options in order until one applies. */
    method ApplyTop(ghost origin: Option<S>) returns (newState: Option<S>)
      requires decisions != [] && Top().conflict.Some? && Grounded(origin)
      modifies Top()
      ensures (newState, Top().next) == FirstApplied(executor, Top().state, Top().options, old(Top().next))
      ensures newState.Some? ==> From(executor, origin, newState.value)
    {
      var decision := Top();
      newState := None;
      while decision.next < |decision.options|
        invariant newState.None?
        invariant FirstApplied(executor, decision.state, decision.options, old(decision.next))
          == FirstApplied(executor, decision.state, decision.options, decision.next)
        decreases |decision.options| - decision.next
      {
        var option := decision.NextOption();
        newState := executor.apply(decision.state, option);
        if newState.Some? {
          break;
        }
      }
      if newState.Some? {
        GroundedApplied(executor, origin, decisions, old(decision.next), newState.value);
      }
    }

    /** The conflict to resolve next for a state the search reached. */
    method ChooseNextConflict(state: S) returns (conflict: Option<C>)
      modifies this`priorityConflicts, this`backtracklength
      ensures !strategy.PriorityConflicts? ==>
        conflict == executor.worstConflict(state)
        && priorityConflicts == old(priorityConflicts) && backtracklength == old(backtracklength)
      ensures strategy.PriorityConflicts? ==> backtracklength == 0
      ensures strategy.PriorityConflicts? && old(priorityConflicts) == [] ==>
        conflict == executor.worstConflict(state) && priorityConflicts == []
      ensures strategy.PriorityConflicts? && old(priorityConflicts) != [] ==>
        conflict == Some(old(priorityConflicts)[0]) && priorityConflicts == old(priorityConflicts)[1..]
    {
      if !strategy.PriorityConflicts? {
        return executor.worstConflict(state);
      }
      backtracklength := 0;
      if priorityConflicts == [] {
        conflict := executor.worstConflict(state);
      } else {
        conflict := Some(priorityConflicts[0]);
        priorityConflicts := priorityConflicts[1..];
      }
    }

    /** Pushes a fresh decision for the conflict of a new state. */
    method ProcessConflict(state: S, conflict: C, ghost origin: Option<S>)
      requires Grounded(origin) && From(executor, origin, state)
      modifies this`decisions
      ensures Grounded(origin) && (Live(old(decisions)) ==> Live(decisions))
      ensures |decisions| == |old(decisions)| + 1 && decisions[..|old(decisions)|] == old(decisions)
      ensures fresh(Top()) && Top().next == 0
      ensures forall d :: d in decisions ==> d in old(decisions) || fresh(d)
      ensures Top().state == state && Top().conflict == Some(conflict)
      ensures Top().options == executor.getOptions(state, conflict)
    {
      var decision := new Decision(state, Some(conflict), executor.getOptions(state, conflict));
      GroundedPush(executor, origin, decisions, decision);
      decisions := decisions + [decision];
    }

    /** Backs out of a dead end at the top decision, as the strategy prescribes. */
    method Backtrack(ghost origin: Option<S>) returns (thrown: bool)
      requires Valid() && Live(decisions) && decisions != [] && Grounded(origin)
      modifies this
      ensures Grounded(origin)
      ensures Valid()
      ensures forall d :: d in decisions ==> d in old(decisions) || fresh(d)
      ensures Live(decisions) || (decisions != [] && Top().conflict.None?)
      ensures strategy.Plain? || strategy.PriorityConflicts? ==>
        !thrown && decisions == old(decisions)[..|old(decisions)| - 1]
      ensures strategy.HardCollecting? || strategy.Boosting? ==>
        LeftAs(ExitOf(old(decisions)), old(decisions), old(boosted), thrown)
    {
      match strategy
      case Plain =>
        decisions := decisions[..|decisions| - 1];
        thrown := false;
      case PriorityConflicts(_) =>
        PriorityBacktrack();
        thrown := false;
      case HardCollecting =>
        ghost var hard;
        thrown, hard := CollectingBacktrack(origin);
      case Boosting(_) =>
        ghost var hard;
        thrown, hard := CollectingBacktrack(origin);
    }

    /**
     * Inserts the dead end's conflict into the priority list at
     * min(backtracklength, size), drops the list's last entry when it
     * overflows, counts the backtrack and pops the dead end.
     */
    method PriorityBacktrack()
      requires strategy.PriorityConflicts? && Valid() && Live(decisions) && decisions != []
      modifies this`priorityConflicts, this`backtracklength, this`decisions
      ensures Valid() && Live(decisions)
      ensures var at := Min(old(backtracklength), |old(priorityConflicts)|);
        var grown := old(priorityConflicts)[..at] + [old(Top()).conflict.value] + old(priorityConflicts)[at..];
        priorityConflicts == if |grown| > strategy.maxPriorityListSize then grown[..|grown| - 1] else grown
      ensures backtracklength == old(backtracklength) + 1
      ensures decisions == old(decisions)[..|old(decisions)| - 1]
    {
      var conflict := Top().conflict.value;
      var at := Min(backtracklength, |priorityConflicts|);
      priorityConflicts := priorityConflicts[..at] + [conflict] + priorityConflicts[at..];
      if |priorityConflicts| > strategy.maxPriorityListSize {
        priorityConflicts := priorityConflicts[..|priorityConflicts| - 1];
      }
      backtracklength := backtracklength + 1;
      decisions := decisions[..|decisions| - 1];
    }

    /**
     * Replays the conflicts hard[start..] from `state`: for each conflict
     * the first option (in list order) whose replay of the rest succeeds
     * is kept, with its decision pushed.
     */
    method TryApply(state: S, hard: seq<C>, start: nat, ghost origin: Option<S>) returns (result: Option<S>)
      requires start <= |hard|
      requires Grounded(origin) && From(executor, origin, state)
      modifies this`decisions
      ensures Grounded(origin) && (result.Some? ==> From(executor, origin, result.value))
      ensures result == ReplayOutcome(executor, state, hard, start, 0)
      ensures start == |hard| ==> decisions == old(decisions)
      ensures result.None? ==> decisions == old(decisions)
      ensures result.Some? ==> Replayed(old(decisions), decisions, hard[start..])
      ensures result.Some? ==> Chain(executor, decisions[|old(decisions)|..], state, result.value)
      ensures forall d :: d in decisions ==> d in old(decisions) || fresh(d)
      decreases |hard| - start, 1
    {
      if start == |hard| {
        return Some(state);
      }
      var conflict := hard[start];
      var decision := new Decision(state, Some(conflict), executor.getOptions(state, conflict));
      while decision.HasNextOption()
        invariant decisions == old(decisions)
        invariant decision.next <= |decision.options|
        invariant ReplayOutcome(executor, state, hard, start, 0) == ReplayOutcome(executor, state, hard, start, decision.next)
        decreases |decision.options| - decision.next
      {
        var option := decision.NextOption();
        var newState := executor.apply(state, option);
        if newState.Some? {
          result := TryOption(decision, newState.value, hard, start, origin);
          if result.Some? {
            return;
          }
        }
      }
      return None;
    }

    /**
     * Keeps the option the decision just handed out when the rest of the
     * conflicts replay from the state it reached: pushes the decision and
     * replays hard[start + 1..], popping it again when that fails.
     */
    method TryOption(decision: Decision<S, C, O>, newState: S, hard: seq<C>, start: nat, ghost origin: Option<S>)
      returns (result: Option<S>)
      requires start < |hard| && decision.conflict == Some(hard[start])
      requires decision.options == executor.getOptions(decision.state, hard[start])
      requires 0 < decision.next <= |decision.options|
      requires executor.apply(decision.state, decision.options[decision.next - 1]) == Some(newState)
      requires Grounded(origin) && From(executor, origin, decision.state)
      modifies this`decisions
      ensures Grounded(origin) && (result.Some? ==> From(executor, origin, result.value))
      ensures result == ReplayOutcome(executor, newState, hard, start + 1, 0)
      ensures result.None? ==> decisions == old(decisions)
      ensures result.Some? ==> Replayed(old(decisions), decisions, hard[start..])
      ensures result.Some? ==> Chain(executor, decisions[|old(decisions)|..], decision.state, result.value)
      ensures forall d :: d in decisions ==> d in old(decisions) || fresh(d) || d == decision
      decreases |hard| - start, 0
    {
      FromStep(executor, origin, decision.state, hard[start], decision.next - 1, newState);
      GroundedPush(executor, origin, decisions, decision);
      decisions := decisions + [decision];
      result := TryApply(newState, hard, start + 1, origin);
      if result.Some? {
        Pushed(executor, old(decisions), decision, decisions, hard, start, newState, result.value);
        return;
      }
      decisions := decisions[..|decisions| - 1];
    }

    /**
     * How a collecting backtrack that started from the stack `before` (the
     * dead end on top) and the boost list `boostedBefore` left the search,
     * given its exit e.
     */
    ghost predicate LeftAs(e: Exit<S, C>, before: seq<Decision<S, C, O>>, boostedBefore: seq<C>, thrown: bool)
      reads this, decisions
    {
      && (e.StackEmpty? ==> thrown && decisions == [])
      && (e.Exhausted? ==>
            && !thrown
            && (e.final.None? ==> decisions == [])
            && (e.final.Some? ==>
                  && |decisions| == |e.hard| + 1 && Replayed([], decisions[..|e.hard|], e.hard)
                  && Top().conflict.None? && Top().state == e.final.value))
      && (e.Resume? ==>
            && e.depth < |before| && before[e.depth].conflict.Some?
            && var n := e.depth + |e.hard| + 1;
            && n <= |decisions|
            && Replayed(before[..e.depth], decisions[..n], e.hard + [before[e.depth].conflict.value])
            && (thrown <==> Solved(e.state))
            && (thrown ==> |decisions| == n)
            && (!thrown ==>
                  && |decisions| == n + 1 && Top().state == e.state && Top().next == 0
                  && Top().conflict == executor.worstConflict(e.state)
                  && Top().options == executor.getOptions(e.state, executor.worstConflict(e.state).value)))
      && (e.JumpBack? ==>
            && e.depth < |before|
            && (thrown <==> e.depth == 0 || Solved(before[0].state))
            && (thrown ==> decisions == [])
            && (!thrown ==>
                  && |decisions| == 1 && decisions[0].state == before[0].state && decisions[0].next == 0
                  && decisions[0].conflict == executor.worstConflict(before[0].state)
                  && decisions[0].options == executor.getOptions(before[0].state,
                                                                  executor.worstConflict(before[0].state).value)))
      && boosted == if strategy.Boosting? && (e.Resume? || e.JumpBack?) then boostedBefore + e.hard else boostedBefore
    }

    /** The exit when the stack below the dead end is empty. */
    lemma LeftEmpty(e: Exit<S, C>, before: seq<Decision<S, C, O>>, boostedBefore: seq<C>)
      requires e.StackEmpty? && decisions == [] && boosted == boostedBefore
      ensures LeftAs(e, before, boostedBefore, true)
      ensures Live(decisions)
    {
    }

    /** The exit once every frame is popped: the final replay's outcome. */
    lemma LeftExhausted(e: Exit<S, C>, before: seq<Decision<S, C, O>>, boostedBefore: seq<C>)
      requires e.Exhausted? && boosted == boostedBefore
      requires e.final.None? ==> decisions == []
      requires e.final.Some? ==>
                 && |decisions| == |e.hard| + 1 && Replayed([], decisions[..|e.hard|], e.hard)
                 && Top().conflict.None? && Top().state == e.final.value
      ensures LeftAs(e, before, boostedBefore, false)
      ensures Live(decisions) || (decisions != [] && Top().conflict.None?)
    {
    }

    /** The exit at a frame where the hard list and the frame's conflict replay: ds is the replayed stack. */
    lemma LeftResumed(e: Exit<S, C>, before: seq<Decision<S, C, O>>, boostedBefore: seq<C>, thrown: bool,
                      ds: seq<Decision<S, C, O>>)
      requires e.Resume? && e.depth < |before| && before[e.depth].conflict.Some?
      requires Replayed(before[..e.depth], ds, e.hard + [before[e.depth].conflict.value]) && Live(ds)
      requires boosted == if strategy.Boosting? then boostedBefore + e.hard else boostedBefore
      requires thrown <==> Solved(e.state)
      requires thrown ==> decisions == ds
      requires !thrown ==>
                 && |decisions| == |ds| + 1 && decisions[..|ds|] == ds
                 && Top().state == e.state && Top().next == 0
                 && Top().conflict == executor.worstConflict(e.state)
                 && Top().options == executor.getOptions(e.state, executor.worstConflict(e.state).value)
      ensures LeftAs(e, before, boostedBefore, thrown)
      ensures Live(decisions) || (decisions != [] && Top().conflict.None?)
    {
      var n := e.depth + |e.hard| + 1;
      assert |ds| == n;
      assert decisions[..n] == ds;
    }

    /** The exit at the boosting director's size bound: the jump from the stack below the frame. */
    lemma LeftJumped(e: Exit<S, C>, before: seq<Decision<S, C, O>>, boostedBefore: seq<C>, thrown: bool,
                     below: seq<Decision<S, C, O>>)
      requires e.JumpBack? && strategy.Boosting? && e.depth < |before| && below == before[..e.depth]
      requires boosted == boostedBefore + e.hard
      requires thrown <==> below == [] || Solved(below[0].state)
      requires thrown ==> decisions == []
      requires !thrown ==>
                 var bottom := below[0].state;
                 && |decisions| == 1 && decisions[0].next == 0
                 && decisions[0].state == bottom && decisions[0].conflict == executor.worstConflict(bottom)
                 && decisions[0].options == executor.getOptions(bottom, executor.worstConflict(bottom).value)
      ensures LeftAs(e, before, boostedBefore, thrown)
      ensures Live(decisions) || (decisions != [] && Top().conflict.None?)
    {
    }

    /** The exit of the collecting backtrack from the stack ds, with the dead end on top. */
    ghost function ExitOf(ds: seq<Decision<S, C, O>>): Exit<S, C>
      requires Live(ds) && ds != []
    {
      Collect(executor, strategy, Frames(ds[..|ds| - 1]), [ds[|ds| - 1].conflict.value])
    }

    /**
     * The hard-collecting backtrack, shared by the boosting director. The
     * dead end's conflict starts the hard list; frames are popped one by
     * one. Where the hard list replays on a frame's state and the frame's
     * own conflict then resolves too, the search resumes there with a
     * fresh decision. Where only the hard list replays, the replayed
     * decisions are popped again and the frame's conflict joins the hard
     * list. Once the stack is empty the hard list is replayed on the last
     * frame's state, and a sentinel decision without a conflict marks a
     * success. The boosting director boosts the hard list on every
     * resumption, and boosts it and jumps once it reaches its size bound.
     * Which of these happens, and the hard list collected, is Collect's
     * exit for the stack.
     */
    method CollectingBacktrack(ghost origin: Option<S>) returns (thrown: bool, ghost hard: seq<C>)
      requires (strategy.HardCollecting? || strategy.Boosting?) && Live(decisions) && decisions != []
      requires Grounded(origin)
      modifies this`decisions, this`boosted, this`lastBoost, this`lastjump, this`jumplength
      ensures Grounded(origin)
      ensures forall d :: d in decisions ==> d in old(decisions) || fresh(d)
      ensures Live(decisions) || (decisions != [] && Top().conflict.None?)
      ensures hard == ExitOf(old(decisions)).hard && hard[0] == old(Top()).conflict.value
      ensures LeftAs(ExitOf(old(decisions)), old(decisions), old(boosted), thrown)
    {
      var dead := Top();
      GroundedBelow(executor, origin, decisions);
      decisions := decisions[..|decisions| - 1];
      var collected := [dead.conflict.value];
      ghost var e := ExitOf(old(decisions));
      while true
        invariant |decisions| < |old(decisions)| && decisions == old(decisions)[..|decisions|]
        invariant Live(decisions) && boosted == old(boosted) && Grounded(origin)
        invariant Collect(executor, strategy, Frames(decisions), collected) == e
        invariant forall d :: d in decisions ==> d in old(decisions) || fresh(d)
        decreases |decisions|
      {
        if decisions == [] {
          // the source pops an empty stack here
          hard := collected;
          LeftEmpty(e, old(decisions), old(boosted));
          return true, hard;
        }
        var done;
        done, thrown, collected := CollectFrame(collected, e, old(decisions), old(boosted), origin);
        if done {
          hard := collected;
          return;
        }
      }
    }

    /**
     * Where a pass of the collecting loop leaves the search: when done, as
     * the exit e says; otherwise with a shorter prefix of `before` below
     * `bound` and the frames left collecting to the same exit with the
     * grown hard list.
     */
    ghost predicate PassEnds(done: bool, thrown: bool, grown: seq<C>, e: Exit<S, C>, before: seq<Decision<S, C, O>>,
                             boostedBefore: seq<C>, origin: Option<S>, bound: nat)
      reads this, decisions
    {
      && Grounded(origin)
      && (done ==>
            && grown == e.hard && LeftAs(e, before, boostedBefore, thrown)
            && (Live(decisions) || (decisions != [] && Top().conflict.None?)))
      && (!done ==>
            && |decisions| < bound <= |before| && decisions == before[..|decisions|]
            && Live(decisions) && boosted == boostedBefore
            && Collect(executor, strategy, Frames(decisions), grown) == e)
    }

    /**
     * One pass of the collecting backtrack's loop: pops the top frame and
     * replays the hard list on it. It is done when the search resumes
     * there, jumps back or runs out of frames, leaving the search as the
     * exit e says; otherwise the loop goes on with the grown hard list.
     */
    method CollectFrame(collected: seq<C>, ghost e: Exit<S, C>, ghost before: seq<Decision<S, C, O>>,
                        ghost boostedBefore: seq<C>, ghost origin: Option<S>) returns (done: bool, thrown: bool, grown: seq<C>)
      requires Grounded(origin)
      requires strategy.HardCollecting? || strategy.Boosting?
      requires Live(decisions) && decisions != []
      requires |decisions| < |before| && decisions == before[..|decisions|]
      requires Collect(executor, strategy, Frames(decisions), collected) == e
      requires boosted == boostedBefore
      modifies this`decisions, this`boosted, this`lastBoost, this`lastjump, this`jumplength
      ensures forall d :: d in decisions ==> d in old(decisions) || fresh(d)
      ensures PassEnds(done, thrown, grown, e, before, boostedBefore, origin, |old(decisions)|)
    {
      ghost var frames := Frames(decisions);
      var last := PopFrame(origin);
      assert decisions == before[..|decisions|];
      assert frames[|frames| - 1] == (last.state, last.conflict.value);
      done, thrown, grown := Settle(last, collected, frames, e, before, boostedBefore, origin);
    }

    /** The pass after the pop: replays the hard list on the popped frame and takes the exit that follows. */
    method Settle(last: Decision<S, C, O>, collected: seq<C>, ghost frames: seq<(S, C)>, ghost e: Exit<S, C>,
                  ghost before: seq<Decision<S, C, O>>, ghost boostedBefore: seq<C>, ghost origin: Option<S>)
      returns (done: bool, thrown: bool, grown: seq<C>)
      requires strategy.HardCollecting? || strategy.Boosting?
      requires Grounded(origin) && Live(decisions) && From(executor, origin, last.state) && last.conflict.Some?
      requires frames != [] && frames[|frames| - 1] == (last.state, last.conflict.value)
      requires Frames(decisions) == frames[..|frames| - 1]
      requires |decisions| < |before| && decisions == before[..|decisions|] && before[|decisions|] == last
      requires Collect(executor, strategy, frames, collected) == e && boosted == boostedBefore
      modifies this`decisions, this`boosted, this`lastBoost, this`lastjump, this`jumplength
      ensures forall d :: d in decisions ==> d in old(decisions) || fresh(d)
      ensures PassEnds(done, thrown, grown, e, before, boostedBefore, origin, |old(decisions)| + 1)
    {
      ghost var below := decisions;
      var replayed, resumed := ReplayFrame(last, collected, origin);
      grown := collected;
      if resumed.Some? {
        thrown := ResumeFrame(last, collected, resumed.value, frames, e, before, boostedBefore, origin);
        return true, thrown, grown;
      }
      done, thrown, grown := NoResume(last, collected, replayed, frames, e, before, boostedBefore, origin, |below| + 1);
    }

    /** The pass's resume exit: the popped frame replayed the hard list and then its own conflict. */
    method ResumeFrame(last: Decision<S, C, O>, collected: seq<C>, state: S, ghost frames: seq<(S, C)>,
                       ghost e: Exit<S, C>, ghost before: seq<Decision<S, C, O>>, ghost boostedBefore: seq<C>,
                       ghost origin: Option<S>) returns (thrown: bool)
      requires strategy.HardCollecting? || strategy.Boosting?
      requires Grounded(origin) && From(executor, origin, state) && last.conflict.Some?
      requires frames != [] && frames[|frames| - 1] == (last.state, last.conflict.value)
      requires |frames| <= |before| && before[|frames| - 1] == last
      requires Collect(executor, strategy, frames, collected) == e && boosted == boostedBefore
      requires ReplayOutcome(executor, last.state, collected, 0, 0).Some?
      requires ReplayOutcome(executor, ReplayOutcome(executor, last.state, collected, 0, 0).value, [last.conflict.value], 0, 0)
        == Some(state)
      requires Replayed(before[..|frames| - 1], decisions, collected + [last.conflict.value]) && Live(decisions)
      modifies this`decisions, this`boosted, this`lastBoost
      ensures forall d :: d in decisions ==> d in old(decisions) || fresh(d)
      ensures PassEnds(true, thrown, collected, e, before, boostedBefore, origin, 0)
    {
      PopResumes(executor, strategy, frames, collected, ReplayOutcome(executor, last.state, collected, 0, 0).value, state);
      thrown := ResumeAt(collected, state, e, before, boostedBefore, origin);
    }

    /**
     * The rest of a pass when the popped frame did not resume: a replayed
     * hard list grows by the frame's conflict and may jump back; otherwise
     * the loop goes on, or the final replay runs once no frame is left.
     */
    method NoResume(last: Decision<S, C, O>, collected: seq<C>, replayed: bool, ghost frames: seq<(S, C)>,
                    ghost e: Exit<S, C>, ghost before: seq<Decision<S, C, O>>, ghost boostedBefore: seq<C>,
                    ghost origin: Option<S>, ghost bound: nat) returns (done: bool, thrown: bool, grown: seq<C>)
      requires strategy.HardCollecting? || strategy.Boosting?
      requires Grounded(origin) && Live(decisions) && From(executor, origin, last.state) && last.conflict.Some?
      requires frames != [] && frames[|frames| - 1] == (last.state, last.conflict.value)
      requires Frames(decisions) == frames[..|frames| - 1]
      requires |decisions| < bound <= |before| && decisions == before[..|decisions|]
      requires Collect(executor, strategy, frames, collected) == e && boosted == boostedBefore
      requires replayed <==> ReplayOutcome(executor, last.state, collected, 0, 0).Some?
      requires replayed ==>
        ReplayOutcome(executor, ReplayOutcome(executor, last.state, collected, 0, 0).value, [last.conflict.value], 0, 0).None?
      modifies this`decisions, this`boosted, this`lastBoost, this`lastjump, this`jumplength
      ensures forall d :: d in decisions ==> d in old(decisions) || fresh(d)
      ensures PassEnds(done, thrown, grown, e, before, boostedBefore, origin, bound)
    {
      grown := collected;
      if replayed {
        grown := collected + [last.conflict.value];
        if strategy.Boosting? && |grown| == strategy.boostHardConflictSize {
          PopJumps(executor, strategy, frames, collected, ReplayOutcome(executor, last.state, collected, 0, 0).value);
          thrown := JumpAt(grown, e, before, boostedBefore, origin);
          return true, thrown, grown;
        }
      }
      PopGoesOn(executor, strategy, frames, collected, grown);
      if decisions == [] {
        ExhaustAt(last.state, grown, e, before, boostedBefore, origin);
        return true, false, grown;
      }
      done, thrown := false, false;
    }

    /** Pops the top frame of a live stack; the frames below stay as they were. */
    method PopFrame(ghost origin: Option<S>) returns (last: Decision<S, C, O>)
      requires Live(decisions) && decisions != [] && Grounded(origin)
      modifies this`decisions
      ensures last == old(Top()) && decisions == old(decisions)[..|old(decisions)| - 1]
      ensures Live(decisions) && Grounded(origin) && From(executor, origin, last.state)
      ensures Frames(decisions) == Frames(old(decisions))[..|old(decisions)| - 1]
    {
      last := Top();
      GroundedBelow(executor, origin, decisions);
      decisions := decisions[..|decisions| - 1];
    }

    /** The exit once the stack is empty: the final replay of the hard list on the last frame's state. */
    method ExhaustAt(state: S, grown: seq<C>, ghost e: Exit<S, C>, ghost before: seq<Decision<S, C, O>>,
                     ghost boostedBefore: seq<C>, ghost origin: Option<S>)
      requires e == Exhausted(grown, ReplayOutcome(executor, state, grown, 0, 0))
      requires decisions == [] && boosted == boostedBefore && From(executor, origin, state)
      modifies this`decisions
      ensures Grounded(origin)
      ensures forall d :: d in decisions ==> fresh(d)
      ensures LeftAs(e, before, boostedBefore, false)
      ensures Live(decisions) || (decisions != [] && Top().conflict.None?)
    {
      FinalReplay(state, grown, origin);
      LeftExhausted(e, before, boostedBefore);
    }

    /** The resume exit: boosts the hard list (boosting director only) and resumes at the replayed state. */
    method ResumeAt(collected: seq<C>, state: S, ghost e: Exit<S, C>, ghost before: seq<Decision<S, C, O>>,
                    ghost boostedBefore: seq<C>, ghost origin: Option<S>) returns (thrown: bool)
      requires Grounded(origin) && From(executor, origin, state)
      requires e.Resume? && e.hard == collected && e.state == state
      requires e.depth < |before| && before[e.depth].conflict.Some?
      requires Replayed(before[..e.depth], decisions, collected + [before[e.depth].conflict.value]) && Live(decisions)
      requires boosted == boostedBefore
      modifies this`decisions, this`boosted, this`lastBoost
      ensures forall d :: d in decisions ==> d in old(decisions) || fresh(d)
      ensures PassEnds(true, thrown, collected, e, before, boostedBefore, origin, 0)
    {
      if strategy.Boosting? {
        Boost(collected);
      }
      ghost var replayedStack := decisions;
      thrown := ResumeWith(state, origin);
      LeftResumed(e, before, boostedBefore, thrown, replayedStack);
    }

    /** The boosting director's exit at its size bound: boosts the hard list and jumps back. */
    method JumpAt(grown: seq<C>, ghost e: Exit<S, C>, ghost before: seq<Decision<S, C, O>>,
                  ghost boostedBefore: seq<C>, ghost origin: Option<S>) returns (thrown: bool)
      requires Grounded(origin)
      requires strategy.Boosting? && e == JumpBack(grown, |decisions|)
      requires |decisions| < |before| && decisions == before[..|decisions|]
      requires boosted == boostedBefore
      modifies this`decisions, this`boosted, this`lastBoost, this`lastjump, this`jumplength
      ensures Grounded(origin)
      ensures forall d :: d in decisions ==> d in old(decisions) || fresh(d)
      ensures LeftAs(e, before, boostedBefore, thrown)
      ensures Live(decisions) || (decisions != [] && Top().conflict.None?)
    {
      Boost(grown);
      ghost var jumpedFrom := decisions;
      thrown := Jump(origin);
      LeftJumped(e, before, boostedBefore, thrown, jumpedFrom);
    }

    /** Resumes the search at a replayed state with a fresh decision for its worst conflict. */
    method ResumeWith(state: S, ghost origin: Option<S>) returns (thrown: bool)
      requires Grounded(origin) && From(executor, origin, state)
      modifies this`decisions
      ensures Grounded(origin)
      ensures thrown <==> Solved(state)
      ensures thrown ==> decisions == old(decisions)
      ensures !thrown ==>
        && |decisions| == |old(decisions)| + 1 && decisions[..|old(decisions)|] == old(decisions)
        && fresh(Top()) && Top().state == state && Top().next == 0
        && Top().conflict == executor.worstConflict(state)
        && Top().options == executor.getOptions(state, executor.worstConflict(state).value)
      ensures forall d :: d in decisions ==> d in old(decisions) || fresh(d)
    {
      var conflict := executor.worstConflict(state);
      if conflict.None? {
        // the source asks for the options of a null conflict
        return true;
      }
      ProcessConflict(state, conflict.value, origin);
      thrown := false;
    }

    /**
     * One frame of the collecting backtrack: replays the hard list on the
     * frame's state and then the frame's own conflict; a replay of the
     * hard list that the frame's conflict cannot follow is popped again.
     */
    method ReplayFrame(frame: Decision<S, C, O>, hard: seq<C>, ghost origin: Option<S>) returns (replayed: bool, resumed: Option<S>)
      requires frame.conflict.Some? && Live(decisions)
      requires Grounded(origin) && From(executor, origin, frame.state)
      modifies this`decisions
      ensures Live(decisions) && Grounded(origin)
      ensures resumed.Some? ==> From(executor, origin, resumed.value)
      ensures replayed <==> ReplayOutcome(executor, frame.state, hard, 0, 0).Some?
      ensures resumed == if replayed then ReplayOutcome(executor, ReplayOutcome(executor, frame.state, hard, 0, 0).value,
                                                        [frame.conflict.value], 0, 0) else None
      ensures resumed.Some? ==> Replayed(old(decisions), decisions, hard + [frame.conflict.value])
      ensures resumed.None? ==> decisions == old(decisions)
      ensures forall d :: d in decisions ==> d in old(decisions) || fresh(d)
    {
      var first := TryApply(frame.state, hard, 0, origin);
      replayed := first.Some?;
      resumed := None;
      if first.Some? {
        ghost var mid := decisions;
        resumed := TryApply(first.value, [frame.conflict.value], 0, origin);
        if resumed.None? {
          decisions := decisions[..|decisions| - |hard|];
          assert decisions == old(decisions);
        } else {
          ReplayedAppend(old(decisions), mid, decisions, hard, frame.conflict.value);
        }
      }
    }

    /**
     * With the stack empty, replays the hard list once more: exactly when
     * the replay succeeds, its decisions stay with a sentinel without a
     * conflict, holding the replayed state, on top; otherwise the stack
     * stays empty.
     */
    method FinalReplay(state: S, hard: seq<C>, ghost origin: Option<S>)
      requires decisions == [] && From(executor, origin, state)
      modifies this`decisions
      ensures Grounded(origin)
      ensures var final := ReplayOutcome(executor, state, hard, 0, 0);
        && (final.None? ==> decisions == [])
        && (final.Some? ==> |decisions| == |hard| + 1 && Replayed([], decisions[..|hard|], hard)
                            && Top().conflict.None? && Top().state == final.value)
      ensures forall d :: d in decisions ==> fresh(d)
    {
      var final := TryApply(state, hard, 0, origin);
      if final.Some? {
        var sentinel := new Decision(final.value, None, []);
        GroundedPush(executor, origin, decisions, sentinel);
        decisions := decisions + [sentinel];
      }
    }

    /** Hands each conflict to the booster and records the deepest stack seen at a boost. */
    method Boost(conflicts: seq<C>)
      modifies this`lastBoost, this`boosted
      ensures lastBoost == Max(old(lastBoost), |decisions|)
      ensures boosted == old(boosted) + conflicts
    {
      if |decisions| > lastBoost {
        lastBoost := |decisions|;
      }
      boosted := boosted + conflicts;
    }

    /**
     * Restarts the search from the bottom of the stack: pops every
     * decision and pushes a fresh one for the bottom state's worst
     * conflict.
     */
    method Jump(ghost origin: Option<S>) returns (thrown: bool)
      requires Grounded(origin)
      modifies this`decisions, this`lastjump, this`jumplength
      ensures Grounded(origin)
      ensures lastjump == |old(decisions)| && jumplength == |old(decisions)|
      ensures thrown <==> old(decisions) == [] || Solved(old(decisions)[0].state)
      ensures thrown ==> decisions == []
      ensures !thrown ==>
        var bottom := old(decisions)[0].state;
        && |decisions| == 1 && fresh(decisions[0]) && decisions[0].next == 0
        && decisions[0].state == bottom && decisions[0].conflict == executor.worstConflict(bottom)
        && decisions[0].options == executor.getOptions(bottom, executor.worstConflict(bottom).value)
    {
      if lastjump < |decisions| {
        jumplength := 10;
      } else {
        jumplength := jumplength * 2;
      }
      lastjump := |decisions|;
      jumplength := |decisions|;
      var last := PopFor(jumplength, origin);
      if last.None? {
        // the source dereferences a null decision
        return true;
      }
      var conflict := executor.worstConflict(last.value.state);
      if conflict.None? {
        // the source asks for the options of a null conflict
        return true;
      }
      ProcessConflict(last.value.state, conflict.value, origin);
      thrown := false;
    }

    /** Pops up to `count` decisions, stopping early on an empty stack; the last one popped is returned. */
    method PopFor(count: nat, ghost origin: Option<S>) returns (last: Option<Decision<S, C, O>>)
      requires Grounded(origin)
      modifies this`decisions
      ensures var popped := Min(count, |old(decisions)|);
        && decisions == old(decisions)[..|old(decisions)| - popped]
        && last == if popped == 0 then None else Some(old(decisions)[|old(decisions)| - popped])
      ensures Grounded(origin) && (last.Some? ==> From(executor, origin, last.value.state))
    {
      last := None;
      var i := 0;
      while i < count && decisions != []
        invariant 0 <= i <= Min(count, |old(decisions)|)
        invariant decisions == old(decisions)[..|old(decisions)| - i]
        invariant last == if i == 0 then None else Some(old(decisions)[|old(decisions)| - i])
        invariant Grounded(origin) && (last.Some? ==> From(executor, origin, last.value.state))
      {
        last := Some(Top());
        GroundedBelow(executor, origin, decisions);
        decisions := decisions[..|decisions| - 1];
        i := i + 1;
      }
    }
  }
}
