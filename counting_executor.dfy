/**
 * An executor that counts the calls made to it and passes them on to
 * another executor; every n-th request for options is reported, with
 * the three counts, to a callback (recorded here as the list of reports).
 */
module CountingExecutors {
  import opened Common
  import opened Directors

  /** The counts handed to the callback. */
  datatype Report = Report(worstConflictCalls: nat, optionsCalls: nat, applyCalls: nat)

  /** How many of the request counts 1..k are multiples of m. */
  function Multiples(k: nat, m: int): nat
    requires m != 0
  {
    if k == 0 then 0 else Multiples(k - 1, m) + (if k % m == 0 then 1 else 0)
  }

  class CountingExecutor<S, C(!new), O> {
    const delegate: Executor<S, C, O>
    const n: int
    var worstConflictCalls: nat
    var optionsCalls: nat
    var applyCalls: nat
    var reports: seq<Report>

    /** One report for each multiple of n the count of requests for options has reached, taken at that multiple. */
    ghost predicate Valid()
      reads this
    {
      && (n != 0 ==> |reports| == Multiples(optionsCalls, n))
      && (n != 0 ==> forall i :: 0 <= i < |reports| ==> reports[i].optionsCalls % n == 0)
    }

    constructor (delegate: Executor<S, C, O>, n: int)
      ensures Valid() && this.delegate == delegate && this.n == n
      ensures worstConflictCalls == 0 && optionsCalls == 0 && applyCalls == 0 && reports == []
    {
      this.delegate := delegate;
      this.n := n;
      worstConflictCalls := 0;
      optionsCalls := 0;
      applyCalls := 0;
      reports := [];
    }

    method GetWorstConflict(state: S) returns (conflict: Option<C>)
      requires Valid()
      modifies this
      ensures Valid() && conflict == delegate.worstConflict(state)
      ensures worstConflictCalls == old(worstConflictCalls) + 1
      ensures optionsCalls == old(optionsCalls) && applyCalls == old(applyCalls) && reports == old(reports)
    {
      worstConflictCalls := worstConflictCalls + 1;
      conflict := delegate.worstConflict(state);
    }

    /**
     * Counts the request and, when the count is a multiple of n, reports
     * the counts before passing the request on; a period of 0 makes the
     * modulus throw.
     */
    method GetOptions(state: S, conflict: C) returns (options: Outcome<seq<O>>)
      requires Valid()
      modifies this
      ensures Valid()
      ensures optionsCalls == old(optionsCalls) + 1
      ensures worstConflictCalls == old(worstConflictCalls) && applyCalls == old(applyCalls)
      ensures n == 0 ==> options == Thrown && reports == old(reports)
      ensures n != 0 ==> options == Returned(delegate.getOptions(state, conflict))
      ensures n != 0 ==>
        reports == old(reports) + (if optionsCalls % n == 0 then [Report(worstConflictCalls, optionsCalls, applyCalls)] else [])
    {
      optionsCalls := optionsCalls + 1;
      if n == 0 {
        return Thrown;
      }
      if optionsCalls % n == 0 {
        reports := reports + [Report(worstConflictCalls, optionsCalls, applyCalls)];
      }
      options := Returned(delegate.getOptions(state, conflict));
    }

    method Apply(state: S, option: O) returns (next: Option<S>)
      requires Valid()
      modifies this
      ensures Valid() && next == delegate.apply(state, option)
      ensures applyCalls == old(applyCalls) + 1
      ensures worstConflictCalls == old(worstConflictCalls) && optionsCalls == old(optionsCalls) && reports == old(reports)
    {
      applyCalls := applyCalls + 1;
      next := delegate.apply(state, option);
    }
  }
}
