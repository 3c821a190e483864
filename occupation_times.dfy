/**
 * The time window in which one flow of an intention may occupy a resource
 * (OccupationTimes.java).
 */
module Occupation {
  import opened Common

  /**
   * The fields in the order the Java constructor takes them: entryEarliest,
   * exitEarliest, entryLatest, exitLatest, weight.  Java equality compares
   * all five fields, which is the equality of this datatype.
   */
  datatype OccupationTimes = OccupationTimes(
    entryEarliest: int, exitEarliest: int, entryLatest: int, exitLatest: int, weight: real)
  {
    /** isRestrictedBy: the interval starts after the earliest entry or ends before the latest exit. */
    predicate IsRestrictedBy(interval: Interval)
    {
      interval.start > entryEarliest || interval.end < exitLatest
    }
  }

  /** An interval restricts a window exactly when it does not cover [entryEarliest, exitLatest]. */
  lemma RestrictedIffNotCovering(t: OccupationTimes, interval: Interval)
    ensures t.IsRestrictedBy(interval) <==>
      !(interval.start <= t.entryEarliest && t.exitLatest <= interval.end)
  {
  }

  /** Narrowing the interval keeps it restricting; widening it keeps it harmless. */
  lemma {:induction false} RestrictionMonotone(t: OccupationTimes, wide: Interval, narrow: Interval)
    requires wide.start <= narrow.start && narrow.end <= wide.end
    ensures t.IsRestrictedBy(wide) ==> t.IsRestrictedBy(narrow)
  {
  }
}
