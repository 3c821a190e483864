/**
 * The occupation checker of one resource (ResourceAllocator.java): a sorted
 * map from start time to occupied block, bracketed by two sentinel blocks,
 * into which a new block is entered only when it keeps the release time
 * from the block before it and from the block after it.
 */
module Allocation {
  import opened Common
  import opened TimeUtil

  /** A block [start, end] of occupied seconds; route and schedule only feed log messages. */
  datatype Block = Block(start: int, end: int)

  /** Every finite set of ints holding x has a largest element. */
  lemma {:induction false} LargestExists(s: set<int>, x: int)
    requires x in s
    ensures exists r :: r in s && forall j :: j in s ==> j <= r
    decreases |s|
  {
    if !forall y :: y in s ==> y <= x {
      var y :| y in s && x < y;
      LargestExists(s - {x}, y);
      var r :| r in s - {x} && forall j :: j in s - {x} ==> j <= r;
      forall j | j in s
        ensures j <= r
      {
        if j != x {
          assert j in s - {x};
        }
      }
    }
  }

  /** Every finite set of ints holding x has a smallest element. */
  lemma {:induction false} SmallestExists(s: set<int>, x: int)
    requires x in s
    ensures exists r :: r in s && forall j :: j in s ==> r <= j
    decreases |s|
  {
    if !forall y :: y in s ==> x <= y {
      var y :| y in s && y < x;
      SmallestExists(s - {x}, y);
      var r :| r in s - {x} && forall j :: j in s - {x} ==> r <= j;
      forall j | j in s
        ensures r <= j
      {
        if j != x {
          assert j in s - {x};
        }
      }
    }
  }

  /** TreeMap.floorKey: the largest key at or below x. */
  predicate IsFloor(m: map<int, Block>, x: int, k: int)
  {
    k in m && k <= x && forall j :: j in m && j <= x ==> j <= k
  }

  /** TreeMap.ceilingKey: the smallest key at or above x. */
  predicate IsCeiling(m: map<int, Block>, x: int, k: int)
  {
    k in m && x <= k && forall j :: j in m && x <= j ==> k <= j
  }

  lemma FloorExists(m: map<int, Block>, x: int)
    requires exists k :: k in m && k <= x
    ensures exists k :: IsFloor(m, x, k)
  {
    var below := set j | j in m && j <= x;
    var k0 :| k0 in m && k0 <= x;
    assert k0 in below;
    LargestExists(below, k0);
    var r :| r in below && forall j :: j in below ==> j <= r;
    forall j | j in m && j <= x
      ensures j <= r
    {
      assert j in below;
    }
    assert IsFloor(m, x, r);
  }

  lemma CeilingExists(m: map<int, Block>, x: int)
    requires exists k :: k in m && x <= k
    ensures exists k :: IsCeiling(m, x, k)
  {
    var above := set j | j in m && x <= j;
    var k0 :| k0 in m && x <= k0;
    assert k0 in above;
    SmallestExists(above, k0);
    var r :| r in above && forall j :: j in above ==> r <= j;
    forall j | j in m && x <= j
      ensures r <= j
    {
      assert j in above;
    }
    assert IsCeiling(m, x, r);
  }

  class ResourceAllocator {
    const releaseTime: int
    var occupations: map<int, Block>

    /**
     * Blocks are keyed by their start and lie in start order with at least
     * releaseTime seconds between the end of one and the start of the next;
     * both sentinels are present.
     */
    ghost predicate Valid()
      reads this
    {
      0 <= releaseTime <= IntMax - TMAX &&
      IntMin in occupations && TMAX + releaseTime in occupations &&
      (forall k :: k in occupations ==>
        occupations[k].start == k && k <= occupations[k].end <= IntMax) &&
      (forall a, b :: a in occupations && b in occupations && a < b ==>
        occupations[a].end + releaseTime <= b)
    }

    /** The two sentinels (Integer.MIN_VALUE, -releaseTime) and (TMAX + releaseTime, Integer.MAX_VALUE). */
    constructor (releaseTime: int)
      requires IsInt32(releaseTime)
      ensures this.releaseTime == releaseTime
      ensures occupations == map[IntMin := Block(IntMin, Wrap32(-releaseTime)),
                                 Wrap32(TMAX + releaseTime) := Block(Wrap32(TMAX + releaseTime), IntMax)]
      ensures 0 <= releaseTime <= IntMax - TMAX ==> Valid()
    {
      this.releaseTime := releaseTime;
      occupations := map[IntMin := Block(IntMin, Wrap32(-releaseTime)),
                         Wrap32(TMAX + releaseTime) := Block(Wrap32(TMAX + releaseTime), IntMax)];
    }

    /**
     * Whether [start, end] keeps the release gap from every block: blocks
     * starting at or before it must have ended releaseTime seconds before
     * start, blocks starting at or after it must start releaseTime seconds
     * after end.
     */
    ghost predicate Fits(start: int, end: int)
      reads this
    {
      forall k :: k in occupations ==>
        (k <= start ==> occupations[k].end + releaseTime <= start) &&
        (start <= k ==> end + releaseTime <= k)
    }

    /**
     * occupy: the floor block must end releaseTime before start and the new
     * block must end releaseTime before the ceiling block starts, sums taken
     * in Java int arithmetic.  On success the block is stored under its start.
     */
    method Occupy(start: int, end: int) returns (ok: bool)
      requires Valid() && IsInt32(start) && IsInt32(end)
      requires start <= TMAX + releaseTime
      modifies this
      ensures ok ==> occupations == old(occupations)[start := Block(start, end)]
      ensures !ok ==> occupations == old(occupations)
      ensures start <= end && end + releaseTime <= IntMax ==> (ok <==> old(Fits(start, end)))
      ensures start <= end && end + releaseTime <= IntMax ==> Valid()
    {
      assert IntMin in occupations && TMAX + releaseTime in occupations;
      FloorExists(occupations, start);
      CeilingExists(occupations, start);
      var floor :| IsFloor(occupations, start, floor);
      var ceil :| IsCeiling(occupations, start, ceil);
      if Wrap32(occupations[floor].end + releaseTime) > start {
        ok := false;
        if start <= end && end + releaseTime <= IntMax {
          FloorRejects(start, end, floor);
        }
        return;
      }
      if Wrap32(end + releaseTime) > occupations[ceil].start {
        ok := false;
        if start <= end && end + releaseTime <= IntMax {
          CeilingRejects(start, end, ceil);
        }
        return;
      }
      ghost var before := occupations;
      if start <= end && end + releaseTime <= IntMax {
        AcceptedFits(start, end, floor, ceil);
      }
      occupations := occupations[start := Block(start, end)];
      ok := true;
      if start <= end && end + releaseTime <= IntMax {
        AcceptedValid(before, start, end);
      }
    }

    /** A floor block that ends too late is a block the new one does not fit after. */
    lemma FloorRejects(start: int, end: int, floor: int)
      requires Valid() && IsInt32(start) && start <= TMAX + releaseTime
      requires IsFloor(occupations, start, floor)
      requires Wrap32(occupations[floor].end + releaseTime) > start
      requires start <= end && end + releaseTime <= IntMax
      ensures !Fits(start, end)
    {
      if occupations[floor].end + releaseTime <= IntMax {
        assert occupations[floor].end + releaseTime > start;
      } else {
        // only the last block can end that late; it starts at TMAX + releaseTime
        assert floor == TMAX + releaseTime;
        assert start == floor;
        assert end + releaseTime > floor;
      }
    }

    /** A ceiling block that starts too early is a block the new one does not fit before. */
    lemma CeilingRejects(start: int, end: int, ceil: int)
      requires Valid() && IsInt32(start) && IsInt32(end)
      requires IsCeiling(occupations, start, ceil)
      requires Wrap32(end + releaseTime) > occupations[ceil].start
      requires start <= end && end + releaseTime <= IntMax
      ensures !Fits(start, end)
    {
      assert end + releaseTime > ceil;
    }

    /** Passing both tests means the block fits among all blocks. */
    lemma AcceptedFits(start: int, end: int, floor: int, ceil: int)
      requires Valid() && IsInt32(start) && IsInt32(end) && start <= TMAX + releaseTime
      requires IsFloor(occupations, start, floor) && IsCeiling(occupations, start, ceil)
      requires Wrap32(occupations[floor].end + releaseTime) <= start
      requires Wrap32(end + releaseTime) <= occupations[ceil].start
      requires start <= end && end + releaseTime <= IntMax
      ensures Fits(start, end)
    {
      if floor < TMAX + releaseTime {
        assert occupations[floor].end + releaseTime <= TMAX + releaseTime;
      } else {
        assert ceil == floor;
      }
      forall k | k in occupations
        ensures (k <= start ==> occupations[k].end + releaseTime <= start) &&
                (start <= k ==> end + releaseTime <= k)
      {
        if k < floor {
          assert occupations[k].end + releaseTime <= floor;
        }
        if ceil < k {
          assert end + releaseTime <= ceil;
        }
      }
    }

    /** Entering a fitting block keeps the blocks in order with their gaps. */
    lemma AcceptedValid(before: map<int, Block>, start: int, end: int)
      requires 0 <= releaseTime <= IntMax - TMAX
      requires IntMin in before && TMAX + releaseTime in before
      requires forall k :: k in before ==> before[k].start == k && k <= before[k].end <= IntMax
      requires forall a, b :: a in before && b in before && a < b ==> before[a].end + releaseTime <= b
      requires forall k :: k in before ==>
        (k <= start ==> before[k].end + releaseTime <= start) && (start <= k ==> end + releaseTime <= k)
      requires start <= end && end + releaseTime <= IntMax
      requires occupations == before[start := Block(start, end)]
      ensures Valid()
    {
    }
  }
}
