/**
 * A passenger connection between two intentions: the arrival window of
 * the feeding train at its marker, the departure window of the connecting
 * train at its marker, the probability that the connection is missed, and
 * the two schedules that resolve a connection conflict.
 */
module ConnectionOccupations {
  import opened Common
  import opened TimeUtil
  import opened RouteGraphs
  import opened TimeBounds
  import opened Restrictions
  import opened Schedules
  import Constraints

  /** The connection record of the repository. */
  datatype Connection = Connection(intentionFrom: string, intentionTo: string, markerFrom: string, markerTo: string,
                                   minConnectionTime: int)

  /** CONNECTION_LATE_PROBABILITY_TO_BADNESS_FACTOR */
  const LateProbabilityToBadnessFactor: real := 7.5

  /**
   * The arrival edges belong to the graph of intentionFrom (fromEdges), the
   * departure edges to the graph of intentionTo (toEdges).
   */
  datatype ConnectionOccupation = ConnectionOccupation(
    connection: Connection,
    earliestArrival: int, latestArrival: int, earliestDeparture: int, latestDeparture: int,
    arrivalEdges: set<nat>, departureEdges: set<nat>,
    fromEdges: seq<Edge>, toEdges: seq<Edge>)
  {
    /** The transfer time when arriving latest and departing earliest. */
    function TSafe(): int
    {
      earliestDeparture - latestArrival
    }

    /** The transfer time when arriving earliest and departing latest. */
    function TOpt(): int
    {
      latestDeparture - earliestArrival
    }

    function TMid1(): int
    {
      Min(earliestDeparture - earliestArrival, latestDeparture - latestArrival)
    }

    function TMid2(): int
    {
      Max(earliestDeparture - earliestArrival, latestDeparture - latestArrival)
    }

    /** Both windows run forwards. */
    predicate Ordered()
    {
      earliestArrival <= latestArrival && earliestDeparture <= latestDeparture
    }

    /** Neither surely made nor surely missed: the case with the area formula. */
    predicate Uncertain()
    {
      TSafe() < connection.minConnectionTime < TOpt()
    }

    /** The same windows under another minimum connection time. */
    function WithMinConnectionTime(minConnectionTime: int): ConnectionOccupation
    {
      this.(connection := connection.(minConnectionTime := minConnectionTime))
    }
  }

  /** The three assertions of getLateProbability hold exactly when both windows run forwards. */
  lemma AssertionsHoldIffOrdered(co: ConnectionOccupation)
    ensures co.TSafe() <= co.TMid1() && co.TMid1() <= co.TMid2() && co.TMid2() <= co.TOpt() <==> co.Ordered()
  {
  }

  /**
   * The transfer time is spread over [tSafe, tOpt] with a trapezoid
   * density: rising on [tSafe, tMid1], flat on [tMid1, tMid2], falling on
   * [tMid2, tOpt]. A, B and C are the areas of the three parts.
   */
  function TotalArea(tSafe: int, tMid1: int, tMid2: int, tOpt: int): real
  {
    0.5 * (tMid1 - tSafe) as real + (tMid2 - tMid1) as real + 0.5 * (tOpt - tMid2) as real
  }

  /** The good part of the rising segment of length l when k of it lies past the minimum. */
  function Ramp(k: real, l: real): real
    requires l > 0.0
  {
    k * (1.0 - 0.5 * k / l)
  }

  /** The good part of the falling segment of length l when k of it lies past the minimum. */
  function Tail(k: real, l: real): real
    requires l > 0.0
  {
    k * (0.5 * k / l)
  }

  /** The area of the transfer times of at least minConnectionTime. */
  function GoodArea(tSafe: int, tMid1: int, tMid2: int, tOpt: int, minConnectionTime: int): real
    requires tSafe <= tMid1 <= tMid2 <= tOpt
    requires tSafe < minConnectionTime < tOpt
  {
    if minConnectionTime < tMid1 then
      (tMid2 - tMid1) as real + 0.5 * (tOpt - tMid2) as real +
      Ramp((tMid1 - minConnectionTime) as real, (tMid1 - tSafe) as real)
    else if minConnectionTime < tMid2 then
      0.5 * (tOpt - tMid2) as real + (tMid2 - minConnectionTime) as real
    else
      Tail((tOpt - minConnectionTime) as real, (tOpt - tMid2) as real)
  }

  /** A part of a positive whole is a share in (0, 1], below 1 when the part is smaller. */
  lemma ShareBounds(part: real, whole: real)
    requires 0.0 < part <= whole
    ensures 0.0 < part / whole <= 1.0
    ensures part < whole ==> part / whole < 1.0
  {
    var q := part / whole;
    assert part == q * whole;
    var d := 1.0 - q;
    assert d * whole == whole - part;
  }

  /** A product as a term of its own, so that facts about it carry over to the factors' expressions. */
  function Product(a: real, b: real): real
  {
    a * b
  }

  lemma ProductNonNegative(a: real, b: real)
    requires a >= 0.0 && b >= 0.0
    ensures Product(a, b) >= 0.0
  {
  }

  lemma ProductPositive(a: real, b: real)
    requires a > 0.0 && b > 0.0
    ensures Product(a, b) > 0.0
  {
  }

  /** x(1 - x/2) on (0, 1] lies between x/2 and 1/2, strictly below 1/2 short of 1. */
  lemma RampCurve(q: real)
    requires 0.0 < q <= 1.0
    ensures 0.5 * q <= q * (1.0 - 0.5 * q) <= 0.5
    ensures q < 1.0 ==> q * (1.0 - 0.5 * q) < 0.5
  {
    ProductNonNegative(q, 1.0 - q);
    ProductNonNegative(1.0 - q, 1.0 - q);
    assert q * (1.0 - 0.5 * q) == 0.5 * q + 0.5 * Product(q, 1.0 - q);
    assert q * (1.0 - 0.5 * q) == 0.5 - 0.5 * Product(1.0 - q, 1.0 - q);
    if q < 1.0 {
      ProductPositive(1.0 - q, 1.0 - q);
    }
  }

  lemma ScaleBounds(l: real, x: real)
    requires l > 0.0 && 0.0 < x <= 0.5
    ensures 0.0 < Product(l, x) <= 0.5 * l
    ensures x < 0.5 ==> Product(l, x) < 0.5 * l
  {
    ProductPositive(l, x);
    ProductNonNegative(l, 0.5 - x);
    assert 0.5 * l - Product(l, x) == Product(l, 0.5 - x);
    if x < 0.5 {
      ProductPositive(l, 0.5 - x);
    }
  }

  lemma RampBounds(k: real, l: real)
    requires 0.0 < k <= l
    ensures 0.0 < Ramp(k, l) <= 0.5 * l
    ensures k < l ==> Ramp(k, l) < 0.5 * l
  {
    var q := k / l;
    assert k == q * l;
    ShareBounds(k, l);
    RampCurve(q);
    var x := q * (1.0 - 0.5 * q);
    assert Ramp(k, l) == Product(l, x);
    ScaleBounds(l, x);
  }

  lemma RampMonotone(k1: real, k2: real, l: real)
    requires 0.0 <= k2 <= k1 <= l && l > 0.0
    ensures Ramp(k2, l) <= Ramp(k1, l)
  {
    var q1, q2 := k1 / l, k2 / l;
    assert k1 == q1 * l && k2 == q2 * l;
    assert 0.0 <= q2 <= q1 <= 1.0;
    assert Ramp(k1, l) - Ramp(k2, l) == l * ((q1 - q2) * (1.0 - 0.5 * (q1 + q2)));
  }

  lemma TailBounds(k: real, l: real)
    requires 0.0 < k <= l
    ensures 0.0 < Tail(k, l) <= 0.5 * l
    ensures k < l ==> Tail(k, l) < 0.5 * l
  {
    var q := k / l;
    assert k == q * l;
    ShareBounds(k, l);
    var x := 0.5 * (q * q);
    assert Tail(k, l) == Product(l, x);
    ProductNonNegative(q, 1.0 - q);
    assert q * q == q - Product(q, 1.0 - q);
    if k < l {
      ProductPositive(q, 1.0 - q);
    }
    ScaleBounds(l, x);
  }

  lemma TailMonotone(k1: real, k2: real, l: real)
    requires 0.0 <= k2 <= k1 <= l && l > 0.0
    ensures Tail(k2, l) <= Tail(k1, l)
  {
    var q1, q2 := k1 / l, k2 / l;
    assert k1 == q1 * l && k2 == q2 * l;
    assert 0.0 <= q2 <= q1;
    assert Tail(k1, l) - Tail(k2, l) == 0.5 * l * ((q1 - q2) * (q1 + q2));
  }

  /**
   * The good area lies strictly inside (0, A + B + C) and within the part
   * the minimum connection time falls in: above B + C in the rising part,
   * in (C, B + C] in the flat part, in (0, C] in the falling part.
   */
  lemma GoodAreaBounds(tSafe: int, tMid1: int, tMid2: int, tOpt: int, minConnectionTime: int)
    requires tSafe <= tMid1 <= tMid2 <= tOpt
    requires tSafe < minConnectionTime < tOpt
    ensures var g := GoodArea(tSafe, tMid1, tMid2, tOpt, minConnectionTime);
      var b, c := (tMid2 - tMid1) as real, 0.5 * (tOpt - tMid2) as real;
      0.0 < g < TotalArea(tSafe, tMid1, tMid2, tOpt) &&
      (minConnectionTime < tMid1 ==> b + c < g) &&
      (tMid1 <= minConnectionTime < tMid2 ==> c < g <= b + c) &&
      (tMid2 <= minConnectionTime ==> g <= c)
  {
    if minConnectionTime < tMid1 {
      RampBounds((tMid1 - minConnectionTime) as real, (tMid1 - tSafe) as real);
    } else if minConnectionTime >= tMid2 {
      TailBounds((tOpt - minConnectionTime) as real, (tOpt - tMid2) as real);
    }
  }

  /** A longer minimum connection time never leaves more good area. */
  lemma GoodAreaMonotone(tSafe: int, tMid1: int, tMid2: int, tOpt: int, m1: int, m2: int)
    requires tSafe <= tMid1 <= tMid2 <= tOpt
    requires tSafe < m1 <= m2 < tOpt
    ensures GoodArea(tSafe, tMid1, tMid2, tOpt, m2) <= GoodArea(tSafe, tMid1, tMid2, tOpt, m1)
  {
    GoodAreaBounds(tSafe, tMid1, tMid2, tOpt, m1);
    GoodAreaBounds(tSafe, tMid1, tMid2, tOpt, m2);
    if m2 < tMid1 {
      RampMonotone((tMid1 - m1) as real, (tMid1 - m2) as real, (tMid1 - tSafe) as real);
    } else if tMid2 <= m1 {
      TailMonotone((tOpt - m1) as real, (tOpt - m2) as real, (tOpt - tMid2) as real);
    }
  }

  lemma ShareMonotone(part1: real, part2: real, whole: real)
    requires part2 <= part1 && whole > 0.0
    ensures part2 / whole <= part1 / whole
  {
    var q1, q2 := part1 / whole, part2 / whole;
    assert part1 == q1 * whole && part2 == q2 * whole;
  }

  /**
   * getLateProbability: 0 when even the latest arrival meets the earliest
   * departure, 1 when even the earliest arrival misses the latest
   * departure, otherwise the share of the trapezoid below the minimum
   * connection time. The assertions in between hold exactly for ordered
   * windows, which is what the uncertain case requires.
   */
  function LateProbability(co: ConnectionOccupation): (r: real)
    requires co.Uncertain() ==> co.Ordered()
    ensures co.TSafe() >= co.connection.minConnectionTime ==> r == 0.0
    ensures co.TSafe() < co.connection.minConnectionTime && co.TOpt() <= co.connection.minConnectionTime ==> r == 1.0
    ensures co.Uncertain() ==> 0.0 < r < 1.0
  {
    var mc := co.connection.minConnectionTime;
    if co.TSafe() >= mc then 0.0
    else if co.TOpt() <= mc then 1.0
    else
      var total := TotalArea(co.TSafe(), co.TMid1(), co.TMid2(), co.TOpt());
      var good := GoodArea(co.TSafe(), co.TMid1(), co.TMid2(), co.TOpt(), mc);
      GoodAreaBounds(co.TSafe(), co.TMid1(), co.TMid2(), co.TOpt(), mc);
      ShareBounds(good, total);
      assert 0.0 < good / total < 1.0;
      1.0 - good / total
  }

  /** The late probability grows with the minimum connection time. */
  lemma LateProbabilityMonotone(co: ConnectionOccupation, m1: int, m2: int)
    requires co.Ordered() && m1 <= m2
    ensures LateProbability(co.WithMinConnectionTime(m1)) <= LateProbability(co.WithMinConnectionTime(m2))
  {
    var c1, c2 := co.WithMinConnectionTime(m1), co.WithMinConnectionTime(m2);
    if c1.Uncertain() && c2.Uncertain() {
      var total := TotalArea(co.TSafe(), co.TMid1(), co.TMid2(), co.TOpt());
      var g1 := GoodArea(co.TSafe(), co.TMid1(), co.TMid2(), co.TOpt(), m1);
      var g2 := GoodArea(co.TSafe(), co.TMid1(), co.TMid2(), co.TOpt(), m2);
      GoodAreaBounds(co.TSafe(), co.TMid1(), co.TMid2(), co.TOpt(), m1);
      GoodAreaMonotone(co.TSafe(), co.TMid1(), co.TMid2(), co.TOpt(), m1, m2);
      ShareMonotone(g1, g2, total);
    }
  }

  /** getBadness */
  function Badness(co: ConnectionOccupation): (r: real)
    requires co.Uncertain() ==> co.Ordered()
    ensures r == LateProbability(co) * LateProbabilityToBadnessFactor
    ensures 0.0 <= r <= LateProbabilityToBadnessFactor
  {
    LateProbability(co) * LateProbabilityToBadnessFactor
  }

  // ---------------------------------------------------------------------
  // create
  // ---------------------------------------------------------------------

  /**
   * The arrival window over the feasible arrival edges of gc: ea is the
   * smallest entryEarliest (Integer.MAX_VALUE when there is none) and la
   * the largest entry-latest bound (0 when there is none).
   */
  ghost predicate ArrivalWindow(gc: Constraints.GraphConstraints, arrivalEdges: set<nat>, ea: int, la: int)
    reads gc
    requires gc.Valid() && forall e :: e in arrivalEdges ==> e < |gc.edges|
  {
    ea <= IntMax && la >= 0 &&
    (forall e :: e in arrivalEdges && e !in gc.infeasibleEdges ==>
      ea <= gc.timeConstraints[e].entryEarliest &&
      gc.BoundAt(LatestIncoming, gc.edges[e].start) <= la) &&
    (ea == IntMax || exists e :: (e in arrivalEdges && e !in gc.infeasibleEdges &&
      ea == gc.timeConstraints[e].entryEarliest)) &&
    (la == 0 || exists e :: (e in arrivalEdges && e !in gc.infeasibleEdges &&
      la == gc.BoundAt(LatestIncoming, gc.edges[e].start)))
  }

  /**
   * The departure window over the feasible departure edges of gc: ed is
   * the smallest exit-earliest bound (Integer.MAX_VALUE when there is
   * none) and ld the largest exitLatest (0 when there is none).
   */
  ghost predicate DepartureWindow(gc: Constraints.GraphConstraints, departureEdges: set<nat>, ed: int, ld: int)
    reads gc
    requires gc.Valid() && forall e :: e in departureEdges ==> e < |gc.edges|
  {
    ed <= IntMax && ld >= 0 &&
    (forall e :: e in departureEdges && e !in gc.infeasibleEdges ==>
      ed <= gc.BoundAt(EarliestOutgoing, gc.edges[e].end) &&
      gc.timeConstraints[e].exitLatest <= ld) &&
    (ed == IntMax || exists e :: (e in departureEdges && e !in gc.infeasibleEdges &&
      ed == gc.BoundAt(EarliestOutgoing, gc.edges[e].end))) &&
    (ld == 0 || exists e :: (e in departureEdges && e !in gc.infeasibleEdges &&
      ld == gc.timeConstraints[e].exitLatest))
  }

  /** The arrival window is determined by the graph and the edges. */
  lemma ArrivalWindowUnique(gc: Constraints.GraphConstraints, arrivalEdges: set<nat>, ea: int, la: int, ea': int, la': int)
    requires gc.Valid() && forall e :: e in arrivalEdges ==> e < |gc.edges|
    requires ArrivalWindow(gc, arrivalEdges, ea, la) && ArrivalWindow(gc, arrivalEdges, ea', la')
    ensures ea == ea' && la == la'
  {
    if ea != IntMax {
      var e :| e in arrivalEdges && e !in gc.infeasibleEdges && ea == gc.timeConstraints[e].entryEarliest;
      assert ea' <= ea;
    }
    if ea' != IntMax {
      var e :| e in arrivalEdges && e !in gc.infeasibleEdges && ea' == gc.timeConstraints[e].entryEarliest;
      assert ea <= ea';
    }
    if la != 0 {
      var e :| e in arrivalEdges && e !in gc.infeasibleEdges && la == gc.BoundAt(LatestIncoming, gc.edges[e].start);
      assert la <= la';
    }
    if la' != 0 {
      var e :| e in arrivalEdges && e !in gc.infeasibleEdges && la' == gc.BoundAt(LatestIncoming, gc.edges[e].start);
      assert la' <= la;
    }
  }

  /** The departure window is determined by the graph and the edges. */
  lemma DepartureWindowUnique(gc: Constraints.GraphConstraints, departureEdges: set<nat>, ed: int, ld: int, ed': int, ld': int)
    requires gc.Valid() && forall e :: e in departureEdges ==> e < |gc.edges|
    requires DepartureWindow(gc, departureEdges, ed, ld) && DepartureWindow(gc, departureEdges, ed', ld')
    ensures ed == ed' && ld == ld'
  {
    if ed != IntMax {
      var e :| e in departureEdges && e !in gc.infeasibleEdges && ed == gc.BoundAt(EarliestOutgoing, gc.edges[e].end);
      assert ed' <= ed;
    }
    if ed' != IntMax {
      var e :| e in departureEdges && e !in gc.infeasibleEdges && ed' == gc.BoundAt(EarliestOutgoing, gc.edges[e].end);
      assert ed <= ed';
    }
    if ld != 0 {
      var e :| e in departureEdges && e !in gc.infeasibleEdges && ld == gc.timeConstraints[e].exitLatest;
      assert ld <= ld';
    }
    if ld' != 0 {
      var e :| e in departureEdges && e !in gc.infeasibleEdges && ld' == gc.timeConstraints[e].exitLatest;
      assert ld' <= ld;
    }
  }

  /**
   * The loop over the arrival edges: the smallest entryEarliest and the
   * largest entry-latest bound over the feasible ones, starting from
   * Integer.MAX_VALUE and 0.
   */
  method ArrivalTimes(gc: Constraints.GraphConstraints, arrivalEdges: set<nat>)
    returns (earliestArrival: int, latestArrival: int)
    requires gc.Valid() && forall e :: e in arrivalEdges ==> e < |gc.edges|
    ensures ArrivalWindow(gc, arrivalEdges, earliestArrival, latestArrival)
  {
    earliestArrival, latestArrival := IntMax, 0;
    var rest := arrivalEdges;
    while rest != {}
      invariant rest <= arrivalEdges
      invariant earliestArrival <= IntMax && latestArrival >= 0
      invariant forall e :: e in arrivalEdges - rest && e !in gc.infeasibleEdges ==>
        earliestArrival <= gc.timeConstraints[e].entryEarliest &&
        gc.BoundAt(LatestIncoming, gc.edges[e].start) <= latestArrival
      invariant earliestArrival == IntMax || exists e :: (e in arrivalEdges && e !in gc.infeasibleEdges &&
        earliestArrival == gc.timeConstraints[e].entryEarliest)
      invariant latestArrival == 0 || exists e :: (e in arrivalEdges && e !in gc.infeasibleEdges &&
        latestArrival == gc.BoundAt(LatestIncoming, gc.edges[e].start))
      decreases |rest|
    {
      NonEmptyHasElement(rest);
      var edge :| edge in rest;
      rest := rest - {edge};
      if edge !in gc.infeasibleEdges {
        var entryLatest := gc.EntryLatest(edge);
        earliestArrival := Min(earliestArrival, gc.timeConstraints[edge].entryEarliest);
        latestArrival := Max(latestArrival, entryLatest);
      }
    }
  }

  /**
   * The loop over the departure edges: the largest exitLatest and the
   * smallest exit-earliest bound over the feasible ones, starting from 0
   * and Integer.MAX_VALUE.
   */
  method DepartureTimes(gc: Constraints.GraphConstraints, departureEdges: set<nat>)
    returns (earliestDeparture: int, latestDeparture: int)
    requires gc.Valid() && forall e :: e in departureEdges ==> e < |gc.edges|
    ensures DepartureWindow(gc, departureEdges, earliestDeparture, latestDeparture)
  {
    earliestDeparture, latestDeparture := IntMax, 0;
    var rest := departureEdges;
    while rest != {}
      invariant rest <= departureEdges
      invariant earliestDeparture <= IntMax && latestDeparture >= 0
      invariant forall e :: e in departureEdges - rest && e !in gc.infeasibleEdges ==>
        earliestDeparture <= gc.BoundAt(EarliestOutgoing, gc.edges[e].end) &&
        gc.timeConstraints[e].exitLatest <= latestDeparture
      invariant earliestDeparture == IntMax || exists e :: (e in departureEdges && e !in gc.infeasibleEdges &&
        earliestDeparture == gc.BoundAt(EarliestOutgoing, gc.edges[e].end))
      invariant latestDeparture == 0 || exists e :: (e in departureEdges && e !in gc.infeasibleEdges &&
        latestDeparture == gc.timeConstraints[e].exitLatest)
      decreases |rest|
    {
      NonEmptyHasElement(rest);
      var edge :| edge in rest;
      rest := rest - {edge};
      if edge !in gc.infeasibleEdges {
        var exitEarliest := gc.ExitEarliest(edge);
        latestDeparture := Max(latestDeparture, gc.timeConstraints[edge].exitLatest);
        earliestDeparture := Min(earliestDeparture, exitEarliest);
      }
    }
  }

  /**
   * create: the windows over the feasible edges under the connection's
   * markers (arrivalEdges and departureEdges are the graphs' marker index
   * entries); the four closing assertions make it fail (None) unless both
   * earliest times are positive and both latest times are below TMAX.
   */
  method Create(c: Connection, timeConstraints: map<string, Constraints.GraphConstraints>,
                arrivalEdges: set<nat>, departureEdges: set<nat>)
    returns (r: Option<ConnectionOccupation>)
    requires c.intentionFrom in timeConstraints && c.intentionTo in timeConstraints
    requires timeConstraints[c.intentionFrom].Valid() && timeConstraints[c.intentionTo].Valid()
    requires forall e :: e in arrivalEdges ==> e < |timeConstraints[c.intentionFrom].edges|
    requires forall e :: e in departureEdges ==> e < |timeConstraints[c.intentionTo].edges|
    ensures r.Some? ==>
      (r.value.connection == c && r.value.arrivalEdges == arrivalEdges && r.value.departureEdges == departureEdges &&
       r.value.fromEdges == timeConstraints[c.intentionFrom].edges && r.value.toEdges == timeConstraints[c.intentionTo].edges)
    ensures r.Some? ==>
      (0 < r.value.earliestArrival && 0 < r.value.earliestDeparture &&
       0 <= r.value.latestArrival < TMAX && 0 <= r.value.latestDeparture < TMAX)
    ensures r.Some? ==> var from := timeConstraints[c.intentionFrom];
      forall e :: e in arrivalEdges && e !in from.infeasibleEdges ==>
        r.value.earliestArrival <= from.timeConstraints[e].entryEarliest &&
        from.BoundAt(LatestIncoming, from.edges[e].start) <= r.value.latestArrival
    ensures r.Some? ==> var to := timeConstraints[c.intentionTo];
      forall e :: e in departureEdges && e !in to.infeasibleEdges ==>
        r.value.earliestDeparture <= to.BoundAt(EarliestOutgoing, to.edges[e].end) &&
        to.timeConstraints[e].exitLatest <= r.value.latestDeparture
    ensures exists ea, la, ed, ld ::
      ArrivalWindow(timeConstraints[c.intentionFrom], arrivalEdges, ea, la) &&
      DepartureWindow(timeConstraints[c.intentionTo], departureEdges, ed, ld) &&
      Made(r, c, ea, la, ed, ld, arrivalEdges, departureEdges,
           timeConstraints[c.intentionFrom].edges, timeConstraints[c.intentionTo].edges)
  {
    var from := timeConstraints[c.intentionFrom];
    var to := timeConstraints[c.intentionTo];
    var earliestArrival, latestArrival, earliestDeparture, latestDeparture := Windows(from, to, arrivalEdges, departureEdges);
    if !(earliestArrival > 0 && earliestDeparture > 0 && latestArrival < TMAX && latestDeparture < TMAX) {
      r := None;
    } else {
      r := Some(ConnectionOccupation(c, earliestArrival, latestArrival, earliestDeparture, latestDeparture,
                                     arrivalEdges, departureEdges, from.edges, to.edges));
    }
    MadeWithin(r, c, from, to, arrivalEdges, departureEdges,
               earliestArrival, latestArrival, earliestDeparture, latestDeparture);
    assert Made(r, c, earliestArrival, latestArrival, earliestDeparture, latestDeparture,
                arrivalEdges, departureEdges, from.edges, to.edges);
  }

  /** create's two loops: the arrival window of from and the departure window of to. */
  method Windows(from: Constraints.GraphConstraints, to: Constraints.GraphConstraints,
                 arrivalEdges: set<nat>, departureEdges: set<nat>)
    returns (earliestArrival: int, latestArrival: int, earliestDeparture: int, latestDeparture: int)
    requires from.Valid() && forall e :: e in arrivalEdges ==> e < |from.edges|
    requires to.Valid() && forall e :: e in departureEdges ==> e < |to.edges|
    ensures ArrivalWindow(from, arrivalEdges, earliestArrival, latestArrival)
    ensures DepartureWindow(to, departureEdges, earliestDeparture, latestDeparture)
  {
    earliestArrival, latestArrival := ArrivalTimes(from, arrivalEdges);
    earliestDeparture, latestDeparture := DepartureTimes(to, departureEdges);
  }

  /**
   * The outcome of create for the windows ea..la and ed..ld: an occupation
   * with exactly those times is made when the four closing assertions
   * hold, and none otherwise.
   */
  ghost predicate Made(r: Option<ConnectionOccupation>, c: Connection, ea: int, la: int, ed: int, ld: int,
                       arrivalEdges: set<nat>, departureEdges: set<nat>, fromEdges: seq<Edge>, toEdges: seq<Edge>)
  {
    (r.None? <==> !(0 < ea && 0 < ed && la < TMAX && ld < TMAX)) &&
    (r.Some? ==> r.value == ConnectionOccupation(c, ea, la, ed, ld, arrivalEdges, departureEdges, fromEdges, toEdges))
  }

  /** A made occupation lies within the windows of its two intentions' feasible marked edges. */
  lemma MadeWithin(r: Option<ConnectionOccupation>, c: Connection,
                   from: Constraints.GraphConstraints, to: Constraints.GraphConstraints,
                   arrivalEdges: set<nat>, departureEdges: set<nat>, ea: int, la: int, ed: int, ld: int)
    requires from.Valid() && forall e :: e in arrivalEdges ==> e < |from.edges|
    requires to.Valid() && forall e :: e in departureEdges ==> e < |to.edges|
    requires ArrivalWindow(from, arrivalEdges, ea, la) && DepartureWindow(to, departureEdges, ed, ld)
    requires Made(r, c, ea, la, ed, ld, arrivalEdges, departureEdges, from.edges, to.edges)
    ensures r.Some? ==>
      (r.value.connection == c && r.value.arrivalEdges == arrivalEdges && r.value.departureEdges == departureEdges &&
       r.value.fromEdges == from.edges && r.value.toEdges == to.edges)
    ensures r.Some? ==>
      (0 < r.value.earliestArrival && 0 < r.value.earliestDeparture &&
       0 <= r.value.latestArrival < TMAX && 0 <= r.value.latestDeparture < TMAX)
    ensures r.Some? ==>
      forall e :: e in arrivalEdges && e !in from.infeasibleEdges ==>
        r.value.earliestArrival <= from.timeConstraints[e].entryEarliest &&
        from.BoundAt(LatestIncoming, from.edges[e].start) <= r.value.latestArrival
    ensures r.Some? ==>
      forall e :: e in departureEdges && e !in to.infeasibleEdges ==>
        r.value.earliestDeparture <= to.BoundAt(EarliestOutgoing, to.edges[e].end) &&
        to.timeConstraints[e].exitLatest <= r.value.latestDeparture
  {
  }

  // ---------------------------------------------------------------------
  // createConflictSchedules
  // ---------------------------------------------------------------------

  /** The edges entering the start node of an arrival edge. */
  function Incoming(edges: seq<Edge>, arrivalEdges: set<nat>): (r: set<nat>)
    ensures forall p :: p in r ==> p < |edges| && exists e :: e in arrivalEdges && e < |edges| && edges[p].end == edges[e].start
  {
    set e, k | e in arrivalEdges && e < |edges| && 0 <= k < |Previous(edges, edges[e].start)| ::
      Previous(edges, edges[e].start)[k]
  }

  /** The edges leaving the end node of a departure edge. */
  function Outgoing(edges: seq<Edge>, departureEdges: set<nat>): (r: set<nat>)
    ensures forall n :: n in r ==> n < |edges| && exists e :: e in departureEdges && e < |edges| && edges[n].start == edges[e].end
  {
    set e, k | e in departureEdges && e < |edges| && 0 <= k < |Next(edges, edges[e].end)| ::
      Next(edges, edges[e].end)[k]
  }

  /** Every edge entering an arrival edge's start node is incoming. */
  lemma IncomingComplete(edges: seq<Edge>, arrivalEdges: set<nat>, e: nat, p: nat)
    requires e in arrivalEdges && e < |edges| && p < |edges| && edges[p].end == edges[e].start
    ensures p in Incoming(edges, arrivalEdges)
  {
    PreviousComplete(edges, edges[e].start);
    var k :| 0 <= k < |Previous(edges, edges[e].start)| && Previous(edges, edges[e].start)[k] == p;
  }

  /** Every edge leaving a departure edge's end node is outgoing. */
  lemma OutgoingComplete(edges: seq<Edge>, departureEdges: set<nat>, e: nat, n: nat)
    requires e in departureEdges && e < |edges| && n < |edges| && edges[n].start == edges[e].end
    ensures n in Outgoing(edges, departureEdges)
  {
    NextComplete(edges, edges[e].end);
    var k :| 0 <= k < |Next(edges, edges[e].end)| && Next(edges, edges[e].end)[k] == n;
  }

  /** The edges of one node list as a set. */
  function ListSet(s: seq<nat>): set<nat>
  {
    set k | 0 <= k < |s| :: s[k]
  }

  /** getIncoming: the union of the previous-edge lists of the arrival edges' start nodes. */
  method GetIncoming(edges: seq<Edge>, arrivalEdges: set<nat>) returns (result: set<nat>)
    requires forall e :: e in arrivalEdges ==> e < |edges|
    ensures result == Incoming(edges, arrivalEdges)
  {
    result := {};
    var rest := arrivalEdges;
    while rest != {}
      invariant rest <= arrivalEdges
      invariant result == Incoming(edges, arrivalEdges - rest)
      decreases |rest|
    {
      NonEmptyHasElement(rest);
      var edge :| edge in rest;
      ghost var done := arrivalEdges - rest;
      result := result + ListSet(Previous(edges, edges[edge].start));
      rest := rest - {edge};
      assert arrivalEdges - rest == done + {edge};
      assert Incoming(edges, done + {edge}) == Incoming(edges, done) + ListSet(Previous(edges, edges[edge].start));
    }
    assert arrivalEdges - rest == arrivalEdges;
  }

  /** getOutgoing: the union of the next-edge lists of the departure edges' end nodes. */
  method GetOutgoing(edges: seq<Edge>, departureEdges: set<nat>) returns (result: set<nat>)
    requires forall e :: e in departureEdges ==> e < |edges|
    ensures result == Outgoing(edges, departureEdges)
  {
    result := {};
    var rest := departureEdges;
    while rest != {}
      invariant rest <= departureEdges
      invariant result == Outgoing(edges, departureEdges - rest)
      decreases |rest|
    {
      NonEmptyHasElement(rest);
      var edge :| edge in rest;
      ghost var done := departureEdges - rest;
      result := result + ListSet(Next(edges, edges[edge].end));
      rest := rest - {edge};
      assert departureEdges - rest == done + {edge};
      assert Outgoing(edges, done + {edge}) == Outgoing(edges, done) + ListSet(Next(edges, edges[edge].end));
    }
    assert departureEdges - rest == departureEdges;
  }

  /** The shortfall of the safe transfer time against the minimum connection time. */
  function Deficit(co: ConnectionOccupation): int
  {
    co.latestArrival - co.earliestDeparture + co.connection.minConnectionTime
  }

  /**
   * cutoff = (latestArrival - earliestDeparture + minConnectionTime + 1) / 2
   * on Java ints: without wrap-around, positive exactly when there is a
   * shortfall, and then its rounded-up half.
   */
  function Cutoff(co: ConnectionOccupation): (r: int)
    ensures IsInt32(Deficit(co) + 1) ==> (r > 0 <==> Deficit(co) > 0)
    ensures IsInt32(Deficit(co) + 1) && Deficit(co) > 0 ==> Deficit(co) <= 2 * r <= Deficit(co) + 1
  {
    JavaDiv(Wrap32(co.latestArrival - co.earliestDeparture + co.connection.minConnectionTime + 1), 2)
  }

  /**
   * createConflictSchedules throws exactly when the late probability is 0,
   * so a connection that is already safe is no conflict; otherwise the two
   * halves of the cutoff together close the gap.
   */
  lemma ThrowsIffNotLate(co: ConnectionOccupation)
    requires co.Ordered()
    requires IsInt32(Deficit(co) + 1)
    ensures Cutoff(co) <= 0 <==> LateProbability(co) == 0.0
    ensures Cutoff(co) > 0 ==> (co.earliestDeparture + Cutoff(co)) - (co.latestArrival - Cutoff(co)) >=
                               co.connection.minConnectionTime
  {
  }

  /**
   * createConflictSchedules: fails (None) when the cutoff is not positive;
   * otherwise two schedules, one pushing the connecting train's departure
   * to at least earliestDeparture + cutoff on the edges after its
   * departure edges, one pulling the feeding train's arrival to at most
   * latestArrival - cutoff on the edges before its arrival edges. Each
   * is scored by the inverse width of the window it restricts.
   */
  method CreateConflictSchedules(co: ConnectionOccupation) returns (r: Option<seq<ConflictSchedule>>)
    requires forall e :: e in co.arrivalEdges ==> e < |co.fromEdges|
    requires forall e :: e in co.departureEdges ==> e < |co.toEdges|
    requires co.latestDeparture != co.earliestDeparture && co.latestArrival != co.earliestArrival
    ensures r.None? <==> Cutoff(co) <= 0
    ensures r.Some? ==> |r.value| == 2
    ensures r.Some? ==> r.value[0] == Scored([IncreaseMinTime(co.connection.intentionTo,
                                                              Wrap32(co.earliestDeparture + Cutoff(co)),
                                                              Outgoing(co.toEdges, co.departureEdges))],
                                             1.0 / (co.latestDeparture - co.earliestDeparture) as real)
    ensures r.Some? ==> r.value[1] == Scored([DecreaseMaxTime(co.connection.intentionFrom,
                                                              Wrap32(co.latestArrival - Cutoff(co)),
                                                              Incoming(co.fromEdges, co.arrivalEdges))],
                                             1.0 / (co.latestArrival - co.earliestArrival) as real)
  {
    var cutoff := Cutoff(co);
    if cutoff <= 0 {
      return None;
    }
    var earliestDepartureMin := Wrap32(co.earliestDeparture + cutoff);
    var latestArrivalMax := Wrap32(co.latestArrival - cutoff);
    var outgoing := GetOutgoing(co.toEdges, co.departureEdges);
    var incoming := GetIncoming(co.fromEdges, co.arrivalEdges);
    var schedules := [Scored([IncreaseMinTime(co.connection.intentionTo, earliestDepartureMin, outgoing)],
                             1.0 / (co.latestDeparture - co.earliestDeparture) as real)];
    schedules := schedules + [Scored([DecreaseMaxTime(co.connection.intentionFrom, latestArrivalMax, incoming)],
                                     1.0 / (co.latestArrival - co.earliestArrival) as real)];
    r := Some(schedules);
  }
}
