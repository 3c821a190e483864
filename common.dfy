/**
 * Vocabulary shared by the whole model: optional values, Java `int`
 * arithmetic (wrap-around, truncating division) and the penalty values of
 * the solver, which are Java doubles that are either finite or +Infinity.
 */
module Common {

  datatype Option<T> = None | Some(value: T)

  /**
   * How an operation ends: with a value, by an exception of the source (a
   * failed assertion or a lookup that finds nothing), or, for the loops
   * the source runs without a bound, by using up the fuel.
   */
  datatype Outcome<T> = Returned(value: T) | Thrown | OutOfFuel

  /** A closed interval of seconds [start, end]. */
  datatype Interval = Interval(start: int, end: int)

  const IntMin: int := -0x8000_0000
  const IntMax: int := 0x7fff_ffff

  predicate IsInt32(x: int)
  {
    IntMin <= x <= IntMax
  }

  /** The value of a Java `int` expression whose mathematical value is x. */
  function Wrap32(x: int): (r: int)
    ensures IsInt32(r)
    ensures IsInt32(x) ==> r == x
  {
    (x - IntMin) % 0x1_0000_0000 + IntMin
  }

  function Abs(x: int): nat
  {
    if x < 0 then -x else x
  }

  /** Java `a / b` on ints: the quotient is truncated toward zero. */
  function JavaDiv(a: int, b: int): (q: int)
    requires b != 0
    ensures a >= 0 && b > 0 ==> q == a / b
    ensures a < 0 && b > 0 ==> q == -((-a) / b)
  {
    if (a >= 0) == (b > 0) then Abs(a) / Abs(b) else -(Abs(a) / Abs(b))
  }

  /** Java `a % b` on ints: the remainder takes the sign of the dividend. */
  function JavaRem(a: int, b: int): (r: int)
    requires b != 0
    ensures a >= 0 && b > 0 ==> r == a % b
  {
    a - JavaDiv(a, b) * b
  }

  function Min(a: int, b: int): int
  {
    if a <= b then a else b
  }

  function Max(a: int, b: int): int
  {
    if a >= b then a else b
  }

  function RealMin(a: real, b: real): real
  {
    if a <= b then a else b
  }

  function RealMax(a: real, b: real): real
  {
    if a >= b then a else b
  }

  function RealAbs(x: real): real
  {
    if x < 0.0 then -x else x
  }

  /**
   * A Java double as the solver uses it for penalties: a finite value or
   * positive infinity (the "no feasible path" value and the initial budget).
   */
  datatype Penalty = Fin(value: real) | Inf
  {
    /** IEEE addition restricted to finite values and +Infinity. */
    function Plus(other: Penalty): Penalty
    {
      if this.Fin? && other.Fin? then Fin(this.value + other.value) else Inf
    }

    /** IEEE `<`: +Infinity is below nothing, every finite value is below +Infinity. */
    predicate Below(other: Penalty)
    {
      match (this, other)
      case (Fin(a), Fin(b)) => a < b
      case (Fin(_), Inf) => true
      case (Inf, _) => false
    }

    predicate AtMost(other: Penalty)
    {
      this == other || Below(other)
    }

    /** Math.min on penalties. */
    function Smaller(other: Penalty): Penalty
    {
      if other.Below(this) then other else this
    }
  }

  /** A non-empty set has an element (so `:|` can pick one). */
  lemma NonEmptyHasElement<T>(s: set<T>)
    requires s != {}
    ensures exists x :: x in s
  {
    assert |s| != 0;
  }
}
