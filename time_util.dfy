/**
 * Times of day in seconds: parsing "HH:MM:SS" and printing it back
 * (TimeUtil.java).
 */
module TimeUtil {
  import opened Common

  /** Java's String.indexOf(c, from): the first index >= from holding c, or -1. */
  function IndexOf(s: string, c: char, from: nat): (r: int)
    ensures r == -1 || (from <= r < |s| && s[r] == c)
    decreases |s| - from
  {
    if from >= |s| then -1 else if s[from] == c then from else IndexOf(s, c, from + 1)
  }

  predicate IsDigit(c: char)
  {
    '0' <= c <= '9'
  }

  predicate AllDigits(s: string)
  {
    forall i :: 0 <= i < |s| ==> IsDigit(s[i])
  }

  function DigitValue(c: char): nat
    requires IsDigit(c)
  {
    (c as int) - ('0' as int)
  }

  function DigitChar(d: nat): (c: char)
    requires d < 10
    ensures IsDigit(c) && DigitValue(c) == d
  {
    ('0' as int + d) as char
  }

  /** The decimal value of a string of digits, read left to right. */
  function DigitsValue(s: string): nat
    requires AllDigits(s)
  {
    if |s| == 0 then 0 else 10 * DigitsValue(s[..|s| - 1]) + DigitValue(s[|s| - 1])
  }

  /**
   * Integer.parseInt: an optional sign followed by at least one digit, whose
   * value must fit a Java int; anything else throws NumberFormatException,
   * here None.  Only ASCII digits are modelled.
   */
  function ParseInt(s: string): (r: Option<int>)
    ensures r.Some? ==> IsInt32(r.value)
    ensures r.Some? && |s| > 0 && IsDigit(s[0]) ==> AllDigits(s) && r.value == DigitsValue(s)
  {
    var signed := |s| > 0 && (s[0] == '-' || s[0] == '+');
    var digits := if signed then s[1..] else s;
    if |digits| == 0 || !AllDigits(digits) then None
    else
      var v: int := if signed && s[0] == '-' then -(DigitsValue(digits) as int) else DigitsValue(digits);
      if IsInt32(v) then Some(v) else None
  }

  /**
   * The fields of `time` from index `start` on, accumulated onto `seconds`:
   * the field before each colon is the two characters in front of it, and
   * the last field is everything after the last colon.
   */
  function ParseFields(time: string, start: nat, seconds: int): Option<int>
    requires start <= |time|
    decreases |time| - start
  {
    var index := IndexOf(time, ':', start);
    if index == -1 then
      match ParseInt(time[start..])
      case None => None
      case Some(v) => Some(Wrap32(60 * seconds + v))
    else
      match AtColon(time, index, seconds)
      case None => None
      case Some(next) => ParseFields(time, index + 1, next)
  }

  /**
   * The seconds after the field in front of the colon at `index`: the two
   * characters before it, accumulated onto `seconds`; None where parseInt
   * throws.
   */
  function AtColon(time: string, index: nat, seconds: int): Option<int>
    requires index <= |time|
  {
    if index < 2 then None
    else
      match ParseInt(time[index - 2..index])
      case None => None
      case Some(v) => Some(Wrap32(60 * seconds + v))
  }

  /** The value parseTime computes for `time`; None where it throws. */
  function TimeValue(time: string): Option<int>
  {
    if |time| == 0 then None else ParseFields(time, 0, 0)
  }

  /** After the last colon, the rest of the string is the last field. */
  lemma {:induction false} ParseFieldsAtEnd(time: string, start: nat, seconds: int)
    requires start <= |time| && IndexOf(time, ':', start) == -1
    ensures ParseFields(time, start, seconds)
      == if ParseInt(time[start..]).None? then None else Some(Wrap32(60 * seconds + ParseInt(time[start..]).value))
  {
  }

  /**
   * One colon of parseTime: the two characters in front of it are parsed
   * and accumulated onto seconds, or the parse fails.
   */
  method FieldBefore(time: string, start: nat, seconds: int, index: int) returns (r: Option<int>)
    requires start <= |time| && index == IndexOf(time, ':', start) && index != -1
    ensures r.None? ==> ParseFields(time, start, seconds).None?
    ensures r.Some? ==> ParseFields(time, index + 1, r.value) == ParseFields(time, start, seconds)
  {
    if index < 2 {
      return None;
    }
    var field := ParseInt(time[index - 2..index]);
    if field.None? {
      return None;
    }
    r := Some(Wrap32(60 * seconds + field.value));
    assert r == AtColon(time, index, seconds);
  }

  /** The last field of parseTime, after the last colon. */
  method LastField(time: string, start: nat, seconds: int) returns (r: Option<int>)
    requires start <= |time| && IndexOf(time, ':', start) == -1
    ensures r == ParseFields(time, start, seconds)
  {
    ParseFieldsAtEnd(time, start, seconds);
    var last := ParseInt(time[start..]);
    if last.None? {
      return None;
    }
    return Some(Wrap32(60 * seconds + last.value));
  }

  /** parseTime: the loop over the colons of `time`. */
  method ParseTime(time: string) returns (r: Option<int>)
    ensures r == TimeValue(time)
    ensures |time| == 0 ==> r.None?
  {
    if |time| == 0 {
      return None;
    }
    var seconds := 0;
    var start := 0;
    var index := IndexOf(time, ':', start);
    while index != -1
      invariant 0 <= start <= |time|
      invariant index == IndexOf(time, ':', start)
      invariant ParseFields(time, start, seconds) == TimeValue(time)
      decreases |time| - start
    {
      var field := FieldBefore(time, start, seconds, index);
      if field.None? {
        return None;
      }
      seconds := field.value;
      start := index + 1;
      index := IndexOf(time, ':', start);
    }
    r := LastField(time, start, seconds);
  }

  /** The latest time of the planning horizon, parseTime("30:00:00"). */
  const TMAX: int := 108000

  /** parseDuration: the empty string is zero, anything else goes to java.time.Duration. */
  function ParseDuration(duration: string, isoSeconds: string -> int): (r: int)
    ensures |duration| == 0 ==> r == 0
    ensures |duration| > 0 ==> r == Wrap32(isoSeconds(duration))
  {
    if |duration| == 0 then 0 else Wrap32(isoSeconds(duration))
  }

  /** Decimal digits of a natural number, without leading zeros. */
  function NatToString(n: nat): (s: string)
    ensures |s| > 0 && AllDigits(s) && DigitsValue(s) == n
    ensures n < 10 ==> |s| == 1
    ensures 10 <= n < 100 ==> |s| == 2
  {
    if n < 10 then [DigitChar(n)]
    else
      var prefix := NatToString(n / 10);
      var s := prefix + [DigitChar(n % 10)];
      assert s[..|s| - 1] == prefix;
      s
  }

  /** String.format("%02d", n): at least two characters, zero padded. */
  function Pad2(n: int): string
  {
    if n < 0 then "-" + NatToString(-n)
    else if n < 10 then "0" + NatToString(n)
    else NatToString(n)
  }

  /** unparseTime: hours, minutes and seconds with Java's truncating `/` and `%`. */
  function UnparseTime(t: int): string
  {
    var hour := JavaDiv(t, 3600);
    var rest := JavaRem(t, 3600);
    var minute := JavaDiv(rest, 60);
    var second := JavaRem(rest, 60);
    Pad2(hour) + ":" + Pad2(minute) + ":" + Pad2(second)
  }

  /** Two digits of a number below 100. */
  lemma {:induction false} Pad2TwoDigits(n: int)
    requires 0 <= n < 100
    ensures |Pad2(n)| == 2 && AllDigits(Pad2(n))
    ensures DigitsValue(Pad2(n)) == n
  {
    var p := Pad2(n);
    if n < 10 {
      assert p == ['0', DigitChar(n)];
      assert p[..1] == ['0'];
    }
  }

  /** unparseTime prints hours, minutes and seconds, each in two digits. */
  lemma {:induction false} UnparseTimeFields(t: int)
    requires 0 <= t < 360000
    ensures UnparseTime(t) == Pad2(t / 3600) + ":" + Pad2(t % 3600 / 60) + ":" + Pad2(t % 60)
    ensures |Pad2(t / 3600)| == 2 && |Pad2(t % 3600 / 60)| == 2 && |Pad2(t % 60)| == 2
  {
    assert t % 3600 % 60 == t % 60;
    Pad2TwoDigits(t / 3600);
    Pad2TwoDigits(t % 3600 / 60);
    Pad2TwoDigits(t % 60);
  }

  /** A two-digit field parses to its value. */
  lemma {:induction false} ParseTwoDigits(s: string)
    requires |s| == 2 && AllDigits(s)
    ensures ParseInt(s) == Some(DigitsValue(s))
    ensures DigitsValue(s) < 100
  {
    assert s[..1] == [s[0]];
    assert s[..1][..0] == [];
    assert DigitsValue(s[..1]) == DigitValue(s[0]);
    assert DigitsValue(s) == 10 * DigitValue(s[0]) + DigitValue(s[1]);
  }

  /**
   * parseTime of "HH:MM:SS" is 3600 HH + 60 MM + SS, each field being the
   * two characters in front of its colon.
   */
  lemma {:induction false} ParseClockTime(hh: string, mm: string, ss: string)
    requires |hh| == 2 && |mm| == 2 && |ss| == 2
    requires AllDigits(hh) && AllDigits(mm) && AllDigits(ss)
    ensures TimeValue(hh + ":" + mm + ":" + ss)
      == Some(3600 * DigitsValue(hh) + 60 * DigitsValue(mm) + DigitsValue(ss))
  {
    var time := hh + ":" + mm + ":" + ss;
    ParseTwoDigits(hh);
    ParseTwoDigits(mm);
    ParseTwoDigits(ss);
    assert IndexOf(time, ':', 0) == 2 by {
      assert IndexOf(time, ':', 2) == 2;
      assert IndexOf(time, ':', 1) == 2;
    }
    assert time[0..2] == hh;
    assert IndexOf(time, ':', 3) == 5 by {
      assert IndexOf(time, ':', 5) == 5;
      assert IndexOf(time, ':', 4) == 5;
    }
    assert time[3..5] == mm;
    assert IndexOf(time, ':', 6) == -1 by {
      assert IndexOf(time, ':', 8) == -1;
      assert IndexOf(time, ':', 7) == -1;
    }
    assert time[6..] == ss;
    var h := DigitsValue(hh);
    var m := DigitsValue(mm);
    var s := DigitsValue(ss);
    assert ParseFields(time, 6, 60 * h + m) == Some(Wrap32(60 * (60 * h + m) + s));
    assert ParseFields(time, 3, h) == ParseFields(time, 6, 60 * h + m);
    assert ParseFields(time, 0, 0) == ParseFields(time, 3, h);
  }

  /**
   * Only the two characters in front of the first colon are read: a longer
   * hour field such as "123:45:67" loses its leading characters.
   */
  lemma {:induction false} LeadingHourCharactersIgnored(x: char, hh: string, mm: string, ss: string)
    requires IsDigit(x)
    requires |hh| == 2 && |mm| == 2 && |ss| == 2
    requires AllDigits(hh) && AllDigits(mm) && AllDigits(ss)
    ensures TimeValue([x] + hh + ":" + mm + ":" + ss)
      == Some(3600 * DigitsValue(hh) + 60 * DigitsValue(mm) + DigitsValue(ss))
  {
    var time := [x] + hh + ":" + mm + ":" + ss;
    ParseTwoDigits(hh);
    ParseTwoDigits(mm);
    ParseTwoDigits(ss);
    assert IndexOf(time, ':', 0) == 3 by {
      assert IndexOf(time, ':', 3) == 3;
      assert IndexOf(time, ':', 2) == 3;
      assert IndexOf(time, ':', 1) == 3;
    }
    assert time[1..3] == hh;
    assert IndexOf(time, ':', 4) == 6 by {
      assert IndexOf(time, ':', 6) == 6;
      assert IndexOf(time, ':', 5) == 6;
    }
    assert time[4..6] == mm;
    assert IndexOf(time, ':', 7) == -1 by {
      assert IndexOf(time, ':', 9) == -1;
      assert IndexOf(time, ':', 8) == -1;
    }
    assert time[7..] == ss;
    var h := DigitsValue(hh);
    var m := DigitsValue(mm);
    var s := DigitsValue(ss);
    assert ParseFields(time, 7, 60 * h + m) == Some(Wrap32(60 * (60 * h + m) + s));
    assert ParseFields(time, 4, h) == ParseFields(time, 7, 60 * h + m);
    assert ParseFields(time, 0, 0) == ParseFields(time, 4, h);
  }

  /** Hours, minutes and seconds of a time recombine to the time. */
  lemma {:induction false} ClockDecomposition(t: int)
    requires 0 <= t < 360000
    ensures 0 <= t / 3600 < 100 && 0 <= t % 3600 / 60 < 60 && 0 <= t % 60 < 60
    ensures 3600 * (t / 3600) + 60 * (t % 3600 / 60) + t % 60 == t
  {
    var h := t / 3600;
    var r := t % 3600;
    assert t == 3600 * h + r;
    assert r == 60 * (r / 60) + r % 60;
    assert r % 60 == t % 60 by {
      assert t == 60 * (60 * h + r / 60) + r % 60;
    }
  }

  /** parseTime(unparseTime(t)) == t for every time below 100 hours. */
  lemma {:induction false} ParseUnparseRoundTrip(t: int)
    requires 0 <= t < 360000
    ensures TimeValue(UnparseTime(t)) == Some(t)
  {
    ClockDecomposition(t);
    UnparseTimeFields(t);
    var hh, mm, ss := Pad2(t / 3600), Pad2(t % 3600 / 60), Pad2(t % 60);
    Pad2TwoDigits(t / 3600);
    Pad2TwoDigits(t % 3600 / 60);
    Pad2TwoDigits(t % 60);
    ParseClockTime(hh, mm, ss);
  }

  /** TMAX is the value of "30:00:00". */
  lemma {:induction false} TmaxIsThirtyHours(time: string)
    requires time == "30:00:00"
    ensures TimeValue(time) == Some(TMAX)
  {
    var thirty, zero := time[..2], time[3..5];
    assert thirty == "30" && zero == "00" && time[6..] == zero;
    assert DigitsValue(thirty) == 30 by {
      assert thirty[..1] == "3" && "3"[..0] == "";
    }
    assert DigitsValue(zero) == 0 by {
      assert zero[..1] == "0" && "0"[..0] == "";
    }
    assert time == thirty + ":" + zero + ":" + zero;
    ParseClockTime(thirty, zero, zero);
  }
}
