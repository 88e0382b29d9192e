/** The fragment of JavaScript number semantics the pipeline relies on.

    Every Number the pipeline computes with is integer-valued: unix seconds
    times 1000, Date time values, and the results of `parseInt`.  A Number is
    therefore modelled as NaN, an infinity, or a finite double that holds an
    integer; `ToNumber` rounds a mathematical integer to the nearest double
    exactly as IEEE 754 binary64 does (53 significant bits, ties to even,
    overflow to infinity).  Signed zero is not distinguished.

    The module also holds the three conversions the timestamps go through:
    the Date time-value clip, `BigInt.prototype.toString` (decimal rendering
    of an integer) and the global `parseInt`.  It ends with a run of calls
    each of which may throw, made in order, as a throwing `map` callback or
    a builder chain makes them.
 */
module Js {

  import Wrappers

  /** The exceptions the core can throw.  ClientError stands for any error
      raised inside the time-series store's client library. */
  datatype Exception = TypeError | RangeError | SyntaxError | ClientError

  /** An integer-valued JavaScript Number. */
  datatype Number = NaN | Finite(value: int) | Infinity(negative: bool)

  const TwoTo52: int := 0x10_0000_0000_0000
  /** 2^53: every integer of at most this magnitude is a double. */
  const TwoTo53: int := 0x20_0000_0000_0000
  /** 2^1024: the smallest magnitude that rounds to infinity. */
  const TwoTo1024: int := 179769313486231590772930519078902473361797697894230657273430081157732675805500963132708477322407536021120113879871393357658789768814416622492847430639474124377767893424865485276302219601246094119453082952085005768838150682342462881473913110540827237163350510684586298239947245938479716304835356329624224137216

  /** The largest time value (in milliseconds) a Date can hold: 100,000,000
      days either side of the epoch (ECMA-262, section 21.4.1.1). */
  const MaxTimeValue: int := 8_640_000_000_000_000

  // ---------------------------------------------------------------------
  // Rounding an integer to a double
  // ---------------------------------------------------------------------

  /** The spacing of doubles around the magnitude `m`. */
  function Ulp(m: nat): (u: nat)
    ensures u >= 1
    ensures m < TwoTo53 ==> u == 1
    ensures m >= TwoTo53 ==> u >= 2 && TwoTo52 * u <= m < TwoTo53 * u
    decreases m
  {
    if m < TwoTo53 then 1 else 2 * Ulp(m / 2)
  }

  /** Round a non-negative integer to the nearest double, ties to even. */
  function RoundMagnitude(m: nat): Number
  {
    var u := Ulp(m);
    var q := m / u;
    var r := m % u;
    var n := if 2 * r < u || (2 * r == u && q % 2 == 0) then q * u else (q + 1) * u;
    if n >= TwoTo1024 then Infinity(false) else Finite(n)
  }

  function Negate(n: Number): Number
  {
    match n
    case NaN => NaN
    case Finite(v) => Finite(-v)
    case Infinity(neg) => Infinity(!neg)
  }

  /** The Number nearest to the mathematical integer `m`. */
  function ToNumber(m: int): Number
  {
    if m >= 0 then RoundMagnitude(m) else Negate(RoundMagnitude(-m))
  }

  /** Integers of magnitude at most 2^53 are doubles: rounding keeps them. */
  lemma ToNumberExact(m: int)
    requires -TwoTo53 <= m <= TwoTo53
    ensures ToNumber(m) == Finite(m)
  {
    var a := if m >= 0 then m else -m;
    if a < TwoTo53 {
      assert Ulp(a) == 1;
    } else {
      assert a == TwoTo53;
      assert Ulp(a / 2) == 1;
      assert Ulp(a) == 2;
    }
  }

  /** Rounding never brings a magnitude of at least 2^53 back below 2^53. */
  lemma RoundMagnitudeStaysLarge(m: nat)
    requires m >= TwoTo53
    ensures RoundMagnitude(m).Infinity? || (RoundMagnitude(m).Finite? && RoundMagnitude(m).value >= TwoTo53)
  {
    var u := Ulp(m);
    var q := m / u;
    QuotientLowerBound(m, u, TwoTo52);
    MulMonotone(TwoTo52, q, u);
    MulMonotone(q, q + 1, u);
  }

  lemma QuotientLowerBound(m: nat, u: nat, k: nat)
    requires u > 0 && k * u <= m
    ensures k <= m / u
  {
    var q := m / u;
    assert m == q * u + m % u;
    if q < k {
      MulMonotone(q + 1, k, u);
    }
  }

  lemma MulMonotone(a: int, b: int, c: nat)
    requires a <= b
    ensures a * c <= b * c
  {
  }

  /** A magnitude that is a multiple of its spacing is a double. */
  lemma RoundMagnitudeOfMultiple(m: nat, k: nat)
    requires m == Ulp(m) * k && m < TwoTo1024
    ensures RoundMagnitude(m) == Finite(m)
  {
    DivExact(m, Ulp(m), k);
  }

  lemma DivExact(m: nat, u: nat, k: nat)
    requires u > 0 && m == u * k
    ensures m / u == k && m % u == 0
  {
    var q, r := m / u, m % u;
    assert u * (k - q) == r;
    if k - q >= 1 {
      MulMonotone(1, k - q, u);
    } else if k - q <= -1 {
      MulMonotone(k - q, -1, u);
    }
  }

  function Pow2(j: nat): (p: nat)
    ensures p >= 1
  {
    if j == 0 then 1 else 2 * Pow2(j - 1)
  }

  /** Below 2^53 * 2^j the spacing of doubles divides 2^j. */
  lemma {:induction false} UlpDividesPower(m: nat, j: nat) returns (k: nat)
    requires m < TwoTo53 * Pow2(j)
    ensures Pow2(j) == Ulp(m) * k
    decreases j
  {
    if m < TwoTo53 {
      k := Pow2(j);
    } else {
      assert j > 0;
      k := UlpDividesPower(m / 2, j - 1);
    }
  }

  /** 2^59: below it the spacing of doubles is at most 64. */
  const TwoTo59: int := 0x800_0000_0000_0000

  /** Multiples of 64 of magnitude below 2^59 are doubles: rounding keeps
      them.  Every microsecond count that is a whole number of seconds is
      such a multiple. */
  lemma ToNumberExactMultiple(m: int)
    requires m % 64 == 0 && -TwoTo59 < m < TwoTo59
    ensures ToNumber(m) == Finite(m)
  {
    if m >= 0 {
      RoundMultipleOf64(m);
    } else {
      RoundMultipleOf64(-m);
    }
  }

  lemma RoundMultipleOf64(a: nat)
    requires a % 64 == 0 && a < TwoTo59
    ensures RoundMagnitude(a) == Finite(a)
  {
    var l := a / 64;
    assert a == 64 * l;
    assert Pow2(6) == 64;
    var k := UlpDividesPower(a, 6);
    var u := Ulp(a);
    MulAssociates(u, k, l);
    RoundMagnitudeOfMultiple(a, k * l);
  }

  lemma MulAssociates(x: int, y: int, z: int)
    ensures (x * y) * z == x * (y * z)
  {
  }

  /** 2^53 + 1 is the first integer that is not a double: the bound of
      `ToNumberExact` is tight. */
  lemma ToNumberFirstInexact()
    ensures ToNumber(TwoTo53 + 1) == Finite(TwoTo53)
  {
    assert Ulp((TwoTo53 + 1) / 2) == 1;
    assert Ulp(TwoTo53 + 1) == 2;
  }

  // ---------------------------------------------------------------------
  // Date time values and BigInt
  // ---------------------------------------------------------------------

  /** TimeClip (ECMA-262, section 21.4.1.31): a time value outside the Date
      range, or not finite, becomes NaN. */
  function TimeClip(t: Number): (r: Number)
    ensures r.Infinity? == false
    ensures r.Finite? ==> t == r && -MaxTimeValue <= r.value <= MaxTimeValue
    ensures t.Finite? && -MaxTimeValue <= t.value <= MaxTimeValue ==> r == t
  {
    match t
    case Finite(v) => if -MaxTimeValue <= v <= MaxTimeValue then t else NaN
    case _ => NaN
  }

  /** Clipping the double nearest an integer keeps exactly the integers of
      the Date range: rounding cannot carry a value from outside the range
      into it. */
  lemma TimeClipOfInteger(m: int)
    ensures TimeClip(ToNumber(m)) == if -MaxTimeValue <= m <= MaxTimeValue then Finite(m) else NaN
  {
    if -TwoTo53 <= m <= TwoTo53 {
      ToNumberExact(m);
    } else if m > 0 {
      RoundMagnitudeStaysLarge(m);
    } else {
      RoundMagnitudeStaysLarge(-m);
    }
  }

  /** A Date object: it holds a single time value. */
  datatype Date = Date(timeValue: Number)

  /** `new Date(x)` for a Number `x`. */
  function NewDate(x: Number): Date
  {
    Date(TimeClip(x))
  }

  /** `new Date(d)` for a Date `d`: copies its time value, clipped again. */
  function CopyDate(d: Date): Date
  {
    Date(TimeClip(d.timeValue))
  }

  /** `BigInt(x)` for a Number `x`: a RangeError unless `x` is integral. */
  function BigIntOf(x: Number): (r: Result<int>)
    ensures r.Success? <==> x.Finite?
    ensures r.Success? ==> r.value == x.value
    ensures r.Failure? ==> r.error == RangeError
  {
    match x
    case Finite(v) => Wrappers.Success(v)
    case _ => Wrappers.Failure(RangeError)
  }

  type Result<T> = Wrappers.Result<T, Exception>

  // ---------------------------------------------------------------------
  // Decimal rendering (BigInt.prototype.toString with radix 10)
  // ---------------------------------------------------------------------

  predicate IsDecimalDigit(c: char) {
    '0' <= c <= '9'
  }

  function DigitChar(d: nat): (c: char)
    requires d < 10
    ensures IsDecimalDigit(c) && DigitValue(c) == d
  {
    ('0' as int + d) as char
  }

  /** The decimal digits of `n`, most significant first, no leading zero. */
  function Digits(n: nat): (s: string)
    ensures |s| >= 1
    ensures forall i :: 0 <= i < |s| ==> IsDecimalDigit(s[i])
    ensures s[0] == '0' <==> n == 0
    decreases n
  {
    if n < 10 then [DigitChar(n)] else Digits(n / 10) + [DigitChar(n % 10)]
  }

  /** `i.toString()` for a BigInt `i`. */
  function DecimalString(i: int): string
  {
    if i < 0 then "-" + Digits(-i) else Digits(i)
  }

  // ---------------------------------------------------------------------
  // parseInt (ECMA-262, section 19.2.5) with the radix argument omitted
  // ---------------------------------------------------------------------

  /** StrWhiteSpaceChar: WhiteSpace or LineTerminator. */
  predicate IsStrWhiteSpace(c: char) {
    || c == '\t' || c == '\U{000B}' || c == '\U{000C}' || c == ' ' || c == '\U{00A0}' || c == '\U{FEFF}'
    || c == '\n' || c == '\r' || c == '\U{2028}' || c == '\U{2029}'
    || c == '\U{1680}' || ('\U{2000}' <= c <= '\U{200A}') || c == '\U{202F}' || c == '\U{205F}' || c == '\U{3000}'
  }

  /** `s` with its leading white space removed. */
  function TrimStart(s: string): (r: string)
    ensures |r| <= |s|
    ensures |r| > 0 ==> !IsStrWhiteSpace(r[0])
  {
    if |s| > 0 && IsStrWhiteSpace(s[0]) then TrimStart(s[1..]) else s
  }

  /** The value of a digit in radices up to 36; 36 for a non-digit. */
  function DigitValue(c: char): (d: nat)
    ensures d <= 36
    ensures d < 10 <==> IsDecimalDigit(c)
  {
    if '0' <= c <= '9' then c as nat - '0' as nat
    else if 'a' <= c <= 'z' then c as nat - 'a' as nat + 10
    else if 'A' <= c <= 'Z' then c as nat - 'A' as nat + 10
    else 36
  }

  /** The length of the longest prefix of `s` made of radix-`radix` digits. */
  function RadixRun(s: string, radix: nat): (n: nat)
    ensures n <= |s|
    ensures forall i :: 0 <= i < n ==> DigitValue(s[i]) < radix
    ensures n < |s| ==> DigitValue(s[n]) >= radix
  {
    if |s| > 0 && DigitValue(s[0]) < radix then 1 + RadixRun(s[1..], radix) else 0
  }

  /** The value of a digit string in the given radix. */
  function RadixValue(z: string, radix: nat): nat
  {
    if |z| == 0 then 0 else RadixValue(z[..|z| - 1], radix) * radix + DigitValue(z[|z| - 1])
  }

  /** The sign and the exactly valued digit run `parseInt` reads. */
  datatype IntegerText = IntegerText(negative: bool, magnitude: nat)

  /** Steps 4 to 13 of `parseInt` on text with no leading white space: read a
      sign, then the digits after it; None if there are none. */
  function ScanInteger(s: string): Wrappers.Option<IntegerText>
  {
    var negative := |s| > 0 && s[0] == '-';
    var unsigned := if |s| > 0 && (s[0] == '-' || s[0] == '+') then s[1..] else s;
    ScanDigits(negative, unsigned)
  }

  /** Switch to radix 16 on a `0x` prefix, then read the longest run of
      digits of the radix; None if there is none. */
  function ScanDigits(negative: bool, unsigned: string): Wrappers.Option<IntegerText>
  {
    var hex := |unsigned| >= 2 && unsigned[0] == '0' && (unsigned[1] == 'x' || unsigned[1] == 'X');
    var radix := if hex then 16 else 10;
    var body := if hex then unsigned[2..] else unsigned;
    var run := RadixRun(body, radix);
    if run == 0 then Wrappers.None
    else Wrappers.Some(IntegerText(negative, RadixValue(body[..run], radix)))
  }

  /** `parseInt(s)` with the radix omitted: NaN when no digit is found,
      otherwise the signed digit value rounded to a double.  Section 19.2.5
      lets an implementation approximate after the 20th significant decimal
      digit; the model values the digits exactly. */
  function ParseInt(input: string): Number
  {
    match ScanInteger(TrimStart(input))
    case None => NaN
    case Some(t) =>
      if t.magnitude == 0 then Finite(0)
      else ToNumber(if t.negative then -(t.magnitude as int) else t.magnitude)
  }

  // ---------------------------------------------------------------------
  // The decimal round trip
  // ---------------------------------------------------------------------

  /** Reading back the decimal digits of `n` gives `n`. */
  lemma {:induction false} DigitsValue(n: nat)
    ensures RadixValue(Digits(n), 10) == n
    decreases n
  {
    if n >= 10 {
      var s := Digits(n);
      assert s[..|s| - 1] == Digits(n / 10);
      DigitsValue(n / 10);
    }
  }

  /** The digit run of a digit string followed by a non-digit is the string. */
  lemma {:induction false} RadixRunOfDigits(d: string, rest: string)
    requires forall i :: 0 <= i < |d| ==> IsDecimalDigit(d[i])
    requires |rest| == 0 || DigitValue(rest[0]) >= 10
    ensures RadixRun(d + rest, 10) == |d|
    decreases |d|
  {
    if |d| > 0 {
      assert (d + rest)[1..] == d[1..] + rest;
      RadixRunOfDigits(d[1..], rest);
    } else {
      assert d + rest == rest;
    }
  }

  /** The digit scan reads back the magnitude `BigInt.prototype.toString`
      wrote and stops before the non-alphanumeric text that follows it. */
  lemma ScanDigitsOfDecimal(negative: bool, a: nat, rest: string)
    requires |rest| == 0 || DigitValue(rest[0]) == 36
    ensures ScanDigits(negative, Digits(a) + rest) == Wrappers.Some(IntegerText(negative, a))
  {
    var d := Digits(a);
    var unsigned := d + rest;
    assert !(|unsigned| >= 2 && unsigned[0] == '0' && (unsigned[1] == 'x' || unsigned[1] == 'X')) by {
      if |unsigned| >= 2 && unsigned[0] == '0' {
        assert a == 0;
        assert unsigned[1] == rest[0];
      }
    }
    RadixRunOfDigits(d, rest);
    assert unsigned[..|d|] == d;
    DigitsValue(a);
  }

  /** `parseInt`'s scan reads back the sign and magnitude of what
      `BigInt.prototype.toString` wrote. */
  lemma ScanDecimal(i: int, rest: string)
    requires |rest| == 0 || DigitValue(rest[0]) == 36
    ensures ScanInteger(DecimalString(i) + rest) == Wrappers.Some(IntegerText(i < 0, if i < 0 then -i else i))
  {
    var a: nat := if i < 0 then -i else i;
    var unsigned := Digits(a) + rest;
    assert IsDecimalDigit(unsigned[0]);
    if i < 0 {
      assert DecimalString(i) + rest == "-" + unsigned;
      ScanSigned(unsigned);
    } else {
      assert DecimalString(i) + rest == unsigned;
      ScanUnsigned(unsigned);
    }
    ScanDigitsOfDecimal(i < 0, a, rest);
  }

  lemma ScanSigned(unsigned: string)
    ensures ScanInteger("-" + unsigned) == ScanDigits(true, unsigned)
  {
    assert ("-" + unsigned)[1..] == unsigned;
  }

  lemma ScanUnsigned(unsigned: string)
    requires |unsigned| > 0 && IsDecimalDigit(unsigned[0])
    ensures ScanInteger(unsigned) == ScanDigits(false, unsigned)
  {
  }

  /** `parseInt` reads back what `BigInt.prototype.toString` wrote, up to the
      rounding every Number undergoes, and ignores whatever non-digit text
      follows it, provided that text does not begin with a letter or digit
      (`"0" + "x1"` would read as hexadecimal). */
  lemma ParseIntOfDecimal(i: int, rest: string)
    requires |rest| == 0 || DigitValue(rest[0]) == 36
    ensures ParseInt(DecimalString(i) + rest) == ToNumber(i)
  {
    var text := DecimalString(i) + rest;
    assert !IsStrWhiteSpace(text[0]);
    assert TrimStart(text) == text;
    ScanDecimal(i, rest);
    if i == 0 {
      ToNumberExact(0);
    }
  }

  /** The timestamp round trip: decimal text, then `parseInt`, recovers any
      integer of magnitude at most 2^53 exactly. */
  lemma ParseIntRoundTrip(i: int)
    requires -TwoTo53 <= i <= TwoTo53
    ensures ParseInt(DecimalString(i)) == Finite(i)
  {
    assert DecimalString(i) + "" == DecimalString(i);
    ParseIntOfDecimal(i, "");
    ToNumberExact(i);
  }

  /** Decimal text, then `parseInt`, recovers any multiple of 64 of
      magnitude below 2^59 exactly. */
  lemma ParseIntRoundTripMultiple(i: int)
    requires i % 64 == 0 && -TwoTo59 < i < TwoTo59
    ensures ParseInt(DecimalString(i)) == Finite(i)
  {
    assert DecimalString(i) + "" == DecimalString(i);
    ParseIntOfDecimal(i, "");
    ToNumberExactMultiple(i);
  }

  /** Leading white space is invisible to `parseInt`. */
  lemma {:induction false} ParseIntSkipsWhiteSpace(w: string, s: string)
    requires forall i :: 0 <= i < |w| ==> IsStrWhiteSpace(w[i])
    ensures ParseInt(w + s) == ParseInt(s)
  {
    TrimStartSkips(w, s);
  }

  lemma {:induction false} TrimStartSkips(w: string, s: string)
    requires forall i :: 0 <= i < |w| ==> IsStrWhiteSpace(w[i])
    ensures TrimStart(w + s) == TrimStart(s)
    decreases |w|
  {
    if |w| > 0 {
      assert (w + s)[1..] == w[1..] + s;
      TrimStartSkips(w[1..], s);
    } else {
      assert w + s == s;
    }
  }

  /** Text with no digit after its sign parses to NaN: in particular the
      text of `undefined` does. */
  lemma ParseIntOfUndefined()
    ensures ParseInt("undefined") == NaN
  {
    var u := "undefined";
    assert u[0] == 'u' && DigitValue('u') == 30;
    assert TrimStart(u) == u;
    assert RadixRun(u, 10) == 0;
    assert ScanInteger(u).None?;
  }

  // ---------------------------------------------------------------------
  // Calls that may throw
  // ---------------------------------------------------------------------

  /** A sequence of calls each of which may throw, made in order, as a
      throwing `map` callback or a builder chain makes them: the first
      exception escapes and no later call is made; otherwise every result,
      in order. */
  function Collect<T>(rs: seq<Result<T>>): (r: Result<seq<T>>)
    ensures r.Success? <==> forall i :: 0 <= i < |rs| ==> rs[i].Success?
    ensures r.Success? ==>
      && |r.value| == |rs|
      && forall i :: 0 <= i < |rs| ==> rs[i] == Wrappers.Success(r.value[i])
    ensures r.Failure? ==> exists k :: 0 <= k < |rs| && rs[k].Failure? && r.error == rs[k].error
                                       && forall i :: 0 <= i < k ==> rs[i].Success?
  {
    if |rs| == 0 then Wrappers.Success([])
    else if rs[0].Failure? then Wrappers.Failure(rs[0].error)
    else
      match Collect(rs[1..])
      case Failure(e) =>
        assert forall i :: 1 <= i < |rs| ==> rs[i] == rs[1..][i - 1];
        Wrappers.Failure(e)
      case Success(rest) => Wrappers.Success([rs[0].value] + rest)
  }

  /** The exception that escapes `Collect` is the first one. */
  lemma {:induction false} CollectFirstFailure<T>(rs: seq<Result<T>>, k: nat)
    requires k < |rs| && rs[k].Failure?
    requires forall i :: 0 <= i < k ==> rs[i].Success?
    ensures Collect(rs) == Wrappers.Failure(rs[k].error)
  {
    if k > 0 {
      assert rs[0].Success?;
      assert forall i :: 0 <= i < k - 1 ==> rs[1..][i] == rs[i + 1];
      CollectFirstFailure(rs[1..], k - 1);
    }
  }
}
