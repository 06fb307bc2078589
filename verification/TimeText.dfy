/** Times as text: printing (src/value/time.rs) and parsing (src/assembly/reader.rs).

    Rational numbers are reals here; all the source does with them is exact. */
module TimeText {
  import opened Options

  // ---------------------------------------------------------------- decimal numbers

  function Ten(k: nat): (t: nat)
    ensures t >= 1
  {
    if k == 0 then 1 else 10 * Ten(k - 1)
  }

  /** Move the decimal point by e places. */
  function TenShift(x: real, e: int): real
    decreases if e >= 0 then e else -e
  {
    if e == 0 then x
    else if e > 0 then 10.0 * TenShift(x, e - 1)
    else TenShift(x, e + 1) / 10.0
  }

  /** An integer followed by k zeros. */
  function TimesTen(n: int, k: nat): int {
    if k == 0 then n else 10 * TimesTen(n, k - 1)
  }

  lemma {:induction false} OneTimesTen(k: nat)
    ensures TimesTen(1, k) == Ten(k)
  {
    if k > 0 {
      OneTimesTen(k - 1);
    }
  }

  lemma {:induction false} ShiftUp(n: int, k: nat)
    ensures TenShift(n as real, k) == TimesTen(n, k) as real
    decreases k
  {
    if k > 0 {
      ShiftUp(n, k - 1);
    }
  }

  lemma DivTen(x: real, y: real)
    requires y != 0.0
    ensures x / y / 10.0 == x / (10.0 * y)
  {
    assert x / y / 10.0 * (10.0 * y) == x / y * y == x;
  }

  lemma {:induction false} ShiftDown(x: real, k: nat)
    ensures TenShift(x, 0 - k) == x / Ten(k) as real
    decreases k
  {
    if k > 0 {
      ShiftDown(x, k - 1);
      DivTen(x, Ten(k - 1) as real);
    }
  }

  lemma {:induction false} ShiftTenfold(x: real, k: nat)
    ensures TenShift(10.0 * x, 0 - k) == 10.0 * TenShift(x, 0 - k)
    decreases k
  {
    if k > 0 {
      ShiftTenfold(x, k - 1);
    }
  }

  lemma {:induction false} ShiftBack(x: real, k: nat)
    ensures TenShift(TenShift(x, k), 0 - k) == x
    decreases k
  {
    if k > 0 {
      ShiftBack(x, k - 1);
      ShiftTenfold(TenShift(x, k - 1), k);
    }
  }

  /** Shifting is linear and keeps the sign. */
  lemma {:induction false} ShiftLinear(x: real, y: real, e: int)
    ensures TenShift(x - y, e) == TenShift(x, e) - TenShift(y, e)
    ensures TenShift(x / 2.0, e) == TenShift(x, e) / 2.0
    ensures (x > 0.0 <==> TenShift(x, e) > 0.0) && (x < 0.0 <==> TenShift(x, e) < 0.0)
    decreases if e >= 0 then e else -e
  {
    if e > 0 {
      ShiftLinear(x, y, e - 1);
    } else if e < 0 {
      ShiftLinear(x, y, e + 1);
    }
  }

  predicate IsDigit(c: char) {
    '0' <= c <= '9'
  }

  predicate AllDigits(s: string) {
    s == "" || (IsDigit(s[|s| - 1]) && AllDigits(s[..|s| - 1]))
  }

  lemma {:induction false} DigitAt(s: string, k: nat)
    requires AllDigits(s) && k < |s|
    ensures IsDigit(s[k])
  {
    if k < |s| - 1 {
      DigitAt(s[..|s| - 1], k);
    }
  }

  lemma {:induction false} DigitsBehind(s: string, k: nat)
    requires AllDigits(s) && k <= |s|
    ensures AllDigits(s[k..])
  {
    if k < |s| {
      DigitsBehind(s[..|s| - 1], k);
      assert s[k..][..|s| - k - 1] == s[..|s| - 1][k..];
    }
  }

  lemma {:induction false} DigitsBefore(s: string, k: nat)
    requires AllDigits(s) && k <= |s|
    ensures AllDigits(s[..k])
  {
    if k < |s| {
      DigitsBefore(s[..|s| - 1], k);
      assert s[..|s| - 1][..k] == s[..k];
    } else {
      assert s[..k] == s;
    }
  }

  function Digits(n: nat): (s: string)
    ensures |s| >= 1
  {
    var d := '0' + (n % 10) as char;
    if n < 10 then [d] else Digits(n / 10) + [d]
  }

  lemma {:induction false} DigitsAll(n: nat)
    ensures AllDigits(Digits(n))
  {
    var s := Digits(n);
    if n >= 10 {
      DigitsAll(n / 10);
      assert s[..|s| - 1] == Digits(n / 10);
    } else {
      assert s[..0] == "";
    }
  }

  lemma {:induction false} DigitsLong(n: nat, k: nat)
    requires n >= Ten(k)
    ensures |Digits(n)| > k
    decreases k
  {
    if k > 0 {
      DigitsLong(n / 10, k - 1);
    }
  }

  function Zeros(k: nat): (s: string)
    ensures |s| == k
  {
    seq(k, _ => '0')
  }

  /** Read an integer: an optional sign, then digits. */
  function ParseInt(s: string): Option<int> {
    if s == "" || !IsDigit(s[|s| - 1]) then None else
    var d := (s[|s| - 1] - '0') as int;
    var init := s[..|s| - 1];
    if init == "" || init == "+" then Some(d)
    else if init == "-" then Some(0 - d)
    else
      match ParseInt(init)
      case None => None
      case Some(v) => Some(10 * v + if s[0] == '-' then 0 - d else d)
  }

  function IntText(n: int): (s: string)
    ensures |s| >= 1
  {
    if n < 0 then "-" + Digits(-n) else Digits(n)
  }

  lemma {:induction false} ParseDigits(n: nat)
    ensures ParseInt(Digits(n)) == Some(n)
  {
    var s := Digits(n);
    if n >= 10 {
      ParseDigits(n / 10);
      assert s[..|s| - 1] == Digits(n / 10);
      DigitsAll(n);
      DigitAt(s, 0);
    } else {
      assert s[..0] == "";
    }
  }

  lemma {:induction false} ParseNegative(n: nat)
    ensures ParseInt("-" + Digits(n)) == Some(0 - n)
  {
    var s := "-" + Digits(n);
    if n >= 10 {
      ParseNegative(n / 10);
      assert s[..|s| - 1] == "-" + Digits(n / 10);
    } else {
      assert s[..|s| - 1] == "-";
    }
  }

  lemma ParseIntText(n: int)
    ensures ParseInt(IntText(n)) == Some(n)
  {
    if n < 0 {
      ParseNegative(-n);
    } else {
      ParseDigits(n);
    }
  }

  /** Digits can be appended to a number. */
  lemma {:induction false} ParseIntDigits(s: string, d: string)
    requires ParseInt(s).Some? && AllDigits(d)
    ensures ParseInt(s + d).Some?
    decreases |d|
  {
    if d == "" {
      assert s + d == s;
    } else {
      assert (s + d)[..|s + d| - 1] == s + d[..|d| - 1];
      ParseIntDigits(s, d[..|d| - 1]);
    }
  }

  lemma ZerosInit(s: string, k: nat)
    requires k > 0
    ensures var t := s + Zeros(k); t[|t| - 1] == '0' && t[..|t| - 1] == s + Zeros(k - 1)
  {
  }

  lemma AppendZero(s: string, t: string)
    requires ParseInt(s).Some? && t != "" && t[|t| - 1] == '0' && t[..|t| - 1] == s
    ensures ParseInt(t) == Some(10 * ParseInt(s).value)
  {
  }

  /** Zeros multiply it. */
  lemma {:induction false} ParseIntZeros(s: string, k: nat)
    requires ParseInt(s).Some?
    ensures ParseInt(s + Zeros(k)) == Some(TimesTen(ParseInt(s).value, k))
    decreases k
  {
    if k == 0 {
      assert s + Zeros(0) == s;
    } else {
      ZerosInit(s, k);
      ParseIntZeros(s, k - 1);
      AppendZero(s + Zeros(k - 1), s + Zeros(k));
    }
  }

  // ---------------------------------------------------------------- printing

  const PREFICES: seq<string> := ["", "m", "u", "n", "p", "f", "a"]

  predicate IsInteger(x: real) {
    x == x.Floor as real
  }

  /** Round to the nearest integer, halves away from zero. */
  function Round(x: real): int {
    if x >= 0.0 then (x + 0.5).Floor else -(-x + 0.5).Floor
  }

  /** A number scaled by 1000 for each step of the SI prefix and by ten for each decimal. */
  datatype Scaling = Scaling(scaled: real, prefix: nat, shift: nat)

  function Scale(s: Scaling): (r: Scaling)
    requires s.prefix < |PREFICES| && s.shift <= 9 && s.shift % 3 == 0
    ensures r.prefix < |PREFICES| && r.shift <= 9
    decreases |PREFICES| + 9 - s.prefix - s.shift
  {
    if s.prefix + 1 >= |PREFICES| || s.shift >= 9 then s
    else if s.scaled >= 1.0 then
      if IsInteger(s.scaled) then s else Scale(Scaling(s.scaled * 1000.0, s.prefix, s.shift + 3))
    else Scale(Scaling(s.scaled * 1000.0, s.prefix + 1, s.shift))
  }

  /** Enough digits are left of the decimal point. */
  predicate Printable(s: Scaling) {
    s.prefix < |PREFICES| && s.shift <= 9 && s.shift % 3 == 0 && (s.shift > 0 ==> s.scaled >= Ten(s.shift) as real)
  }

  lemma PrintableStep(s: Scaling)
    requires Printable(s) && s.shift < 9 && s.scaled >= 1.0
    ensures Printable(Scaling(s.scaled * 1000.0, s.prefix, s.shift + 3))
  {
    TenStep(s.shift);
  }

  lemma TenStep(k: nat)
    ensures Ten(k + 3) == 1000 * Ten(k)
  {
    assert Ten(k + 3) == 10 * Ten(k + 2) == 100 * Ten(k + 1);
  }

  lemma {:induction false} ScalePrintable(s: Scaling)
    requires Printable(s)
    ensures Printable(Scale(s))
    decreases |PREFICES| + 9 - s.prefix - s.shift
  {
    if s.prefix + 1 < |PREFICES| && s.shift < 9 {
      if s.scaled >= 1.0 {
        if !IsInteger(s.scaled) {
          PrintableStep(s);
          ScalePrintable(Scaling(s.scaled * 1000.0, s.prefix, s.shift + 3));
        }
      } else {
        ScalePrintable(Scaling(s.scaled * 1000.0, s.prefix + 1, s.shift));
      }
    }
  }

  lemma RoundKeepsDigits(x: real, k: nat)
    requires x >= Ten(k) as real
    ensures Round(x) >= Ten(k) && |IntText(Round(x))| > k
  {
    DigitsLong(Round(x), k);
  }

  /** Put a decimal point before the last `shift` digits. */
  function Pointed(digits: string, shift: nat): string
    requires shift <= |digits|
  {
    if shift == 0 then digits + "." else Pointed(digits[..|digits| - 1], shift - 1) + [digits[|digits| - 1]]
  }

  lemma SplitLast(s: string, n: nat)
    requires n < |s|
    ensures s[..|s| - 1][..n] == s[..n] && s[n..] == s[..|s| - 1][n..] + [s[|s| - 1]]
  {
  }

  lemma {:induction false} PointedSplits(digits: string, shift: nat)
    requires shift <= |digits|
    ensures Pointed(digits, shift) == digits[..|digits| - shift] + "." + digits[|digits| - shift..]
    decreases shift
  {
    if shift > 0 {
      PointedSplits(digits[..|digits| - 1], shift - 1);
      SplitLast(digits, |digits| - shift);
    } else {
      assert digits[..|digits|] == digits && digits[|digits|..] == "";
    }
  }

  function Number(s: Scaling): string
    requires Printable(s)
  {
    var rounded := IntText(Round(s.scaled));
    if s.shift > 0 then
      RoundKeepsDigits(s.scaled, s.shift);
      Pointed(rounded, s.shift)
    else rounded
  }

  function Render(s: Scaling): string
    requires Printable(s)
  {
    Suffixed(Number(s), s.prefix)
  }

  function Suffixed(number: string, prefix: nat): string
    requires prefix < |PREFICES|
  {
    number + PREFICES[prefix] + "s"
  }

  /** The text of a time. */
  function TimeText(ratio: real): string {
    if ratio == 0.0 then "0s" else
    ScalePrintable(Scaling(ratio, 0, 0));
    Render(Scale(Scaling(ratio, 0, 0)))
  }

  /** The printing loop never runs off the digits. */
  method WriteRatioAsSi(ratio: real) returns (text: string)
    ensures text == TimeText(ratio)
  {
    if ratio == 0.0 {
      return "0s";
    }
    var scaled, prefix, shift := ratio, 0, 0;
    while prefix + 1 < |PREFICES| && shift < 9
      invariant Printable(Scaling(scaled, prefix, shift))
      invariant Scale(Scaling(scaled, prefix, shift)) == Scale(Scaling(ratio, 0, 0))
      decreases |PREFICES| + 9 - prefix - shift
    {
      if scaled >= 1.0 {
        if IsInteger(scaled) {
          break;
        } else {
          PrintableStep(Scaling(scaled, prefix, shift));
          shift := shift + 3;
        }
      } else {
        assert Ten(shift) >= 1;
        prefix := prefix + 1;
      }
      scaled := scaled * 1000.0;
    }
    var rounded := IntText(Round(scaled));
    if shift > 0 {
      RoundKeepsDigits(scaled, shift);
      PointedSplits(rounded, shift);
      text := rounded[..|rounded| - shift] + "." + rounded[|rounded| - shift..] + PREFICES[prefix] + "s";
    } else {
      text := rounded + PREFICES[prefix] + "s";
    }
  }

  // ---------------------------------------------------------------- parsing

  function Exponent(c: char): Option<int> {
    match c
    case 'a' => Some(-18)
    case 'f' => Some(-15)
    case 'p' => Some(-12)
    case 'n' => Some(-9)
    case 'u' => Some(-6)
    case 'm' => Some(-3)
    case 'k' => Some(3)
    case 'M' => Some(6)
    case 'G' => Some(9)
    case 'T' => Some(12)
    case 'P' => Some(15)
    case 'E' => Some(18)
    case _ => None
  }

  /** What precedes the first decimal point. */
  function BeforePoint(s: string): string {
    if s == "" || s[0] == '.' then "" else [s[0]] + BeforePoint(s[1..])
  }

  /** What precedes the first decimal point, and what is between it and the second. */
  function SplitPoint(s: string): (string, Option<string>) {
    if s == "" then ("", None)
    else if s[0] == '.' then ("", Some(BeforePoint(s[1..])))
    else
      var (whole, frac) := SplitPoint(s[1..]);
      ([s[0]] + whole, frac)
  }

  /** The SI exponent of a time and the number before it. */
  function SplitScale(time: string): (int, string)
    requires |time| >= 2
  {
    var body := time[..|time| - 1];
    match Exponent(body[|body| - 1])
    case Some(e) => (e, body[..|body| - 1])
    case None => (0, body)
  }

  /** A number as the lexer accepts it: a sign, digits, and possibly a point and more digits. */
  predicate IsDecimal(s: string) {
    var (whole, frac) := SplitPoint(s);
    && ParseInt(whole).Some?
    && (frac.Some? ==> frac.value != "" && AllDigits(frac.value) && s == whole + "." + frac.value)
  }

  /** A time as the lexer accepts it. */
  predicate IsTime(time: string) {
    |time| >= 2 && time[|time| - 1] == 's' && IsDecimal(SplitScale(time).1)
  }

  /** A count of delta or epsilon steps as the lexer accepts it. */
  predicate IsSteps(steps: Option<string>, unit: char) {
    match steps
    case None => true
    case Some(s) => |s| >= 2 && s[|s| - 1] == unit && AllDigits(s[..|s| - 1])
  }

  lemma {:induction false} DigitsParse(s: string)
    requires AllDigits(s) && s != ""
    ensures ParseInt(s).Some? && ParseInt(s).value >= 0
  {
    if |s| > 1 {
      DigitsParse(s[..|s| - 1]);
      DigitAt(s, 0);
    } else {
      assert s[..0] == "";
    }
  }

  function StepsMeaning(steps: Option<string>, unit: char): nat
    requires IsSteps(steps, unit)
  {
    match steps
    case None => 0
    case Some(s) =>
      DigitsParse(s[..|s| - 1]);
      ParseInt(s[..|s| - 1]).value
  }

  /** All digits of a number. */
  function Mantissa(number: string): (m: string)
    requires IsDecimal(number)
    ensures ParseInt(m).Some?
  {
    var (whole, frac) := SplitPoint(number);
    match frac
    case None => whole
    case Some(f) =>
      ParseIntDigits(whole, f);
      whole + f
  }

  /** The number of digits behind the point. */
  function Decimals(number: string): nat {
    match SplitPoint(number).1
    case None => 0
    case Some(f) => |f|
  }

  /** The digits of a time as an integer, and the power of ten that moves them by SI prefix
      and decimals. */
  function Scientific(time: string): (int, int)
    requires IsTime(time)
  {
    var (scale, number) := SplitScale(time);
    (ParseInt(Mantissa(number)).value, scale - Decimals(number))
  }

  /** What a time means. */
  function Meaning(time: string): real
    requires IsTime(time)
  {
    TenShift(Scientific(time).0 as real, Scientific(time).1)
  }

  /** Zeros appended to a numerator move its point up. */
  lemma ScaledUp(numer: string, k: nat)
    requires ParseInt(numer).Some?
    ensures ParseInt(numer + Zeros(k)).Some?
    ensures ParseInt(numer + Zeros(k)).value as real == TenShift(ParseInt(numer).value as real, k)
  {
    ParseIntZeros(numer, k);
    ShiftUp(ParseInt(numer).value, k);
  }

  /** Zeros appended to the denominator move the point down. */
  lemma ScaledDown(x: real, k: nat)
    ensures ParseInt("1" + Zeros(k)) == Some(Ten(k))
    ensures x / Ten(k) as real == TenShift(x, 0 - k)
  {
    ParseDigits(1);
    ParseIntZeros("1", k);
    OneTimesTen(k);
    ShiftDown(x, k);
  }

  /** The number times a power of ten, by zeros appended to the numerator or the denominator. */
  method Rational(mantissa: string, zeros: int) returns (v: real)
    requires ParseInt(mantissa).Some?
    ensures v == TenShift(ParseInt(mantissa).value as real, zeros)
  {
    var numer, denom := mantissa, "1";
    ParseDigits(1);
    if zeros < 0 {
      ScaledDown(ParseInt(mantissa).value as real, -zeros);
      denom := denom + Zeros(-zeros);
    } else if zeros > 0 {
      ScaledUp(mantissa, zeros);
      numer := numer + Zeros(zeros);
    }
    v := ParseInt(numer).value as real / ParseInt(denom).value as real;
  }

  /** Parse a time with its delta and epsilon steps. */
  method ParseTimeTriple(time: string, delta: Option<string>, epsilon: Option<string>) returns (v: real, d: nat, e: nat)
    requires IsTime(time) && IsSteps(delta, 'd') && IsSteps(epsilon, 'e')
    ensures v == Meaning(time) && d == StepsMeaning(delta, 'd') && e == StepsMeaning(epsilon, 'e')
  {
    var (scale, number) := SplitScale(time);
    var (whole, frac) := SplitPoint(number);
    var numer := whole;
    var zeros := scale;
    if frac.Some? {
      numer := numer + frac.value;
      zeros := scale - |frac.value|;
    }
    assert numer == Mantissa(number) && zeros == scale - Decimals(number);
    v := Rational(numer, zeros);
    d := StepsMeaning(delta, 'd');
    e := StepsMeaning(epsilon, 'e');
  }

  // ---------------------------------------------------------------- reading what was printed

  lemma PrefixExponent(prefix: nat)
    requires 0 < prefix < |PREFICES|
    ensures |PREFICES[prefix]| == 1 && Exponent(PREFICES[prefix][0]) == Some(-3 * prefix)
  {
  }

  lemma SplitScaleOf(number: string, prefix: nat)
    requires number != "" && IsDigit(number[|number| - 1]) && prefix < |PREFICES|
    ensures var text := Suffixed(number, prefix);
      |text| >= 2 && text[|text| - 1] == 's' && SplitScale(text) == (-3 * prefix, number)
  {
    var text := Suffixed(number, prefix);
    assert text[..|text| - 1] == number + PREFICES[prefix];
    if prefix == 0 {
      assert number + PREFICES[0] == number;
    } else {
      PrefixExponent(prefix);
      assert (number + PREFICES[prefix])[..|number|] == number;
    }
  }

  lemma {:induction false} BeforeNoPoint(s: string)
    requires AllDigits(s)
    ensures BeforePoint(s) == s
  {
    if s != "" {
      DigitAt(s, 0);
      DigitsBehind(s, 1);
      BeforeNoPoint(s[1..]);
      assert s == [s[0]] + s[1..];
    }
  }

  lemma {:induction false} SplitPointNone(s: string)
    requires AllDigits(s)
    ensures SplitPoint(s) == (s, None)
  {
    if s != "" {
      DigitAt(s, 0);
      DigitsBehind(s, 1);
      SplitPointNone(s[1..]);
      assert s == [s[0]] + s[1..];
    }
  }

  lemma {:induction false} SplitPointOf(whole: string, frac: string)
    requires AllDigits(whole) && AllDigits(frac)
    ensures SplitPoint(whole + "." + frac) == (whole, Some(frac))
    decreases |whole|
  {
    var s := whole + "." + frac;
    if whole == "" {
      assert s[1..] == frac;
      BeforeNoPoint(frac);
    } else {
      DigitAt(whole, 0);
      DigitsBehind(whole, 1);
      assert s[1..] == whole[1..] + "." + frac;
      SplitPointOf(whole[1..], frac);
      assert whole == [s[0]] + whole[1..];
    }
  }

  /** Digits with a point among them. */
  lemma PointedDecimal(digits: string, shift: nat)
    requires AllDigits(digits) && 0 < shift < |digits|
    ensures var number := Pointed(digits, shift);
      IsDecimal(number) && Mantissa(number) == digits && Decimals(number) == shift && IsDigit(number[|number| - 1])
  {
    PointedSplits(digits, shift);
    var whole, frac := digits[..|digits| - shift], digits[|digits| - shift..];
    DigitsBefore(digits, |digits| - shift);
    DigitsBehind(digits, |digits| - shift);
    SplitPointOf(whole, frac);
    DigitsParse(whole);
    assert whole + frac == digits;
    LastOf(whole + ".", frac);
  }

  lemma LastOf(s: string, t: string)
    requires t != ""
    ensures (s + t)[|s + t| - 1] == t[|t| - 1]
  {
  }

  lemma PlainDecimal(n: int)
    ensures IsDecimal(IntText(n)) && Mantissa(IntText(n)) == IntText(n) && Decimals(IntText(n)) == 0
    ensures IsDigit(IntText(n)[|IntText(n)| - 1])
  {
    ParseIntText(n);
    if n >= 0 {
      DigitsAll(n);
      SplitPointNone(Digits(n));
    } else {
      DigitsAll(-n);
      SplitPointNone(Digits(-n));
      assert IntText(n)[1..] == Digits(-n);
    }
  }

  /** A number that the lexer accepts, with its digits and its decimals. */
  predicate Reads(number: string, n: int, shift: nat) {
    IsDecimal(number) && IsDigit(number[|number| - 1]) && ParseInt(Mantissa(number)) == Some(n)
      && Decimals(number) == shift
  }

  predicate ReadsTime(time: string, n: int, e: int) {
    IsTime(time) && Scientific(time) == (n, e)
  }

  lemma TimeOf(number: string, prefix: nat, n: int, shift: nat, e: int)
    requires Reads(number, n, shift) && prefix < |PREFICES| && e == -3 * prefix - shift
    ensures ReadsTime(Suffixed(number, prefix), n, e)
  {
    SplitScaleOf(number, prefix);
  }

  lemma NumberReads(s: Scaling)
    requires Printable(s)
    ensures Reads(Number(s), Round(s.scaled), s.shift) && Render(s) == Suffixed(Number(s), s.prefix)
  {
    ParseIntText(Round(s.scaled));
    if s.shift > 0 {
      RoundKeepsDigits(s.scaled, s.shift);
      DigitsAll(Round(s.scaled));
      PointedDecimal(IntText(Round(s.scaled)), s.shift);
    } else {
      PlainDecimal(Round(s.scaled));
    }
  }

  /** The printed text is a time, namely the rounded number of units. */
  lemma RenderMeaning(s: Scaling, e: int)
    requires Printable(s) && e == -3 * s.prefix - s.shift
    ensures ReadsTime(Render(s), Round(s.scaled), e)
  {
    NumberReads(s);
    TimeOf(Number(s), s.prefix, Round(s.scaled), s.shift, e);
  }

  // ---------------------------------------------------------------- the error

  /** The scaled number is the ratio in units of the last printed place. */
  predicate InUnits(ratio: real, s: Scaling) {
    s.scaled == TenShift(ratio, 3 * s.prefix + s.shift)
  }

  lemma StepInUnits(ratio: real, s: Scaling, r: Scaling)
    requires InUnits(ratio, s) && r.scaled == s.scaled * 1000.0 && 3 * r.prefix + r.shift == 3 * s.prefix + s.shift + 3
    ensures InUnits(ratio, r)
  {
    var k := 3 * s.prefix + s.shift;
    assert TenShift(ratio, k + 1) == 10.0 * TenShift(ratio, k);
    assert TenShift(ratio, k + 2) == 10.0 * TenShift(ratio, k + 1);
    assert TenShift(ratio, k + 3) == 10.0 * TenShift(ratio, k + 2);
  }

  lemma {:induction false} ScaleInUnits(ratio: real, s: Scaling)
    requires s.prefix < |PREFICES| && s.shift <= 9 && s.shift % 3 == 0 && InUnits(ratio, s)
    ensures InUnits(ratio, Scale(s))
    decreases |PREFICES| + 9 - s.prefix - s.shift
  {
    if s.prefix + 1 < |PREFICES| && s.shift < 9 && !(s.scaled >= 1.0 && IsInteger(s.scaled)) {
      var r := if s.scaled >= 1.0 then Scaling(s.scaled * 1000.0, s.prefix, s.shift + 3)
        else Scaling(s.scaled * 1000.0, s.prefix + 1, s.shift);
      StepInUnits(ratio, s, r);
      ScaleInUnits(ratio, r);
    }
  }

  lemma RoundError(x: real)
    ensures -0.5 <= Round(x) as real - x <= 0.5 && (Round(x) as real == x <==> IsInteger(x))
  {
    if x >= 0.0 {
      FloorHalf(x, x.Floor, (x + 0.5).Floor);
    } else {
      FloorHalf(-x, (-x).Floor, (-x + 0.5).Floor);
      FloorNegated(x, x.Floor, (-x).Floor);
    }
  }

  lemma Order(a: int, b: int)
    ensures a <= b <==> a as real <= b as real
    ensures (a + b) as real == a as real + b as real && (0 - a) as real == 0.0 - a as real
  {
  }

  lemma FloorHalf(x: real, f: int, r: int)
    requires f as real <= x < f as real + 1.0 && r as real <= x + 0.5 < r as real + 1.0
    ensures -0.5 <= r as real - x <= 0.5 && (r as real == x <==> f as real == x)
  {
    Order(f, 1);
    Order(r, 1);
    if r < f {
      Order(r + 1, f);
    } else if r > f + 1 {
      Order(f + 1, 1);
      Order(f + 2, r);
    }
  }

  lemma FloorNegated(x: real, f: int, g: int)
    requires f as real <= x < f as real + 1.0 && g as real <= -x < g as real + 1.0
    ensures x == f as real <==> -x == g as real
  {
    Order(f, g);
    Order(0, f + g);
    Order(f + g, 0);
    Order(f + g, -1);
    Order(0, f + g + 1);
  }

  /** The scaling that is printed. */
  function Printed(ratio: real): (s: Scaling)
    ensures Printable(s)
  {
    ScalePrintable(Scaling(ratio, 0, 0));
    Scale(Scaling(ratio, 0, 0))
  }

  /** The exponent of the last place printed for a time. */
  function LastPlace(ratio: real): int {
    -3 * Printed(ratio).prefix - Printed(ratio).shift
  }

  /** The unit of the last place printed for a time. */
  function Unit(ratio: real): real {
    TenShift(1.0, LastPlace(ratio))
  }

  lemma TextReads(ratio: real)
    requires ratio != 0.0
    ensures ReadsTime(TimeText(ratio), Round(Printed(ratio).scaled), LastPlace(ratio))
  {
    TextIsRender(ratio);
    RenderMeaning(Printed(ratio), LastPlace(ratio));
  }

  lemma TextIsRender(ratio: real)
    requires ratio != 0.0
    ensures TimeText(ratio) == Render(Printed(ratio))
      && LastPlace(ratio) == -3 * Printed(ratio).prefix - Printed(ratio).shift
  {
  }

  lemma MeaningOf(time: string, n: int, e: int)
    requires ReadsTime(time, n, e)
    ensures Meaning(time) == TenShift(n as real, e)
  {
  }

  /** A parsed time is at most half a unit off, and exact only for a whole number of units. */
  predicate Near(parsed: real, ratio: real, unit: real, whole: bool) {
    -unit / 2.0 <= parsed - ratio <= unit / 2.0 && (parsed == ratio <==> whole)
  }

  lemma NearZero()
    ensures IsTime(TimeText(0.0)) && Near(Meaning(TimeText(0.0)), 0.0, Unit(0.0), IsInteger(Printed(0.0).scaled))
  {
    ZeroText();
    ScaleZero(Scaling(0.0, 0, 0));
    ShiftLinear(1.0, 0.0, LastPlace(0.0));
  }

  lemma NearNonzero(ratio: real)
    requires ratio != 0.0
    ensures IsTime(TimeText(ratio)) && Near(Meaning(TimeText(ratio)), ratio, Unit(ratio),
      IsInteger(Printed(ratio).scaled))
  {
    TextReads(ratio);
    MeaningOf(TimeText(ratio), Round(Printed(ratio).scaled), LastPlace(ratio));
    NearRounded(ratio, LastPlace(ratio));
  }

  lemma NearRounded(ratio: real, e: int)
    requires e == LastPlace(ratio)
    ensures Near(TenShift(Round(Printed(ratio).scaled) as real, e), ratio, Unit(ratio),
      IsInteger(Printed(ratio).scaled))
  {
    ScaleInUnits(ratio, Scaling(ratio, 0, 0));
    RoundedUnits(ratio, Printed(ratio), e);
  }

  /** What is parsed from a printed time is at most half a unit of the last printed place
      off, and exact if and only if the printer stopped on an integer. */
  lemma PrintParse(ratio: real)
    ensures IsTime(TimeText(ratio))
    ensures Near(Meaning(TimeText(ratio)), ratio, Unit(ratio), IsInteger(Printed(ratio).scaled))
  {
    if ratio == 0.0 {
      NearZero();
    } else {
      NearNonzero(ratio);
    }
  }

  lemma RoundedUnits(ratio: real, s: Scaling, e: int)
    requires InUnits(ratio, s) && e == -3 * s.prefix - s.shift
    ensures Near(TenShift(Round(s.scaled) as real, e), ratio, TenShift(1.0, e), IsInteger(s.scaled))
  {
    var n := Round(s.scaled) as real;
    RoundError(s.scaled);
    ShiftBack(ratio, 3 * s.prefix + s.shift);
    ShiftLinear(n, s.scaled, e);
    ShiftLinear(n - s.scaled, 0.5, e);
    ShiftLinear(n - s.scaled, -0.5, e);
    ShiftLinear(n - s.scaled - 0.5, 0.0, e);
    ShiftLinear(n - s.scaled + 0.5, 0.0, e);
    ShiftLinear(1.0, 0.0, e);
    ShiftLinear(0.0, 0.5, e);
  }

  lemma {:induction false} ScaleZero(s: Scaling)
    requires s.prefix < |PREFICES| && s.shift == 0 && s.scaled == 0.0
    ensures Scale(s).scaled == 0.0 && Round(Scale(s).scaled) == 0
    decreases |PREFICES| - s.prefix
  {
    if s.prefix + 1 < |PREFICES| {
      ScaleZero(Scaling(s.scaled * 1000.0, s.prefix + 1, 0));
    }
  }

  lemma ZeroText()
    ensures IsTime("0s") && Meaning("0s") == 0.0
  {
    PlainDecimal(0);
    ParseIntText(0);
    assert "0s" == IntText(0) + PREFICES[0] + "s";
    TimeOf(IntText(0), 0, 0, 0, 0);
  }

  // ---------------------------------------------------------------- which times survive

  /** The finest decimal place that can be printed: nine behind the first SI prefix that
      leaves at least one unit, or whole attoseconds. */
  function FinestFrom(scaled: real, prefix: nat): (k: nat)
    requires prefix < |PREFICES|
    ensures k >= 3 * prefix
    decreases |PREFICES| - prefix
  {
    if prefix + 1 >= |PREFICES| then 3 * prefix
    else if scaled >= 1.0 then 3 * prefix + 9
    else FinestFrom(scaled * 1000.0, prefix + 1)
  }

  function Finest(ratio: real): nat {
    FinestFrom(ratio, 0)
  }

  lemma {:induction false} IntegerShift(x: real, k: nat)
    requires IsInteger(x)
    ensures IsInteger(TenShift(x, k))
    decreases k
  {
    if k > 0 {
      IntegerShift(x, k - 1);
      var y := TenShift(x, k - 1);
      IntegerTenfold(y, y.Floor);
    }
  }

  lemma IntegerTenfold(y: real, f: int)
    requires y == f as real
    ensures IsInteger(10.0 * y)
  {
    assert 10.0 * y == (10 * f) as real;
  }

  lemma {:induction false} ShiftThousand(x: real, k: nat)
    ensures TenShift(x * 1000.0, k) == TenShift(x, k + 3)
    decreases k
  {
    if k > 0 {
      ShiftThousand(x, k - 1);
    } else {
      assert TenShift(x, 1) == 10.0 * x && TenShift(x, 2) == 10.0 * TenShift(x, 1)
        && TenShift(x, 3) == 10.0 * TenShift(x, 2);
    }
  }

  lemma {:induction false} DecimalsExact(s: Scaling)
    requires s.prefix + 1 < |PREFICES| && s.shift <= 9 && s.shift % 3 == 0 && s.scaled >= 1.0
    ensures IsInteger(Scale(s).scaled) <==> IsInteger(TenShift(s.scaled, 9 - s.shift))
    decreases 9 - s.shift
  {
    if s.shift < 9 {
      if IsInteger(s.scaled) {
        IntegerShift(s.scaled, 9 - s.shift);
      } else {
        DecimalsExact(Scaling(s.scaled * 1000.0, s.prefix, s.shift + 3));
        ShiftThousand(s.scaled, 6 - s.shift);
      }
    }
  }

  lemma {:induction false} PrefixExact(s: Scaling)
    requires s.prefix < |PREFICES| && s.shift == 0
    ensures IsInteger(Scale(s).scaled) <==> IsInteger(TenShift(s.scaled, FinestFrom(s.scaled, s.prefix) - 3 * s.prefix))
    decreases |PREFICES| - s.prefix
  {
    if s.prefix + 1 < |PREFICES| {
      if s.scaled >= 1.0 {
        DecimalsExact(s);
      } else {
        var r := Scaling(s.scaled * 1000.0, s.prefix + 1, 0);
        PrefixExact(r);
        ShiftThousand(s.scaled, FinestFrom(r.scaled, r.prefix) - 3 * r.prefix);
      }
    }
  }

  /** A time survives printing and parsing if and only if it is a multiple of the finest
      place that can be printed for it. */
  lemma SurvivesPrinting(ratio: real)
    ensures IsTime(TimeText(ratio))
    ensures Meaning(TimeText(ratio)) == ratio <==> IsInteger(TenShift(ratio, Finest(ratio)))
  {
    PrintParse(ratio);
    PrefixExact(Scaling(ratio, 0, 0));
  }

  /** The text of delta or epsilon steps; nothing is printed for zero. */
  function StepsText(n: nat, unit: char): Option<string> {
    if n == 0 then None else Some(Digits(n) + [unit])
  }

  lemma StepsSurvive(n: nat, unit: char)
    ensures IsSteps(StepsText(n, unit), unit) && StepsMeaning(StepsText(n, unit), unit) == n
  {
    if n > 0 {
      var s := Digits(n) + [unit];
      DigitsAll(n);
      assert s[..|s| - 1] == Digits(n);
      ParseDigits(n);
    }
  }
}
