// Reading a timestamp in seconds as a 64-bit number of milliseconds (rwrulefmt/model/time.go).
module Timestamps {
  import opened Words
  import opened Decimal

  const SECOND: int := 1000
  // dotPrecision: the number of digits after the dot that count.
  const PRECISION: nat := 3

  function FirstDot(s: string): (d: nat)
    ensures d <= |s| && (d < |s| ==> s[d] == '.') && forall i :: 0 <= i < d ==> s[i] != '.'
  {
    if s == "" || s[0] == '.' then 0 else 1 + FirstDot(s[1..])
  }

  // strings.Split at the dots.
  function Split(s: string): (p: seq<string>)
    ensures p != []
  {
    var d := FirstDot(s);
    if d == |s| then [s] else [s[..d]] + Split(s[d + 1..])
  }

  // strconv.ParseInt in base 10; `bound` is 2 to the number of bits less one.
  function ParseInt(s: string, bound: nat): Option<int> {
    var signed := s != "" && (s[0] == '-' || s[0] == '+');
    var digits := if signed then s[1..] else s;
    if digits == "" || !AllDigits(digits) then None
    else
      var v: int := if s[0] == '-' then 0 - Value(digits) else Value(digits);
      if 0 - bound <= v < bound then Some(v) else None
  }

  // Two's complement arithmetic on int64.
  function Wrap(x: int): (w: int64)
    ensures MIN_INT64 <= x <= MAX_INT64 ==> w as int == x
    ensures (x - w as int) % 0x1_0000_0000_0000_0000 == 0
  {
    ((x + 0x8000_0000_0000_0000) % 0x1_0000_0000_0000_0000 - 0x8000_0000_0000_0000) as int64
  }

  // A fraction cut or padded to three digits.
  function ToPrecision(s: string): (r: string)
    ensures |r| == PRECISION
  {
    if |s| > PRECISION then s[..PRECISION] else s + seq(PRECISION - |s|, _ => '0')
  }

  function Read(b: string): Option<int64> {
    var p := Split(b);
    var v := ParseInt(p[0], 0x8000_0000_0000_0000);
    if |p| > 2 || v.None? then None
    else if |p| == 1 then Some(Wrap(v.value * SECOND))
    else
      var va := ParseInt(ToPrecision(p[1]), 0x8000_0000);
      if va.None? then None
      else
        var sum := Wrap(Wrap(v.value * SECOND) as int + va.value);
        if p[0] != "" && p[0][0] == '-' && sum > 0 then Some(-sum) else Some(sum)
  }

  class Time {
    var t: int64

    // UnmarshalJSON
    method UnmarshalJSON(b: string) returns (ok: bool)
      modifies this
      ensures ok <==> Read(b).Some?
      ensures t == if ok then Read(b).value else old(t)
    {
      var p := Split(b);
      if |p| == 1 {
        var v := ParseInt(p[0], 0x8000_0000_0000_0000);
        if v.None? {
          return false;
        }
        t := Wrap(v.value * SECOND);
      } else if |p| == 2 {
        var v := ParseInt(p[0], 0x8000_0000_0000_0000);
        if v.None? {
          return false;
        }
        var seconds := Wrap(v.value * SECOND);
        var va := ParseInt(ToPrecision(p[1]), 0x8000_0000);
        if va.None? {
          return false;
        }
        var sum := Wrap(seconds as int + va.value);
        if p[0] != "" && p[0][0] == '-' && sum > 0 {
          t := sum * -1;
        } else {
          t := sum;
        }
      } else {
        return false;
      }
      return true;
    }
  }

  // ---------------------------------------------------------------------------------------
  // What the text means
  // ---------------------------------------------------------------------------------------

  function Pow10(n: nat): (p: nat)
    ensures p > 0
  {
    if n == 0 then 1 else 10 * Pow10(n - 1)
  }

  // Well-formed decimal seconds.
  datatype Seconds = Seconds(negative: bool, whole: string, fraction: Option<string>)

  predicate IsSeconds(s: Seconds) {
    s.whole != "" && AllDigits(s.whole) && (s.fraction.Some? ==> AllDigits(s.fraction.value))
  }

  function Text(s: Seconds): string {
    (if s.negative then "-" else "") + s.whole + (if s.fraction.Some? then "." + s.fraction.value else "")
  }

  function Digits(s: Seconds): string { if s.fraction.Some? then s.fraction.value else "" }

  // The milliseconds of the magnitude: all the digits, read as one number and scaled, cut to a
  // whole number.
  function Magnitude(s: Seconds): nat
    requires IsSeconds(s)
  {
    AllTogether(s.whole, Digits(s));
    Quotient(Value(s.whole + Digits(s)) * SECOND, Pow10(|Digits(s)|))
  }

  function Quotient(a: nat, b: nat): (q: nat)
    requires b > 0
  {
    QuotientNotBigger(a, b);
    a / b
  }

  // Truncated toward zero.
  function Meaning(s: Seconds): int
    requires IsSeconds(s)
  {
    if s.negative then 0 - Magnitude(s) else Magnitude(s)
  }

  lemma AllTogether(a: string, b: string)
    requires AllDigits(a) && AllDigits(b)
    ensures AllDigits(a + b)
  {
  }

  lemma Shifted(a: nat, p: nat, b: nat, d: nat)
    ensures 10 * (a * p + b) + d == a * (10 * p) + (10 * b + d)
  {
  }

  lemma {:induction false} ValueConcat(a: string, b: string)
    requires AllDigits(a) && AllDigits(b)
    ensures AllDigits(a + b) && Value(a + b) == Value(a) * Pow10(|b|) + Value(b)
  {
    AllTogether(a, b);
    if b == "" {
      assert a + b == a;
    } else {
      var n := |b| - 1;
      ValueConcat(a, b[..n]);
      assert (a + b)[..|a + b| - 1] == a + b[..n];
      Shifted(Value(a), Pow10(n), Value(b[..n]), Digit(b[n]));
    }
  }

  lemma {:induction false} ValueBelow(s: string)
    requires AllDigits(s)
    ensures Value(s) < Pow10(|s|)
  {
    if s != "" {
      ValueBelow(s[..|s| - 1]);
    }
  }

  lemma {:induction false} PowSum(m: nat, n: nat)
    ensures Pow10(m + n) == Pow10(m) * Pow10(n)
  {
    if m > 0 {
      PowSum(m - 1, n);
      assert Pow10(m + n) == 10 * (Pow10(m - 1) * Pow10(n)) == Pow10(m) * Pow10(n);
    }
  }

  lemma {:induction false} Zeros(n: nat)
    ensures AllDigits(seq(n, _ => '0')) && Value(seq(n, _ => '0')) == 0
  {
    if n > 0 {
      Zeros(n - 1);
      assert seq(n, _ => '0')[..n - 1] == seq(n - 1, _ => '0');
    }
  }

  lemma QuotientIs(a: nat, b: nat, q: nat, r: nat)
    requires b > 0 && a == q * b + r && r < b
    ensures Quotient(a, b) == q
  {
    var k := a / b - q;
    assert a == (a / b) * b + a % b;
    assert k * b == r - a % b;
    assert k >= 1 ==> k * b >= b;
    assert k <= -1 ==> k * b + b <= 0;
  }

  // The three digits read are the milliseconds of the fraction.
  lemma MagnitudeIs(s: Seconds)
    requires IsSeconds(s)
    ensures AllDigits(ToPrecision(Digits(s)))
    ensures Magnitude(s) == Value(s.whole) * SECOND + Value(ToPrecision(Digits(s)))
  {
    var w, f := s.whole, Digits(s);
    ValueConcat(w, f);
    PowersOfTen();
    if |f| > PRECISION {
      var head, tail := f[..PRECISION], f[PRECISION..];
      assert f == head + tail;
      ValueConcat(head, tail);
      ValueBelow(tail);
      PowSum(PRECISION, |tail|);
      LongFraction(Value(w), Value(head), Value(tail), Pow10(|tail|));
    } else {
      Zeros(PRECISION - |f|);
      ValueConcat(f, seq(PRECISION - |f|, _ => '0'));
      PowSum(|f|, PRECISION - |f|);
      ShortFraction(Value(w), Value(f), Pow10(|f|), Pow10(PRECISION - |f|));
    }
  }

  lemma PowersOfTen()
    ensures Pow10(0) == 1 && Pow10(1) == 10 && Pow10(2) == 100 && Pow10(3) == 1000
  {
  }

  lemma LongFraction(w: nat, head: nat, tail: nat, scale: nat)
    requires tail < scale
    ensures Quotient((w * (SECOND * scale) + (head * scale + tail)) * SECOND, SECOND * scale) == w * SECOND + head
  {
    QuotientIs((w * (SECOND * scale) + (head * scale + tail)) * SECOND, SECOND * scale, w * SECOND + head,
          tail * SECOND);
  }

  lemma ShortFraction(w: nat, f: nat, scale: nat, rest: nat)
    requires scale > 0 && scale * rest == SECOND
    ensures Quotient((w * scale + f) * SECOND, scale) == w * SECOND + f * rest
  {
    calc {
      (w * scale + f) * SECOND;
      w * scale * SECOND + f * (scale * rest);
      (w * SECOND + f * rest) * scale + 0;
    }
    QuotientIs((w * scale + f) * SECOND, scale, w * SECOND + f * rest, 0);
  }

  // ---------------------------------------------------------------------------------------
  // What is read
  // ---------------------------------------------------------------------------------------

  lemma {:induction false} SplitOnce(pre: string, rest: string)
    requires AllDigits(rest) && forall i :: 0 <= i < |pre| ==> pre[i] != '.'
    ensures Split(pre) == [pre] && Split(pre + "." + rest) == [pre, rest]
  {
    var b := pre + "." + rest;
    assert FirstDot(pre) == |pre| && FirstDot(rest) == |rest|;
    assert b[|pre|] == '.' && forall i :: 0 <= i < |pre| ==> b[i] == pre[i];
    assert FirstDot(b) == |pre|;
    assert b[..|pre|] == pre && b[|pre| + 1..] == rest;
  }

  lemma {:induction false} SignedInt(whole: string, negative: bool, bound: nat)
    requires whole != "" && AllDigits(whole)
    ensures var v: int := if negative then 0 - Value(whole) else Value(whole);
            ParseInt((if negative then "-" else "") + whole, bound) == if 0 - bound <= v < bound then Some(v) else None
  {
    hide Value;
    assert IsDigit(whole[0]);
    if negative {
      assert ("-" + whole)[1..] == whole;
    } else {
      assert "" + whole == whole;
    }
  }

  // ---------------------------------------------------------------------------------------
  // What is accepted
  // ---------------------------------------------------------------------------------------

  // Digits with or without a sign.
  ghost predicate IsSigned(s: string, sign: string, digits: string, v: int) {
    && s == sign + digits && (sign == "" || sign == "+" || sign == "-") && digits != "" && AllDigits(digits)
    && v == if sign == "-" then 0 - Value(digits) else Value(digits)
  }

  ghost predicate IsInteger(s: string, v: int) { exists sign, digits :: IsSigned(s, sign, digits, v) }

  lemma SignedIsParsed(s: string, sign: string, digits: string, v: int, bound: nat)
    requires IsSigned(s, sign, digits, v)
    ensures ParseInt(s, bound) == if 0 - bound <= v < bound then Some(v) else None
  {
    hide Value;
    assert IsDigit(digits[0]);
    if sign == "" {
      assert s == digits;
    } else {
      assert s[0] == sign[0] && s[1..] == digits;
    }
  }

  lemma ParsedIsSigned(s: string, bound: nat) returns (sign: string, digits: string)
    requires ParseInt(s, bound).Some?
    ensures IsSigned(s, sign, digits, ParseInt(s, bound).value)
  {
    hide Value;
    if s[0] == '-' || s[0] == '+' {
      sign, digits := [s[0]], s[1..];
    } else {
      sign, digits := "", s;
    }
    assert s == sign + digits;
  }

  lemma ParseIntMeaning(s: string, bound: nat)
    ensures forall v :: ParseInt(s, bound) == Some(v) <==> IsInteger(s, v) && 0 - bound <= v < bound
    ensures ParseInt(s, bound).Some? <==> exists v :: IsInteger(s, v) && 0 - bound <= v < bound
  {
    hide IsSigned, ParseInt;
    forall v | IsInteger(s, v) ensures ParseInt(s, bound) == if 0 - bound <= v < bound then Some(v) else None {
      var sign, digits :| IsSigned(s, sign, digits, v);
      SignedIsParsed(s, sign, digits, v, bound);
    }
    if ParseInt(s, bound).Some? {
      var sign, digits := ParsedIsSigned(s, bound);
      assert IsInteger(s, ParseInt(s, bound).value);
      ParsedFits(s, bound);
    }
  }

  lemma ParsedFits(s: string, bound: nat)
    requires ParseInt(s, bound).Some?
    ensures 0 - bound <= ParseInt(s, bound).value < bound
  {
    hide Value;
  }

  ghost predicate NoDot(s: string) { forall i :: 0 <= i < |s| ==> s[i] != '.' }

  lemma ThreeDigits(s: string)
    ensures |ToPrecision(s)| == 3 && forall i :: 0 <= i < 3 ==> ToPrecision(s)[i] == if i < |s| then s[i] else '0'
  {
  }

  // A 64-bit integer; or one, a dot, and a text whose first three characters, padded with zeros,
  // are an integer: with a sign, even.
  ghost predicate IsTimestamp(b: string) {
    || (NoDot(b) && exists v :: IsInteger(b, v) && MIN_INT64 <= v <= MAX_INT64)
    || exists whole, fraction, v, w :: IsDotted(b, whole, fraction, v, w)
  }

  ghost predicate IsDotted(b: string, whole: string, fraction: string, v: int, w: int) {
    && b == whole + "." + fraction && NoDot(whole) && NoDot(fraction)
    && IsInteger(whole, v) && MIN_INT64 <= v <= MAX_INT64 && IsInteger(ToPrecision(fraction), w)
  }

  lemma {:induction false} SplitMeaning(b: string)
    ensures |Split(b)| == 1 <==> NoDot(b)
    ensures |Split(b)| == 1 ==> Split(b)[0] == b
    ensures |Split(b)| == 2 ==>
              b == Split(b)[0] + "." + Split(b)[1] && NoDot(Split(b)[0]) && NoDot(Split(b)[1])
  {
    var d := FirstDot(b);
    if d < |b| {
      var rest := b[d + 1..];
      assert b == b[..d] + "." + rest;
      if |Split(rest)| == 1 {
        SplitMeaning(rest);
      }
    }
  }

  lemma {:induction false} SplitDotted(whole: string, fraction: string)
    requires NoDot(whole) && NoDot(fraction)
    ensures Split(whole + "." + fraction) == [whole, fraction]
  {
    var b := whole + "." + fraction;
    assert FirstDot(fraction) == |fraction|;
    assert b[|whole|] == '.' && forall i :: 0 <= i < |whole| ==> b[i] == whole[i];
    assert FirstDot(b) == |whole|;
    assert b[..|whole|] == whole && b[|whole| + 1..] == fraction;
  }

  lemma {:induction false} ThreeCharacters(s: string, v: int)
    requires IsInteger(s, v) && |s| == 3
    ensures 0 - 1000 < v < 1000
  {
    hide Value;
    var sign, digits :| IsSigned(s, sign, digits, v);
    ValueBelow(digits);
    PowersOfTen();
    PowersBelow(|digits|);
  }

  lemma {:induction false} PowersBelow(n: nat)
    requires n <= 3
    ensures Pow10(n) <= 1000
  {
    PowersOfTen();
  }

  // A text is read exactly if it is a timestamp in this sense, and refused otherwise.
  lemma ReadAccepts(b: string)
    ensures Read(b).Some? <==> IsTimestamp(b)
  {
    hide IsInteger, ParseInt, Split, ToPrecision;
    var p := Split(b);
    SplitMeaning(b);
    ParseIntMeaning(p[0], 0x8000_0000_0000_0000);
    if |p| == 1 {
      HasADot();
    } else {
      if Read(b).Some? {
        FractionAccepted(p[1]);
        var v, w := ParseInt(p[0], 0x8000_0000_0000_0000).value, ParseInt(ToPrecision(p[1]), 0x8000_0000).value;
        assert IsDotted(b, p[0], p[1], v, w);
      }
      if IsTimestamp(b) {
        var whole, fraction, v, w :| IsDotted(b, whole, fraction, v, w);
        SplitDotted(whole, fraction);
        FractionAccepted(fraction);
        assert p == [whole, fraction] && ParseInt(p[0], 0x8000_0000_0000_0000) == Some(v);
      }
    }
  }

  lemma FractionAccepted(fraction: string)
    ensures ParseInt(ToPrecision(fraction), 0x8000_0000).Some? <==> exists w :: IsInteger(ToPrecision(fraction), w)
    ensures ParseInt(ToPrecision(fraction), 0x8000_0000).Some? ==>
              IsInteger(ToPrecision(fraction), ParseInt(ToPrecision(fraction), 0x8000_0000).value)
  {
    hide IsInteger, ParseInt;
    ParseIntMeaning(ToPrecision(fraction), 0x8000_0000);
    if w :| IsInteger(ToPrecision(fraction), w) {
      ThreeCharacters(ToPrecision(fraction), w);
    }
  }

  lemma HasADot()
    ensures forall b, whole, fraction, v, w :: IsDotted(b, whole, fraction, v, w) ==> !NoDot(b)
  {
    forall b, whole, fraction, v, w | IsDotted(b, whole, fraction, v, w) ensures !NoDot(b) {
      assert b[|whole|] == '.';
    }
  }

  function Signed(s: Seconds): string { (if s.negative then "-" else "") + s.whole }

  lemma ReadSplit(s: Seconds)
    requires IsSeconds(s)
    ensures Split(Text(s)) == if s.fraction.Some? then [Signed(s), s.fraction.value] else [Signed(s)]
  {
    SplitOnce(Signed(s), Digits(s));
    assert Text(s) == if s.fraction.Some? then Signed(s) + "." + Digits(s) else Signed(s);
  }

  lemma FractionParsed(s: Seconds)
    requires IsSeconds(s)
    ensures AllDigits(ToPrecision(Digits(s))) && 0 <= Value(ToPrecision(Digits(s))) < SECOND
    ensures ParseInt(ToPrecision(Digits(s)), 0x8000_0000) == Some(Value(ToPrecision(Digits(s))))
  {
    hide Value, ToPrecision, Magnitude, ParseInt, Pow10;
    MagnitudeIs(s);
    ValueBelow(ToPrecision(Digits(s)));
    PowersOfTen();
    SignedInt(ToPrecision(Digits(s)), false, 0x8000_0000);
    assert "" + ToPrecision(Digits(s)) == ToPrecision(Digits(s));
  }

  // What is read is what the text means exactly when that is within 64 bits and the text is not
  // a negative number of at least one second with milliseconds: those are added with the
  // wrong sign.
  lemma ReadIsMeaning(s: Seconds)
    requires IsSeconds(s)
    ensures AllDigits(ToPrecision(Digits(s)))
    ensures Read(Text(s)).Some? && Read(Text(s)).value as int == Meaning(s) <==>
              MIN_INT64 <= Meaning(s) <= MAX_INT64
              && (s.negative && Value(s.whole) > 0 ==> Value(ToPrecision(Digits(s))) == 0)
    ensures s.negative && Value(s.whole) > 0 && MIN_INT64 <= Meaning(s) ==>
              Read(Text(s)).Some? && Read(Text(s)).value as int == Meaning(s) + 2 * Value(ToPrecision(Digits(s)))
  {
    hide Magnitude, ToPrecision, Value, Text, Split, ParseInt;
    ReadSplit(s);
    SignedInt(s.whole, s.negative, 0x8000_0000_0000_0000);
    FractionParsed(s);
    MagnitudeIs(s);
    if s.fraction.None? {
      assert Digits(s) == "";
      NoFraction();
    }
  }

  lemma NoFraction()
    ensures AllDigits(ToPrecision("")) && Value(ToPrecision("")) == 0
  {
    Zeros(PRECISION);
    assert ToPrecision("") == seq(PRECISION, _ => '0');
  }
}
