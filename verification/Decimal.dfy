// Decimal numerals: what strconv.ParseUint reads and what the %d verb writes.
module Decimal {
  import opened Words

  predicate IsDigit(c: char) { '0' <= c <= '9' }

  predicate AllDigits(s: string) { forall i :: 0 <= i < |s| ==> IsDigit(s[i]) }

  function Digit(c: char): nat
    requires IsDigit(c)
  {
    c as int - '0' as int
  }

  function Value(s: string): nat
    requires AllDigits(s)
  {
    if s == "" then 0 else 10 * Value(s[..|s| - 1]) + Digit(s[|s| - 1])
  }

  // The digits are these ten, with these values, and in a numeral each stands for ten times what
  // it would one place further on.
  lemma DigitValues()
    ensures forall c :: IsDigit(c) <==> c in "0123456789"
    ensures Value("0") == 0 && Value("1") == 1 && Value("2") == 2 && Value("3") == 3 && Value("4") == 4
    ensures Value("5") == 5 && Value("6") == 6 && Value("7") == 7 && Value("8") == 8 && Value("9") == 9
  {
    forall c | IsDigit(c) ensures c in "0123456789" {
      assert c == "0123456789"[c as int - '0' as int];
    }
    forall c | IsDigit(c) ensures AllDigits([c]) && Value([c]) == c as int - '0' as int {
      assert [c][..0] == "";
    }
    assert ['0'] == "0" && ['1'] == "1" && ['2'] == "2" && ['3'] == "3" && ['4'] == "4";
    assert ['5'] == "5" && ['6'] == "6" && ['7'] == "7" && ['8'] == "8" && ['9'] == "9";
  }

  lemma {:induction false} DigitAppended(s: string, c: char)
    requires AllDigits(s) && IsDigit(c)
    ensures AllDigits(s + [c]) && Value(s + [c]) == 10 * Value(s) + Value([c])
  {
    assert (s + [c])[..|s + [c]| - 1] == s && [c][..0] == "";
  }

  // The numeral the %d verb prints for a non-negative number, without leading zeros.
  function Numeral(n: nat): (s: string)
    ensures s != "" && AllDigits(s) && Value(s) == n
    ensures s[0] == '0' ==> n == 0 && |s| == 1
  {
    var low := [('0' as int + n % 10) as char];
    if n < 10 then
      assert low[..0] == "";
      low
    else
      var s := Numeral(n / 10) + low;
      assert s[..|s| - 1] == Numeral(n / 10);
      s
  }

  // strconv.ParseUint(s, 10, 0) on a non-empty run of digits, on a 64-bit platform:
  // the only error left is the range error.
  function ParseUint(s: string): (v: Option<uint64>)
    requires AllDigits(s) && s != ""
    ensures v.Some? <==> Value(s) <= MAX_UINT64
    ensures v.Some? ==> v.value as int == Value(s)
  {
    if Value(s) <= MAX_UINT64 then Some(Value(s) as uint64) else None
  }

  // Length of the longest prefix of digits (run of digits) of s from position i.
  function DigitRun(s: string): (n: nat)
    ensures n <= |s| && AllDigits(s[..n])
    ensures n < |s| ==> !IsDigit(s[n])
  {
    if s != "" && IsDigit(s[0]) then
      var n := DigitRun(s[1..]);
      assert s[..n + 1] == [s[0]] + s[1..][..n];
      n + 1
    else 0
  }

  function NonDigitRun(s: string): (n: nat)
    ensures n <= |s| && forall i :: 0 <= i < n ==> !IsDigit(s[i])
    ensures n < |s| ==> IsDigit(s[n])
  {
    if s != "" && !IsDigit(s[0]) then NonDigitRun(s[1..]) + 1 else 0
  }

  // A run is determined by where the character class changes.
  lemma {:induction false} DigitRunUnique(s: string, n: nat)
    requires n <= |s| && AllDigits(s[..n]) && (n < |s| ==> !IsDigit(s[n]))
    ensures DigitRun(s) == n
  {
    var m := DigitRun(s);
    assert forall i :: 0 <= i < n ==> s[i] == s[..n][i];
    assert forall i :: 0 <= i < m ==> s[i] == s[..m][i];
  }

  lemma {:induction false} NonDigitRunUnique(s: string, n: nat)
    requires n <= |s| && (forall i :: 0 <= i < n ==> !IsDigit(s[i])) && (n < |s| ==> IsDigit(s[n]))
    ensures NonDigitRun(s) == n
  {
  }
}
