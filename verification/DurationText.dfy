// The textual durations of rwrulefmt/model/time.go: their grammar and meaning, the loop
// parser over uint64 arithmetic, and the greedy printer over int64 arithmetic.
module DurationText {
  import opened Words
  import opened Decimal

  // ---------------------------------------------------------------------------------------
  // Grammar and meaning
  // ---------------------------------------------------------------------------------------

  datatype Unit = Year | Week | Day | Hour | Minute | Second | Milli

  const MILLISECOND: int := 1_000_000

  function Symbol(u: Unit): (s: string)
    ensures s != "" && forall i :: 0 <= i < |s| ==> !IsDigit(s[i])
  {
    match u
    case Year => "y" case Week => "w" case Day => "d" case Hour => "h"
    case Minute => "m" case Second => "s" case Milli => "ms"
  }

  // Rank of the unit from biggest to smallest.
  function Pos(u: Unit): nat {
    match u
    case Year => 1 case Week => 2 case Day => 3 case Hour => 4
    case Minute => 5 case Second => 6 case Milli => 7
  }

  function Millis(u: Unit): (n: nat)
    ensures 0 < n <= 31_536_000_000
  {
    match u
    case Year => 1000 * 60 * 60 * 24 * 365 case Week => 1000 * 60 * 60 * 24 * 7
    case Day => 1000 * 60 * 60 * 24 case Hour => 1000 * 60 * 60
    case Minute => 1000 * 60 case Second => 1000 case Milli => 1
  }

  // Nanoseconds in a unit.
  function Mult(u: Unit): uint64 {
    match u
    case Year => 31_536_000_000_000_000 case Week => 604_800_000_000_000
    case Day => 86_400_000_000_000 case Hour => 3_600_000_000_000
    case Minute => 60_000_000_000 case Second => 1_000_000_000 case Milli => 1_000_000
  }

  // v units in nanoseconds, as an exact natural number.
  function Nanos(v: nat, u: Unit): nat { v * Mult(u) as int }

  // unitMap
  function LookupUnit(s: string): (u: Option<Unit>)
    ensures u.Some? ==> Symbol(u.value) == s
    ensures u.None? ==> forall v: Unit :: Symbol(v) != s
  {
    if s == "ms" then Some(Milli) else if s == "s" then Some(Second) else if s == "m" then Some(Minute)
    else if s == "h" then Some(Hour) else if s == "d" then Some(Day) else if s == "w" then Some(Week)
    else if s == "y" then Some(Year) else None
  }

  datatype Token = Token(digits: string, unit: Unit)

  predicate IsToken(t: Token) { t.digits != "" && AllDigits(t.digits) }

  // Tokens whose units go strictly from bigger to smaller, all of them after position `last`.
  predicate WellFormed(ts: seq<Token>, last: nat) {
    ts == [] || (IsToken(ts[0]) && Pos(ts[0].unit) > last && WellFormed(ts[1..], Pos(ts[0].unit)))
  }

  function Render(ts: seq<Token>): string {
    if ts == [] then "" else ts[0].digits + Symbol(ts[0].unit) + Render(ts[1..])
  }

  // The exact mathematical sum, in nanoseconds.
  function Sum(ts: seq<Token>, last: nat): nat
    requires WellFormed(ts, last)
  {
    if ts == [] then 0
    else Nanos(Value(ts[0].digits), ts[0].unit) + Sum(ts[1..], Pos(ts[0].unit))
  }

  // s is a duration text and its exact value is d nanoseconds.
  ghost predicate Denotes(s: string, d: nat) {
    (s == "0" && d == 0)
    || (s != "" && exists ts :: Render(ts) == s && WellFormed(ts, 0) && Sum(ts, 0) == d)
  }

  // The accepted language of durations with their values.
  ghost predicate IsDuration(s: string, d: int) {
    0 <= d <= MAX_INT64 && Denotes(s, d)
  }

  lemma SymbolInjective(u: Unit, v: Unit)
    requires Symbol(u) == Symbol(v)
    ensures u == v
  {
  }

  // ---------------------------------------------------------------------------------------
  // Parser
  // ---------------------------------------------------------------------------------------

  datatype DurationError = EmptyText | NotADuration | UnknownUnit(unit: string) | OutOfRange

  // One turn of the parsing loop on a non-empty rest: the token read and the rest left.
  function NextToken(s: string): Result<(Token, string), DurationError>
    requires s != ""
  {
    if !IsDigit(s[0]) then Failure(NotADuration)
    else
      var i := DigitRun(s);
      if ParseUint(s[..i]).None? then Failure(NotADuration)
      else
        var j := NonDigitRun(s[i..]);
        if j == 0 then Failure(NotADuration)
        else
          var unit := LookupUnit(s[i..][..j]);
          if unit.None? then Failure(UnknownUnit(s[i..][..j]))
          else Success((Token(s[..i], unit.value), s[i..][j..]))
  }

  lemma NextTokenSplits(s: string)
    requires s != "" && NextToken(s).Success?
    ensures var (t, rest) := NextToken(s).value;
            IsToken(t) && s == t.digits + Symbol(t.unit) + rest && |rest| < |s|
  {
  }

  // What the rest of the loop returns from state (s, dur, last).
  function ParseRest(s: string, dur: nat, last: nat): Result<nat, DurationError>
    decreases |s|
  {
    if s == "" then Success(dur)
    else
      match NextToken(s)
      case Failure(e) => Failure(e)
      case Success((t, rest)) =>
        NextTokenSplits(s);
        var v := Value(t.digits);
        if Pos(t.unit) <= last then Failure(NotADuration)
        else if dur + Nanos(v, t.unit) > MAX_INT64 then Failure(OutOfRange)
        else ParseRest(rest, dur + Nanos(v, t.unit), Pos(t.unit))
  }

  function Parse(s: string): Result<nat, DurationError> {
    if s == "0" then Success(0) else if s == "" then Failure(EmptyText) else ParseRest(s, 0, 0)
  }

  // The scanning half of a turn: a run of digits, then a run of non-digits naming a unit.
  method ReadToken(s: string) returns (r: Result<(uint64, Unit, string), DurationError>)
    requires s != ""
    ensures NextToken(s).Failure? ==> r.Failure? && r.error == NextToken(s).error
    ensures NextToken(s).Success? ==>
              var (t, rest) := NextToken(s).value;
              r.Success? && r.value.0 as int == Value(t.digits) && r.value.1 == t.unit && r.value.2 == rest
  {
    hide Value;
    if !IsDigit(s[0]) {
      return Failure(NotADuration);
    }
    var i := 0;
    while i < |s| && IsDigit(s[i])
      invariant 0 <= i <= |s| && AllDigits(s[..i])
    {
      i := i + 1;
    }
    DigitRunUnique(s, i);
    var v := ParseUint(s[..i]);
    if v.None? {
      return Failure(NotADuration);
    }
    var tail := s[i..];
    i := 0;
    while i < |tail| && !IsDigit(tail[i])
      invariant 0 <= i <= |tail| && forall k :: 0 <= k < i ==> !IsDigit(tail[k])
    {
      i := i + 1;
    }
    NonDigitRunUnique(tail, i);
    if i == 0 {
      return Failure(NotADuration);
    }
    var unit := LookupUnit(tail[..i]);
    if unit.None? {
      return Failure(UnknownUnit(tail[..i]));
    }
    return Success((v.value, unit.value, tail[i..]));
  }

  // The parser as the source runs it. Every multiplication, addition and comparison below is
  // in uint64, so verification of the body is the proof that none of them wraps. `turns` counts
  // those of the loop: the unit position grows at each, so seven at most succeed and the eighth
  // fails.
  method ParseDuration(s: string) returns (r: Result<int64, DurationError>, ghost turns: nat)
    ensures turns <= 8 && (r.Success? ==> turns <= 7)
    ensures r.Success? <==> Parse(s).Success?
    ensures r.Success? ==> r.value as int == Parse(s).value
    ensures r.Failure? ==> r.error == Parse(s).error
  {
    hide NextToken;
    turns := 0;
    if s == "0" {
      return Success(0), turns;
    } else if s == "" {
      return Failure(EmptyText), turns;
    }
    var rest, dur: uint64, last: nat := s, 0, 0;
    while rest != ""
      invariant dur as int <= MAX_INT64 && turns <= last <= 7
      invariant ParseRest(rest, dur as int, last) == Parse(s)
      decreases 7 - last, |rest|
    {
      turns := turns + 1;
      var token := ReadToken(rest);
      if token.Failure? {
        return Failure(token.error), turns;
      }
      var (v, unit, tail) := token.value;
      if Pos(unit) <= last {
        return Failure(NotADuration), turns;
      }
      last := Pos(unit);
      GuardIsExact(v as int, unit);
      if v > 0x8000_0000_0000_0000 / Mult(unit) {
        return Failure(OutOfRange), turns;
      }
      dur := dur + v * Mult(unit);
      if dur > 0x7FFF_FFFF_FFFF_FFFF {
        return Failure(OutOfRange), turns;
      }
      rest := tail;
    }
    return Success(dur as int64), turns;
  }

  // The division guard of the parser rejects v exactly when the product is above 2^63; in
  // particular a product it lets through is computed without wrap-around.
  lemma GuardIsExact(v: nat, u: Unit)
    ensures v > 0x8000_0000_0000_0000 / Mult(u) as int <==> Nanos(v, u) > 0x8000_0000_0000_0000
    ensures v <= Nanos(v, u)
  {
    match u {
      case Year => case Week => case Day => case Hour => case Minute => case Second => case Milli =>
    }
  }

  // ---------------------------------------------------------------------------------------
  // The parser accepts exactly the language
  // ---------------------------------------------------------------------------------------

  lemma NextTokenComplete(t: Token, rest: string)
    requires IsToken(t) && Value(t.digits) <= MAX_UINT64 && (rest == "" || IsDigit(rest[0]))
    ensures var s := t.digits + Symbol(t.unit) + rest;
            s != "" && NextToken(s) == Success((t, rest))
  {
    var i, j := |t.digits|, |Symbol(t.unit)|;
    var tail := Symbol(t.unit) + rest;
    var s := t.digits + tail;
    assert t.digits + Symbol(t.unit) + rest == s;
    assert s[..i] == t.digits && s[i..] == tail && s[i] == tail[0] == Symbol(t.unit)[0];
    DigitRunUnique(s, i);
    assert tail[..j] == Symbol(t.unit) && tail[j..] == rest;
    assert forall k :: 0 <= k < j ==> tail[k] == Symbol(t.unit)[k];
    NonDigitRunUnique(tail, j);
    SymbolInjective(t.unit, LookupUnit(Symbol(t.unit)).value);
  }

  lemma {:induction false} ParseRestSound(s: string, dur: nat, last: nat) returns (ts: seq<Token>)
    requires ParseRest(s, dur, last).Success?
    ensures Render(ts) == s && WellFormed(ts, last)
    ensures ParseRest(s, dur, last).value == dur + Sum(ts, last)
    ensures dur <= MAX_INT64 ==> dur + Sum(ts, last) <= MAX_INT64
    decreases |s|
  {
    hide NextToken, Nanos;
    if s == "" {
      ts := [];
    } else {
      NextTokenSplits(s);
      var (t, rest) := NextToken(s).value;
      var tail := ParseRestSound(rest, dur + Nanos(Value(t.digits), t.unit), Pos(t.unit));
      ts := [t] + tail;
      assert ts[1..] == tail;
    }
  }

  lemma {:induction false} ParseRestStep(t: Token, rest: string, dur: nat, last: nat)
    requires IsToken(t) && Pos(t.unit) > last && (rest == "" || IsDigit(rest[0]))
    requires dur + Nanos(Value(t.digits), t.unit) <= MAX_INT64
    ensures ParseRest(t.digits + Symbol(t.unit) + rest, dur, last)
         == ParseRest(rest, dur + Nanos(Value(t.digits), t.unit), Pos(t.unit))
  {
    hide NextToken, Nanos;
    GuardIsExact(Value(t.digits), t.unit);
    NextTokenComplete(t, rest);
  }

  lemma {:induction false} RenderStartsWithDigit(ts: seq<Token>, last: nat)
    requires WellFormed(ts, last)
    ensures Render(ts) == "" || IsDigit(Render(ts)[0])
  {
    if ts != [] {
      assert Render(ts)[0] == ts[0].digits[0];
    }
  }

  lemma {:induction false} ParseRestComplete(ts: seq<Token>, dur: nat, last: nat)
    requires WellFormed(ts, last) && dur + Sum(ts, last) <= MAX_INT64
    ensures ParseRest(Render(ts), dur, last) == Success(dur + Sum(ts, last))
    decreases |ts|
  {
    hide NextToken, Nanos;
    if ts != [] {
      var t, rest := ts[0], ts[1..];
      RenderStartsWithDigit(rest, Pos(t.unit));
      ParseRestStep(t, Render(rest), dur, last);
      ParseRestComplete(rest, dur + Nanos(Value(t.digits), t.unit), Pos(t.unit));
    }
  }

  // Characterisation: Parse succeeds exactly on the texts of the grammar whose exact sum
  // fits, and returns that sum.
  lemma ParseCharacterised(s: string, d: nat)
    ensures Parse(s) == Success(d) <==> IsDuration(s, d)
  {
    if s == "0" || s == "" {
      forall ts | Render(ts) == s && WellFormed(ts, 0) ensures s == "" {
        ShortRendering(ts, 0);
      }
    } else {
      ParsedIsDuration(s, d);
      DurationIsParsed(s, d);
    }
  }

  lemma ParsedIsDuration(s: string, d: nat)
    requires s != "0" && s != ""
    ensures Parse(s) == Success(d) ==> IsDuration(s, d)
  {
    if Parse(s) == Success(d) {
      var ts := ParseRestSound(s, 0, 0);
    }
  }

  lemma DurationIsParsed(s: string, d: nat)
    requires s != "0" && s != ""
    ensures IsDuration(s, d) ==> Parse(s) == Success(d)
  {
    if IsDuration(s, d) {
      var ts :| Render(ts) == s && WellFormed(ts, 0) && Sum(ts, 0) == d;
      ParseRestComplete(ts, 0, 0);
    }
  }

  lemma {:induction false} ShortRendering(ts: seq<Token>, last: nat)
    requires WellFormed(ts, last)
    ensures ts == [] || |Render(ts)| >= 2
  {
  }

  // Rejection is explained by the grammar as well: a text that fails is outside the language.
  lemma ParseRejects(s: string)
    ensures Parse(s).Failure? <==> forall d: nat :: !IsDuration(s, d)
  {
    if Parse(s).Success? {
      ParseCharacterised(s, Parse(s).value);
    }
    forall d: nat | IsDuration(s, d) ensures Parse(s).Success? {
      ParseCharacterised(s, d);
    }
  }

  // The grammar is unambiguous: a text has one reading.
  lemma {:induction false} RenderInjective(ts: seq<Token>, us: seq<Token>, last: nat, last': nat)
    requires WellFormed(ts, last) && WellFormed(us, last') && Render(ts) == Render(us)
    ensures ts == us
    decreases |ts|
  {
    if ts != [] && us != [] {
      var s := Render(ts);
      assert ts[1..] != [] ==> Render(ts[1..])[0] == ts[1].digits[0];
      assert us[1..] != [] ==> Render(us[1..])[0] == us[1].digits[0];
      SplitUnique(ts[0], Render(ts[1..]), us[0], Render(us[1..]));
      RenderInjective(ts[1..], us[1..], Pos(ts[0].unit), Pos(us[0].unit));
      assert ts == [ts[0]] + ts[1..] && us == [us[0]] + us[1..];
    }
  }

  lemma SplitUnique(t: Token, rest: string, t': Token, rest': string)
    requires IsToken(t) && IsToken(t')
    requires (rest == "" || IsDigit(rest[0])) && (rest' == "" || IsDigit(rest'[0]))
    requires t.digits + Symbol(t.unit) + rest == t'.digits + Symbol(t'.unit) + rest'
    ensures t == t' && rest == rest'
  {
    hide Symbol;
    var s := t.digits + Symbol(t.unit) + rest;
    assert s[..|t.digits|] == t.digits && s[..|t'.digits|] == t'.digits;
    assert s[|t.digits|] == Symbol(t.unit)[0] && s[|t'.digits|] == Symbol(t'.unit)[0];
    DigitRunUnique(s, |t.digits|);
    DigitRunUnique(s, |t'.digits|);
    var u := s[|t.digits|..];
    assert u == Symbol(t.unit) + rest && u == Symbol(t'.unit) + rest';
    NonDigitRunUnique(u, |Symbol(t.unit)|);
    NonDigitRunUnique(u, |Symbol(t'.unit)|);
    assert u[..|Symbol(t.unit)|] == Symbol(t.unit) && u[..|Symbol(t.unit)|] == Symbol(t'.unit);
    SymbolInjective(t.unit, t'.unit);
  }

  // ---------------------------------------------------------------------------------------
  // Printer
  // ---------------------------------------------------------------------------------------

  // The token list a positive number of milliseconds is printed as: one token if it is a
  // whole number of years, or else of weeks; otherwise its days, hours, minutes, seconds and
  // milliseconds, leaving out the zero ones.
  function Canonical(ms: nat): seq<Token> {
    if ms % Millis(Year) == 0 then NonZero(ms / Millis(Year), Year)
    else if ms % Millis(Week) == 0 then NonZero(ms / Millis(Week), Week)
    else
      NonZero(Share(ms, Day), Day)
      + (NonZero(Share(ms, Hour), Hour)
         + (NonZero(Share(ms, Minute), Minute)
            + (NonZero(Share(ms, Second), Second)
               + NonZero(Share(ms, Milli), Milli))))
  }

  // The digit of unit u when ms is written in days, hours, minutes, seconds, milliseconds.
  function Share(ms: nat, u: Unit): nat {
    match u
    case Day => ms / Millis(Day)
    case Hour => ms % Millis(Day) / Millis(Hour)
    case Minute => ms % Millis(Hour) / Millis(Minute)
    case Second => ms % Millis(Minute) / Millis(Second)
    case Milli => ms % Millis(Second)
    case _ => 0
  }

  function NonZero(n: nat, u: Unit): seq<Token> {
    if n == 0 then [] else [Token(Numeral(n), u)]
  }

  // What printing any int64 number of nanoseconds gives. Less than a millisecond either side
  // of zero prints as zero seconds; a whole negative number of milliseconds prints as nothing.
  function Print(d: int): string {
    var ms := TruncDiv(d, MILLISECOND);
    if ms == 0 then "0s" else if ms < 0 then "" else Render(Canonical(ms))
  }

  // The closure of the source: print one unit, if it is due, and take it off the rest.
  method Emit(text: string, ms: int64, u: Unit, exact: bool) returns (text': string, ms': int64)
    ensures ms <= 0 ==> text' == text && ms' == ms
    ensures ms >= 0 ==>
              var due := Due(ms as int, u, exact);
              text' == text + Render(NonZero(due, u)) && ms' as int == ms as int - due * Millis(u)
  {
    hide Numeral, Symbol, Millis, Render;
    RenderNothing();
    text', ms' := text, ms;
    if exact && ms % Millis(u) as int64 != 0 {
      return;
    }
    var v := TruncDiv(ms as int, Millis(u)) as int64;
    if v > 0 {
      DueFits(ms as int, u);
      text' := text + (Numeral(v as int) + Symbol(u));
      ms' := ms - v * Millis(u) as int64;
      RenderSingle(v as int, u);
    }
  }

  function Due(ms: nat, u: Unit, exact: bool): (n: nat)
    ensures !exact ==> n == ms / Millis(u)
  {
    if exact && ms % Millis(u) != 0 then 0 else ms / Millis(u)
  }

  lemma DueFits(ms: nat, u: Unit)
    ensures 0 <= ms / Millis(u) * Millis(u) <= ms
  {
  }

  lemma {:induction false} RenderSingle(n: nat, u: Unit)
    requires n > 0
    ensures Render(NonZero(n, u)) == Numeral(n) + Symbol(u)
  {
    hide Numeral, Symbol;
    var t := Token(Numeral(n), u);
    assert Render([t][1..]) == "";
    assert Render([t]) == t.digits + Symbol(u) + "";
  }

  method FormatDuration(d: int64) returns (text: string)
    ensures text == Print(d as int)
  {
    hide Render, NonZero, Canonical, Millis, AfterWeeks, Due, Share;
    var ms := TruncDiv(d as int, MILLISECOND) as int64;
    if ms == 0 {
      return "0s";
    }
    ghost var n := ms as int;
    text := "";
    text, ms := Emit(text, ms, Year, true);
    text, ms := Emit(text, ms, Week, true);
    if n > 0 {
      ExactUnits(n);
      Remainders(AfterWeeks(n));
    }
    text, ms := Emit(text, ms, Day, false);
    text, ms := Emit(text, ms, Hour, false);
    text, ms := Emit(text, ms, Minute, false);
    text, ms := Emit(text, ms, Second, false);
    text, ms := Emit(text, ms, Milli, false);
    if n > 0 {
      GreedyIsCanonical(n);
    }
  }

  function AfterWeeks(ms: nat): nat {
    if ms % Millis(Year) == 0 || ms % Millis(Week) == 0 then 0 else ms
  }

  // The two exact units between them print all of the number or none of it.
  lemma ExactUnits(ms: nat)
    ensures var y := Due(ms, Year, true);
            var w := Due(ms - y * Millis(Year), Week, true);
            0 <= y * Millis(Year) <= ms
            && ms - y * Millis(Year) - w * Millis(Week) == AfterWeeks(ms)
            && (ms % Millis(Year) == 0 ==> y == ms / Millis(Year) && w == 0)
            && (ms % Millis(Year) != 0 ==> y == 0 && w == if ms % Millis(Week) == 0 then ms / Millis(Week) else 0)
  {
    if ms % Millis(Year) == 0 {
      assert ms / Millis(Year) * Millis(Year) == ms;
    }
    if ms % Millis(Week) == 0 {
      assert ms / Millis(Week) * Millis(Week) == ms;
    }
  }

  // What each of the other calls finds left over, written with the original number.
  lemma Remainders(m: nat)
    ensures Share(m, Day) == m / Millis(Day)
    ensures var rest := m - Share(m, Day) * Millis(Day);
            rest >= 0 && Share(m, Hour) == rest / Millis(Hour)
    ensures var rest := m - Share(m, Day) * Millis(Day) - Share(m, Hour) * Millis(Hour);
            rest >= 0 && Share(m, Minute) == rest / Millis(Minute)
    ensures var rest := m - Share(m, Day) * Millis(Day) - Share(m, Hour) * Millis(Hour)
                        - Share(m, Minute) * Millis(Minute);
            rest >= 0 && Share(m, Second) == rest / Millis(Second)
    ensures var rest := m - Share(m, Day) * Millis(Day) - Share(m, Hour) * Millis(Hour)
                        - Share(m, Minute) * Millis(Minute) - Share(m, Second) * Millis(Second);
            rest >= 0 && Share(m, Milli) == rest / Millis(Milli) == rest
    ensures Millis(Milli) == 1
  {
    hide Millis;
    NestedUnits(m);
  }

  lemma NestedUnits(m: nat)
    ensures m - m / Millis(Day) * Millis(Day) == m % Millis(Day)
    ensures m % Millis(Day) - m % Millis(Day) / Millis(Hour) * Millis(Hour) == m % Millis(Hour)
    ensures m % Millis(Hour) - m % Millis(Hour) / Millis(Minute) * Millis(Minute) == m % Millis(Minute)
    ensures m % Millis(Minute) - m % Millis(Minute) / Millis(Second) * Millis(Second) == m % Millis(Second)
    ensures Millis(Milli) == 1
  {
    NestedRemainder(m, Millis(Hour), 24);
    NestedRemainder(m, Millis(Minute), 60);
    NestedRemainder(m, Millis(Second), 60);
  }

  lemma NestedRemainder(m: nat, b: nat, k: nat)
    requires b > 0 && k > 0 && b * k > 0
    ensures m % (b * k) - m % (b * k) / b * b == m % b
  {
    var t, r := m / (b * k), m % (b * k);
    var q, e := r / b, r % b;
    assert b * k * t == b * (k * t);
    Distribute(b, k * t, q);
    QuotientUnique(m, b, k * t + q, e);
  }

  lemma Distribute(b: int, x: int, y: int)
    ensures b * (x + y) == b * x + b * y
  {
  }

  lemma QuotientUnique(n: int, b: int, q: int, e: nat)
    requires b > 0 && n == b * q + e && e < b
    ensures n % b == e
  {
    Distribute(b, n / b, -q);
    var d := n / b - q;
    assert d >= 1 ==> b * d >= b;
    assert d <= -1 ==> b * d <= -b;
  }

  lemma Associative(a: string, b: string, c: string)
    ensures a + b + c == a + (b + c)
  {
  }

  lemma {:induction false} RenderFirst(ts: seq<Token>)
    requires ts != []
    ensures Render(ts) == ts[0].digits + Symbol(ts[0].unit) + Render(ts[1..])
  {
  }

  lemma {:induction false} RenderConcat(ts: seq<Token>, us: seq<Token>)
    ensures Render(ts + us) == Render(ts) + Render(us)
  {
    hide Symbol, Render;
    if ts == [] {
      assert ts + us == us;
      RenderNothing();
    } else {
      RenderConcat(ts[1..], us);
      RenderFirst(ts);
      RenderFirst(ts + us);
      assert (ts + us)[1..] == ts[1..] + us;
      Associative(ts[0].digits + Symbol(ts[0].unit), Render(ts[1..]), Render(us));
    }
  }

  // The text that running the closure for the seven units in turn accumulates.
  function Greedy(ms: nat): string {
    var m := AfterWeeks(ms);
    "" + Render(NonZero(Due(ms, Year, true), Year))
    + Render(NonZero(Due(ms - Due(ms, Year, true) * Millis(Year), Week, true), Week))
    + Render(NonZero(Share(m, Day), Day)) + Render(NonZero(Share(m, Hour), Hour))
    + Render(NonZero(Share(m, Minute), Minute)) + Render(NonZero(Share(m, Second), Second))
    + Render(NonZero(Share(m, Milli), Milli))
  }

  lemma GreedyIsCanonical(ms: nat)
    requires ms > 0
    ensures Greedy(ms) == Render(Canonical(ms))
  {
    hide Greedy, Render, Canonical, Millis;
    if AfterWeeks(ms) == 0 {
      GreedyExact(ms);
    } else {
      GreedyMixed(ms);
    }
  }

  lemma GreedyMixed(ms: nat)
    requires ms > 0 && AfterWeeks(ms) != 0
    ensures Greedy(ms) == Render(Canonical(ms))
  {
    hide Render, NonZero, Millis, Due, Share;
    RenderNothing();
    ExactUnits(ms);
    ZeroRemainders();
    RenderFive(NonZero(Share(ms, Day), Day), NonZero(Share(ms, Hour), Hour), NonZero(Share(ms, Minute), Minute),
               NonZero(Share(ms, Second), Second), NonZero(Share(ms, Milli), Milli));
  }

  lemma GreedyExact(ms: nat)
    requires ms > 0 && AfterWeeks(ms) == 0
    ensures Greedy(ms) == Render(Canonical(ms))
  {
    hide Render, NonZero, Millis, Due, Share;
    RenderNothing();
    ExactUnits(ms);
    ZeroRemainders();
  }

  lemma ZeroRemainders()
    ensures forall u: Unit :: NonZero(0, u) == []
    ensures forall u: Unit :: Share(0, u) == 0
  {
  }

  lemma {:induction false} RenderFive(a: seq<Token>, b: seq<Token>, c: seq<Token>, d: seq<Token>, e: seq<Token>)
    ensures Render(a + (b + (c + (d + e)))) == Render(a) + Render(b) + Render(c) + Render(d) + Render(e)
  {
    hide Render;
    RenderConcat(d, e);
    RenderConcat(c, d + e);
    RenderConcat(b, c + (d + e));
    RenderConcat(a, b + (c + (d + e)));
    Associative(Render(a) + Render(b), Render(c), Render(d) + Render(e));
    Associative(Render(a), Render(b), Render(c) + (Render(d) + Render(e)));
  }

  lemma RenderNothing()
    ensures Render([]) == ""
  {
  }

  // ---------------------------------------------------------------------------------------
  // Parser and printer together
  // ---------------------------------------------------------------------------------------

  // Every text of the grammar denotes a whole number of milliseconds.
  lemma {:induction false} WholeMilliseconds(ts: seq<Token>, last: nat)
    requires WellFormed(ts, last)
    ensures Sum(ts, last) % MILLISECOND == 0
  {
    hide Nanos;
    if ts != [] {
      WholeMilliseconds(ts[1..], Pos(ts[0].unit));
      NanosOfMillis(Value(ts[0].digits), ts[0].unit);
    }
  }

  lemma NanosOfMillis(v: nat, u: Unit)
    ensures Nanos(v, u) == v * Millis(u) * MILLISECOND
  {
  }

  // Prepending a unit bigger than all the others keeps the list well formed.
  lemma {:induction false} Prepend(n: nat, u: Unit, ts: seq<Token>, last: nat)
    requires WellFormed(ts, Pos(u)) && last < Pos(u)
    ensures WellFormed(NonZero(n, u) + ts, last)
    ensures Sum(NonZero(n, u) + ts, last) == Nanos(n, u) + Sum(ts, Pos(u))
  {
    hide Nanos, Numeral;
    if n == 0 {
      assert NonZero(n, u) + ts == ts;
      assert Nanos(n, u) == 0 by {
        NanosOfMillis(n, u);
      }
    } else {
      assert (NonZero(n, u) + ts)[1..] == ts;
    }
  }

  // What is printed for a positive number of milliseconds is a text of the grammar that
  // denotes that number, whichever of the three forms is chosen.
  lemma CanonicalDenotes(ms: nat)
    requires ms > 0
    ensures Canonical(ms) != [] && WellFormed(Canonical(ms), 0)
    ensures Sum(Canonical(ms), 0) == ms * MILLISECOND
  {
    hide NonZero, Nanos, Millis;
    if ms % Millis(Year) == 0 {
      SingleDenotes(ms, Year);
    } else if ms % Millis(Week) == 0 {
      SingleDenotes(ms, Week);
    } else {
      MixedDenotes(ms);
    }
  }

  lemma SingleDenotes(ms: nat, u: Unit)
    requires ms > 0 && ms % Millis(u) == 0
    ensures var ts := NonZero(ms / Millis(u), u);
            ts != [] && WellFormed(ts, 0) && Sum(ts, 0) == ms * MILLISECOND
  {
    hide NonZero, Nanos, Millis;
    Prepend(ms / Millis(u), u, [], 0);
    NanosOfMillis(ms / Millis(u), u);
    assert ms / Millis(u) * Millis(u) == ms;
    assert NonZero(ms / Millis(u), u) + [] == NonZero(ms / Millis(u), u);
  }

  lemma MixedDenotes(ms: nat)
    requires ms > 0 && ms % Millis(Year) != 0 && ms % Millis(Week) != 0
    ensures Canonical(ms) != [] && WellFormed(Canonical(ms), 0)
    ensures Sum(Canonical(ms), 0) == ms * MILLISECOND
  {
    hide NonZero, Nanos, Millis, Share, WellFormed, Sum;
    assert WellFormed([], 7) && Sum([], 7) == 0 && WellFormed([], 0) && Sum([], 0) == 0 by {
      Empty(7);
      Empty(0);
    }
    var d, h, m, s, l := Share(ms, Day), Share(ms, Hour), Share(ms, Minute), Share(ms, Second), Share(ms, Milli);
    var e := NonZero(l, Milli);
    assert e + [] == e;
    Prepend(l, Milli, [], 6);
    Prepend(s, Second, e, 5);
    Prepend(m, Minute, NonZero(s, Second) + e, 4);
    Prepend(h, Hour, NonZero(m, Minute) + (NonZero(s, Second) + e), 3);
    Prepend(d, Day, NonZero(h, Hour) + (NonZero(m, Minute) + (NonZero(s, Second) + e)), 0);
    Remainders(ms);
    NanosOfMillis(d, Day);
    NanosOfMillis(h, Hour);
    NanosOfMillis(m, Minute);
    NanosOfMillis(s, Second);
    NanosOfMillis(l, Milli);
  }

  lemma {:induction false} Empty(last: nat)
    ensures WellFormed([], last) && Sum([], last) == 0
  {
  }

  // Round trip over every int64: reparsing the printed form gives the duration truncated to
  // the whole millisecond, exactly when the duration is above minus one millisecond. At or
  // below it the printer writes the empty text, which the parser refuses.
  lemma RoundTrip(d: int)
    requires MIN_INT64 <= d <= MAX_INT64
    ensures d > -MILLISECOND <==>
            Parse(Print(d)).Success? && Parse(Print(d)).value == TruncDiv(d, MILLISECOND) * MILLISECOND
    ensures d >= 0 ==> Parse(Print(d)).Success? && Parse(Print(d)).value == d - d % MILLISECOND
    ensures d <= -MILLISECOND ==> Parse(Print(d)) == Failure(EmptyText)
  {
    hide ParseRest, Canonical;
    var ms := TruncDiv(d, MILLISECOND);
    if ms > 0 {
      CanonicalDenotes(ms);
      ShortRendering(Canonical(ms), 0);
      ParseCharacterised(Print(d), ms * MILLISECOND);
    } else if ms == 0 {
      ParseZeroSeconds();
    }
  }

  lemma ParseZeroSeconds()
    ensures Parse("0s") == Success(0)
  {
    var t := Token("0", Second);
    assert Value("0") == 0 by {
      assert "0"[..0] == "";
    }
    assert [t][1..] == [] && Render([t]) == "0s";
    assert WellFormed([t], 0) && Sum([t], 0) == 0;
    ParseCharacterised("0s", 0);
  }

  // Printing is canonical: an accepted text and the printed form of its value denote the same
  // duration, and two accepted texts denote the same duration exactly when they print alike.
  lemma PrintingIsCanonical(s: string, t: string)
    requires Parse(s).Success? && Parse(t).Success?
    ensures Parse(s).value % MILLISECOND == 0
    ensures Parse(Print(Parse(s).value)) == Parse(s)
    ensures Parse(s) == Parse(t) <==> Print(Parse(s).value) == Print(Parse(t).value)
  {
    hide Print, ParseRest;
    Reprint(s);
    Reprint(t);
  }

  lemma Reprint(s: string)
    requires Parse(s).Success?
    ensures Parse(s).value % MILLISECOND == 0 && Parse(Print(Parse(s).value)) == Parse(s)
  {
    hide Parse, Print;
    var d := Parse(s).value;
    ParseCharacterised(s, d);
    if !(s == "0" && d == 0) {
      var ts :| Render(ts) == s && WellFormed(ts, 0) && Sum(ts, 0) == d;
      WholeMilliseconds(ts, 0);
    }
    RoundTrip(d);
  }
}
