// Durations letter by letter: which texts are read, with what value or error, and how a value is
// printed, with the units and their nanoseconds written out.
module DurationSpelling {
  import opened Words
  import opened Decimal
  import opened DurationText

  // From biggest to smallest.
  const LETTERS: seq<string> := ["y", "w", "d", "h", "m", "s", "ms"]
  const NANOSECONDS: seq<int> := [
    31_536_000_000_000_000, 604_800_000_000_000, 86_400_000_000_000, 3_600_000_000_000, 60_000_000_000, 1_000_000_000,
    1_000_000]

  // A number and a unit of the tables.
  datatype Piece = Piece(digits: string, unit: nat)

  predicate IsPiece(p: Piece) { p.digits != "" && AllDigits(p.digits) && p.unit < 7 }

  // The units get smaller from piece to piece, the first coming after `from`.
  predicate Falling(ps: seq<Piece>, from: nat) {
    ps == [] || (IsPiece(ps[0]) && ps[0].unit >= from && Falling(ps[1..], ps[0].unit + 1))
  }

  function Spelled(ps: seq<Piece>, from: nat): string
    requires Falling(ps, from)
  {
    if ps == [] then "" else ps[0].digits + LETTERS[ps[0].unit] + Spelled(ps[1..], ps[0].unit + 1)
  }

  function Amount(ps: seq<Piece>, from: nat): nat
    requires Falling(ps, from)
  {
    if ps == [] then 0
    else
      Positive(ps[0].unit);
      Value(ps[0].digits) * NANOSECONDS[ps[0].unit] + Amount(ps[1..], ps[0].unit + 1)
  }

  lemma Positive(i: nat)
    requires i < 7
    ensures 0 < NANOSECONDS[i]
  {
  }

  // ---------------------------------------------------------------------------------------
  // Pieces and tokens
  // ---------------------------------------------------------------------------------------

  lemma UnitTables(u: Unit)
    ensures 1 <= Pos(u) <= 7 && Symbol(u) == LETTERS[Pos(u) - 1] && Mult(u) as int == NANOSECONDS[Pos(u) - 1]
  {
  }

  function UnitAt(i: nat): (u: Unit)
    requires i < 7
    ensures Pos(u) == i + 1
  {
    match i
    case 0 => Year case 1 => Week case 2 => Day case 3 => Hour case 4 => Minute case 5 => Second case _ => Milli
  }

  function PieceOf(t: Token): Piece {
    UnitTables(t.unit);
    Piece(t.digits, Pos(t.unit) - 1)
  }

  function PiecesOf(ts: seq<Token>): seq<Piece> { if ts == [] then [] else [PieceOf(ts[0])] + PiecesOf(ts[1..]) }

  lemma {:induction false} TokensAsPieces(ts: seq<Token>, last: nat)
    requires WellFormed(ts, last)
    ensures Falling(PiecesOf(ts), last)
    ensures Spelled(PiecesOf(ts), last) == Render(ts) && Amount(PiecesOf(ts), last) == Sum(ts, last)
  {
    hide Symbol, Mult;
    if ts != [] {
      UnitTables(ts[0].unit);
      TokensAsPieces(ts[1..], Pos(ts[0].unit));
      assert PiecesOf(ts)[1..] == PiecesOf(ts[1..]);
    }
  }

  function TokensOf(ps: seq<Piece>): seq<Token>
    requires forall i :: 0 <= i < |ps| ==> ps[i].unit < 7
  {
    if ps == [] then [] else [Token(ps[0].digits, UnitAt(ps[0].unit))] + TokensOf(ps[1..])
  }

  lemma {:induction false} UnitsBelowSeven(ps: seq<Piece>, from: nat)
    requires Falling(ps, from)
    ensures forall i :: 0 <= i < |ps| ==> ps[i].unit < 7
  {
    if ps != [] {
      UnitsBelowSeven(ps[1..], ps[0].unit + 1);
      assert ps == [ps[0]] + ps[1..];
    }
  }

  lemma {:induction false} PiecesAsTokens(ps: seq<Piece>, from: nat)
    requires Falling(ps, from)
    ensures forall i :: 0 <= i < |ps| ==> ps[i].unit < 7
    ensures WellFormed(TokensOf(ps), from)
    ensures Render(TokensOf(ps)) == Spelled(ps, from) && Sum(TokensOf(ps), from) == Amount(ps, from)
  {
    hide Symbol, Mult;
    UnitsBelowSeven(ps, from);
    if ps != [] {
      var u := UnitAt(ps[0].unit);
      UnitTables(u);
      PiecesAsTokens(ps[1..], ps[0].unit + 1);
      assert TokensOf(ps)[1..] == TokensOf(ps[1..]);
    }
  }

  // ---------------------------------------------------------------------------------------
  // What is read
  // ---------------------------------------------------------------------------------------

  ghost predicate Spells(s: string, d: nat) {
    || (s == "0" && d == 0)
    || (s != "" && exists ps :: Falling(ps, 0) && Spelled(ps, 0) == s && Amount(ps, 0) == d)
  }

  // A text is read as d exactly if it is "0" and d is zero, or it is numbers with the letters y,
  // w, d, h, m, s, ms, in this order, and d is their sum and fits.
  lemma ReadsAsSpelled(s: string, d: nat)
    ensures Parse(s) == Success(d) <==> d <= MAX_INT64 && Spells(s, d)
  {
    hide Parse, Render, Spelled, Sum, Amount, WellFormed, Falling;
    ParseCharacterised(s, d);
    if Denotes(s, d) && !(s == "0" && d == 0) {
      var ts :| Render(ts) == s && WellFormed(ts, 0) && Sum(ts, 0) == d;
      TokensAsPieces(ts, 0);
    }
    if Spells(s, d) && !(s == "0" && d == 0) {
      var ps :| Falling(ps, 0) && Spelled(ps, 0) == s && Amount(ps, 0) == d;
      PiecesAsTokens(ps, 0);
    }
  }

  lemma {:induction false} OnePiece(n: string, i: nat, from: nat)
    requires n != "" && AllDigits(n) && from <= i < 7
    ensures var ps := [Piece(n, i)];
            Falling(ps, from) && Spelled(ps, from) == n + LETTERS[i] && Amount(ps, from) == Value(n) * NANOSECONDS[i]
  {
    hide Value;
    var ps := [Piece(n, i)];
    assert ps[1..] == [] && Spelled([], i + 1) == "" && Amount([], i + 1) == 0;
    assert n + LETTERS[i] + "" == n + LETTERS[i];
  }

  // One number with one unit.
  lemma {:induction false} OneUnit(n: string, i: nat)
    requires n != "" && AllDigits(n) && i < 7
    ensures Value(n) * NANOSECONDS[i] <= MAX_INT64 ==> Parse(n + LETTERS[i]) == Success(Value(n) * NANOSECONDS[i])
  {
    hide Parse, Value;
    Positive(i);
    OnePiece(n, i, 0);
    if Value(n) * NANOSECONDS[i] <= MAX_INT64 {
      ReadsAsSpelled(n + LETTERS[i], Value(n) * NANOSECONDS[i]);
    }
  }

  lemma {:induction false} EachUnit(n: string)
    requires n != "" && AllDigits(n)
    ensures Value(n) * 31_536_000_000_000_000 <= MAX_INT64 ==>
              Parse(n + "y") == Success(Value(n) * 31_536_000_000_000_000)
    ensures Value(n) * 604_800_000_000_000 <= MAX_INT64 ==> Parse(n + "w") == Success(Value(n) * 604_800_000_000_000)
    ensures Value(n) * 86_400_000_000_000 <= MAX_INT64 ==> Parse(n + "d") == Success(Value(n) * 86_400_000_000_000)
    ensures Value(n) * 3_600_000_000_000 <= MAX_INT64 ==> Parse(n + "h") == Success(Value(n) * 3_600_000_000_000)
    ensures Value(n) * 60_000_000_000 <= MAX_INT64 ==> Parse(n + "m") == Success(Value(n) * 60_000_000_000)
    ensures Value(n) * 1_000_000_000 <= MAX_INT64 ==> Parse(n + "s") == Success(Value(n) * 1_000_000_000)
    ensures Value(n) * 1_000_000 <= MAX_INT64 ==> Parse(n + "ms") == Success(Value(n) * 1_000_000)
  {
    hide Parse, Value;
    forall i: nat | i < 7
      ensures Value(n) * NANOSECONDS[i] <= MAX_INT64 ==> Parse(n + LETTERS[i]) == Success(Value(n) * NANOSECONDS[i])
    {
      OneUnit(n, i);
    }
    assert LETTERS[0] == "y" && LETTERS[1] == "w" && LETTERS[2] == "d" && LETTERS[3] == "h" && LETTERS[4] == "m";
    assert LETTERS[5] == "s" && LETTERS[6] == "ms";
  }

  // Two numbers: the second unit has to be smaller than the first.
  lemma {:induction false} TwoUnits(a: string, i: nat, b: string, j: nat)
    requires a != "" && AllDigits(a) && b != "" && AllDigits(b) && i < 7 && j < 7
    requires Value(a) * NANOSECONDS[i] <= MAX_INT64 && Value(b) <= MAX_UINT64
    ensures i < j && Value(a) * NANOSECONDS[i] + Value(b) * NANOSECONDS[j] <= MAX_INT64 ==>
              Parse(a + LETTERS[i] + (b + LETTERS[j]))
              == Success(Value(a) * NANOSECONDS[i] + Value(b) * NANOSECONDS[j])
    ensures i >= j ==> Parse(a + LETTERS[i] + (b + LETTERS[j])) == Failure(NotADuration)
  {
    hide Parse, Value, Symbol, Mult;
    Positive(i);
    Positive(j);
    if i < j && Value(a) * NANOSECONDS[i] + Value(b) * NANOSECONDS[j] <= MAX_INT64 {
      var ps := [Piece(a, i), Piece(b, j)];
      var second := [Piece(b, j)];
      OnePiece(b, j, i + 1);
      assert ps[1..] == second;
      assert Falling(ps, 0) && Spelled(ps, 0) == a + LETTERS[i] + (b + LETTERS[j]);
      ReadsAsSpelled(a + LETTERS[i] + (b + LETTERS[j]), Value(a) * NANOSECONDS[i] + Value(b) * NANOSECONDS[j]);
    }
    if i >= j {
      WrongOrder(a, i, b, j);
    }
  }

  lemma {:induction false} WrongOrder(a: string, i: nat, b: string, j: nat)
    requires a != "" && AllDigits(a) && b != "" && AllDigits(b) && j <= i < 7
    requires Value(a) * NANOSECONDS[i] <= MAX_INT64 && Value(b) <= MAX_UINT64
    ensures Parse(a + LETTERS[i] + (b + LETTERS[j])) == Failure(NotADuration)
  {
    hide Value, Symbol, Mult, NextToken;
    var t, u, rest := Token(a, UnitAt(i)), Token(b, UnitAt(j)), b + LETTERS[j];
    UnitTables(t.unit);
    UnitTables(u.unit);
    assert rest[0] == b[0] && rest + "" == rest;
    ParseRestStep(t, rest, 0, 0);
    NextTokenComplete(u, "");
    assert |a + LETTERS[i] + rest| > 1;
  }

  lemma OrderExamples()
    ensures Parse("5m") == Success(300_000_000_000)
    ensures Parse("1h1m") == Success(3_660_000_000_000)
    ensures Parse("1m1h") == Failure(NotADuration)
  {
    hide Parse;
    SingleDigits();
    EachUnit("5");
    assert "5" + "m" == "5m";
    TwoUnits("1", 3, "1", 4);
    TwoUnits("1", 4, "1", 3);
    assert LETTERS[3] == "h" && LETTERS[4] == "m";
    assert "1" + "h" + ("1" + "m") == "1h1m" && "1" + "m" + ("1" + "h") == "1m1h";
  }

  lemma SingleDigits()
    ensures AllDigits("1") && Value("1") == 1 && AllDigits("5") && Value("5") == 5
  {
    assert "1"[..0] == "" && "5"[..0] == "";
  }

  // ---------------------------------------------------------------------------------------
  // What is refused, and why
  // ---------------------------------------------------------------------------------------

  function Join(digits: string, letters: string, tail: string): string { digits + letters + tail }

  // A number that fits 64 bits, and all that comes before the next digit.
  ghost predicate IsNext(rest: string, digits: string, letters: string, tail: string) {
    && rest == Join(digits, letters, tail)
    && digits != "" && AllDigits(digits) && Value(digits) <= MAX_UINT64
    && letters != "" && (forall i :: 0 <= i < |letters| ==> !IsDigit(letters[i]))
    && (tail == "" || IsDigit(tail[0]))
  }

  // No such thing follows: no digit, a number too big, or no letters after it.
  ghost predicate NothingNext(rest: string) {
    forall digits, letters, tail :: !IsNext(rest, digits, letters, tail)
  }

  // What is wrong with the rest of a text after pieces up to the unit `from` that make `sum`.
  ghost predicate IsWrong(rest: string, from: nat, sum: nat, e: DurationError) {
    || (e == NotADuration && NothingNext(rest))
    || exists digits, letters, tail :: IsNext(rest, digits, letters, tail) && IsWrongNext(digits, letters, from, sum, e)
  }

  ghost predicate IsWrongNext(digits: string, letters: string, from: nat, sum: nat, e: DurationError)
    requires AllDigits(digits)
  {
    if letters !in LETTERS then e == UnknownUnit(letters)
    else
      exists i: nat :: i < 7 && LETTERS[i] == letters
        && if i < from then e == NotADuration else e == OutOfRange && sum + Value(digits) * NANOSECONDS[i] > MAX_INT64
  }

  // The pieces read before the error, and the rest.
  ghost predicate IsCulprit(s: string, from: nat, sum: nat, ps: seq<Piece>, rest: string, e: DurationError) {
    && Falling(ps, from) && s == Spelled(ps, from) + rest && rest != ""
    && sum + Amount(ps, from) <= MAX_INT64
    && IsWrong(rest, if ps == [] then from else ps[|ps| - 1].unit + 1, sum + Amount(ps, from), e)
  }

  lemma UnitOfLetters(letters: string)
    ensures LookupUnit(letters).None? <==> letters !in LETTERS
    ensures LookupUnit(letters).Some? ==> letters == LETTERS[Pos(LookupUnit(letters).value) - 1]
  {
    if LookupUnit(letters).Some? {
      UnitTables(LookupUnit(letters).value);
    }
    forall i: nat | i < 7 ensures LookupUnit(LETTERS[i]).Some? {
      UnitTables(UnitAt(i));
    }
  }

  lemma {:induction false} NextIsUnique(rest: string, digits: string, letters: string, tail: string)
    requires IsNext(rest, digits, letters, tail)
    ensures rest != "" && DigitRun(rest) == |digits| && rest[..|digits|] == digits
    ensures rest[|digits|..] == letters + tail && NonDigitRun(letters + tail) == |letters|
  {
    assert rest[..|digits|] == digits && rest[|digits|] == letters[0];
    DigitRunUnique(rest, |digits|);
    var u := rest[|digits|..];
    assert u == letters + tail;
    assert forall i :: 0 <= i < |letters| ==> u[i] == letters[i];
    NonDigitRunUnique(u, |letters|);
  }

  // One turn of the parser.
  lemma TurnFails(s: string, dur: nat, last: nat, e: DurationError)
    requires s != "" && dur <= MAX_INT64
    requires if NextToken(s).Failure? then NextToken(s) == Failure(e)
             else
               var (t, rest) := NextToken(s).value;
               if Pos(t.unit) <= last then e == NotADuration
               else e == OutOfRange && dur + Nanos(Value(t.digits), t.unit) > MAX_INT64
    ensures IsWrong(s, last, dur, e)
  {
    hide Value, Symbol, Mult, LookupUnit;
    if NextToken(s) == Failure(NotADuration) {
      forall digits, letters, tail ensures !IsNext(s, digits, letters, tail) {
        if IsNext(s, digits, letters, tail) {
          NextIsUnique(s, digits, letters, tail);
        }
      }
    } else {
      var i := DigitRun(s);
      var j := NonDigitRun(s[i..]);
      var digits, letters, tail := s[..i], s[i..][..j], s[i..][j..];
      assert s == Join(digits, letters, tail);
      assert IsNext(s, digits, letters, tail);
      UnitOfLetters(letters);
      if LookupUnit(letters).Some? {
        UnitTables(LookupUnit(letters).value);
        assert LETTERS[Pos(LookupUnit(letters).value) - 1] == letters;
      }
      assert IsWrongNext(digits, letters, last, dur, e);
    }
  }

  lemma {:induction false} RestFails(s: string, dur: nat, last: nat) returns (ps: seq<Piece>, rest: string)
    requires ParseRest(s, dur, last).Failure? && dur <= MAX_INT64
    ensures IsCulprit(s, last, dur, ps, rest, ParseRest(s, dur, last).error)
    decreases |s|
  {
    hide NextToken, Nanos, Value, IsWrong;
    var e := ParseRest(s, dur, last).error;
    if NextToken(s).Success? {
      NextTokenSplits(s);
      var (t, tail) := NextToken(s).value;
      if Pos(t.unit) > last && dur + Nanos(Value(t.digits), t.unit) <= MAX_INT64 {
        var more;
        more, rest := RestFails(tail, dur + Nanos(Value(t.digits), t.unit), Pos(t.unit));
        ps := [PieceOf(t)] + more;
        PieceBefore(s, t, tail, dur, last, more, rest, e);
        return;
      }
    }
    TurnFails(s, dur, last, e);
    ps, rest := [], s;
  }

  lemma PieceBefore(s: string, t: Token, tail: string, dur: nat, last: nat, more: seq<Piece>, rest: string,
                    e: DurationError)
    requires IsToken(t) && s == t.digits + Symbol(t.unit) + tail && Pos(t.unit) > last
    requires IsCulprit(tail, Pos(t.unit), dur + Nanos(Value(t.digits), t.unit), more, rest, e)
    ensures IsCulprit(s, last, dur, [PieceOf(t)] + more, rest, e)
  {
    hide Value, Symbol, Mult, IsWrong;
    var ps := [PieceOf(t)] + more;
    UnitTables(t.unit);
    assert ps[1..] == more;
    assert Falling(ps, last);
    assert Spelled(ps, last) == t.digits + Symbol(t.unit) + Spelled(more, Pos(t.unit));
    assert Amount(ps, last) == Nanos(Value(t.digits), t.unit) + Amount(more, Pos(t.unit));
  }

  // Why a text is refused: it is empty; or after pieces in order there is something else than a
  // number with letters, or unknown letters, or a unit out of order, or the sum is too big.
  lemma RefusedBecause(s: string, e: DurationError)
    requires Parse(s) == Failure(e)
    ensures s == "" ==> e == EmptyText
    ensures s != "" ==> exists ps, rest :: IsCulprit(s, 0, 0, ps, rest, e)
  {
    hide ParseRest, IsCulprit;
    if s != "" {
      var ps, rest := RestFails(s, 0, 0);
    }
  }

  // ---------------------------------------------------------------------------------------
  // What is printed
  // ---------------------------------------------------------------------------------------

  function Part(n: nat, letters: string): string { if n == 0 then "" else Numeral(n) + letters }

  lemma PartIsRendered(n: nat, u: Unit)
    ensures Render(NonZero(n, u)) == Part(n, Symbol(u))
  {
    hide Numeral;
    RenderNothing();
    if n > 0 {
      RenderSingle(n, u);
    }
  }

  // Less than a millisecond is zero seconds, a negative millisecond or more is nothing; a whole
  // number of years, or else of weeks, is one number; all else is days, hours, minutes, seconds
  // and milliseconds, without those that are zero.
  lemma PrintsAsSpelled(d: int)
    ensures -1_000_000 < d < 1_000_000 ==> Print(d) == "0s"
    ensures d <= -1_000_000 ==> Print(d) == ""
    ensures d >= 1_000_000 ==>
              var ms := d / 1_000_000;
              Print(d) ==
              if ms % 31_536_000_000 == 0 then Numeral(ms / 31_536_000_000) + "y"
              else if ms % 604_800_000 == 0 then Numeral(ms / 604_800_000) + "w"
              else
                Part(ms / 86_400_000, "d") + Part(ms / 3_600_000 % 24, "h") + Part(ms / 60_000 % 60, "m")
                + Part(ms / 1_000 % 60, "s") + Part(ms % 1_000, "ms")
  {
    hide Render, Numeral, NonZero, Canonical;
    Truncated(d);
    if d >= 1_000_000 {
      CanonicalPrinted(d / 1_000_000);
    }
  }

  lemma Truncated(d: int)
    ensures TruncDiv(d, MILLISECOND) == 0 <==> -1_000_000 < d < 1_000_000
    ensures TruncDiv(d, MILLISECOND) < 0 <==> d <= -1_000_000
    ensures d >= 1_000_000 ==> TruncDiv(d, MILLISECOND) == d / 1_000_000 > 0
  {
  }

  lemma {:induction false} CanonicalPrinted(ms: nat)
    requires ms > 0
    ensures Render(Canonical(ms)) ==
            if ms % 31_536_000_000 == 0 then Numeral(ms / 31_536_000_000) + "y"
            else if ms % 604_800_000 == 0 then Numeral(ms / 604_800_000) + "w"
            else
              Part(ms / 86_400_000, "d") + Part(ms / 3_600_000 % 24, "h") + Part(ms / 60_000 % 60, "m")
              + Part(ms / 1_000 % 60, "s") + Part(ms % 1_000, "ms")
  {
    hide Render, Numeral, NonZero;
    forall n: nat, u ensures Render(NonZero(n, u)) == Part(n, Symbol(u)) {
      PartIsRendered(n, u);
    }
    Shares(ms);
    RenderFive(NonZero(Share(ms, Day), Day), NonZero(Share(ms, Hour), Hour), NonZero(Share(ms, Minute), Minute),
               NonZero(Share(ms, Second), Second), NonZero(Share(ms, Milli), Milli));
  }

  lemma Shares(ms: nat)
    ensures Millis(Year) == 31_536_000_000 && Millis(Week) == 604_800_000
    ensures Share(ms, Day) == ms / 86_400_000 && Share(ms, Hour) == ms / 3_600_000 % 24
    ensures Share(ms, Minute) == ms / 60_000 % 60 && Share(ms, Second) == ms / 1_000 % 60
    ensures Share(ms, Milli) == ms % 1_000
  {
    DigitOfQuotient(ms, 3_600_000, 24);
    DigitOfQuotient(ms, 60_000, 60);
    DigitOfQuotient(ms, 1_000, 60);
  }

  lemma DigitOfQuotient(m: nat, b: nat, k: nat)
    requires b > 0 && k > 0 && b * k > 0
    ensures m % (b * k) / b == m / b % k
  {
    var t, r := m / (b * k), m % (b * k);
    var q, e := r / b, r % b;
    assert b * k * t == b * (k * t);
    Distribute(b, k * t, q);
    assert m == b * (k * t + q) + e;
    Quotient(m, b, k * t + q, e);
    assert b * q <= r < b * k;
    SmallQuotient(b, q, k);
    QuotientUnique(k * t + q, k, t, q);
  }

  lemma SmallQuotient(b: nat, q: nat, k: nat)
    requires b * q < b * k
    ensures q < k
  {
    assert q >= k ==> b * q >= b * k;
  }

  lemma Quotient(n: int, b: int, q: int, e: nat)
    requires b > 0 && n == b * q + e && e < b
    ensures n / b == q
  {
    QuotientUnique(n, b, q, e);
    assert b * (n / b) == b * q;
  }
}
