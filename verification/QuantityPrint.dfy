/** `Amount::canonical`: amounts printed in kubectl's canonical form. */
module QuantityPrint {
  import opened Whitespace
  import opened DecimalText
  import opened Quantity
  import opened QuantityParse

  const NANO := 1_000_000_000

  function Abs(n: int): nat {
    if n < 0 then -n else n
  }

  /** A whole number, as `Display` prints it, and its unit. */
  function WholeNumber(m: int, tail: Tail): Lexeme {
    Lexeme(if m < 0 then "-" else "", Text(Abs(m)), "", "", tail)
  }

  function ExponentTail(e: int): Tail {
    if e == 0 then Suffix(One) else Exponent('e', if e < 0 then "-" else "", Text(Abs(e)))
  }

  /** `m` with `tail` is the amount in the largest unit its notation has that
      leaves a whole number. */
  ghost predicate IsCanonical(a: Amount, m: int, tail: Tail) {
    if a.nanos == 0 then m == 0 && tail == Suffix(One)
    else if a.format == Binary && a.nanos % NANO == 0 then
      tail.Suffix? && var u := UnitOf(tail.name);
      u.decimal == 0 && m * Shifted(1, u.binary) * NANO == a.nanos && (u.binary == 6 || m % 1024 != 0)
    else if a.format == DecimalExponent then
      exists e :: -9 <= e && tail == ExponentTail(e) && e % 3 == 0 && m * Pow10(9 + e) == a.nanos && m % 1000 != 0
    else
      tail.Suffix? && var u := UnitOf(tail.name);
      u.binary == 0 && m * Pow10(9 + u.decimal) == a.nanos && (u.decimal == 18 || m % 1000 != 0)
  }

  // ----- the printer -----

  /** `m * 10^k`, one digit at a time. */
  function Times10(m: int, k: nat): int {
    if k == 0 then m else 10 * Times10(m, k - 1)
  }

  lemma {:induction false} Times10IsProduct(m: int, k: nat)
    ensures Times10(m, k) == m * Pow10(k)
  {
    if k > 0 {
      Times10IsProduct(m, k - 1);
      Regroup(m, Pow10(k - 1));
    }
  }

  lemma Regroup(m: int, p: int)
    ensures 10 * (m * p) == m * (10 * p)
  {
  }

  lemma {:induction false} Times10Next(m: int, k: nat)
    ensures Times10(10 * m, k) == Times10(m, k + 1)
  {
    if k > 0 {
      Times10Next(m, k - 1);
    }
  }

  lemma {:induction false} Times10Range(m: int, k: nat)
    ensures Abs(m) <= Abs(Times10(m, k)) && (m < 0 <==> Times10(m, k) < 0)
  {
    if k > 0 {
      Times10Range(m, k - 1);
    }
  }

  /** The first loop: trailing zeros move into the exponent. */
  method StripZeros(nanos: int) returns (m: int, e: int)
    requires nanos != 0 && InI128(nanos)
    ensures -9 <= e && m % 10 != 0 && InI128(m) && Times10(m, 9 + e) == nanos
  {
    m, e := nanos, -9;
    while m % 10 == 0
      invariant -9 <= e && m != 0 && InI128(m) && Times10(m, 9 + e) == nanos
      decreases Abs(m)
    {
      var tenth := m / 10;
      Times10Next(tenth, 9 + e);
      m := tenth;
      e := e + 1;
    }
  }

  lemma TensEndInZero(m: int, q: int)
    requires m == 10 * q
    ensures m % 10 == 0
  {
  }

  lemma LastDigitOf(m: int)
    ensures m % 1000 == 0 ==> m % 10 == 0
    ensures 10 * m % 1000 == 0 ==> m % 10 == 0
    ensures 100 * m % 1000 == 0 ==> m % 10 == 0
  {
    if m % 1000 == 0 {
      TensEndInZero(m, 100 * (m / 1000));
    }
    if 10 * m % 1000 == 0 {
      TensEndInZero(m, 10 * (10 * m / 1000));
    }
    if 100 * m % 1000 == 0 {
      TensEndInZero(m, 100 * m / 1000);
    }
  }

  /** Shifting a last digit up to two places left leaves it in view. */
  lemma ShiftedDigitStays(m: int)
    requires m % 10 != 0
    ensures m % 1000 != 0 && 10 * m % 1000 != 0 && 100 * m % 1000 != 0
  {
    LastDigitOf(m);
  }

  lemma TimesTenFits(m: int, k: nat, nanos: int)
    requires Times10(m, k + 1) == nanos && InI128(nanos)
    ensures Times10(10 * m, k) == nanos && InI128(10 * m)
  {
    Times10Next(m, k);
    Times10Range(10 * m, k);
  }

  /** The second loop: back until the exponent is a multiple of three. */
  method Align(nanos: int, m0: int, e0: int) returns (m: int, e: int)
    requires -9 <= e0 && m0 % 10 != 0 && InI128(m0) && Times10(m0, 9 + e0) == nanos && InI128(nanos)
    ensures -9 <= e && e % 3 == 0 && Times10(m, 9 + e) == nanos && m % 1000 != 0
  {
    hide Times10, InI128;
    ghost var back := e0 % 3;
    m, e := m0, e0;
    while e % 3 != 0
      invariant -9 <= e && e0 - back <= e <= e0
      invariant m == if e == e0 then m0 else if e == e0 - 1 then 10 * m0 else 100 * m0
      invariant Times10(m, 9 + e) == nanos
      decreases e + 9
    {
      TimesTenFits(m, 9 + e - 1, nanos);
      assert InI128(10 * m);
      m := 10 * m;
      e := e - 1;
    }
    ShiftedDigitStays(m0);
  }

  lemma NoMultipleBetween(t: int, d: nat)
    requires 0 <= t * d < d
    ensures t == 0
  {
    if t >= 1 {
      MulAtLeast(d, t);
    }
  }

  lemma MultipleMod(q: int, d: nat)
    requires d > 0
    ensures (q * d) % d == 0
  {
    var n := q * d;
    var k, r := n / d, n % d;
    assert n == d * k + r;
    assert r == (q - k) * d;
    NoMultipleBetween(q - k, d);
  }

  /** What a unit and the next larger one say about the number between them. */
  lemma Coarser(m: int, p: nat, factor: nat)
    requires p > 0 && factor > 0 && (m * p) % (factor * p) != 0
    ensures m % factor != 0
  {
    if m % factor == 0 {
      var q := m / factor;
      assert m == q * factor;
      Associate(q, factor, p);
      MultipleMod(q, factor * p);
    }
  }

  lemma Associate(a: int, b: int, c: int)
    ensures a * b * c == a * (b * c)
  {
  }

  lemma DivExact(n: int, d: nat)
    requires d > 0 && n % d == 0
    ensures n / d * d == n
  {
  }

  const DECIMAL_UNITS := [Exa, Peta, Tera, Giga, Mega, Kilo, One, Milli, Micro, Nano]
  const BINARY_UNITS := [Exbi, Pebi, Tebi, Gibi, Mebi, Kibi]

  lemma DecimalUnit(i: nat)
    requires i < 10
    ensures UnitOf(DECIMAL_UNITS[i]) == Unit(18 - 3 * i, 0)
  {
  }

  lemma BinaryUnit(i: nat)
    requires i < 6
    ensures UnitOf(BINARY_UNITS[i]) == Unit(0, 6 - i)
  {
  }

  lemma CoarsestUnit(nanos: int, unit: nat, k: nat)
    requires unit == Pow10(k) && nanos % unit == 0
    ensures nanos / unit * unit == nanos
    ensures nanos % Pow10(k + 3) != 0 ==> (nanos / unit) % 1000 != 0
  {
    DivExact(nanos, unit);
    assert Pow10(k + 3) == 10 * Pow10(k + 2) && Pow10(k + 2) == 10 * Pow10(k + 1);
    if nanos % Pow10(k + 3) != 0 {
      Coarser(nanos / unit, unit, 1000);
    }
  }

  method DecimalForm(nanos: int) returns (m: int, name: SuffixName)
    ensures var u := UnitOf(name);
      u.binary == 0 && m * Pow10(9 + u.decimal) == nanos && (u.decimal == 18 || m % 1000 != 0)
  {
    for i := 0 to 10
      invariant i > 0 ==> nanos % Pow10(30 - 3 * i) != 0
    {
      var unit := Pow10(27 - 3 * i);
      if nanos % unit == 0 {
        DecimalUnit(i);
        CoarsestUnit(nanos, unit, 27 - 3 * i);
        return nanos / unit, DECIMAL_UNITS[i];
      }
    }
    assert false;
  }

  lemma CoarsestBinary(bytes: int, unit: nat, k: nat)
    requires unit == Shifted(1, k) > 0 && bytes % unit == 0
    ensures bytes / unit * unit == bytes && Shifted(1, k + 1) > 0
    ensures bytes % Shifted(1, k + 1) != 0 ==> (bytes / unit) % 1024 != 0
  {
    DivExact(bytes, unit);
    if bytes % Shifted(1, k + 1) != 0 {
      Coarser(bytes / unit, unit, 1024);
    }
  }

  method BinaryForm(bytes: int) returns (m: int, name: SuffixName)
    ensures var u := UnitOf(name);
      u.decimal == 0 && m * Shifted(1, u.binary) == bytes && (u.binary == 6 || m % 1024 != 0)
  {
    for i := 0 to 6
      invariant i > 0 ==> Shifted(1, 7 - i) > 0 && bytes % Shifted(1, 7 - i) != 0
    {
      ShiftedGrows(1, 6 - i);
      var unit := Shifted(1, 6 - i);
      if bytes % unit == 0 {
        BinaryUnit(i);
        CoarsestBinary(bytes, unit, 6 - i);
        return bytes / unit, BINARY_UNITS[i];
      }
    }
    return bytes, One;
  }

  method Canonical(a: Amount) returns (text: string)
    requires InI128(a.nanos)
    ensures exists m, tail :: IsCanonical(a, m, tail) && text == Render(WholeNumber(m, tail))
  {
    var m: int, tail: Tail;
    if a.nanos == 0 {
      m, tail := 0, Suffix(One);
    } else if a.format == Binary && a.nanos % NANO == 0 {
      var name: SuffixName;
      m, name := BinaryForm(a.nanos / NANO);
      tail := Suffix(name);
    } else if a.format == DecimalExponent {
      var m0, e0 := StripZeros(a.nanos);
      var e: int;
      m, e := Align(a.nanos, m0, e0);
      Times10IsProduct(m, 9 + e);
      tail := ExponentTail(e);
    } else {
      var name: SuffixName;
      m, name := DecimalForm(a.nanos);
      tail := Suffix(name);
    }
    assert IsCanonical(a, m, tail);
    text := Render(WholeNumber(m, tail));
  }

  /** Which form is chosen, and that no larger unit would do: a whole number of
      bytes in powers of 1024, exponents in steps of three, decimal suffixes
      otherwise. */
  lemma CanonicalChoice(a: Amount, m: int, tail: Tail)
    requires IsCanonical(a, m, tail)
    ensures a.nanos == 0 ==> m == 0 && tail == Suffix(One)
    ensures a.nanos != 0 && a.format == Binary && a.nanos % 1_000_000_000 == 0 ==>
      && tail.Suffix? && tail.name in {One, Kibi, Mebi, Gibi, Tebi, Pebi, Exbi}
      && (tail.name != Exbi ==> m % 1024 != 0)
    ensures a.nanos != 0 && a.format == DecimalExponent ==>
      && (tail == Suffix(One) || (tail.Exponent? && tail.marker == 'e' && tail.sign in {"", "-"}))
      && m % 1000 != 0
      && exists e :: -9 <= e && e % 3 == 0 && tail == ExponentTail(e)
    ensures a.nanos != 0 && a.format != DecimalExponent && (a.format == Decimal || a.nanos % 1_000_000_000 != 0) ==>
      && tail.Suffix? && tail.name in {One, Nano, Micro, Milli, Kilo, Mega, Giga, Tera, Peta, Exa}
      && (tail.name != Exa ==> m % 1000 != 0)
  {
    hide Text, Pow10, Shifted;
  }

  // ----- the round trip -----

  lemma NothingToTrim(s: string)
    requires s != "" && !IsSpace(s[0]) && !IsSpace(s[|s| - 1])
    ensures Trim(s) == s
  {
  }

  lemma AbsOfProduct(m: int, p: nat)
    requires p > 0
    ensures Abs(m) * p == Abs(m * p) && (m < 0 <==> m * p < 0)
  {
    if m < 0 {
      assert -m * p == -(m * p);
      MulAtLeast(-m, p);
    } else {
      MulAtLeast(m, p);
    }
  }

  /** A whole number in some unit reads back as the amount it makes up. */
  lemma WholeNumberEvaluates(l: Lexeme, nanos: int)
    requires WellFormed(l) && l.fraction == "" && NanoPower(l) >= 0 && -9 <= ExponentOf(l.tail)
    requires Base(l) * Pow10(NanoPower(l)) == Abs(nanos) <= I128_MAX
    requires nanos != 0 || (NanoPower(l) == 9 && ExponentOf(l.tail) == 0)
    requires l.sign == "-" <==> nanos < 0
    ensures Evaluated(l).Some? && Evaluated(l).value.nanos == nanos
  {
    hide Base, Evaluated, Pow10, Value;
    var base, p := Base(l), Pow10(NanoPower(l));
    MulAtLeast(base, p);
    if nanos != 0 {
      MulAtLeast(p, base);
      Pow10InI128(NanoPower(l));
    } else {
      assert base == 0;
    }
    assert ScaleOf(l).decimal >= -9;
    FitsMeansEvaluated(l);
  }

  /** The whole number `m` in a unit of `k` tens is worth `n` nanounits. */
  ghost predicate Makes(m: int, tail: Tail, n: int) {
    var l := WholeNumber(m, tail);
    && WellFormed(l) && NanoPower(l) >= 0 && -9 <= ExponentOf(l.tail)
    && Base(l) * Pow10(NanoPower(l)) == Abs(n)
    && (m < 0 <==> n < 0)
  }

  lemma WholeNumberBase(m: int, tail: Tail)
    requires WellFormedTail(tail)
    ensures var l := WholeNumber(m, tail);
      && WellFormed(l) && Base(l) == Shifted(Abs(m), ScaleOf(l).binary)
      && NanoPower(l) == 9 + ScaleOf(l).decimal + ExponentOf(l.tail)
  {
    var l := WholeNumber(m, tail);
    assert l.whole + l.fraction == l.whole;
    ValueOfText(Abs(m));
  }

  lemma BinaryMakes(m: int, name: SuffixName, n: int)
    requires UnitOf(name).decimal == 0 && m * Shifted(1, UnitOf(name).binary) * NANO == n
    ensures Makes(m, Suffix(name), n)
  {
    var b := UnitOf(name).binary;
    WholeNumberBase(m, Suffix(name));
    ShiftedIsProduct(Abs(m), b);
    ShiftedGrows(1, b);
    AbsOfProduct(m, Shifted(1, b));
    AbsOfProduct(m * Shifted(1, b), NANO);
    assert Pow10(9) == NANO;
  }

  lemma ExponentMakes(m: int, e: int, n: int)
    requires -9 <= e && m * Pow10(9 + e) == n
    ensures Makes(m, ExponentTail(e), n)
  {
    ValueOfText(Abs(e));
    hide Pow10, Value, Text;
    WholeNumberBase(m, ExponentTail(e));
    AbsOfProduct(m, Pow10(9 + e));
  }

  lemma DecimalMakes(m: int, name: SuffixName, n: int)
    requires UnitOf(name).binary == 0 && m * Pow10(9 + UnitOf(name).decimal) == n
    ensures Makes(m, Suffix(name), n)
  {
    WholeNumberBase(m, Suffix(name));
    AbsOfProduct(m, Pow10(9 + UnitOf(name).decimal));
  }

  /** Notation and amount agree on the number of nanounits. */
  lemma CanonicalMakes(a: Amount, m: int, tail: Tail)
    requires IsCanonical(a, m, tail)
    ensures Makes(m, tail, a.nanos)
  {
    if a.nanos == 0 {
      WholeNumberBase(m, tail);
    } else if a.format == Binary && a.nanos % NANO == 0 {
      BinaryMakes(m, tail.name, a.nanos);
    } else if a.format == DecimalExponent {
      var e :| -9 <= e && tail == ExponentTail(e) && m * Pow10(9 + e) == a.nanos;
      ExponentMakes(m, e, a.nanos);
    } else {
      DecimalMakes(m, tail.name, a.nanos);
    }
  }

  lemma RenderedEnds(l: Lexeme)
    requires WellFormed(l) && l.point == "" && l.fraction == ""
    ensures var s := Render(l); s != "" && !IsSpace(s[0]) && !IsSpace(s[|s| - 1])
  {
    var s, rest := Render(l), RenderTail(l.tail);
    assert s == l.sign + (l.whole + rest);
    assert l.sign != "" ==> s[0] == l.sign[0];
    assert l.sign == "" ==> s[0] == l.whole[0];
    if rest == "" {
      assert s[|s| - 1] == l.whole[|l.whole| - 1];
    } else {
      assert s[|s| - 1] == rest[|rest| - 1];
      TailEnd(l.tail);
    }
  }

  lemma TailEnd(tail: Tail)
    requires WellFormedTail(tail)
    ensures var r := RenderTail(tail); r != "" ==> !IsSpace(r[|r| - 1])
  {
    match tail
    case Suffix(name) =>
    case Exponent(marker, sign, digits) =>
      var r := RenderTail(tail);
      assert r[|r| - 1] == digits[|digits| - 1];
  }

  /** Quantity round trip: in all three notations the canonical text reads back
      as the same amount, for every 128-bit amount but the least one. */
  lemma CanonicalRoundTrip(a: Amount, m: int, tail: Tail)
    requires InI128(a.nanos) && IsCanonical(a, m, tail)
    ensures var p := Parsed(Render(WholeNumber(m, tail)));
      (p.Some? && p.value.nanos == a.nanos) <==> a.nanos != I128_MIN
  {
    var l := WholeNumber(m, tail);
    CanonicalMakes(a, m, tail);
    RenderedEnds(l);
    NothingToTrim(Render(l));
    ParsedOf(Render(l), l);
    if a.nanos != I128_MIN {
      WholeNumberEvaluates(l, a.nanos);
    }
  }
}
