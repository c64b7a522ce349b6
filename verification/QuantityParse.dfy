/** `Amount::parse`: quantities read exactly into nanounits, or refused. */
module QuantityParse {
  import opened Options
  import opened Whitespace
  import opened DecimalText
  import opened Quantity

  // ----- what a quantity is worth -----

  function Pow10(n: nat): (p: nat)
    ensures p > 0
  {
    if n == 0 then 1 else 10 * Pow10(n - 1)
  }

  /** `v * 1024^n` */
  function Shifted(v: nat, n: nat): nat {
    if n == 0 then v else 1024 * Shifted(v, n - 1)
  }

  function TenTo(k: int): real {
    if k >= 0 then Pow10(k) as real else 1.0 / Pow10(-k) as real
  }

  function ScaleOf(l: Lexeme): Unit {
    if l.tail.Suffix? then UnitOf(l.tail.name) else Unit(0, 0)
  }

  /** The signed exponent a tail spells. */
  function ExponentOf(tail: Tail): int
    requires WellFormedTail(tail)
  {
    if tail.Suffix? then 0
    else
      var n: int := Value(tail.digits);
      if tail.sign == "-" then -n else n
  }

  /** The digits and the binary suffix, as a whole number. */
  function Base(l: Lexeme): nat
    requires WellFormed(l)
  {
    Shifted(Value(l.whole + l.fraction), ScaleOf(l).binary)
  }

  /** The power of ten between `Base` and nanounits. */
  function NanoPower(l: Lexeme): int
    requires WellFormed(l)
  {
    9 + ScaleOf(l).decimal + ExponentOf(l.tail) - |l.fraction|
  }

  /** The exact size of the quantity in nanounits, whatever its sign. */
  function ExactNanos(l: Lexeme): real
    requires WellFormed(l)
  {
    Worth(Base(l), NanoPower(l))
  }

  function Worth(base: nat, power: int): real {
    base as real * TenTo(power)
  }

  function CeilDiv(n: nat, d: nat): nat
    requires d > 0
  {
    n / d + if n % d == 0 then 0 else 1
  }

  /** `base * 10^power`, rounded up to a whole number. */
  function RoundUp(base: nat, power: int): nat {
    if power >= 0 then base * Pow10(power) else CeilDiv(base, Pow10(-power))
  }

  function Nanos(l: Lexeme): nat
    requires WellFormed(l)
  {
    RoundUp(Base(l), NanoPower(l))
  }

  /** Everything the checked arithmetic of the source has to represent. */
  predicate Fits(l: Lexeme)
    requires WellFormed(l)
  {
    && I32_MIN <= ExponentOf(l.tail) <= I32_MAX - 9 && |l.fraction| <= I32_MAX
    && Base(l) <= I128_MAX && -38 <= NanoPower(l) <= 38 && Nanos(l) <= I128_MAX
  }

  function FormatOf(l: Lexeme): Format
    requires WellFormed(l)
  {
    if l.tail.Exponent? then DecimalExponent else if ScaleOf(l).binary > 0 then Binary else Decimal
  }

  /** The numbers a quantity's parts spell. */
  datatype Reading = Reading(negative: bool, coefficient: nat, fractionDigits: nat, exponent: int,
                             unit: Unit, format: Format)

  function ReadingOf(l: Lexeme): Reading
    requires WellFormed(l)
  {
    Reading(l.sign == "-", Value(l.whole + l.fraction), |l.fraction|, ExponentOf(l.tail), ScaleOf(l), FormatOf(l))
  }

  predicate Readable(l: Lexeme)
    requires WellFormed(l)
  {
    && I32_MIN <= ExponentOf(l.tail) <= I32_MAX && |l.fraction| <= I32_MAX
    && Value(l.whole + l.fraction) <= I128_MAX
  }

  function Combined(coefficient: nat, unit: Unit, exponent: int, fractionDigits: nat): Option<nat> {
    var base, power := Shifted(coefficient, unit.binary), 9 + unit.decimal + exponent - fractionDigits;
    if exponent <= I32_MAX - 9 && base <= I128_MAX && -38 <= power <= 38 && RoundUp(base, power) <= I128_MAX
    then Some(RoundUp(base, power)) else None
  }

  function AmountOf(r: Reading): Option<Amount> {
    match Combined(r.coefficient, r.unit, r.exponent, r.fractionDigits)
    case None => None
    case Some(n) => Some(Amount(if r.negative then -(n as int) else n, r.format))
  }

  function Evaluated(l: Lexeme): Option<Amount>
    requires WellFormed(l)
  {
    if Readable(l) then AmountOf(ReadingOf(l)) else None
  }

  function ReadingIn(t: string): Option<Reading> {
    match Scan(t)
    case None => None
    case Some(l) =>
      ScanSound(t);
      if Readable(l) then Some(ReadingOf(l)) else None
  }

  function Parsed(text: string): Option<Amount> {
    match ReadingIn(Trim(text))
    case None => None
    case Some(r) => AmountOf(r)
  }

  lemma {:induction false} Pow10Grows(m: nat, n: nat)
    requires m <= n
    ensures Pow10(m) <= Pow10(n)
    decreases n - m
  {
    if m < n {
      Pow10Grows(m, n - 1);
    }
  }

  /** 10^38 is the last power of ten below the limit. */
  lemma Pow10InI128(n: nat)
    ensures Pow10(n) <= I128_MAX <==> n <= 38
  {
    assert Pow10(10) == 10_000_000_000;
    assert Pow10(20) == 100_000_000_000_000_000_000;
    assert Pow10(30) == 1_000_000_000_000_000_000_000_000_000_000;
    assert Pow10(38) == 100_000_000_000_000_000_000_000_000_000_000_000_000;
    if n <= 38 {
      Pow10Grows(n, 38);
    } else {
      Pow10Grows(39, n);
    }
  }

  lemma CeilDivIsCeiling(n: nat, d: nat)
    requires d > 0
    ensures (CeilDiv(n, d) - 1) * d < n <= CeilDiv(n, d) * d
  {
    assert n == d * (n / d) + n % d;
  }

  lemma ProductOrder(x: real, y: real, r: real)
    requires r > 0.0
    ensures x * r < y * r <==> x < y
  {
  }

  lemma Quotient(n: real, r: real)
    requires r > 0.0
    ensures n * (1.0 / r) * r == n
  {
    assert (1.0 / r) * r == 1.0;
  }

  lemma RealProduct(a: int, d: nat)
    ensures (a * d) as real == a as real * d as real
  {
  }

  lemma Scaled(q: nat, d: nat, n: nat)
    requires d > 0 && (q - 1) * d < n <= q * d
    ensures q as real - 1.0 < n as real * (1.0 / d as real) <= q as real
  {
    var r := d as real;
    var x := n as real * (1.0 / r);
    Quotient(n as real, r);
    RealProduct(q - 1, d);
    RealProduct(q, d);
    ProductOrder((q - 1) as real, x, r);
    if x > q as real {
      ProductOrder(q as real, x, r);
    }
  }

  ghost predicate IsCeiling(q: int, x: real) {
    q as real - 1.0 < x <= q as real
  }

  lemma RoundUpIsCeiling(base: nat, power: int)
    ensures IsCeiling(RoundUp(base, power), Worth(base, power))
  {
    if power < 0 {
      CeilDivIsCeiling(base, Pow10(-power));
      Scaled(RoundUp(base, power), Pow10(-power), base);
    }
  }

  /** The bounds of `Fits` are what the checked steps amount to. */
  lemma FitsMeansEvaluated(l: Lexeme)
    requires WellFormed(l)
    ensures Evaluated(l).Some? <==> Fits(l)
    ensures Fits(l) ==> Evaluated(l).value.nanos == Size(l, Nanos(l)) && Evaluated(l).value.format == FormatOf(l)
  {
    ShiftedGrows(Value(l.whole + l.fraction), ScaleOf(l).binary);
  }

  lemma ParsedOf(text: string, l: Lexeme)
    requires WellFormed(l) && Trim(text) == Render(l)
    ensures Parsed(text) == Evaluated(l)
  {
    ScanComplete(l);
  }

  lemma NanosAreTheCeiling(l: Lexeme)
    requires WellFormed(l)
    ensures IsCeiling(Nanos(l), ExactNanos(l))
  {
    var base, power := Base(l), NanoPower(l);
    RoundUpIsCeiling(base, power);
  }

  /** Exact parsing. A text is accepted exactly when it is a quantity whose
      parts fit, and then the amount is the exact value rounded up in size:
      no wrapped or truncated number is ever returned. */
  lemma ParsedIsExact(text: string, l: Lexeme)
    requires WellFormed(l) && Trim(text) == Render(l)
    ensures Parsed(text).Some? <==> Fits(l)
    ensures Parsed(text).Some? ==>
      && InI128(Parsed(text).value.nanos)
      && IsCeiling(if l.sign == "-" then -Parsed(text).value.nanos else Parsed(text).value.nanos, ExactNanos(l))
  {
    ParsedOf(text, l);
    NanosAreTheCeiling(l);
    FitsMeansEvaluated(l);
  }

  /** The amount without the sign its text carries. */
  function Size(l: Lexeme, nanos: int): int {
    if l.sign == "-" then -nanos else nanos
  }

  lemma OnlyQuantitiesParse(text: string)
    ensures Parsed(text).Some? ==> exists l :: WellFormed(l) && Trim(text) == Render(l)
  {
    if Parsed(text).Some? {
      ScanSound(Trim(text));
      var l := Scan(Trim(text)).value;
      assert WellFormed(l) && Trim(text) == Render(l);
    }
  }

  // ----- what the parts of a text mean -----

  /** Sixteen suffixes and no others. */
  lemma SuffixesAre(text: string)
    ensures FindSuffix("") == Some(One)
    ensures FindSuffix("n") == Some(Nano) && FindSuffix("u") == Some(Micro) && FindSuffix("m") == Some(Milli)
    ensures FindSuffix("k") == Some(Kilo) && FindSuffix("M") == Some(Mega) && FindSuffix("G") == Some(Giga)
    ensures FindSuffix("T") == Some(Tera) && FindSuffix("P") == Some(Peta) && FindSuffix("E") == Some(Exa)
    ensures FindSuffix("Ki") == Some(Kibi) && FindSuffix("Mi") == Some(Mebi) && FindSuffix("Gi") == Some(Gibi)
    ensures FindSuffix("Ti") == Some(Tebi) && FindSuffix("Pi") == Some(Pebi) && FindSuffix("Ei") == Some(Exbi)
    ensures FindSuffix(text).Some? ==>
      |text| == 0 || (|text| == 1 && text[0] in "numkMGTPE") || (|text| == 2 && text[0] in "KMGTPE" && text[1] == 'i')
  {
  }

  /** The nanounits of a whole number with a suffix. */
  function NanosOf(digits: string, name: SuffixName): nat
    requires AllDigits(digits) && digits != ""
  {
    Nanos(Lexeme("", digits, "", "", Suffix(name)))
  }

  lemma DecimalSuffixNanos(digits: string, name: SuffixName)
    requires AllDigits(digits) && digits != "" && UnitOf(name).binary == 0
    ensures NanosOf(digits, name) == Value(digits) * Pow10(9 + UnitOf(name).decimal)
  {
    assert digits + "" == digits;
    hide Value, Pow10;
  }

  lemma BinarySuffixNanos(digits: string, name: SuffixName)
    requires AllDigits(digits) && digits != "" && UnitOf(name).decimal == 0
    ensures NanosOf(digits, name) == Shifted(Value(digits), UnitOf(name).binary) * Pow10(9)
  {
    assert digits + "" == digits;
    hide Value, Pow10, Shifted;
  }

  lemma DecimalStep(digits: string, smaller: SuffixName, larger: SuffixName)
    requires AllDigits(digits) && digits != "" && UnitOf(smaller).binary == UnitOf(larger).binary == 0
    requires UnitOf(larger).decimal == UnitOf(smaller).decimal + 3
    ensures NanosOf(digits, larger) == 1000 * NanosOf(digits, smaller)
  {
    var k, v := 9 + UnitOf(smaller).decimal, Value(digits);
    DecimalSuffixNanos(digits, smaller);
    DecimalSuffixNanos(digits, larger);
    assert Pow10(k + 1) == 10 * Pow10(k) && Pow10(k + 2) == 10 * Pow10(k + 1) && Pow10(k + 3) == 10 * Pow10(k + 2);
    hide NanosOf, Pow10, Value, UnitOf;
    TenTimes(v, Pow10(k));
    TenTimes(v, Pow10(k + 1));
    TenTimes(v, Pow10(k + 2));
  }

  lemma BinaryStep(digits: string, smaller: SuffixName, larger: SuffixName)
    requires AllDigits(digits) && digits != "" && UnitOf(smaller).decimal == UnitOf(larger).decimal == 0
    requires UnitOf(larger).binary == UnitOf(smaller).binary + 1
    ensures NanosOf(digits, larger) == 1024 * NanosOf(digits, smaller)
  {
    var b, v := UnitOf(smaller).binary, Value(digits);
    BinarySuffixNanos(digits, smaller);
    BinarySuffixNanos(digits, larger);
    assert Shifted(v, b + 1) == 1024 * Shifted(v, b);
    hide NanosOf, Pow10, Value, UnitOf, Shifted;
  }

  lemma NanoSuffix(digits: string)
    requires AllDigits(digits) && digits != ""
    ensures NanosOf(digits, Nano) == Value(digits)
  {
    DecimalSuffixNanos(digits, Nano);
    hide NanosOf, Value;
    assert Pow10(0) == 1;
  }

  /** Without a suffix a number counts units, and each decimal suffix is worth a
      thousand of the one before it, from nanounits up. */
  lemma DecimalSuffixesAreWorth(digits: string)
    requires AllDigits(digits) && digits != ""
    ensures NanosOf(digits, Nano) == Value(digits) && NanosOf(digits, Micro) == 1000 * NanosOf(digits, Nano)
    ensures NanosOf(digits, Milli) == 1000 * NanosOf(digits, Micro)
    ensures NanosOf(digits, One) == 1000 * NanosOf(digits, Milli)
    ensures NanosOf(digits, Kilo) == 1000 * NanosOf(digits, One)
    ensures NanosOf(digits, Mega) == 1000 * NanosOf(digits, Kilo)
    ensures NanosOf(digits, Giga) == 1000 * NanosOf(digits, Mega)
    ensures NanosOf(digits, Tera) == 1000 * NanosOf(digits, Giga)
    ensures NanosOf(digits, Peta) == 1000 * NanosOf(digits, Tera)
    ensures NanosOf(digits, Exa) == 1000 * NanosOf(digits, Peta)
  {
    hide NanosOf, Value;
    NanoSuffix(digits);
    DecimalStep(digits, Nano, Micro);
    DecimalStep(digits, Micro, Milli);
    DecimalStep(digits, Milli, One);
    DecimalStep(digits, One, Kilo);
    DecimalStep(digits, Kilo, Mega);
    DecimalStep(digits, Mega, Giga);
    DecimalStep(digits, Giga, Tera);
    DecimalStep(digits, Tera, Peta);
    DecimalStep(digits, Peta, Exa);
  }

  /** Each binary suffix is worth 1024 of the one before it. */
  lemma BinarySuffixesAreWorth(digits: string)
    requires AllDigits(digits) && digits != ""
    ensures NanosOf(digits, Kibi) == 1024 * NanosOf(digits, One)
    ensures NanosOf(digits, Mebi) == 1024 * NanosOf(digits, Kibi)
    ensures NanosOf(digits, Gibi) == 1024 * NanosOf(digits, Mebi)
    ensures NanosOf(digits, Tebi) == 1024 * NanosOf(digits, Gibi)
    ensures NanosOf(digits, Pebi) == 1024 * NanosOf(digits, Tebi)
    ensures NanosOf(digits, Exbi) == 1024 * NanosOf(digits, Pebi)
  {
    hide NanosOf, Value;
    BinaryStep(digits, One, Kibi);
    BinaryStep(digits, Kibi, Mebi);
    BinaryStep(digits, Mebi, Gibi);
    BinaryStep(digits, Gibi, Tebi);
    BinaryStep(digits, Tebi, Pebi);
    BinaryStep(digits, Pebi, Exbi);
  }

  /** Digits after the point continue the number, each worth a tenth of the one
      before it, and an exponent moves the point, to the left if it is negative. */
  lemma {:induction false} FractionContinues(whole: string, fraction: string)
    requires AllDigits(whole) && AllDigits(fraction)
    ensures AllDigits(whole + fraction)
    ensures Value(whole + fraction) == Value(whole) * Pow10(|fraction|) + Value(fraction)
  {
    if fraction == "" {
      assert whole + fraction == whole;
    } else {
      var n := |fraction| - 1;
      var all := whole + fraction;
      FractionContinues(whole, fraction[..n]);
      assert all[..|all| - 1] == whole + fraction[..n] && all[|all| - 1] == fraction[n];
      var d := DigitValue(fraction[n]);
      assert Value(all) == 10 * Value(whole + fraction[..n]) + d;
      assert Value(fraction) == 10 * Value(fraction[..n]) + d;
      assert Pow10(n + 1) == 10 * Pow10(n);
      hide Value, Pow10;
      TenTimes(Value(whole), Pow10(n));
    }
  }

  lemma TenTimes(v: nat, p: nat)
    ensures 10 * (v * p) == v * (10 * p)
  {
  }

  lemma ScaleIs(l: Lexeme)
    requires WellFormed(l)
    ensures NanoPower(l) == 9 - |l.fraction| +
      if l.tail.Suffix? then UnitOf(l.tail.name).decimal
      else if l.tail.sign == "-" then -(Value(l.tail.digits) as int)
      else Value(l.tail.digits)
  {
  }

  lemma FormatIs(l: Lexeme)
    requires WellFormed(l)
    ensures FormatOf(l) ==
      if l.tail.Exponent? then DecimalExponent
      else if l.tail.name in {Kibi, Mebi, Gibi, Tebi, Pebi, Exbi} then Binary
      else Decimal
  {
    hide WellFormed;
  }

  /** The notation of an amount is the one its text was written in. */
  lemma NotationIs(text: string, l: Lexeme)
    requires WellFormed(l) && Trim(text) == Render(l) && Parsed(text).Some?
    ensures Parsed(text).value.format ==
      if l.tail.Exponent? then DecimalExponent
      else if l.tail.name in {Kibi, Mebi, Gibi, Tebi, Pebi, Exbi} then Binary
      else Decimal
  {
    hide Parsed, Evaluated, Fits, Trim, Render, WellFormed, FormatOf;
    ParsedOf(text, l);
    FitsMeansEvaluated(l);
    FormatIs(l);
  }

  // ----- the parser -----

  function Checked(n: int): Option<int> {
    if InI128(n) then Some(n) else None
  }

  /** Reading stops at the first byte that is neither a digit nor the first point. */
  method ScanNumber(t: string) returns (dot: Option<nat>, digits: nat, index: nat)
    ensures index == NumberEnd(t)
    ensures dot == if Dotted(t) then Some(WholeEnd(t)) else None
    ensures digits == WholeEnd(t) - SignEnd(t, 0) + NumberEnd(t) - PointEnd(t)
  {
    var start := SignEnd(t, 0);
    dot, digits, index := None, 0, start;
    while index < |t|
      invariant start <= index <= |t|
      invariant dot.None? ==> digits == index - start && forall k :: start <= k < index ==> IsDigit(t[k])
      invariant dot.Some? ==>
        && start <= dot.value < index && t[dot.value] == '.' && digits == index - start - 1
        && forall k :: start <= k < index && k != dot.value ==> IsDigit(t[k])
    {
      if IsDigit(t[index]) {
        digits := digits + 1;
      } else if t[index] == '.' && dot.None? {
        dot := Some(index);
      } else {
        break;
      }
      index := index + 1;
    }
    if dot.Some? {
      RunEnds(t, start, dot.value);
      RunEnds(t, dot.value + 1, index);
    } else {
      RunEnds(t, start, index);
    }
  }

  lemma NextPrefix(all: string, n: nat)
    requires AllDigits(all) && n < |all|
    ensures Value(all[..n + 1]) == 10 * Value(all[..n]) + DigitValue(all[n])
  {
    var s := all[..n + 1];
    assert s[..n] == all[..n];
  }

  lemma ValueOfNothing()
    ensures Value("") == 0
  {
  }

  /** How many of the bytes `from..i` are digits, when `w..f` are not. */
  function DigitsUpTo(from: nat, w: nat, f: nat, i: nat): int {
    if i <= w then i - from else if i <= f then w - from else w - from + (i - f)
  }

  /** The digits on both sides of the point, accumulated with overflow checks. */
  method Accumulate(t: string, from: nat, w: nat, f: nat, end: nat) returns (r: Option<int>)
    requires from <= w <= f <= end <= |t| && (forall k :: w <= k < f ==> !IsDigit(t[k]))
    requires AllDigits(t[from..w]) && AllDigits(t[f..end])
    ensures r == Checked(Value(t[from..w] + t[f..end]))
  {
    hide Value;
    ghost var all := t[from..w] + t[f..end];
    ValueOfNothing();
    var coefficient: nat := 0;
    for i := from to end
      invariant 0 <= DigitsUpTo(from, w, f, i) <= |all|
      invariant coefficient == Value(all[..DigitsUpTo(from, w, f, i)]) <= I128_MAX
    {
      ghost var n := DigitsUpTo(from, w, f, i);
      assert i < w ==> IsDigit(t[from..w][i - from]);
      assert f <= i ==> IsDigit(t[f..end][i - f]);
      if IsDigit(t[i]) {
        assert t[i] == all[n];
        NextPrefix(all, n);
        ValueGrows(all, n + 1);
        if coefficient * 10 > I128_MAX {
          return None;
        }
        if coefficient * 10 + DigitValue(t[i]) > I128_MAX {
          return None;
        }
        coefficient := coefficient * 10 + DigitValue(t[i]);
      }
    }
    assert all[..|all|] == all;
    return Some(coefficient);
  }

  lemma {:induction false} ShiftedIsProduct(v: nat, n: nat)
    ensures Shifted(v, n) == v * Shifted(1, n)
  {
    if n > 0 {
      ShiftedIsProduct(v, n - 1);
    }
  }

  lemma {:induction false} ShiftedGrows(v: nat, n: nat)
    ensures Shifted(v, n) >= v
  {
    if n > 0 {
      ShiftedGrows(v, n - 1);
    }
  }

  lemma MulAtLeast(q: nat, d: nat)
    requires d > 0
    ensures q * d >= q
  {
  }

  lemma CeilDivSmall(n: nat, d: nat)
    requires d > 0
    ensures CeilDiv(n, d) <= n
  {
    var q, r := n / d, n % d;
    assert n == q * d + r;
    MulAtLeast(q, d);
  }

  lemma RoundUpBelow(base: nat, power: int)
    requires power < 0
    ensures var d := Pow10(-power);
      RoundUp(base, power) == base / d + (if base % d != 0 then 1 else 0) <= base
  {
    CeilDivSmall(base, Pow10(-power));
  }

  lemma RoundUpAbove(base: nat, k: nat)
    ensures RoundUp(base, k) == base * Pow10(k)
  {
  }

  /** The last step of the parser: from digits and binary suffix to nanounits. */
  method ToNanos(magnitude: nat, power: int) returns (r: Option<nat>)
    requires magnitude <= I128_MAX
    ensures r == if -38 <= power <= 38 && RoundUp(magnitude, power) <= I128_MAX
                 then Some(RoundUp(magnitude, power)) else None
  {
    hide Pow10, RoundUp;
    if power >= 0 {
      Pow10InI128(power);
      RoundUpAbove(magnitude, power);
      var factor := Checked(Pow10(power));
      if factor.None? {
        return None;
      }
      var product: nat := magnitude * factor.value;
      return if product > I128_MAX then None else Some(product);
    } else {
      Pow10InI128(-power);
      RoundUpBelow(magnitude, power);
      var divisor := Checked(Pow10(-power));
      if divisor.None? {
        return None;
      }
      return Some(magnitude / divisor.value + if magnitude % divisor.value != 0 then 1 else 0);
    }
  }

  function TailParts(tail: Tail): (int, bool, SuffixName)
    requires WellFormedTail(tail)
  {
    (ExponentOf(tail), tail.Exponent?, if tail.Suffix? then tail.name else One)
  }

  predicate ExponentInI32(tail: Tail)
    requires WellFormedTail(tail)
  {
    I32_MIN <= ExponentOf(tail) <= I32_MAX
  }

  /** Coefficient, suffix and exponent combined, every step checked. */
  method Combine(coefficient: nat, unit: Unit, exponent: int, fractionDigits: nat) returns (r: Option<nat>)
    requires I32_MIN <= exponent <= I32_MAX && fractionDigits <= I32_MAX && -9 <= unit.decimal <= 18
    requires exponent != 0 ==> unit.decimal == 0
    ensures r == Combined(coefficient, unit, exponent, fractionDigits)
  {
    ShiftedIsProduct(coefficient, unit.binary);
    var magnitude := Checked(coefficient * Shifted(1, unit.binary));
    if magnitude.None? {
      return None;
    }
    var raised := 9 + unit.decimal + exponent;
    if raised > I32_MAX || raised - fractionDigits < I32_MIN {
      return None;
    }
    r := ToNanos(magnitude.value, raised - fractionDigits);
  }

  lemma TailRun(t: string, from: nat, first: nat, end: nat)
    requires from < first <= end <= |t|
    requires (forall k :: first <= k < end ==> IsDigit(t[k])) && (end < |t| ==> !IsDigit(t[end]))
    ensures DigitRun(t[from..], first - from) == end - from
  {
    RunEnds(t[from..], first - from, end - from);
  }

  /** The digits after an exponent marker and its sign; none if no digit follows. */
  method ExponentDigits(t: string, from: nat) returns (first: nat, end: nat)
    requires from < |t|
    ensures first == from + SignEnd(t[from..], 1) && end == from + DigitRun(t[from..], first - from)
  {
    first := SignEnd(t, from + 1);
    end := first;
    while end < |t| && IsDigit(t[end])
      invariant first <= end <= |t|
      invariant forall k :: first <= k < end ==> IsDigit(t[k])
    {
      end := end + 1;
    }
    TailRun(t, from, first, end);
  }

  lemma ExponentScanned(rest: string, from: nat)
    requires rest != "" && IsMarker(rest[0])
    requires from == SignEnd(rest, 1) && DigitRun(rest, from) == |rest| && from < |rest|
    ensures ScanTail(rest) == Some(Exponent(rest[0], rest[1..from], rest[from..]))
    ensures AllDigits(rest[from..]) && OptionalSign(rest[1..from]) && (rest[1..from] == "-" <==> rest[1] == '-')
  {
    assert rest[from..|rest|] == rest[from..];
    assert rest[1..from] == if from == 1 then "" else [rest[1]];
  }

  lemma NoTailAfterExponent(rest: string, from: nat)
    requires rest != "" && IsMarker(rest[0]) && from == SignEnd(rest, 1) && from < DigitRun(rest, from) < |rest|
    ensures ScanTail(rest) == None
  {
  }

  lemma SuffixScanned(rest: string)
    requires rest != "" && IsMarker(rest[0]) ==> DigitRun(rest, SignEnd(rest, 1)) == SignEnd(rest, 1)
    ensures ScanTail(rest) == match FindSuffix(rest) { case Some(n) => Some(Suffix(n)) case None => None }
  {
  }

  /** The part after the marker, once it is known to hold digits. */
  method ReadExponent(t: string, from: nat, first: nat, end: nat) returns (r: Option<(int, bool, SuffixName)>)
    requires from < first < end <= |t| && IsMarker(t[from])
    requires first == from + SignEnd(t[from..], 1) && end == from + DigitRun(t[from..], first - from)
    ensures r.Some? <==> ScanTail(t[from..]).Some? && ExponentInI32(ScanTail(t[from..]).value)
    ensures r.Some? ==> r.value == TailParts(ScanTail(t[from..]).value)
  {
    ghost var rest := t[from..];
    if end < |t| {
      NoTailAfterExponent(rest, first - from);
      return None;
    }
    ExponentScanned(rest, first - from);
    hide ScanTail, DigitRun, Value;
    assert rest[first - from..] == t[first..end];
    var n: int := Value(t[first..end]);
    var exponent := if t[from + 1] == '-' then -n else n;
    if !(I32_MIN <= exponent <= I32_MAX) {
      return None;
    }
    return Some((exponent, true, One));
  }

  /** The exponent or suffix that follows the number. `None` for anything else,
      and for an exponent beyond 32 bits. */
  method ReadTail(t: string, from: nat) returns (r: Option<(int, bool, SuffixName)>)
    requires from <= |t|
    ensures r.Some? <==> ScanTail(t[from..]).Some? && ExponentInI32(ScanTail(t[from..]).value)
    ensures r.Some? ==> r.value == TailParts(ScanTail(t[from..]).value)
  {
    hide ScanTail, DigitRun, FindSuffix, Value;
    if from < |t| && IsMarker(t[from]) {
      var first, end := ExponentDigits(t, from);
      if end > first {
        r := ReadExponent(t, from, first, end);
        return;
      }
    }
    SuffixScanned(t[from..]);
    var name := FindSuffix(t[from..]);
    if name.None? {
      return None;
    }
    return Some((0, false, name.value));
  }

  lemma ScanParts(t: string)
    requires Scan(t).Some?
    ensures WellFormed(Scan(t).value)
    ensures Scan(t).value.tail == ScanTail(t[NumberEnd(t)..]).value
    ensures Scan(t).value.whole == t[SignEnd(t, 0)..WholeEnd(t)]
    ensures Scan(t).value.fraction == t[PointEnd(t)..NumberEnd(t)]
    ensures Scan(t).value.sign == "-" <==> t[0] == '-'
  {
    ScanSound(t);
    assert Scan(t).value.sign == if SignEnd(t, 0) == 0 then "" else [t[0]];
  }

  method Read(t: string) returns (r: Option<Reading>)
    ensures r == ReadingIn(t)
    ensures r.Some? ==> I32_MIN <= r.value.exponent <= I32_MAX && r.value.fractionDigits <= I32_MAX
                        && -9 <= r.value.unit.decimal <= 18 && (r.value.exponent != 0 ==> r.value.unit.decimal == 0)
  {
    hide ScanTail, DigitRun, Value, Render, FindSuffix;
    if Scan(t).Some? {
      ScanParts(t);
    }
    if t == "" {
      return None;
    }
    var dot, digits, numberEnd := ScanNumber(t);
    if digits == 0 {
      return None;
    }
    var parts := ReadTail(t, numberEnd);
    if parts.None? {
      return None;
    }
    var (exponent, hasExponent, suffix) := parts.value;
    var unit := UnitOf(suffix);
    var format := if hasExponent then DecimalExponent else if unit.binary > 0 then Binary else Decimal;
    var fractionDigits := if dot.Some? then numberEnd - dot.value - 1 else 0;
    if fractionDigits > I32_MAX {
      return None;
    }
    var coefficient := Accumulate(t, SignEnd(t, 0), WholeEnd(t), PointEnd(t), numberEnd);
    if coefficient.None? {
      return None;
    }
    return Some(Reading(t[0] == '-', coefficient.value, fractionDigits, exponent, unit, format));
  }

  method Parse(quantity: string) returns (r: Option<Amount>)
    ensures r == Parsed(quantity)
  {
    hide Combined, ReadingIn, Trim;
    var t := Trim(quantity);
    var reading := Read(t);
    if reading.None? {
      return None;
    }
    var Reading(negative, coefficient, fractionDigits, exponent, unit, format) := reading.value;
    var nanos := Combine(coefficient, unit, exponent, fractionDigits);
    if nanos.None? {
      return None;
    }
    return Some(Amount(if negative then -(nanos.value as int) else nanos.value, format));
  }
}
