/** The text of Kubernetes quantities: its grammar and its parts. */
module Quantity {
  import opened Options
  import opened DecimalText

  const I128_MAX: int := 0x7FFF_FFFF_FFFF_FFFF_FFFF_FFFF_FFFF_FFFF
  const I128_MIN: int := -I128_MAX - 1
  const I32_MAX: int := 0x7FFF_FFFF
  const I32_MIN: int := -0x8000_0000

  datatype Format = Decimal | DecimalExponent | Binary

  datatype Amount = Amount(nanos: int, format: Format)

  predicate InI128(n: int) {
    I128_MIN <= n <= I128_MAX
  }

  // ----- the grammar -----

  datatype SuffixName =
    | One | Nano | Micro | Milli | Kilo | Mega | Giga | Tera | Peta | Exa
    | Kibi | Mebi | Gibi | Tebi | Pebi | Exbi

  datatype Tail = Suffix(name: SuffixName) | Exponent(marker: char, sign: string, digits: string)

  /** A quantity split into its parts; `Render` puts them back together. */
  datatype Lexeme = Lexeme(sign: string, whole: string, point: string, fraction: string, tail: Tail)

  function SuffixText(name: SuffixName): string {
    match name
    case One => ""
    case Nano => "n"
    case Micro => "u"
    case Milli => "m"
    case Kilo => "k"
    case Mega => "M"
    case Giga => "G"
    case Tera => "T"
    case Peta => "P"
    case Exa => "E"
    case Kibi => "Ki"
    case Mebi => "Mi"
    case Gibi => "Gi"
    case Tebi => "Ti"
    case Pebi => "Pi"
    case Exbi => "Ei"
  }

  function FindSuffix(text: string): (name: Option<SuffixName>)
    ensures name.Some? ==> SuffixText(name.value) == text
  {
    if |text| == 0 then Some(One)
    else if |text| == 1 then DecimalSuffix(text[0])
    else if |text| == 2 && text[1] == 'i' then BinarySuffix(text[0])
    else None
  }

  function DecimalSuffix(c: char): (name: Option<SuffixName>)
    ensures name.Some? ==> SuffixText(name.value) == [c]
  {
    match c
    case 'n' => Some(Nano)
    case 'u' => Some(Micro)
    case 'm' => Some(Milli)
    case 'k' => Some(Kilo)
    case 'M' => Some(Mega)
    case 'G' => Some(Giga)
    case 'T' => Some(Tera)
    case 'P' => Some(Peta)
    case 'E' => Some(Exa)
    case _ => None
  }

  function BinarySuffix(c: char): (name: Option<SuffixName>)
    ensures name.Some? ==> SuffixText(name.value) == [c, 'i']
  {
    match c
    case 'K' => Some(Kibi)
    case 'M' => Some(Mebi)
    case 'G' => Some(Gibi)
    case 'T' => Some(Tebi)
    case 'P' => Some(Pebi)
    case 'E' => Some(Exbi)
    case _ => None
  }

  lemma SuffixFound(name: SuffixName)
    ensures FindSuffix(SuffixText(name)) == Some(name)
  {
    match name {
      case One | Nano | Micro | Milli | Kilo | Mega | Giga | Tera | Peta | Exa =>
      case Kibi | Mebi | Gibi | Tebi | Pebi | Exbi =>
    }
  }

  /** A suffix stands for 10^decimal * 1024^binary. */
  datatype Unit = Unit(decimal: int, binary: nat)

  function UnitOf(name: SuffixName): Unit {
    match name
    case One => Unit(0, 0)
    case Nano => Unit(-9, 0)
    case Micro => Unit(-6, 0)
    case Milli => Unit(-3, 0)
    case Kilo => Unit(3, 0)
    case Mega => Unit(6, 0)
    case Giga => Unit(9, 0)
    case Tera => Unit(12, 0)
    case Peta => Unit(15, 0)
    case Exa => Unit(18, 0)
    case Kibi => Unit(0, 1)
    case Mebi => Unit(0, 2)
    case Gibi => Unit(0, 3)
    case Tebi => Unit(0, 4)
    case Pebi => Unit(0, 5)
    case Exbi => Unit(0, 6)
  }

  predicate IsSign(c: char) {
    c == '+' || c == '-'
  }

  predicate OptionalSign(s: string) {
    s == "" || s == "+" || s == "-"
  }

  predicate IsMarker(c: char) {
    c == 'e' || c == 'E'
  }

  predicate WellFormedTail(tail: Tail) {
    match tail
    case Suffix(_) => true
    case Exponent(marker, sign, digits) =>
      IsMarker(marker) && OptionalSign(sign) && digits != "" && AllDigits(digits)
  }

  predicate WellFormed(l: Lexeme) {
    && OptionalSign(l.sign) && AllDigits(l.whole) && AllDigits(l.fraction)
    && (l.point == "." || (l.point == "" && l.fraction == ""))
    && l.whole + l.fraction != ""
    && WellFormedTail(l.tail)
  }

  function RenderTail(tail: Tail): string {
    match tail
    case Suffix(name) => SuffixText(name)
    case Exponent(marker, sign, digits) => [marker] + sign + digits
  }

  function Render(l: Lexeme): string {
    l.sign + (l.whole + (l.point + (l.fraction + RenderTail(l.tail))))
  }

  // ----- scanning -----

  function SignEnd(t: string, i: nat): nat {
    if i < |t| && IsSign(t[i]) then i + 1 else i
  }

  /** `e` starts an exponent only if digits follow; otherwise it belongs to the suffix. */
  function ScanTail(rest: string): (tail: Option<Tail>)
    ensures tail.Some? ==> WellFormedTail(tail.value)
  {
    var from := SignEnd(rest, 1);
    if rest != "" && IsMarker(rest[0]) && DigitRun(rest, from) > from then
      assert rest[from..|rest|] == rest[from..];
      if DigitRun(rest, from) == |rest| then Some(Exponent(rest[0], rest[1..from], rest[from..])) else None
    else match FindSuffix(rest)
      case Some(name) => Some(Suffix(name))
      case None => None
  }

  function WholeEnd(t: string): nat {
    DigitRun(t, SignEnd(t, 0))
  }

  predicate Dotted(t: string) {
    WholeEnd(t) < |t| && t[WholeEnd(t)] == '.'
  }

  function PointEnd(t: string): nat {
    if Dotted(t) then WholeEnd(t) + 1 else WholeEnd(t)
  }

  function NumberEnd(t: string): nat {
    if Dotted(t) then DigitRun(t, PointEnd(t)) else PointEnd(t)
  }

  function Scan(t: string): Option<Lexeme> {
    var tail := ScanTail(t[NumberEnd(t)..]);
    if tail.None? || WholeEnd(t) - SignEnd(t, 0) + NumberEnd(t) - PointEnd(t) == 0 then None
    else
      Some(Lexeme(t[..SignEnd(t, 0)], t[SignEnd(t, 0)..WholeEnd(t)], t[WholeEnd(t)..PointEnd(t)],
                  t[PointEnd(t)..NumberEnd(t)], tail.value))
  }

  lemma ScanTailSound(rest: string)
    requires ScanTail(rest).Some?
    ensures WellFormedTail(ScanTail(rest).value) && RenderTail(ScanTail(rest).value) == rest
  {
    if rest != "" && IsMarker(rest[0]) {
      var from := SignEnd(rest, 1);
      if DigitRun(rest, from) > from {
        assert rest[from..|rest|] == rest[from..];
        assert rest == [rest[0]] + rest[1..from] + rest[from..];
        assert rest[1..from] == if from == 1 then "" else [rest[1]];
      }
    }
  }

  lemma ScanTailComplete(tail: Tail)
    requires WellFormedTail(tail)
    ensures ScanTail(RenderTail(tail)) == Some(tail)
  {
    match tail
    case Suffix(name) =>
      SuffixFound(name);
      assert DigitRun("E", 1) == 1;
      assert !IsDigit("Ei"[1]) && DigitRun("Ei", 1) == 1;
    case Exponent(marker, sign, digits) =>
      var rest := RenderTail(tail);
      var from := SignEnd(rest, 1);
      assert sign == "" ==> rest[1] == digits[0];
      assert sign != "" ==> rest[1] == sign[0];
      assert from == 1 + |sign|;
      assert rest[from..] == digits && rest[1..from] == sign;
      forall k | from <= k < |rest| ensures IsDigit(rest[k]) {
        assert rest[k] == digits[k - from];
      }
      RunEnds(rest, from, |rest|);
  }

  lemma FivePieces(t: string, a: nat, b: nat, c: nat, d: nat)
    requires a <= b <= c <= d <= |t|
    ensures t == t[..a] + (t[a..b] + (t[b..c] + (t[c..d] + t[d..])))
  {
  }

  lemma ScanSound(t: string)
    requires Scan(t).Some?
    ensures WellFormed(Scan(t).value) && Render(Scan(t).value) == t
  {
    hide ScanTail, RenderTail, FindSuffix;
    var l := Scan(t).value;
    ScanTailSound(t[NumberEnd(t)..]);
    FivePieces(t, SignEnd(t, 0), WholeEnd(t), PointEnd(t), NumberEnd(t));
    assert OptionalSign(l.sign) by {
      assert l.sign == if SignEnd(t, 0) == 0 then "" else [t[0]];
    }
    assert Dotted(t) ==> l.point == ".";
    assert l.whole + l.fraction != "";
  }

  lemma TailStart(tail: Tail)
    requires WellFormedTail(tail)
    ensures var r := RenderTail(tail); r != "" ==> !IsDigit(r[0]) && r[0] != '.' && !IsSign(r[0])
  {
  }

  lemma WholeEnds(sign: string, whole: string, after: string, t: string)
    requires OptionalSign(sign) && AllDigits(whole) && (after != "" ==> !IsDigit(after[0]))
    requires sign == "" && whole == "" ==> after != "" && !IsSign(after[0])
    requires t == sign + (whole + after)
    ensures SignEnd(t, 0) == |sign| && WholeEnd(t) == |sign| + |whole| <= |t|
    ensures t[..|sign|] == sign && t[|sign|..WholeEnd(t)] == whole && t[WholeEnd(t)..] == after
  {
    var w := |sign| + |whole|;
    if sign != "" {
      assert t[0] == sign[0];
    } else if whole != "" {
      assert t[0] == whole[0];
    } else {
      assert t[0] == after[0];
    }
    forall k | |sign| <= k < w ensures IsDigit(t[k]) {
      assert t[k] == whole[k - |sign|];
    }
    assert w < |t| ==> t[w] == after[0];
    RunEnds(t, |sign|, w);
  }

  lemma PointEnds(point: string, fraction: string, rest: string, t: string)
    requires WholeEnd(t) <= |t| && t[WholeEnd(t)..] == point + (fraction + rest) && AllDigits(fraction)
    requires point == "." || (point == "" && fraction == "")
    requires rest != "" ==> !IsDigit(rest[0]) && rest[0] != '.'
    ensures PointEnd(t) == WholeEnd(t) + |point| && NumberEnd(t) == PointEnd(t) + |fraction| <= |t|
    ensures t[WholeEnd(t)..PointEnd(t)] == point && t[PointEnd(t)..NumberEnd(t)] == fraction
    ensures t[NumberEnd(t)..] == rest
  {
    var w, after := WholeEnd(t), t[WholeEnd(t)..];
    assert w < |t| ==> t[w] == after[0];
    if point == "." {
      assert t[w + 1..] == after[1..] == fraction + rest;
      FractionEnd(t, w + 1, fraction, rest);
    } else {
      assert after == rest;
    }
  }

  lemma FractionEnd(t: string, from: nat, fraction: string, rest: string)
    requires from <= |t| && t[from..] == fraction + rest && AllDigits(fraction)
    requires rest != "" ==> !IsDigit(rest[0])
    ensures DigitRun(t, from) == from + |fraction|
  {
    var end := from + |fraction|;
    assert |t[from..]| == |t| - from;
    forall k | from <= k < end ensures IsDigit(t[k]) {
      assert t[k] == t[from..][k - from] == fraction[k - from];
    }
    assert end < |t| ==> t[end] == t[from..][|fraction|] == rest[0];
    RunEnds(t, from, end);
  }

  lemma ScanIs(t: string, l: Lexeme)
    requires ScanTail(t[NumberEnd(t)..]) == Some(l.tail) && l.whole + l.fraction != ""
    requires l.sign == t[..SignEnd(t, 0)] && l.whole == t[SignEnd(t, 0)..WholeEnd(t)]
    requires l.point == t[WholeEnd(t)..PointEnd(t)] && l.fraction == t[PointEnd(t)..NumberEnd(t)]
    ensures Scan(t) == Some(l)
  {
  }

  lemma ScanComplete(l: Lexeme)
    requires WellFormed(l)
    ensures Scan(Render(l)) == Some(l)
  {
    var t, rest := Render(l), RenderTail(l.tail);
    var after := l.point + (l.fraction + rest);
    TailStart(l.tail);
    assert l.point == "" ==> after == rest;
    WholeEnds(l.sign, l.whole, after, t);
    PointEnds(l.point, l.fraction, rest, t);
    ScanTailComplete(l.tail);
    ScanIs(t, l);
  }
}
