/** The two duration printers and the parser that reads both back. */
module HumanDuration {
  import opened Options
  import opened DecimalText
  import opened Whitespace

  const I64_MAX := 0x7FFF_FFFF_FFFF_FFFF

  const MINUTE := 60
  const HOUR := 3600
  const DAY := 86_400
  const YEAR := 31_536_000

  // ----- printing -----

  function Unit(n: nat, unit: char): string {
    Text(n) + [unit]
  }

  /** A smaller unit is printed only when it is not zero. */
  function Units(n: nat, unit: char, m: nat, smaller: char): string {
    if m == 0 then Unit(n, unit) else Unit(n, unit) + Unit(m, smaller)
  }

  function HumanDuration(secs: int): string {
    if secs < -1 then "<invalid>"
    else if secs < 0 then "0s"
    else if secs < 60 * 2 then Unit(secs, 's')
    else
      var minutes := secs / 60;
      if minutes < 10 then Units(minutes, 'm', secs % 60, 's')
      else if minutes < 60 * 3 then Unit(minutes, 'm')
      else
        var hours := secs / 3600;
        if hours < 8 then Units(hours, 'h', minutes % 60, 'm')
        else if hours < 48 then Unit(hours, 'h')
        else if hours < 24 * 8 then Units(hours / 24, 'd', hours % 24, 'h')
        else if hours < 24 * 365 * 2 then Unit(hours / 24, 'd')
        else if hours < 24 * 365 * 8 then Units(hours / 24 / 365, 'y', hours / 24 % 365, 'd')
        else Unit(hours / 24 / 365, 'y')
  }

  method AgeSecs(secs: int) returns (r: string)
    ensures r == Age(secs)
  {
    hide Unit;
    var s := if secs < 0 then 0 else secs;
    if s < 60 {
      return Unit(s, 's');
    }
    var m := s / 60;
    s := s - m * 60;
    if m < 60 {
      return Unit(m, 'm') + Unit(s, 's');
    }
    var h := m / 60;
    var mm := m - h * 60;
    if h < 24 {
      return Unit(h, 'h') + Unit(mm, 'm');
    }
    var d := h / 24;
    var hh := h - d * 24;
    if d < 30 {
      return Unit(d, 'd') + Unit(hh, 'h');
    }
    r := Unit(d, 'd');
  }

  /** The two largest units of an age; from thirty days on, the days alone. */
  function Age(secs: int): string {
    var s := if secs < 0 then 0 else secs;
    if s < MINUTE then Unit(s, 's')
    else if s < HOUR then Unit(s / 60, 'm') + Unit(s % 60, 's')
    else if s < DAY then Unit(s / 3600, 'h') + Unit(s / 60 % 60, 'm')
    else if s < 30 * DAY then Unit(s / 86_400, 'd') + Unit(s / 3600 % 24, 'h')
    else Unit(s / 86_400, 'd')
  }

  /** One number with its unit, and after it a smaller one unless that is zero. */
  lemma UnitTexts(n: nat, unit: char, m: nat, smaller: char)
    ensures Unit(n, unit) == Text(n) + [unit]
    ensures Units(n, unit, m, smaller) == Text(n) + [unit] + if m == 0 then "" else Text(m) + [smaller]
  {
  }

  /** Which units a duration shows, by its length in seconds: seconds alone up to
      two minutes, then minutes and seconds up to ten, minutes up to three hours,
      hours and minutes up to eight, hours up to two days, days and hours up to
      eight, days up to two years, years and days up to eight, then years. A
      second unit is shown only if it is not zero. */
  lemma DurationUnits(s: nat)
    ensures HumanDuration(s) ==
      if s < 120 then Text(s) + "s"
      else if s < 600 then Text(s / 60) + "m" + if s % 60 == 0 then "" else Text(s % 60) + "s"
      else if s < 10_800 then Text(s / 60) + "m"
      else if s < 28_800 then Text(s / 3600) + "h" + if s / 60 % 60 == 0 then "" else Text(s / 60 % 60) + "m"
      else if s < 172_800 then Text(s / 3600) + "h"
      else if s < 691_200 then Text(s / 86_400) + "d" + if s / 3600 % 24 == 0 then "" else Text(s / 3600 % 24) + "h"
      else if s < 63_072_000 then Text(s / 86_400) + "d"
      else if s < 252_288_000 then
        Text(s / 31_536_000) + "y" + if s / 86_400 % 365 == 0 then "" else Text(s / 86_400 % 365) + "d"
      else Text(s / 31_536_000) + "y"
    ensures HumanDuration(-1) == "0s"
  {
    assert s / 3600 / 24 == s / 86_400;
    assert s / 86_400 / 365 == s / 31_536_000;
    if s < 28_800 {
      UnitTexts(s / 60, 'm', s % 60, 's');
      UnitTexts(s / 3600, 'h', s / 60 % 60, 'm');
      UnitTexts(s, 's', 0, 's');
    } else {
      UnitTexts(s / 3600, 'h', 0, 'm');
      UnitTexts(s / 86_400, 'd', s / 3600 % 24, 'h');
      UnitTexts(s / 31_536_000, 'y', s / 86_400 % 365, 'd');
    }
    hide Text, Unit, Units;
  }

  /** An age shows its two largest units, zero or not; seconds alone below a
      minute, days alone from thirty on, and none that is negative. */
  lemma AgeShows(s: int)
    ensures Age(s) ==
      if s < 0 then "0s"
      else if s < 60 then Text(s) + "s"
      else if s < 3600 then Text(s / 60) + "m" + (Text(s % 60) + "s")
      else if s < 86_400 then Text(s / 3600) + "h" + (Text(s / 60 % 60) + "m")
      else if s < 2_592_000 then Text(s / 86_400) + "d" + (Text(s / 3600 % 24) + "h")
      else Text(s / 86_400) + "d"
  {
  }

  // ----- parsing -----

  /** What a number with a unit is worth. */
  function Seconds(n: int, unit: char): Option<int> {
    if unit == 's' then Some(n)
    else if unit == 'm' then Some(60 * n)
    else if unit == 'h' then Some(3600 * n)
    else if unit == 'd' then Some(86_400 * n)
    else if unit == 'y' then Some(31_536_000 * n)
    else None
  }

  /** Five units and no others. */
  lemma OnlyFiveUnits(n: int, unit: char)
    ensures Seconds(n, unit).Some? <==> unit in "smhdy"
  {
  }

  function Plus(n: int, rest: Option<int>): Option<int> {
    if rest.Some? then Some(n + rest.value) else None
  }

  /** The number and the unit at the head of a text, if it has both. */
  function HeadSeconds(t: string): Option<int> {
    var end := DigitRun(t, 0);
    if end == 0 || end == |t| || Value(t[..end]) > I64_MAX then None else Seconds(Value(t[..end]), t[end])
  }

  function Total(t: string): Option<int>
    decreases |t|
  {
    if t == "" then Some(0)
    else if HeadSeconds(t).None? then None
    else Plus(HeadSeconds(t).value, Total(t[DigitRun(t, 0) + 1..]))
  }

  /** What a text is worth in mathematical integers. */
  function Exact(text: string): Option<int> {
    var t := Trim(text);
    if t == "" then None else Total(t)
  }

  /** The 64-bit integer that a sum or product wraps to. */
  function Wrapped(n: int): int {
    (n + 0x8000_0000_0000_0000) % 0x1_0000_0000_0000_0000 - 0x8000_0000_0000_0000
  }

  /** What the parser returns: its products and sums wrap at 64 bits. */
  function Parsed(text: string): Option<int> {
    if Exact(text).None? then None else Some(Wrapped(Exact(text).value))
  }

  lemma WrappedOnce(n: int, k: int)
    ensures Wrapped(n + 0x1_0000_0000_0000_0000 * k) == Wrapped(n)
  {
  }

  lemma WrappedSum(a: int, b: int)
    ensures Wrapped(Wrapped(a) + Wrapped(b)) == Wrapped(a + b)
  {
    var i := (a + 0x8000_0000_0000_0000) / 0x1_0000_0000_0000_0000;
    var j := (b + 0x8000_0000_0000_0000) / 0x1_0000_0000_0000_0000;
    assert Wrapped(a) + Wrapped(b) == a + b + 0x1_0000_0000_0000_0000 * (-i - j);
    WrappedOnce(a + b, -i - j);
  }

  lemma {:induction false} TotalNotNegative(t: string)
    ensures Total(t).Some? ==> Total(t).value >= 0
    decreases |t|
  {
    if t != "" && HeadSeconds(t).Some? {
      TotalNotNegative(t[DigitRun(t, 0) + 1..]);
    }
  }

  /** Wrapping goes unnoticed exactly when the whole sum fits 64 bits. */
  lemma ParsesExactlyWhatFits(text: string)
    ensures Parsed(text) == Exact(text) <==> (Exact(text).Some? ==> Exact(text).value <= I64_MAX)
  {
    TotalNotNegative(Trim(text));
    hide Total, Trim;
  }

  method ParseHumanDuration(text: string) returns (r: Option<int>)
    ensures r == Parsed(text)
  {
    hide Total, Seconds, Value, DigitRun, Trim, Wrapped;
    var t := Trim(text);
    if t == "" {
      return None;
    }
    var total, i := 0, 0;
    ghost var sum := 0;
    assert t[0..] == t;
    NothingWraps();
    while i < |t|
      invariant i <= |t| && Total(t) == Plus(sum, Total(t[i..])) && total == Wrapped(sum)
    {
      var digitsStart := i;
      while i < |t| && IsDigit(t[i])
        invariant digitsStart <= i <= |t| && forall k :: digitsStart <= k < i ==> IsDigit(t[k])
      {
        i := i + 1;
      }
      TotalFrom(t, digitsStart, i);
      if i == digitsStart || i == |t| {
        return None;
      }
      var n := Value(t[digitsStart..i]);
      if n > I64_MAX {
        return None;
      }
      var secs := Seconds(n, t[i]);
      if secs.None? {
        return None;
      }
      WrappedSum(sum, secs.value);
      total := Wrapped(total + Wrapped(secs.value));
      sum := sum + secs.value;
      i := i + 1;
    }
    EmptyTotal(t, i);
    r := Some(total);
  }

  lemma NothingWraps()
    ensures Wrapped(0) == 0
  {
  }

  lemma EmptyTotal(t: string, i: nat)
    requires i == |t|
    ensures Total(t[i..]) == Some(0)
  {
  }

  lemma TotalFrom(t: string, start: nat, i: nat)
    requires start < |t| && start <= i <= |t| && (forall k :: start <= k < i ==> IsDigit(t[k]))
    requires i < |t| ==> !IsDigit(t[i])
    ensures Total(t[start..]) ==
      if i == start || i == |t| || Value(t[start..i]) > I64_MAX || Seconds(Value(t[start..i]), t[i]).None? then None
      else Plus(Seconds(Value(t[start..i]), t[i]).value, Total(t[i + 1..]))
  {
    var u := t[start..];
    RunEnds(u, 0, i - start);
    assert u[..i - start] == t[start..i];
    if i < |t| {
      assert u[i - start + 1..] == t[i + 1..];
    }
    hide Seconds, Value, DigitRun;
  }

  // ----- reading back what was printed -----

  lemma UnitParses(n: nat, unit: char, rest: string)
    requires n <= I64_MAX && Seconds(n, unit).Some?
    ensures Total(Unit(n, unit) + rest) == Plus(Seconds(n, unit).value, Total(rest))
  {
    var s := Unit(n, unit) + rest;
    var k := |Text(n)|;
    assert s[0..k] == Text(n) && s[k] == unit && s[k + 1..] == rest && s[0..] == s;
    assert forall j :: 0 <= j < k ==> s[j] == Text(n)[j];
    assert !IsDigit(unit);
    ValueOfText(n);
    hide Text, Value, Total;
    TotalFrom(s, 0, k);
  }

  /** A text that starts with a digit and ends with a unit has nothing to trim. */
  lemma UnitTrims(head: string, n: nat, unit: char)
    requires Seconds(n, unit).Some? && (head != "" ==> IsDigit(head[0]))
    ensures Exact(head + Unit(n, unit)) == Total(head + Unit(n, unit))
  {
    var s := head + Unit(n, unit);
    assert s[|s| - 1] == unit && !IsSpace(unit);
    assert IsDigit(s[0]) by {
      if head == "" { assert s[0] == Text(n)[0]; }
    }
    assert TrimStart(s) == s && TrimEnd(s) == s;
    hide Total;
  }

  lemma OneUnit(n: nat, unit: char)
    requires n <= I64_MAX && Seconds(n, unit).Some?
    ensures Exact(Unit(n, unit)) == Seconds(n, unit)
  {
    assert Total("") == Some(0);
    assert Plus(Seconds(n, unit).value, Some(0)) == Seconds(n, unit);
    hide Unit, Total, Exact, Seconds, Text;
    UnitTrims("", n, unit);
    UnitParses(n, unit, "");
    assert "" + Unit(n, unit) == Unit(n, unit) == Unit(n, unit) + "";
  }

  lemma TwoUnits(n: nat, unit: char, m: nat, smaller: char)
    requires n <= I64_MAX && m <= I64_MAX && Seconds(n, unit).Some? && Seconds(m, smaller).Some?
    ensures Exact(Unit(n, unit) + Unit(m, smaller)) == Plus(Seconds(n, unit).value, Seconds(m, smaller))
  {
    assert Total("") == Some(0);
    assert Plus(Seconds(m, smaller).value, Some(0)) == Seconds(m, smaller);
    StartsWithDigit(n, unit);
    hide Unit, Total, Exact, Seconds, Text;
    UnitTrims(Unit(n, unit), m, smaller);
    UnitParses(n, unit, Unit(m, smaller));
    UnitParses(m, smaller, "");
    assert Unit(m, smaller) + "" == Unit(m, smaller);
  }

  lemma StartsWithDigit(n: nat, unit: char)
    ensures Unit(n, unit) != "" && IsDigit(Unit(n, unit)[0])
  {
    assert Unit(n, unit)[0] == Text(n)[0];
  }

  lemma UnitsParse(n: nat, unit: char, m: nat, smaller: char)
    requires n <= I64_MAX && m <= I64_MAX && Seconds(n, unit).Some? && Seconds(m, smaller).Some?
    ensures Exact(Units(n, unit, m, smaller)) == Plus(Seconds(n, unit).value, Seconds(m, smaller))
  {
    assert m == 0 ==> Seconds(m, smaller).value == 0;
    hide Unit, Exact, Seconds;
    if m == 0 {
      OneUnit(n, unit);
    } else {
      TwoUnits(n, unit, m, smaller);
    }
  }

  /** A duration rounded down to what its bucket prints. */
  function Floored(s: int): int {
    if s < 0 then 0
    else if s < 10 * MINUTE then s
    else if s < 8 * HOUR then s / 60 * 60
    else if s < 8 * DAY then s / 3600 * 3600
    else if s < 8 * YEAR then s / 86_400 * 86_400
    else s / 31_536_000 * 31_536_000
  }

  /** An age rounded down likewise. */
  function AgeFloored(s: int): int {
    if s < 0 then 0
    else if s < HOUR then s
    else if s < DAY then s / 60 * 60
    else if s < 30 * DAY then s / 3600 * 3600
    else s / 86_400 * 86_400
  }

  /** Reading back a printed duration gives it rounded down to its bucket's
      granularity; exactly the durations below -1 cannot be read back. */
  lemma DurationRoundTrip(s: int)
    requires s <= I64_MAX
    ensures Parsed(HumanDuration(s)) == if s < -1 then None else Some(Floored(s))
  {
    DurationReads(s);
    if s >= 0 {
      FlooredStaysInBucket(s);
    }
    hide HumanDuration, Floored, Exact, Wrapped;
    ParsesExactlyWhatFits(HumanDuration(s));
  }

  lemma DurationReads(s: int)
    requires s <= I64_MAX
    ensures Exact(HumanDuration(s)) == if s < -1 then None else Some(Floored(s))
  {
    hide Exact, Unit, Units;
    if s < 120 {
      SecondsRoundTrip(s);
    } else if s < 8 * HOUR {
      MinutesRoundTrip(s);
    } else if s < 8 * DAY {
      HoursRoundTrip(s);
    } else {
      DaysRoundTrip(s);
    }
    hide HumanDuration;
  }

  lemma SecondsRoundTrip(s: int)
    requires s < 120
    ensures Exact(HumanDuration(s)) == if s < -1 then None else Some(Floored(s))
  {
    hide Exact, Unit, Units;
    if s < -1 {
      InvalidDoesNotParse();
    } else if s < 0 {
      ZeroText();
      OneUnit(0, 's');
    } else {
      OneUnit(s, 's');
    }
  }

  lemma MinutesRoundTrip(s: int)
    requires 120 <= s < 8 * HOUR
    ensures Exact(HumanDuration(s)) == Some(Floored(s))
  {
    hide Exact, Unit, Units;
    if s < 600 {
      UnitsParse(s / 60, 'm', s % 60, 's');
    } else if s < 10_800 {
      OneUnit(s / 60, 'm');
    } else {
      UnitsParse(s / 3600, 'h', s / 60 % 60, 'm');
    }
  }

  lemma HoursRoundTrip(s: int)
    requires 8 * HOUR <= s < 8 * DAY
    ensures Exact(HumanDuration(s)) == Some(Floored(s))
  {
    hide Exact, Unit, Units;
    if s < 172_800 {
      OneUnit(s / 3600, 'h');
    } else {
      UnitsParse(s / 3600 / 24, 'd', s / 3600 % 24, 'h');
    }
  }

  lemma DaysRoundTrip(s: int)
    requires 8 * DAY <= s <= I64_MAX
    ensures Exact(HumanDuration(s)) == Some(Floored(s))
  {
    hide Exact, Unit, Units;
    if s < 63_072_000 {
      OneUnit(s / 3600 / 24, 'd');
    } else if s < 252_288_000 {
      UnitsParse(s / 3600 / 24 / 365, 'y', s / 3600 / 24 % 365, 'd');
    } else {
      OneUnit(s / 3600 / 24 / 365, 'y');
    }
  }

  lemma ZeroText()
    ensures HumanDuration(-1) == Unit(0, 's')
  {
  }

  lemma InvalidDoesNotParse()
    ensures Exact("<invalid>").None?
  {
    var s := "<invalid>";
    assert TrimStart(s) == s && TrimEnd(s) == s;
    assert DigitRun(s, 0) == 0;
  }

  /** The two units that are printed make up the rounded age. */
  lemma AgeUnits(s: nat)
    ensures s / 60 * 60 + s % 60 == s
    ensures s / 3600 * 3600 + s / 60 % 60 * 60 == s / 60 * 60
    ensures s / 86_400 * 86_400 + s / 3600 % 24 * 3600 == s / 3600 * 3600
  {
    assert s / 60 / 60 == s / 3600;
    assert s / 3600 / 24 == s / 86_400;
  }

  lemma AgeRoundTrip(s: int)
    requires s <= I64_MAX
    ensures Parsed(Age(s)) == Some(AgeFloored(s))
  {
    AgeReads(s);
    if s >= 0 {
      FlooredStaysInBucket(s);
    }
    hide Age, AgeFloored, Exact, Wrapped;
    ParsesExactlyWhatFits(Age(s));
  }

  lemma AgeReads(s: int)
    requires s <= I64_MAX
    ensures Exact(Age(s)) == Some(AgeFloored(s))
  {
    hide Exact, Unit;
    AgeUnits(if s < 0 then 0 else s);
    if s < HOUR {
      if s < MINUTE {
        OneUnit(if s < 0 then 0 else s, 's');
      } else {
        TwoUnits(s / 60, 'm', s % 60, 's');
      }
    } else if s < DAY {
      TwoUnits(s / 3600, 'h', s / 60 % 60, 'm');
    } else if s < 30 * DAY {
      TwoUnits(s / 86_400, 'd', s / 3600 % 24, 'h');
    } else {
      OneUnit(s / 86_400, 'd');
    }
  }

  /** Within a bucket rounding keeps order. */
  lemma GranulesKeepOrder(s: nat, t: nat)
    requires s <= t
    ensures s / 60 <= t / 60 && s / 3600 <= t / 3600 && s / 86_400 <= t / 86_400 && s / 31_536_000 <= t / 31_536_000
  {
  }

  /** Where the bucket of a duration, or of an age, begins. */
  function BucketStart(s: nat): nat {
    if s < 10 * MINUTE then 0
    else if s < 8 * HOUR then 10 * MINUTE
    else if s < 8 * DAY then 8 * HOUR
    else if s < 8 * YEAR then 8 * DAY
    else 8 * YEAR
  }

  function AgeBucketStart(s: nat): nat {
    if s < HOUR then 0 else if s < DAY then HOUR else if s < 30 * DAY then DAY else 30 * DAY
  }

  lemma FlooredStaysInBucket(s: nat)
    ensures BucketStart(s) <= Floored(s) <= s && AgeBucketStart(s) <= AgeFloored(s) <= s
  {
  }

  /** Rounding never overstates and keeps order. */
  lemma FlooredIsMonotone(s: nat, t: nat)
    requires s <= t
    ensures Floored(s) <= Floored(t) <= t && AgeFloored(s) <= AgeFloored(t) <= t
  {
    FlooredStaysInBucket(s);
    FlooredStaysInBucket(t);
    if BucketStart(s) == BucketStart(t) || AgeBucketStart(s) == AgeBucketStart(t) {
      GranulesKeepOrder(s, t);
    }
  }

  /** So the text of a longer duration never reads as a shorter one, and two
      durations share a text exactly when they round to the same one. */
  lemma TextsKeepOrder(s: nat, t: nat)
    requires s <= t <= I64_MAX
    ensures var a, b := Parsed(HumanDuration(s)), Parsed(HumanDuration(t));
      a.Some? && b.Some? && a.value <= b.value <= t
    ensures var a, b := Parsed(Age(s)), Parsed(Age(t)); a.Some? && b.Some? && a.value <= b.value <= t
    ensures HumanDuration(s) == HumanDuration(t) <==> Floored(s) == Floored(t)
    ensures Age(s) == Age(t) <==> AgeFloored(s) == AgeFloored(t)
  {
    DurationRoundTrip(s);
    DurationRoundTrip(t);
    AgeRoundTrip(s);
    AgeRoundTrip(t);
    FlooredIsMonotone(s, t);
    FloorPrintsTheSame(s);
    FloorPrintsTheSame(t);
    FlooredAgePrintsTheSame(s);
    FlooredAgePrintsTheSame(t);
    hide Parsed, HumanDuration, Floored, Age, AgeFloored;
  }

  /** What is printed depends on the rounded duration only. */
  lemma FloorPrintsTheSame(s: nat)
    ensures HumanDuration(Floored(s)) == HumanDuration(s)
  {
    hide Unit, Units;
    FlooredStaysInBucket(s);
    var f := Floored(s);
    if 10 * MINUTE <= s < 8 * HOUR {
      assert f / 60 == s / 60 && f / 3600 == f / 60 / 60 == s / 3600;
    } else if 8 * HOUR <= s < 8 * DAY {
      assert f / 3600 == s / 3600;
    } else if 8 * DAY <= s < 8 * YEAR {
      WholeDays(s / 86_400);
      assert f / 3600 / 24 == s / 86_400 == s / 3600 / 24;
    } else if 8 * YEAR <= s {
      WholeYears(s / 31_536_000);
      assert f / 3600 / 24 / 365 == s / 31_536_000 == s / 3600 / 24 / 365;
    }
  }

  lemma FlooredAgePrintsTheSame(s: nat)
    ensures Age(AgeFloored(s)) == Age(s)
  {
    hide Unit;
    FlooredStaysInBucket(s);
    var f := AgeFloored(s);
    if HOUR <= s < DAY {
      assert f / 60 == s / 60 && f / 3600 == f / 60 / 60 == s / 3600;
    } else if DAY <= s < 30 * DAY {
      assert f / 3600 == s / 3600 && f / 86_400 == f / 3600 / 24 == s / 86_400;
    }
  }

  lemma WholeDays(d: nat)
    ensures d * 86_400 / 3600 / 24 == d
  {
  }

  lemma WholeYears(y: nat)
    ensures y * 31_536_000 / 3600 / 24 / 365 == y
  {
  }
}
