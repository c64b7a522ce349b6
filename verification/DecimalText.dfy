/** Decimal digits as text, shared by the quantity and the duration formats. */
module DecimalText {
  predicate IsDigit(c: char) {
    '0' <= c <= '9'
  }

  predicate AllDigits(s: string) {
    forall i :: 0 <= i < |s| ==> IsDigit(s[i])
  }

  function DigitValue(c: char): (v: nat)
    requires IsDigit(c)
    ensures v < 10
  {
    c as int - '0' as int
  }

  /** The number a run of digits denotes, most significant digit first. */
  function Value(s: string): nat
    requires AllDigits(s)
  {
    if s == "" then 0 else 10 * Value(s[..|s| - 1]) + DigitValue(s[|s| - 1])
  }

  function Text(n: nat): (s: string)
    ensures s != "" && AllDigits(s)
  {
    var last := [('0' as int + n % 10) as char];
    if n < 10 then last else Text(n / 10) + last
  }

  lemma {:induction false} ValueOfText(n: nat)
    ensures Value(Text(n)) == n
  {
    var s := Text(n);
    if n >= 10 {
      ValueOfText(n / 10);
      assert s[..|s| - 1] == Text(n / 10);
    } else {
      assert s[..0] == "";
    }
  }

  /** The ten digits count from zero to nine, and each place is worth ten of the next. */
  lemma DigitsAreDecimal(s: string, c: char)
    requires AllDigits(s) && IsDigit(c)
    ensures DigitValue('0') == 0 && DigitValue('9') == 9
    ensures c != '9' ==> IsDigit((c as int + 1) as char) && DigitValue((c as int + 1) as char) == DigitValue(c) + 1
    ensures Value("") == 0 && AllDigits(s + [c]) && Value(s + [c]) == 10 * Value(s) + DigitValue(c)
  {
    assert (s + [c])[..|s|] == s;
  }

  lemma {:induction false} ValueGrows(s: string, n: nat)
    requires AllDigits(s) && n <= |s|
    ensures Value(s[..n]) <= Value(s)
  {
    if n < |s| {
      ValueGrows(s[..|s| - 1], n);
      assert s[..|s| - 1][..n] == s[..n];
    } else {
      assert s[..n] == s;
    }
  }

  /** The end of the longest run of digits of `s` that starts at `i`. */
  function DigitRun(s: string, i: nat): (end: nat)
    requires i <= |s|
    ensures i <= end <= |s| && AllDigits(s[i..end])
    ensures end < |s| ==> !IsDigit(s[end])
    decreases |s| - i
  {
    if i < |s| && IsDigit(s[i]) then DigitRun(s, i + 1) else i
  }

  /** A run is found wherever digits are followed by the end or by something else. */
  lemma {:induction false} RunEnds(s: string, i: nat, end: nat)
    requires i <= end <= |s| && (forall k :: i <= k < end ==> IsDigit(s[k]))
    requires end < |s| ==> !IsDigit(s[end])
    ensures DigitRun(s, i) == end
    decreases end - i
  {
    if i < end {
      RunEnds(s, i + 1, end);
    }
  }
}
