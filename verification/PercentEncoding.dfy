/** Percent-encoding of query values, against the decoding of RFC 3986 section 2.1. */
module PercentEncoding {
  import opened Options
  import opened Sequences

  type Byte = x: int | 0 <= x < 256

  predicate IsUnreservedChar(c: char) {
    'A' <= c <= 'Z' || 'a' <= c <= 'z' || '0' <= c <= '9' || c == '-' || c == '_' || c == '.' || c == '~'
  }

  /** The unreserved characters of RFC 3986 section 2.3, by their octets. */
  predicate IsUnreserved(b: Byte) {
    IsUnreservedChar(b as char)
  }

  function HexDigit(n: int): char
    requires 0 <= n < 16
  {
    if n < 10 then ('0' as int + n) as char else ('A' as int + n - 10) as char
  }

  function Piece(b: Byte): string {
    if IsUnreserved(b) then [b as char] else ['%', HexDigit(b / 16), HexDigit(b % 16)]
  }

  function Encoded(v: seq<Byte>): string {
    if v == [] then "" else Piece(v[0]) + Encoded(v[1..])
  }

  method EncodeQueryValue(v: seq<Byte>) returns (out: string)
    ensures out == Encoded(v)
  {
    out := "";
    var i := 0;
    while i < |v|
      invariant i <= |v| && out + Encoded(v[i..]) == Encoded(v)
    {
      EncodedFrom(v, i, out);
      var b := v[i];
      if IsUnreserved(b) {
        out := out + [b as char];
      } else {
        out := out + ['%', HexDigit(b / 16), HexDigit(b % 16)];
      }
      i := i + 1;
    }
  }

  lemma EncodedFrom(v: seq<Byte>, i: nat, out: string)
    requires i < |v|
    ensures out + Encoded(v[i..]) == out + Piece(v[i]) + Encoded(v[i + 1..])
  {
    assert v[i..][1..] == v[i + 1..];
    assert out + (Piece(v[i]) + Encoded(v[i + 1..])) == out + Piece(v[i]) + Encoded(v[i + 1..]);
  }

  /** Hexadecimal digits of either case are equivalent. */
  function HexValue(c: char): (r: Option<int>)
    ensures r.Some? ==> 0 <= r.value < 16
  {
    if '0' <= c <= '9' then Some(c as int - '0' as int)
    else if 'A' <= c <= 'F' then Some(c as int - 'A' as int + 10)
    else if 'a' <= c <= 'f' then Some(c as int - 'a' as int + 10)
    else None
  }

  /** The octet at the head of `s` and what follows it. */
  function DecodeHead(s: string): (r: Option<(Byte, string)>)
    requires s != ""
    ensures r.Some? ==> |r.value.1| < |s|
  {
    if s[0] != '%' then (if s[0] as int < 128 then Some((s[0] as int, s[1..])) else None)
    else if |s| >= 3 && HexValue(s[1]).Some? && HexValue(s[2]).Some?
    then Some((16 * HexValue(s[1]).value + HexValue(s[2]).value, s[3..]))
    else None
  }

  function Decode(s: string): Option<seq<Byte>>
    decreases |s|
  {
    if s == "" then Some([])
    else if DecodeHead(s).None? then None
    else
      var rest := Decode(DecodeHead(s).value.1);
      if rest.None? then None else Some([DecodeHead(s).value.0] + rest.value)
  }

  /** Unreserved characters, and upper-case triples of octets that are not. */
  predicate IsNormal(s: string)
    decreases |s|
  {
    || s == ""
    || (&& DecodeHead(s).Some?
        && s[..|s| - |DecodeHead(s).value.1|] == Piece(DecodeHead(s).value.0)
        && IsNormal(DecodeHead(s).value.1))
  }

  lemma HeadOfPiece(b: Byte, rest: string)
    ensures DecodeHead(Piece(b) + rest) == Some((b, rest))
  {
    var s := Piece(b) + rest;
    if IsUnreserved(b) {
      assert s[1..] == rest;
    } else {
      assert HexValue(HexDigit(b / 16)) == Some(b / 16) && HexValue(HexDigit(b % 16)) == Some(b % 16);
      assert s[3..] == rest;
    }
  }

  /** Decoding gives back every byte string. */
  lemma {:induction false} EncodeRoundTrip(v: seq<Byte>)
    ensures Decode(Encoded(v)) == Some(v) && IsNormal(Encoded(v))
  {
    if v != [] {
      HeadOfPiece(v[0], Encoded(v[1..]));
      EncodeRoundTrip(v[1..]);
      hide DecodeHead, Piece;
      assert Piece(v[0]) != "" by { HeadIsNotEmpty(v[0]); }
      assert v == [v[0]] + v[1..];
    }
  }

  lemma HeadIsNotEmpty(b: Byte)
    ensures Piece(b) != ""
  {
  }

  /** The outputs are exactly the normal strings, so the encoding is the one
      normal form of each byte string. */
  lemma {:induction false} OutputsAreTheNormalForms(s: string)
    ensures IsNormal(s) <==> exists v :: Encoded(v) == s
    ensures IsNormal(s) ==> Decode(s).Some? && Encoded(Decode(s).value) == s
    decreases |s|
  {
    if v :| Encoded(v) == s {
      EncodeRoundTrip(v);
    }
    if IsNormal(s) {
      NormalRoundTrip(s);
    }
  }

  lemma {:induction false} NormalRoundTrip(s: string)
    requires IsNormal(s)
    ensures Decode(s).Some? && Encoded(Decode(s).value) == s
    decreases |s|
  {
    if s != "" {
      var (b, rest) := DecodeHead(s).value;
      NormalRoundTrip(rest);
      HeadSplits(s);
      assert s == s[..|s| - |rest|] + s[|s| - |rest|..] == Piece(b) + rest;
      EncodedCons(b, Decode(rest).value);
      hide DecodeHead, Piece, Encoded, IsNormal;
    }
  }

  lemma HeadSplits(s: string)
    requires s != "" && DecodeHead(s).Some?
    ensures s[|s| - |DecodeHead(s).value.1|..] == DecodeHead(s).value.1
  {
  }

  lemma Injective(v: seq<Byte>, w: seq<Byte>)
    requires Encoded(v) == Encoded(w)
    ensures v == w
  {
    EncodeRoundTrip(v);
    EncodeRoundTrip(w);
  }

  /** Letters, digits and four marks are kept as they are; any other octet becomes
      a percent sign and two digits of base sixteen, upper-case, high one first. */
  lemma OctetBecomes(b: Byte)
    ensures Encoded([b]) ==
      if 'A' <= b as char <= 'Z' || 'a' <= b as char <= 'z' || '0' <= b as char <= '9' || b as char in "-_.~"
      then [b as char]
      else ['%', "0123456789ABCDEF"[b / 16], "0123456789ABCDEF"[b % 16]]
  {
    assert [b][1..] == [];
    assert Encoded([b]) == Piece(b) + Encoded([]) == Piece(b);
    HexDigits(b / 16);
    HexDigits(b % 16);
    hide HexDigit;
  }

  lemma HexDigits(n: int)
    requires 0 <= n < 16
    ensures HexDigit(n) == "0123456789ABCDEF"[n]
  {
  }

  lemma EncodedCons(b: Byte, v: seq<Byte>)
    ensures Encoded([b] + v) == Piece(b) + Encoded(v)
  {
    assert ([b] + v)[1..] == v;
  }

  /** And octet by octet. */
  lemma {:induction false} EncodedConcat(v: seq<Byte>, w: seq<Byte>)
    ensures Encoded(v + w) == Encoded(v) + Encoded(w)
  {
    if v == [] {
      assert v + w == w;
    } else {
      hide Encoded, Piece;
      var b, rest := v[0], v[1..];
      assert v == [b] + rest;
      EncodedConcat(rest, w);
      EncodedCons(b, rest);
      EncodedCons(b, rest + w);
      Associative([b], rest, w);
      Associative(Piece(b), Encoded(rest), Encoded(w));
    }
  }
}
