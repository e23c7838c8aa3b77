/**
 * String helpers that the JavaScript code gets from the language itself:
 * decimal rendering of a number in a template literal, code-point
 * lexicographic comparison, and lower-case hex encoding of bytes.
 */
module Strings {
  import opened Wrappers
  import opened Sequences

  type byte = x: int | 0 <= x < 256

  // ---------------------------------------------------------------------
  // Decimal rendering of natural numbers, as `${n}` produces it.
  // ---------------------------------------------------------------------

  predicate IsDigit(c: char) {
    '0' <= c <= '9'
  }

  predicate AllDigits(s: string) {
    forall i :: 0 <= i < |s| ==> IsDigit(s[i])
  }

  function DigitChar(d: nat): (c: char)
    requires d < 10
    ensures IsDigit(c) && c as int - '0' as int == d
  {
    (('0' as int) + d) as char
  }

  function NatToString(n: nat): (s: string)
    ensures |s| > 0 && AllDigits(s)
    decreases n
  {
    if n < 10 then [DigitChar(n)] else NatToString(n / 10) + [DigitChar(n % 10)]
  }

  /** Reads a string of decimal digits back as a number. */
  function ParseNat(s: string): nat
    requires AllDigits(s)
  {
    if |s| == 0 then 0
    else ParseNat(s[..|s| - 1]) * 10 + (s[|s| - 1] as int - '0' as int)
  }

  lemma {:induction false} ParseNatToString(n: nat)
    ensures ParseNat(NatToString(n)) == n
    decreases n
  {
    var s := NatToString(n);
    if n >= 10 {
      ParseNatToString(n / 10);
      assert s[..|s| - 1] == NatToString(n / 10);
    }
  }

  /** Distinct numbers have distinct decimal renderings. */
  lemma NatToStringInjective(m: nat, n: nat)
    requires NatToString(m) == NatToString(n)
    ensures m == n
  {
    ParseNatToString(m);
    ParseNatToString(n);
  }

  // ---------------------------------------------------------------------
  // Code-point lexicographic order: the stand-in for String.localeCompare.
  // ---------------------------------------------------------------------

  predicate LexLess(a: string, b: string)
    decreases |a|
  {
    if |a| == 0 then |b| > 0
    else if |b| == 0 then false
    else if a[0] != b[0] then a[0] < b[0]
    else LexLess(a[1..], b[1..])
  }

  /** Three-way comparison in the manner of localeCompare: -1, 0 or 1. */
  function LocaleCompare(a: string, b: string): (r: int)
    ensures r < 0 <==> LexLess(a, b)
    ensures r == 0 <==> a == b
    ensures r > 0 <==> LexLess(b, a)
  {
    LexLessTotal(a, b);
    LexLessIrreflexive(a);
    LexLessAsymmetric(a, b);
    if LexLess(a, b) then -1 else if a == b then 0 else 1
  }

  lemma {:induction false} LexLessIrreflexive(a: string)
    ensures !LexLess(a, a)
    decreases |a|
  {
    if |a| > 0 {
      LexLessIrreflexive(a[1..]);
    }
  }

  lemma {:induction false} LexLessAsymmetric(a: string, b: string)
    ensures !(LexLess(a, b) && LexLess(b, a))
    decreases |a|
  {
    if |a| > 0 && |b| > 0 && a[0] == b[0] {
      LexLessAsymmetric(a[1..], b[1..]);
    }
  }

  lemma {:induction false} LexLessTransitive(a: string, b: string, c: string)
    requires LexLess(a, b) && LexLess(b, c)
    ensures LexLess(a, c)
    decreases |a|
  {
    if |a| > 0 && a[0] == b[0] && b[0] == c[0] {
      LexLessTransitive(a[1..], b[1..], c[1..]);
    }
  }

  lemma {:induction false} LexLessTotal(a: string, b: string)
    ensures a == b || LexLess(a, b) || LexLess(b, a)
    decreases |a|
  {
    if |a| > 0 && |b| > 0 && a[0] == b[0] {
      LexLessTotal(a[1..], b[1..]);
      if a[1..] == b[1..] {
        assert a == [a[0]] + a[1..] && b == [b[0]] + b[1..];
      }
    }
  }

  // ---------------------------------------------------------------------
  // Lower-case hex encoding, as Buffer.toString('hex') produces it.
  // ---------------------------------------------------------------------

  const HexDigits: string := "0123456789abcdef"

  predicate IsHexDigit(c: char) {
    ('0' <= c <= '9') || ('a' <= c <= 'f')
  }

  function HexChar(d: nat): (c: char)
    requires d < 16
    ensures IsHexDigit(c)
  {
    HexDigits[d]
  }

  /** The value of one lower-case hex digit, or None for any other character. */
  function HexValue(c: char): (r: Option<nat>)
    ensures r.Some? <==> IsHexDigit(c)
    ensures r.Some? ==> r.value < 16 && HexChar(r.value) == c
  {
    if '0' <= c <= '9' then Some(c as int - '0' as int)
    else if 'a' <= c <= 'f' then Some(c as int - 'a' as int + 10)
    else None
  }

  lemma HexValueOfHexChar(d: nat)
    requires d < 16
    ensures HexValue(HexChar(d)) == Some(d)
  {
  }

  function HexEncode(bytes: seq<byte>): (s: string)
    ensures |s| == 2 * |bytes|
  {
    if bytes == [] then [] else [HexChar(bytes[0] / 16), HexChar(bytes[0] % 16)] + HexEncode(bytes[1..])
  }

  /** Byte i of the input becomes characters 2i (high nibble) and 2i+1 (low nibble). */
  lemma {:induction false} HexEncodeAt(bytes: seq<byte>, i: nat)
    requires i < |bytes|
    ensures HexEncode(bytes)[2 * i] == HexChar(bytes[i] / 16)
    ensures HexEncode(bytes)[2 * i + 1] == HexChar(bytes[i] % 16)
  {
    var head := [HexChar(bytes[0] / 16), HexChar(bytes[0] % 16)];
    var rest := HexEncode(bytes[1..]);
    assert HexEncode(bytes) == head + rest;
    if i > 0 {
      HexEncodeAt(bytes[1..], i - 1);
      assert bytes[1..][i - 1] == bytes[i];
      assert (head + rest)[2 * i] == rest[2 * (i - 1)];
      assert (head + rest)[2 * i + 1] == rest[2 * (i - 1) + 1];
    }
  }

  function HexDecode(s: string): (r: Option<seq<byte>>)
    decreases |s|
  {
    if |s| == 0 then Some([])
    else if |s| == 1 then None
    else match (HexValue(s[0]), HexValue(s[1]), HexDecode(s[2..]))
      case (Some(hi), Some(lo), Some(rest)) => Some([hi * 16 + lo] + rest)
      case _ => None
  }

  /** Two hex digits decode to one byte, followed by what the rest decodes to. */
  lemma HexDecodePair(c0: char, c1: char, t: string)
    requires HexValue(c0).Some? && HexValue(c1).Some? && HexDecode(t).Some?
    ensures HexDecode([c0, c1] + t) == Some([HexValue(c0).value * 16 + HexValue(c1).value] + HexDecode(t).value)
  {
    var s := [c0, c1] + t;
    assert s[0] == c0 && s[1] == c1 && s[2..] == t;
  }

  /** Hex decoding undoes hex encoding. */
  lemma {:induction false} HexRoundTrip(bytes: seq<byte>)
    ensures HexDecode(HexEncode(bytes)) == Some(bytes)
  {
    if bytes != [] {
      var hi, lo, rest := bytes[0] / 16, bytes[0] % 16, bytes[1..];
      assert HexEncode(bytes) == [HexChar(hi), HexChar(lo)] + HexEncode(rest);
      HexRoundTrip(rest);
      HexValueOfHexChar(hi);
      HexValueOfHexChar(lo);
      HexDecodePair(HexChar(hi), HexChar(lo), HexEncode(rest));
      assert hi * 16 + lo == bytes[0];
      SplitFirst(bytes);
    }
  }
}
