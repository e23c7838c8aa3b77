/**
 * The two encodings the server relies on when it builds an HTTP Basic
 * Authorization header: UTF-8 (what Buffer.from(string) produces) and
 * base64 with padding (Buffer.toString('base64'), the alphabet of
 * section 4 of RFC 4648). Each encoder is paired with a decoder and a
 * round-trip lemma.
 */
module Encoding {
  import opened Wrappers
  import opened Sequences
  import opened Strings

  // ---------------------------------------------------------------------
  // UTF-8
  // ---------------------------------------------------------------------

  /** A Unicode scalar value: what a Dafny `char` holds. */
  predicate IsScalar(v: int) {
    (0 <= v < 0xD800) || (0xE000 <= v < 0x11_0000)
  }

  function Utf8EncodeChar(c: char): (bs: seq<byte>)
    ensures 1 <= |bs| <= 4
    ensures (|bs| == 1) <==> (c as int < 0x80)
  {
    var v := c as int;
    if v < 0x80 then [v]
    else if v < 0x800 then [0xC0 + v / 64, 0x80 + v % 64]
    else if v < 0x1_0000 then [0xE0 + v / 4096, 0x80 + (v / 64) % 64, 0x80 + v % 64]
    else [0xF0 + v / 262144, 0x80 + (v / 4096) % 64, 0x80 + (v / 64) % 64, 0x80 + v % 64]
  }

  function Utf8Encode(s: string): (bs: seq<byte>)
    ensures |s| <= |bs| <= 4 * |s|
  {
    if s == [] then [] else Utf8EncodeChar(s[0]) + Utf8Encode(s[1..])
  }

  /** A continuation byte 10xxxxxx carries six bits. */
  predicate IsContinuation(b: byte) {
    0x80 <= b < 0xC0
  }

  /** The length of the sequence that starts with lead byte b, or 0 when b cannot lead. */
  function SequenceLength(b: byte): nat {
    if b < 0x80 then 1
    else if 0xC0 <= b < 0xE0 then 2
    else if 0xE0 <= b < 0xF0 then 3
    else if 0xF0 <= b < 0xF8 then 4
    else 0
  }

  function ScalarOf(v: int): Option<char> {
    if IsScalar(v) then Some(v as char) else None
  }

  /** The scalar value carried by an n-byte sequence (lead byte and continuation bytes). */
  function SequenceValue(bs: seq<byte>, n: nat): int
    requires 2 <= n <= 4 && n <= |bs|
  {
    var b0: int, b1: int := bs[0], bs[1];
    if n == 2 then (b0 - 0xC0) * 64 + (b1 - 0x80)
    else
      var b2: int := bs[2];
      if n == 3 then (b0 - 0xE0) * 4096 + (b1 - 0x80) * 64 + (b2 - 0x80)
      else
        var b3: int := bs[3];
        (b0 - 0xF0) * 262144 + (b1 - 0x80) * 4096 + (b2 - 0x80) * 64 + (b3 - 0x80)
  }

  /** Decodes the first character of bs, returning it with the number of bytes it used. */
  function Utf8DecodeChar(bs: seq<byte>): (r: Option<(char, nat)>)
    requires |bs| > 0
    ensures r.Some? ==> 1 <= r.value.1 <= |bs|
  {
    var n := SequenceLength(bs[0]);
    if n == 0 || |bs| < n then None
    else if n == 1 then Some((bs[0] as char, 1))
    else if !(forall k :: 1 <= k < n ==> IsContinuation(bs[k])) then None
    else
      match ScalarOf(SequenceValue(bs, n))
      case Some(c) => Some((c, n))
      case None => None
  }

  function Utf8Decode(bs: seq<byte>): Option<string>
    decreases |bs|
  {
    if bs == [] then Some([])
    else match Utf8DecodeChar(bs)
      case None => None
      case Some((c, n)) =>
        match Utf8Decode(bs[n..])
        case None => None
        case Some(rest) => Some([c] + rest)
  }

  lemma TwoByteValue(v: int)
    requires 0x80 <= v < 0x800
    ensures 0xC2 <= 0xC0 + v / 64 < 0xE0 && ((0xC0 + v / 64) - 0xC0) * 64 + ((0x80 + v % 64) - 0x80) == v
  {
  }

  lemma ThreeByteValue(v: int)
    requires 0x800 <= v < 0x1_0000
    ensures 0xE0 <= 0xE0 + v / 4096 < 0xF0
    ensures (v / 4096) * 4096 + ((v / 64) % 64) * 64 + v % 64 == v
  {
  }

  lemma FourByteValue(v: int)
    requires 0x1_0000 <= v < 0x11_0000
    ensures 0xF0 <= 0xF0 + v / 262144 < 0xF8
    ensures (v / 262144) * 262144 + ((v / 4096) % 64) * 4096 + ((v / 64) % 64) * 64 + v % 64 == v
  {
  }

  lemma Utf8CharRoundTrip(c: char, tail: seq<byte>)
    ensures Utf8DecodeChar(Utf8EncodeChar(c) + tail) == Some((c, |Utf8EncodeChar(c)|))
  {
    var v := c as int;
    var enc := Utf8EncodeChar(c);
    var bs := enc + tail;
    assert IsScalar(v);
    assert bs[..|enc|] == enc;
    if v < 0x80 {
    } else if v < 0x800 {
      TwoByteValue(v);
      assert SequenceLength(bs[0]) == 2;
      assert SequenceValue(bs, 2) == v;
    } else if v < 0x1_0000 {
      ThreeByteValue(v);
      assert SequenceLength(bs[0]) == 3;
      assert SequenceValue(bs, 3) == v;
    } else {
      FourByteValue(v);
      assert SequenceLength(bs[0]) == 4;
      assert SequenceValue(bs, 4) == v;
    }
  }

  /** UTF-8 decoding undoes UTF-8 encoding. */
  lemma {:induction false} Utf8RoundTrip(s: string)
    ensures Utf8Decode(Utf8Encode(s)) == Some(s)
  {
    if s != [] {
      var head := Utf8EncodeChar(s[0]);
      var bs := Utf8Encode(s);
      Utf8CharRoundTrip(s[0], Utf8Encode(s[1..]));
      assert bs[|head|..] == Utf8Encode(s[1..]);
      Utf8RoundTrip(s[1..]);
      assert s == [s[0]] + s[1..];
    }
  }

  /** On ASCII text UTF-8 is one byte per character, holding its code. */
  lemma {:induction false} Utf8OfAscii(s: string)
    requires forall i :: 0 <= i < |s| ==> s[i] as int < 0x80
    ensures |Utf8Encode(s)| == |s|
    ensures forall i :: 0 <= i < |s| ==> Utf8Encode(s)[i] == s[i] as int
  {
    if s != [] {
      Utf8OfAscii(s[1..]);
    }
  }

  // ---------------------------------------------------------------------
  // Base64 with padding
  // ---------------------------------------------------------------------

  /** The character for a six-bit value in the standard alphabet. */
  function SextetChar(v: nat): (c: char)
    requires v < 64
  {
    if v < 26 then ('A' as int + v) as char
    else if v < 52 then ('a' as int + v - 26) as char
    else if v < 62 then ('0' as int + v - 52) as char
    else if v == 62 then '+'
    else '/'
  }

  function SextetValue(c: char): (r: Option<nat>)
    ensures r.Some? ==> r.value < 64 && SextetChar(r.value) == c
  {
    if 'A' <= c <= 'Z' then Some(c as int - 'A' as int)
    else if 'a' <= c <= 'z' then Some(c as int - 'a' as int + 26)
    else if '0' <= c <= '9' then Some(c as int - '0' as int + 52)
    else if c == '+' then Some(62)
    else if c == '/' then Some(63)
    else None
  }

  lemma SextetRoundTrip(v: nat)
    requires v < 64
    ensures SextetValue(SextetChar(v)) == Some(v)
  {
  }

  /** The four characters that encode three bytes. */
  function EncodeGroup(b0: byte, b1: byte, b2: byte): (q: string)
    ensures |q| == 4
  {
    [SextetChar(b0 / 4), SextetChar((b0 % 4) * 16 + b1 / 16),
     SextetChar((b1 % 16) * 4 + b2 / 64), SextetChar(b2 % 64)]
  }

  function Base64Encode(bs: seq<byte>): (s: string)
    ensures |s| % 4 == 0 && (|s| == 0 <==> |bs| == 0)
    decreases |bs|
  {
    if |bs| == 0 then []
    else if |bs| == 1 then
      [SextetChar(bs[0] / 4), SextetChar((bs[0] % 4) * 16), '=', '=']
    else if |bs| == 2 then
      [SextetChar(bs[0] / 4), SextetChar((bs[0] % 4) * 16 + bs[1] / 16), SextetChar((bs[1] % 16) * 4), '=']
    else
      EncodeGroup(bs[0], bs[1], bs[2]) + Base64Encode(bs[3..])
  }

  /** Every started group of three bytes becomes four characters. */
  lemma {:induction false} Base64Length(bs: seq<byte>)
    ensures |Base64Encode(bs)| == 4 * ((|bs| + 2) / 3)
    decreases |bs|
  {
    if |bs| >= 3 {
      Base64Length(bs[3..]);
      assert |Base64Encode(bs)| == 4 + |Base64Encode(bs[3..])|;
      assert (|bs| + 2) / 3 == 1 + (|bs[3..]| + 2) / 3;
    }
  }

  /** Decodes one group of four characters into one to three bytes. */
  function DecodeQuad(q: string): (r: Option<seq<byte>>)
    requires |q| == 4
  {
    if SextetValue(q[0]).None? || SextetValue(q[1]).None? then None
    else
      var v0, v1 := SextetValue(q[0]).value, SextetValue(q[1]).value;
      var b0 := v0 * 4 + v1 / 16;
      if q[2] == '=' && q[3] == '=' then Some([b0])
      else if SextetValue(q[2]).None? then None
      else
        var v2 := SextetValue(q[2]).value;
        var b1 := (v1 % 16) * 16 + v2 / 4;
        if q[3] == '=' then Some([b0, b1])
        else if SextetValue(q[3]).None? then None
        else Some([b0, b1, (v2 % 4) * 64 + SextetValue(q[3]).value])
  }

  function Base64Decode(s: string): Option<seq<byte>>
    decreases |s|
  {
    if |s| == 0 then Some([])
    else if |s| < 4 then None
    else match (DecodeQuad(s[..4]), Base64Decode(s[4..]))
      case (Some(group), Some(rest)) => Some(group + rest)
      case _ => None
  }

  lemma OneByteRoundTrip(b0: byte)
    ensures Base64Decode(Base64Encode([b0])) == Some([b0])
  {
    var s := Base64Encode([b0]);
    SextetRoundTrip(b0 / 4);
    SextetRoundTrip((b0 % 4) * 16);
    assert s[..4] == s && s[4..] == [];
    assert DecodeQuad(s[..4]) == Some([b0]);
    assert Base64Decode(s[4..]) == Some([]);
    var one: seq<byte> := [b0];
    assert one + [] == one;
  }

  /** The low two bits of hi and the high four bits of lo share a sextet and come apart again. */
  lemma SplitTwoFour(hi: byte, lo: byte)
    ensures ((hi % 4) * 16 + lo / 16) / 16 == hi % 4
    ensures ((hi % 4) * 16 + lo / 16) % 16 == lo / 16
  {
  }

  /** The low four bits of hi and the high two bits of lo share a sextet and come apart again. */
  lemma SplitFourTwo(hi: byte, lo: byte)
    ensures ((hi % 16) * 4 + lo / 64) / 4 == hi % 16
    ensures ((hi % 16) * 4 + lo / 64) % 4 == lo / 64
  {
  }

  lemma TwoByteRoundTrip(b0: byte, b1: byte)
    ensures Base64Decode(Base64Encode([b0, b1])) == Some([b0, b1])
  {
    var s := Base64Encode([b0, b1]);
    var v1 := (b0 % 4) * 16 + b1 / 16;
    SextetRoundTrip(b0 / 4);
    SextetRoundTrip(v1);
    SextetRoundTrip((b1 % 16) * 4);
    SplitTwoFour(b0, b1);
    assert s[..4] == s && s[4..] == [];
    assert DecodeQuad(s[..4]) == Some([b0, b1]);
    assert Base64Decode(s[4..]) == Some([]);
    var two: seq<byte> := [b0, b1];
    assert two + [] == two;
  }

  lemma ThreeByteQuad(b0: byte, b1: byte, b2: byte)
    ensures DecodeQuad(EncodeGroup(b0, b1, b2)) == Some([b0, b1, b2])
  {
    var v1 := (b0 % 4) * 16 + b1 / 16;
    var v2 := (b1 % 16) * 4 + b2 / 64;
    SextetRoundTrip(b0 / 4);
    SextetRoundTrip(v1);
    SextetRoundTrip(v2);
    SextetRoundTrip(b2 % 64);
    SplitTwoFour(b0, b1);
    SplitFourTwo(b1, b2);
  }

  lemma DecodeGroupThenRest(q: string, t: string)
    requires |q| == 4 && DecodeQuad(q).Some? && Base64Decode(t).Some?
    ensures Base64Decode(q + t) == Some(DecodeQuad(q).value + Base64Decode(t).value)
  {
    assert (q + t)[..4] == q && (q + t)[4..] == t;
  }

  /** A full group decodes to its three bytes, followed by whatever the rest decodes to. */
  lemma DecodeAfterGroup(b0: byte, b1: byte, b2: byte, t: string)
    requires Base64Decode(t).Some?
    ensures Base64Decode(EncodeGroup(b0, b1, b2) + t) == Some([b0, b1, b2] + Base64Decode(t).value)
  {
    ThreeByteQuad(b0, b1, b2);
    DecodeGroupThenRest(EncodeGroup(b0, b1, b2), t);
  }

  lemma EncodeFirstGroup(bs: seq<byte>)
    requires |bs| >= 3
    ensures Base64Encode(bs) == EncodeGroup(bs[0], bs[1], bs[2]) + Base64Encode(bs[3..])
  {
  }

  /** One step of the round trip: the first three bytes, then the rest. */
  lemma GroupRoundTrip(bs: seq<byte>)
    requires |bs| >= 3 && Base64Decode(Base64Encode(bs[3..])) == Some(bs[3..])
    ensures Base64Decode(Base64Encode(bs)) == Some(bs)
  {
    var b0, b1, b2, rest := bs[0], bs[1], bs[2], bs[3..];
    var g, t := EncodeGroup(b0, b1, b2), Base64Encode(rest);
    EncodeFirstGroup(bs);
    DecodeAfterGroup(b0, b1, b2, t);
    SplitThree(bs);
  }

  /** Base64 decoding undoes base64 encoding. */
  lemma {:induction false} Base64RoundTrip(bs: seq<byte>)
    ensures Base64Decode(Base64Encode(bs)) == Some(bs)
    decreases |bs|
  {
    if |bs| == 1 {
      assert bs == [bs[0]];
      OneByteRoundTrip(bs[0]);
    } else if |bs| == 2 {
      assert bs == [bs[0], bs[1]];
      TwoByteRoundTrip(bs[0], bs[1]);
    } else if |bs| >= 3 {
      Base64RoundTrip(bs[3..]);
      GroupRoundTrip(bs);
    }
  }
}
