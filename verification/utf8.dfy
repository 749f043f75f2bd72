/**
 UTF-8 as defined by RFC 3629: the encoder of section 3 (a code point becomes
 one to four octets according to its range) and, as its independent partner,
 the octet syntax of section 4 together with a decoder built on that syntax.

 Text scalars in the export model are sequences of Unicode scalar values, so
 every text scalar has an encoding and the encoder is total.
 */
module Utf8 {
  import opened Wrappers

  /** An octet. */
  type Byte = b: int | 0 <= b < 0x100

  /** A Unicode scalar value: a code point of U+0000..U+10FFFF (the range
      section 3 of RFC 3629 allows) that is not a surrogate. */
  type ScalarValue = c: int | 0 <= c < 0xD800 || 0xE000 <= c < 0x11_0000

  /** UTF8-tail of section 4 of RFC 3629. */
  predicate IsTail(b: Byte) {
    0x80 <= b <= 0xBF
  }

  /** True iff `bs` is exactly one UTF8-char of the ABNF in section 4 of
      RFC 3629 (UTF8-1, UTF8-2, UTF8-3 or UTF8-4). */
  predicate IsUtf8Char(bs: seq<Byte>) {
    if |bs| == 1 then
      bs[0] <= 0x7F
    else if |bs| == 2 then
      0xC2 <= bs[0] <= 0xDF && IsTail(bs[1])
    else if |bs| == 3 then
      && ((bs[0] == 0xE0 && 0xA0 <= bs[1] <= 0xBF)
          || (0xE1 <= bs[0] <= 0xEC && IsTail(bs[1]))
          || (bs[0] == 0xED && 0x80 <= bs[1] <= 0x9F)
          || (0xEE <= bs[0] <= 0xEF && IsTail(bs[1])))
      && IsTail(bs[2])
    else if |bs| == 4 then
      && ((bs[0] == 0xF0 && 0x90 <= bs[1] <= 0xBF)
          || (0xF1 <= bs[0] <= 0xF3 && IsTail(bs[1]))
          || (bs[0] == 0xF4 && 0x80 <= bs[1] <= 0x8F))
      && IsTail(bs[2]) && IsTail(bs[3])
    else
      false
  }

  /** The number of octets a UTF8-char starting with `lead` has, or 0 when
      no UTF8-char starts with `lead`. */
  function SequenceLength(lead: Byte): (n: nat)
    ensures n <= 4
  {
    if lead <= 0x7F then 1
    else if 0xC2 <= lead <= 0xDF then 2
    else if 0xE0 <= lead <= 0xEF then 3
    else if 0xF0 <= lead <= 0xF4 then 4
    else 0
  }

  /** The code point carried by the x bits of a one- to four-octet sequence
      (the bit layout of the table in section 3 of RFC 3629). */
  function CharValue(bs: seq<Byte>): int
    requires 1 <= |bs| <= 4
  {
    var b0: int := bs[0];
    if |bs| == 1 then b0
    else
      var b1: int := bs[1];
      if |bs| == 2 then (b0 - 0xC0) * 0x40 + (b1 - 0x80)
      else
        var b2: int := bs[2];
        if |bs| == 3 then ((b0 - 0xE0) * 0x40 + (b1 - 0x80)) * 0x40 + (b2 - 0x80)
        else
          var b3: int := bs[3];
          (((b0 - 0xF0) * 0x40 + (b1 - 0x80)) * 0x40 + (b2 - 0x80)) * 0x40 + (b3 - 0x80)
  }

  /** Splitting `q * 64 + t` into six low bits and the rest gives back `q`
      and `t`. */
  lemma SixBits(q: int, t: int)
    requires 0 <= t < 0x40
    ensures (q * 0x40 + t) / 0x40 == q
    ensures (q * 0x40 + t) % 0x40 == t
  {
  }

  /** The x bits of a well-formed UTF8-char spell a scalar value whose
      encoding is that very char. */
  lemma EncodeCharValue(bs: seq<Byte>)
    requires IsUtf8Char(bs)
    ensures 0 <= CharValue(bs) < 0xD800 || 0xE000 <= CharValue(bs) < 0x11_0000
    ensures EncodeScalar(CharValue(bs)) == bs
  {
    if |bs| == 4 {
      EncodeFourOctets(bs);
    }
  }

  /** The four-octet case of EncodeCharValue, peeled off six bits at a time. */
  lemma EncodeFourOctets(bs: seq<Byte>)
    requires |bs| == 4 && IsUtf8Char(bs)
    ensures 0x1_0000 <= CharValue(bs) < 0x11_0000
    ensures EncodeScalar(CharValue(bs)) == bs
  {
    var b0: int := bs[0];
    var b1: int := bs[1];
    var b2: int := bs[2];
    var b3: int := bs[3];
    var c2 := (b0 - 0xF0) * 0x40 + (b1 - 0x80);
    var c1 := c2 * 0x40 + (b2 - 0x80);
    var c := c1 * 0x40 + (b3 - 0x80);
    assert CharValue(bs) == c;
    SixBits(c1, b3 - 0x80);
    SixBits(c2, b2 - 0x80);
    SixBits(b0 - 0xF0, b1 - 0x80);
  }

  /** Section 3 of RFC 3629: the octets of one scalar value. The result is a
      single well-formed UTF8-char of section 4 whose x bits spell `c`, so
      decoding it gives `c` back; ASCII stays one identical octet. */
  function EncodeScalar(c: ScalarValue): (bs: seq<Byte>)
    ensures IsUtf8Char(bs)
    ensures CharValue(bs) == c
    ensures SequenceLength(bs[0]) == |bs|
    ensures c < 0x80 <==> bs == [c]
  {
    if c < 0x80 then
      [c]
    else if c < 0x800 then
      [0xC0 + c / 0x40, 0x80 + c % 0x40]
    else if c < 0x1_0000 then
      var c1 := c / 0x40;
      [0xE0 + c1 / 0x40, 0x80 + c1 % 0x40, 0x80 + c % 0x40]
    else
      var c1 := c / 0x40;
      var c2 := c1 / 0x40;
      [0xF0 + c2 / 0x40, 0x80 + c2 % 0x40, 0x80 + c1 % 0x40, 0x80 + c % 0x40]
  }

  /** Section 3 of RFC 3629 applied to a whole text: the concatenation of the
      encodings of its scalar values, in order. */
  function Encode(s: seq<ScalarValue>): (r: seq<Byte>)
    ensures |s| <= |r| <= 4 * |s|
    ensures (forall i :: 0 <= i < |s| ==> s[i] < 0x80) ==>
              |r| == |s| && forall i :: 0 <= i < |s| ==> r[i] == s[i]
  {
    if |s| == 0 then [] else EncodeScalar(s[0]) + Encode(s[1..])
  }

  /** Decodes exactly one UTF8-char; None unless `bs` matches the section 4
      syntax. Every char it accepts is the encoding of the value it returns. */
  function DecodeChar(bs: seq<Byte>): (r: Option<ScalarValue>)
    ensures r.Some? <==> IsUtf8Char(bs)
    ensures r.Some? ==> EncodeScalar(r.value) == bs
  {
    if IsUtf8Char(bs) then
      EncodeCharValue(bs);
      Some(CharValue(bs))
    else
      None
  }

  /** Decodes a whole octet string, char by char; None when some prefix is not
      a UTF8-char. Whatever it accepts is the encoding of the text it returns. */
  function Decode(bs: seq<Byte>): (r: Option<seq<ScalarValue>>)
    ensures r.Some? ==> Encode(r.value) == bs
    decreases |bs|
  {
    if |bs| == 0 then
      Some([])
    else
      var n := SequenceLength(bs[0]);
      if n == 0 || |bs| < n then
        None
      else
        match DecodeChar(bs[..n])
        case None => None
        case Some(c) =>
          match Decode(bs[n..])
          case None => None
          case Some(cs) => Some([c] + cs)
  }

  /** Decoding undoes encoding: every text is recovered from its UTF-8 form,
      so the encoding loses nothing and distinct texts never collide. */
  lemma {:induction false} DecodeEncode(s: seq<ScalarValue>)
    ensures Decode(Encode(s)) == Some(s)
  {
    if |s| > 0 {
      var e := EncodeScalar(s[0]);
      var rest := Encode(s[1..]);
      var bs := e + rest;
      assert Encode(s) == bs;
      assert bs[0] == e[0];
      assert bs[..|e|] == e;
      assert bs[|e|..] == rest;
      assert DecodeChar(e) == Some(s[0]);
      DecodeEncode(s[1..]);
      assert [s[0]] + s[1..] == s;
    }
  }

  /** Two texts with the same UTF-8 encoding are the same text. */
  lemma EncodeInjective(s: seq<ScalarValue>, t: seq<ScalarValue>)
    requires Encode(s) == Encode(t)
    ensures s == t
  {
    DecodeEncode(s);
    DecodeEncode(t);
  }
}
