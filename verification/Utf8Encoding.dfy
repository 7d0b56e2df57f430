/** The grammar of UTF-8 accepts exactly the encodings of Unicode scalar values (section 3 of RFC 3629). */
module Utf8Encoding {
  import opened ByteStrings
  import opened Utf8

  /** A Unicode scalar value: a code point that is no surrogate. */
  type Scalar = v: int | 0 <= v < 0xD800 || 0xE000 <= v < 0x110000

  /** The bits of a scalar value, six to a tail byte. */
  function EncodeScalar(v: Scalar): (s: ByteString)
    ensures 1 <= |s| <= 4
  {
    if v < 0x80 then [v]
    else if v < 0x800 then [0xC0 + v / 0x40, 0x80 + v % 0x40]
    else if v < 0x10000 then [0xE0 + v / 0x1000, 0x80 + v / 0x40 % 0x40, 0x80 + v % 0x40]
    else [0xF0 + v / 0x40000, 0x80 + v / 0x1000 % 0x40, 0x80 + v / 0x40 % 0x40, 0x80 + v % 0x40]
  }

  function EncodeScalars(vs: seq<Scalar>): ByteString {
    if vs == [] then [] else EncodeScalar(vs[0]) + EncodeScalars(vs[1..])
  }

  /** An encoded scalar value is read as one character of its own length. */
  lemma EncodedIsCharacter(v: Scalar, rest: ByteString)
    ensures CharLength(EncodeScalar(v) + rest) == |EncodeScalar(v)|
  {
    var whole := EncodeScalar(v) + rest;
    assert forall i :: 0 <= i < |EncodeScalar(v)| ==> whole[i] == EncodeScalar(v)[i];
    if 0x800 <= v < 0x10000 {
      ThreeByteLead(v);
    } else if v >= 0x10000 {
      FourByteLead(v);
    }
  }

  lemma ThreeByteLead(v: Scalar)
    requires 0x800 <= v < 0x10000
    ensures StartsThree(EncodeScalar(v))
  {
    var lead, middle := v / 0x1000, v / 0x40 % 0x40;
    assert v / 0x40 == lead * 0x40 + middle;
  }

  lemma FourByteLead(v: Scalar)
    requires v >= 0x10000
    ensures StartsFour(EncodeScalar(v))
  {
    var lead, second := v / 0x40000, v / 0x1000 % 0x40;
    assert v / 0x1000 == lead * 0x40 + second;
  }

  /** Appends the six bits of a tail byte. */
  function AddTail(high: int, tail: Byte): (v: int)
    requires high >= 0 && IsTail(tail)
    ensures v / 0x40 == high && 0x80 + v % 0x40 == tail
  {
    high * 0x40 + (tail - 0x80)
  }

  function DecodeTwo(s: ByteString): (v: Scalar)
    requires StartsTwo(s)
    ensures EncodeScalar(v) == s[..2]
  {
    AddTail(s[0] - 0xC0, s[1])
  }

  function DecodeThree(s: ByteString): (v: Scalar)
    requires StartsThree(s)
    ensures EncodeScalar(v) == s[..3]
  {
    var high := AddTail(s[0] - 0xE0, s[1]);
    var v := AddTail(high, s[2]);
    assert v / 0x1000 == high / 0x40;
    v
  }

  function DecodeFour(s: ByteString): (v: Scalar)
    requires StartsFour(s)
    ensures EncodeScalar(v) == s[..4]
  {
    var high := AddTail(s[0] - 0xF0, s[1]);
    var middle := AddTail(high, s[2]);
    var v := AddTail(middle, s[3]);
    assert v / 0x1000 == middle / 0x40 == high;
    assert v / 0x40000 == high / 0x40;
    v
  }

  /** The scalar value of the character that `s` starts with. */
  function DecodeScalar(s: ByteString): (v: Scalar)
    requires CharLength(s) > 0
    ensures EncodeScalar(v) == s[..CharLength(s)]
  {
    if CharLength(s) == 1 then s[0]
    else if CharLength(s) == 2 then DecodeTwo(s)
    else if CharLength(s) == 3 then DecodeThree(s)
    else DecodeFour(s)
  }

  lemma {:induction false} EncodingsAreValid(vs: seq<Scalar>)
    ensures Valid(EncodeScalars(vs))
  {
    if vs != [] {
      var first, rest := EncodeScalar(vs[0]), EncodeScalars(vs[1..]);
      EncodingsAreValid(vs[1..]);
      EncodedIsCharacter(vs[0], rest);
      assert (first + rest)[|first|..] == rest;
    }
  }

  lemma {:induction false} ValidAreEncodings(s: ByteString) returns (vs: seq<Scalar>)
    requires Valid(s)
    ensures EncodeScalars(vs) == s
    decreases |s|
  {
    if s == [] {
      vs := [];
    } else {
      var n := CharLength(s);
      var rest := ValidAreEncodings(s[n..]);
      vs := [DecodeScalar(s)] + rest;
      assert vs[1..] == rest;
      assert s[..n] + s[n..] == s;
    }
  }

  /** A byte string is well formed iff it encodes some sequence of scalar values. */
  lemma ValidIffEncoding(s: ByteString)
    ensures Valid(s) <==> exists vs :: EncodeScalars(vs) == s
  {
    if Valid(s) {
      var vs := ValidAreEncodings(s);
      assert EncodeScalars(vs) == s;
    }
    if vs :| EncodeScalars(vs) == s {
      EncodingsAreValid(vs);
    }
  }
}
