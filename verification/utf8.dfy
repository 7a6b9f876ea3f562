/**
 * UTF-8 as defined in section 4 of RFC 3629, the check `String::from_utf8`
 * performs: a decoder that accepts exactly the well-formed byte sequences
 * and an encoder of Unicode scalar values (Dafny's `char`) that inverts it.
 */
module Utf8 {
  import opened Wrappers
  import opened Bytes

  /** A continuation byte, `10xxxxxx`. */
  predicate IsTail(b: byte) {
    0x80 <= b <= 0xBF
  }

  /**
   * The range the second byte of a multi-byte sequence must lie in, given the
   * lead byte; the narrowed ranges exclude overlong forms, surrogates and
   * values above U+10FFFF.
   */
  predicate SecondOk(b0: byte, b1: byte) {
    if b0 == 0xE0 then 0xA0 <= b1 <= 0xBF
    else if b0 == 0xED then 0x80 <= b1 <= 0x9F
    else if b0 == 0xF0 then 0x90 <= b1 <= 0xBF
    else if b0 == 0xF4 then 0x80 <= b1 <= 0x8F
    else IsTail(b1)
  }

  /** The value a two-, three- or four-byte sequence carries in its payload bits, six bits per continuation byte. */
  function Value2(b0: byte, b1: byte): int {
    (b0 as int - 0xC0) * 64 + (b1 as int - 0x80)
  }

  function Value3(b0: byte, b1: byte, b2: byte): int {
    ((b0 as int - 0xE0) * 64 + (b1 as int - 0x80)) * 64 + (b2 as int - 0x80)
  }

  function Value4(b0: byte, b1: byte, b2: byte, b3: byte): int {
    (((b0 as int - 0xF0) * 64 + (b1 as int - 0x80)) * 64 + (b2 as int - 0x80)) * 64 + (b3 as int - 0x80)
  }

  /** The scalar value at the front of `b` and the number of bytes it takes, or `None` if `b` does not start well-formed. */
  function DecodeFirst(b: seq<byte>): (r: Option<(char, nat)>)
    requires |b| > 0
    ensures r.Some? ==> 1 <= r.value.1 <= |b| && r.value.1 <= 4
  {
    var b0 := b[0];
    if b0 < 0x80 then Some((b0 as char, 1))
    else if 0xC2 <= b0 <= 0xDF then
      if |b| >= 2 && IsTail(b[1]) then
        Some((Value2(b0, b[1]) as char, 2))
      else None
    else if 0xE0 <= b0 <= 0xEF then
      if |b| >= 3 && SecondOk(b0, b[1]) && IsTail(b[2]) then
        Some((Value3(b0, b[1], b[2]) as char, 3))
      else None
    else if 0xF0 <= b0 <= 0xF4 then
      if |b| >= 4 && SecondOk(b0, b[1]) && IsTail(b[2]) && IsTail(b[3]) then
        Some((Value4(b0, b[1], b[2], b[3]) as char, 4))
      else None
    else None
  }

  /** The text `b` encodes, or `None` when `b` is not well-formed UTF-8. */
  function Decode(b: seq<byte>): Option<string>
    decreases |b|
  {
    if |b| == 0 then Some([])
    else
      match DecodeFirst(b)
      case None => None
      case Some((c, n)) =>
        match Decode(b[n..])
        case None => None
        case Some(rest) => Some([c] + rest)
  }

  predicate IsWellFormed(b: seq<byte>) {
    Decode(b).Some?
  }

  /** The shortest UTF-8 form of one scalar value. */
  function EncodeChar(c: char): (b: seq<byte>)
    ensures 1 <= |b| <= 4
  {
    var cp := c as int;
    if cp < 0x80 then [cp]
    else if cp < 0x800 then [0xC0 + cp / 64, 0x80 + cp % 64]
    else if cp < 0x10000 then
      var hi := cp / 64;
      [0xE0 + hi / 64, 0x80 + hi % 64, 0x80 + cp % 64]
    else
      var hi := cp / 64;
      var top := hi / 64;
      [0xF0 + top / 64, 0x80 + top % 64, 0x80 + hi % 64, 0x80 + cp % 64]
  }

  function Encode(s: string): seq<byte>
  {
    if |s| == 0 then [] else EncodeChar(s[0]) + Encode(s[1..])
  }

  /** Euclidean division by 64 splits off the low six bits. */
  lemma DivMod64(x: int, q: int, r: int)
    requires 0 <= r < 64 && x == q * 64 + r
    ensures x / 64 == q && x % 64 == r
  {
  }

  lemma EncodeDecodes2(c: char, rest: seq<byte>)
    requires 0x80 <= c as int < 0x800
    ensures DecodeFirst(EncodeChar(c) + rest) == Some((c, 2))
  {
    var cp := c as int;
    var b := EncodeChar(c) + rest;
    DivMod64(cp, cp / 64, cp % 64);
    assert Value2(b[0], b[1]) == cp;
  }

  lemma EncodeDecodes3(c: char, rest: seq<byte>)
    requires 0x800 <= c as int < 0x10000
    ensures DecodeFirst(EncodeChar(c) + rest) == Some((c, 3))
  {
    var cp := c as int;
    var hi := cp / 64;
    var b := EncodeChar(c) + rest;
    assert cp == hi * 64 + cp % 64;
    assert hi == (hi / 64) * 64 + hi % 64;
    assert b[0] == 0xE0 + hi / 64 && b[1] == 0x80 + hi % 64 && b[2] == 0x80 + cp % 64;
    assert Value3(b[0], b[1], b[2]) == cp;
  }

  lemma EncodeDecodes4(c: char, rest: seq<byte>)
    requires 0x10000 <= c as int
    ensures DecodeFirst(EncodeChar(c) + rest) == Some((c, 4))
  {
    var cp := c as int;
    var hi := cp / 64;
    var top := hi / 64;
    var b := EncodeChar(c) + rest;
    assert cp == hi * 64 + cp % 64;
    assert hi == top * 64 + hi % 64;
    assert top == (top / 64) * 64 + top % 64;
    assert b[0] == 0xF0 + top / 64 && b[1] == 0x80 + top % 64;
    assert b[2] == 0x80 + hi % 64 && b[3] == 0x80 + cp % 64;
    assert Value4(b[0], b[1], b[2], b[3]) == cp;
  }

  /** The decoder reads back the encoding of any scalar value, whatever follows it. */
  lemma DecodeFirstEncodeChar(c: char, rest: seq<byte>)
    ensures DecodeFirst(EncodeChar(c) + rest) == Some((c, |EncodeChar(c)|))
  {
    var cp := c as int;
    if cp < 0x80 {
    } else if cp < 0x800 {
      EncodeDecodes2(c, rest);
    } else if cp < 0x10000 {
      EncodeDecodes3(c, rest);
    } else {
      EncodeDecodes4(c, rest);
    }
  }

  lemma DecodedIsEncoding2(b: seq<byte>)
    requires |b| >= 2 && 0xC2 <= b[0] <= 0xDF && IsTail(b[1])
    ensures 0x80 <= Value2(b[0], b[1]) < 0x800
    ensures EncodeChar(Value2(b[0], b[1]) as char) == b[..2]
  {
    var cp := Value2(b[0], b[1]);
    DivMod64(cp, b[0] as int - 0xC0, b[1] as int - 0x80);
  }

  lemma DecodedIsEncoding3(b: seq<byte>)
    requires |b| >= 3 && 0xE0 <= b[0] <= 0xEF && SecondOk(b[0], b[1]) && IsTail(b[2])
    ensures 0x800 <= Value3(b[0], b[1], b[2]) < 0x10000
    ensures EncodeChar(Value3(b[0], b[1], b[2]) as char) == b[..3]
  {
    var hi := (b[0] as int - 0xE0) * 64 + (b[1] as int - 0x80);
    var cp := Value3(b[0], b[1], b[2]);
    DivMod64(cp, hi, b[2] as int - 0x80);
    DivMod64(hi, b[0] as int - 0xE0, b[1] as int - 0x80);
  }

  lemma DecodedIsEncoding4(b: seq<byte>)
    requires |b| >= 4 && 0xF0 <= b[0] <= 0xF4 && SecondOk(b[0], b[1]) && IsTail(b[2]) && IsTail(b[3])
    ensures 0x10000 <= Value4(b[0], b[1], b[2], b[3]) < 0x110000
    ensures EncodeChar(Value4(b[0], b[1], b[2], b[3]) as char) == b[..4]
  {
    var top := (b[0] as int - 0xF0) * 64 + (b[1] as int - 0x80);
    var hi := top * 64 + (b[2] as int - 0x80);
    var cp := Value4(b[0], b[1], b[2], b[3]);
    DivMod64(cp, hi, b[3] as int - 0x80);
    DivMod64(hi, top, b[2] as int - 0x80);
    DivMod64(top, b[0] as int - 0xF0, b[1] as int - 0x80);
  }

  /** Whatever the decoder accepts at the front is exactly the encoding of the value it returns. */
  lemma DecodeFirstIsEncoding(b: seq<byte>)
    requires |b| > 0 && DecodeFirst(b).Some?
    ensures b[..DecodeFirst(b).value.1] == EncodeChar(DecodeFirst(b).value.0)
  {
    var n := DecodeFirst(b).value.1;
    if n == 2 {
      DecodedIsEncoding2(b);
    } else if n == 3 {
      DecodedIsEncoding3(b);
    } else if n == 4 {
      DecodedIsEncoding4(b);
    }
  }

  /** Round trip: decoding an encoding gives the text back. */
  lemma {:induction false} DecodeEncode(s: string)
    ensures Decode(Encode(s)) == Some(s)
  {
    if |s| > 0 {
      var b := Encode(s);
      DecodeFirstEncodeChar(s[0], Encode(s[1..]));
      assert b[|EncodeChar(s[0])|..] == Encode(s[1..]);
      DecodeEncode(s[1..]);
      assert [s[0]] + s[1..] == s;
    }
  }

  /** A well-formed sequence decodes to its first character followed by the decoding of the rest. */
  lemma DecodeStep(b: seq<byte>)
    requires |b| > 0 && IsWellFormed(b)
    ensures DecodeFirst(b).Some? && IsWellFormed(b[DecodeFirst(b).value.1..])
    ensures Decode(b).value == [DecodeFirst(b).value.0] + Decode(b[DecodeFirst(b).value.1..]).value
  {
  }

  lemma EncodeCons(b: seq<byte>, c: char, n: nat, rest: string)
    requires n <= |b| && EncodeChar(c) == b[..n] && Encode(rest) == b[n..]
    ensures Encode([c] + rest) == b
  {
    assert ([c] + rest)[1..] == rest;
    assert b[..n] + b[n..] == b;
  }

  /** Round trip: a sequence the decoder accepts is the encoding of what it decodes to. */
  lemma {:induction false} EncodeDecode(b: seq<byte>)
    requires IsWellFormed(b)
    ensures Encode(Decode(b).value) == b
  {
    if |b| > 0 {
      DecodeStep(b);
      var c, n := DecodeFirst(b).value.0, DecodeFirst(b).value.1;
      var rest := Decode(b[n..]).value;
      EncodeDecode(b[n..]);
      DecodeFirstIsEncoding(b);
      EncodeCons(b, c, n, rest);
    }
  }

  /** `Decode` and `Encode` are inverse: `b` decodes to `s` exactly when `s` encodes to `b`. */
  lemma DecodeIffEncode(b: seq<byte>, s: string)
    ensures Decode(b) == Some(s) <==> Encode(s) == b
  {
    if Decode(b) == Some(s) {
      EncodeDecode(b);
    }
    if Encode(s) == b {
      DecodeEncode(s);
    }
  }

  /** Each byte read as the character with the same value. */
  function Latin1(b: seq<byte>): (s: string)
    ensures |s| == |b|
    ensures forall i :: 0 <= i < |b| ==> s[i] as int == b[i]
  {
    if |b| == 0 then [] else [b[0] as char] + Latin1(b[1..])
  }

  /** Bytes below 0x80 decode one-for-one to the characters with the same values. */
  lemma {:induction false} DecodeAscii(b: seq<byte>)
    requires forall i :: 0 <= i < |b| ==> b[i] < 0x80
    ensures Decode(b) == Some(Latin1(b))
  {
    if |b| > 0 {
      assert DecodeFirst(b) == Some((b[0] as char, 1));
      DecodeAscii(b[1..]);
    }
  }
}
