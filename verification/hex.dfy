/**
 * Two-digit upper-case hexadecimal rendering of bytes (Rust's `{:02X}`), the
 * joined lists the formatter builds from it, and the parsers that invert them.
 */
module Hex {
  import opened Wrappers
  import opened Bytes

  const HexDigits: string := "0123456789ABCDEF"

  predicate IsHexDigit(c: char) {
    '0' <= c <= '9' || 'A' <= c <= 'F'
  }

  function HexDigitValue(c: char): (d: nat)
    requires IsHexDigit(c)
    ensures d < 16 && HexDigits[d] == c
  {
    if '0' <= c <= '9' then c as int - '0' as int else c as int - 'A' as int + 10
  }

  /** The byte as exactly two upper-case hex digits. */
  function HexByte(b: byte): (s: string)
    ensures |s| == 2 && IsHexDigit(s[0]) && IsHexDigit(s[1])
  {
    [HexDigits[b / 16], HexDigits[b % 16]]
  }

  function ParseHexByte(s: string): (r: Option<byte>)
    requires |s| == 2
  {
    if IsHexDigit(s[0]) && IsHexDigit(s[1]) then Some(HexDigitValue(s[0]) * 16 + HexDigitValue(s[1]))
    else None
  }

  lemma HexDigitsDistinct(i: nat, j: nat)
    requires i < 16 && j < 16 && HexDigits[i] == HexDigits[j]
    ensures i == j
  {
  }

  lemma HexDigitValueOf(d: nat)
    requires d < 16
    ensures HexDigitValue(HexDigits[d]) == d
  {
    HexDigitsDistinct(HexDigitValue(HexDigits[d]), d);
  }

  lemma ParseHexByteRoundTrip(b: byte)
    ensures ParseHexByte(HexByte(b)) == Some(b)
  {
    var s := HexByte(b);
    var hi, lo := b / 16, b % 16;
    assert s[0] == HexDigits[hi] && s[1] == HexDigits[lo];
    HexDigitValueOf(hi);
    HexDigitValueOf(lo);
    var v := HexDigitValue(s[0]) * 16 + HexDigitValue(s[1]);
    assert ParseHexByte(s) == Some(v);
    assert v == b;
  }

  /** Each byte in hex, separated by `sep`; empty for no bytes. */
  function HexJoin(bs: seq<byte>, sep: string): (s: string)
    ensures s == "" <==> |bs| == 0
  {
    if |bs| == 0 then ""
    else if |bs| == 1 then HexByte(bs[0])
    else HexByte(bs[0]) + sep + HexJoin(bs[1..], sep)
  }

  lemma MulSucc(a: nat, n: nat)
    ensures a * (n + 1) == a * n + a
  {
  }

  /** Two digits per byte and one separator between neighbours. */
  lemma {:induction false} HexJoinLength(bs: seq<byte>, sep: string)
    requires |bs| > 0
    ensures |HexJoin(bs, sep)| == 2 * |bs| + |sep| * (|bs| - 1)
  {
    if |bs| > 1 {
      HexJoinLength(bs[1..], sep);
      MulSucc(|sep|, |bs| - 2);
    }
  }

  /** Reads back a non-empty `HexJoin` body: pairs of hex digits separated by exactly `sep`. */
  function ParseHexNonEmpty(s: string, sep: string): (r: Option<seq<byte>>)
    requires |sep| > 0
    decreases |s|
  {
    if |s| < 2 then None
    else
      match ParseHexByte(s[..2])
      case None => None
      case Some(b) =>
        if |s| == 2 then Some([b])
        else if |s| > 2 + |sep| && s[2..2 + |sep|] == sep then
          match ParseHexNonEmpty(s[2 + |sep|..], sep)
          case None => None
          case Some(rest) => Some([b] + rest)
        else None
  }

  /** Reads back any `HexJoin` body; the empty string is the empty list. */
  function ParseHexList(s: string, sep: string): (r: Option<seq<byte>>)
    requires |sep| > 0
  {
    if |s| == 0 then Some([]) else ParseHexNonEmpty(s, sep)
  }

  lemma ParseHexOne(b: byte, sep: string)
    requires |sep| > 0
    ensures ParseHexNonEmpty(HexByte(b), sep) == Some([b])
  {
    ParseHexByteRoundTrip(b);
    assert HexByte(b)[..2] == HexByte(b);
  }

  /** One more byte in front of a readable list reads as one more byte in front of its bytes. */
  lemma ParseHexCons(b: byte, sep: string, t: string)
    requires |sep| > 0 && ParseHexNonEmpty(t, sep).Some?
    ensures ParseHexNonEmpty(HexByte(b) + sep + t, sep) == Some([b] + ParseHexNonEmpty(t, sep).value)
  {
    var s := HexByte(b) + sep + t;
    assert s[..2] == HexByte(b);
    ParseHexByteRoundTrip(b);
    assert s[2..2 + |sep|] == sep;
    assert s[2 + |sep|..] == t;
  }

  /** Round trip: the hex list decodes to the bytes it was made from, in order. */
  lemma {:induction false} ParseHexJoinRoundTrip(bs: seq<byte>, sep: string)
    requires |sep| > 0
    ensures ParseHexList(HexJoin(bs, sep), sep) == Some(bs)
  {
    if |bs| == 1 {
      assert HexJoin(bs, sep) == HexByte(bs[0]);
      ParseHexOne(bs[0], sep);
      assert [bs[0]] == bs;
    } else if |bs| > 1 {
      var t := HexJoin(bs[1..], sep);
      assert HexJoin(bs, sep) == HexByte(bs[0]) + sep + t;
      ParseHexJoinRoundTrip(bs[1..], sep);
      ParseHexCons(bs[0], sep, t);
      assert [bs[0]] + bs[1..] == bs;
    }
  }

  /** Every character of a joined hex list is a hex digit or a character of the separator. */
  lemma {:induction false} HexJoinAlphabet(bs: seq<byte>, sep: string, i: nat)
    requires i < |HexJoin(bs, sep)|
    ensures IsHexDigit(HexJoin(bs, sep)[i]) || HexJoin(bs, sep)[i] in sep
  {
    if |bs| > 1 {
      var s := HexJoin(bs, sep);
      if i >= 2 + |sep| {
        HexJoinAlphabet(bs[1..], sep, i - 2 - |sep|);
        assert s[i] == HexJoin(bs[1..], sep)[i - 2 - |sep|];
      } else if i >= 2 {
        assert s[i] == sep[i - 2];
      }
    }
  }
}
