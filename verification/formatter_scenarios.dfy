/** The renderings of the lines the formatter's tests use, worked out in full. */
module FormatterScenarios {
  import opened Wrappers
  import opened Bytes
  import Decimal
  import Hex
  import Text
  import Utf8
  import opened Classifier
  import opened Formatter

  lemma ThreeBytesInHex()
    ensures Hex.HexJoin([0x00, 0xFF, 0xAA], " ") == "00 FF AA"
  {
    assert Hex.HexByte(0x00) == "00" && Hex.HexByte(0xFF) == "FF" && Hex.HexByte(0xAA) == "AA";
  }

  /** Every byte as two upper-case hex digits, single spaces between, then the count. */
  lemma BinaryExample(timestamp: string)
    ensures FormatData([0x00, 0xFF, 0xAA], Binary, timestamp)
      == Some(Header(timestamp, "BINARY") + "[" + "00 FF AA" + "] (" + "3" + " bytes)")
  {
    ThreeBytesInHex();
    assert Decimal.ToDecimal(3) == "3";
  }

  lemma ThreeBytesInGroup()
    ensures HexGroup([0xFF, 0xFE, 0xFD]) == "[[FF, FE, FD]]"
  {
    var data: seq<byte> := [0xFF, 0xFE, 0xFD];
    assert data[1..] == [0xFE, 0xFD] && data[1..][1..] == [0xFD];
    assert Hex.HexJoin([0xFD], ", ") == "FD" by {
      assert Hex.HexByte(0xFD) == "FD";
    }
    assert Hex.HexJoin([0xFE, 0xFD], ", ") == "FE, FD" by {
      assert Hex.HexByte(0xFE) == "FE";
    }
    assert Hex.HexJoin(data, ", ") == "FF, FE, FD" by {
      assert Hex.HexByte(0xFF) == "FF";
    }
  }

  lemma ThreeBytesLoop()
    ensures MixedLoop([0xFF, 0xFE, 0xFD], "", []) == HexGroup([0xFF, 0xFE, 0xFD])
  {
    var data: seq<byte> := [0xFF, 0xFE, 0xFD];
    assert data[1..] == [0xFE, 0xFD] && data[1..][1..] == [0xFD];
    assert !IsPrintableAscii(0xFF) && !IsPrintableAscii(0xFE) && !IsPrintableAscii(0xFD);
    assert [] + [0xFF] == [0xFF] && [0xFF] + [0xFE] == [0xFF, 0xFE] && [0xFF, 0xFE] + [0xFD] == data;
    assert MixedLoop(data, "", []) == MixedLoop([0xFE, 0xFD], "", [0xFF]);
    assert MixedLoop([0xFE, 0xFD], "", [0xFF]) == MixedLoop([0xFD], "", [0xFF, 0xFE]);
    assert MixedLoop([0xFD], "", [0xFF, 0xFE]) == FlushRun("", data);
  }

  lemma KeepsLastChar(s: string)
    requires |s| > 0 && s[|s| - 1] == ']'
    ensures Text.TrimEnd(s) == s
  {
  }

  /** A run of non-printable bytes renders as a bracketed, comma-separated Debug list inside one more pair of brackets. */
  lemma OnlyHexExample(timestamp: string)
    ensures FormatMixed([0xFF, 0xFE, 0xFD], timestamp) == Header(timestamp, "MIXED") + "[[FF, FE, FD]]"
  {
    ThreeBytesLoop();
    ThreeBytesInGroup();
    KeepsLastChar("[[FF, FE, FD]]");
  }

  lemma TwoBytesInGroup()
    ensures HexGroup([0x00, 0xFF]) == "[[00, FF]]"
  {
    assert Hex.HexByte(0x00) == "00" && Hex.HexByte(0xFF) == "FF";
    assert Hex.HexJoin([0x00, 0xFF], ", ") == "00, FF";
  }

  /** A printable byte with no run pending is appended to the output. */
  lemma LoopCopiesChar(data: seq<byte>, output: string)
    requires |data| > 0 && IsPrintableAscii(data[0]) && !IsTerminator(data[0])
    ensures MixedLoop(data, output, []) == MixedLoop(data[1..], output + [data[0] as char], [])
  {
  }

  lemma TextLoop()
    ensures MixedLoop([0x54, 0x65, 0x78, 0x74, 0x00, 0xFF], "", []) == MixedLoop([0x00, 0xFF], "Text", [])
  {
    var data: seq<byte> := [0x54, 0x65, 0x78, 0x74, 0x00, 0xFF];
    LoopCopiesChar(data, "");
    assert data[1..] == [0x65, 0x78, 0x74, 0x00, 0xFF] && "" + ['T'] == "T";
    LoopCopiesChar(data[1..], "T");
    assert data[2..] == [0x78, 0x74, 0x00, 0xFF] && "T" + ['e'] == "Te";
    LoopCopiesChar(data[2..], "Te");
    assert data[3..] == [0x74, 0x00, 0xFF] && "Te" + ['x'] == "Tex";
    LoopCopiesChar(data[3..], "Tex");
    assert data[4..] == [0x00, 0xFF] && "Tex" + ['t'] == "Text";
  }

  lemma BytesLoop()
    ensures MixedLoop([0x00, 0xFF], "Text", []) == "Text" + HexGroup([0x00, 0xFF])
  {
    var data: seq<byte> := [0x00, 0xFF];
    assert !IsPrintableAscii(0x00) && !IsPrintableAscii(0xFF);
    assert data[1..] == [0xFF] && [] + [0x00] == [0x00] && [0x00] + [0xFF] == data;
    assert MixedLoop(data, "Text", []) == MixedLoop([0xFF], "Text", [0x00]);
    assert MixedLoop([0xFF], "Text", [0x00]) == FlushRun("Text", data);
  }

  lemma TextThenBytesLoop()
    ensures MixedLoop([0x54, 0x65, 0x78, 0x74, 0x00, 0xFF], "", []) == "Text[[00, FF]]"
  {
    TextLoop();
    BytesLoop();
    TwoBytesInGroup();
    assert "Text" + "[[00, FF]]" == "Text[[00, FF]]";
  }

  /** Text, then a group for the trailing non-printable bytes. */
  lemma TextThenBytesExample(timestamp: string)
    ensures FormatMixed([0x54, 0x65, 0x78, 0x74, 0x00, 0xFF], timestamp) == Header(timestamp, "MIXED") + "Text[[00, FF]]"
  {
    TextThenBytesLoop();
    KeepsLastChar("Text[[00, FF]]");
  }

  /** Valid UTF-8 control characters that are not whitespace are kept and shown. */
  lemma ControlCharsExample(timestamp: string)
    ensures FormatAscii([0x00, 0x01, 0x02, 0x03], timestamp) == Some(Header(timestamp, "ASCII") + [0 as char, 1 as char, 2 as char, 3 as char])
  {
    var data: seq<byte> := [0x00, 0x01, 0x02, 0x03];
    var text := [0 as char, 1 as char, 2 as char, 3 as char];
    assert Utf8.Latin1(data) == text;
    assert Text.TrimEnd(text) == text;
    FormatAsciiSevenBit(data, timestamp);
  }

  /** A line of blanks and a line ending shows nothing. */
  lemma WhitespaceOnlyExample(timestamp: string)
    ensures FormatAscii([0x20, 0x20, 0x20, CR, LF], timestamp) == None
  {
    var data: seq<byte> := [0x20, 0x20, 0x20, CR, LF];
    FormatAsciiSevenBit(data, timestamp);
    assert Utf8.Latin1(data) == "   \r\n";
    assert Text.TrimEnd("   \r\n") == "";
  }

  lemma InnerCrTrim()
    ensures Text.TrimEnd(Utf8.Latin1([0x54, 0x65, 0x73, 0x74, CR, 0x44, 0x61, 0x74, 0x61, CR])) == "Test\rData"
  {
    assert Utf8.Latin1([0x54, 0x65, 0x73, 0x74, CR, 0x44, 0x61, 0x74, 0x61, CR]) == "Test\rData\r";
    assert "Test\rData" <= "Test\rData\r";
    Text.TrimEndUnique("Test\rData\r", "Test\rData");
  }

  /** Only the trailing CR is removed; one inside the line stays. */
  lemma InnerCrExample(timestamp: string)
    ensures FormatAscii([0x54, 0x65, 0x73, 0x74, CR, 0x44, 0x61, 0x74, 0x61, CR], timestamp)
      == Some(Header(timestamp, "ASCII") + "Test\rData")
  {
    InnerCrTrim();
    FormatAsciiSevenBit([0x54, 0x65, 0x73, 0x74, CR, 0x44, 0x61, 0x74, 0x61, CR], timestamp);
  }
}
