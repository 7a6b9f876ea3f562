/**
 * Rendering of one completed line for display (`DataFormatter` in
 * src/data/formatter.rs). Every renderer is a pure function of the line's
 * bytes and a caller-supplied timestamp string.
 */
module Formatter {
  import opened Wrappers
  import opened Bytes
  import opened Classifier
  import Decimal
  import Hex
  import Text
  import Seqs
  import Utf8

  /** Tab, LF, CR and the visible ASCII range 32..126. */
  predicate IsPrintableAscii(b: byte) {
    b == 9 || b == 10 || b == 13 || (32 <= b <= 126)
  }

  /** The printable bytes are exactly the listed ones; 31, 127 and every byte above 127 are not printable. */
  lemma PrintableBoundaries()
    ensures IsPrintableAscii(9) && IsPrintableAscii(10) && IsPrintableAscii(13)
    ensures IsPrintableAscii(32) && IsPrintableAscii(126)
    ensures !IsPrintableAscii(0) && !IsPrintableAscii(8) && !IsPrintableAscii(11)
    ensures !IsPrintableAscii(12) && !IsPrintableAscii(31) && !IsPrintableAscii(127)
    ensures forall b: byte :: b >= 0x80 ==> !IsPrintableAscii(b)
  {
  }

  /** `"[<timestamp>] <kind>: "`, the start of every rendered line; `kind` names the rendering. */
  function Header(timestamp: string, kind: string): string {
    "[" + timestamp + "] " + kind + ": "
  }

  // ---------------------------------------------------------------- ASCII

  /**
   * A line shown as text: it must be valid UTF-8; trailing CRs, then
   * trailing LFs, then trailing whitespace are removed, and an empty
   * remainder shows nothing.
   */
  function FormatAscii(data: seq<byte>, timestamp: string): Option<string>
  {
    match Utf8.Decode(data)
    case None => None
    case Some(text) =>
      var trimmed := Text.TrimEnd(Text.TrimEndMatches(Text.TrimEndMatches(text, '\r'), '\n'));
      if |trimmed| == 0 then None else Some(Header(timestamp, "ASCII") + trimmed)
  }

  /** The CR and LF passes are subsumed by the whitespace trim: only `TrimEnd` decides what is kept. */
  lemma AsciiTrimIsTrimEnd(text: string)
    ensures Text.TrimEnd(Text.TrimEndMatches(Text.TrimEndMatches(text, '\r'), '\n')) == Text.TrimEnd(text)
  {
    Text.TrimEndAbsorbsMatches(Text.TrimEndMatches(text, '\r'), '\n');
    Text.TrimEndAbsorbsMatches(text, '\r');
  }

  /**
   * For bytes that encode `text`, the line is shown as `text` without its
   * trailing whitespace, unless nothing is left.
   */
  lemma FormatAsciiWellFormed(data: seq<byte>, text: string, timestamp: string)
    requires Utf8.Encode(text) == data
    ensures var kept := Text.TrimEnd(text);
      FormatAscii(data, timestamp) == if |kept| == 0 then None else Some(Header(timestamp, "ASCII") + kept)
  {
    Utf8.DecodeIffEncode(data, text);
    AsciiTrimIsTrimEnd(text);
  }

  /** Bytes that are not UTF-8 are never shown. */
  lemma FormatAsciiIllFormed(data: seq<byte>, timestamp: string)
    requires !Utf8.IsWellFormed(data)
    ensures FormatAscii(data, timestamp) == None
  {
  }

  /** On 7-bit input the text is the bytes themselves and only bytes 9..13 and 32 are trimmed. */
  lemma FormatAsciiSevenBit(data: seq<byte>, timestamp: string)
    requires forall i :: 0 <= i < |data| ==> data[i] < 0x80
    ensures var kept := Text.TrimEnd(Utf8.Latin1(data));
      && (forall i :: |kept| <= i < |data| ==> (9 <= data[i] <= 13 || data[i] == 32))
      && FormatAscii(data, timestamp) == if |kept| == 0 then None else Some(Header(timestamp, "ASCII") + kept)
  {
    var text := Utf8.Latin1(data);
    var kept := Text.TrimEnd(text);
    assert Utf8.Encode(text) == data by {
      Utf8.DecodeAscii(data);
      Utf8.DecodeIffEncode(data, text);
    }
    FormatAsciiWellFormed(data, text, timestamp);
    forall i | |kept| <= i < |data|
      ensures 9 <= data[i] <= 13 || data[i] == 32
    {
      assert Text.IsWhitespace(text[i]) && text[i] as int == data[i] < 0x80;
    }
  }

  // ---------------------------------------------------------------- BINARY

  /** A line shown as hex: each byte as two upper-case digits separated by single spaces, then the byte count. */
  function FormatBinary(data: seq<byte>, timestamp: string): string
  {
    Header(timestamp, "BINARY") + "[" + Hex.HexJoin(data, " ") + "] (" + Decimal.ToDecimal(|data|) + " bytes)"
  }

  /** Position of the first `c` in `s`, or `|s|` when there is none. */
  function IndexOf(s: string, c: char): (k: nat)
    ensures k <= |s|
    ensures forall i :: 0 <= i < k ==> s[i] != c
    ensures k < |s| ==> s[k] == c
  {
    if |s| == 0 then 0 else if s[0] == c then 0 else 1 + IndexOf(s[1..], c)
  }

  /** Recovers the bytes from a binary rendering made with `timestamp`, checking the byte count. */
  function ParseBinary(record: string, timestamp: string): Option<seq<byte>>
  {
    var head := Header(timestamp, "BINARY") + "[";
    if |record| < |head| || record[..|head|] != head then None
    else
      var rest := record[|head|..];
      var k := IndexOf(rest, ']');
      match Hex.ParseHexList(rest[..k], " ")
      case None => None
      case Some(bytes) =>
        if rest[k..] == "] (" + Decimal.ToDecimal(|bytes|) + " bytes)" then Some(bytes) else None
  }

  lemma {:induction false} IndexOfFirst(body: string, tail: string, c: char)
    requires c !in body && |tail| > 0 && tail[0] == c
    ensures IndexOf(body + tail, c) == |body|
  {
    if |body| > 0 {
      assert (body + tail)[1..] == body[1..] + tail;
      IndexOfFirst(body[1..], tail, c);
    }
  }

  lemma HexJoinHasNoBracket(data: seq<byte>, sep: string)
    requires ']' !in sep
    ensures ']' !in Hex.HexJoin(data, sep)
  {
    var s := Hex.HexJoin(data, sep);
    forall i | 0 <= i < |s|
      ensures s[i] != ']'
    {
      Hex.HexJoinAlphabet(data, sep, i);
    }
  }

  /** Round trip: the binary rendering gives back every byte of the line, in order, and its length. */
  lemma ParseFormatBinary(data: seq<byte>, timestamp: string)
    ensures ParseBinary(FormatBinary(data, timestamp), timestamp) == Some(data)
  {
    var head := Header(timestamp, "BINARY") + "[";
    var body := Hex.HexJoin(data, " ");
    var tail := "] (" + Decimal.ToDecimal(|data|) + " bytes)";
    var record := FormatBinary(data, timestamp);
    assert record == head + (body + tail);
    assert record[..|head|] == head;
    var rest := record[|head|..];
    assert rest == body + tail;
    HexJoinHasNoBracket(data, " ");
    IndexOfFirst(body, tail, ']');
    assert rest[..|body|] == body && rest[|body|..] == tail;
    Hex.ParseHexJoinRoundTrip(data, " ");
  }

  /** The hex body takes three characters per byte, less one separator. */
  lemma BinaryBodyLength(data: seq<byte>)
    requires |data| > 0
    ensures |Hex.HexJoin(data, " ")| == 3 * |data| - 1
  {
    Hex.HexJoinLength(data, " ");
  }

  // ---------------------------------------------------------------- MIXED

  /** `format!("[{:02X?}]", run)`: the Debug list of the bytes in two-digit hex, wrapped in one more pair of brackets. */
  function HexGroup(run: seq<byte>): string {
    "[[" + Hex.HexJoin(run, ", ") + "]]"
  }

  function ParseHexGroup(s: string): Option<seq<byte>> {
    if |s| >= 4 && s[..2] == "[[" && s[|s| - 2..] == "]]" then Hex.ParseHexList(s[2..|s| - 2], ", ")
    else None
  }

  /** Round trip: a hex group decodes to the run it was made from. */
  lemma ParseHexGroupRoundTrip(run: seq<byte>)
    ensures ParseHexGroup(HexGroup(run)) == Some(run)
  {
    var s := HexGroup(run);
    assert s[2..|s| - 2] == Hex.HexJoin(run, ", ");
    Hex.ParseHexJoinRoundTrip(run, ", ");
  }

  /** `output` with the pending run appended as a hex group, when there is one. */
  function FlushRun(output: string, run: seq<byte>): string {
    if |run| > 0 then output + HexGroup(run) else output
  }

  /**
   * The renderer's loop: CR and LF are skipped without ending a run,
   * printable bytes flush the pending run and are copied, other bytes join
   * the pending run; the final run is flushed at the end.
   */
  function MixedLoop(data: seq<byte>, output: string, run: seq<byte>): string
    decreases |data|
  {
    if |data| == 0 then FlushRun(output, run)
    else
      var b := data[0];
      if IsTerminator(b) then MixedLoop(data[1..], output, run)
      else if IsPrintableAscii(b) then MixedLoop(data[1..], FlushRun(output, run) + [b as char], [])
      else MixedLoop(data[1..], output, run + [b])
  }

  /** A line shown with printable bytes as text and the other bytes as hex groups. */
  function FormatMixed(data: seq<byte>, timestamp: string): string
  {
    Header(timestamp, "MIXED") + Text.TrimEnd(MixedLoop(data, "", []))
  }

  /** One displayed element of a mixed line: a printable byte, or a maximal run of non-printable ones. */
  datatype Piece = Char(b: byte) | Run(bytes: seq<byte>)

  /** The bytes a piece stands for. */
  function PieceBytes(p: Piece): seq<byte> {
    match p
    case Char(b) => [b]
    case Run(bytes) => bytes
  }

  function Flatten(ps: seq<Piece>): seq<byte> {
    if |ps| == 0 then [] else PieceBytes(ps[0]) + Flatten(ps[1..])
  }

  /** The bytes of the runs only, in order. */
  function RunBytes(ps: seq<Piece>): seq<byte> {
    if |ps| == 0 then [] else (if ps[0].Run? then ps[0].bytes else []) + RunBytes(ps[1..])
  }

  /** The line without its CR and LF bytes. */
  function Visible(data: seq<byte>): seq<byte> {
    if |data| == 0 then [] else (if IsTerminator(data[0]) then [] else [data[0]]) + Visible(data[1..])
  }

  /** The non-printable bytes of the line, in order. */
  function NonPrintable(data: seq<byte>): seq<byte> {
    if |data| == 0 then [] else (if IsPrintableAscii(data[0]) then [] else [data[0]]) + NonPrintable(data[1..])
  }

  /**
   * Characters are printable non-terminator bytes, runs are non-empty and
   * non-printable, and no two runs are adjacent (every run is maximal).
   */
  predicate WellGrouped(ps: seq<Piece>) {
    && (forall i :: 0 <= i < |ps| && ps[i].Char? ==> IsPrintableAscii(ps[i].b) && !IsTerminator(ps[i].b))
    && (forall i :: 0 <= i < |ps| && ps[i].Run? ==>
          |ps[i].bytes| > 0 && forall j :: 0 <= j < |ps[i].bytes| ==> !IsPrintableAscii(ps[i].bytes[j]))
    && (forall i :: 0 < i < |ps| ==> !(ps[i - 1].Run? && ps[i].Run?))
  }

  /** Prepends non-printable bytes to the pieces, joining the leading run if there is one. */
  function Attach(run: seq<byte>, ps: seq<Piece>): seq<Piece> {
    if |run| == 0 then ps
    else if |ps| > 0 && ps[0].Run? then [Run(run + ps[0].bytes)] + ps[1..]
    else [Run(run)] + ps
  }

  /**
   * The reference grouping of a mixed line: CR and LF dropped, printable
   * bytes as characters, maximal non-printable runs (not broken by CR or LF)
   * as runs. Its pieces spell out the visible bytes in order and their runs
   * spell out the non-printable bytes in order.
   */
  function Pieces(data: seq<byte>): (ps: seq<Piece>)
    ensures WellGrouped(ps)
    ensures Flatten(ps) == Visible(data)
    ensures RunBytes(ps) == NonPrintable(data)
  {
    if |data| == 0 then []
    else
      var rest := Pieces(data[1..]);
      var b := data[0];
      if IsTerminator(b) then
        assert Visible(data) == Visible(data[1..]) && NonPrintable(data) == NonPrintable(data[1..]);
        rest
      else if IsPrintableAscii(b) then
        ConsChar(b, rest);
        assert Visible(data) == [b] + Visible(data[1..]) && NonPrintable(data) == NonPrintable(data[1..]);
        [Char(b)] + rest
      else
        AttachOne(b, rest);
        assert Visible(data) == [b] + Visible(data[1..]) && NonPrintable(data) == [b] + NonPrintable(data[1..]);
        Attach([b], rest)
  }

  lemma ConsChar(b: byte, ps: seq<Piece>)
    requires IsPrintableAscii(b) && !IsTerminator(b) && WellGrouped(ps)
    ensures WellGrouped([Char(b)] + ps)
    ensures Flatten([Char(b)] + ps) == [b] + Flatten(ps)
    ensures RunBytes([Char(b)] + ps) == RunBytes(ps)
  {
    var q := [Char(b)] + ps;
    assert q[1..] == ps;
    assert forall i :: 0 < i < |q| ==> q[i] == ps[i - 1];
  }

  lemma AttachOne(b: byte, ps: seq<Piece>)
    requires !IsPrintableAscii(b) && WellGrouped(ps)
    ensures WellGrouped(Attach([b], ps))
    ensures Flatten(Attach([b], ps)) == [b] + Flatten(ps)
    ensures RunBytes(Attach([b], ps)) == [b] + RunBytes(ps)
  {
    var q := Attach([b], ps);
    if |ps| > 0 && ps[0].Run? {
      assert q[1..] == ps[1..];
      assert Flatten(q) == [b] + ps[0].bytes + Flatten(ps[1..]);
      assert RunBytes(q) == [b] + ps[0].bytes + RunBytes(ps[1..]);
    } else {
      assert q[1..] == ps;
    }
  }

  function RenderPiece(p: Piece): string {
    match p
    case Char(b) => [b as char]
    case Run(bytes) => HexGroup(bytes)
  }

  function Render(ps: seq<Piece>): string {
    if |ps| == 0 then "" else RenderPiece(ps[0]) + Render(ps[1..])
  }

  lemma RenderCons(p: Piece, ps: seq<Piece>)
    ensures Render([p] + ps) == RenderPiece(p) + Render(ps)
  {
    assert ([p] + ps)[1..] == ps;
  }

  lemma {:induction false} RenderAppend(a: seq<Piece>, b: seq<Piece>)
    ensures Render(a + b) == Render(a) + Render(b)
  {
    if |a| > 0 {
      assert (a + b)[1..] == a[1..] + b;
      RenderAppend(a[1..], b);
    } else {
      assert a + b == b;
    }
  }

  lemma AttachAttach(run: seq<byte>, b: byte, ps: seq<Piece>)
    requires |run| > 0
    ensures Attach(run, Attach([b], ps)) == Attach(run + [b], ps)
  {
    if |ps| > 0 && ps[0].Run? {
      assert run + ([b] + ps[0].bytes) == (run + [b]) + ps[0].bytes;
    }
  }

  lemma RenderRunThenChar(run: seq<byte>, b: byte, rest: seq<Piece>)
    requires |run| > 0
    ensures Render(Attach(run, [Char(b)] + rest)) == HexGroup(run) + ([b as char] + Render(rest))
  {
    var q := [Char(b)] + rest;
    assert Attach(run, q) == [Run(run)] + q;
    RenderCons(Run(run), q);
    RenderCons(Char(b), rest);
  }

  /** A printable byte after a pending run renders the run, then the character. */
  lemma RenderCharAfterRun(output: string, run: seq<byte>, b: byte, rest: seq<Piece>)
    ensures output + Render(Attach(run, [Char(b)] + rest)) == FlushRun(output, run) + [b as char] + Render(rest)
  {
    if |run| > 0 {
      RenderRunThenChar(run, b, rest);
      Seqs.Assoc(output, HexGroup(run), [b as char] + Render(rest));
      Seqs.Assoc(output + HexGroup(run), [b as char], Render(rest));
    } else {
      RenderCons(Char(b), rest);
      Seqs.Assoc(output, "", [b as char] + Render(rest));
      Seqs.Assoc(output + "", [b as char], Render(rest));
    }
  }

  /** Flushing a pending run renders it as the one piece it makes. */
  lemma FlushRender(output: string, run: seq<byte>)
    ensures FlushRun(output, run) == output + Render(Attach(run, []))
  {
    if |run| > 0 {
      assert Attach(run, []) == [Run(run)] + [];
      RenderCons(Run(run), []);
    } else {
      assert output + "" == output;
    }
  }

  /** The loop, started with some output and a pending run, renders the reference pieces with that run attached. */
  lemma {:induction false} MixedLoopRenders(data: seq<byte>, output: string, run: seq<byte>)
    ensures MixedLoop(data, output, run) == output + Render(Attach(run, Pieces(data)))
  {
    if |data| == 0 {
      FlushRender(output, run);
    } else {
      var b := data[0];
      var rest := Pieces(data[1..]);
      if IsTerminator(b) {
        MixedLoopRenders(data[1..], output, run);
      } else if IsPrintableAscii(b) {
        assert Pieces(data) == [Char(b)] + rest;
        MixedLoopRenders(data[1..], FlushRun(output, run) + [b as char], []);
        RenderCharAfterRun(output, run, b, rest);
      } else {
        assert Pieces(data) == Attach([b], rest);
        MixedLoopRenders(data[1..], output, run + [b]);
        if |run| > 0 {
          AttachAttach(run, b, rest);
        } else {
          assert run + [b] == [b];
        }
      }
    }
  }

  /** The mixed rendering is the trimmed rendering of the reference pieces. */
  lemma FormatMixedRendersPieces(data: seq<byte>, timestamp: string)
    ensures FormatMixed(data, timestamp) == Header(timestamp, "MIXED") + Text.TrimEnd(Render(Pieces(data)))
  {
    MixedLoopRenders(data, "", []);
    assert MixedLoop(data, "", []) == Render(Pieces(data));
  }

  /** Decoding every hex group in order reproduces exactly the non-printable bytes of the line. */
  lemma {:induction false} RunsDecodeToNonPrintable(data: seq<byte>)
    ensures Concat(DecodeRuns(Pieces(data))) == NonPrintable(data)
  {
    DecodeRunsAreRunBytes(Pieces(data));
  }

  /** The hex groups of the rendered pieces, each decoded. */
  function DecodeRuns(ps: seq<Piece>): seq<Option<seq<byte>>> {
    if |ps| == 0 then []
    else (if ps[0].Run? then [ParseHexGroup(RenderPiece(ps[0]))] else []) + DecodeRuns(ps[1..])
  }

  /** Concatenation of the decoded groups; a group that failed to decode contributes nothing. */
  function Concat(groups: seq<Option<seq<byte>>>): seq<byte> {
    if |groups| == 0 then [] else (if groups[0].Some? then groups[0].value else []) + Concat(groups[1..])
  }

  lemma {:induction false} DecodeRunsAreRunBytes(ps: seq<Piece>)
    ensures Concat(DecodeRuns(ps)) == RunBytes(ps)
  {
    if |ps| > 0 {
      DecodeRunsAreRunBytes(ps[1..]);
      var tail := DecodeRuns(ps[1..]);
      if ps[0].Run? {
        ParseHexGroupRoundTrip(ps[0].bytes);
        assert DecodeRuns(ps) == [Some(ps[0].bytes)] + tail;
        assert ([Some(ps[0].bytes)] + tail)[1..] == tail;
      } else {
        assert DecodeRuns(ps) == tail;
      }
    }
  }

  /** An empty line renders as the bare header. */
  lemma FormatMixedEmpty(timestamp: string)
    ensures FormatMixed([], timestamp) == Header(timestamp, "MIXED")
  {
  }

  // ---------------------------------------------------------------- dispatch

  /** Renders the line as the verdict says. */
  function FormatData(data: seq<byte>, verdict: DataType, timestamp: string): (r: Option<string>)
    ensures verdict != Ascii ==> r.Some?
  {
    match verdict
    case Ascii => FormatAscii(data, timestamp)
    case Binary => Some(FormatBinary(data, timestamp))
    case Mixed => Some(FormatMixed(data, timestamp))
  }

  /** Only an Ascii verdict can hide a line, and only one that is not UTF-8 or is blank after trimming. */
  lemma FormatDataNone(data: seq<byte>, verdict: DataType, timestamp: string)
    requires FormatData(data, verdict, timestamp).None?
    ensures verdict == Ascii
    ensures !Utf8.IsWellFormed(data) || |Text.TrimEnd(Utf8.Decode(data).value)| == 0
  {
    if Utf8.IsWellFormed(data) {
      Utf8.EncodeDecode(data);
      FormatAsciiWellFormed(data, Utf8.Decode(data).value, timestamp);
    }
  }
}
