/**
 * The stream parser (`DataParser` in src/data/parser.rs): per-byte
 * statistics, a byte-frequency table, and line reassembly over CR, LF and
 * CRLF with a bounded line buffer. The parser is an immutable record; a call
 * returns the next record together with the lines it flushed, in place of
 * printing them.
 */
module Parser {
  import opened Wrappers
  import opened Bytes
  import opened Classifier
  import Formatter

  /** A non-terminator byte that takes the buffer past this length forces a flush. */
  const MaxLine: nat := 65536

  datatype DataParser = DataParser(
    asciiCount: nat,
    binaryCount: nat,
    totalCount: nat,
    lineBuffer: seq<byte>,
    detectedType: DataType,
    charFrequency: map<byte, nat>,
    lastWasCr: bool)

  /** One flushed line, the verdict it was rendered under, and the rendering (absent when the formatter declines). */
  datatype Emitted = Emitted(line: seq<byte>, verdict: DataType, formatted: Option<string>)

  function New(): DataParser {
    DataParser(0, 0, 0, [], Mixed, map[], false)
  }

  /** How many times `b` has been counted; absent keys count zero. */
  function Frequency(m: map<byte, nat>, b: byte): nat {
    if b in m then m[b] else 0
  }

  /** Counts one more byte: total, printable or non-printable, and its frequency entry. */
  function Tally(p: DataParser, b: byte): DataParser {
    var printable := Formatter.IsPrintableAscii(b);
    p.(totalCount := p.totalCount + 1,
       charFrequency := p.charFrequency[b := Frequency(p.charFrequency, b) + 1],
       asciiCount := if printable then p.asciiCount + 1 else p.asciiCount,
       binaryCount := if printable then p.binaryCount else p.binaryCount + 1)
  }

  /**
   * Emits the buffered line, if any, rendered under the current verdict, and
   * empties the buffer whether or not the formatter produced text.
   */
  function FlushLine(p: DataParser, timestamp: string): (r: (DataParser, seq<Emitted>))
    ensures r.0 == p.(lineBuffer := [])
    ensures |p.lineBuffer| == 0 ==> r.1 == []
    ensures |p.lineBuffer| > 0 ==> |r.1| == 1 && r.1[0].line == p.lineBuffer && r.1[0].verdict == p.detectedType
  {
    if |p.lineBuffer| == 0 then (p, [])
    else
      var line := p.lineBuffer;
      (p.(lineBuffer := []), [Emitted(line, p.detectedType, Formatter.FormatData(line, p.detectedType, timestamp))])
  }

  /**
   * One iteration of the byte loop: a CR is buffered and flushes at once; an
   * LF right after a CR is dropped; any other LF is buffered and flushes; any
   * other byte is buffered and flushes when the buffer passes `MaxLine`.
   */
  function Step(p: DataParser, b: byte, timestamp: string): (DataParser, seq<Emitted>)
  {
    var q := Tally(p, b);
    if b == CR then
      FlushLine(q.(lineBuffer := q.lineBuffer + [b], lastWasCr := true), timestamp)
    else if b == LF then
      if !q.lastWasCr then
        var flushed := FlushLine(q.(lineBuffer := q.lineBuffer + [b]), timestamp);
        (flushed.0.(lastWasCr := false), flushed.1)
      else (q.(lastWasCr := false), [])
    else
      var r := q.(lastWasCr := false, lineBuffer := q.lineBuffer + [b]);
      if |r.lineBuffer| > MaxLine then FlushLine(r, timestamp) else (r, [])
  }

  /** The byte loop over a whole chunk; the verdict does not change inside it. */
  function Feed(p: DataParser, data: seq<byte>, timestamp: string): (DataParser, seq<Emitted>)
    decreases |data|
  {
    if |data| == 0 then (p, [])
    else
      var first := Step(p, data[0], timestamp);
      var rest := Feed(first.0, data[1..], timestamp);
      (rest.0, first.1 + rest.1)
  }

  /** `process_data`: the byte loop, then one recomputation of the verdict. */
  function ProcessData(p: DataParser, data: seq<byte>, timestamp: string): (DataParser, seq<Emitted>)
  {
    var fed := Feed(p, data, timestamp);
    var q := fed.0;
    (q.(detectedType := Detect(q.detectedType, q.asciiCount, q.totalCount)), fed.1)
  }
}
