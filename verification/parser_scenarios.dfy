/**
 * Consequences of the parser's rules for the situations its tests exercise:
 * long unterminated runs, CRLF inside one call and across two calls, runs of
 * CRs, and verdicts on uniform input.
 */
module ParserScenarios {
  import opened Bytes
  import opened Classifier
  import Formatter
  import opened Parser
  import opened ParserProofs

  const Cut: nat := MaxLine + 1

  lemma DivModShift(n: nat)
    requires n >= Cut
    ensures n / Cut == 1 + (n - Cut) / Cut
    ensures n % Cut == (n - Cut) % Cut
  {
  }

  /**
   * A run without terminators is cut every `MaxLine + 1` bytes: the flushed
   * lines all have that length, their number is the combined length of the
   * old buffer and the run divided by it, and the remainder stays buffered.
   */
  lemma {:induction false} PlainRun(p: DataParser, data: seq<byte>, timestamp: string)
    requires |p.lineBuffer| <= MaxLine
    requires NoTerminators(data)
    ensures var (q, out) := Feed(p, data, timestamp);
      && |out| == (|p.lineBuffer| + |data|) / Cut
      && |q.lineBuffer| == (|p.lineBuffer| + |data|) % Cut
      && (forall i :: 0 <= i < |out| ==> |out[i].line| == Cut)
    decreases |data|
  {
    if |data| > 0 {
      var (q1, o1) := Step(p, data[0], timestamp);
      var (q, o2) := Feed(q1, data[1..], timestamp);
      FeedUnfold(p, data, timestamp);
      assert q1.lineBuffer == (if |p.lineBuffer| == MaxLine then [] else p.lineBuffer + [data[0]]);
      assert |o1| == (if |p.lineBuffer| == MaxLine then 1 else 0);
      PlainRun(q1, data[1..], timestamp);
      if |p.lineBuffer| == MaxLine {
        DivModShift(|p.lineBuffer| + |data|);
        assert o1[0].line == p.lineBuffer + [data[0]];
      }
      forall i | 0 <= i < |o1 + o2|
        ensures |(o1 + o2)[i].line| == Cut
      {
        if i >= |o1| {
          assert (o1 + o2)[i] == o2[i - |o1|];
        }
      }
    }
  }

  /** 70000 bytes with no terminator: one line of 65537 bytes, 4463 bytes left buffered. */
  lemma SeventyThousand(timestamp: string)
    ensures var (q, out) := ProcessData(New(), seq(70000, _ => 65), timestamp);
      |out| == 1 && |out[0].line| == 65537 && |q.lineBuffer| == 4463
  {
    PlainRun(New(), seq(70000, _ => 65), timestamp);
  }

  /** A run of exactly `MaxLine + 1` plain bytes into an empty buffer comes out whole as one line. */
  lemma FullLineFlushed(p: DataParser, data: seq<byte>, timestamp: string)
    requires p.lineBuffer == []
    requires NoTerminators(data) && |data| == Cut
    ensures var (q, out) := Feed(p, data, timestamp);
      |out| == 1 && out[0].line == data && q.lineBuffer == []
  {
    PlainRun(p, data, timestamp);
    FeedConserves(p, data, timestamp);
    NoLfSwallowed(p.lastWasCr, data);
    var (q, out) := Feed(p, data, timestamp);
    assert Lines(out[1..]) == [] by { assert out[1..] == []; }
    assert Lines(out) == out[0].line;
    assert q.lineBuffer == [];
    assert data == Lines(out) + q.lineBuffer;
  }

  /** Exactly 65537 bytes with no terminator: one line of all of them, nothing left buffered. */
  lemma OnePastTheLimit(timestamp: string)
    ensures var (q, out) := ProcessData(New(), seq(65537, _ => 65), timestamp);
      |out| == 1 && out[0].line == seq(65537, _ => 65) && q.lineBuffer == []
  {
    FullLineFlushed(New(), seq(65537, _ => 65), timestamp);
  }

  lemma {:induction false} NoLfSwallowed(afterCr: bool, data: seq<byte>)
    requires NoTerminators(data)
    ensures Swallow(afterCr, data) == data
    decreases |data|
  {
    if |data| > 0 {
      NoLfSwallowed(false, data[1..]);
    }
  }

  /** A CR always flushes: the buffer so far plus the CR, as one line. */
  lemma CrFlushes(p: DataParser, timestamp: string)
    ensures var (q, out) := Feed(p, [CR], timestamp);
      |out| == 1 && out[0].line == p.lineBuffer + [CR] && q.lineBuffer == [] && q.lastWasCr
  {
    FeedUnfold(p, [CR], timestamp);
  }

  /** An LF right after a CR, even one that arrives in the next call, is neither buffered nor flushed. */
  lemma CrThenLfAcrossCalls(p: DataParser, first: string, second: string)
    ensures var (q, out1) := ProcessData(p, [CR], first);
      var (r, out2) := ProcessData(q, [LF], second);
      && |out1| == 1 && out1[0].line == p.lineBuffer + [CR]
      && out2 == [] && r.lineBuffer == [] && !r.lastWasCr
  {
    CrFlushes(p, first);
    var q := ProcessData(p, [CR], first).0;
    FeedUnfold(q, [LF], second);
  }

  /** `text` followed by CR LF in one call flushes exactly one line, the text with its CR. */
  lemma CrLfOneLine(p: DataParser, text: seq<byte>, timestamp: string)
    requires |p.lineBuffer| + |text| <= MaxLine
    requires NoTerminators(text)
    ensures var (q, out) := Feed(p, text + [CR, LF], timestamp);
      |out| == 1 && out[0].line == p.lineBuffer + text + [CR] && q.lineBuffer == [] && !q.lastWasCr
  {
    FeedChunks(p, text, [CR, LF], timestamp);
    var mid := Feed(p, text, timestamp).0;
    PlainRun(p, text, timestamp);
    FeedConserves(p, text, timestamp);
    NoLfSwallowed(p.lastWasCr, text);
    FeedChunks(mid, [CR], [LF], timestamp);
    assert [CR] + [LF] == [CR, LF];
    CrFlushes(mid, timestamp);
    FeedUnfold(Feed(mid, [CR], timestamp).0, [LF], timestamp);
  }

  /** Two CR LF terminated runs give two lines, each ending in its CR, and nothing pending. */
  lemma TwoCrLfLines(p: DataParser, a: seq<byte>, b: seq<byte>, timestamp: string)
    requires |p.lineBuffer| + |a| <= MaxLine && |b| <= MaxLine
    requires NoTerminators(a) && NoTerminators(b)
    ensures var (q, out) := Feed(p, (a + [CR, LF]) + (b + [CR, LF]), timestamp);
      && |out| == 2 && out[0].line == p.lineBuffer + a + [CR] && out[1].line == b + [CR]
      && q.lineBuffer == [] && !q.lastWasCr
  {
    FeedChunks(p, a + [CR, LF], b + [CR, LF], timestamp);
    CrLfOneLine(p, a, timestamp);
    var mid := Feed(p, a + [CR, LF], timestamp).0;
    CrLfOneLine(mid, b, timestamp);
    assert mid.lineBuffer + b + [CR] == b + [CR];
  }

  /** The test case `Line1\r\nLine2\r\n`: lines `Line1\r` and `Line2\r`, nothing pending. */
  lemma Line1CrLf(timestamp: string)
    ensures var (q, out) := ProcessData(New(), [76, 105, 110, 101, 49, CR, LF, 76, 105, 110, 101, 50, CR, LF], timestamp);
      && |out| == 2 && out[0].line == [76, 105, 110, 101, 49, CR] && out[1].line == [76, 105, 110, 101, 50, CR]
      && q.lineBuffer == [] && !q.lastWasCr
  {
    var line1: seq<byte> := [76, 105, 110, 101, 49];
    var line2: seq<byte> := [76, 105, 110, 101, 50];
    assert (line1 + [CR, LF]) + (line2 + [CR, LF]) == [76, 105, 110, 101, 49, CR, LF, 76, 105, 110, 101, 50, CR, LF];
    TwoCrLfLines(New(), line1, line2, timestamp);
  }

  /** While fewer than 100 bytes have been seen in all, the verdict stays where it was. */
  lemma ShortStreamKeepsVerdict(p: DataParser, data: seq<byte>, timestamp: string)
    requires Valid(p) && p.totalCount + |data| < MinSample
    ensures ProcessData(p, data, timestamp).0.detectedType == p.detectedType
  {
    ProcessDataSpec(p, data, timestamp);
  }

  lemma {:induction false} AllPrintableCount(data: seq<byte>)
    requires forall i :: 0 <= i < |data| ==> Formatter.IsPrintableAscii(data[i])
    ensures CountPrintable(data) == |data|
    decreases |data|
  {
    if |data| > 0 {
      AllPrintableCount(data[1..]);
    }
  }

  lemma {:induction false} NonePrintableCount(data: seq<byte>)
    requires forall i :: 0 <= i < |data| ==> !Formatter.IsPrintableAscii(data[i])
    ensures CountPrintable(data) == 0
    decreases |data|
  {
    if |data| > 0 {
      NonePrintableCount(data[1..]);
    }
  }

  /** A fresh parser fed at least 100 printable bytes calls the stream Ascii. */
  lemma PrintableStreamIsAscii(data: seq<byte>, timestamp: string)
    requires |data| >= MinSample
    requires forall i :: 0 <= i < |data| ==> Formatter.IsPrintableAscii(data[i])
    ensures ProcessData(New(), data, timestamp).0.detectedType == Ascii
  {
    FeedCounts(New(), data, timestamp);
    AllPrintableCount(data);
  }

  /** A fresh parser fed at least 100 non-printable bytes calls the stream Binary. */
  lemma UnprintableStreamIsBinary(data: seq<byte>, timestamp: string)
    requires |data| >= MinSample
    requires forall i :: 0 <= i < |data| ==> !Formatter.IsPrintableAscii(data[i])
    ensures ProcessData(New(), data, timestamp).0.detectedType == Binary
  {
    FeedCounts(New(), data, timestamp);
    NonePrintableCount(data);
  }

  /** The lines of a call in which the verdict flips are still rendered under the old verdict. */
  lemma VerdictLagsOneCall(data: seq<byte>, timestamp: string)
    requires |data| >= MinSample
    requires forall i :: 0 <= i < |data| ==> Formatter.IsPrintableAscii(data[i])
    ensures var (q, out) := ProcessData(New(), data, timestamp);
      q.detectedType == Ascii && forall i :: 0 <= i < |out| ==> out[i].verdict == Mixed
  {
    PrintableStreamIsAscii(data, timestamp);
    FeedVerdict(New(), data, timestamp);
    var out := ProcessData(New(), data, timestamp).1;
    assert out == Feed(New(), data, timestamp).1;
  }

  /** The bytes 0, 1, ..., n - 1. */
  function Ascending(n: nat): (s: seq<byte>)
    requires n <= 0x100
    ensures |s| == n && forall i :: 0 <= i < n ==> s[i] == i
  {
    seq(n, i requires 0 <= i < n => i as byte)
  }

  /** How many byte values below `n` are printable: 9, 10, 13 and 32..126. */
  function PrintableBelow(n: nat): nat {
    if n <= 9 then 0
    else if n == 10 then 1
    else if n <= 13 then 2
    else if n <= 32 then 3
    else if n <= 127 then 3 + (n - 32)
    else 98
  }

  lemma {:induction false} CountPrintableAppend(a: seq<byte>, b: seq<byte>)
    ensures CountPrintable(a + b) == CountPrintable(a) + CountPrintable(b)
    decreases |a|
  {
    if |a| == 0 {
      assert a + b == b;
    } else {
      assert (a + b)[1..] == a[1..] + b;
      CountPrintableAppend(a[1..], b);
    }
  }

  lemma {:induction false} CountAscending(n: nat)
    requires n <= 0x100
    ensures CountPrintable(Ascending(n)) == PrintableBelow(n)
  {
    if n > 0 {
      CountAscending(n - 1);
      assert Ascending(n) == Ascending(n - 1) + [(n - 1) as byte];
      CountPrintableAppend(Ascending(n - 1), [(n - 1) as byte]);
    }
  }

  /**
   * The bytes 0 to 199 in order are 49% printable: the verdict is Mixed,
   * not Binary.
   */
  lemma AscendingBytesAreMixed(timestamp: string)
    ensures ProcessData(New(), Ascending(200), timestamp).0.detectedType == Mixed
  {
    FeedCounts(New(), Ascending(200), timestamp);
    CountAscending(200);
  }
}
