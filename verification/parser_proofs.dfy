/**
 * Properties of the stream parser: what one call to `ProcessData` does to
 * the counters, the frequency table, the verdict and the line buffer, and
 * what the flushed lines look like.
 */
module ParserProofs {
  import opened Wrappers
  import opened Bytes
  import opened Seqs
  import opened Classifier
  import Formatter
  import opened Parser

  // ---------------------------------------------------------------- reference definitions

  /** Number of printable bytes in `s`. */
  function CountPrintable(s: seq<byte>): (n: nat)
    ensures n <= |s|
  {
    if |s| == 0 then 0 else (if Formatter.IsPrintableAscii(s[0]) then 1 else 0) + CountPrintable(s[1..])
  }

  /** Sum of the frequency table over the byte values below `n`. */
  function FreqSum(m: map<byte, nat>, n: nat): nat
    requires n <= 0x100
  {
    if n == 0 then 0 else FreqSum(m, n - 1) + Frequency(m, n - 1)
  }

  /**
   * What every reachable parser satisfies: the two class counters add up to
   * the total, the frequency table sums to the total and holds only bytes
   * seen, and the buffer holds no terminator, is within bound, and is empty
   * right after a CR.
   */
  predicate Valid(p: DataParser) {
    && p.asciiCount + p.binaryCount == p.totalCount
    && FreqSum(p.charFrequency, 0x100) == p.totalCount
    && (forall b :: b in p.charFrequency ==> p.charFrequency[b] > 0)
    && NoTerminators(p.lineBuffer)
    && |p.lineBuffer| <= MaxLine
    && (p.lastWasCr ==> p.lineBuffer == [])
  }

  /** The input with every LF that directly follows a CR removed; `afterCr` says whether the byte before the input was a CR. */
  function Swallow(afterCr: bool, data: seq<byte>): seq<byte>
    decreases |data|
  {
    if |data| == 0 then []
    else if data[0] == LF && afterCr then Swallow(false, data[1..])
    else [data[0]] + Swallow(data[0] == CR, data[1..])
  }

  /** The flushed lines, concatenated. */
  function Lines(out: seq<Emitted>): seq<byte> {
    if |out| == 0 then [] else out[0].line + Lines(out[1..])
  }

  /**
   * A flushed line is non-empty, holds a terminator only as its last byte,
   * and either ends in a terminator or was cut at `MaxLine + 1` bytes.
   */
  predicate LineShape(line: seq<byte>) {
    && |line| > 0
    && NoTerminators(line[..|line| - 1])
    && (IsTerminator(line[|line| - 1]) || |line| == MaxLine + 1)
  }

  /** Number of flushed lines whose last byte is `c`. */
  function EndingIn(out: seq<Emitted>, c: byte): nat {
    if |out| == 0 then 0
    else (if |out[0].line| > 0 && out[0].line[|out[0].line| - 1] == c then 1 else 0) + EndingIn(out[1..], c)
  }

  lemma {:induction false} LinesAppend(a: seq<Emitted>, b: seq<Emitted>)
    ensures Lines(a + b) == Lines(a) + Lines(b)
    ensures EndingIn(a + b, CR) == EndingIn(a, CR) + EndingIn(b, CR)
    ensures EndingIn(a + b, LF) == EndingIn(a, LF) + EndingIn(b, LF)
  {
    if |a| == 0 {
      assert a + b == b;
    } else {
      assert (a + b)[1..] == a[1..] + b;
      LinesAppend(a[1..], b);
    }
  }

  lemma {:induction false} FreqSumBump(m: map<byte, nat>, b: byte, n: nat)
    requires n <= 0x100
    ensures FreqSum(m[b := Frequency(m, b) + 1], n) == FreqSum(m, n) + (if b < n then 1 else 0)
  {
    if n > 0 {
      FreqSumBump(m, b, n - 1);
    }
  }

  lemma NewIsValid()
    ensures Valid(New())
    ensures New().detectedType == Mixed && New().totalCount == 0
  {
    FreqSumEmpty(0x100);
  }

  lemma {:induction false} FreqSumEmpty(n: nat)
    requires n <= 0x100
    ensures FreqSum(map[], n) == 0
  {
    if n > 0 {
      FreqSumEmpty(n - 1);
    }
  }

  /** One byte of the loop peeled off the front of a chunk. */
  lemma FeedUnfold(p: DataParser, data: seq<byte>, timestamp: string)
    requires |data| > 0
    ensures var first := Step(p, data[0], timestamp);
      var rest := Feed(first.0, data[1..], timestamp);
      Feed(p, data, timestamp) == (rest.0, first.1 + rest.1)
  {
  }

  // ---------------------------------------------------------------- one byte

  lemma StepCounts(p: DataParser, b: byte, timestamp: string)
    ensures var q := Step(p, b, timestamp).0;
      && q.totalCount == p.totalCount + 1
      && q.asciiCount == p.asciiCount + (if Formatter.IsPrintableAscii(b) then 1 else 0)
      && q.binaryCount == p.binaryCount + (if Formatter.IsPrintableAscii(b) then 0 else 1)
      && q.charFrequency == p.charFrequency[b := Frequency(p.charFrequency, b) + 1]
      && q.detectedType == p.detectedType
      && q.lastWasCr == (b == CR)
  {
  }

  lemma StepConserves(p: DataParser, b: byte, timestamp: string)
    ensures var (q, out) := Step(p, b, timestamp);
      p.lineBuffer + (if b == LF && p.lastWasCr then [] else [b]) == Lines(out) + q.lineBuffer
  {
    var (q, out) := Step(p, b, timestamp);
    if |out| == 1 {
      assert Lines(out) == out[0].line;
    }
  }

  lemma StepTerminators(p: DataParser, b: byte, timestamp: string)
    ensures var out := Step(p, b, timestamp).1;
      && EndingIn(out, CR) == (if b == CR then 1 else 0)
      && EndingIn(out, LF) == (if b == LF && !p.lastWasCr then 1 else 0)
  {
    var out := Step(p, b, timestamp).1;
    if |out| == 1 {
      assert EndingIn(out, CR) == (if out[0].line[|out[0].line| - 1] == CR then 1 else 0);
      assert EndingIn(out, LF) == (if out[0].line[|out[0].line| - 1] == LF then 1 else 0);
    }
  }

  lemma StepVerdict(p: DataParser, b: byte, timestamp: string)
    ensures var out := Step(p, b, timestamp).1;
      forall i :: 0 <= i < |out| ==>
        out[i].verdict == p.detectedType
        && out[i].formatted == Formatter.FormatData(out[i].line, p.detectedType, timestamp)
  {
  }

  lemma StepValid(p: DataParser, b: byte, timestamp: string)
    requires Valid(p)
    ensures var (q, out) := Step(p, b, timestamp);
      Valid(q) && forall i :: 0 <= i < |out| ==> LineShape(out[i].line)
  {
    var (q, out) := Step(p, b, timestamp);
    FreqSumBump(p.charFrequency, b, 0x100);
    StepCounts(p, b, timestamp);
    if |out| == 1 {
      var line := out[0].line;
      assert line == p.lineBuffer + [b];
      assert line[..|line| - 1] == p.lineBuffer;
    }
  }

  // ---------------------------------------------------------------- one call

  /** The byte loop counts every byte once and classifies each as printable or not. */
  lemma {:induction false} FeedCounts(p: DataParser, data: seq<byte>, timestamp: string)
    ensures var q := Feed(p, data, timestamp).0;
      && q.totalCount == p.totalCount + |data|
      && q.asciiCount == p.asciiCount + CountPrintable(data)
      && q.binaryCount == p.binaryCount + (|data| - CountPrintable(data))
      && q.detectedType == p.detectedType
    decreases |data|
  {
    if |data| > 0 {
      StepCounts(p, data[0], timestamp);
      FeedCounts(Step(p, data[0], timestamp).0, data[1..], timestamp);
    }
  }

  /** Each byte's frequency grows by its number of occurrences in the chunk. */
  lemma {:induction false} FeedFrequency(p: DataParser, data: seq<byte>, timestamp: string, x: byte)
    ensures Frequency(Feed(p, data, timestamp).0.charFrequency, x) == Frequency(p.charFrequency, x) + Occurrences(data, x)
    decreases |data|
  {
    if |data| > 0 {
      StepCounts(p, data[0], timestamp);
      FeedFrequency(Step(p, data[0], timestamp).0, data[1..], timestamp, x);
    }
  }

  /** After a chunk, `lastWasCr` holds exactly when the chunk's last byte was a CR (an empty chunk keeps it). */
  lemma {:induction false} FeedLastWasCr(p: DataParser, data: seq<byte>, timestamp: string)
    ensures Feed(p, data, timestamp).0.lastWasCr == if |data| == 0 then p.lastWasCr else data[|data| - 1] == CR
    decreases |data|
  {
    if |data| > 0 {
      StepCounts(p, data[0], timestamp);
      FeedLastWasCr(Step(p, data[0], timestamp).0, data[1..], timestamp);
      if |data| > 1 {
        assert data[1..][|data[1..]| - 1] == data[|data| - 1];
      }
    }
  }

  /**
   * Conservation: the old buffer followed by the chunk, less the LFs that
   * directly follow a CR, is exactly the flushed lines followed by the new
   * buffer; nothing is dropped or repeated.
   */
  lemma {:induction false} FeedConserves(p: DataParser, data: seq<byte>, timestamp: string)
    ensures p.lineBuffer + Swallow(p.lastWasCr, data) == Lines(Feed(p, data, timestamp).1) + Feed(p, data, timestamp).0.lineBuffer
    decreases |data|
  {
    if |data| > 0 {
      var b := data[0];
      var first := Step(p, b, timestamp);
      var rest := Feed(first.0, data[1..], timestamp);
      FeedUnfold(p, data, timestamp);
      StepConserves(p, b, timestamp);
      StepCounts(p, b, timestamp);
      FeedConserves(first.0, data[1..], timestamp);
      LinesAppend(first.1, rest.1);
      var s1: seq<byte> := if b == LF && p.lastWasCr then [] else [b];
      var x := Swallow(b == CR, data[1..]);
      assert Swallow(p.lastWasCr, data) == s1 + x;
      Assoc(p.lineBuffer, s1, x);
      Assoc(Lines(first.1), first.0.lineBuffer, x);
      Assoc(Lines(first.1), Lines(rest.1), rest.0.lineBuffer);
    }
  }

  /** A CR ends exactly one line, and so does every LF that does not directly follow a CR. */
  lemma {:induction false} FeedTerminators(p: DataParser, data: seq<byte>, timestamp: string)
    ensures var out := Feed(p, data, timestamp).1;
      && EndingIn(out, CR) == Occurrences(data, CR)
      && EndingIn(out, LF) == Occurrences(Swallow(p.lastWasCr, data), LF)
    decreases |data|
  {
    if |data| > 0 {
      var b := data[0];
      var (q1, o1) := Step(p, b, timestamp);
      var (q, o2) := Feed(q1, data[1..], timestamp);
      FeedUnfold(p, data, timestamp);
      StepTerminators(p, b, timestamp);
      StepCounts(p, b, timestamp);
      FeedTerminators(q1, data[1..], timestamp);
      LinesAppend(o1, o2);
      var s1: seq<byte> := if b == LF && p.lastWasCr then [] else [b];
      assert Swallow(p.lastWasCr, data) == s1 + Swallow(b == CR, data[1..]);
      OccurrencesAppend(s1, Swallow(b == CR, data[1..]), LF);
    }
  }

  /** Every line flushed inside one call is rendered under the verdict held when the call began. */
  lemma {:induction false} FeedVerdict(p: DataParser, data: seq<byte>, timestamp: string)
    ensures var out := Feed(p, data, timestamp).1;
      forall i :: 0 <= i < |out| ==>
        out[i].verdict == p.detectedType
        && out[i].formatted == Formatter.FormatData(out[i].line, p.detectedType, timestamp)
    decreases |data|
  {
    if |data| > 0 {
      var (q1, o1) := Step(p, data[0], timestamp);
      var o2 := Feed(q1, data[1..], timestamp).1;
      FeedUnfold(p, data, timestamp);
      StepVerdict(p, data[0], timestamp);
      StepCounts(p, data[0], timestamp);
      FeedVerdict(q1, data[1..], timestamp);
      forall i | 0 <= i < |o1 + o2|
        ensures (o1 + o2)[i].verdict == p.detectedType
        ensures (o1 + o2)[i].formatted == Formatter.FormatData((o1 + o2)[i].line, p.detectedType, timestamp)
      {
        if i >= |o1| {
          assert (o1 + o2)[i] == o2[i - |o1|];
        }
      }
    }
  }

  /** The parser invariant survives any chunk, and every flushed line is well shaped. */
  lemma {:induction false} FeedValid(p: DataParser, data: seq<byte>, timestamp: string)
    requires Valid(p)
    ensures var (q, out) := Feed(p, data, timestamp);
      Valid(q) && forall i :: 0 <= i < |out| ==> LineShape(out[i].line)
    decreases |data|
  {
    if |data| > 0 {
      var (q1, o1) := Step(p, data[0], timestamp);
      var (q, o2) := Feed(q1, data[1..], timestamp);
      FeedUnfold(p, data, timestamp);
      StepValid(p, data[0], timestamp);
      FeedValid(q1, data[1..], timestamp);
      forall i | 0 <= i < |o1 + o2|
        ensures LineShape((o1 + o2)[i].line)
      {
        if i >= |o1| {
          assert (o1 + o2)[i] == o2[i - |o1|];
        }
      }
    }
  }

  /** The byte loop over any per-byte step function. */
  function Run(step: (DataParser, byte) -> (DataParser, seq<Emitted>), p: DataParser, data: seq<byte>): (DataParser, seq<Emitted>)
    decreases |data|
  {
    if |data| == 0 then (p, [])
    else
      var first := step(p, data[0]);
      var rest := Run(step, first.0, data[1..]);
      (rest.0, first.1 + rest.1)
  }

  lemma {:induction false} FeedIsRun(p: DataParser, data: seq<byte>, timestamp: string)
    ensures Feed(p, data, timestamp) == Run((q: DataParser, b: byte) => Step(q, b, timestamp), p, data)
    decreases |data|
  {
    if |data| > 0 {
      FeedIsRun(Step(p, data[0], timestamp).0, data[1..], timestamp);
    }
  }

  lemma {:induction false} RunChunks(step: (DataParser, byte) -> (DataParser, seq<Emitted>), p: DataParser, a: seq<byte>, b: seq<byte>)
    ensures Run(step, p, a + b).0 == Run(step, Run(step, p, a).0, b).0
    ensures Run(step, p, a + b).1 == Run(step, p, a).1 + Run(step, Run(step, p, a).0, b).1
    decreases |a|
  {
    if |a| == 0 {
      assert a + b == b;
    } else {
      var s := step(p, a[0]);
      assert (a + b)[0] == a[0] && (a + b)[1..] == a[1..] + b;
      RunChunks(step, s.0, a[1..], b);
      var first := Run(step, s.0, a[1..]);
      var second := Run(step, first.0, b);
      assert s.1 + (first.1 + second.1) == (s.1 + first.1) + second.1;
    }
  }

  /** Splitting a chunk in two and feeding the halves in turn flushes the same lines and reaches the same state. */
  lemma FeedChunks(p: DataParser, a: seq<byte>, b: seq<byte>, timestamp: string)
    ensures Feed(p, a + b, timestamp).0 == Feed(Feed(p, a, timestamp).0, b, timestamp).0
    ensures Feed(p, a + b, timestamp).1 == Feed(p, a, timestamp).1 + Feed(Feed(p, a, timestamp).0, b, timestamp).1
  {
    FeedIsRun(p, a + b, timestamp);
    FeedIsRun(p, a, timestamp);
    FeedIsRun(Feed(p, a, timestamp).0, b, timestamp);
    RunChunks((q: DataParser, x: byte) => Step(q, x, timestamp), p, a, b);
  }

  // ---------------------------------------------------------------- process_data

  /**
   * One call: counters advance by the chunk, the verdict is recomputed once
   * from the new totals (kept while fewer than 100 bytes have been seen), and
   * every line flushed during the call carries the verdict from before it.
   */
  lemma ProcessDataSpec(p: DataParser, data: seq<byte>, timestamp: string)
    requires Valid(p)
    ensures var (q, out) := ProcessData(p, data, timestamp);
      && Valid(q)
      && q.totalCount == p.totalCount + |data|
      && q.asciiCount == p.asciiCount + CountPrintable(data)
      && (q.totalCount < MinSample ==> q.detectedType == p.detectedType)
      && (q.totalCount >= MinSample ==> q.detectedType == Classify(q.asciiCount, q.totalCount))
      && (forall x: byte :: Frequency(q.charFrequency, x) == Frequency(p.charFrequency, x) + Occurrences(data, x))
      && p.lineBuffer + Swallow(p.lastWasCr, data) == Lines(out) + q.lineBuffer
      && (forall i :: 0 <= i < |out| ==> LineShape(out[i].line) && out[i].verdict == p.detectedType)
      && q.lastWasCr == (if |data| == 0 then p.lastWasCr else data[|data| - 1] == CR)
  {
    FeedCounts(p, data, timestamp);
    FeedValid(p, data, timestamp);
    FeedConserves(p, data, timestamp);
    FeedVerdict(p, data, timestamp);
    FeedLastWasCr(p, data, timestamp);
    forall x: byte
      ensures Frequency(ProcessData(p, data, timestamp).0.charFrequency, x) == Frequency(p.charFrequency, x) + Occurrences(data, x)
    {
      FeedFrequency(p, data, timestamp, x);
    }
  }
}
