/**
 * The running verdict on what kind of stream is being received
 * (`DataType` and `DataParser::detect_data_type` in src/data/parser.rs).
 */
module Classifier {

  datatype DataType = Ascii | Binary | Mixed

  /** Fewer bytes than this leave the verdict where it was. */
  const MinSample: nat := 100

  /**
   * The verdict for `printable` printable bytes out of `total`: Ascii when the
   * printable share exceeds 0.95, Binary when it is below 0.3, Mixed otherwise
   * (both boundaries included). The source compares `f64` quotients; here the
   * comparison is cross-multiplied over the integers.
   */
  function Classify(printable: nat, total: nat): DataType
  {
    if 100 * printable > 95 * total then Ascii
    else if 10 * printable < 3 * total then Binary
    else Mixed
  }

  /** The verdict after a call: recomputed from the totals once there are enough bytes, otherwise kept. */
  function Detect(previous: DataType, printable: nat, total: nat): (v: DataType)
    ensures total < MinSample ==> v == previous
    ensures total >= MinSample ==> (v == Ascii <==> 100 * printable > 95 * total)
    ensures total >= MinSample ==> (v == Binary <==> 10 * printable < 3 * total)
  {
    if total < MinSample then previous else Classify(printable, total)
  }

  /** The integer test agrees with comparing the exact ratio against 0.95 and 0.3. */
  lemma ClassifyMatchesRatio(printable: nat, total: nat)
    requires total > 0
    ensures var ratio := printable as real / total as real;
      Classify(printable, total) ==
        (if ratio > 0.95 then Ascii else if ratio < 0.3 then Binary else Mixed)
  {
    var ratio := printable as real / total as real;
    assert ratio * total as real == printable as real;
    RatioCompare(printable as real, total as real, 0.95);
    RatioCompare(printable as real, total as real, 0.3);
  }

  lemma RatioCompare(p: real, t: real, k: real)
    requires t > 0.0
    ensures p / t > k <==> p > k * t
    ensures p / t < k <==> p < k * t
  {
    var q := p / t;
    assert q * t == p;
    if q > k {
      assert q * t > k * t;
    }
    if q < k {
      assert q * t < k * t;
    }
    if p > k * t {
      assert q > k;
    }
    if p < k * t {
      assert q < k;
    }
  }

  /** Exactly 95% printable is not enough for Ascii, and exactly 30% is not little enough for Binary. */
  lemma BoundariesAreMixed()
    ensures Classify(95, 100) == Mixed
    ensures Classify(30, 100) == Mixed
    ensures Classify(96, 100) == Ascii
    ensures Classify(29, 100) == Binary
  {
  }

  /** A sample with no printable byte is Binary and one with only printable bytes is Ascii. */
  lemma Extremes(total: nat)
    requires total >= MinSample
    ensures Detect(Mixed, total, total) == Ascii
    ensures Detect(Mixed, 0, total) == Binary
  {
  }
}
