// The arg-max of `find_freq` in fft.c: a scan over the bins 1 .. N/2 - 1 that keeps
// the largest magnitude seen so far, moving to a later bin on a tie (`>=`).
module Peak {
  import opened Samples

  /**
   * The scan of find_freq from bin `i` on, with `best` the largest magnitude seen so
   * far and `bestIndex` its bin: the bin the scan ends with.
   */
  function Scan(s: seq<Complex>, mag: Complex -> real, h: nat, i: nat, best: real, bestIndex: nat): nat
    requires h <= |s|
    decreases h - i
  {
    if i >= h then bestIndex
    else if mag(s[i]) >= best then Scan(s, mag, h, i + 1, mag(s[i]), i)
    else Scan(s, mag, h, i + 1, best, bestIndex)
  }

  /** The bin find_freq picks among bins 1 .. h - 1, starting from max = 0, max_index = 0. */
  function PeakBin(s: seq<Complex>, mag: Complex -> real, h: nat): (r: nat)
    requires h <= |s|
    ensures r == 0 || 1 <= r < h
  {
    ScanInRange(s, mag, h, 1, 0.0, 0);
    Scan(s, mag, h, 1, 0.0, 0)
  }

  /** One step of the scan at bin `i`: a magnitude at least the best so far moves the scan to bin `i`. */
  lemma ScanStep(s: seq<Complex>, mag: Complex -> real, h: nat, i: nat, best: real, bestIndex: nat, m: real)
    requires i < h <= |s| && m == mag(s[i])
    ensures Scan(s, mag, h, i, best, bestIndex)
         == if m >= best then Scan(s, mag, h, i + 1, m, i) else Scan(s, mag, h, i + 1, best, bestIndex)
  {
  }

  /** A scan past the last bin ends with the bin it holds. */
  lemma ScanDone(s: seq<Complex>, mag: Complex -> real, h: nat, i: nat, best: real, bestIndex: nat)
    requires h <= i && h <= |s|
    ensures Scan(s, mag, h, i, best, bestIndex) == bestIndex
  {
  }

  /** The frequency find_freq reports for bin `bin` of an `n`-point transform sampled at `sampleFrequency`. */
  function BinFrequency(sampleFrequency: real, bin: nat, n: nat): real
    requires n > 0
  {
    sampleFrequency * bin as real / n as real
  }

  /** The scan ends on the bin it started with or on a bin it visited. */
  lemma {:induction false} ScanInRange(s: seq<Complex>, mag: Complex -> real, h: nat, i: nat, best: real, bestIndex: nat)
    requires h <= |s|
    ensures var r := Scan(s, mag, h, i, best, bestIndex); r == bestIndex || i <= r < h
    decreases h - i
  {
    if i < h {
      if mag(s[i]) >= best {
        ScanInRange(s, mag, h, i + 1, mag(s[i]), i);
      } else {
        ScanInRange(s, mag, h, i + 1, best, bestIndex);
      }
    }
  }

  /**
   * `r` is the last bin among 1 .. h - 1 whose magnitude is the largest there:
   * no bin has more, and every later bin has strictly less.
   */
  ghost predicate IsLastPeak(s: seq<Complex>, mag: Complex -> real, h: nat, r: nat)
    requires h <= |s|
  {
    && 1 <= r < h
    && (forall j :: 1 <= j < h ==> mag(s[j]) <= mag(s[r]))
    && (forall j :: r < j < h ==> mag(s[j]) < mag(s[r]))
  }

  /** What the scan keeps at bin `i`: `bestIndex` is the last peak of bins 1 .. i - 1. */
  ghost predicate ScanState(s: seq<Complex>, mag: Complex -> real, i: nat, best: real, bestIndex: nat)
    requires i <= |s|
  {
    && 1 <= bestIndex < i
    && best == mag(s[bestIndex])
    && (forall j :: 1 <= j < i ==> mag(s[j]) <= best)
    && (forall j :: bestIndex < j < i ==> mag(s[j]) < best)
  }

  /** From a state that holds the last peak of bins 1 .. i - 1, the scan ends on the last peak of 1 .. h - 1. */
  lemma {:induction false} ScanFindsLastPeak(s: seq<Complex>, mag: Complex -> real, h: nat, i: nat, best: real, bestIndex: nat)
    requires i <= h <= |s| && ScanState(s, mag, i, best, bestIndex)
    ensures IsLastPeak(s, mag, h, Scan(s, mag, h, i, best, bestIndex))
    decreases h - i
  {
    if i < h {
      if mag(s[i]) >= best {
        assert ScanState(s, mag, i + 1, mag(s[i]), i);
        ScanFindsLastPeak(s, mag, h, i + 1, mag(s[i]), i);
      } else {
        assert ScanState(s, mag, i + 1, best, bestIndex);
        ScanFindsLastPeak(s, mag, h, i + 1, best, bestIndex);
      }
    }
  }

  /** With non-negative magnitudes and at least one bin to visit, find_freq picks the last peak. */
  lemma PeakBinIsLastPeak(s: seq<Complex>, mag: Complex -> real, h: nat)
    requires 2 <= h <= |s|
    requires forall j :: 1 <= j < h ==> mag(s[j]) >= 0.0
    ensures IsLastPeak(s, mag, h, PeakBin(s, mag, h))
  {
    assert Scan(s, mag, h, 1, 0.0, 0) == Scan(s, mag, h, 2, mag(s[1]), 1);
    assert ScanState(s, mag, 2, mag(s[1]), 1);
    ScanFindsLastPeak(s, mag, h, 2, mag(s[1]), 1);
  }

  /** There is only one last peak. */
  lemma LastPeakUnique(s: seq<Complex>, mag: Complex -> real, h: nat, r1: nat, r2: nat)
    requires h <= |s| && IsLastPeak(s, mag, h, r1) && IsLastPeak(s, mag, h, r2)
    ensures r1 == r2
  {
    // both are largest, so neither can have strictly less than the other
    assert mag(s[r1]) == mag(s[r2]);
  }

  /** find_freq's bin is exactly the last peak: it is one, and any last peak is it. */
  lemma PeakBinCharacterized(s: seq<Complex>, mag: Complex -> real, h: nat, r: nat)
    requires 2 <= h <= |s|
    requires forall j :: 1 <= j < h ==> mag(s[j]) >= 0.0
    ensures PeakBin(s, mag, h) == r <==> IsLastPeak(s, mag, h, r)
  {
    PeakBinIsLastPeak(s, mag, h);
    if IsLastPeak(s, mag, h, r) {
      LastPeakUnique(s, mag, h, r, PeakBin(s, mag, h));
    }
  }
}
