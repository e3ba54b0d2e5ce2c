// The specification of one decimation stage and of the three phases of fft.c: a
// stage tiles the buffer into blocks of N >> bit_pos samples and applies one
// butterfly to each block; a phase is a run of stages bit_pos = 0, 1, ...
module Stages {
  import opened Arith
  import opened Samples
  import opened BitReversal
  import opened ButterflySpec

  /** Which butterfly a phase applies: `butterfly_straight`, or `butterfly_twiddle` with cexp. */
  datatype Combine = Straight | Twiddled(twiddle: real -> Complex)

  /**
   * The `twiddle_N` of block `m` in stage `bitPos` of decimate_twiddle:
   * reverse_bits(m, bit_pos) / (2 << bit_pos). It always lies in [0, 1/2).
   */
  function TwiddleFraction(m: nat, bitPos: nat): (f: real)
    ensures 0.0 <= f < 0.5
  {
    ReversedBound(m, bitPos);
    FractionBelowHalf(Reversed(m, bitPos), bitPos);
    Reversed(m, bitPos) as real / Shl(2, bitPos) as real
  }

  /** A number below 2^k, divided by 2 << k, lies in [0, 1/2). */
  lemma FractionBelowHalf(a: nat, k: nat)
    requires a < Pow2(k)
    ensures Shl(2, k) > 0 && 0.0 <= a as real / Shl(2, k) as real < 0.5
  {
    assert Shl(2, k) as real == 2.0 * Pow2(k) as real;
    HalfFraction(a as real, Pow2(k) as real);
  }

  lemma HalfFraction(x: real, p: real)
    requires 0.0 <= x < p
    ensures 0.0 <= x / (2.0 * p) < 0.5
  {
  }

  /** What stage `bitPos` makes of its block number `m`. */
  function BlockOp(c: Combine, t: seq<Complex>, bitPos: nat, m: nat): seq<Complex>
  {
    match c
    case Straight => Deinterleave(t)
    case Twiddled(twiddle) => TwiddleBlock(t, twiddle(TwiddleFraction(m, bitPos)))
  }

  /** The butterfly a stage applies to each block, given the block and its number. */
  type BlockMap = (seq<Complex>, nat) -> seq<Complex>

  /** Stage `bitPos` of a phase of kind `c`, as a map of blocks. */
  function StageOp(c: Combine, bitPos: nat): BlockMap
  {
    (t: seq<Complex>, m: nat) => BlockOp(c, t, bitPos, m)
  }

  /**
   * `op` is stage `bitPos` of kind `c`, as a map of blocks. The equation is only
   * used where a proof names BlockOp, so that the butterflies stay folded elsewhere.
   */
  ghost predicate IsStageOp(op: BlockMap, c: Combine, bitPos: nat)
  {
    forall t: seq<Complex>, m: nat {:trigger BlockOp(c, t, bitPos, m)} :: op(t, m) == BlockOp(c, t, bitPos, m)
  }

  /** `op` turns every block of `size` samples into `size` samples. */
  ghost predicate KeepsSize(op: BlockMap, size: nat)
  {
    forall t: seq<Complex>, m: nat :: |t| == size ==> |op(t, m)| == size
  }

  /** `op` only reorders the samples of every block of `size` samples. */
  ghost predicate MovesOnly(op: BlockMap, size: nat)
  {
    forall t: seq<Complex>, m: nat :: |t| == size ==> multiset(op(t, m)) == multiset(t)
  }

  lemma BlockLengthsAgree(c: Combine, t: seq<Complex>, bitPos: nat, m: nat, half: nat)
    requires |t| == 2 * half
    ensures |BlockOp(c, t, bitPos, m)| == 2 * half
  {
    match c
    case Straight => ButterflyLengths(t, Zero, half);
    case Twiddled(twiddle) => ButterflyLengths(t, twiddle(TwiddleFraction(m, bitPos)), half);
  }

  /** Both butterflies keep a block of even size the same size. */
  lemma StageOpKeepsSize(c: Combine, bitPos: nat, half: nat)
    ensures KeepsSize(StageOp(c, bitPos), 2 * half)
  {
    forall t: seq<Complex>, m: nat | |t| == 2 * half
      ensures |StageOp(c, bitPos)(t, m)| == 2 * half
    {
      BlockLengthsAgree(c, t, bitPos, m, half);
    }
  }

  /** The straight butterfly only reorders a block of even size. */
  lemma StraightOpMovesOnly(op: BlockMap, bitPos: nat, half: nat)
    requires IsStageOp(op, Straight, bitPos)
    ensures MovesOnly(op, 2 * half)
  {
    forall t: seq<Complex>, m: nat | |t| == 2 * half
      ensures multiset(op(t, m)) == multiset(t)
    {
      assert op(t, m) == BlockOp(Straight, t, bitPos, m);
      DeinterleavePermutes(t);
    }
  }

  /**
   * The first `count` blocks of one stage, each of `size` samples: block `m` of the
   * result is op of cells Blocks(m, size) .. Blocks(m + 1, size) of `s`.
   */
  function Stage(op: BlockMap, s: seq<Complex>, size: nat, count: nat): (r: seq<Complex>)
    requires KeepsSize(op, size) && Blocks(count, size) <= |s|
    ensures |r| == Blocks(count, size)
    decreases count
  {
    if count == 0 then []
    else
      var lo := Blocks(count - 1, size);
      Stage(op, s, size, count - 1) + op(s[lo .. lo + size], count - 1)
  }

  /** A slice that ends inside the left operand of a concatenation is a slice of it. */
  lemma SliceOfAppendLeft(x: seq<Complex>, a: seq<Complex>, b: seq<Complex>, i: nat, j: nat)
    requires x == a + b && i <= j <= |a|
    ensures x[i .. j] == a[i .. j]
  {
  }

  /** The right operand of a concatenation is the slice from its left operand's end. */
  lemma SliceOfAppendRight(x: seq<Complex>, a: seq<Complex>, b: seq<Complex>, k: nat, e: nat)
    requires x == a + b && |a| == k && k + |b| == e
    ensures x[k .. e] == b
  {
  }

  /** A longer prefix is a shorter one followed by the cells between. */
  lemma PrefixSplit(s: seq<Complex>, k: nat, e: nat)
    requires k <= e <= |s|
    ensures s[.. e] == s[.. k] + s[k .. e]
  {
  }

  /** Reordering both parts of a concatenation reorders the whole. */
  lemma ReorderAppend(x: seq<Complex>, y: seq<Complex>, z: seq<Complex>, a: seq<Complex>, b: seq<Complex>, whole: seq<Complex>)
    requires x == y + z && whole == a + b && multiset(y) == multiset(a) && multiset(z) == multiset(b)
    ensures multiset(x) == multiset(whole)
  {
  }

  /** A non-empty stage is the stage of its first count - 1 blocks, then op of the last block. */
  lemma StageUnfold(op: BlockMap, s: seq<Complex>, size: nat, count: nat)
    requires KeepsSize(op, size) && 0 < count && Blocks(count, size) <= |s|
    ensures Stage(op, s, size, count)
         == Stage(op, s, size, count - 1) + op(s[Blocks(count - 1, size) .. Blocks(count - 1, size) + size], count - 1)
  {
  }

  /**
   * Extending a stage by one block appends op of that block; `lo` is the offset
   * Blocks(m, size) at which the new block starts.
   */
  lemma StageExtend(op: BlockMap, s: seq<Complex>, size: nat, m: nat, lo: nat)
    requires KeepsSize(op, size) && lo == Blocks(m, size) && lo + size <= |s|
    ensures lo + size == Blocks(m + 1, size)
    ensures Stage(op, s, size, m + 1) == Stage(op, s, size, m) + op(s[lo .. lo + size], m)
  {
    BlocksStep(m, size);
    StageUnfold(op, s, size, m + 1);
  }

  /** The last block of a stage of `count` = prev + 1 blocks, at k .. e, is op of that block of the input. */
  lemma StageLastBlock(op: BlockMap, s: seq<Complex>, size: nat, prev: nat, count: nat, k: nat, e: nat)
    requires KeepsSize(op, size) && count == prev + 1 && k == Blocks(prev, size) && e == k + size <= |s|
    ensures e == Blocks(count, size)
    ensures Stage(op, s, size, count)[k .. e] == op(s[k .. e], prev)
  {
    StageExtend(op, s, size, prev, k);
    SliceOfAppendRight(Stage(op, s, size, count), Stage(op, s, size, prev), op(s[k .. e], prev), k, e);
  }

  /** Appending a block, at k, leaves the earlier blocks of a stage as they were. */
  lemma StageKeepsBlock(op: BlockMap, s: seq<Complex>, size: nat, prev: nat, count: nat, k: nat, m: nat, lo: nat)
    requires KeepsSize(op, size) && count == prev + 1 && k == Blocks(prev, size) && k + size <= |s|
    requires lo + size <= k && Stage(op, s, size, prev)[lo .. lo + size] == op(s[lo .. lo + size], m)
    ensures Stage(op, s, size, count)[lo .. lo + size] == op(s[lo .. lo + size], m)
  {
    StageExtend(op, s, size, prev, k);
    SliceOfAppendLeft(Stage(op, s, size, count), Stage(op, s, size, prev), op(s[k .. k + size], prev), lo, lo + size);
  }

  /**
   * The blocks 0, size, 2 * size, ... of a stage tile it exactly: cells
   * lo .. lo + size of the result, where lo = Blocks(m, size), are op of cells
   * lo .. lo + size of the input.
   */
  lemma {:induction false} StageBlock(op: BlockMap, s: seq<Complex>, size: nat, count: nat, m: nat, lo: nat)
    requires KeepsSize(op, size) && Blocks(count, size) <= |s| && m < count && lo == Blocks(m, size)
    ensures lo + size <= Blocks(count, size)
    ensures Stage(op, s, size, count)[lo .. lo + size] == op(s[lo .. lo + size], m)
    decreases count
  {
    BlocksLast(count, size);
    if m == count - 1 {
      StageLastBlock(op, s, size, count - 1, count, Blocks(count - 1, size), Blocks(count, size));
    } else {
      BlocksMonotonic(m + 1, count - 1, size);
      BlocksStep(m, size);
      StageBlock(op, s, size, count - 1, m, lo);
      StageKeepsBlock(op, s, size, count - 1, count, Blocks(count - 1, size), m, lo);
    }
  }

  /**
   * If the first `m` blocks of a stage reorder their cells, so do the first
   * `next` = m + 1; `lo` and `hi` are where block `m` starts and ends.
   */
  lemma StageMovesStep(op: BlockMap, s: seq<Complex>, size: nat, m: nat, next: nat, lo: nat, hi: nat)
    requires KeepsSize(op, size) && MovesOnly(op, size)
    requires next == m + 1 && lo == Blocks(m, size) && hi == lo + size <= |s|
    requires multiset(Stage(op, s, size, m)) == multiset(s[.. lo])
    ensures hi == Blocks(next, size)
    ensures multiset(Stage(op, s, size, next)) == multiset(s[.. hi])
  {
    StageExtend(op, s, size, m, lo);
    PrefixSplit(s, lo, hi);
    ReorderAppend(Stage(op, s, size, m + 1), Stage(op, s, size, m), op(s[lo .. hi], m), s[.. lo], s[lo .. hi], s[.. hi]);
  }

  /** A stage whose butterfly only reorders blocks only reorders the cells it covers. */
  lemma {:induction false} StageMovesOnly(op: BlockMap, s: seq<Complex>, size: nat, count: nat)
    requires KeepsSize(op, size) && MovesOnly(op, size) && Blocks(count, size) <= |s|
    ensures multiset(Stage(op, s, size, count)) == multiset(s[.. Blocks(count, size)])
    decreases count
  {
    if count > 0 {
      BlocksLast(count, size);
      StageMovesOnly(op, s, size, count - 1);
      StageMovesStep(op, s, size, count - 1, count, Blocks(count - 1, size), Blocks(count, size));
    }
  }

  /** The layout of stage `bitPos` of an N = 2^w buffer: 2^bitPos blocks of 2^(w - bitPos) samples. */
  lemma StageLayout(w: nat, bitPos: nat)
    requires bitPos < w
    ensures Pow2(w - bitPos) == 2 * Pow2(w - bitPos - 1)
    ensures Pow2(w) == Blocks(Pow2(bitPos), 2 * Pow2(w - bitPos - 1))
    ensures Shr(Pow2(w), bitPos) == Pow2(w - bitPos)
  {
    Pow2Shift(w, bitPos);
    BlocksIsProduct(Pow2(bitPos), Pow2(w - bitPos));
  }

  /**
   * The block map of stage `bitPos` of kind `c` on blocks of 2 * half samples, given
   * by what it does to each block rather than by a formula.
   */
  ghost function StageMap(c: Combine, bitPos: nat, half: nat): (op: BlockMap)
    ensures IsStageOp(op, c, bitPos) && KeepsSize(op, 2 * half)
  {
    StageOpKeepsSize(c, bitPos, half);
    assert IsStageOp(StageOp(c, bitPos), c, bitPos);
    var op :| IsStageOp(op, c, bitPos) && KeepsSize(op, 2 * half);
    op
  }

  /** Stage `bitPos` of a buffer of N = 2^w samples: 2^bitPos blocks of N >> bit_pos samples. */
  ghost function StageAt(c: Combine, s: seq<Complex>, w: nat, bitPos: nat): (r: seq<Complex>)
    requires bitPos < w && |s| == Pow2(w)
    ensures |r| == |s|
  {
    StageLayout(w, bitPos);
    Stage(StageMap(c, bitPos, Pow2(w - bitPos - 1)), s, 2 * Pow2(w - bitPos - 1), Pow2(bitPos))
  }

  /** The first `k` stages of a phase, bit_pos = 0 .. k - 1. */
  ghost function Phase(c: Combine, s: seq<Complex>, w: nat, k: nat): (r: seq<Complex>)
    requires k <= w && |s| == Pow2(w)
    ensures |r| == |s|
    decreases k, 0
  {
    if k == 0 then s else PhaseThrough(c, s, w, k - 1)
  }

  /** The first `bitPos + 1` stages of a phase. */
  ghost function PhaseThrough(c: Combine, s: seq<Complex>, w: nat, bitPos: nat): (r: seq<Complex>)
    requires bitPos < w && |s| == Pow2(w)
    ensures |r| == |s|
    decreases bitPos, 2
  {
    NextStage(c, s, w, bitPos)
  }

  /**
   * Stage `bitPos` applied to what the stages before it made of `s`. Phase,
   * PhaseThrough and NextStage are one recursion, split in three so that the
   * verifier unfolds a phase by one stage only where a proof asks for it.
   */
  ghost function NextStage(c: Combine, s: seq<Complex>, w: nat, bitPos: nat): (r: seq<Complex>)
    requires bitPos < w && |s| == Pow2(w)
    ensures |r| == |s|
    decreases bitPos, 1
  {
    StageAt(c, Phase(c, s, w, bitPos), w, bitPos)
  }

  /**
   * What fft() computes from its input: w - 1 straight stages, w twiddle stages,
   * then w - 1 straight stages again.
   */
  ghost function Transform(s: seq<Complex>, w: nat, twiddle: real -> Complex): (r: seq<Complex>)
    requires 1 <= w && |s| == Pow2(w)
    ensures |r| == |s|
  {
    Phase(Straight, Phase(Twiddled(twiddle), Phase(Straight, s, w, w - 1), w, w), w, w - 1)
  }

  /** Stage `k` applied after the first `k` stages of a phase gives the first k + 1 stages. */
  lemma PhaseStep(c: Combine, s: seq<Complex>, w: nat, k: nat)
    requires k < w && |s| == Pow2(w)
    ensures Phase(c, s, w, k + 1) == StageAt(c, Phase(c, s, w, k), w, k)
  {
    assert Phase(c, s, w, k + 1) == PhaseThrough(c, s, w, k) == NextStage(c, s, w, k);
  }

  /** A straight stage of an N = 2^w buffer is a permutation of it. */
  lemma StraightStageAtPermutes(s: seq<Complex>, w: nat, bitPos: nat)
    requires bitPos < w && |s| == Pow2(w)
    ensures multiset(StageAt(Straight, s, w, bitPos)) == multiset(s)
  {
    StageLayout(w, bitPos);
    var op := StageMap(Straight, bitPos, Pow2(w - bitPos - 1));
    StraightOpMovesOnly(op, bitPos, Pow2(w - bitPos - 1));
    StageMovesOnly(op, s, 2 * Pow2(w - bitPos - 1), Pow2(bitPos));
    assert s[.. |s|] == s;
  }

  /** A straight phase is a permutation of the buffer. */
  lemma StraightPhasePermutes(s: seq<Complex>, w: nat, k: nat)
    requires k <= w && |s| == Pow2(w)
    ensures multiset(Phase(Straight, s, w, k)) == multiset(s)
  {
    var j := 0;
    while j < k
      invariant j <= k && multiset(Phase(Straight, s, w, j)) == multiset(s)
    {
      PhaseStep(Straight, s, w, j);
      StraightStageAtPermutes(Phase(Straight, s, w, j), w, j);
      j := j + 1;
    }
    assert j == k;
  }

  /** `op` turns every all-zero block of `size` samples into an all-zero block. */
  ghost predicate KeepsZero(op: BlockMap, size: nat)
  {
    forall t: seq<Complex>, m: nat :: |t| == size && AllZero(t) ==> AllZero(op(t, m))
  }

  /** Both butterflies, with any twiddle factor, keep an all-zero block zero. */
  lemma StageOpKeepsZero(op: BlockMap, c: Combine, bitPos: nat, size: nat)
    requires IsStageOp(op, c, bitPos)
    ensures KeepsZero(op, size)
  {
    forall t: seq<Complex>, m: nat | |t| == size && AllZero(t)
      ensures AllZero(op(t, m))
    {
      assert op(t, m) == BlockOp(c, t, bitPos, m);
      match c
      case Straight => ButterfliesKeepZero(t, Zero);
      case Twiddled(twiddle) => ButterfliesKeepZero(t, twiddle(TwiddleFraction(m, bitPos)));
    }
  }

  /** A stage whose butterfly keeps zero blocks zero maps an all-zero buffer to an all-zero one. */
  lemma {:induction false} StageKeepsZero(op: BlockMap, s: seq<Complex>, size: nat, count: nat)
    requires KeepsSize(op, size) && KeepsZero(op, size) && Blocks(count, size) <= |s| && AllZero(s)
    ensures AllZero(Stage(op, s, size, count))
    decreases count
  {
    if count > 0 {
      var lo := Blocks(count - 1, size);
      StageKeepsZero(op, s, size, count - 1);
      var block := s[lo .. lo + size];
      assert AllZero(block);
      assert AllZero(op(block, count - 1));
      StageUnfold(op, s, size, count);
    }
  }

  /** Every stage of either kind maps an all-zero buffer to an all-zero one. */
  lemma StageAtKeepsZero(c: Combine, s: seq<Complex>, w: nat, bitPos: nat)
    requires bitPos < w && |s| == Pow2(w) && AllZero(s)
    ensures AllZero(StageAt(c, s, w, bitPos))
  {
    StageLayout(w, bitPos);
    var op := StageMap(c, bitPos, Pow2(w - bitPos - 1));
    StageOpKeepsZero(op, c, bitPos, 2 * Pow2(w - bitPos - 1));
    StageKeepsZero(op, s, 2 * Pow2(w - bitPos - 1), Pow2(bitPos));
  }

  /** A phase of either kind maps an all-zero buffer to an all-zero one. */
  lemma {:induction false} PhaseKeepsZero(c: Combine, s: seq<Complex>, w: nat, k: nat)
    requires k <= w && |s| == Pow2(w) && AllZero(s)
    ensures AllZero(Phase(c, s, w, k))
    decreases k
  {
    if k > 0 {
      PhaseKeepsZero(c, s, w, k - 1);
      StageAtKeepsZero(c, Phase(c, s, w, k - 1), w, k - 1);
      PhaseStep(c, s, w, k - 1);
    }
  }

  /** Zero in, zero out: the transform of an all-zero buffer is all zero. */
  lemma TransformKeepsZero(s: seq<Complex>, w: nat, twiddle: real -> Complex)
    requires 1 <= w && |s| == Pow2(w) && AllZero(s)
    ensures AllZero(Transform(s, w, twiddle))
  {
    var x1 := Phase(Straight, s, w, w - 1);
    PhaseKeepsZero(Straight, s, w, w - 1);
    var x2 := Phase(Twiddled(twiddle), x1, w, w);
    PhaseKeepsZero(Twiddled(twiddle), x1, w, w);
    PhaseKeepsZero(Straight, x2, w, w - 1);
  }
}
