// The inner loops of `decimate_straight` and `decimate_twiddle` in fft.c: one stage
// walks DFT_block = 0, DFT_points, 2 * DFT_points, ... < N and applies the butterfly
// to each block, reading one buffer and writing the other.
module Decimation {
  import opened Arith
  import opened Samples
  import opened BitReversal
  import opened ButterflySpec
  import opened Butterflies
  import opened Stages

  /** Splicing `x` at 0 and then `y` right after it is splicing `x + y` at 0. */
  lemma SpliceAppend(before: seq<Complex>, x: seq<Complex>, y: seq<Complex>)
    requires |x| + |y| <= |before|
    ensures |Splice(before, 0, x)| == |before|
    ensures Splice(Splice(before, 0, x), |x|, y) == Splice(before, 0, x + y)
  {
    var once := Splice(before, 0, x);
    assert once[..|x|] == x;
    assert once[|x| + |y|..] == before[|x| + |y|..];
  }

  /** Splicing a whole buffer's worth at 0 replaces the buffer. */
  lemma SpliceWhole(before: seq<Complex>, t: seq<Complex>)
    requires |t| == |before|
    ensures Splice(before, 0, t) == t
  {
    assert before[|t|..] == [];
  }

  /** The numbers of one stage: N >> bit_pos samples per block, 2^bit_pos blocks, within 16 bits. */
  lemma StageNumbers(w: nat, bitPos: nat)
    requires bitPos < w <= 15
    ensures Pow2(w) <= 0x8000 && Shr(Pow2(w), bitPos) == 2 * Pow2(w - bitPos - 1)
    ensures Pow2(w) == Blocks(Pow2(bitPos), Shr(Pow2(w), bitPos))
    ensures Pow2(bitPos) <= 0x4000
  {
    StageLayout(w, bitPos);
    Pow2Monotonic(w, 15);
    Pow2Monotonic(bitPos, 14);
    Pow2Values();
    assert Pow2(15) == 2 * Pow2(14);
  }

  /**
   * `d` is `before` with its first `m` blocks of `size` cells replaced by the first
   * `m` blocks of the stage `op` makes of `s`: what the destination buffer holds
   * after `m` turns of a DFT_block loop.
   */
  ghost predicate Written(d: seq<Complex>, before: seq<Complex>, op: BlockMap, s: seq<Complex>, size: nat, m: nat)
  {
    && KeepsSize(op, size)
    && Blocks(m, size) <= |s| <= |before|
    && d == Splice(before, 0, Stage(op, s, size, m))
  }

  /**
   * The bookkeeping of one block: writing op of block `m`, at `lo`, over a buffer
   * that holds the first `m` blocks gives one that holds the first m + 1.
   */
  lemma WriteBlock(d: seq<Complex>, before: seq<Complex>, op: BlockMap, s: seq<Complex>, size: nat, m: nat, lo: nat,
                   result: seq<Complex>)
    requires Written(d, before, op, s, size, m) && lo == Blocks(m, size) && lo + size <= |s|
    requires result == op(s[lo .. lo + size], m)
    ensures |result| == size && lo + size <= |d|
    ensures Written(Splice(d, lo, result), before, op, s, size, m + 1)
  {
    StageExtend(op, s, size, m, lo);
    SpliceAppend(before, Stage(op, s, size, m), result);
  }

  /**
   * The start of a stage's DFT_block loop: DFT_points = N >> bit_pos samples per
   * block, 2^bit_pos blocks covering the buffer, and a map of blocks for the stage;
   * nothing is written yet.
   */
  lemma StageStart(c: Combine, before: seq<Complex>, s: seq<Complex>, w: nat, bitPos: nat) returns (op: BlockMap)
    requires bitPos < w <= 15 && |s| == |before| == Pow2(w)
    ensures 0 < Shr(Pow2(w), bitPos) && Pow2(w) <= 0x8000
    ensures Pow2(w) == Blocks(Pow2(bitPos), Shr(Pow2(w), bitPos))
    ensures op == StageMap(c, bitPos, Pow2(w - bitPos - 1)) && IsStageOp(op, c, bitPos)
    ensures Written(before, before, op, s, Shr(Pow2(w), bitPos), 0)
  {
    StageNumbers(w, bitPos);
    op := StageMap(c, bitPos, Pow2(w - bitPos - 1));
    assert before[0..] == before;
  }

  /**
   * The end of a stage's DFT_block loop: once the blocks cover the buffer, it
   * holds the whole stage.
   */
  lemma StageDone(d: seq<Complex>, before: seq<Complex>, op: BlockMap, c: Combine, s: seq<Complex>, w: nat, bitPos: nat,
                  m: nat)
    requires bitPos < w <= 15 && |s| == Pow2(w) && op == StageMap(c, bitPos, Pow2(w - bitPos - 1))
    requires Written(d, before, op, s, Shr(Pow2(w), bitPos), m)
    requires Blocks(m, Shr(Pow2(w), bitPos)) == |before|
    ensures d == StageAt(c, s, w, bitPos)
  {
    var points := Shr(Pow2(w), bitPos);
    StageNumbers(w, bitPos);
    BlocksOrder(m, Pow2(bitPos), points);
    BlocksOrder(Pow2(bitPos), m, points);
    assert m == Pow2(bitPos) && points == 2 * Pow2(w - bitPos - 1);
    SpliceWhole(before, Stage(op, s, points, m));
  }

  /**
   * The twiddle_N of decimate_twiddle for the block at `block`, number `m`:
   * reverse_bits(DFT_block / DFT_points, bit_pos) / (2 << bit_pos).
   */
  method TwiddleFactorArgument(block: U16, points: U16, bitPos: nat, ghost m: nat) returns (twiddleN: real)
    requires 0 < points && block == Blocks(m, points) && bitPos <= 16
    ensures twiddleN == TwiddleFraction(m, bitPos)
  {
    BlocksDivide(m, points);
    var index: U16 := block / points;
    var reversed := ReverseBits(index, bitPos);
    twiddleN := reversed as real / Shl(2, bitPos) as real;
  }

  /**
   * One iteration of the DFT_block loop of decimate_straight: block `m`, at `block`,
   * is de-interleaved from `src` into `dst`, which then holds the stage's first m + 1 blocks.
   */
  method StraightBlock(src: array<Complex>, dst: array<Complex>, bitPos: nat, block: U16, points: U16,
                       ghost op: BlockMap, ghost m: nat, ghost count: nat, ghost before: seq<Complex>)
    requires src != dst && dst.Length == |before| && IsStageOp(op, Straight, bitPos)
    requires 0 < points && block == Blocks(m, points) && block < src.Length == Blocks(count, points)
    requires Written(dst[..], before, op, src[..], points, m)
    modifies dst
    ensures m < count && block + points == Blocks(m + 1, points) <= src.Length
    ensures Written(dst[..], before, op, src[..], points, m + 1)
  {
    BlocksOrder(m, count, points);
    BlocksMonotonic(m + 1, count, points);
    BlocksStep(m, points);
    ghost var t := src[block .. block + points];
    assert op(t, m) == BlockOp(Straight, t, bitPos, m);
    WriteBlock(dst[..], before, op, src[..], points, m, block, Deinterleave(t));
    ButterflyStraight(src, dst, block, points);
  }

  /**
   * One iteration of the DFT_block loop of decimate_twiddle: block `m`, at `block`,
   * is combined with its twiddle factor from `src` into `dst`, which then holds the
   * stage's first m + 1 blocks.
   */
  method TwiddledBlock(src: array<Complex>, dst: array<Complex>, bitPos: nat, block: U16, points: U16,
                       twiddle: real -> Complex, ghost op: BlockMap, ghost m: nat, ghost count: nat,
                       ghost before: seq<Complex>)
    requires src != dst && dst.Length == |before| && bitPos <= 16 && IsStageOp(op, Twiddled(twiddle), bitPos)
    requires 0 < points && block == Blocks(m, points) && block < src.Length == Blocks(count, points)
    requires Written(dst[..], before, op, src[..], points, m)
    modifies dst
    ensures m < count && block + points == Blocks(m + 1, points) <= src.Length
    ensures Written(dst[..], before, op, src[..], points, m + 1)
  {
    BlocksOrder(m, count, points);
    BlocksMonotonic(m + 1, count, points);
    BlocksStep(m, points);
    ghost var t := src[block .. block + points];
    var twiddleN := TwiddleFactorArgument(block, points, bitPos, m);
    assert op(t, m) == BlockOp(Twiddled(twiddle), t, bitPos, m);
    WriteBlock(dst[..], before, op, src[..], points, m, block, TwiddleBlock(t, twiddle(twiddleN)));
    ButterflyTwiddle(src, dst, block, twiddleN, points, twiddle);
  }

  /**
   * One pass of the DFT_block loop of decimate_straight at `bitPos`: every block of
   * `src` is de-interleaved into the same cells of `dst`.
   */
  method StraightStage(src: array<Complex>, dst: array<Complex>, w: nat, bitPos: nat)
    requires src != dst && bitPos < w <= 15
    requires src.Length == Pow2(w) && dst.Length == Pow2(w)
    modifies dst
    ensures dst[..] == StageAt(Straight, src[..], w, bitPos)
  {
    ghost var before := dst[..];
    ghost var op := StageStart(Straight, before, src[..], w, bitPos);
    var n: U16 := src.Length;
    var points: U16 := Shr(n, bitPos);
    var block: U16 := 0;
    ghost var m: nat := 0;
    while block < n
      invariant block == Blocks(m, points) <= n
      invariant Written(dst[..], before, op, src[..], points, m)
    {
      StraightBlock(src, dst, bitPos, block, points, op, m, Pow2(bitPos), before);
      block := block + points;
      m := m + 1;
    }
    StageDone(dst[..], before, op, Straight, src[..], w, bitPos, m);
  }

  /**
   * One pass of the DFT_block loop of decimate_twiddle at `bitPos`: block `m` of
   * `src` is combined with the twiddle factor of reverse_bits(m, bit_pos) / (2 << bit_pos)
   * into the same cells of `dst`.
   */
  method TwiddleStage(src: array<Complex>, dst: array<Complex>, w: nat, bitPos: nat, twiddle: real -> Complex)
    requires src != dst && bitPos < w <= 15
    requires src.Length == Pow2(w) && dst.Length == Pow2(w)
    modifies dst
    ensures dst[..] == StageAt(Twiddled(twiddle), src[..], w, bitPos)
  {
    ghost var before := dst[..];
    ghost var op := StageStart(Twiddled(twiddle), before, src[..], w, bitPos);
    var n: U16 := src.Length;
    var points: U16 := Shr(n, bitPos);
    var block: U16 := 0;
    ghost var m: nat := 0;
    while block < n
      invariant block == Blocks(m, points) <= n
      invariant Written(dst[..], before, op, src[..], points, m)
    {
      TwiddledBlock(src, dst, bitPos, block, points, twiddle, op, m, Pow2(bitPos), before);
      block := block + points;
      m := m + 1;
    }
    StageDone(dst[..], before, op, Twiddled(twiddle), src[..], w, bitPos, m);
  }
}
