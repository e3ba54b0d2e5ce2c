// The global state of fft.c and the functions that use it: the two sample buffers,
// which of them `input_buffer` and `output_buffer` point to, the three-phase fft(),
// load_real_inputs and find_freq.
module Fft {
  import opened Arith
  import opened Samples
  import opened Stages
  import opened Decimation
  import opened Peak

  /** N_BIT_WIDTH of fft.c. */
  const BitWidth: nat := 12

  /** FFT_BUFFER_SIZE of fft.h, the N of fft.c. */
  const BufferSize: nat := 4096

  /** The two constants are set independently; as shipped they agree: N == 2^N_BIT_WIDTH. */
  lemma BufferSizeMatchesBitWidth()
    ensures Pow2(BitWidth) == BufferSize
  {
    Pow2Values();
  }

  /**
   * The buffer_select value fft() ends with when it starts from `start`:
   * decimate_straight adds w - 1, decimate_twiddle w, decimate_straight w - 1.
   * Its parity is that of start + w.
   */
  function FinalSelect(start: nat, w: nat): (b: nat)
    requires w >= 1
    ensures b % 2 == (start + w) % 2
  {
    start + (w - 1) + w + (w - 1)
  }

  /**
   * The last stage writes buffers[b & 1] for the final b, and fft() makes the other
   * buffer the input: the roles swap exactly when the width is even, which is also
   * exactly when the result lands in the buffer the input was in.
   */
  lemma RolesSwapIffEven(start: nat, w: nat)
    requires w >= 1
    ensures (FinalSelect(start, w) + 1) % 2 != start % 2 <==> w % 2 == 0
    ensures FinalSelect(start, w) % 2 == start % 2 <==> w % 2 == 0
  {
  }

  /** With N_BIT_WIDTH = 12 (34 stages) every call of fft() swaps the roles. */
  lemma RolesSwapAtBitWidth(start: nat)
    ensures (FinalSelect(start, BitWidth) + 1) % 2 != start % 2
  {
    RolesSwapIffEven(start, BitWidth);
  }

  /** The three phases as fft() applies them, one buffer state after another. */
  lemma TransformSteps(x0: seq<Complex>, x1: seq<Complex>, x2: seq<Complex>, x3: seq<Complex>, w: nat, twiddle: real -> Complex)
    requires 1 <= w && |x0| == Pow2(w)
    requires x1 == Phase(Straight, x0, w, w - 1)
    requires x2 == Phase(Twiddled(twiddle), x1, w, w)
    requires x3 == Phase(Straight, x2, w, w - 1)
    ensures x3 == Transform(x0, w, twiddle)
  {
  }

  /**
   * The buffers of fft.c: `buffers[2][N]` as `buf0` and `buf1`, and the pointers
   * `input_buffer` / `output_buffer` as one selector: input_buffer is
   * buffers[inputSel] and output_buffer the other buffer, as every assignment to
   * them in fft.c keeps them.
   */
  class FftState {
    /** N_BIT_WIDTH */
    const w: nat
    /** N */
    const n: nat
    const buf0: array<Complex>
    const buf1: array<Complex>
    var inputSel: nat

    ghost predicate Valid()
      reads this
    {
      && 1 <= w <= 15
      && n == Pow2(w)
      && buf0.Length == n && buf1.Length == n
      && buf0 != buf1
      && inputSel < 2
    }

    /** buffers[k & 1]; buffers[~k & 1] is Buffer(k + 1). */
    function Buffer(k: nat): array<Complex>
    {
      if k % 2 == 0 then buf0 else buf1
    }

    function InputBuffer(): array<Complex>
      reads this
    {
      Buffer(inputSel)
    }

    function OutputBuffer(): array<Complex>
      reads this
    {
      Buffer(inputSel + 1)
    }

    /**
     * The state at program start: static buffers are zero, input_buffer points to
     * buffers[0] and output_buffer to buffers[1].
     */
    constructor (width: nat)
      requires 1 <= width <= 15
      ensures Valid() && w == width && inputSel == 0
      ensures fresh(buf0) && fresh(buf1)
      ensures InputBuffer() == buf0 && OutputBuffer() == buf1
      ensures AllZero(buf0[..]) && AllZero(buf1[..])
    {
      w := width;
      n := Pow2(width);
      buf0 := new Complex[Pow2(width)](_ => Zero);
      buf1 := new Complex[Pow2(width)](_ => Zero);
      inputSel := 0;
    }

    /** N = 2^w is at most 2^15, so every index into a buffer fits a 16-bit counter. */
    lemma SizeBound()
      requires Valid()
      ensures n <= 0x8000
    {
      Pow2Monotonic(w, 15);
      Pow2Values();
    }

    /** The stage reading buffers[k & 1] writes the other buffer, buffers[~k & 1]. */
    lemma BuffersAlternate(k: nat)
      requires Valid()
      ensures Buffer(k) != Buffer(k + 1) && Buffer(k).Length == Buffer(k + 1).Length == n
    {
    }

    /**
     * Iteration `bitPos` of decimate_straight's bit_pos loop: one straight stage
     * from buffers[b_sel & 1] into buffers[~b_sel & 1], taking the phase begun on
     * `s` one stage further.
     */
    method StraightStep(b: nat, bitPos: nat, ghost s: seq<Complex>)
      requires Valid() && bitPos < w && |s| == n && Buffer(b)[..] == Phase(Straight, s, w, bitPos)
      modifies Buffer(b + 1)
      ensures Buffer(b + 1)[..] == Phase(Straight, s, w, bitPos + 1)
    {
      BuffersAlternate(b);
      StraightStage(Buffer(b), Buffer(b + 1), w, bitPos);
      PhaseStep(Straight, s, w, bitPos);
    }

    /** Iteration `bitPos` of decimate_twiddle's bit_pos loop, with the same ping-pong. */
    method TwiddleStep(b: nat, bitPos: nat, twiddle: real -> Complex, ghost s: seq<Complex>)
      requires Valid() && bitPos < w && |s| == n && Buffer(b)[..] == Phase(Twiddled(twiddle), s, w, bitPos)
      modifies Buffer(b + 1)
      ensures Buffer(b + 1)[..] == Phase(Twiddled(twiddle), s, w, bitPos + 1)
    {
      BuffersAlternate(b);
      TwiddleStage(Buffer(b), Buffer(b + 1), w, bitPos, twiddle);
      PhaseStep(Twiddled(twiddle), s, w, bitPos);
    }

    /**
     * decimate_straight(b_sel): w - 1 straight stages, stage bit_pos reading
     * buffers[b_sel & 1] and writing buffers[~b_sel & 1], b_sel counting up.
     * The last stage's output is in Buffer(b); `s` is what Buffer(b_sel) held.
     */
    method DecimateStraight(bSel: nat, ghost s: seq<Complex>) returns (b: nat)
      requires Valid() && Buffer(bSel)[..] == s
      modifies buf0, buf1
      ensures b == bSel + (w - 1)
      ensures Buffer(b)[..] == Phase(Straight, s, w, w - 1)
    {
      var bitPos: nat := 0;
      b := bSel;
      while bitPos < w - 1
        invariant bitPos <= w - 1 && b == bSel + bitPos
        invariant Buffer(b)[..] == Phase(Straight, s, w, bitPos)
      {
        StraightStep(b, bitPos, s);
        bitPos := bitPos + 1;
        b := b + 1;
      }
    }

    /**
     * decimate_twiddle(b_sel): w twiddle stages, with the same ping-pong between
     * the buffers as decimate_straight.
     */
    method DecimateTwiddle(bSel: nat, twiddle: real -> Complex, ghost s: seq<Complex>) returns (b: nat)
      requires Valid() && Buffer(bSel)[..] == s
      modifies buf0, buf1
      ensures b == bSel + w
      ensures Buffer(b)[..] == Phase(Twiddled(twiddle), s, w, w)
    {
      var bitPos: nat := 0;
      b := bSel;
      while bitPos < w
        invariant bitPos <= w && b == bSel + bitPos
        invariant Buffer(b)[..] == Phase(Twiddled(twiddle), s, w, bitPos)
      {
        TwiddleStep(b, bitPos, twiddle, s);
        bitPos := bitPos + 1;
        b := b + 1;
      }
    }

    /**
     * The three decimation calls of fft(), each result stored back into the
     * uint8_t buffer_select (the truncation is written out; it never bites, as
     * every value stays below 1 + 3 * 15). The transform ends in Buffer(b).
     */
    method DecimatePhases(start: nat, twiddle: real -> Complex, ghost x0: seq<Complex>) returns (b: nat)
      requires Valid() && start < 2 && Buffer(start)[..] == x0
      modifies buf0, buf1
      ensures b == FinalSelect(start, w)
      ensures Buffer(b)[..] == Transform(x0, w, twiddle)
    {
      var next := DecimateStraight(start, x0);
      ghost var x1 := Buffer(next)[..];
      ToU8Keeps(next);
      b := ToU8(next);
      next := DecimateTwiddle(b, twiddle, x1);
      ghost var x2 := Buffer(next)[..];
      ToU8Keeps(next);
      b := ToU8(next);
      next := DecimateStraight(b, x2);
      ToU8Keeps(next);
      b := ToU8(next);
      TransformSteps(x0, x1, x2, Buffer(b)[..], w, twiddle);
    }

    /**
     * fft(): picks the starting parity from which buffer input_buffer points to,
     * runs the three phases and rebinds the roles from the final parity, so that
     * output_buffer is the buffer the last stage wrote.
     */
    method Fft(twiddle: real -> Complex) returns (out: array<Complex>)
      requires Valid()
      modifies this, buf0, buf1
      ensures Valid()
      ensures out == OutputBuffer() && out == Buffer(FinalSelect(old(inputSel), w))
      ensures out[..] == Transform(old(InputBuffer()[..]), w, twiddle)
      ensures inputSel != old(inputSel) <==> w % 2 == 0
    {
      var bufferSelect: nat := if InputBuffer() == buf0 then 0 else 1;
      assert bufferSelect == inputSel;
      bufferSelect := DecimatePhases(bufferSelect, twiddle, InputBuffer()[..]);
      if bufferSelect % 2 == 1 {
        inputSel := 0;
      } else {
        inputSel := 1;
      }
      RolesSwapIffEven(old(inputSel), w);
      out := OutputBuffer();
    }

    /**
     * load_real_inputs(raw_inputs): input_buffer[i] = raw_inputs[i] for i < N, a real
     * sample with zero imaginary part.
     */
    method LoadRealInputs(raw: array<Digit>)
      requires Valid() && raw.Length >= n
      modifies InputBuffer()
      ensures forall i :: 0 <= i < n ==> InputBuffer()[i] == Complex(raw[i] as real, 0.0)
      ensures OutputBuffer()[..] == old(OutputBuffer()[..])
    {
      var input := InputBuffer();
      SizeBound();
      var i: U16 := 0;
      while i < n
        invariant i <= n
        invariant forall j :: 0 <= j < i ==> input[j] == Complex(raw[j] as real, 0.0)
      {
        input[i] := Complex(raw[i] as real, 0.0);
        i := i + 1;
      }
    }

    /**
     * find_freq(freq_buff, sample_frequency): overwrites bins 1 .. N/2 - 1 with their
     * magnitudes while scanning them for the last largest one, and returns
     * sample_frequency * max_index / N. `mag` stands for cabs.
     */
    method FindFreq(freqBuff: array<Complex>, sampleFrequency: real, mag: Complex -> real) returns (f: real)
      requires Valid() && freqBuff.Length >= n / 2
      modifies freqBuff
      ensures f == BinFrequency(sampleFrequency, PeakBin(old(freqBuff[..]), mag, n / 2), n)
      ensures forall i :: 1 <= i < n / 2 ==> freqBuff[i] == Complex(mag(old(freqBuff[i])), 0.0)
      ensures forall i :: 0 <= i < freqBuff.Length && !(1 <= i < n / 2) ==> freqBuff[i] == old(freqBuff[i])
    {
      ghost var s := freqBuff[..];
      var h := n / 2;
      var max: real := 0.0;
      var maxIndex: U16 := 0;
      SizeBound();
      var i: nat := 1;
      while i < h
        invariant 1 <= i && (i <= h || h == 0)
        invariant Scan(s, mag, h, i, max, maxIndex) == PeakBin(s, mag, h)
        invariant forall j :: 1 <= j < i ==> freqBuff[j] == Complex(mag(s[j]), 0.0)
        invariant forall j :: i <= j < freqBuff.Length ==> freqBuff[j] == s[j]
        invariant freqBuff.Length > 0 ==> freqBuff[0] == s[0]
      {
        assert freqBuff[i] == s[i];
        var m := mag(freqBuff[i]);
        ScanStep(s, mag, h, i, max, maxIndex, m);
        freqBuff[i] := Complex(m, 0.0);
        if m >= max {
          max := m;
          maxIndex := i;
        }
        i := i + 1;
      }
      ScanDone(s, mag, h, i, max, maxIndex);
      f := BinFrequency(sampleFrequency, maxIndex, n);
    }
  }
}
