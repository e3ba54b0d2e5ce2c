# simple-fft in Dafny

A model of `fft.c`, a radix-2 fast Fourier transform for a microcontroller. The transform
runs with no allocation: it ping-pongs between two static sample buffers, `buffers[0]` and
`buffers[1]`. The model covers what the code does with indices, buffers and roles:

- `reverse_bits`, the integer bit reversal that picks each block's twiddle factor;
- the two butterflies, `butterfly_straight` (an even/odd de-interleave of one block) and
  `butterfly_twiddle` (a sum/difference combine with one factor `W`);
- the decimation drivers `decimate_straight` and `decimate_twiddle`. Each stage tiles the
  buffer into blocks of `N >> bit_pos` samples, reads `buffers[b_sel & 1]` and writes
  `buffers[~b_sel & 1]`, and the drivers count the stages in `b_sel`;
- `fft()`. It finds the starting parity from which buffer `input_buffer` points to, runs the
  three phases (straight, twiddle, straight) and rebinds `input_buffer` / `output_buffer`
  from the final parity;
- `load_real_inputs`, which copies `N` unsigned 16-bit samples into the input buffer;
- `find_freq`, the arg-max over bins `1 .. N/2 - 1`. A tie goes to the later bin. It
  overwrites the bins it visits with their magnitudes.

Layout, one module per concern:

- `samples.dfy` (`Samples`): the value types. `Complex` uses exact reals. `U16` stands for
  `count_t` / `dig_t`, and `ToU8` is the conversion to `uint8_t`.
- `arith.dfy` (`Arith`): powers of two, shifts, and block offsets (`Blocks`).
- `bits.dfy` (`BitReversal`): `reverse_bits` and its specification `Reversed`.
- `butterfly.dfy`: the block-level specifications (`ButterflySpec`) and the two butterfly
  loops on arrays (`Butterflies`).
- `stages.dfy` (`Stages`): the specification of one stage, of a phase and of the whole
  transform. Stages tile the buffer and compose into phases.
- `decimate.dfy` (`Decimation`): one stage's `DFT_block` loop on the two arrays.
- `peak.dfy` (`Peak`): the specification of `find_freq`'s scan.
- `fft.dfy` (`Fft`): the global state as the class `FftState` and its methods.

Design choices:

- The two global pointers `input_buffer` / `output_buffer` become one selector field,
  `inputSel`. `input_buffer` is `buffers[inputSel]` and `output_buffer` is the other buffer;
  every assignment in `fft.c` keeps the pointers in this shape. The pointer comparison at
  fft.c:112 becomes a test of which array the input buffer is.
- The transform size is `N == 2^w`. The class admits `1 <= w <= 15`, and the shipped
  configuration is `w = 12`, `N = 4096`. At `w = 16`, `DFT_points = N >> 0` does not fit the
  16-bit `count_t` and becomes 0, so the `DFT_block` loop would never end. The model types
  the 16-bit variables as `U16`, so every assignment to them is checked not to wrap:
  `DFT_block` and `DFT_points`, the butterfly counters, `reverse_bits`' `input`, `num_bits`,
  `output` and counter, `load_real_inputs`' counter and `find_freq`'s `max_index`. They stay
  in range because `N <= 2^15` (`FftState.SizeBound`). `find_freq`'s own counter is an `int`
  in the source and a `nat` here.
- `cexp(-tau * I * f)` and `cabs` are parameters of the operations: `twiddle: real -> Complex`
  and `mag: Complex -> real`. Nothing is assumed about them, except that the properties of
  `find_freq`'s pick require the visited magnitudes to be non-negative.
- The source has no runtime error path. Its caller contracts (`N` raw samples, buffers of
  `N` samples) become preconditions.
- `buffer_select` in `fft()` is a `uint8_t`. The model writes out the conversion (`ToU8`)
  and proves that it never changes the value: the value stays below `1 + 3 * 15`.

## Buffer roles for odd widths

With an odd bit-width `fft()` leaves `input_buffer` and `output_buffer` bound as they were,
and `output_buffer` is still the buffer the last stage wrote. `fft()` always binds
`output_buffer` to that buffer (fft.c:118-127) and `input_buffer` to the other one, so the
next load never overwrites the transform's output. `FftState.Fft` states this:
`out == Buffer(FinalSelect(..))` for every width, and `inputSel` changes exactly when `w` is
even.

## Model

| member | source | states |
|---|---|---|
| `BitReversal.ReverseBits` | fft.c:52-60 | returns the low `num_bits` bits of `input` in reverse order (`Reversed`); the 16-bit `output` accumulator never wraps |
| `BitReversal.ReversedBound` | fft.c:52-60 | the reversal of `n` bits is below `2^n` |
| `BitReversal.ReversedLowBitsOnly` | fft.c:56-57 | the reversal depends only on `x mod 2^n`; higher bits are ignored |
| `BitReversal.ReversedInvolution` | fft.c:52-60 | reversing twice with the same width gives back `x mod 2^n` |
| `ButterflySpec.DeinterleaveAt` | fft.c:30-34 | helper fact: the straight butterfly puts input `2i` at output `i` and input `2i+1` at output `num_elem/2 + i` |
| `ButterflySpec.DeinterleaveDropsOdd` | fft.c:30 | the loop bound `num_elem / 2` ignores an odd last sample |
| `ButterflySpec.InterleaveUndoesDeinterleave` | fft.c:28-35 | interleaving undoes the straight butterfly on a block of even size |
| `ButterflySpec.DeinterleaveUndoesInterleave` | fft.c:28-35 | the straight butterfly undoes interleaving, so it is a bijection on blocks of even size |
| `ButterflySpec.DeinterleavePermutes` | fft.c:28-35 | on a block of even size the straight butterfly is a permutation (same multiset) |
| `ButterflySpec.TwiddleBlockAt` | fft.c:41-45 | helper fact: twiddle output `i` is `in[2i] + in[2i+1]·W` and output `num_elem/2 + i` is `in[2i] - in[2i+1]·W` |
| `ButterflySpec.TwiddleBlockSumDifference` | fft.c:43-44 | the sum of outputs `i` and `h+i` is `2·in[2i]`, and their difference is `2·in[2i+1]·W` |
| `ButterflySpec.ButterfliesKeepZero` | fft.c:28-46 | both butterflies map an all-zero block to an all-zero block |
| `ButterflySpec.SpliceParts` | fft.c:28-46 | writing a block changes exactly the cells `off .. off + len`, which then hold the block |
| `Butterflies.ButterflyStraight` | fft.c:28-35 | the destination becomes the old destination with the block at `off` replaced by the de-interleaved source block; nothing else changes |
| `Butterflies.ButterflyTwiddle` | fft.c:38-46 | the same for the twiddle combine, with one factor `W = twiddle(twiddle_N)` for the whole block |
| `Stages.TwiddleFraction` | fft.c:95-96 | the twiddle argument `reverse_bits(m, bit_pos) / (2 << bit_pos)` lies in `[0, 1/2)` |
| `Decimation.TwiddleFactorArgument` | fft.c:95-96 | computes `DFT_block / DFT_points` as the block number `m`, and from it the fraction `TwiddleFraction(m, bit_pos)` |
| `Stages.StageBlock` | fft.c:76-79 | the blocks at `0, size, 2·size, …` tile a stage: each output block is the butterfly of the same cells of the input |
| `Stages.StraightStageAtPermutes` | fft.c:72-80 | one straight stage over the whole buffer is a permutation of it |
| `Stages.StraightPhasePermutes` | fft.c:70-83 | a whole straight phase is a permutation of the buffer |
| `Stages.PhaseStep` | fft.c:72 | helper fact: the first `k + 1` stages of a phase are stage `k` applied after the first `k` |
| `Stages.StageAtKeepsZero` | fft.c:76-79 | a stage of either kind maps an all-zero buffer to an all-zero buffer |
| `Stages.PhaseKeepsZero` | fft.c:70-104 | a phase of either kind maps an all-zero buffer to an all-zero buffer |
| `Stages.TransformKeepsZero` | fft.c:114-116 | zero in, zero out: the three phases of `fft()` map an all-zero buffer to an all-zero buffer |
| `Decimation.StraightStage` | fft.c:76-79 | one pass of the `DFT_block` loop of `decimate_straight` writes the whole straight stage of the source into the other buffer |
| `Decimation.TwiddleStage` | fft.c:93-100 | one pass of the `DFT_block` loop of `decimate_twiddle` writes the whole twiddle stage of the source into the other buffer |
| `Fft.FftState.BuffersAlternate` | fft.c:77-78 | `buffers[b_sel & 1]` and `buffers[~b_sel & 1]` are distinct buffers of `N` samples |
| `Fft.FftState.StraightStep` | fft.c:72-79 | one iteration of the `bit_pos` loop reads `buffers[b & 1]` and leaves the phase one stage further in `buffers[~b & 1]` |
| `Fft.FftState.TwiddleStep` | fft.c:89-100 | the same for `decimate_twiddle` |
| `Fft.FftState.DecimateStraight` | fft.c:70-83 | returns `b_sel + (w - 1)`; `buffers[result & 1]` holds the `w - 1` straight stages of what `buffers[b_sel & 1]` held |
| `Fft.FftState.DecimateTwiddle` | fft.c:87-104 | returns `b_sel + w`; `buffers[result & 1]` holds the `w` twiddle stages |
| `Fft.FftState.DecimatePhases` | fft.c:114-116 | the three calls end in `buffers[FinalSelect & 1]`, which holds the whole transform of the starting buffer; the `uint8_t` stores never truncate |
| `Fft.FinalSelect` | fft.c:114-116 | the final parity is that of `start + w` |
| `Fft.TransformSteps` | fft.c:114-116 | helper fact: the three phases in sequence compute `Transform` |
| `Fft.RolesSwapIffEven` | fft.c:118-127 | the roles swap exactly when `w` is even, which is exactly when the result lands in the buffer the input was in |
| `Fft.RolesSwapAtBitWidth` | fft.c:11 | with `N_BIT_WIDTH = 12` (34 stages) every call of `fft()` swaps the roles |
| `Fft.BufferSizeMatchesBitWidth` | fft.c:10-11 | `N == 2^N_BIT_WIDTH` as shipped (4096 and 12) |
| `Fft.FftState.constructor` | fft.c:18-22 | static buffers are two distinct new arrays that start zeroed, with `input_buffer = buffers[0]` and `output_buffer = buffers[1]` |
| `Fft.FftState.Fft` | fft.c:109-130 | returns `output_buffer`, which is the buffer the last stage wrote and holds `Transform` of the old input; `input_buffer` is the other buffer; the roles change exactly when `w` is even |
| `Fft.FftState.LoadRealInputs` | fft.c:135-139 | `input_buffer[i] = Complex(raw[i], 0)` for every `i < N`; the output buffer and the roles are unchanged |
| `Samples.ToU8Keeps` | fft.c:112-116 | the conversion to `uint8_t` keeps every value below 256 |
| `Fft.FftState.FindFreq` | fft.c:144-160 | returns `sample_frequency * max_index / N` for the scan's pick; bins `1 .. N/2 - 1` become `Complex(mag(old), 0)`; all other cells are unchanged |
| `Peak.PeakBin` | fft.c:146-157 | the pick is bin 0 (no bin visited) or a bin in `[1, N/2)` |
| `Peak.ScanStep` | fft.c:152-156 | helper fact: one iteration: a magnitude `>=` the best so far moves the pick to this bin |
| `Peak.ScanFindsLastPeak` | fft.c:149-157 | the scan keeps the last bin whose magnitude is the largest so far |
| `Peak.PeakBinIsLastPeak` | fft.c:149-157 | with non-negative magnitudes the pick is in `[1, N/2)`, has the largest magnitude there, and every later bin has strictly less |
| `Peak.PeakBinCharacterized` | fft.c:149-157 | the pick is `r` if and only if `r` is the last bin of largest magnitude |

## Left out

- Floating point. Samples are `float complex` and frequencies are `float` in the source; the
  model uses exact reals. Rounding, `tau = 6.28318530718` and the `float` conversion of
  `reverse_bits`' result are not modelled.
- `cexp` and `cabs` are parameters (`twiddle`, `mag`). So nothing connects the
  pipeline to the mathematical DFT (roots of unity, trigonometric identities). The model
  stops at the structural facts: permutation, tiling, buffer roles, zero in / zero out.
- The single-tone and multi-tone detection properties are numeric and need the DFT; they
  are not stated.
- `fft.h` and `src/fft.h` hold only declarations and typedefs. Their widths appear as `U16`
  and `Digit`. The STM32 HAL header that `fft.h` includes is not part of this model;
  `src/fft.h` includes `<stdint.h>` instead.
- `test/test.c` is not part of this model.
- Concurrency: there is none in the source; only single-threaded calls are modelled.
- Pointer arithmetic: `buffers[k] + DFT_block` becomes an array plus an offset `off`. The
  butterflies require the two arrays to be distinct, as every call in `fft.c` makes them.
- `BitReversal.ReverseBits`: requires `num_bits <= 16`. Every call passes `bit_pos < 12`.
- Widths `w = 0` and `w >= 16` are outside the class's validity predicate (see above for 16).
- `Fft.FftState.FindFreq` takes any array of at least `N / 2` cells, as `find_freq` does.
  The arg-max facts are lemmas on `PeakBin` (`Peak.PeakBinIsLastPeak`); they need
  non-negative magnitudes, which `cabs` guarantees but an arbitrary `mag` does not.
