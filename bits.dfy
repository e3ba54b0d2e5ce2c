// `reverse_bits` of fft.c: the twiddle index of a block is its position within the
// stage, read with its low bits in reverse order.
module BitReversal {
  import opened Arith
  import opened Samples

  /**
   * The `numBits` least significant bits of `x` in reverse order: bit `i` of `x`
   * lands at position `numBits - 1 - i`; bits at or above `numBits` are ignored.
   */
  function Reversed(x: nat, numBits: nat): nat
    decreases numBits
  {
    if numBits == 0 then 0
    else (if x % 2 == 1 then Pow2(numBits - 1) else 0) + Reversed(x / 2, numBits - 1)
  }

  /** The reversal fits in `numBits` bits. */
  lemma {:induction false} ReversedBound(x: nat, numBits: nat)
    ensures Reversed(x, numBits) < Pow2(numBits)
  {
    if numBits > 0 {
      ReversedBound(x / 2, numBits - 1);
    }
  }

  /** Only the low `numBits` bits of the input matter. */
  lemma {:induction false} ReversedLowBitsOnly(x: nat, numBits: nat)
    ensures Reversed(x % Pow2(numBits), numBits) == Reversed(x, numBits)
  {
    if numBits > 0 {
      ModPow2First(x, numBits - 1);
      ReversedLowBitsOnly(x / 2, numBits - 1);
    }
  }

  /**
   * Reversing `numBits` bits moves bit `numBits - 1` to position 0 and shifts the
   * reversal of the lower `numBits - 1` bits up by one.
   */
  lemma {:induction false} ReversedTop(x: nat, numBits: nat)
    requires numBits >= 1
    ensures Reversed(x, numBits) == 2 * Reversed(x, numBits - 1) + Shr(x, numBits - 1) % 2
  {
    if numBits >= 2 {
      ReversedTop(x / 2, numBits - 1);
      ShrHalveFirst(x, numBits - 2);
    }
  }

  /** Reversing twice with the same width gives back the low `numBits` bits. */
  lemma {:induction false} ReversedInvolution(x: nat, numBits: nat)
    ensures Reversed(Reversed(x, numBits), numBits) == x % Pow2(numBits)
  {
    if numBits > 0 {
      var y, r := Reversed(x, numBits), Reversed(x, numBits - 1);
      var b := Shr(x, numBits - 1) % 2;
      assert y % 2 == b && y / 2 == r by {
        ReversedTop(x, numBits);
      }
      ReversedInvolution(x, numBits - 1);
      ModPow2Last(x, numBits - 1);
    }
  }

  /** One iteration of reverse_bits: bit `i` of `x` is the next one placed. */
  lemma ReversedStep(x: nat, numBits: nat, i: nat)
    requires i < numBits
    ensures Reversed(Shr(x, i), numBits - i)
         == Shl(Shr(x, i) % 2, numBits - 1 - i) + Reversed(Shr(x, i + 1), numBits - (i + 1))
  {
    ShrHalveLast(x, i);
    var p := Pow2(numBits - 1 - i);
    assert Shl(Shr(x, i) % 2, numBits - 1 - i) == if Shr(x, i) % 2 == 1 then p else 0;
  }

  /**
   * reverse_bits(input, num_bits). The source ORs bit `i` of the input into
   * position `num_bits - 1 - i`; that position is still clear in `output` (only
   * positions above it have been filled), so the OR is the addition written here.
   * The result is then converted to a sample by the caller.
   */
  method ReverseBits(input: U16, numBits: U16) returns (r: U16)
    requires numBits <= 16
    ensures r == Reversed(input, numBits)
  {
    // the 16-bit `output` never wraps: it stays below the result, which is below 2^num_bits <= 2^16
    ReversedBound(input, numBits);
    Pow2Monotonic(numBits, 16);
    Pow2Values();
    var output: U16 := 0;
    var i: U16 := 0;
    while i < numBits
      invariant i <= numBits
      invariant output + Reversed(Shr(input, i), numBits - i) == Reversed(input, numBits)
    {
      ReversedStep(input, numBits, i);
      output := output + Shl(Shr(input, i) % 2, numBits - 1 - i);
      i := i + 1;
    }
    assert i == numBits;
    r := output;
  }
}
