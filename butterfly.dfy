// The two butterfly operations of fft.c: `butterfly_straight` (an even/odd
// de-interleave) and `butterfly_twiddle` (the sum/difference combine with one twiddle
// factor). Each reads a block of one buffer and writes the same block of the other.
module ButterflySpec {
  import opened Samples

  /**
   * What `butterfly_straight` makes of a block: the even-indexed samples, then the
   * odd-indexed ones. Its loop runs for i < num_elem / 2, so for an odd block size the
   * last sample is not copied and the result is one shorter than the block.
   */
  function Deinterleave(t: seq<Complex>): (r: seq<Complex>)
  {
    var h := |t| / 2;
    seq(2 * h, i requires 0 <= i < 2 * h => if i < h then t[2 * i] else t[2 * (i - h) + 1])
  }

  /** The inverse reordering: the lower half goes to even positions, the upper half to odd ones. */
  function Interleave(u: seq<Complex>): (r: seq<Complex>)
    requires |u| % 2 == 0
  {
    seq(|u|, j requires 0 <= j < |u| => if j % 2 == 0 then u[j / 2] else u[|u| / 2 + j / 2])
  }

  /**
   * What `butterfly_twiddle` makes of a block, for the twiddle factor `w`: output `i`
   * is the sum, output `num_elem / 2 + i` the difference, of input `2i` and input
   * `2i + 1` times `w`. As for Deinterleave, an odd last sample is dropped.
   */
  function TwiddleBlock(t: seq<Complex>, w: Complex): (r: seq<Complex>)
  {
    var h := |t| / 2;
    seq(2 * h, i requires 0 <= i < 2 * h =>
      if i < h then Add(t[2 * i], Mul(t[2 * i + 1], w))
      else Sub(t[2 * (i - h)], Mul(t[2 * (i - h) + 1], w)))
  }

  /** Output `i` and `num_elem/2 + i` of the straight butterfly are inputs `2i` and `2i+1`. */
  lemma DeinterleaveAt(t: seq<Complex>, i: nat)
    requires i < |t| / 2
    ensures |Deinterleave(t)| == 2 * (|t| / 2)
    ensures Deinterleave(t)[i] == t[2 * i] && Deinterleave(t)[|t| / 2 + i] == t[2 * i + 1]
  {
  }

  /** The straight butterfly loses nothing: interleaving undoes it. */
  lemma InterleaveUndoesDeinterleave(t: seq<Complex>)
    requires |t| % 2 == 0
    ensures Interleave(Deinterleave(t)) == t
  {
    var d := Deinterleave(t);
    var h := |t| / 2;
    forall j | 0 <= j < |t|
      ensures Interleave(d)[j] == t[j]
    {
      var k := j / 2;
      if j % 2 == 0 {
        assert j == 2 * k && k < h;
        assert Interleave(d)[j] == d[k] == t[j];
      } else {
        assert j == 2 * k + 1 && k < h;
        assert Interleave(d)[j] == d[h + k] == t[j];
      }
    }
  }

  /** ... and the straight butterfly undoes interleaving, so it is a bijection. */
  lemma DeinterleaveUndoesInterleave(u: seq<Complex>)
    requires |u| % 2 == 0
    ensures Deinterleave(Interleave(u)) == u
  {
    var e := Interleave(u);
    var h := |u| / 2;
    forall i | 0 <= i < |u|
      ensures Deinterleave(e)[i] == u[i]
    {
      if i < h {
        var k := 2 * i;
        assert k % 2 == 0 && k / 2 == i;
        assert Deinterleave(e)[i] == e[k] == u[i];
      } else {
        var k := 2 * (i - h) + 1;
        assert k % 2 == 1 && k / 2 == i - h;
        assert Deinterleave(e)[i] == e[k] == u[i];
      }
    }
  }

  /** The samples at even positions, in order. */
  function Evens(t: seq<Complex>): (r: seq<Complex>)
    requires |t| % 2 == 0
    decreases |t|
  {
    if t == [] then [] else [t[0]] + Evens(t[2..])
  }

  /** The samples at odd positions, in order. */
  function Odds(t: seq<Complex>): (r: seq<Complex>)
    requires |t| % 2 == 0
    decreases |t|
  {
    if t == [] then [] else [t[1]] + Odds(t[2..])
  }

  lemma {:induction false} EvensOddsLength(t: seq<Complex>)
    requires |t| % 2 == 0
    ensures |Evens(t)| == |t| / 2 && |Odds(t)| == |t| / 2
    decreases |t|
  {
    if t != [] {
      EvensOddsLength(t[2..]);
    }
  }

  lemma {:induction false} EvensAt(t: seq<Complex>, i: nat)
    requires |t| % 2 == 0 && i < |t| / 2
    ensures |Evens(t)| == |t| / 2 && Evens(t)[i] == t[2 * i]
    decreases i
  {
    EvensOddsLength(t);
    if i > 0 {
      EvensAt(t[2..], i - 1);
      assert Evens(t) == [t[0]] + Evens(t[2..]);
    }
  }

  lemma {:induction false} OddsAt(t: seq<Complex>, i: nat)
    requires |t| % 2 == 0 && i < |t| / 2
    ensures |Odds(t)| == |t| / 2 && Odds(t)[i] == t[2 * i + 1]
    decreases i
  {
    EvensOddsLength(t);
    if i > 0 {
      OddsAt(t[2..], i - 1);
      assert Odds(t) == [t[1]] + Odds(t[2..]);
    }
  }

  lemma EvensFirst(t: seq<Complex>)
    requires |t| % 2 == 0 && t != []
    ensures multiset(Evens(t)) == multiset([t[0]]) + multiset(Evens(t[2..]))
  {
    assert Evens(t) == [t[0]] + Evens(t[2..]);
  }

  lemma OddsFirst(t: seq<Complex>)
    requires |t| % 2 == 0 && t != []
    ensures multiset(Odds(t)) == multiset([t[1]]) + multiset(Odds(t[2..]))
  {
    assert Odds(t) == [t[1]] + Odds(t[2..]);
  }

  lemma FirstTwo(t: seq<Complex>)
    requires |t| >= 2
    ensures multiset(t) == multiset([t[0]]) + multiset([t[1]]) + multiset(t[2..])
  {
    assert t == [t[0]] + [t[1]] + t[2..];
  }

  lemma {:induction false} EvensOddsMultiset(t: seq<Complex>)
    requires |t| % 2 == 0
    ensures multiset(Evens(t)) + multiset(Odds(t)) == multiset(t)
    decreases |t|
  {
    if t != [] {
      EvensOddsMultiset(t[2..]);
      EvensFirst(t);
      OddsFirst(t);
      FirstTwo(t);
    }
  }

  /** For an even block size the straight butterfly is a permutation of the block. */
  lemma DeinterleavePermutes(t: seq<Complex>)
    requires |t| % 2 == 0
    ensures multiset(Deinterleave(t)) == multiset(t)
  {
    var h := |t| / 2;
    EvensOddsLength(t);
    forall i | 0 <= i < |t|
      ensures Deinterleave(t)[i] == (Evens(t) + Odds(t))[i]
    {
      if i < h {
        EvensAt(t, i);
      } else {
        OddsAt(t, i - h);
      }
    }
    assert Deinterleave(t) == Evens(t) + Odds(t);
    EvensOddsMultiset(t);
  }

  /**
   * The twiddle butterfly is recoverable from its outputs: the sum of outputs `i` and
   * `num_elem/2 + i` is twice input `2i`, their difference twice input `2i+1` times `w`.
   */
  lemma TwiddleBlockSumDifference(t: seq<Complex>, w: Complex)
    requires |t| % 2 == 0
    ensures |TwiddleBlock(t, w)| == |t|
    ensures forall i :: 0 <= i < |t| / 2 ==>
      Add(TwiddleBlock(t, w)[i], TwiddleBlock(t, w)[|t| / 2 + i]) == Scale(2.0, t[2 * i]) &&
      Sub(TwiddleBlock(t, w)[i], TwiddleBlock(t, w)[|t| / 2 + i]) == Scale(2.0, Mul(t[2 * i + 1], w))
  {
    var r, h := TwiddleBlock(t, w), |t| / 2;
    forall i | 0 <= i < h
      ensures Add(r[i], r[h + i]) == Scale(2.0, t[2 * i]) && Sub(r[i], r[h + i]) == Scale(2.0, Mul(t[2 * i + 1], w))
    {
      var a, m := t[2 * i], Mul(t[2 * i + 1], w);
      assert r[i] == Add(a, m);
      assert r[h + i] == Sub(a, m);
    }
  }

  /** An all-zero block stays all-zero under either butterfly. */
  lemma ButterfliesKeepZero(t: seq<Complex>, w: Complex)
    requires AllZero(t)
    ensures AllZero(Deinterleave(t)) && AllZero(TwiddleBlock(t, w))
  {
  }

  /** `s` with the cells from `off` on replaced by `t`. */
  function Splice(s: seq<Complex>, off: nat, t: seq<Complex>): (r: seq<Complex>)
    requires off + |t| <= |s|
  {
    s[.. off] + t + s[off + |t| ..]
  }

  /** A splice changes exactly the cells `off .. off + |t|`, which then hold `t`. */
  lemma SpliceParts(s: seq<Complex>, off: nat, t: seq<Complex>)
    requires off + |t| <= |s|
    ensures |Splice(s, off, t)| == |s|
    ensures Splice(s, off, t)[off .. off + |t|] == t
    ensures forall k :: 0 <= k < |s| && !(off <= k < off + |t|) ==> Splice(s, off, t)[k] == s[k]
  {
  }

  /**
   * The destination of a butterfly after `i` iterations, starting from `before`:
   * iteration `j` stores `result[j]` at `off + j` and `result[half + j]` at
   * `off + half + j`.
   */
  function Filled(before: seq<Complex>, result: seq<Complex>, off: nat, half: nat, i: nat): (r: seq<Complex>)
    requires i <= half && off + 2 * half <= |before| && |result| == 2 * half
    ensures |r| == |before|
    decreases i
  {
    if i == 0 then before
    else Filled(before, result, off, half, i - 1)[off + i - 1 := result[i - 1]][off + half + i - 1 := result[half + i - 1]]
  }

  /** After `i` iterations, the cells written so far hold `result`, all others `before`. */
  lemma {:induction false} FilledAt(before: seq<Complex>, result: seq<Complex>, off: nat, half: nat, i: nat, k: nat)
    requires i <= half && off + 2 * half <= |before| && |result| == 2 * half && k < |before|
    ensures Filled(before, result, off, half, i)[k]
         == if off <= k < off + i || off + half <= k < off + half + i then result[k - off] else before[k]
    decreases i
  {
    if i > 0 {
      FilledAt(before, result, off, half, i - 1, k);
    }
  }

  /** Iteration `i` stores the next two cells. */
  lemma FilledStep(before: seq<Complex>, result: seq<Complex>, off: nat, half: nat, i: nat)
    requires i < half && off + 2 * half <= |before| && |result| == 2 * half
    ensures Filled(before, result, off, half, i + 1)
         == Filled(before, result, off, half, i)[off + i := result[i]][off + half + i := result[half + i]]
  {
  }

  /** After all `half` iterations the block at `off` holds `result` and nothing else changed. */
  lemma FilledDone(before: seq<Complex>, result: seq<Complex>, off: nat, half: nat)
    requires off + 2 * half <= |before| && |result| == 2 * half
    ensures Filled(before, result, off, half, half) == Splice(before, off, result)
  {
    forall k | 0 <= k < |before|
      ensures Filled(before, result, off, half, half)[k] == Splice(before, off, result)[k]
    {
      FilledAt(before, result, off, half, half, k);
    }
  }

  /** For a block of `2 * half` samples: output `i` and `half + i` of the straight butterfly. */
  lemma DeinterleaveEvenAt(t: seq<Complex>, half: nat, i: nat)
    requires |t| == 2 * half && i < half
    ensures |Deinterleave(t)| == 2 * half
    ensures Deinterleave(t)[i] == t[2 * i] && Deinterleave(t)[half + i] == t[2 * i + 1]
  {
    assert |t| / 2 == half;
    DeinterleaveAt(t, i);
  }

  /** For a block of `2 * half` samples: output `i` and `half + i` of the twiddle butterfly. */
  lemma TwiddleBlockEvenAt(t: seq<Complex>, w: Complex, half: nat, i: nat)
    requires |t| == 2 * half && i < half
    ensures |TwiddleBlock(t, w)| == 2 * half
    ensures TwiddleBlock(t, w)[i] == Add(t[2 * i], Mul(t[2 * i + 1], w))
    ensures TwiddleBlock(t, w)[half + i] == Sub(t[2 * i], Mul(t[2 * i + 1], w))
  {
    assert |t| / 2 == half;
    TwiddleBlockAt(t, w, i);
  }

  /** Both butterflies map a block of `2 * half` samples to `2 * half` samples. */
  lemma ButterflyLengths(t: seq<Complex>, w: Complex, half: nat)
    requires |t| == 2 * half
    ensures |Deinterleave(t)| == 2 * half && |TwiddleBlock(t, w)| == 2 * half
  {
    assert |t| / 2 == half;
  }

  /** The straight butterfly ignores an odd last sample. */
  lemma DeinterleaveDropsOdd(t: seq<Complex>, half: nat)
    requires half == |t| / 2
    ensures 2 * half <= |t| && Deinterleave(t) == Deinterleave(t[.. 2 * half])
  {
    assert |t[.. 2 * half]| / 2 == half;
  }

  /** The twiddle butterfly ignores an odd last sample. */
  lemma TwiddleBlockDropsOdd(t: seq<Complex>, w: Complex, half: nat)
    requires half == |t| / 2
    ensures 2 * half <= |t| && TwiddleBlock(t, w) == TwiddleBlock(t[.. 2 * half], w)
  {
    assert |t[.. 2 * half]| / 2 == half;
  }

  /** Output `i` and `num_elem/2 + i` of the twiddle butterfly. */
  lemma TwiddleBlockAt(t: seq<Complex>, w: Complex, i: nat)
    requires i < |t| / 2
    ensures |TwiddleBlock(t, w)| == 2 * (|t| / 2)
    ensures TwiddleBlock(t, w)[i] == Add(t[2 * i], Mul(t[2 * i + 1], w))
    ensures TwiddleBlock(t, w)[|t| / 2 + i] == Sub(t[2 * i], Mul(t[2 * i + 1], w))
  {
  }
}

module Butterflies {
  import opened Samples
  import opened ButterflySpec

  /** The two stores of one loop iteration, `out[i]` and then `out[num_elem / 2 + i]`. */
  method StorePair(dst: array<Complex>, p: nat, q: nat, upper: Complex, lower: Complex)
    requires p < q < dst.Length
    modifies dst
    ensures dst[..] == old(dst[..])[p := upper][q := lower]
  {
    dst[p] := upper;
    dst[q] := lower;
  }

  /** Iteration `i` of butterfly_straight's loop over the block of `2 * half` samples at `off`. */
  method StraightIteration(src: array<Complex>, dst: array<Complex>, off: nat, half: nat, i: nat,
                           ghost before: seq<Complex>, ghost result: seq<Complex>)
    requires src != dst && i < half && off + 2 * half <= src.Length && off + 2 * half <= dst.Length
    requires |before| == dst.Length && result == Deinterleave(src[off .. off + 2 * half])
    requires dst[..] == Filled(before, result, off, half, i)
    modifies dst
    ensures dst[..] == Filled(before, result, off, half, i + 1)
  {
    DeinterleaveEvenAt(src[off .. off + 2 * half], half, i);
    FilledStep(before, result, off, half, i);
    StorePair(dst, off + i, off + half + i, src[off + 2 * i], src[off + 2 * i + 1]);
  }

  /**
   * butterfly_straight(in, out, num_elem), with `in` and `out` the blocks of `src`
   * and `dst` that start at `off`: it writes the first 2 * (num_elem / 2) cells of the
   * block and nothing else. The counter stays below num_elem / 2 < 2^15, so its
   * `count_t` type never wraps.
   */
  method ButterflyStraight(src: array<Complex>, dst: array<Complex>, off: nat, numElem: U16)
    requires src != dst
    requires off + numElem <= src.Length && off + numElem <= dst.Length
    modifies dst
    ensures dst[..] == Splice(old(dst[..]), off, Deinterleave(src[off .. off + numElem]))
  {
    var half := numElem / 2;
    DeinterleaveDropsOdd(src[off .. off + numElem], half);
    ghost var block := src[off .. off + 2 * half];
    assert block == src[off .. off + numElem][.. 2 * half];
    ghost var result := Deinterleave(block);
    ButterflyLengths(block, Zero, half);
    ghost var before := dst[..];
    var i: U16 := 0;
    while i < half
      invariant i <= half
      invariant src[off .. off + 2 * half] == block
      invariant dst[..] == Filled(before, result, off, half, i)
    {
      StraightIteration(src, dst, off, half, i, before, result);
      i := i + 1;
    }
    assert i == half;
    FilledDone(before, result, off, half);
  }

  /** Iteration `i` of butterfly_twiddle's loop over the block of `2 * half` samples at `off`. */
  method TwiddleIteration(src: array<Complex>, dst: array<Complex>, off: nat, half: nat, i: nat, w: Complex,
                          ghost before: seq<Complex>, ghost result: seq<Complex>)
    requires src != dst && i < half && off + 2 * half <= src.Length && off + 2 * half <= dst.Length
    requires |before| == dst.Length && result == TwiddleBlock(src[off .. off + 2 * half], w)
    requires dst[..] == Filled(before, result, off, half, i)
    modifies dst
    ensures dst[..] == Filled(before, result, off, half, i + 1)
  {
    var even, odd := src[off + 2 * i], src[off + 2 * i + 1];
    TwiddleBlockEvenAt(src[off .. off + 2 * half], w, half, i);
    FilledStep(before, result, off, half, i);
    StorePair(dst, off + i, off + half + i, Add(even, Mul(odd, w)), Sub(even, Mul(odd, w)));
  }

  /**
   * butterfly_twiddle(in, out, twiddle_N, num_elem). `twiddle` stands for the map
   * f |-> cexp(-tau * I * f). The source evaluates it twice per iteration, always at
   * the same `twiddle_N`; as the map is a function, it is evaluated once here, and one
   * factor serves the whole block.
   */
  method ButterflyTwiddle(src: array<Complex>, dst: array<Complex>, off: nat, twiddleN: real,
                          numElem: U16, twiddle: real -> Complex)
    requires src != dst
    requires off + numElem <= src.Length && off + numElem <= dst.Length
    modifies dst
    ensures dst[..] == Splice(old(dst[..]), off, TwiddleBlock(src[off .. off + numElem], twiddle(twiddleN)))
  {
    var half := numElem / 2;
    var w := twiddle(twiddleN);
    TwiddleBlockDropsOdd(src[off .. off + numElem], w, half);
    ghost var block := src[off .. off + 2 * half];
    assert block == src[off .. off + numElem][.. 2 * half];
    ghost var result := TwiddleBlock(block, w);
    ButterflyLengths(block, w, half);
    ghost var before := dst[..];
    var i: U16 := 0;
    while i < half
      invariant i <= half
      invariant src[off .. off + 2 * half] == block
      invariant dst[..] == Filled(before, result, off, half, i)
    {
      TwiddleIteration(src, dst, off, half, i, w, before, result);
      i := i + 1;
    }
    assert i == half;
    FilledDone(before, result, off, half);
  }
}
