// The value types of fft.h: samples (`sample_t`, a complex number), raw digitised
// inputs (`dig_t`) and the 16-bit counter type (`count_t`).
module Samples {

  /** An unsigned 16-bit integer: `count_t` and `dig_t` are both `uint16_t`. */
  type U16 = x: int | 0 <= x < 0x1_0000

  /** The conversion of a non-negative int to `uint8_t`: its value modulo 256. */
  function ToU8(x: nat): (r: nat)
    ensures r < 0x100
  {
    x % 0x100
  }

  /** The conversion to `uint8_t` keeps a value below 256. */
  lemma ToU8Keeps(x: nat)
    requires x < 0x100
    ensures ToU8(x) == x
  {
  }

  /** A raw digitised input sample, in [0, 65535]. */
  type Digit = U16

  /**
   * A sample. The source uses single-precision `float complex`; the model uses
   * exact reals, so rounding is not modelled.
   */
  datatype Complex = Complex(re: real, im: real)

  const Zero: Complex := Complex(0.0, 0.0)

  function Add(a: Complex, b: Complex): Complex
  {
    Complex(a.re + b.re, a.im + b.im)
  }

  function Sub(a: Complex, b: Complex): Complex
  {
    Complex(a.re - b.re, a.im - b.im)
  }

  function Mul(a: Complex, b: Complex): Complex
  {
    Complex(a.re * b.re - a.im * b.im, a.re * b.im + a.im * b.re)
  }

  function Scale(k: real, a: Complex): Complex
  {
    Complex(k * a.re, k * a.im)
  }

  /** Every sample of `s` is zero. */
  ghost predicate AllZero(s: seq<Complex>)
  {
    forall i :: 0 <= i < |s| ==> s[i] == Zero
  }
}
