/**
 * Exact-real stand-ins for the `f32` and cast operations the waveshaper uses.
 * Positions and amplitudes are `real`; NaN and rounding are not modelled.
 */
module RealMath {

  /** Rust's `f32::trunc`: rounds toward zero. */
  function Trunc(x: real): (r: int)
    ensures 0.0 <= x ==> r as real <= x < r as real + 1.0
    ensures x < 0.0 ==> r as real - 1.0 < x <= r as real
  {
    if 0.0 <= x then x.Floor else -((-x).Floor)
  }

  /** Rust's `f32::fract`: the part of `x` after truncation toward zero. */
  function Fract(x: real): (r: real)
    ensures 0.0 <= x ==> 0.0 <= r < 1.0
    ensures x < 0.0 ==> -1.0 < r <= 0.0
    ensures (x - r).Floor as real == x - r
  {
    x - Trunc(x) as real
  }

  /** Rust's saturating float-to-`usize` cast, applied to an already floored value. */
  function SaturatingUsize(x: int): (r: nat)
    ensures 0 <= x ==> r == x
    ensures x < 0 ==> r == 0
  {
    if x < 0 then 0 else x
  }

  /** `(pos * len as f32).floor() as usize`: the frame at which a wave position falls. */
  function FrameIndex(pos: real, len: nat): (r: nat)
    ensures r == 0 || r as real <= Scaled(pos, len)
    ensures Scaled(pos, len) < r as real + 1.0
  {
    SaturatingUsize(Scaled(pos, len).Floor)
  }

  /**
   * `pos * len`, written as `len` repeated additions so that the solver unfolds the
   * product only where a proof asks for it; ScaledIsProduct equates the two.
   */
  function Scaled(pos: real, len: nat): real
  {
    if len == 0 then 0.0 else Scaled(pos, len - 1) + pos
  }

  lemma {:induction false} ScaledIsProduct(pos: real, len: nat)
    ensures Scaled(pos, len) == pos * len as real
  {
    if len > 0 {
      ScaledIsProduct(pos, len - 1);
    }
  }

  lemma FrameIndexMonotone(p: real, q: real, len: nat)
    requires p <= q
    ensures FrameIndex(p, len) <= FrameIndex(q, len)
  {
    ScaledIsProduct(p, len);
    ScaledIsProduct(q, len);
    MulNonNegative(q - p, len as real);
    assert (q - p) * len as real == q * len as real - p * len as real;
  }

  lemma FrameIndexBounds(p: real, len: nat)
    ensures p <= 0.0 ==> FrameIndex(p, len) == 0
    ensures p <= 1.0 ==> FrameIndex(p, len) <= len
    ensures p == 1.0 ==> FrameIndex(p, len) == len
  {
    ScaledIsProduct(p, len);
    if p <= 0.0 {
      MulNonNegative(-p, len as real);
    }
    if p <= 1.0 {
      MulNonNegative(1.0 - p, len as real);
    }
  }

  /** Linear interpolation `a * (1 - p) + b * p`. */
  function Lerp(a: real, b: real, p: real): real
  {
    a * (1.0 - p) + b * p
  }

  lemma MulNonNegative(x: real, y: real)
    requires 0.0 <= x && 0.0 <= y
    ensures 0.0 <= x * y
  {
  }

  /** A quotient of a value below a positive divisor lies below 1. */
  lemma QuotientBelowOne(x: real, w: real)
    requires 0.0 < w && x < w
    ensures x / w < 1.0
  {
    assert x / w * w == x;
  }

  function Min(a: real, b: real): real { if a <= b then a else b }
  function Max(a: real, b: real): real { if a <= b then b else a }

  /** For a progress in [0, 1] the interpolated value lies between the two endpoints. */
  lemma LerpBetween(a: real, b: real, p: real)
    requires 0.0 <= p <= 1.0
    ensures Min(a, b) <= Lerp(a, b, p) <= Max(a, b)
  {
    assert Lerp(a, b, p) == a + (b - a) * p;
    MulNonNegative(if a <= b then b - a else a - b, p);
    MulNonNegative(if a <= b then b - a else a - b, 1.0 - p);
    assert (b - a) * p + (b - a) * (1.0 - p) == b - a;
  }
}
