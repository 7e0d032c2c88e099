/** Scalar helpers of utils.h: comparison macros, clamping, range mapping,
    and C's float-to-int and unsigned conversions made explicit. */
module Utils {

  /** 2^32: the modulus of C's `unsigned int` arithmetic. */
  const UINT_RANGE: int := 0x1_0000_0000
  const UINT_MAX: int := 0xFFFF_FFFF

  /** PI and TAU: the double-precision constants, as reals. */
  const PI: real := 3.14159265358979323846
  const TAU: real := 2.0 * PI

  /** Conversion of any integer to `unsigned int` (reduction modulo 2^32). */
  function U32(x: int): (r: int)
    ensures 0 <= r < UINT_RANGE
    ensures 0 <= x < UINT_RANGE ==> r == x
  {
    x % UINT_RANGE
  }

  /** C's conversion of a float to an integer type: truncation toward zero. */
  function Trunc(x: real): (r: int)
    ensures 0.0 <= x ==> r == x.Floor
    ensures r as real <= x < r as real + 1.0 || r as real - 1.0 < x <= r as real
    ensures x < 0.0 ==> r <= 0
    ensures x < 0.0 ==> r as real - 1.0 < x <= r as real
  {
    if x >= 0.0 then x.Floor else -((-x).Floor)
  }

  /** Truncation is odd: it rounds x and -x toward zero alike. */
  lemma TruncNeg(x: real)
    ensures Trunc(-x) == -Trunc(x)
  {
    if x < 0.0 {
      assert -x > 0.0;
    } else if x > 0.0 {
      assert -x < 0.0;
      assert -(-x) == x;
    }
  }

  /** Truncation leaves x unchanged exactly when flooring does: when x is a
      whole number. */
  lemma TruncExact(x: real)
    ensures Trunc(x) as real == x <==> x.Floor as real == x
  {
    if x < 0.0 {
      var f := (-x).Floor;
      if f as real == -x {
        assert x.Floor == -f;
      }
    }
  }

  /** MIN(a, b) */
  function Min(a: real, b: real): (r: real)
    ensures r <= a && r <= b
    ensures r == a || r == b
  {
    if a < b then a else b
  }

  /** MAX(a, b) */
  function Max(a: real, b: real): (r: real)
    ensures a <= r && b <= r
    ensures r == a || r == b
  {
    if a > b then a else b
  }

  /** ABS(a) */
  function Abs(x: real): (r: real)
    ensures r >= 0.0 && (r == x || r == -x)
    ensures x >= 0.0 ==> r == x
  {
    if x < 0.0 then -x else x
  }

  /** CLIP(v, a, b): the lower bound is compared first, so for a > b the result is a or b. */
  function Clip(v: real, a: real, b: real): (r: real)
    ensures a <= b ==> a <= r <= b
    ensures a <= v <= b ==> r == v
    ensures r == a || r == b || r == v
  {
    if v < a then a else if v > b then b else v
  }

  /** Clamping is idempotent and monotone in its argument. */
  lemma ClipMonotone(v: real, w: real, a: real, b: real)
    requires a <= b
    requires v <= w
    ensures Clip(v, a, b) <= Clip(w, a, b)
    ensures Clip(Clip(v, a, b), a, b) == Clip(v, a, b)
  {
  }

  /** x is a whole multiple of the step r. */
  predicate OnGrid(x: real, r: real)
    requires r != 0.0
  {
    (x / r).Floor as real == x / r
  }

  /** nearest(v, r): r times floor(v / r); it floors, it does not round. */
  function Nearest(v: real, r: real): (n: real)
    requires r != 0.0
    ensures OnGrid(n, r)
    ensures r > 0.0 ==> n <= v < n + r
  {
    var k := (v / r).Floor;
    OnGridMultiple(r, k);
    if r > 0.0 then
      NearestBounds(v, r);
      r * k as real
    else
      r * k as real
  }

  /** Every whole multiple of a step lies on its grid. */
  lemma OnGridMultiple(r: real, k: int)
    requires r != 0.0
    ensures OnGrid(r * k as real, r)
  {
    MulDivCancel(r, k as real);
    var q := r * k as real / r;
    assert q == k as real;
    assert q.Floor == k;
  }

  /** The grid point below v is at most v and less than one step below it. */
  lemma NearestBounds(v: real, r: real)
    requires r > 0.0
    ensures r * (v / r).Floor as real <= v < r * (v / r).Floor as real + r
  {
    DivTimes(v, r);
    GridBounds(v, r, v / r, (v / r).Floor as real);
  }

  /** The bounds of NearestBounds, stated without division or floor. */
  lemma GridBounds(v: real, r: real, q: real, k: real)
    requires r > 0.0
    requires q * r == v
    requires k <= q < k + 1.0
    ensures r * k <= v < r * k + r
  {
    MulLt(q, k + 1.0, r);
    assert (k + 1.0) * r == r * k + r;
    assert k * r == r * k;
    Sandwich(v, q * r, k * r, r * k, (k + 1.0) * r, r);
  }

  /** The linear step that closes GridBounds. */
  lemma Sandwich(v: real, a: real, lo: real, lo': real, hi: real, r: real)
    requires a == v
    requires lo <= a
    requires lo == lo'
    requires a < hi
    requires hi == lo' + r
    ensures lo' <= v < lo' + r
  {
  }

  /** Division undone by multiplication. */
  lemma DivTimes(v: real, r: real)
    requires r != 0.0
    ensures (v / r) * r == v
  {
  }

  /** Multiplying both sides of an inequality by a non-negative factor. */
  lemma MulLeft(a: real, b: real, c: real)
    requires a <= b
    requires c >= 0.0
    ensures a * c <= b * c
  {
    assert b * c - a * c == (b - a) * c;
  }

  /** Multiplying both sides of a strict inequality by a positive factor. */
  lemma MulLt(a: real, b: real, c: real)
    requires a < b
    requires c > 0.0
    ensures a * c < b * c
  {
    assert b * c - a * c == (b - a) * c;
  }

  /** A fraction of a non-negative quantity lies between zero and the quantity. */
  lemma MulFraction(n: real, c: real)
    requires 0.0 <= n <= 1.0
    requires c >= 0.0
    ensures 0.0 <= n * c <= c
  {
    MulLeft(0.0, n, c);
    MulLeft(n, 1.0, c);
    assert 1.0 * c == c;
  }

  /** A value just below a grid point goes down, not to the closer grid point. */
  lemma NearestFloorsNotRounds()
    ensures Nearest(0.9, 1.0) == 0.0
    ensures Nearest(-0.1, 1.0) == -1.0
  {
  }

  /** scale: the affine map sending [inMin, inMax] onto [outMin, outMax]. */
  function Scale(x: real, inMin: real, inMax: real, outMin: real, outMax: real): (r: real)
    requires inMin != inMax
    ensures x == inMin ==> r == outMin
    ensures x == inMax ==> r == outMax
  {
    MulDivCancel(inMax - inMin, outMax - outMin);
    (x - inMin) * (outMax - outMin) / (inMax - inMin) + outMin
  }

  /** d a / d = a */
  lemma MulDivCancel(d: real, a: real)
    requires d != 0.0
    ensures d * a / d == a
  {
  }

  /** The affine map is exact at every point of the input range: the
      fraction travelled through the input range is the fraction travelled
      through the output range. */
  lemma ScaleProportional(x: real, inMin: real, inMax: real, outMin: real, outMax: real)
    requires inMin != inMax
    ensures (Scale(x, inMin, inMax, outMin, outMax) - outMin) * (inMax - inMin)
         == (x - inMin) * (outMax - outMin)
  {
  }

  /** clip_scale: scale, then clamp into the output range. */
  function ClipScale(x: real, inMin: real, inMax: real, outMin: real, outMax: real): (r: real)
    requires inMin != inMax
    ensures outMin <= outMax ==> outMin <= r <= outMax
    ensures outMin <= Scale(x, inMin, inMax, outMin, outMax) <= outMax ==> r == Scale(x, inMin, inMax, outMin, outMax)
  {
    Clip(Scale(x, inMin, inMax, outMin, outMax), outMin, outMax)
  }

  /** bi2norm: [-1, 1] to [0, 1]. */
  function Bi2Norm(b: real): (n: real)
    ensures -1.0 <= b <= 1.0 ==> 0.0 <= n <= 1.0
  {
    (b + 1.0) * 0.5
  }

  /** norm2bi: [0, 1] to [-1, 1]. */
  function Norm2Bi(n: real): (b: real)
    ensures 0.0 <= n <= 1.0 ==> -1.0 <= b <= 1.0
    ensures n == 0.5 ==> b == 0.0
  {
    n * 2.0 - 1.0
  }

  /** bi2norm and norm2bi undo each other, in both orders. */
  lemma BiNormInverse(b: real, n: real)
    ensures Norm2Bi(Bi2Norm(b)) == b
    ensures Bi2Norm(Norm2Bi(n)) == n
  {
  }

  /** scale_norm: [0, 1] onto [min, max]. */
  function ScaleNorm(n: real, min: real, max: real): (r: real)
    ensures n == 0.0 ==> r == min
    ensures n == 1.0 ==> r == max
  {
    n * (max - min) + min
  }

  /** scale_norm maps [0, 1] into [min, max]. */
  lemma ScaleNormInRange(n: real, min: real, max: real)
    requires min <= max && 0.0 <= n <= 1.0
    ensures min <= ScaleNorm(n, min, max) <= max
  {
    MulFraction(n, max - min);
  }

  /** scale_bi: [-1, 1] onto [min, max], through bi2norm. */
  function ScaleBi(b: real, min: real, max: real): (r: real)
    ensures b == -1.0 ==> r == min
    ensures b == 1.0 ==> r == max
    ensures b == 0.0 ==> r == (min + max) / 2.0
  {
    ScaleNorm(Bi2Norm(b), min, max)
  }

  /** scale_bi is the affine map of [-1, 1] onto [min, max], and keeps
      [-1, 1] inside [min, max]. */
  lemma ScaleBiIsScale(b: real, min: real, max: real)
    ensures ScaleBi(b, min, max) == Scale(b, -1.0, 1.0, min, max)
    ensures min <= max && -1.0 <= b <= 1.0 ==> min <= ScaleBi(b, min, max) <= max
  {
    assert (b + 1.0) * (max - min) / 2.0 == (b + 1.0) * 0.5 * (max - min);
    if min <= max && -1.0 <= b <= 1.0 {
      ScaleNormInRange(Bi2Norm(b), min, max);
    }
  }

  /** contains: point (x2, y2) in the rectangle at (x1, y1) of size w by h, edges included. */
  function Contains(x1: real, y1: real, w: real, h: real, x2: real, y2: real): (r: bool)
  {
    x1 <= x2 && x2 <= x1 + w && y1 <= y2 && y2 <= y1 + h
  }

  /** All four corners of a rectangle with non-negative size lie inside it. */
  lemma ContainsCorners(x1: real, y1: real, w: real, h: real)
    requires w >= 0.0 && h >= 0.0
    ensures Contains(x1, y1, w, h, x1, y1)
    ensures Contains(x1, y1, w, h, x1 + w, y1)
    ensures Contains(x1, y1, w, h, x1, y1 + h)
    ensures Contains(x1, y1, w, h, x1 + w, y1 + h)
    ensures !Contains(x1, y1, w, h, x1 + w + 1.0, y1)
    ensures !Contains(x1, y1, w, h, x1, y1 - 1.0)
  {
  }
}
