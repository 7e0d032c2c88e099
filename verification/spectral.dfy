/** The spectral helpers of the STFT pitch shifter in compakt.c: the
    analysis window, phase wrapping, the shift control and the bin remap.
    The transforms and the polar conversions around them are not modelled. */
module Spectral {
  import opened Utils
  import Fft
  import Ring

  const N: nat := Fft.SIZE
  const HALF: nat := Fft.HALF_SIZE

  /** window: the parabola 1 - (1 - 2 i / (N - 1))^2 over one frame. */
  function Window(i: int): (w: real)
    ensures 0 <= i <= N - 1 ==> 0.0 <= w <= 1.0
  {
    var x := 1.0 - 2.0 * i as real / (N - 1) as real;
    if 0 <= i <= N - 1 then
      SquareAtMostOne(x);
      1.0 - x * x
    else
      1.0 - x * x
  }

  /** The window is zero at both ends of the frame. */
  lemma WindowEnds()
    ensures Window(0) == 0.0
    ensures Window(N - 1) == 0.0
  {
  }

  /** The window is symmetric about the middle of the frame. */
  lemma WindowSymmetric(i: int)
    ensures Window(i) == Window(N - 1 - i)
  {
    var x := 1.0 - 2.0 * i as real / (N - 1) as real;
    assert 1.0 - 2.0 * (N - 1 - i) as real / (N - 1) as real == -x;
  }

  lemma SquareAtMostOne(x: real)
    requires -1.0 <= x <= 1.0
    ensures 0.0 <= x * x <= 1.0
  {
    if x >= 0.0 {
      MulFraction(x, x);
    } else {
      MulFraction(-x, -x);
      assert (-x) * (-x) == x * x;
    }
  }

  /** fmodf: the remainder of a / b with the quotient truncated toward
      zero, so the result takes the sign of a and is smaller than |b|. */
  function Fmod(a: real, b: real): (r: real)
    requires b != 0.0
    ensures a >= 0.0 ==> 0.0 <= r < Abs(b)
    ensures a <= 0.0 ==> -Abs(b) < r <= 0.0
    ensures -Abs(b) < a < Abs(b) ==> r == a
  {
    var c := Abs(b);
    FmodSign(a, b);
    FmodPositive(a, c);
    a - b * Trunc(a / b) as real
  }

  /** The sign of the divisor does not matter to fmodf. */
  lemma FmodSign(a: real, b: real)
    requires b != 0.0
    ensures b * Trunc(a / b) as real == Abs(b) * Trunc(a / Abs(b)) as real
  {
    if b < 0.0 {
      var c := -b;
      var t := Trunc(a / c) as real;
      DivNegate(a, c);
      TruncNeg(a / c);
      assert Trunc(a / b) as real == -t;
      assert b * -t == c * t;
    }
  }

  /** fmodf by a positive divisor c. */
  lemma FmodPositive(a: real, c: real)
    requires c > 0.0
    ensures var r := a - c * Trunc(a / c) as real;
      && (a >= 0.0 ==> 0.0 <= r < c)
      && (a <= 0.0 ==> -c < r <= 0.0)
      && (-c < a < c ==> r == a)
  {
    if a >= 0.0 {
      FmodNonNeg(a, c);
    } else {
      FmodNonNeg(-a, c);
      var t := Trunc((-a) / c);
      DivNegate(-a, c);
      TruncNeg((-a) / c);
      assert Trunc(a / c) == -t;
      assert a - c * Trunc(a / c) as real == -((-a) - c * t as real);
    }
  }

  /** fmodf of a non-negative dividend by a positive divisor. */
  lemma FmodNonNeg(a: real, c: real)
    requires a >= 0.0 && c > 0.0
    ensures var r := a - c * Trunc(a / c) as real;
      && 0.0 <= r < c
      && (a < c ==> r == a)
  {
    DivNonNeg(a, c);
    NearestBounds(a, c);
    FmodSmall(a, c);
  }

  /** Negating either the dividend or the divisor negates the quotient. */
  lemma DivNegate(a: real, c: real)
    requires c != 0.0
    ensures (-a) / c == -(a / c)
    ensures a / (-c) == -(a / c)
  {
    var q := a / c;
    DivTimes(a, c);
    DivUnique(-a, c, -q);
    DivUnique(a, -c, -q);
  }

  /** The quotient is the one factor that multiplies back to the dividend. */
  lemma DivUnique(a: real, c: real, q: real)
    requires c != 0.0 && q * c == a
    ensures a / c == q
  {
  }

  /** A non-negative quotient of a non-negative dividend by a positive divisor. */
  lemma DivNonNeg(a: real, b: real)
    requires a >= 0.0 && b > 0.0
    ensures a / b >= 0.0
  {
    var q := a / b;
    DivTimes(a, b);
    if q < 0.0 {
      MulLt(q, 0.0, b);
    }
  }

  /** A dividend below the divisor has quotient floor 0. */
  lemma FmodSmall(a: real, b: real)
    requires 0.0 <= a && 0.0 < b
    ensures a < b ==> (a / b).Floor == 0
  {
    DivNonNeg(a, b);
    if a < b {
      DivTimes(a, b);
      if a / b >= 1.0 {
        MulLeft(1.0, a / b, b);
      }
    }
  }

  /** wrap: a phase brought into [-PI, PI] with fmodf, shifting towards
      zero from whichever side x is on. */
  function Wrap(x: real): (r: real)
    ensures -PI <= r <= PI
    ensures -PI < x < PI ==> r == x
  {
    if x >= 0.0 then Fmod(x + PI, TAU) - PI
    else Fmod(x - PI, -TAU) + PI
  }

  /** On a non-negative dividend and a positive divisor, fmodf is the
      Euclidean remainder. */
  lemma FmodIsRealMod(a: real, b: real)
    requires a >= 0.0 && b > 0.0
    ensures Fmod(a, b) == Ring.RealMod(a, b)
  {
    DivNonNeg(a, b);
  }

  /** Whole turns do not change a wrapped phase. */
  lemma WrapTurn(x: real)
    requires x >= 0.0
    ensures Wrap(x + TAU) == Wrap(x)
  {
    FmodIsRealMod(x + TAU + PI, TAU);
    FmodIsRealMod(x + PI, TAU);
    Ring.RealModShift(x + PI, TAU, 1);
    assert x + PI + 1 as real * TAU == x + TAU + PI;
  }

  /** FFT_SHIFT_RANGE: the control spans four octaves each way. */
  const SHIFT_RANGE: real := 4.0

  /** What the model needs of `powf(2.0, x)`: positive, increasing, 1 at 0,
      and exact at plus and minus SHIFT_RANGE. */
  ghost predicate IsExp2(exp2: real -> real)
  {
    && exp2(0.0) == 1.0
    && exp2(SHIFT_RANGE) == 16.0
    && exp2(-SHIFT_RANGE) == 1.0 / 16.0
    && (forall x :: exp2(x) > 0.0)
    && (forall x, y :: x <= y ==> exp2(x) <= exp2(y))
  }

  /** fft_pitchshift_changed: a control value in [0, 1] becomes a
      frequency ratio 2^(4 (2 value - 1)). */
  function PitchshiftChanged(value: real, exp2: real -> real): (shift: real)
    requires IsExp2(exp2)
    ensures shift > 0.0
    ensures value == 0.5 ==> shift == 1.0
    ensures 0.0 <= value <= 1.0 ==> 1.0 / 16.0 <= shift <= 16.0
  {
    var e := SHIFT_RANGE * Norm2Bi(value);
    assert 0.0 <= value <= 1.0 ==> -SHIFT_RANGE <= e <= SHIFT_RANGE;
    exp2(e)
  }

  /** A higher control value never gives a lower shift. */
  lemma PitchshiftMonotone(v: real, w: real, exp2: real -> real)
    requires IsExp2(exp2) && v <= w
    ensures PitchshiftChanged(v, exp2) <= PitchshiftChanged(w, exp2)
  {
    assert SHIFT_RANGE * Norm2Bi(v) <= SHIFT_RANGE * Norm2Bi(w);
  }

  /** The bin source bin f is moved to: `floorf(f * shift + 0.5)`. */
  function Dest(f: int, shift: real): (b: int)
    ensures f >= 0 && shift >= 0.0 ==> b >= 0
  {
    if f >= 0 && shift >= 0.0 then
      MulLeft(0.0, f as real, shift);
      (f as real * shift + 0.5).Floor
    else
      (f as real * shift + 0.5).Floor
  }

  /** The summed magnitude arriving at bin b from sources 0 .. n - 1. */
  function MagInto(mag: seq<real>, shift: real, b: int, n: nat): real
    requires n <= |mag|
  {
    if n == 0 then 0.0
    else MagInto(mag, shift, b, n - 1) + (if Dest(n - 1, shift) == b then mag[n - 1] else 0.0)
  }

  /** The last source among 0 .. n - 1 that lands on bin b, or -1 for none. */
  function LastInto(shift: real, b: int, n: nat): (f: int)
    ensures -1 <= f < n
    ensures f >= 0 ==> Dest(f, shift) == b
  {
    if n == 0 then -1
    else if Dest(n - 1, shift) == b then n - 1
    else LastInto(shift, b, n - 1)
  }

  /** A bin's frequency after sources 0 .. n - 1 went in: the scaled
      frequency of the last one to land there, or what it held before. */
  function FreqInto(freq: seq<real>, shift: real, b: int, n: nat, before: real): real
    requires n <= |freq|
  {
    var f := LastInto(shift, b, n);
    if f >= 0 then freq[f] * shift else before
  }

  /** What a bin held before the remap: the cleared bins hold 0, bin HALF
      and above keep the previous frame's values. */
  function Before(prev: seq<real>, b: int): real
    requires 0 <= b < |prev|
  {
    if b < HALF then 0.0 else prev[b]
  }

  /** The remap state after sources 0 .. f - 1 have been moved. */
  ghost predicate RemappedUpTo(amag: seq<real>, afreq: seq<real>, smag: seq<real>, sfreq: seq<real>,
                               shift: real, mag: seq<real>, freq: seq<real>, f: nat)
    requires |amag| == |afreq| == |smag| == |sfreq| == N && f <= HALF
  {
    && |mag| == N && |freq| == N
    && (forall b :: 0 <= b <= HALF ==>
          mag[b] == Before(smag, b) + MagInto(amag, shift, b, f)
          && freq[b] == FreqInto(afreq, shift, b, f, Before(sfreq, b)))
    && (forall b :: HALF < b < N ==> mag[b] == smag[b] && freq[b] == sfreq[b])
  }

  /** The synthesis clearing of fft_pitchshift's analysis loop: bins
      0 .. HALF - 1 of magnitude and frequency are set to zero. */
  method Clear(smag: seq<real>, sfreq: seq<real>) returns (mag: seq<real>, freq: seq<real>)
    requires |smag| == |sfreq| == N
    ensures |mag| == N && |freq| == N
    ensures forall b :: 0 <= b < N ==> mag[b] == Before(smag, b) && freq[b] == Before(sfreq, b)
  {
    mag, freq := smag, sfreq;
    var i := 0;
    while i < HALF
      invariant 0 <= i <= HALF
      invariant |mag| == N && |freq| == N
      invariant forall b :: 0 <= b < i ==> mag[b] == 0.0 && freq[b] == 0.0
      invariant forall b :: i <= b < N ==> mag[b] == smag[b] && freq[b] == sfreq[b]
    {
      mag := mag[i := 0.0];
      freq := freq[i := 0.0];
      i := i + 1;
    }
  }

  /** One source bin moved: the remap state advances from f to f + 1. */
  lemma RemapStep(amag: seq<real>, afreq: seq<real>, smag: seq<real>, sfreq: seq<real>,
                  shift: real, mag: seq<real>, freq: seq<real>, f: nat)
    requires |amag| == |afreq| == |smag| == |sfreq| == N && f < HALF && shift >= 0.0
    requires RemappedUpTo(amag, afreq, smag, sfreq, shift, mag, freq, f)
    ensures var bin := Dest(f, shift);
      if bin <= HALF then
        RemappedUpTo(amag, afreq, smag, sfreq, shift,
                     mag[bin := mag[bin] + amag[f]], freq[bin := afreq[f] * shift], f + 1)
      else
        RemappedUpTo(amag, afreq, smag, sfreq, shift, mag, freq, f + 1)
  {
  }

  /** The remap of fft_pitchshift after the clearing: every source bin
      f < HALF goes to Dest(f, shift) when that is at most HALF, adding its
      magnitude and overwriting the frequency. A destination of HALF is one
      past the cleared bins: it is written but never read by the synthesis. */
  method Remap(amag: seq<real>, afreq: seq<real>, smag: seq<real>, sfreq: seq<real>, shift: real)
    returns (mag: seq<real>, freq: seq<real>)
    requires |amag| == |afreq| == |smag| == |sfreq| == N
    requires shift >= 0.0
    ensures |mag| == N && |freq| == N
    ensures forall b :: 0 <= b < HALF ==>
      mag[b] == MagInto(amag, shift, b, HALF) && freq[b] == FreqInto(afreq, shift, b, HALF, 0.0)
    ensures mag[HALF] == smag[HALF] + MagInto(amag, shift, HALF, HALF)
    ensures freq[HALF] == FreqInto(afreq, shift, HALF, HALF, sfreq[HALF])
    ensures forall b :: HALF < b < N ==> mag[b] == smag[b] && freq[b] == sfreq[b]
    ensures shift == 1.0 ==> forall b :: 0 <= b < HALF ==> mag[b] == amag[b] && freq[b] == afreq[b]
  {
    mag, freq := Clear(smag, sfreq);
    var f := 0;
    while f < HALF
      invariant 0 <= f <= HALF
      invariant RemappedUpTo(amag, afreq, smag, sfreq, shift, mag, freq, f)
    {
      RemapStep(amag, afreq, smag, sfreq, shift, mag, freq, f);
      var bin := Dest(f, shift);
      if bin <= HALF {
        mag := mag[bin := mag[bin] + amag[f]];
        freq := freq[bin := afreq[f] * shift];
      }
      f := f + 1;
    }
    assert forall b :: 0 <= b <= HALF ==>
      mag[b] == Before(smag, b) + MagInto(amag, shift, b, HALF)
      && freq[b] == FreqInto(afreq, shift, b, HALF, Before(sfreq, b));
    if shift == 1.0 {
      forall b | 0 <= b < HALF
        ensures mag[b] == amag[b] && freq[b] == afreq[b]
      {
        RemapIdentity(amag, b, HALF);
      }
    }
  }

  /** With shift 1 every source bin lands on itself. */
  lemma {:induction false} RemapIdentity(mag: seq<real>, b: int, n: nat)
    requires n <= |mag|
    ensures MagInto(mag, 1.0, b, n) == (if 0 <= b < n then mag[b] else 0.0)
    ensures LastInto(1.0, b, n) == (if 0 <= b < n then b else -1)
  {
    if n > 0 {
      RemapIdentity(mag, b, n - 1);
      assert Dest(n - 1, 1.0) == n - 1;
    }
  }

  /** With shift 2 source f lands on 2 f: odd destination bins stay empty. */
  lemma {:induction false} RemapOctaveUp(mag: seq<real>, b: int, n: nat)
    requires n <= |mag|
    ensures MagInto(mag, 2.0, b, n) == (if 0 <= b && b % 2 == 0 && b / 2 < n then mag[b / 2] else 0.0)
  {
    if n > 0 {
      RemapOctaveUp(mag, b, n - 1);
      assert Dest(n - 1, 2.0) == 2 * (n - 1);
    }
  }

  /** With shift 0.5 sources 1 and 2 collide on bin 1: their magnitudes add
      and the frequency of source 2, written last, wins. */
  lemma RemapCollision(mag: seq<real>, freq: seq<real>)
    requires 3 <= |mag| && 3 <= |freq|
    ensures MagInto(mag, 0.5, 1, 3) == mag[1] + mag[2]
    ensures FreqInto(freq, 0.5, 1, 3, 0.0) == freq[2] * 0.5
  {
    assert Dest(0, 0.5) == 0;
    assert Dest(1, 0.5) == 1;
    assert Dest(2, 0.5) == 1;
    assert MagInto(mag, 0.5, 1, 1) == 0.0;
    assert MagInto(mag, 0.5, 1, 2) == mag[1];
    assert LastInto(0.5, 1, 3) == 2;
  }
}
