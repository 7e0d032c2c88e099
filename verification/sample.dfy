/** The two-channel frame value of audio.h (`sample_t`) and the per-frame
    transforms built on it: clipping, linear combination and the three
    waveshapers. */
module Samples {
  import opened Utils

  /** `sample_t`: value[0] is the left channel, value[1] the right. */
  datatype Sample = Sample(left: real, right: real)

  const Zero: Sample := Sample(0.0, 0.0)

  /** make_sample1: one value on both channels. */
  function Mono(v: real): (s: Sample)
    ensures s.left == s.right == v
  {
    Sample(v, v)
  }

  /** The same per-channel map applied to both channels (`sample_loop`). */
  function Map(s: Sample, f: real -> real): (r: Sample)
    ensures r.left == f(s.left) && r.right == f(s.right)
  {
    Sample(f(s.left), f(s.right))
  }

  /** sample_add */
  function Add(a: Sample, b: Sample): (r: Sample)
    ensures b == Zero ==> r == a
    ensures a == Zero ==> r == b
  {
    Sample(a.left + b.left, a.right + b.right)
  }

  /** Adding frames does not depend on their order. */
  lemma AddCommutes(a: Sample, b: Sample)
    ensures Add(a, b) == Add(b, a)
  {
  }

  /** sample_mul_s */
  function MulS(a: Sample, k: real): (r: Sample)
    ensures k == 1.0 ==> r == a
    ensures k == 0.0 ==> r == Zero
  {
    Sample(a.left * k, a.right * k)
  }

  /** sample_clip: each channel clamped with CLIP. */
  function ClipS(a: Sample, min: real, max: real): (r: Sample)
    ensures min <= max ==> min <= r.left <= max && min <= r.right <= max
    ensures min <= a.left <= max && min <= a.right <= max ==> r == a
    ensures a.left < min ==> r.left == min
    ensures min <= a.left && max < a.left ==> r.left == max
    ensures min <= a.left <= max ==> r.left == a.left
    ensures a.right < min ==> r.right == min
    ensures min <= a.right && max < a.right ==> r.right == max
    ensures min <= a.right <= max ==> r.right == a.right
  {
    Sample(Clip(a.left, min, max), Clip(a.right, min, max))
  }

  /** sample_lincomb: a * x + b * y, channel by channel. */
  function Lincomb(a: Sample, x: real, b: Sample, y: real): (r: Sample)
    ensures x == 1.0 && y == 0.0 ==> r == a
    ensures x == 0.0 && y == 1.0 ==> r == b
  {
    Sample(a.left * x + b.left * y, a.right * x + b.right * y)
  }

  /** One channel of a crossfade a * m + b * (1 - m). */
  function Mix(a: real, b: real, m: real): real
  {
    a * m + b * (1.0 - m)
  }

  /** A crossfade with a weight in [0, 1] lands between its two inputs. */
  lemma MixBetween(a: real, b: real, m: real)
    requires 0.0 <= m <= 1.0
    ensures Min(a, b) <= Mix(a, b, m) <= Max(a, b)
  {
    if a >= b {
      MixTowards(a, b, m);
    } else {
      MixTowards(b, a, 1.0 - m);
      assert Mix(a, b, m) == Mix(b, a, 1.0 - m);
    }
  }

  /** Mix(hi, lo, m) moves from lo towards hi by the fraction m. */
  lemma MixTowards(hi: real, lo: real, m: real)
    requires 0.0 <= m <= 1.0
    requires lo <= hi
    ensures lo <= Mix(hi, lo, m) <= hi
  {
    assert Mix(hi, lo, m) == lo + m * (hi - lo);
    MulFraction(m, hi - lo);
  }

  /** The crossfade Lincomb(a, m, b, 1 - m) of the delay stays, channel by
      channel, between its two inputs. */
  lemma CrossfadeBetween(a: Sample, b: Sample, m: real)
    requires 0.0 <= m <= 1.0
    ensures var r := Lincomb(a, m, b, 1.0 - m);
      && Min(a.left, b.left) <= r.left <= Max(a.left, b.left)
      && Min(a.right, b.right) <= r.right <= Max(a.right, b.right)
  {
    MixBetween(a.left, b.left, m);
    MixBetween(a.right, b.right, m);
  }

  /** effect_overdrive: scale by amt, then hard-clip to [-1, 1]. */
  function Overdrive(input: Sample, amt: real): (r: Sample)
    ensures -1.0 <= r.left <= 1.0 && -1.0 <= r.right <= 1.0
    ensures -1.0 <= input.left * amt <= 1.0 && -1.0 <= input.right * amt <= 1.0
            ==> r == MulS(input, amt)
    ensures input.left * amt < -1.0 ==> r.left == -1.0
    ensures input.left * amt > 1.0 ==> r.left == 1.0
    ensures -1.0 <= input.left * amt <= 1.0 ==> r.left == input.left * amt
    ensures input.right * amt < -1.0 ==> r.right == -1.0
    ensures input.right * amt > 1.0 ==> r.right == 1.0
    ensures -1.0 <= input.right * amt <= 1.0 ==> r.right == input.right * amt
  {
    ClipS(MulS(input, amt), -1.0, 1.0)
  }

  /** One channel of effect_fold AS WRITTEN: the upper side reflects across
      amt, but the lower side is triggered below -1.0 (whatever amt is) and
      moves the value by -2 amt instead of reflecting it. */
  function FoldValue(v: real, amt: real): (r: real)
    ensures v > amt ==> r < amt && r == 2.0 * amt - v
    ensures amt >= v >= -1.0 ==> r == v
    ensures v < -1.0 && v <= amt ==> r == v - 2.0 * amt
  {
    if v > amt then amt - (v - amt)
    else if v < -1.0 then -(amt - (v - amt))
    else v
  }

  /** effect_fold */
  function Fold(input: Sample, amt: real): (r: Sample)
    ensures r.left == FoldValue(input.left, amt) && r.right == FoldValue(input.right, amt)
  {
    Map(input, v => FoldValue(v, amt))
  }

  /** The lower branch of effect_fold does not fold: with amt = 1, an input
      of -1.5 comes out at -3.5, further from zero than it went in, where
      a reflection across -1 gives -0.5. */
  lemma FoldLowerSideDiverges()
    ensures FoldValue(-1.5, 1.0) == -3.5
    ensures FoldSymmetricValue(-1.5, 1.0) == -0.5
    ensures FoldValue(0.5, 0.25) == 0.0
    ensures FoldValue(-0.5, 0.25) == -0.5
  {
  }

  /** One channel of the evidently intended fold: reflect across amt above
      and across -amt below. */
  function FoldSymmetricValue(v: real, amt: real): real
  {
    if v > amt then amt - (v - amt)
    else if v < -amt then -amt - (v + amt)
    else v
  }

  /** The corrected fold keeps a signal within three times the threshold
      inside [-amt, amt], and it is odd: folding -v gives minus the fold of v. */
  lemma FoldSymmetricBounded(v: real, amt: real)
    ensures amt >= 0.0 && -3.0 * amt <= v <= 3.0 * amt ==> -amt <= FoldSymmetricValue(v, amt) <= amt
    ensures amt >= 0.0 ==> FoldSymmetricValue(-v, amt) == -FoldSymmetricValue(v, amt)
  {
  }

  /** The corrected waveshaper on a frame. */
  function FoldSymmetric(input: Sample, amt: real): (r: Sample)
    ensures amt >= 0.0 && -3.0 * amt <= input.left <= 3.0 * amt ==> -amt <= r.left <= amt
    ensures amt >= 0.0 && -3.0 * amt <= input.right <= 3.0 * amt ==> -amt <= r.right <= amt
  {
    FoldSymmetricBounded(input.left, amt);
    FoldSymmetricBounded(input.right, amt);
    Map(input, v => FoldSymmetricValue(v, amt))
  }

  /** effect_bit: each channel floored onto the grid of step 1 / bit. */
  function Bit(input: Sample, bit: int): (r: Sample)
    requires bit >= 1
    ensures OnGrid(r.left, 1.0 / bit as real) && OnGrid(r.right, 1.0 / bit as real)
    ensures r.left <= input.left < r.left + 1.0 / bit as real
    ensures r.right <= input.right < r.right + 1.0 / bit as real
  {
    var step := 1.0 / bit as real;
    Sample(Nearest(input.left, step), Nearest(input.right, step))
  }
}
