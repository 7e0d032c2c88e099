/** pitch_t of audio.h: a two-tap delay-line pitch shifter per channel.
    Each channel reads its line at two fractional offsets half a line
    apart that drift by `pitch` frames per frame, and crossfades them with
    triangular gains so that the tap crossing the wrap point is silent. */
module Pitch {
  import opened Utils
  import opened Samples
  import opened Ring

  /** PITCH_MAX_DELAY */
  const MAX_DELAY: nat := 5120

  /** The `half_delay` of pitch_update. */
  const HALF: real := 2560.0

  /** One channel's line and its two read offsets. */
  datatype Line = Line(data: seq<real>, read0: real, read1: real)

  datatype Pitch = Pitch(left: Line, right: Line, value: Sample, pitch: real,
                         write: int, active: bool)

  predicate LineValid(l: Line)
  {
    |l.data| == MAX_DELAY
  }

  predicate Valid(p: Pitch)
  {
    LineValid(p.left) && LineValid(p.right) && 0 <= p.write < MAX_DELAY
  }

  /** pitch_init: silent lines, taps at 0 and half a line, no shift, on. */
  function Init(): (p: Pitch)
    ensures Valid(p) && p.active && p.pitch == 0.0 && p.write == 0
    ensures p.left.read0 == 0.0 && p.left.read1 == HALF
    ensures p.right.read0 == 0.0 && p.right.read1 == HALF
    ensures forall i :: 0 <= i < MAX_DELAY ==> p.left.data[i] == 0.0 && p.right.data[i] == 0.0
  {
    var l := Line(seq(MAX_DELAY, _ => 0.0), 0.0, HALF);
    Pitch(l, l, Zero, 0.0, 0, true)
  }

  /** Triangular gain of a tap at offset r: 1 at either end of the line,
      0 in the middle. */
  function Tri(r: real): (g: real)
    requires 0.0 <= r < MAX_DELAY as real
    ensures 0.0 <= g <= 1.0
    ensures g == 0.0 <==> r == HALF
  {
    if r >= HALF then (r - HALF) / HALF else (HALF - r) / HALF
  }

  /** `int r = write + read; while (r >= MAX) r -= MAX;` — the offset is
      already in [0, MAX), so one subtraction at most. */
  function TapIndex(write: int, r: real): (i: int)
    requires 0 <= write < MAX_DELAY && 0.0 <= r < MAX_DELAY as real
    ensures 0 <= i < MAX_DELAY
    ensures i == Trunc(write as real + r) % MAX_DELAY
  {
    var k := Trunc(write as real + r);
    if k >= MAX_DELAY then
      DivModUnique(k, MAX_DELAY, 1, k - MAX_DELAY);
      k - MAX_DELAY
    else
      DivModUnique(k, MAX_DELAY, 0, k);
      k
  }

  /** The offsets after one frame: read0 drifts by pitch and wraps into the
      line, read1 follows half a line away. */
  function Offsets(read0: real, pitch: real): (r: (real, real))
    ensures 0.0 <= r.0 < MAX_DELAY as real && 0.0 <= r.1 < MAX_DELAY as real
    ensures r.0 == RealMod(read0 + pitch, MAX_DELAY as real)
    ensures r.1 == r.0 + HALF || r.1 == r.0 - HALF
  {
    var r0 := RealMod(read0 + pitch, MAX_DELAY as real);
    (r0, WrapDown(r0 + HALF, MAX_DELAY as real))
  }

  /** One channel of pitch_update: the crossfade of the two taps, then the
      input stored at the write cursor. */
  function LineUpdate(l: Line, pitch: real, write: int, input: real): (res: (Line, real))
    requires LineValid(l) && 0 <= write < MAX_DELAY
    ensures LineValid(res.0)
    ensures (res.0.read0, res.0.read1) == Offsets(l.read0, pitch)
    ensures res.0.data == l.data[write := input]
    ensures res.1 == Crossfade(Tri(res.0.read1), l.data[TapIndex(write, res.0.read0)],
                               Tri(res.0.read0), l.data[TapIndex(write, res.0.read1)])
  {
    var r := Offsets(l.read0, pitch);
    var env1 := Abs((r.0 - HALF) / HALF);
    var env0 := 1.0 - env1;
    CrossGains(r.0, r.1);
    var v := Crossfade(env0, l.data[TapIndex(write, r.0)], env1, l.data[TapIndex(write, r.1)]);
    (Line(l.data[write := input], r.0, r.1), v)
  }

  /** g0 a + g1 b */
  function Crossfade(g0: real, a: real, g1: real, b: real): real
  {
    g0 * a + g1 * b
  }

  /** With gains summing to one the crossfade is the mix of Samples. */
  lemma CrossfadeIsMix(g: real, a: real, b: real)
    ensures Crossfade(g, a, 1.0 - g, b) == Mix(a, b, g)
  {
    assert g * a == a * g;
  }

  /** The code's gains `env1 = |r0 - half| / half` and `env0 = 1 - env1`
      are the triangular gains of the opposite taps: each tap is weighted
      by how far the other one is from the middle. */
  lemma CrossGains(r0: real, r1: real)
    requires 0.0 <= r0 < MAX_DELAY as real && 0.0 <= r1 < MAX_DELAY as real
    requires r1 == r0 + HALF || r1 == r0 - HALF
    ensures Abs((r0 - HALF) / HALF) == Tri(r0)
    ensures 1.0 - Abs((r0 - HALF) / HALF) == Tri(r1)
  {
  }

  /** The two gains always sum to one, and the tap sitting on the wrap
      point of the line (offset 0, where the delay jumps) has gain zero. */
  lemma GainsCrossfade(read0: real, pitch: real)
    ensures var (r0, r1) := Offsets(read0, pitch);
      && Tri(r1) + Tri(r0) == 1.0
      && (r0 == 0.0 ==> Tri(r1) == 0.0)
      && (r1 == 0.0 ==> Tri(r0) == 0.0)
  {
    var (r0, r1) := Offsets(read0, pitch);
    CrossGains(r0, r1);
  }

  /** A frame's output lies between its two taps. */
  lemma OutputBetweenTaps(l: Line, pitch: real, write: int, input: real)
    requires LineValid(l) && 0 <= write < MAX_DELAY
    ensures var res := LineUpdate(l, pitch, write, input);
            var a := l.data[TapIndex(write, res.0.read0)];
            var b := l.data[TapIndex(write, res.0.read1)];
            Min(a, b) <= res.1 <= Max(a, b)
  {
    var r := Offsets(l.read0, pitch);
    var a := l.data[TapIndex(write, r.0)];
    var b := l.data[TapIndex(write, r.1)];
    GainsCrossfade(l.read0, pitch);
    CrossfadeIsMix(Tri(r.1), a, b);
    MixBetween(a, b, Tri(r.1));
  }

  /** With no shift the offsets stay put, so the line acts as a fixed delay. */
  lemma ZeroPitchHolds(read0: real)
    requires 0.0 <= read0 < MAX_DELAY as real
    ensures Offsets(read0, 0.0).0 == read0
  {
  }

  /** pitch_update: both channels, then the shared write cursor advances.
      An inactive shifter passes its input through untouched. */
  function Update(p: Pitch, input: Sample): (res: (Pitch, Sample))
    requires Valid(p)
    ensures Valid(res.0)
    ensures !p.active ==> res == (p, input)
    ensures p.active ==>
      && res.0.write == (p.write + 1) % MAX_DELAY
      && res.0.left.data == p.left.data[p.write := input.left]
      && res.0.right.data == p.right.data[p.write := input.right]
      && res.1 == res.0.value
      && (res.0.left, res.1.left) == LineUpdate(p.left, p.pitch, p.write, input.left)
      && (res.0.right, res.1.right) == LineUpdate(p.right, p.pitch, p.write, input.right)
  {
    if !p.active then (p, input)
    else
      var (l, vl) := LineUpdate(p.left, p.pitch, p.write, input.left);
      var (r, vr) := LineUpdate(p.right, p.pitch, p.write, input.right);
      var v := Sample(vl, vr);
      (p.(left := l, right := r, value := v, write := Advance(p.write, MAX_DELAY)), v)
  }
}
