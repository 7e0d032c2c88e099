/** gran_t of audio.h: a grain reader. A steady cursor `pos` crosses the
    buffer at the buffer's own rate; the grain position `gpos` plays the
    region at `rate` and jumps back to `pos` every `size` frames. */
module Granular {
  import opened Utils
  import opened Samples
  import opened Buffers
  import opened Regions
  import opened Ring

  datatype Gran = Gran(value: Sample, buf: BufferRef, size: int, t: int, forward: bool,
                       rate: real, pos: real, gpos: real, region: Region)

  /** The wrap of `pos` loops forever on an empty buffer, so a buffer the
      grain reader holds has at least one frame. */
  predicate Valid(g: Gran)
  {
    g.buf.Ref? ==> Buffers.Valid(g.buf.buffer) && g.buf.buffer.len >= 1
  }

  /** gran_init: grains of 256 frames over the whole buffer, forward at rate 1. */
  function Init(): (g: Gran)
    ensures Valid(g) && g.buf == NoBuffer
    ensures g.size == 256 && g.t == 0 && g.forward && g.rate == 1.0
    ensures g.pos == 0.0 && g.gpos == 0.0 && Ordered(g.region)
  {
    Gran(Zero, NoBuffer, 256, 0, true, 1.0, 0.0, 0.0, Region(0.0, 1.0))
  }

  /** gran_range */
  function SetRange(g: Gran, start: real, end: real): (r: Gran)
    ensures r == g.(region := Range(start, end)) && Ordered(r.region)
  {
    g.(region := Range(start, end))
  }

  /** gran_dur */
  function SetDur(g: Gran, start: real, dur: real): (r: Gran)
    ensures r == g.(region := Dur(start, dur))
    ensures dur >= 0.0 ==> Ordered(r.region)
  {
    g.(region := Dur(start, dur))
  }

  /** The grain position one frame on, between re-syncs: a step of the
      scaled rate in the grain's direction, restarted at the region's
      leading edge when it passes the trailing one. */
  function GrainStep(g: Gran, b: Buffer, engineRate: nat): (p: real)
    requires engineRate > 0
    ensures var step := RateScale(b, g.rate, engineRate);
      var moved := if g.forward then g.gpos + step else g.gpos - step;
      && (Overshot(g.region, b.len, g.forward, moved) ==> p == Restart(g.region, b.len, g.forward))
      && (!Overshot(g.region, b.len, g.forward, moved) ==> p == moved)
  {
    var gp := g.gpos + (if g.forward then 1.0 else -1.0) * RateScale(b, g.rate, engineRate);
    if Overshot(g.region, b.len, g.forward, gp) then Restart(g.region, b.len, g.forward) else gp
  }

  /** gran_update */
  function Update(g: Gran, engineRate: nat): (res: (Gran, Sample))
    requires Valid(g) && engineRate > 0
    ensures Valid(res.0)
    ensures g.buf == NoBuffer ==> res == (g, Zero)
    ensures g.buf.Ref? ==>
      var b := g.buf.buffer;
      && res.1 == res.0.value == Read(b, g.gpos.Floor)
      && res.0.buf == g.buf && res.0.region == g.region && res.0.size == g.size
      && res.0.forward == g.forward && res.0.rate == g.rate
      && res.0.pos == WrapDown(g.pos + b.rate as real / engineRate as real, b.len as real)
      && (0.0 <= g.pos ==> 0.0 <= res.0.pos < b.len as real)
      && res.0.t == Advance(g.t, g.size)
      && (g.t + 1 >= g.size ==> res.0.t == 0 && res.0.gpos == res.0.pos)
      && (g.t + 1 < g.size ==> res.0.t == g.t + 1 && res.0.gpos == GrainStep(g, b, engineRate))
  {
    if g.buf == NoBuffer then (g, Zero)
    else
      var b := g.buf.buffer;
      var v := Read(b, g.gpos.Floor);
      var pos := WrapDown(g.pos + b.rate as real / engineRate as real, b.len as real);
      var resync := g.t + 1 >= g.size;
      var g' := g.(value := v, pos := pos, t := Advance(g.t, g.size),
                   gpos := if resync then pos else GrainStep(g, b, engineRate));
      (g', v)
  }

  /** Between re-syncs a grain that starts inside an ordered region stays
      inside it, whichever way it plays. */
  lemma GrainStaysWithin(g: Gran, engineRate: nat)
    requires Valid(g) && engineRate > 0 && g.buf.Ref?
    requires Ordered(g.region) && g.rate >= 0.0
    requires Within(g.region, g.buf.buffer.len, g.gpos)
    requires g.t + 1 < g.size
    ensures Within(g.region, g.buf.buffer.len, Update(g, engineRate).0.gpos)
  {
    var b := g.buf.buffer;
    var step := RateScale(b, g.rate, engineRate);
    assert step >= 0.0 by {
      MulLeft(0.0, g.rate, b.rate as real / engineRate as real);
    }
    StepStaysWithin(g.region, b.len, g.forward, g.gpos, step);
  }

  /** n updates in a row. */
  function Run(g: Gran, engineRate: nat, n: nat): (r: Gran)
    requires Valid(g) && engineRate > 0
    ensures Valid(r) && r.buf == g.buf && r.size == g.size
    decreases n
  {
    if n == 0 then g else Update(Run(g, engineRate, n - 1), engineRate).0
  }

  /** With a buffer, the grain clock after n frames is n mod size, and the
      steady cursor stays inside the buffer. */
  lemma {:induction false} GrainClock(g: Gran, engineRate: nat, n: nat)
    requires Valid(g) && engineRate > 0 && g.buf.Ref?
    requires g.size >= 1 && 0 <= g.t < g.size && 0.0 <= g.pos
    ensures Run(g, engineRate, n).t == (g.t + n) % g.size
    ensures 0.0 <= Run(g, engineRate, n).pos
    ensures n > 0 ==> Run(g, engineRate, n).pos < g.buf.buffer.len as real
    decreases n
  {
    if n > 0 {
      GrainClock(g, engineRate, n - 1);
      DivModSucc(g.t + n - 1, g.size);
    }
  }

  /** Every size frames the grain restarts from the steady cursor. */
  lemma GrainRestarts(g: Gran, engineRate: nat, k: nat)
    requires Valid(g) && engineRate > 0 && g.buf.Ref?
    requires g.size >= 1 && g.t == 0 && 0.0 <= g.pos
    ensures Run(g, engineRate, k * g.size).t == 0
    ensures k > 0 ==> Run(g, engineRate, k * g.size).gpos == Run(g, engineRate, k * g.size).pos
  {
    var n := k * g.size;
    GrainClock(g, engineRate, n);
    Ring.DivModUnique(n, g.size, k, 0);
    if k > 0 {
      assert n >= 1 by {
        MulAtLeast(g.size, k);
        assert g.size * k == n;
      }
      var prev := Run(g, engineRate, n - 1);
      GrainClock(g, engineRate, n - 1);
      assert n - 1 == g.size * (k - 1) + (g.size - 1);
      Ring.DivModUnique(n - 1, g.size, k - 1, g.size - 1);
      assert prev.t + 1 >= prev.size;
      assert Run(g, engineRate, n) == Update(prev, engineRate).0;
    }
  }
}
