/** The playback region shared by sampler_t and gran_t: a start and an end
    given as fractions of the buffer, and the rule that sends a position
    that ran past its edge back to the other edge. */
module Regions {
  import opened Utils
  import opened Buffers

  /** start and end as fractions of the buffer's last frame index. */
  datatype Region = Region(start: real, end: real)

  predicate Ordered(r: Region)
  {
    0.0 <= r.start <= r.end <= 1.0
  }

  /** sampler_range, gran_range: both ends clipped into [0, 1] and put in order. */
  function Range(start: real, end: real): (r: Region)
    ensures Ordered(r)
    ensures 0.0 <= start <= end <= 1.0 ==> r == Region(start, end)
  {
    var s := Clip(start, 0.0, 1.0);
    var e := Clip(end, 0.0, 1.0);
    Region(Min(s, e), Max(s, e))
  }

  /** The order in which the two ends are given does not matter. */
  lemma RangeSymmetric(a: real, b: real)
    ensures Range(a, b) == Range(b, a)
  {
  }

  /** sampler_dur, gran_dur: a start and a length, both ends clipped into
      [0, 1]. A negative length gives an end before the start. */
  function Dur(start: real, dur: real): (r: Region)
    ensures 0.0 <= r.start <= 1.0 && 0.0 <= r.end <= 1.0
    ensures dur >= 0.0 ==> Ordered(r)
    ensures 0.0 <= start && 0.0 <= dur && start + dur <= 1.0 ==> r.end - r.start == dur
    ensures 0.0 <= start <= 1.0 ==> r.start == start
    ensures start < 0.0 ==> r.start == 0.0
    ensures start > 1.0 ==> r.start == 1.0
    ensures 0.0 <= start <= 1.0 && 0.0 <= start + dur <= 1.0 ==> r.end == start + dur
  {
    var s := Clip(start, 0.0, 1.0);
    Region(s, Clip(s + dur, 0.0, 1.0))
  }

  /** The first frame position of the region in a buffer of len frames,
      `start * (len - 1)` with the unsigned `len - 1`. */
  function StartFrame(r: Region, len: nat): real
  {
    r.start * LastIndex(len) as real
  }

  /** `end * (len - 1)` */
  function EndFrame(r: Region, len: nat): real
  {
    r.end * LastIndex(len) as real
  }

  /** An ordered region spans frames from 0 to len - 1, start first. */
  lemma FramesOrdered(r: Region, len: nat)
    requires Ordered(r)
    ensures 0.0 <= StartFrame(r, len) <= EndFrame(r, len) <= LastIndex(len) as real
  {
    var last := LastIndex(len) as real;
    ScaledOrdered(r.start, r.end, last);
    assert StartFrame(r, len) == r.start * last;
    assert EndFrame(r, len) == r.end * last;
  }

  /** Two ordered fractions of a non-negative length stay ordered within it. */
  lemma ScaledOrdered(s: real, e: real, last: real)
    requires 0.0 <= s <= e <= 1.0 && last >= 0.0
    ensures 0.0 <= s * last <= e * last <= last
  {
    MulFraction(s, last);
    MulLeft(s, e, last);
    MulFraction(e, last);
  }

  /** A position moving forward that passed the end, or moving backward
      that passed the start. */
  predicate Overshot(r: Region, len: nat, forward: bool, pos: real)
  {
    if forward then pos > EndFrame(r, len) else pos < StartFrame(r, len)
  }

  /** Where a position that overshot starts again: at the start going
      forward, at the end going backward. */
  function Restart(r: Region, len: nat, forward: bool): (p: real)
    ensures Ordered(r) ==> StartFrame(r, len) <= p <= EndFrame(r, len)
    ensures forward ==> p == StartFrame(r, len)
    ensures !forward ==> p == EndFrame(r, len)
  {
    FramesOrdered0(r, len);
    if forward then StartFrame(r, len) else EndFrame(r, len)
  }

  /** FramesOrdered without its precondition, for use inside functions. */
  lemma FramesOrdered0(r: Region, len: nat)
    ensures Ordered(r) ==> StartFrame(r, len) <= EndFrame(r, len)
  {
    if Ordered(r) {
      FramesOrdered(r, len);
    }
  }

  /** A position inside the region's frames. */
  predicate Within(r: Region, len: nat, pos: real)
  {
    StartFrame(r, len) <= pos <= EndFrame(r, len)
  }

  /** One step of `sign * step` (step >= 0) from inside an ordered region,
      followed by the restart rule, lands inside the region again. */
  lemma StepStaysWithin(r: Region, len: nat, forward: bool, pos: real, step: real)
    requires Ordered(r) && Within(r, len, pos) && step >= 0.0
    ensures var p := if forward then pos + step else pos - step;
      Within(r, len, if Overshot(r, len, forward, p) then Restart(r, len, forward) else p)
  {
  }
}
