/** sampler_t of audio.h: plays a region of a borrowed buffer, forward or
    backward, at a rate corrected for the buffer's own sample rate, either
    once or in a loop. */
module Sampler {
  import opened Utils
  import opened Samples
  import opened Buffers
  import opened Regions
  import Ring

  datatype Sampler = Sampler(value: Sample, buf: BufferRef, forward: bool, loop: bool,
                             active: bool, region: Region, rate: real, pos: real)

  predicate Valid(s: Sampler)
  {
    s.buf.Ref? ==> Buffers.Valid(s.buf.buffer)
  }

  /** sampler_init: no buffer, whole buffer forward at rate 1, looping, idle. */
  function Init(): (s: Sampler)
    ensures Valid(s) && s.buf == NoBuffer && !s.active
    ensures s.forward && s.loop && s.rate == 1.0 && s.region == Region(0.0, 1.0)
  {
    Sampler(Zero, NoBuffer, true, true, false, Region(0.0, 1.0), 1.0, 0.0)
  }

  /** sampler_range */
  function SetRange(s: Sampler, start: real, end: real): (r: Sampler)
    ensures r == s.(region := Range(start, end)) && Ordered(r.region)
  {
    s.(region := Range(start, end))
  }

  /** sampler_dur */
  function SetDur(s: Sampler, start: real, dur: real): (r: Sampler)
    ensures r == s.(region := Dur(start, dur))
    ensures dur >= 0.0 ==> Ordered(r.region)
  {
    s.(region := Dur(start, dur))
  }

  /** sampler_trigger: without a buffer nothing happens; otherwise playback
      starts at the edge the direction begins from. */
  function Trigger(s: Sampler): (r: Sampler)
    ensures s.buf == NoBuffer ==> r == s
    ensures s.buf.Ref? ==> r == s.(active := true, pos := Restart(s.region, s.buf.buffer.len, s.forward))
    ensures s.buf.Ref? && Ordered(s.region) ==> Within(s.region, s.buf.buffer.len, r.pos)
  {
    if s.buf == NoBuffer then s
    else s.(active := true, pos := Restart(s.region, s.buf.buffer.len, s.forward))
  }

  /** sampler_update: outputs the frame under the current position, then
      moves it by the rate and applies the edge rule, which restarts a
      looping sampler and stops a one-shot one. */
  function Update(s: Sampler, engineRate: nat): (res: (Sampler, Sample))
    requires Valid(s) && engineRate > 0
    ensures Valid(res.0)
    ensures s.buf == NoBuffer || !s.active ==> res == (s, Zero)
    ensures s.buf.Ref? && s.active ==>
      var b := s.buf.buffer;
      var p := s.pos + (if s.forward then 1.0 else -1.0) * RateScale(b, s.rate, engineRate);
      && res.1 == res.0.value == Read(b, s.pos.Floor)
      && res.0.buf == s.buf && res.0.region == s.region && res.0.forward == s.forward
      && res.0.rate == s.rate && res.0.loop == s.loop
      && (!Overshot(s.region, b.len, s.forward, p) ==> res.0.active && res.0.pos == p)
      && (Overshot(s.region, b.len, s.forward, p) && s.loop ==>
            res.0.active && res.0.pos == Restart(s.region, b.len, s.forward))
      && (Overshot(s.region, b.len, s.forward, p) && !s.loop ==> !res.0.active && res.0.pos == p)
  {
    if s.buf == NoBuffer || !s.active then (s, Zero)
    else
      var b := s.buf.buffer;
      // the sampler clamps the floored position itself before the buffer does
      var ipos := if b.present then ClampIndex(s.pos.Floor, b.len) else s.pos.Floor;
      var v := Read(b, ipos);
      var p := s.pos + (if s.forward then 1.0 else -1.0) * RateScale(b, s.rate, engineRate);
      var s' :=
        if Overshot(s.region, b.len, s.forward, p) then
          if s.loop then s.(pos := Restart(s.region, b.len, s.forward))
          else s.(pos := p, active := false)
        else s.(pos := p);
      (s'.(value := v), v)
  }

  /** A looping sampler whose rate is not negative never leaves its region. */
  lemma LoopStaysWithin(s: Sampler, engineRate: nat)
    requires Valid(s) && engineRate > 0 && s.buf.Ref? && s.active && s.loop
    requires Ordered(s.region) && Within(s.region, s.buf.buffer.len, s.pos)
    requires RateScale(s.buf.buffer, s.rate, engineRate) >= 0.0
    ensures Update(s, engineRate).0.active
    ensures Within(s.region, s.buf.buffer.len, Update(s, engineRate).0.pos)
  {
    StepStaysWithin(s.region, s.buf.buffer.len, s.forward, s.pos, RateScale(s.buf.buffer, s.rate, engineRate));
  }

  /** n updates in a row. */
  function Run(s: Sampler, engineRate: nat, n: nat): (r: Sampler)
    requires Valid(s) && engineRate > 0
    ensures Valid(r)
    ensures r.buf == s.buf && r.region == s.region && r.forward == s.forward
    ensures r.loop == s.loop && r.rate == s.rate
    decreases n
  {
    if n == 0 then s else Update(Run(s, engineRate, n - 1), engineRate).0
  }

  /** The whole buffer played forward in a loop at its own rate: after n
      frames the sampler is at frame n mod len, so the update that follows
      outputs that frame. */
  lemma {:induction false} LoopPlaysEveryFrame(s: Sampler, engineRate: nat, n: nat)
    requires Valid(s) && engineRate > 0 && s.buf.Ref?
    requires s.buf.buffer.len >= 1 && s.buf.buffer.rate == engineRate
    requires s.active && s.loop && s.forward && s.rate == 1.0
    requires s.region == Region(0.0, 1.0) && s.pos == 0.0
    ensures Run(s, engineRate, n).active
    ensures Run(s, engineRate, n).pos == ((n % s.buf.buffer.len) as real)
    ensures Update(Run(s, engineRate, n), engineRate).1 == Read(s.buf.buffer, n % s.buf.buffer.len)
    decreases n
  {
    var len := s.buf.buffer.len;
    if n > 0 {
      LoopPlaysEveryFrame(s, engineRate, n - 1);
      Ring.DivModSucc(n - 1, len);
    }
  }
}
