/** The buffer-backed effects of audio.h: the feedback delay and the comb
    filter. Both read a tap a fixed number of frames behind their write
    cursor, with the index computed in `unsigned int` arithmetic. */
module Effects {
  import opened Utils
  import opened Samples
  import opened Buffers
  import opened Ring
  import opened Engine

  /** `(k + len) % len` where k is an int and len an unsigned int: k + len
      is reduced modulo 2^32 before the remainder is taken. */
  function Tap(k: int, len: nat): (i: int)
    requires len >= 1
    ensures 0 <= i < len
  {
    U32(k + len) % len
  }

  /** For any offset that does not reach a whole buffer below zero, the tap
      is the Euclidean remainder of k by len. */
  lemma TapIsMod(k: int, len: nat)
    requires len >= 1
    requires 0 <= k + len < UINT_RANGE
    ensures Tap(k, len) == k % len
  {
    DivModUnique(k + len, len, k / len + 1, k % len);
  }

  /** A delay of d frames behind a cursor that has moved on d frames since
      frame p was written reads frame p back. */
  lemma TapFindsEcho(p: int, d: int, len: nat)
    requires 1 <= len < UINT_RANGE / 2
    requires 0 <= p < len && 0 <= d < len
    ensures Tap((p + d) % len - d, len) == p
  {
    var w := (p + d) % len;
    TapIsMod(w - d, len);
    var q := (p + d) / len;
    assert w - d == p - len * q;
    DivModUnique(w - d, len, -q, p);
  }

  /** A delay longer than the buffer sends k + len below zero, and the
      unsigned wrap no longer gives k mod len: with len = 3, k = -4 reads
      frame 0 where -4 mod 3 is 2. */
  lemma TapPastBufferLength()
    ensures Tap(-4, 3) == 0
    ensures -4 % 3 == 2
  {
  }

  /** delay_t */
  datatype Delay = Delay(buf: Buffer, pos: int, del: real, mix: real, value: Sample)

  predicate DelayValid(d: Delay)
  {
    Buffers.Valid(d.buf) && d.buf.present && d.buf.chans == 2
  }

  /** delay_init: a stereo line of len frames, no delay, half mix. */
  function DelayInit(len: nat, engineRate: nat): (d: Delay)
    requires len >= 1
    ensures DelayValid(d) && d.buf.len == len && d.pos == 0
    ensures d.del == 0.0 && d.mix == 0.5
    ensures forall p: int :: Read(d.buf, p) == Zero
  {
    Delay(Buffers.Init(len, 2, engineRate), 0, 0.0, 0.5, Zero)
  }

  /** The frame delay_update reads: del seconds behind the write cursor. */
  function DelayTap(d: Delay, engineRate: nat): (i: int)
    requires DelayValid(d)
    ensures 0 <= i < d.buf.len
  {
    Tap(d.pos - Sec2Samp(d.del, engineRate), d.buf.len)
  }

  /** delay_update: outputs the tap; writes the input crossfaded with the
      tap by mix (feedback) at the cursor; advances the cursor. */
  function DelayUpdate(d: Delay, input: Sample, engineRate: nat): (res: (Delay, Sample))
    requires DelayValid(d)
    ensures DelayValid(res.0) && res.0.buf.len == d.buf.len
    ensures res.0.del == d.del && res.0.mix == d.mix
    ensures res.1 == res.0.value == Read(d.buf, DelayTap(d, engineRate))
    ensures Read(res.0.buf, d.pos) == Lincomb(input, d.mix, res.1, 1.0 - d.mix)
    ensures forall q :: ClampIndex(q, d.buf.len) != ClampIndex(d.pos, d.buf.len) ==>
              Read(res.0.buf, q) == Read(d.buf, q)
    ensures 0 <= res.0.pos < d.buf.len
    ensures 0 <= d.pos < d.buf.len ==> res.0.pos == (d.pos + 1) % d.buf.len
  {
    var v := Read(d.buf, DelayTap(d, engineRate));
    var w := Lincomb(input, d.mix, v, 1.0 - d.mix);
    ReadAfterWrite(d.buf, d.pos, w);
    WriteLeavesOthers(d.buf, d.pos, w);
    (d.(buf := Write(d.buf, d.pos, w), pos := AdvanceUnsigned(d.pos, d.buf.len), value := v), v)
  }

  /** With mix = 1 the delay does not feed back: the line holds the dry input. */
  lemma DelayDryAtFullMix(d: Delay, input: Sample, engineRate: nat)
    requires DelayValid(d) && d.mix == 1.0
    ensures Read(DelayUpdate(d, input, engineRate).0.buf, d.pos) == input
  {
  }

  /** COMB_MAX: the longest comb delay, in seconds. */
  const COMB_MAX: real := 0.1

  /** comb_t */
  datatype Comb = Comb(buf: Buffer, value: Sample, pos: int, del: real)

  predicate CombValid(c: Comb)
  {
    Buffers.Valid(c.buf) && c.buf.present && c.buf.chans == 2
  }

  /** comb_init: a stereo line of COMB_MAX seconds, with del = 0.01 of it.
      The line has no frame below 10 frames per second. */
  function CombInit(engineRate: nat): (c: Comb)
    requires Sec2Samp(COMB_MAX, engineRate) >= 1
    ensures CombValid(c) && c.buf.len == Sec2Samp(COMB_MAX, engineRate)
    ensures c.pos == 0 && c.del == 0.01
  {
    Comb(Buffers.Init(Sec2Samp(COMB_MAX, engineRate), 2, engineRate), Zero, 0, 0.01)
  }

  /** At 48 kHz the comb line holds 4800 frames, and, in exact arithmetic,
      the initial delay is 48 frames. */
  lemma CombAt48k()
    ensures Sec2Samp(COMB_MAX, 48000) == 4800
    ensures Sec2Samp(0.01 * COMB_MAX, 48000) == 48
  {
  }

  /** The frame comb_update reads: del * COMB_MAX seconds behind the cursor. */
  function CombTap(c: Comb, engineRate: nat): (i: int)
    requires CombValid(c)
    ensures 0 <= i < c.buf.len
  {
    Tap(c.pos - Sec2Samp(c.del * COMB_MAX, engineRate), c.buf.len)
  }

  /** comb_update: outputs input plus tap; stores the dry input; advances. */
  function CombUpdate(c: Comb, input: Sample, engineRate: nat): (res: (Comb, Sample))
    requires CombValid(c)
    ensures CombValid(res.0) && res.0.buf.len == c.buf.len && res.0.del == c.del
    ensures res.1 == res.0.value
    ensures Add(input, Read(c.buf, CombTap(c, engineRate))) == res.1
    ensures Read(res.0.buf, c.pos) == input
    ensures forall q :: ClampIndex(q, c.buf.len) != ClampIndex(c.pos, c.buf.len) ==>
              Read(res.0.buf, q) == Read(c.buf, q)
    ensures 0 <= res.0.pos < c.buf.len
    ensures 0 <= c.pos < c.buf.len ==> res.0.pos == (c.pos + 1) % c.buf.len
  {
    var v := Add(input, Read(c.buf, CombTap(c, engineRate)));
    ReadAfterWrite(c.buf, c.pos, input);
    WriteLeavesOthers(c.buf, c.pos, input);
    (c.(buf := Write(c.buf, c.pos, input), pos := AdvanceUnsigned(c.pos, c.buf.len), value := v), v)
  }
}
