/** `buffer_t` of audio.h: interleaved audio storage whose every access is
    clamped into the buffer. A buffer whose data pointer is null (a failed
    load, or one never initialised) reads as silence and ignores writes. */
module Buffers {
  import opened Utils
  import opened Samples

  /** `present` is false when the C data pointer is null. Frames are
      interleaved: channel c of frame i is data[i * chans + c]. `rate` is the
      sample rate the content was recorded at. */
  datatype Buffer = Buffer(data: seq<real>, present: bool, len: nat, chans: nat, rate: nat)

  /** A buffer some playback or effect unit may hold a reference to, or none (a null pointer). */
  datatype BufferRef = NoBuffer | Ref(buffer: Buffer)

  /** Storage matches the metadata whenever there is storage. A present
      buffer has at least one frame: with len = 0 the unsigned `len - 1`
      of the clamp would be UINT_MAX and no access would be safe. */
  predicate Valid(b: Buffer)
  {
    b.present ==> b.len >= 1 && b.chans >= 1 && |b.data| == b.len * b.chans
  }

  /** `len - 1` computed on an `unsigned int` length. */
  function LastIndex(len: nat): (r: nat)
    ensures len >= 1 ==> r + 1 == len
    ensures len == 0 ==> r == UINT_MAX
  {
    if len == 0 then UINT_MAX else len - 1
  }

  /** `CLIP(pos, 0, len - 1)`: every requested frame index, negative or past
      the end, saturates to a frame that exists. */
  function ClampIndex(pos: int, len: nat): (i: nat)
    requires len >= 1
    ensures i < len
    ensures 0 <= pos < len ==> i == pos
    ensures pos < 0 ==> i == 0
    ensures pos >= len ==> i == len - 1
  {
    if pos < 0 then 0 else if pos > len - 1 then len - 1 else pos
  }

  /** Slot c of frame i is inside the storage. */
  lemma SlotInBounds(i: nat, c: nat, len: nat, chans: nat)
    requires i < len
    requires c < chans
    ensures i * chans + c < len * chans
  {
    assert (len - 1) * chans == len * chans - chans;
    assert i * chans <= (len - 1) * chans by {
      MulMono(i, len - 1, chans);
    }
  }

  /** i <= j implies i k <= j k for natural numbers. */
  lemma MulMono(i: nat, j: nat, k: nat)
    requires i <= j
    ensures i * k <= j * k
  {
    assert j * k - i * k == (j - i) * k;
  }

  /** Distinct frames own disjoint slots. */
  lemma SlotsDisjoint(i: nat, c: nat, j: nat, d: nat, chans: nat)
    requires c < chans && d < chans
    requires i != j
    ensures i * chans + c != j * chans + d
  {
    if i < j {
      MulMono(i + 1, j, chans);
      assert (i + 1) * chans == i * chans + chans;
    } else {
      MulMono(j + 1, i, chans);
      assert (j + 1) * chans == j * chans + chans;
    }
  }

  /** Where channel chan of the frame clamped from pos lives in the storage. */
  function SlotOf(b: Buffer, pos: int, chan: nat): (k: nat)
    requires Valid(b) && b.present && chan < b.chans
    ensures k < |b.data|
    ensures k == ClampIndex(pos, b.len) * b.chans + chan
  {
    var i := ClampIndex(pos, b.len);
    SlotInBounds(i, chan, b.len, b.chans);
    i * b.chans + chan
  }

  /** buffer_read1: one channel of the clamped frame, 0 without storage.
      The channel itself is not checked by the source; callers pass one
      that exists. */
  function Read1(b: Buffer, pos: int, chan: nat): (v: real)
    requires Valid(b)
    requires b.present ==> chan < b.chans
    ensures !b.present ==> v == 0.0
    ensures b.present ==> v == b.data[SlotOf(b, pos, chan)]
  {
    if !b.present then 0.0 else b.data[SlotOf(b, pos, chan)]
  }

  /** buffer_read: a mono buffer duplicates its value to both channels; a
      buffer of two or more channels yields its first two. */
  function Read(b: Buffer, pos: int): (s: Sample)
    requires Valid(b)
    ensures !b.present ==> s == Zero
    ensures b.present && b.chans == 1 ==> s == Mono(Read1(b, pos, 0))
    ensures b.present && b.chans >= 2 ==> s == Sample(Read1(b, pos, 0), Read1(b, pos, 1))
  {
    if !b.present then Zero
    else
      var i := ClampIndex(pos, b.len);
      if b.chans == 1 then
        SlotInBounds(i, 0, b.len, b.chans);
        Mono(b.data[i])
      else
        SlotInBounds(i, 0, b.len, b.chans);
        SlotInBounds(i, 1, b.len, b.chans);
        Sample(b.data[i * b.chans + 0], b.data[i * b.chans + 1])
  }

  /** buffer_write: a mono buffer stores left + right, a wider one the two
      channels; nothing else changes; without storage nothing happens. */
  function Write(b: Buffer, pos: int, s: Sample): (r: Buffer)
    requires Valid(b)
    ensures Valid(r)
    ensures r.present == b.present && r.len == b.len && r.chans == b.chans && r.rate == b.rate
    ensures |r.data| == |b.data|
    ensures !b.present ==> r == b
    ensures b.present ==>
      forall j, c :: 0 <= j < b.len && 0 <= c < b.chans && j != ClampIndex(pos, b.len) ==>
        Read1(r, j, c) == Read1(b, j, c)
  {
    if !b.present then b
    else
      var i := ClampIndex(pos, b.len);
      SlotInBounds(i, 0, b.len, b.chans);
      var r :=
        if b.chans == 1 then
          b.(data := b.data[i := s.left + s.right])
        else
          (SlotInBounds(i, 1, b.len, b.chans);
           b.(data := b.data[i * b.chans + 0 := s.left][i * b.chans + 1 := s.right]));
      assert forall j, c :: 0 <= j < b.len && 0 <= c < b.chans && j != i ==>
        Read1(r, j, c) == Read1(b, j, c) by {
        forall j, c | 0 <= j < b.len && 0 <= c < b.chans && j != i
          ensures Read1(r, j, c) == Read1(b, j, c)
        {
          SlotInBounds(j, c, b.len, b.chans);
          SlotsDisjoint(j, c, i, 0, b.chans);
          if b.chans >= 2 {
            SlotsDisjoint(j, c, i, 1, b.chans);
          }
        }
      }
      r
  }

  /** Reading back the frame just written: a stereo buffer returns the
      sample unchanged, a mono buffer returns the sum of its two channels on
      both channels. */
  lemma ReadAfterWrite(b: Buffer, pos: int, s: Sample)
    requires Valid(b)
    requires b.present
    ensures b.chans == 1 ==> Read(Write(b, pos, s), pos) == Mono(s.left + s.right)
    ensures b.chans >= 2 ==> Read(Write(b, pos, s), pos) == s
  {
    var i := ClampIndex(pos, b.len);
    SlotInBounds(i, 0, b.len, b.chans);
    if b.chans >= 2 {
      SlotInBounds(i, 1, b.len, b.chans);
    }
  }

  /** Writing one frame leaves every frame that clamps elsewhere reading as before. */
  lemma WriteLeavesOtherFrames(b: Buffer, pos: int, s: Sample, q: int)
    requires Valid(b)
    requires b.present
    requires ClampIndex(q, b.len) != ClampIndex(pos, b.len)
    ensures Read(Write(b, pos, s), q) == Read(b, q)
  {
    var j := ClampIndex(q, b.len);
    assert Read1(Write(b, pos, s), q, 0) == Read1(b, j, 0);
    if b.chans >= 2 {
      assert Read1(Write(b, pos, s), q, 1) == Read1(b, j, 1);
    }
  }

  /** WriteLeavesOtherFrames for every other frame at once. */
  lemma WriteLeavesOthers(b: Buffer, pos: int, s: Sample)
    requires Valid(b)
    requires b.present
    ensures forall q :: ClampIndex(q, b.len) != ClampIndex(pos, b.len) ==>
      Read(Write(b, pos, s), q) == Read(b, q)
  {
    forall q | ClampIndex(q, b.len) != ClampIndex(pos, b.len)
      ensures Read(Write(b, pos, s), q) == Read(b, q)
    {
      WriteLeavesOtherFrames(b, pos, s, q);
    }
  }

  /** buffer_rate_scale: a rate expressed at the engine's rate, corrected
      for a buffer recorded at another rate. */
  function RateScale(b: Buffer, rate: real, engineRate: nat): (r: real)
    requires engineRate > 0
    ensures r * engineRate as real == rate * b.rate as real
    ensures b.rate == engineRate ==> r == rate
    ensures b.rate == 2 * engineRate ==> r == 2.0 * rate
  {
    rate * (b.rate as real / engineRate as real)
  }

  /** buffer_init: zeroed storage of len frames at the engine's rate. The
      allocation itself is assumed to succeed. */
  function Init(len: nat, chans: nat, engineRate: nat): (b: Buffer)
    requires len >= 1 && chans >= 1
    ensures Valid(b) && b.present
    ensures b.len == len && b.chans == chans && b.rate == engineRate
    ensures forall p: int, c: nat :: c < chans ==> Read1(b, p, c) == 0.0
  {
    var b := Buffer(seq(len * chans, _ => 0.0), true, len, chans, engineRate);
    assert forall p: int, c: nat :: c < chans ==> Read1(b, p, c) == 0.0 by {
      forall p: int, c: nat | c < chans
        ensures Read1(b, p, c) == 0.0
      {
        SlotInBounds(ClampIndex(p, len), c, len, chans);
      }
    }
    b
  }
}
