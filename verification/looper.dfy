/** looper_t of audio.h: a stereo buffer that is either recorded into at an
    integer cursor or played back from a fractional one. */
module Looper {
  import opened Utils
  import opened Samples
  import opened Buffers
  import opened Ring

  /** `dur` scales the playback loop length, `speed` is frames per update. */
  datatype Looper = Looper(buf: Buffer, write: int, dur: real, read: real,
                           speed: real, record: bool, value: Sample)

  predicate Valid(l: Looper)
  {
    Buffers.Valid(l.buf) && l.buf.present && l.buf.chans == 2
  }

  /** looper_init: an empty stereo loop of len frames, recording. */
  function Init(len: nat, engineRate: nat): (l: Looper)
    requires len >= 1
    ensures Valid(l) && l.buf.len == len
    ensures l.record && l.write == 0 && l.read == 0.0
    ensures l.dur == 1.0 && l.speed == 1.0
    ensures forall p: int :: Read(l.buf, p) == Zero
  {
    var b := Buffers.Init(len, 2, engineRate);
    Looper(b, 0, 1.0, 0.0, 1.0, true, Zero)
  }

  /** The playback position after one step: past the end of the loop it
      restarts at 0, below 0 it jumps to the last frame of the loop. */
  function NextRead(read: real, speed: real, len: nat, dur: real): (r: real)
    requires len >= 1
    ensures dur > 0.0 ==> 0.0 <= r < len as real * dur
    ensures 0.0 <= read + speed < len as real * dur ==> r == read + speed
    ensures read + speed >= len as real * dur ==> r == 0.0
    ensures read + speed < 0.0 && read + speed < len as real * dur ==> r == (len as real - 1.0) * dur
  {
    var next := read + speed;
    var span := len as real * dur;
    if next >= span then 0.0
    else if next < 0.0 then
      if dur > 0.0 then
        MulLeft(0.0, len as real - 1.0, dur);
        MulLt(len as real - 1.0, len as real, dur);
        (len as real - 1.0) * dur
      else
        (len as real - 1.0) * dur
    else next
  }

  /** looper_update: recording passes the input through and stores it;
      playback outputs the frame under the floored read position. */
  function Update(l: Looper, input: Sample): (res: (Looper, Sample))
    requires Valid(l)
    ensures Valid(res.0) && res.0.buf.len == l.buf.len && res.0.record == l.record
    ensures res.0.dur == l.dur && res.0.speed == l.speed
    ensures l.record ==> res.1 == input && Read(res.0.buf, l.write) == input
    ensures l.record ==> res.0.read == l.read
    ensures l.record ==> 0 <= res.0.write < l.buf.len
    ensures l.record && 0 <= l.write < l.buf.len ==> res.0.write == (l.write + 1) % l.buf.len
    ensures l.record ==> forall q :: ClampIndex(q, l.buf.len) != ClampIndex(l.write, l.buf.len) ==>
              Read(res.0.buf, q) == Read(l.buf, q)
    ensures !l.record ==> res.0.buf == l.buf && res.0.write == l.write
    ensures !l.record ==> res.0.read == NextRead(l.read, l.speed, l.buf.len, l.dur)
    ensures !l.record ==> res.1 == res.0.value == Read(l.buf, res.0.read.Floor)
  {
    if l.record then
      var b := Write(l.buf, l.write, input);
      ReadAfterWrite(l.buf, l.write, input);
      assert forall q :: ClampIndex(q, l.buf.len) != ClampIndex(l.write, l.buf.len) ==>
          Read(b, q) == Read(l.buf, q) by {
        forall q | ClampIndex(q, l.buf.len) != ClampIndex(l.write, l.buf.len)
          ensures Read(b, q) == Read(l.buf, q)
        {
          WriteLeavesOtherFrames(l.buf, l.write, input, q);
        }
      }
      (l.(buf := b, write := AdvanceUnsigned(l.write, l.buf.len)), input)
    else
      var read := NextRead(l.read, l.speed, l.buf.len, l.dur);
      var v := Read(l.buf, read.Floor);
      (l.(read := read, value := v), v)
  }

  /** looper_set: switching to recording continues from the play position
      truncated to a frame; switching to playback starts at the record
      cursor; setting the current mode changes nothing. */
  function Set(l: Looper, record: bool): (r: Looper)
    ensures r.record == record
    ensures r.buf == l.buf && r.dur == l.dur && r.speed == l.speed && r.value == l.value
    ensures record == l.record ==> r == l
    ensures record && !l.record ==> r.read == l.read && r.write == Trunc(l.read)
    ensures !record && l.record ==> r.write == l.write && r.read == l.write as real
  {
    if record == l.record then l
    else if record then l.(write := Trunc(l.read), record := true)
    else l.(read := l.write as real, record := false)
  }

  /** A negative write cursor (reached by switching to recording from a
      negative play position, which a negative dur produces) writes frame
      0, and the unsigned length test sends the cursor back to 0. */
  lemma RecordFromNegativeCursor(l: Looper, input: Sample)
    requires Valid(l) && l.record && l.write < 0
    ensures Update(l, input).0.write == 0
    ensures Read(Update(l, input).0.buf, 0) == input
  {
  }

  /** Record, play, record again: the record cursor comes back unchanged. */
  lemma RecordPlayRecord(l: Looper)
    requires l.record
    ensures Set(Set(l, false), true).write == l.write
    ensures Set(Set(l, false), true) == l.(read := l.write as real)
  {
  }

  /** Play, record, play again: the play position comes back truncated to a
      whole frame, so it is restored exactly when it was a whole number. */
  lemma PlayRecordPlay(l: Looper)
    requires !l.record
    ensures Set(Set(l, true), false).read == Trunc(l.read) as real
    ensures Set(Set(l, true), false).read == l.read <==> l.read == l.read.Floor as real
  {
    TruncExact(l.read);
  }

  /** A fractional play position is not restored: 2.5 comes back as 2. */
  lemma PlayRecordPlayLosesFraction(l: Looper)
    requires !l.record && l.read == 2.5
    ensures Set(Set(l, true), false).read == 2.0
  {
  }
}
