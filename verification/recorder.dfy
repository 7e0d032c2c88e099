/** recorder_t of audio.h: writes its input into a borrowed buffer at a
    cursor that wraps at the buffer's length. */
module Recorder {
  import opened Samples
  import opened Buffers
  import opened Ring

  datatype Recorder = Recorder(buf: BufferRef, pos: int)

  predicate Valid(r: Recorder)
  {
    r.buf.Ref? ==> Buffers.Valid(r.buf.buffer)
  }

  /** recorder_init */
  function Init(): (r: Recorder)
    ensures Valid(r) && r.buf == NoBuffer && r.pos == 0
  {
    Recorder(NoBuffer, 0)
  }

  /** recorder_update */
  function Update(r: Recorder, input: Sample): (r': Recorder)
    requires Valid(r)
    ensures Valid(r')
    ensures r.buf == NoBuffer ==> r' == r
    ensures r.buf.Ref? ==> r'.buf.Ref? && r'.buf.buffer.len == r.buf.buffer.len && r'.buf.buffer.present == r.buf.buffer.present
    ensures r.buf.Ref? && r.buf.buffer.present ==> 0 <= r'.pos < r.buf.buffer.len
    ensures r.buf.Ref? && r.buf.buffer.present && 0 <= r.pos < r.buf.buffer.len ==> r'.pos == (r.pos + 1) % r.buf.buffer.len
    ensures r.buf.Ref? ==> r'.buf.buffer == Write(r.buf.buffer, r.pos, input)
    ensures r.buf.Ref? && r.buf.buffer.present && r.buf.buffer.chans >= 2 ==> Read(r'.buf.buffer, r.pos) == input
    ensures r.buf.Ref? && r.buf.buffer.present && r.buf.buffer.chans == 1 ==>
              Read(r'.buf.buffer, r.pos) == Mono(input.left + input.right)
    ensures r.buf.Ref? && r.buf.buffer.present ==>
              forall q {:trigger Read(r'.buf.buffer, q)} :: ClampIndex(q, r.buf.buffer.len) != ClampIndex(r.pos, r.buf.buffer.len) ==>
                Read(r'.buf.buffer, q) == Read(r.buf.buffer, q)
  {
    match r.buf
    case NoBuffer => r
    case Ref(b) =>
      var r' := Recorder(Ref(Write(b, r.pos, input)), AdvanceUnsigned(r.pos, b.len));
      if b.present then
        ReadAfterWrite(b, r.pos, input);
        WriteLeavesOthers(b, r.pos, input);
        r'
      else
        r'
  }

  /** n updates in a row. */
  function Run(r: Recorder, inputs: seq<Sample>): (r': Recorder)
    requires Valid(r)
    ensures Valid(r')
    decreases |inputs|
  {
    if |inputs| == 0 then r else Update(Run(r, inputs[..|inputs| - 1]), inputs[|inputs| - 1])
  }

  /** With a buffer of len frames the cursor after n frames is n mod len
      away from where it started. */
  lemma {:induction false} RunCursor(r: Recorder, inputs: seq<Sample>)
    requires Valid(r) && r.buf.Ref? && r.buf.buffer.present
    requires 0 <= r.pos < r.buf.buffer.len
    ensures Run(r, inputs).buf.Ref?
    ensures Run(r, inputs).buf.buffer.present && Run(r, inputs).buf.buffer.len == r.buf.buffer.len
    ensures Run(r, inputs).pos == (r.pos + |inputs|) % r.buf.buffer.len
    decreases |inputs|
  {
    if |inputs| > 0 {
      var prev := inputs[..|inputs| - 1];
      RunCursor(r, prev);
      UpdateCursor(Run(r, prev), inputs[|inputs| - 1]);
      ModOfMod(r.pos + |prev|, 1, r.buf.buffer.len);
    }
  }

  /** The cursor facts of one update, on their own. */
  lemma UpdateCursor(r: Recorder, input: Sample)
    requires Valid(r) && r.buf.Ref? && r.buf.buffer.present
    requires 0 <= r.pos < r.buf.buffer.len
    ensures Update(r, input).buf.Ref? && Update(r, input).buf.buffer.present
    ensures Update(r, input).buf.buffer.len == r.buf.buffer.len
    ensures Update(r, input).pos == (r.pos + 1) % r.buf.buffer.len
  {
  }
}
