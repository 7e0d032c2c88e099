/** fft_t of audio.h, without the transform itself: the per-channel input
    frames of FFT_SIZE values and the cursor fft_update writes them at. */
module Fft {
  import opened Samples
  import opened Ring

  /** FFT_SIZE */
  const SIZE: nat := 1024

  /** FFT_HALF_SIZE: the bins of a real transform of SIZE points, 0 ..= SIZE / 2. */
  const HALF_SIZE: nat := SIZE / 2 + 1

  /** One channel's input frame; Missing when its allocation is null. */
  datatype Input = Missing | Frame(data: seq<real>)

  datatype Fft = Fft(left: Input, right: Input, pos: int)

  predicate InputValid(i: Input)
  {
    i.Frame? ==> |i.data| == SIZE
  }

  predicate Valid(f: Fft)
  {
    InputValid(f.left) && InputValid(f.right) && 0 <= f.pos < SIZE
  }

  /** fft_init, as far as the cursor and the input frames go: the cursor
      starts at 0 and both channels get a frame. The frames are not
      cleared: `fftw_alloc_real` leaves them uninitialised and planning
      overwrites them, so their first contents are whatever `left` and
      `right` hold. */
  function Init(left: seq<real>, right: seq<real>): (f: Fft)
    requires |left| == SIZE && |right| == SIZE
    ensures Valid(f) && f.pos == 0 && f.left.Frame? && f.right.Frame?
    ensures f.left.data == left && f.right.data == right
  {
    Fft(Frame(left), Frame(right), 0)
  }

  /** One channel of fft_update: a missing frame is skipped. */
  function Put(i: Input, pos: int, v: real): (r: Input)
    requires InputValid(i) && 0 <= pos < SIZE
    ensures InputValid(r) && r.Frame? == i.Frame?
    ensures i.Frame? ==> r.data[pos] == v
    ensures i.Frame? ==> forall j :: 0 <= j < SIZE && j != pos ==> r.data[j] == i.data[j]
    ensures i == Missing ==> r == Missing
  {
    match i
    case Missing => Missing
    case Frame(d) => Frame(d[pos := v])
  }

  /** fft_update: each present channel stores its value at the cursor, which
      then advances and wraps at SIZE. */
  function Update(f: Fft, input: Sample): (r: Fft)
    requires Valid(f)
    ensures Valid(r)
    ensures r.pos == (f.pos + 1) % SIZE
    ensures r.left == Put(f.left, f.pos, input.left) && r.right == Put(f.right, f.pos, input.right)
  {
    Fft(Put(f.left, f.pos, input.left), Put(f.right, f.pos, input.right), Advance(f.pos, SIZE))
  }

  /** n updates in a row. */
  function Run(f: Fft, inputs: seq<Sample>): (r: Fft)
    requires Valid(f)
    ensures Valid(r)
    ensures r.left.Frame? == f.left.Frame? && r.right.Frame? == f.right.Frame?
    decreases |inputs|
  {
    if |inputs| == 0 then f else Update(Run(f, inputs[..|inputs| - 1]), inputs[|inputs| - 1])
  }

  /** After any run the cursor has moved by the run's length modulo SIZE,
      and the newest input sits just behind it. */
  lemma {:induction false} RunCursor(f: Fft, inputs: seq<Sample>)
    requires Valid(f)
    ensures Run(f, inputs).pos == (f.pos + |inputs|) % SIZE
    ensures |inputs| > 0 && f.left.Frame? ==>
      Run(f, inputs).left.data[(f.pos + |inputs| - 1) % SIZE] == inputs[|inputs| - 1].left
    decreases |inputs|
  {
    if |inputs| > 0 {
      RunCursor(f, inputs[..|inputs| - 1]);
      DivModSucc(f.pos + |inputs| - 1, SIZE);
    }
  }
}
