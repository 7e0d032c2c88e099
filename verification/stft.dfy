/** The frame scheduling of the STFT pitch shifter in compakt.c. The audio
    callback records each frame into a history ring and plays each frame
    from an output ring, zeroing the slot it played. Every HOP frames the
    shift step windows the newest N frames of history, transforms them,
    and overlap-adds the result into the output ring at `write`. Both rings
    are 2N frames long. The transform, the analysis, the remap and the
    resynthesis between windowing and overlap-add are one opaque
    parameter here. That parameter carries a state of its own type S
    from one shift step to the next: the analysis and synthesis phases
    and the remap's bin FFT_HALF_SIZE persist across hops. */
module Stft {
  import opened Samples
  import opened Ring
  import Spectral

  const N: nat := Spectral.N

  /** FFT_HOP_SIZE */
  const HOP: nat := 256

  /** FFT_BUF_SIZE */
  const BUF: nat := 2 * N

  /** The history ring `buf`, the output ring `out` (one stereo frame per
      slot), their cursors, the hop counter, and the spectral state the
      shift step keeps between hops. */
  datatype Stft<S> = Stft(buf: seq<Sample>, out: seq<Sample>, rec: int, read: int,
                          write: int, hopcounter: int, spectral: S)

  predicate Valid<S(!new)>(st: Stft<S>)
  {
    && |st.buf| == BUF && |st.out| == BUF
    && 0 <= st.rec < BUF && 0 <= st.read < BUF && 0 <= st.write < BUF
    && 0 <= st.hopcounter < HOP
  }

  /** The cursors move in step: recording and playback sit on the same
      slot, and `write` runs N + HOP - hopcounter slots ahead of `read`. */
  predicate Aligned<S(!new)>(st: Stft<S>)
  {
    st.rec == st.read && st.write == (st.read + N + HOP - st.hopcounter) % BUF
  }

  /** The set-up of compakt.c: rec = read = hopcounter = 0 and
      write = N + HOP, with silent rings and the given spectral state. */
  function Init<S(!new)>(spectral: S): (st: Stft<S>)
    ensures Valid(st) && Aligned(st)
    ensures st.rec == 0 && st.read == 0 && st.hopcounter == 0 && st.write == N + HOP
    ensures forall i :: 0 <= i < BUF ==> st.buf[i] == Zero && st.out[i] == Zero
    ensures st.spectral == spectral
  {
    Stft(seq(BUF, _ => Zero), seq(BUF, _ => Zero), 0, 0, N + HOP, 0, spectral)
  }

  /** The ring slot `from - N + f`, brought into [0, BUF). */
  function Slot(from: int, f: int): (i: int)
    ensures 0 <= i < BUF
  {
    (from - N + f) % BUF
  }

  /** The frame of history the shift step takes: slot f is the frame
      recorded N - f frames before `rec`, windowed by Window(f). */
  function History(buf: seq<Sample>, rec: int): (h: seq<Sample>)
    requires |buf| == BUF
    ensures |h| == N
    ensures forall f {:trigger h[f]} :: 0 <= f < N ==> h[f] == MulS(buf[Slot(rec, f)], Spectral.Window(f))
  {
    seq(N, f requires 0 <= f < N => MulS(buf[Slot(rec, f)], Spectral.Window(f)))
  }

  /** The history frame covers N distinct slots, oldest first, ending
      with the frame recorded just before `rec`. */
  lemma HistoryIsLatest(rec: int, f: int, g: int)
    requires 0 <= f < g < N
    ensures Slot(rec, f) != Slot(rec, g)
    ensures Slot(rec, N - 1) == (rec - 1) % BUF
  {
    var a := rec - N + f;
    var r := a % BUF;
    var d := g - f;
    ModOfMod(a, d, BUF);
    if r + d < BUF {
      DivModUnique(r + d, BUF, 0, r + d);
    } else {
      DivModUnique(r + d, BUF, 1, r + d - BUF);
    }
  }

  /** The history loop of fft_pitchshift, with its two index-wrapping
      `while` loops per frame; it builds History. */
  method ExtractFrame(buf: seq<Sample>, rec: int) returns (h: seq<Sample>)
    requires |buf| == BUF
    ensures h == History(buf, rec)
  {
    h := [];
    var f := 0;
    while f < N
      invariant 0 <= f <= N
      invariant |h| == f
      invariant forall g :: 0 <= g < f ==> h[g] == MulS(buf[Slot(rec, g)], Spectral.Window(g))
    {
      var i := WrapIndex(rec - N + f, BUF);
      h := h + [MulS(buf[i], Spectral.Window(f))];
      f := f + 1;
    }
  }

  /** Which frame position f of the overlap-add lands on slot i: slot i
      receives position (i - write + N) mod BUF when that is below N. */
  function SourceOf(i: int, write: int): int
  {
    (i - write + N) % BUF
  }

  /** Slot and SourceOf undo each other. */
  lemma SlotSource(write: int, f: int, i: int)
    requires 0 <= f < BUF && 0 <= i < BUF
    ensures i == Slot(write, f) <==> SourceOf(i, write) == f
  {
    var a := write - N + f;
    if i == Slot(write, f) {
      assert a == BUF * (a / BUF) + i;
      assert i - write + N == BUF * (-(a / BUF)) + f;
      DivModUnique(i - write + N, BUF, -(a / BUF), f);
    }
    if SourceOf(i, write) == f {
      var b := i - write + N;
      assert b == BUF * (b / BUF) + f;
      assert a == BUF * (-(b / BUF)) + i;
      DivModUnique(a, BUF, -(b / BUF), i);
    }
  }

  /** The output of the overlap-add of fft_pitchshift: the processed frame,
      windowed again and scaled by 1 / N, added onto the N slots from
      `write - N`; the other N slots are left alone. */
  function OverlapAdd(out: seq<Sample>, write: int, frame: seq<Sample>): (r: seq<Sample>)
    requires |out| == BUF && |frame| == N
    ensures |r| == BUF
    ensures forall f {:trigger Slot(write, f)} :: 0 <= f < N ==>
      r[Slot(write, f)] == Add(out[Slot(write, f)], MulS(frame[f], Spectral.Window(f) / N as real))
    ensures forall i {:trigger r[i]} :: 0 <= i < BUF && SourceOf(i, write) >= N ==> r[i] == out[i]
  {
    var r := seq(BUF, i requires 0 <= i < BUF =>
      var f := SourceOf(i, write);
      if f < N then Add(out[i], MulS(frame[f], Spectral.Window(f) / N as real)) else out[i]);
    assert forall f :: 0 <= f < N ==>
      r[Slot(write, f)] == Add(out[Slot(write, f)], MulS(frame[f], Spectral.Window(f) / N as real)) by {
      forall f | 0 <= f < N
        ensures r[Slot(write, f)] == Add(out[Slot(write, f)], MulS(frame[f], Spectral.Window(f) / N as real))
      {
        SlotSource(write, f, Slot(write, f));
      }
    }
    r
  }

  /** The overlap-add loop of fft_pitchshift, slot by slot with its
      index-wrapping loops; it computes OverlapAdd. */
  method OverlapAddLoop(out: seq<Sample>, write: int, frame: seq<Sample>) returns (r: seq<Sample>)
    requires |out| == BUF && |frame| == N
    ensures r == OverlapAdd(out, write, frame)
  {
    r := out;
    var f := 0;
    while f < N
      invariant 0 <= f <= N
      invariant |r| == BUF
      invariant forall i :: 0 <= i < BUF ==>
        r[i] == (var g := SourceOf(i, write);
                 if g < f then Add(out[i], MulS(frame[g], Spectral.Window(g) / N as real)) else out[i])
    {
      var i := WrapIndex(write - N + f, BUF);
      forall j | 0 <= j < BUF
        ensures j == i <==> SourceOf(j, write) == f
      {
        SlotSource(write, f, j);
      }
      r := r[i := Add(r[i], MulS(frame[f], Spectral.Window(f) / N as real))];
      f := f + 1;
    }
  }

  /** What the shift step's frame-processing must produce: from any
      spectral state, one frame of N samples for every frame of N. */
  ghost predicate Processes<S(!new)>(process: (S, seq<Sample>) -> (S, seq<Sample>))
  {
    forall s: S, x: seq<Sample> :: |x| == N ==> |process(s, x).1| == N
  }

  /** The ring work of fft_pitchshift: extract and window history, process
      it against the spectral state, overlap-add the result at `write`,
      keep the new spectral state, and move `write` on by HOP. */
  function ShiftStep<S(!new)>(st: Stft<S>, process: (S, seq<Sample>) -> (S, seq<Sample>)): (r: Stft<S>)
    requires Valid(st) && Processes(process)
    ensures Valid(r)
    ensures r.buf == st.buf && r.rec == st.rec && r.read == st.read && r.hopcounter == st.hopcounter
    ensures r.write == (st.write + HOP) % BUF
    ensures var p := process(st.spectral, History(st.buf, st.rec));
      r.out == OverlapAdd(st.out, st.write, p.1) && r.spectral == p.0
  {
    var p := process(st.spectral, History(st.buf, st.rec));
    var w := st.write + HOP;
    st.(out := OverlapAdd(st.out, st.write, p.1), write := if w >= BUF then w - BUF else w,
        spectral := p.0)
  }

  /** One frame of audio_callback, as far as the STFT goes: record the
      input, play and zero the output slot, count the hop and run the
      shift step when the counter reaches HOP. Returns the new state, the
      frame played, and whether the shift step ran. */
  function Frame<S(!new)>(st: Stft<S>, s: Sample, process: (S, seq<Sample>) -> (S, seq<Sample>)): (res: (Stft<S>, Sample, bool))
    requires Valid(st) && Processes(process)
    ensures Valid(res.0)
    ensures res.1 == st.out[st.read]
    ensures res.0.buf == st.buf[st.rec := s]
    ensures res.0.rec == (st.rec + 1) % BUF && res.0.read == (st.read + 1) % BUF
    ensures res.0.hopcounter == (st.hopcounter + 1) % HOP
    ensures res.2 <==> st.hopcounter + 1 == HOP
    ensures !res.2 ==> res.0.write == st.write && res.0.out == st.out[st.read := Zero]
    ensures !res.2 ==> res.0.spectral == st.spectral
    ensures res.2 ==>
      var p := process(st.spectral, History(res.0.buf, res.0.rec));
      && res.0.out == OverlapAdd(st.out[st.read := Zero], st.write, p.1)
      && res.0.spectral == p.0
      && res.0.write == (st.write + HOP) % BUF
    ensures Aligned(st) ==> Aligned(res.0) && res.0.out[st.read] == Zero
    ensures Aligned(st) && res.2 ==> st.write == (res.0.read + N) % BUF
  {
    var buf := st.buf[st.rec := s];
    var out := st.out[st.read := Zero];
    var o := st.out[st.read];
    var st' := st.(buf := buf, rec := Advance(st.rec, BUF), out := out, read := Advance(st.read, BUF));
    var hc := st.hopcounter + 1;
    if hc >= HOP then
      var r := ShiftStep(st'.(hopcounter := 0), process);
      FiredAlignment(st, st', r);
      (r, o, true)
    else
      StepAlignment(st, st'.(hopcounter := hc));
      (st'.(hopcounter := hc), o, false)
  }

  /** Without the shift step the alignment carries over to the next frame. */
  lemma StepAlignment<S(!new)>(st: Stft<S>, st': Stft<S>)
    requires Valid(st) && st'.rec == (st.rec + 1) % BUF && st'.read == (st.read + 1) % BUF
    requires st'.write == st.write && st'.hopcounter == st.hopcounter + 1
    ensures Aligned(st) ==> Aligned(st')
  {
    if Aligned(st) {
      ModOfMod(st.read + 1, N + HOP - st'.hopcounter, BUF);
    }
  }

  /** When the shift step runs, `write` stands N slots ahead of the slot
      to be played next; after it the alignment holds again, and the slot
      just played, one behind `read`, is not written by the overlap-add. */
  lemma FiredAlignment<S(!new)>(st: Stft<S>, st': Stft<S>, r: Stft<S>)
    requires Valid(st) && st.hopcounter + 1 == HOP
    requires st'.read == (st.read + 1) % BUF && st'.rec == (st.rec + 1) % BUF
    requires st'.write == st.write && |st'.out| == BUF && |r.out| == BUF
    requires r.read == st'.read && r.rec == st'.rec && r.hopcounter == 0
    requires r.write == (st.write + HOP) % BUF
    requires forall i :: 0 <= i < BUF && SourceOf(i, st.write) >= N ==> r.out[i] == st'.out[i]
    ensures Aligned(st) ==> st.write == (st'.read + N) % BUF
    ensures Aligned(st) ==> Aligned(r)
    ensures Aligned(st) ==> SourceOf(st.read, st.write) >= N
    ensures Aligned(st) ==> r.out[st.read] == st'.out[st.read]
  {
    if Aligned(st) {
      var R := st.read;
      var W := st.write;
      if R + 1 + N < BUF {
        DivModUnique(R + 1 + N, BUF, 0, R + 1 + N);
        assert W == R + 1 + N;
        assert st'.read == R + 1;
        DivModUnique(R + 1 + N + HOP, BUF, if R + 1 + N + HOP < BUF then 0 else 1,
                     if R + 1 + N + HOP < BUF then R + 1 + N + HOP else R + 1 + N + HOP - BUF);
        DivModUnique(R - W + N, BUF, -1, BUF - 1);
      } else {
        DivModUnique(R + 1 + N, BUF, 1, R + 1 + N - BUF);
        assert W == R + 1 + N - BUF;
        DivModUnique(R - W + N, BUF, 0, BUF - 1);
        if R + 1 < BUF {
          assert st'.read == R + 1;
          DivModUnique(R + 1 + N + HOP, BUF, 1, W + HOP);
        } else {
          assert st'.read == 0;
          DivModUnique(N, BUF, 0, N);
          DivModUnique(N + HOP, BUF, 0, N + HOP);
        }
      }
    }
  }

  /** At a shift step, overlap-add position f lands on the slot that will
      be played f frames later: the shift step fills exactly the next N
      slots to be played. */
  lemma OverlapFeedsNextReads(write: int, read: int, f: int)
    requires write == (read + N) % BUF
    ensures Slot(write, f) == (read + f) % BUF
  {
    ModOfMod(read + N, f - N, BUF);
  }

  /** n frames in a row: the final state and how many shift steps ran. */
  function Run<S(!new)>(st: Stft<S>, inputs: seq<Sample>, process: (S, seq<Sample>) -> (S, seq<Sample>)): (r: (Stft<S>, nat))
    requires Valid(st) && Processes(process)
    ensures Valid(r.0)
    decreases |inputs|
  {
    if |inputs| == 0 then (st, 0)
    else
      var prev := Run(st, inputs[..|inputs| - 1], process);
      var step := Frame(prev.0, inputs[|inputs| - 1], process);
      (step.0, if step.2 then prev.1 + 1 else prev.1)
  }

  /** Over n frames the cursors move n slots and the alignment holds. */
  lemma {:induction false} RunCursors<S(!new)>(st: Stft<S>, inputs: seq<Sample>, process: (S, seq<Sample>) -> (S, seq<Sample>))
    requires Valid(st) && Processes(process) && Aligned(st)
    ensures Run(st, inputs, process).0.read == (st.read + |inputs|) % BUF
    ensures Aligned(Run(st, inputs, process).0)
    decreases |inputs|
  {
    var n := |inputs|;
    if n > 0 {
      var prefix := inputs[..n - 1];
      RunCursors(st, prefix, process);
      FrameCursors(Run(st, prefix, process).0, inputs[n - 1], process, st.read + |prefix|, st.read + n);
    } else {
      assert Run(st, inputs, process).0 == st;
    }
  }

  /** One frame taken when the read cursor stands where a count a puts it
      leaves the cursor where the next count b = a + 1 puts it, and keeps
      the cursors aligned. */
  lemma FrameCursors<S(!new)>(st: Stft<S>, s: Sample, process: (S, seq<Sample>) -> (S, seq<Sample>), a: int, b: int)
    requires Valid(st) && Processes(process) && Aligned(st)
    requires a >= 0 && st.read == a % BUF && b == a + 1
    ensures Frame(st, s, process).0.read == b % BUF
    ensures Aligned(Frame(st, s, process).0)
  {
    ModOfMod(a, 1, BUF);
  }

  /** Over n frames the shift step runs once per HOP frames and the
      counter holds the remainder. */
  lemma {:induction false} RunHops<S(!new)>(st: Stft<S>, inputs: seq<Sample>, process: (S, seq<Sample>) -> (S, seq<Sample>))
    requires Valid(st) && Processes(process)
    ensures Run(st, inputs, process).1 == (st.hopcounter + |inputs|) / HOP
    ensures Run(st, inputs, process).0.hopcounter == (st.hopcounter + |inputs|) % HOP
    decreases |inputs|
  {
    var n := |inputs|;
    if n > 0 {
      var prev := Run(st, inputs[..n - 1], process);
      RunHops(st, inputs[..n - 1], process);
      var step := Frame(prev.0, inputs[n - 1], process);
      assert Run(st, inputs, process) == (step.0, if step.2 then prev.1 + 1 else prev.1);
      DivModSucc(st.hopcounter + n - 1, HOP);
    }
  }

  /** From the set-up, the first shift step runs on frame HOP, and after
      k HOP frames exactly k have run. */
  lemma HopsFromInit<S(!new)>(spectral: S, inputs: seq<Sample>, process: (S, seq<Sample>) -> (S, seq<Sample>), k: nat)
    requires Processes(process) && |inputs| == k * HOP
    ensures Run(Init(spectral), inputs, process).1 == k
  {
    RunHops(Init(spectral), inputs, process);
    DivModUnique(k * HOP, HOP, k, 0);
  }
}
