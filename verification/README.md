# compakt DSP bookkeeping in Dafny

This is a model of the sample-accurate bookkeeping inside compakt's DSP graph, an
instrument built from small C units in `audio.h`, `compakt.c`, `compakt.h` and
`utils.h`. The model covers:

- the buffers every unit reads and writes;
- the ring cursors of the recorder, looper, delay, comb, pitch shifter and FFT input;
- the gate, metro, sampler and granular player;
- the frame scheduling and bin remap of the STFT pitch shifter;
- the step sequencer;
- the scalar helpers.

Each unit is a datatype for its state and a pure function (or a method, where the C
code loops) for each operation. Samples and fractional positions are `real`.

Modules follow the source:

| module | file | what it holds |
|---|---|---|
| `Utils` | utils.dfy | `MIN`, `MAX`, `CLIP`, `nearest`, `scale` and friends; C's float-to-int truncation and `unsigned int` reduction |
| `Ring` | ring.dfy | the wrap idioms every unit uses, each in closed form, with the C `while` loops that compute them |
| `Samples` | sample.dfy | `sample_t` and the per-frame transforms, including the waveshapers |
| `Buffers` | buffer.dfy | `buffer_t`: clamped reads and writes, mono and stereo |
| `Engine` | engine.dfy | `audio_every`, `sec2samp` |
| `Generators` | generators.dfy | gate and metro |
| `Recorder`, `Looper` | recorder.dfy, looper.dfy | the recording units |
| `Regions`, `Sampler`, `Granular` | regions.dfy, sampler.dfy, granular.dfy | region playback |
| `Effects`, `Pitch` | effects.dfy, pitch.dfy | delay, comb, dual-tap pitch shifter |
| `Fft`, `Spectral`, `Stft` | fft.dfy, spectral.dfy, stft.dfy | FFT input cursor, spectral helpers and bin remap, STFT scheduling |
| `Sequencer` | sequencer.dfy | `seq_t` |

Things the C code takes from its surroundings become parameters:

- The engine's sample rate (`audio.rate`, set from the audio driver) is a positive
  natural `engineRate`.
- `powf(2, x)` in the shift control is a function `exp2`. It is constrained only by
  `Spectral.IsExp2`: positive, monotone, 1 at 0, and exact at ±4.
- Everything the STFT shift step does between windowing the history and the
  overlap-add is a function `process`. It takes a spectral state of an unspecified
  type `S` and a frame of N samples, and returns the next spectral state and N
  output samples. That covers the forward FFT, polar analysis, bin remap,
  resynthesis and inverse FFT. The state stands for what those stages carry from
  one hop to the next: the analysis and synthesis phases (compakt.c:67-74, 97-99)
  and the remap's bin 513, which is never cleared. The remap is also modelled on
  its own in `Spectral.Remap`.
- The FFT input frames come from `fftw_alloc_real`, which does not clear them, and
  FFTW planning then writes into them. Their first contents are therefore
  parameters of `Fft.Init`.
- The STFT rings are interleaved `float[2 * 2N]` arrays in C. Here they are
  sequences of 2N stereo `Sample`s.

Some behaviour of the C code that a reader might not expect, and that the model
keeps:

- `nearest` and `effect_bit` floor onto the grid, although the name `nearest`
  suggests rounding (utils.h:41, `Utils.NearestFloorsNotRounds`).
- `looper_set` passes the play position through the integer write cursor
  (audio.h:622). So toggling the looper from play to record and back restores the
  read position only when it was a whole number (`Looper.PlayRecordPlay`,
  `Looper.PlayRecordPlayLosesFraction`).
- The delay and comb tap adds the buffer length to `pos - delay` in `unsigned int`
  arithmetic and takes one remainder (audio.h:795, 840). That equals the wrapped
  difference only while the delay does not exceed the cursor plus one buffer
  length (`Effects.TapIsMod`, `Effects.TapPastBufferLength`).
- The remap's range test is `bin <= FFT_HALF_SIZE` (compakt.c:83). So bin 513, one
  past the bins the synthesis reads and clears, is also written: it accumulates
  across frames. `Spectral.Remap` states this.

## Model

| member | source | states |
|---|---|---|
| Utils.U32 | utils.h:14 | conversion to `unsigned int` lands in [0, 2^32) and keeps every value already there |
| Utils.Trunc | audio.h:622 | C's float-to-int conversion: the floor for non-negative values; for negative values the integer in [x, x + 1), that is x rounded toward zero |
| Utils.Min | utils.h:21 | MIN is at most both arguments and is one of them |
| Utils.Max | utils.h:22 | MAX is at least both arguments and is one of them |
| Utils.Abs | utils.h:26 | ABS is non-negative, is x or -x, and keeps non-negative values |
| Utils.Clip | utils.h:23 | CLIP lies in [a, b] when a <= b, returns v unchanged when it is inside, and always returns a, b or v |
| Utils.ClipMonotone | utils.h:23 | clamping is monotone and idempotent |
| Utils.Nearest | utils.h:41 | for any step r the result is a whole multiple of r; for r > 0 it is the grid point at or below v: nearest(v, r) <= v < nearest(v, r) + r |
| Utils.NearestFloorsNotRounds | utils.h:41 | nearest floors: 0.9 goes to 0 and -0.1 goes to -1 on the unit grid |
| Utils.Scale | utils.h:51-53 | scale sends in_min to out_min and in_max to out_max |
| Utils.ScaleProportional | utils.h:51-53 | scale is affine: the fraction travelled through the input range equals the fraction through the output range |
| Utils.ClipScale | utils.h:57-60 | clip_scale stays in [out_min, out_max] and agrees with scale wherever scale already does |
| Utils.Bi2Norm | utils.h:62 | bi2norm maps [-1, 1] into [0, 1] |
| Utils.Norm2Bi | utils.h:63 | norm2bi maps [0, 1] into [-1, 1], and 0.5 to 0 |
| Utils.BiNormInverse | utils.h:62-63 | bi2norm and norm2bi undo each other in both orders |
| Utils.ScaleNorm | utils.h:65-67 | scale_norm sends 0 to min and 1 to max |
| Utils.ScaleNormInRange | utils.h:65-67 | scale_norm maps [0, 1] into [min, max] |
| Utils.ScaleBi | utils.h:68-70 | scale_bi sends -1 to min, 1 to max and 0 to the midpoint |
| Utils.ScaleBiIsScale | utils.h:68-70 | scale_bi is the affine map of [-1, 1] onto [min, max], and keeps [-1, 1] inside [min, max] |
| Utils.ContainsCorners | utils.h:72-74 | contains includes all four corners of the rectangle and excludes points just outside it |
| Ring.Advance | audio.h:1004-1006 | the increment-and-reset of a cursor against a signed length keeps a cursor in [0, len) there, as (pos + 1) mod len |
| Ring.AdvanceUnsigned | audio.h:554-556 | against an unsigned buffer length the cursor lands in [0, len) from any start, since a negative cursor compares as huge and resets to 0; from a non-negative cursor it is the signed step |
| Ring.RealMod | audio.h:967-970 | the wrap of a fractional tap lands in [0, m) and leaves positions already there alone |
| Ring.RealModShift | audio.h:967-970 | adding whole periods does not change where a position wraps to |
| Ring.WrapLoop | audio.h:967-970 | the two `while` loops that wrap a fractional tap compute the Euclidean remainder |
| Ring.WrapDown | audio.h:904-905 | the one-sided wrap keeps values below m and brings non-negative values into [0, m) |
| Ring.WrapDownLoop | audio.h:904-905 | the `while (pos >= len) pos -= len` loop computes WrapDown |
| Ring.WrapIndex | compakt.c:42-46 | the index-wrapping loops of the shift step give i mod m, in [0, m) |
| Samples.Mono | audio.h:175 | make_sample1 puts the value on both channels |
| Samples.Add | audio.h:178-186 | adding silence on either side leaves a frame unchanged |
| Samples.AddCommutes | audio.h:178-186 | the order of the two frames does not matter |
| Samples.MulS | audio.h:182-188 | scaling by 1 is the identity and by 0 gives silence |
| Samples.ClipS | audio.h:194-197 | sample_clip clamps each channel on its own: below min gives min, above max gives max, inside is kept; both channels land in [min, max] |
| Samples.Lincomb | audio.h:211-214 | sample_lincomb with weights (1, 0) or (0, 1) selects one input |
| Samples.CrossfadeBetween | audio.h:211-214 | a crossfade with weight in [0, 1] lies, per channel, between its two inputs |
| Samples.Overdrive | audio.h:217-219 | each channel scaled by amt is hard-clipped: below -1 gives -1, above 1 gives 1, in range is kept |
| Samples.FoldValue | audio.h:222-231 | as written: above amt the value reflects across amt; between -1 and amt it passes; below -1 it moves by -2 amt |
| Samples.Fold | audio.h:222-231 | effect_fold applies the as-written fold to each channel |
| Samples.FoldLowerSideDiverges | audio.h:226-227 | the lower branch pushes -1.5 to -3.5 with amt = 1, where reflection gives -0.5; with amt = 0.25, -0.5 is not folded |
| Samples.FoldSymmetricBounded | audio.h:222-231 | the symmetric fold brings [-3 amt, 3 amt] into [-amt, amt] and is odd |
| Samples.FoldSymmetric | audio.h:222-231 | the corrected fold of a frame keeps each channel within [-amt, amt] for inputs within three thresholds |
| Samples.Bit | audio.h:234-237 | effect_bit puts each channel on a multiple of 1/bit, the one at or below it, less than 1/bit away |
| Buffers.LastIndex | audio.h:390 | `len - 1` on an unsigned length is UINT_MAX for an empty buffer |
| Buffers.ClampIndex | audio.h:390 | every requested frame, negative or past the end, is clamped to an existing frame; in-range frames are kept |
| Buffers.SlotInBounds | audio.h:391 | channel c of a clamped frame lies inside the storage |
| Buffers.SlotsDisjoint | audio.h:391 | different frames occupy different storage slots |
| Buffers.SlotOf | audio.h:391 | channel c of the clamped frame sits at frame times chans plus c, inside the storage |
| Buffers.Read1 | audio.h:386-392 | null storage reads 0; otherwise the read is of the clamped frame's channel |
| Buffers.Read | audio.h:395-406 | null storage reads silence; a mono buffer duplicates its value, a wider one yields its first two channels, of the clamped frame |
| Buffers.Write | audio.h:409-419 | null storage is left as is; otherwise every frame other than the clamped target keeps its contents, and the metadata is unchanged |
| Buffers.ReadAfterWrite | audio.h:401-419 | reading back the written frame gives the sample for a stereo buffer and left + right on both channels for a mono one |
| Buffers.WriteLeavesOtherFrames | audio.h:409-419 | a read that clamps to another frame sees the same sample after a write |
| Buffers.WriteLeavesOthers | audio.h:409-419 | after a write every frame that clamps elsewhere reads as before |
| Buffers.RateScale | audio.h:422-424 | the scaled rate is the rate times the buffer's rate over the engine's rate: r · engine rate = rate · buffer rate, so a buffer at the engine's rate plays at the given rate |
| Buffers.Init | audio.h:353-359 | a new buffer has the requested shape at the engine's rate and reads zero everywhere |
| Engine.Every | audio.h:240 | audio_every holds exactly on multiples of t |
| Engine.EveryOncePerPeriod | audio.h:240 | in every run of t frames starting at a multiple of t, exactly the first passes |
| Engine.Sec2Samp | audio.h:267 | the frame count is the floor of sec times the rate, and non-negative for non-negative times |
| Generators.GateInit | audio.h:280 | a new gate is off, with zero memory and threshold |
| Generators.GateUpdate | audio.h:290-295 | the gate fires iff the previous input was below the threshold and the new one reaches it; it remembers the input |
| Generators.GateFiresOnRisingEdges | audio.h:290-295 | over any run of inputs the gate fires exactly at the frames where the input crosses the threshold upward |
| Generators.GateNoDoubleTrigger | audio.h:290-295 | the gate never fires on two frames in a row |
| Generators.MetroInit | audio.h:640-645 | a new metro is active, repeating, counts from 0 and ticks once per second |
| Generators.MetroUpdate | audio.h:655-670 | an inactive metro returns false and does not change; an active one fires iff the count reaches dur, then resets and a one-shot disarms |
| Generators.MetroUpdateBlock | audio.h:673-680 | the block loop returns the state and the tick count of one update per frame |
| Generators.MetroRunCounts | audio.h:655-680 | a running repeating metro ticks (value + n) / dur times in n frames and holds the remainder |
| Generators.MetroBlockExample | audio.h:673-680 | with dur 100, a 250-frame block from a fresh count ticks twice and leaves the count at 50 |
| Generators.MetroOneShot | audio.h:664-665 | a one-shot metro ticks at most once and is inactive after it has |
| Recorder.Init | audio.h:538 | a new recorder has no buffer and its cursor at 0 |
| Recorder.Update | audio.h:548-557 | without a buffer nothing changes; otherwise the input is written at the cursor (a stereo buffer reads it back, a mono one reads left + right), every other frame keeps its contents, and the cursor moves to (pos + 1) mod len |
| Recorder.RunCursor | audio.h:548-557 | after n frames the cursor is (pos + n) mod len |
| Looper.Init | audio.h:572-580 | a new looper records into a silent stereo buffer, cursors at 0, dur and speed 1 |
| Looper.NextRead | audio.h:603-608 | a step that stays in [0, len dur) is taken as is; a step reaching len dur restarts at 0; a step below 0 jumps to (len - 1) dur; for dur > 0 the position stays in [0, len dur) |
| Looper.Update | audio.h:593-614 | recording returns the input, stores it at the write cursor, touches no other frame and advances the cursor to (write + 1) mod len; playing steps the read position and returns the frame at its floor |
| Looper.Set | audio.h:617-627 | setting the current mode is a no-op; record to play starts reading at the write cursor; play to record writes from the read position truncated toward zero |
| Looper.RecordFromNegativeCursor | audio.h:595-599 | a negative write cursor stores at frame 0 and resets to 0, through the clamp and the unsigned length test |
| Looper.RecordPlayRecord | audio.h:617-627 | record, play, record restores the write cursor |
| Looper.PlayRecordPlay | audio.h:617-627 | play, record, play restores the read position iff it was a whole number |
| Looper.PlayRecordPlayLosesFraction | audio.h:622 | a read position of 2.5 comes back as 2 |
| Regions.Range | audio.h:710-713 | the region is ordered within [0, 1] whatever the arguments, and in-range ordered arguments are kept |
| Regions.RangeSymmetric | audio.h:710-713 | the order of the two ends does not matter |
| Regions.Dur | audio.h:716-720 | the start is clipped into [0, 1] (kept when inside, 0 below, 1 above); the end is start + dur when that lies in [0, 1], and is clipped otherwise; a non-negative length gives an ordered region |
| Regions.FramesOrdered | audio.h:744-745 | an ordered region spans frames from 0 to len - 1, start first |
| Regions.Restart | audio.h:746-756 | the restart position lies in the region: its start going forward, its end going backward |
| Regions.StepStaysWithin | audio.h:742-756 | a non-negative step from inside the region followed by the loop rule stays inside |
| Sampler.Init | audio.h:695-700 | a new sampler has no buffer, plays the whole buffer forward at rate 1, loops, and is idle |
| Sampler.SetRange | audio.h:710-713 | only the region changes, and it becomes ordered |
| Sampler.SetDur | audio.h:716-720 | only the region changes, set from a start and a length |
| Sampler.Trigger | audio.h:726-732 | without a buffer nothing happens; otherwise the sampler starts at the leading edge for its direction, which lies inside the region |
| Sampler.Update | audio.h:735-759 | without a buffer or while idle it returns silence and changes nothing; otherwise it returns the frame at the floored position and steps by the scaled rate; past the trailing edge a looping sampler restarts, a one-shot stops where the step left it; buffer, region, direction, rate and loop flag are kept |
| Sampler.LoopStaysWithin | audio.h:742-756 | a looping sampler inside its region stays inside and active |
| Sampler.LoopPlaysEveryFrame | audio.h:735-759 | looping over the whole buffer at its own rate, after n frames the position is n mod len and the next output is that frame |
| Granular.Init | audio.h:865-873 | a new grain reader has grains of 256 frames over the whole buffer, forward at rate 1 |
| Granular.SetRange | audio.h:883-886 | only the region changes, and it becomes ordered |
| Granular.SetDur | audio.h:889-893 | only the region changes, set from a start and a length |
| Granular.GrainStep | audio.h:907-915 | between re-syncs the grain moves by the scaled rate in its direction, and one that overshoots the region restarts at the leading edge |
| Granular.Update | audio.h:896-924 | without a buffer it returns silence; otherwise it returns the frame at the grain position, the steady cursor wraps into [0, len), the clock counts modulo size, the grain steps by the scaled rate with a restart at the region edge, and when the clock reaches size the grain jumps to the steady cursor instead |
| Granular.GrainClock | audio.h:903-921 | after n frames the grain clock is (t + n) mod size and the steady cursor is inside the buffer |
| Granular.GrainRestarts | audio.h:917-921 | every size frames the grain position equals the steady cursor |
| Granular.GrainStaysWithin | audio.h:907-915 | between re-syncs a grain inside an ordered region stays inside it |
| Effects.Tap | audio.h:795 | the tap index computed in unsigned arithmetic always lies in [0, len) |
| Effects.TapIsMod | audio.h:795 | while k + len is a valid unsigned value, the tap is k mod len |
| Effects.TapFindsEcho | audio.h:795-803 | a tap d frames behind a cursor that has moved d frames since frame p was written reads frame p |
| Effects.TapPastBufferLength | audio.h:795 | past one buffer length the unsigned wrap differs from the remainder: len 3, k = -4 reads frame 0, not 2 |
| Effects.DelayInit | audio.h:776-781 | a new delay is a silent stereo line with zero delay and half mix |
| Effects.DelayTap | audio.h:795 | the delay's tap lies inside its line |
| Effects.DelayUpdate | audio.h:794-806 | the delay returns the tap, writes the crossfade of input and tap back at the cursor, leaves every other frame alone, and advances the cursor |
| Effects.DelayDryAtFullMix | audio.h:798-799 | at mix 1 the line stores the dry input |
| Effects.CombInit | audio.h:821-826 | a new comb is a stereo line of sec2samp(COMB_MAX) frames with del 0.01 |
| Effects.CombAt48k | audio.h:821-826 | at 48 kHz the comb line is 4800 frames; in exact arithmetic the initial delay is 48 frames |
| Effects.CombTap | audio.h:840-841 | the comb's tap lies inside its line |
| Effects.CombUpdate | audio.h:839-850 | the comb returns input plus tap, writes the dry input back, leaves every other frame alone, and advances the cursor |
| Pitch.Init | audio.h:941-947 | a new shifter has silent lines, both channels' taps at 0 and half a line, no shift, and is active |
| Pitch.Tri | audio.h:981-983 | the triangular gain is in [0, 1] and is 0 exactly at the middle of the line |
| Pitch.TapIndex | audio.h:987-989 | the read index, wrapped once, lies in the line and is the truncated position mod the line length |
| Pitch.Offsets | audio.h:965-978 | tap 0 drifts by pitch and wraps into the line; tap 1 sits half a line away, also inside |
| Pitch.LineUpdate | audio.h:962-1002 | one channel stores the input at the write cursor, moves both taps, and outputs the two taps weighted by each other's triangular gain |
| Pitch.CrossGains | audio.h:982-983 | the code's env1 and env0 are the triangular gains of tap 0 and tap 1 |
| Pitch.GainsCrossfade | audio.h:980-983 | the two gains sum to one, and a tap on the line's wrap point has gain zero |
| Pitch.OutputBetweenTaps | audio.h:991-998 | each channel's output lies between its two tap values |
| Pitch.ZeroPitchHolds | audio.h:965-970 | with no shift the taps stay where they are |
| Pitch.Update | audio.h:957-1009 | an inactive shifter passes the input through unchanged; an active one updates both channels and advances the write cursor mod the line length |
| Fft.Init | audio.h:443-452 | both channels get a frame of FFT_SIZE values, whose contents are left as given, and the cursor starts at 0 |
| Fft.Put | audio.h:463-468 | a present channel stores the value at the cursor and keeps every other slot; a missing one is skipped |
| Fft.Update | audio.h:462-473 | both channels store at the cursor, which moves to (pos + 1) mod FFT_SIZE |
| Fft.RunCursor | audio.h:462-473 | after n inputs the cursor is (pos + n) mod FFT_SIZE and the newest input sits just behind it |
| Spectral.WindowEnds | compakt.c:9 | the window is 0 at both ends of the frame |
| Spectral.Window | compakt.c:9 | the window lies in [0, 1] over the frame |
| Spectral.WindowSymmetric | compakt.c:9 | window(i) = window(N - 1 - i) |
| Spectral.Fmod | compakt.c:12-14 | fmodf keeps the dividend's sign, is smaller than the divisor in size whatever its sign, and is the identity on values already smaller |
| Spectral.FmodSign | compakt.c:12-14 | the sign of the divisor does not change fmodf |
| Spectral.Wrap | compakt.c:10-15 | wrap lands in [-PI, PI] and leaves phases in (-PI, PI) unchanged |
| Spectral.WrapTurn | compakt.c:10-15 | adding a whole turn to a non-negative phase does not change its wrap |
| Spectral.PitchshiftChanged | compakt.c:35-38 | the shift is positive, 1 at control 0.5, and within [1/16, 16] over [0, 1] |
| Spectral.PitchshiftMonotone | compakt.c:36-38 | a higher control never gives a lower shift |
| Spectral.Dest | compakt.c:82 | a source bin with a non-negative shift lands on a non-negative bin |
| Spectral.LastInto | compakt.c:83-85 | the last source that lands on a bin, if any, does land there |
| Spectral.Clear | compakt.c:76 | bins below FFT_HALF_SIZE are zeroed and the rest are kept |
| Spectral.RemapStep | compakt.c:82-86 | moving one source bin advances the remap state by exactly that bin's contribution |
| Spectral.Remap | compakt.c:76-88 | each cleared bin ends with the summed magnitudes and the last-written scaled frequency of its sources; bin FFT_HALF_SIZE adds onto its old value; higher bins are untouched; shift 1 is the identity |
| Spectral.RemapIdentity | compakt.c:82-85 | with shift 1 every bin receives exactly itself |
| Spectral.RemapOctaveUp | compakt.c:82-84 | with shift 2 source f lands on 2 f, so odd bins stay empty |
| Spectral.RemapCollision | compakt.c:84-85 | with shift 0.5 sources 1 and 2 collide: magnitudes add and the later frequency wins |
| Stft.Init | compakt.c:325-327 | the cursors start at rec = read = hopcounter = 0, write = N + HOP, aligned, with silent rings |
| Stft.Slot | compakt.c:42-46 | every history and overlap-add index is inside the 2N ring |
| Stft.History | compakt.c:41-50 | slot f of the history frame is the frame recorded N - f frames before rec, windowed by window(f) |
| Stft.HistoryIsLatest | compakt.c:41-46 | the history frame reads N distinct slots, ending with the frame recorded just before rec |
| Stft.ExtractFrame | compakt.c:41-50 | the history loop with its index wraps builds the windowed history frame |
| Stft.SlotSource | compakt.c:109-114 | the overlap-add position and ring slot determine each other |
| Stft.OverlapAdd | compakt.c:109-118 | position f of the processed frame, windowed and divided by N, is added onto ring slot write - N + f; slots outside those N keep their contents |
| Stft.OverlapAddLoop | compakt.c:109-118 | the overlap-add loop adds each windowed frame sample, divided by N, onto its own slot and leaves the other N slots alone |
| Stft.ShiftStep | compakt.c:109-122 | the shift step overlap-adds the processed history at write, keeps the new spectral state, touches nothing else, and moves write by HOP mod 2N |
| Stft.Frame | compakt.c:205-229 | a frame records the input at rec, plays and zeroes out[read], advances both cursors mod 2N, and fires the shift step iff the hop counter reaches HOP; a fired frame overlap-adds the processed new history onto the zeroed ring and updates the spectral state, an unfired one keeps both; the alignment write = read + N + HOP - hopcounter is kept, and at a shift step write is N ahead of the next read |
| Stft.StepAlignment | compakt.c:221-229 | a frame without a shift step keeps the cursors aligned |
| Stft.FiredAlignment | compakt.c:219-229 | at a shift step write is N slots ahead of the next read, the alignment survives, and the slot just played is not refilled |
| Stft.OverlapFeedsNextReads | compakt.c:109-114 | at a shift step, overlap-add position f lands on the slot played f frames later |
| Stft.RunCursors | compakt.c:205-229 | over n frames read moves n slots mod 2N and the cursors stay aligned |
| Stft.RunHops | compakt.c:225-229 | over n frames the shift step runs (hopcounter + n) / HOP times and the counter holds the remainder |
| Stft.HopsFromInit | compakt.c:225-229 | from the set-up, k HOP frames run exactly k shift steps |
| Sequencer.Init | compakt.h:23-29 | seq_init sets size, step 1 and pos 0 |
| Sequencer.Step | compakt.h:61-67 | the unsigned cursor stays below size; an in-range step is taken and a forward overrun resets to 0 |
| Sequencer.BackwardFromZeroStays | compakt.h:62-66 | stepping back from 0 stays at 0, because the `pos < 0` test on an unsigned cursor never holds |
| Sequencer.BackwardStep | compakt.h:61-67 | stepping back from a positive position moves one step back |
| Sequencer.ForwardCycles | compakt.h:61-67 | with step 1 the cursor after n steps is (pos + n) mod size |
| Sequencer.StepValue | compakt.h:70-83 | seq_step_b and seq_step_f return the value under the cursor before it steps |
| Sequencer.ReadsInOrder | compakt.h:70-83 | stepping through from the start reads the values in order, cyclically |

## Left out

- The JACK driver (`audio_init`, `audio_start`, `audio_stop`, `jack_callback`) and `audio_out`, `audio_set`, `audio_get`, `audio_in`. These are host I/O.
- `buffer_load` and WAV decoding: a foreign call. Loaded buffers enter the model as `Buffer` values.
- FFTW plans and transforms (`fft_init`'s plan creation, `fft_r2c`, `fft_c2r`, `fft_destroy`, `fft_write`, `fft_play`), `carte2polar` and `polar2carte`. These are opaque numerics. They are folded into the `process` parameter of the STFT shift step.
- The phase-deviation arithmetic of the analysis and resynthesis loops, and the smoothed `radii` display envelope. These are floating-point numerics that feed only the opaque `process` and the renderer.
- `oscil_update`, `sample_wrap`, `samp2sec`, and the biquad filter, including its coefficients and the `freq >= 10` and `res >= 0.001` clamps. These are transcendental numerics not needed by the bookkeeping.
- gui.h, midi.h, `main`, `midi_callback` and the parameter callbacks of compakt.c. These are rendering, controller input and wiring.
- The effect chain inside `audio_callback` (sampler trigger, comb, filter, delay, crush, looper, volume). Each unit is modelled on its own; only the STFT cursor and hop logic of the callback is modelled as a whole.
- The metro's `on_trigger` callback and `sampler_set`. A callback is a foreign call; `sampler_set` only replaces the buffer reference.
- `irand`, `frand`, `chance`, and the `*_new`/`*_destroy` allocation functions. These are randomness and memory management.
- Cross-thread sharing of parameters: concurrency.
- Float precision and rounding. Every float is a `real`, so results the C code computes inexactly (for example a wrapped tap landing exactly on the line length) are exact here.
- Overflow of the `int` counters (metro count, grain clock, cursors), which would take more than 2^31 frames, and buffers of 2^31 frames or more.
- Ring.AdvanceUnsigned: assumes buffer lengths below 2^31. Only then does every negative `int` cursor compare as at least the length.
- Buffers.Valid: a buffer with storage has at least one frame. With no frames `len - 1` is UINT_MAX and every C access is out of bounds.
- Buffers.Valid: a buffer with storage has at least one channel. With no channels `buffer_read` reads `data[0]` and `data[1]` of an empty allocation.
- Granular.Valid: a held buffer has at least one frame, because `while (pos >= len) pos -= len` never ends on an empty buffer.
- Granular.Update: `(uint)floorf(gpos)` is modelled as the floor passed on as a signed frame index. The C conversion is undefined for negative positions, and it wraps through `int` above 2^31.
- Utils.Nearest: requires r != 0.0. The C code divides by zero there and yields NaN.
- Engine.Every: requires t != 0. The C `%` by zero is undefined (audio.h:240).
- Utils.Scale: requires in_min != in_max. The C code divides by zero there and yields an infinity or NaN.
- Samples.Bit: requires bit >= 1. Zero divides by zero; the only caller passes a value in [1, 16].
- Spectral.Remap: requires shift >= 0. The shift comes from `powf` and is always positive (`Spectral.PitchshiftChanged`).
- Spectral.PitchshiftChanged: states only what follows from the listed properties of `powf`, not its exact values.
- Effects.CombInit: requires a line of at least one frame, that is an engine rate of at least 10 Hz.
- Effects.TapFindsEcho: stated for lines shorter than 2^31 frames, where the unsigned sum cannot wrap.
- Effects.DelayTap: the `floorf` around the integer difference is the identity and is not modelled.
- Stft.ShiftStep: the processed frame and the next spectral state are any function of the windowed history and the current spectral state. What that state holds (phases, magnitudes, frequencies), and the reconstruction tolerance of the 4:1 overlap, belong to the numerics left out above.
- Fft.Init: the first contents of the input frames are parameters. What FFTW planning leaves in them is not modelled.
- Effects.CombAt48k: the 48-frame delay holds in exact arithmetic. In single precision 0.01f · 0.1 · 48000 comes out just below 48, so `floorf` gives 47.

## Findings

| source | as written | input that shows it | evidently intended | confidence | as-written member | corrected member |
|---|---|---|---|---|---|---|
| audio.h:226-227 | the lower side of `effect_fold` tests `v < -1.0` whatever `amt` is, and sets `-(amt - (v - amt))`, which is `v - 2 amt` | amt = 1, v = -1.5 gives -3.5, further out than it went in, where reflecting across -1 gives -0.5; amt = 0.25, v = -0.5 passes through unfolded although it is below -amt | reflect across -amt: `v < -amt` gives `-amt - (v + amt)`, mirroring the upper side | likely, not executed | Samples.FoldValue, Samples.FoldLowerSideDiverges | Samples.FoldSymmetric, Samples.FoldSymmetricBounded |
