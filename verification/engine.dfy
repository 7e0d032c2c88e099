/** The per-frame helpers of the audio engine in audio.h: sub-block gating
    and the seconds-to-frames conversion at the engine's sample rate. */
module Engine {
  import opened Utils
  import Ring

  /** audio_every: true on the frames of the block whose index is a multiple of t. */
  function Every(pos: int, t: int): (r: bool)
    requires t != 0
    ensures r <==> pos == t * (pos / t)
  {
    pos % t == 0
  }

  /** Within each run of t consecutive frames starting at a multiple of t,
      exactly the first one passes audio_every. */
  lemma EveryOncePerPeriod(k: int, j: int, t: int)
    requires t >= 1
    requires 0 <= j < t
    ensures Every(k * t + j, t) <==> j == 0
  {
    assert k * t + j == t * k + j;
    Ring.DivModUnique(k * t + j, t, k, j);
  }

  /** sec2samp: the whole number of frames in sec seconds (floored). */
  function Sec2Samp(sec: real, rate: nat): (n: int)
    ensures n as real <= sec * rate as real < n as real + 1.0
    ensures sec >= 0.0 ==> n >= 0
  {
    if sec >= 0.0 then
      MulLeft(0.0, sec, rate as real);
      (sec * rate as real).Floor
    else
      (sec * rate as real).Floor
  }
}
