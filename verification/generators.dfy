/** The event sources of audio.h: the threshold gate, which reports rising
    edges of a control signal, and the metro, which counts frames and fires
    every `dur` of them. */
module Generators {
  import opened Ring

  /** gate_t */
  datatype Gate = Gate(value: bool, prev: real, threshold: real)

  /** gate_init: everything zero. */
  function GateInit(): (g: Gate)
    ensures !g.value && g.prev == 0.0 && g.threshold == 0.0
  {
    Gate(false, 0.0, 0.0)
  }

  /** gate_update: fires when the input reaches the threshold from below. */
  function GateUpdate(g: Gate, input: real): (r: Gate)
    ensures r.threshold == g.threshold && r.prev == input
    ensures r.value <==> g.prev < g.threshold <= input
  {
    Gate(g.prev < g.threshold && input >= g.threshold, input, g.threshold)
  }

  /** The gate's outputs for a run of inputs, one per input. */
  function GateOutputs(g: Gate, inputs: seq<real>): (out: seq<bool>)
    ensures |out| == |inputs|
    decreases |inputs|
  {
    if |inputs| == 0 then []
    else
      var g' := GateUpdate(g, inputs[0]);
      [g'.value] + GateOutputs(g', inputs[1..])
  }

  /** Over any run, the gate fires at i > 0 exactly where the input crosses
      the threshold between frames i - 1 and i, and at 0 where it crosses
      from the value the gate remembered. */
  lemma {:induction false} GateFiresOnRisingEdges(g: Gate, inputs: seq<real>)
    ensures |inputs| > 0 ==>
      (GateOutputs(g, inputs)[0] <==> g.prev < g.threshold <= inputs[0])
    ensures forall i :: 0 < i < |inputs| ==>
      (GateOutputs(g, inputs)[i] <==> inputs[i - 1] < g.threshold <= inputs[i])
    decreases |inputs|
  {
    if |inputs| > 0 {
      var g' := GateUpdate(g, inputs[0]);
      var rest := inputs[1..];
      GateFiresOnRisingEdges(g', rest);
      forall i | 0 < i < |inputs|
        ensures GateOutputs(g, inputs)[i] <==> inputs[i - 1] < g.threshold <= inputs[i]
      {
        assert GateOutputs(g, inputs)[i] == GateOutputs(g', rest)[i - 1];
        assert rest[i - 1] == inputs[i];
        if i > 1 {
          assert rest[i - 2] == inputs[i - 1];
        }
      }
    }
  }

  /** The gate never fires on two frames in a row. */
  lemma GateNoDoubleTrigger(g: Gate, a: real, b: real)
    ensures GateUpdate(g, a).value ==> !GateUpdate(GateUpdate(g, a), b).value
  {
  }

  /** metro_t: `value` counts frames since the last tick. The trigger
      callback is not modelled. */
  datatype Metro = Metro(value: int, dur: int, active: bool, oneshot: bool)

  /** metro_init: active, repeating, one tick per second of audio. */
  function MetroInit(engineRate: nat): (m: Metro)
    ensures m.active && !m.oneshot && m.value == 0 && m.dur == engineRate
  {
    Metro(0, engineRate, true, false)
  }

  /** metro_update: counts one frame; on reaching dur it resets the count,
      fires, and a one-shot metro switches itself off. */
  function MetroUpdate(m: Metro): (r: (Metro, bool))
    ensures !m.active ==> r == (m, false)
    ensures r.0.dur == m.dur && r.0.oneshot == m.oneshot
    ensures m.active ==> (r.1 <==> m.value + 1 >= m.dur)
    ensures r.1 ==> r.0.value == 0 && (r.0.active <==> !m.oneshot)
    ensures m.active && !r.1 ==> r.0.value == m.value + 1 && r.0.active
  {
    if !m.active then (m, false)
    else if m.value + 1 >= m.dur then
      (m.(value := 0, active := !m.oneshot), true)
    else
      (m.(value := m.value + 1), false)
  }

  /** n successive updates: the final state and the number of ticks. */
  function MetroRun(m: Metro, n: nat): (r: (Metro, nat))
    ensures r.0.dur == m.dur && r.0.oneshot == m.oneshot
    ensures r.1 <= n
    decreases n
  {
    if n == 0 then (m, 0)
    else
      var (m', c) := MetroRun(m, n - 1);
      var (m'', fired) := MetroUpdate(m');
      (m'', if fired then c + 1 else c)
  }

  /** metro_update_block: the ticks over one audio block of `frames` frames. */
  method MetroUpdateBlock(m: Metro, frames: nat) returns (m': Metro, c: nat)
    ensures (m', c) == MetroRun(m, frames)
  {
    m', c := m, 0;
    var i := 0;
    while i < frames
      invariant 0 <= i <= frames
      invariant (m', c) == MetroRun(m, i)
    {
      var step := MetroUpdate(m');
      m' := step.0;
      if step.1 {
        c := c + 1;
      }
      i := i + 1;
    }
  }

  /** A running repeating metro ticks once every dur frames: after n frames
      it has ticked (value + n) / dur times and holds the remainder. */
  lemma {:induction false} MetroRunCounts(m: Metro, n: nat)
    requires m.active && !m.oneshot
    requires 0 <= m.value < m.dur
    ensures MetroRun(m, n).1 == (m.value + n) / m.dur
    ensures MetroRun(m, n).0 == m.(value := (m.value + n) % m.dur)
    decreases n
  {
    if n > 0 {
      MetroRunCounts(m, n - 1);
      DivModSucc(m.value + n - 1, m.dur);
    } else {
      DivModUnique(m.value, m.dur, 0, m.value);
    }
  }

  /** At 100 frames per tick, a block of 250 frames from a fresh count ticks twice. */
  lemma MetroBlockExample(m: Metro)
    requires m.active && !m.oneshot && m.value == 0 && m.dur == 100
    ensures MetroRun(m, 250).1 == 2
    ensures MetroRun(m, 250).0.value == 50
  {
    MetroRunCounts(m, 250);
    DivModUnique(m.value + 250, m.dur, 2, 50);
  }

  /** A one-shot metro ticks at most once, and is off after it has. */
  lemma {:induction false} MetroOneShot(m: Metro, n: nat)
    requires m.oneshot
    ensures MetroRun(m, n).1 <= 1
    ensures MetroRun(m, n).1 == 1 ==> !MetroRun(m, n).0.active
    ensures !m.active ==> MetroRun(m, n) == (m, 0)
    decreases n
  {
    if n > 0 {
      MetroOneShot(m, n - 1);
    }
  }
}
