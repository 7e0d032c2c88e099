/** seq_t of compakt.h: a step sequencer whose cursor is an `unsigned
    int` moved by a signed step and wrapped at the sequence's size. The
    widgets holding the step values are abstracted as a sequence of values. */
module Sequencer {
  import opened Utils
  import opened Ring

  /** `pos` and `size` hold `unsigned int` values. */
  datatype Sequencer = Sequencer(step: int, pos: int, size: int)

  predicate Valid(s: Sequencer)
  {
    0 <= s.pos < UINT_RANGE && 0 <= s.size < UINT_RANGE
  }

  /** seq_init */
  function Init(size: int): (s: Sequencer)
    requires 0 <= size < UINT_RANGE
    ensures Valid(s) && s.size == size && s.step == 1 && s.pos == 0
  {
    Sequencer(1, 0, size)
  }

  /** seq_step: `pos += step` in unsigned arithmetic, then the wrap. The
      second test, `pos < 0`, is on an unsigned value and never holds. */
  function Step(s: Sequencer): (r: Sequencer)
    requires Valid(s)
    ensures Valid(r) && r.step == s.step && r.size == s.size
    ensures s.size > 0 ==> r.pos < s.size
    ensures 0 <= s.pos + s.step < s.size ==> r.pos == s.pos + s.step
    ensures s.pos + s.step >= s.size && s.pos + s.step < UINT_RANGE ==> r.pos == 0
  {
    var p := U32(s.pos + s.step);
    if p >= s.size then s.(pos := 0)
    else if p < 0 then s.(pos := U32(s.size - 1))
    else s.(pos := p)
  }

  /** Stepping back from 0 does not reach the last step: the unsigned sum
      is UINT_MAX, which is at least size, so the cursor goes to 0. */
  lemma BackwardFromZeroStays(s: Sequencer)
    requires Valid(s) && s.step == -1 && s.pos == 0
    ensures Step(s).pos == 0
  {
  }

  /** Stepping back from anywhere else moves one step back. */
  lemma BackwardStep(s: Sequencer)
    requires Valid(s) && s.step == -1 && 0 < s.pos < s.size
    ensures Step(s).pos == s.pos - 1
  {
  }

  /** n steps in a row. */
  function Run(s: Sequencer, n: nat): (r: Sequencer)
    requires Valid(s)
    ensures Valid(r) && r.step == s.step && r.size == s.size
    decreases n
  {
    if n == 0 then s else Step(Run(s, n - 1))
  }

  /** With step 1 the cursor cycles through 0 .. size - 1. */
  lemma {:induction false} ForwardCycles(s: Sequencer, n: nat)
    requires Valid(s) && s.step == 1 && 0 <= s.pos < s.size
    ensures Run(s, n).pos == (s.pos + n) % s.size
    decreases n
  {
    if n > 0 {
      ForwardCycles(s, n - 1);
      ForwardStep(Run(s, n - 1), s.pos + (n - 1), s.pos + n);
    } else {
      DivModUnique(s.pos, s.size, 0, s.pos);
    }
  }

  /** One step forward from the cursor a counter a has reached: the cursor
      then stands where the next count b = a + 1 does. */
  lemma ForwardStep(s: Sequencer, a: int, b: int)
    requires Valid(s) && s.step == 1 && s.size >= 1 && a >= 0 && s.pos == a % s.size
    requires b == a + 1
    ensures Step(s).pos == b % s.size
  {
    DivModUnique(a, s.size, a / s.size, a % s.size);
    if s.pos + 1 < s.size {
      DivModUnique(s.pos + 1, s.size, 0, s.pos + 1);
    } else {
      DivModUnique(s.pos + 1, s.size, 1, 0);
    }
    ModOfMod(a, 1, s.size);
  }

  /** seq_step_b, seq_step_f: the value under the cursor, taken before the
      cursor steps. */
  function StepValue<T>(s: Sequencer, values: seq<T>): (r: (Sequencer, T))
    requires Valid(s) && |values| == s.size && s.pos < s.size
    ensures r.0 == Step(s) && r.1 == values[s.pos]
    ensures r.0.pos < |values|
  {
    (Step(s), values[s.pos])
  }

  /** Reading through a sequence with step 1 from its start yields its
      values in order, starting again after the last. */
  lemma ReadsInOrder<T>(s: Sequencer, values: seq<T>, n: nat)
    requires Valid(s) && s.step == 1 && s.pos == 0 && |values| == s.size > 0
    ensures StepValue(Run(s, n), values).1 == values[n % s.size]
  {
    ForwardCycles(s, n);
  }
}
