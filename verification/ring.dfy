/** Ring cursors: the wrap-around idioms every unit of audio.h and
    compakt.c uses, each given once in closed form, with the C loops that
    compute them shown to agree with that form. */
module Ring {
  import opened Utils

  /** `pos++; if (pos >= len) pos = 0;` */
  function Advance(pos: int, len: int): (r: int)
    ensures 0 <= pos && 1 <= len ==> 0 <= r < len
    ensures 0 <= pos < len ==> r == (pos + 1) % len
  {
    if pos + 1 >= len then 0 else pos + 1
  }

  /** The same step on an `int` cursor compared with an `unsigned int`
      length (`if (pos >= B->len)`): the cursor is converted to unsigned
      for the comparison, so a negative cursor compares as at least 2^31,
      above any buffer length, and also resets to 0. */
  function AdvanceUnsigned(pos: int, len: nat): (r: int)
    ensures 0 <= r
    ensures 1 <= len ==> r < len
    ensures 0 <= pos < len ==> r == (pos + 1) % len
    ensures 0 <= pos ==> r == Advance(pos, len)
    ensures pos + 1 < 0 ==> r == 0
  {
    if pos + 1 < 0 || pos + 1 >= len then 0 else pos + 1
  }

  /** The Euclidean remainder of a real position by a positive period. */
  function RealMod(x: real, m: real): (r: real)
    requires m > 0.0
    ensures 0.0 <= r < m
    ensures 0.0 <= x < m ==> r == x
  {
    NearestBounds(x, m);
    if 0.0 <= x < m then
      assert (x / m).Floor == 0 by {
        MulLeft(x / m, 1.0, m);
      }
      x - Nearest(x, m)
    else
      x - Nearest(x, m)
  }

  /** Moving a position by a whole number of periods does not change where it wraps to. */
  lemma RealModShift(x: real, m: real, k: int)
    requires m > 0.0
    ensures RealMod(x + k as real * m, m) == RealMod(x, m)
  {
    var y := x + k as real * m;
    assert y / m == x / m + k as real;
    assert (y / m).Floor == (x / m).Floor + k;
  }

  /** The two `while` loops of pitch_update that bring a fractional tap
      position into [0, m); they compute RealMod. */
  method WrapLoop(x: real, m: nat) returns (r: real)
    requires m >= 1
    ensures r == RealMod(x, m as real)
  {
    r := x;
    while r >= m as real
      invariant RealMod(r, m as real) == RealMod(x, m as real)
      decreases r.Floor
    {
      FloorDown(r, m);
      RealModShift(r - m as real, m as real, 1);
      r := r - m as real;
    }
    while r < 0.0
      invariant r < m as real
      invariant RealMod(r, m as real) == RealMod(x, m as real)
      decreases -r.Floor
    {
      FloorDown(r + m as real, m);
      RealModShift(r, m as real, 1);
      r := r + m as real;
    }
  }

  /** Subtracting a whole number moves the floor by that number. */
  lemma FloorDown(x: real, m: int)
    ensures (x - m as real).Floor == x.Floor - m
  {
  }

  /** One-sided wrap: `while (x >= m) x -= m;` leaves values below m alone. */
  function WrapDown(x: real, m: real): (r: real)
    requires m > 0.0
    ensures r < m
    ensures x < m ==> r == x
    ensures 0.0 <= x ==> 0.0 <= r
  {
    if x < m then x else RealMod(x, m)
  }

  /** The loop of gran_update that computes WrapDown. */
  method WrapDownLoop(x: real, m: nat) returns (r: real)
    requires m >= 1
    ensures r == WrapDown(x, m as real)
  {
    r := x;
    while r >= m as real
      invariant x >= m as real ==> RealMod(r, m as real) == RealMod(x, m as real)
      invariant x < m as real ==> r == x
      invariant x >= m as real ==> r >= 0.0
      decreases r.Floor
    {
      FloorDown(r, m);
      RealModShift(r - m as real, m as real, 1);
      r := r - m as real;
    }
  }

  /** The index-wrapping loops of fft_pitchshift:
      `while (I < 0) I += m; while (I >= m) I -= m;` */
  method WrapIndex(i: int, m: int) returns (r: int)
    requires m >= 1
    ensures 0 <= r < m
    ensures r == i % m
  {
    r := i;
    while r < 0
      invariant r % m == i % m
      decreases -r
    {
      ModShift(r, m);
      r := r + m;
    }
    while r >= m
      invariant r >= 0
      invariant r % m == i % m
      decreases r
    {
      ModShift(r - m, m);
      r := r - m;
    }
  }

  /** Adding the modulus does not change the remainder. */
  lemma ModShift(x: int, m: int)
    requires m >= 1
    ensures (x + m) % m == x % m
  {
    DivModUnique(x + m, m, x / m + 1, x % m);
  }

  /** d t >= d for d >= 0 and t >= 1. */
  lemma MulAtLeast(d: int, t: int)
    requires d >= 0
    requires t >= 1
    ensures d * t >= d
  {
    assert d * t == d * (t - 1) + d;
  }

  /** Euclidean division is determined by its defining equation. */
  lemma DivModUnique(x: int, d: int, q: int, r: int)
    requires d >= 1
    requires x == d * q + r
    requires 0 <= r < d
    ensures x / d == q
    ensures x % d == r
  {
    var q' := x / d;
    var r' := x % d;
    assert x == d * q' + r';
    if q' > q {
      assert d * q' - d * q == d * (q' - q);
      MulAtLeast(d, q' - q);
    } else if q' < q {
      assert d * q - d * q' == d * (q - q');
      MulAtLeast(d, q - q');
    }
  }

  /** What one more step does to a counter kept as quotient and remainder. */
  lemma DivModSucc(a: int, d: int)
    requires a >= 0
    requires d >= 1
    ensures a % d == d - 1 ==> (a + 1) / d == a / d + 1 && (a + 1) % d == 0
    ensures a % d != d - 1 ==> (a + 1) / d == a / d && (a + 1) % d == a % d + 1
  {
    var q := a / d;
    var r := a % d;
    assert a == d * q + r;
    if r == d - 1 {
      assert a + 1 == d * (q + 1) + 0;
      DivModUnique(a + 1, d, q + 1, 0);
    } else {
      DivModUnique(a + 1, d, q, r + 1);
    }
  }

  /** Remainders are a congruence: adding the same k to two numbers with
      equal remainders keeps them equal. */
  lemma ModAdd(a: int, b: int, k: int, m: int)
    requires m >= 1
    requires a % m == b % m
    ensures (a + k) % m == (b + k) % m
  {
    var r := a % m;
    var s := (r + k) / m;
    var t := (r + k) % m;
    assert a == m * (a / m) + r;
    assert b == m * (b / m) + r;
    assert r + k == m * s + t;
    assert a + k == m * (a / m + s) + t;
    assert b + k == m * (b / m + s) + t;
    DivModUnique(a + k, m, a / m + s, t);
    DivModUnique(b + k, m, b / m + s, t);
  }

  /** Reducing a summand first does not change the remainder of a sum. */
  lemma ModOfMod(a: int, k: int, m: int)
    requires m >= 1
    ensures (a % m + k) % m == (a + k) % m
  {
    DivModUnique(a % m, m, 0, a % m);
    ModAdd(a % m, a, k, m);
  }
}
