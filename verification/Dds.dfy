/** The phase accumulator with a linear frequency slope (src/fl2k_fm.c). */
module Dds {
  const PHASE_RANGE := 0x1_0000_0000
  const TABLE_STEP := 0x100_0000
  const SIN_TABLE_LEN := 256

  type Table = t: seq<int> | |t| == SIN_TABLE_LEN witness seq(SIN_TABLE_LEN, _ => 0)

  /** The three registers, each an unsigned long; `width` is the number of values one can hold. */
  datatype Registers = Registers(phase: nat, step: nat, slope: nat)

  /** An unsigned long has at least 32 bits. */
  predicate IsWidth(width: nat) {
    width > 0 && width % PHASE_RANGE == 0
  }

  function Advance(d: Registers, width: nat): (r: Registers)
    requires width > 0
  {
    Registers((d.phase + d.step) % width % PHASE_RANGE, (d.step + d.slope) % width, d.slope)
  }

  function After(d: Registers, width: nat, n: nat): Registers
    requires width > 0
  {
    if n == 0 then d else Advance(After(d, width, n - 1), width)
  }

  /** The sum 0 + 1 + ... + (n - 1). */
  function Triangle(n: nat): nat {
    if n == 0 then 0 else Triangle(n - 1) + n - 1
  }

  lemma {:induction false} TriangleIs(n: nat)
    ensures Triangle(n) == n * (n - 1) / 2
  {
    if n > 0 {
      TriangleIs(n - 1);
      HalfProduct(n - 1, Triangle(n - 1));
    }
  }

  lemma HalfProduct(n: nat, half: nat)
    requires half == n * (n - 1) / 2
    ensures (n + 1) * n / 2 == half + n
  {
    assert (n + 1) * n == n * (n - 1) + 2 * n;
  }

  function Mod32(x: int): nat {
    x % PHASE_RANGE
  }

  lemma Mod32Sum(a: int, b: int, a': int, b': int)
    requires Mod32(a) == Mod32(a') && Mod32(b) == Mod32(b')
    ensures Mod32(a + b) == Mod32(a' + b')
  {
    var i, j := a / PHASE_RANGE - a' / PHASE_RANGE, b / PHASE_RANGE - b' / PHASE_RANGE;
    assert a + b == a' + b' + PHASE_RANGE * (i + j);
  }

  lemma WrapKeepsLow(x: nat, width: nat)
    requires IsWidth(width)
    ensures Mod32(x % width) == Mod32(x)
  {
    var q, w := x / width, width / PHASE_RANGE;
    assert x == width * q + x % width;
    MultipleOfRange(width, w, q);
    Mod32Shift(x % width, w * q);
  }

  lemma MultipleOfRange(width: nat, w: nat, q: nat)
    requires width == PHASE_RANGE * w
    ensures width * q == PHASE_RANGE * (w * q)
  {}

  lemma Mod32Shift(x: int, k: int)
    ensures Mod32(x + PHASE_RANGE * k) == Mod32(x)
  {}

  /** Step and phase without any wrap-around. */
  function StepSum(d: Registers, n: nat): nat {
    if n == 0 then d.step else StepSum(d, n - 1) + d.slope
  }

  function PhaseSum(d: Registers, n: nat): nat {
    if n == 0 then d.phase else PhaseSum(d, n - 1) + StepSum(d, n - 1)
  }

  lemma {:induction false} StepIsLinear(d: Registers, n: nat)
    ensures StepSum(d, n) == d.step + n * d.slope
  {
    if n > 0 {
      StepIsLinear(d, n - 1);
    }
  }

  lemma {:induction false} PhaseIsTriangular(d: Registers, n: nat)
    ensures PhaseSum(d, n) == d.phase + n * d.step + Triangle(n) * d.slope
  {
    if n > 0 {
      PhaseIsTriangular(d, n - 1);
      StepIsLinear(d, n - 1);
      Regroup(n - 1, d.step, d.slope, Triangle(n - 1));
    }
  }

  lemma Regroup(n: nat, step: nat, slope: nat, triangle: nat)
    ensures n * step + triangle * slope + (step + n * slope) == (n + 1) * step + (triangle + n) * slope
  {}

  /** Without wrap-around the phase is quadratic in the number of samples. */
  lemma PhaseIsQuadratic(d: Registers, n: nat)
    ensures PhaseSum(d, n) == d.phase + n * d.step + n * (n - 1) / 2 * d.slope
  {
    PhaseIsTriangular(d, n);
    TriangleIs(n);
  }

  /** The phase before sample n, in closed form. */
  function ClosedPhase(d: Registers, n: nat): nat {
    TriangleIs(n);
    Mod32(d.phase + n * d.step + n * (n - 1) / 2 * d.slope)
  }

  lemma NextPhase(phase: nat, step: nat, width: nat, p: nat, s: nat)
    requires IsWidth(width) && Mod32(phase) == Mod32(p) && Mod32(step) == Mod32(s)
    ensures Mod32((phase + step) % width) == Mod32(p + s)
  {
    WrapKeepsLow(phase + step, width);
    Mod32Sum(phase, step, p, s);
  }

  lemma {:induction false} PhaseFollowsSum(d: Registers, width: nat, n: nat)
    requires IsWidth(width) && d.phase < PHASE_RANGE
    ensures After(d, width, n).phase == Mod32(PhaseSum(d, n)) && After(d, width, n).slope == d.slope
    ensures Mod32(After(d, width, n).step) == Mod32(StepSum(d, n))
  {
    if n > 0 {
      PhaseFollowsSum(d, width, n - 1);
      var e := After(d, width, n - 1);
      AdvanceFollows(e, width, PhaseSum(d, n - 1), StepSum(d, n - 1));
    }
  }

  /** One sample on, the registers still agree with the unwrapped sums. */
  lemma AdvanceFollows(e: Registers, width: nat, p: nat, s: nat)
    requires IsWidth(width) && e.phase == Mod32(p) && Mod32(e.step) == Mod32(s)
    ensures var f := Advance(e, width); f.phase == Mod32(p + s) && Mod32(f.step) == Mod32(s + e.slope)
  {
    Mod32Idempotent(p);
    NextPhase(e.phase, e.step, width, p, s);
    NextPhase(e.step, e.slope, width, s, e.slope);
  }

  lemma Mod32Idempotent(x: nat)
    ensures Mod32(Mod32(x)) == Mod32(x)
  {}

  /** n samples later the phase is quadratic in n, modulo 2^32, whatever the width of the registers. */
  lemma PhaseInClosedForm(d: Registers, width: nat, n: nat)
    requires IsWidth(width) && d.phase < PHASE_RANGE
    ensures After(d, width, n).phase == ClosedPhase(d, n)
  {
    PhaseFollowsSum(d, width, n);
    PhaseIsQuadratic(d, n);
  }

  // ---------- samples ----------

  function Sample(t: Table, d: Registers): int
    requires d.phase < PHASE_RANGE
  {
    t[d.phase / TABLE_STEP]
  }

  lemma {:induction false} PhaseStaysInRange(d: Registers, width: nat, n: nat)
    requires width > 0 && d.phase < PHASE_RANGE
    ensures After(d, width, n).phase < PHASE_RANGE
  {}

  /** The next n samples. */
  function Samples(t: Table, d: Registers, width: nat, n: nat): (r: seq<int>)
    requires width > 0 && d.phase < PHASE_RANGE
    ensures |r| == n
  {
    if n == 0 then []
    else
      PhaseStaysInRange(d, width, n - 1);
      Samples(t, d, width, n - 1) + [Sample(t, After(d, width, n - 1))]
  }

  /** Sample i is the table entry for the closed-form phase. */
  lemma {:induction false} SamplesInClosedForm(t: Table, d: Registers, width: nat, n: nat, i: nat)
    requires IsWidth(width) && d.phase < PHASE_RANGE && i < n
    ensures Samples(t, d, width, n)[i] == t[ClosedPhase(d, i) / TABLE_STEP]
    decreases n
  {
    if i == n - 1 {
      PhaseInClosedForm(d, width, i);
    } else {
      SamplesInClosedForm(t, d, width, n - 1, i);
    }
  }

  /** The closed form depends on the low 32 bits of step and slope only. */
  lemma ClosedPhaseOfLowBits(d: Registers, e: Registers, n: nat)
    requires d.phase == e.phase && Mod32(d.step) == Mod32(e.step) && Mod32(d.slope) == Mod32(e.slope)
    ensures ClosedPhase(d, n) == ClosedPhase(e, n)
  {
    TriangleIs(n);
    SumOfProducts(d.phase, n, d.step, e.step, Triangle(n), d.slope, e.slope);
  }

  lemma SumOfProducts(phase: nat, n: nat, a: nat, b: nat, m: nat, s: nat, t: nat)
    requires Mod32(a) == Mod32(b) && Mod32(s) == Mod32(t)
    ensures Mod32(phase + n * a + m * s) == Mod32(phase + n * b + m * t)
  {
    Mod32Product(n, a, b);
    Mod32Product(m, s, t);
    Mod32Sum(phase, n * a, phase, n * b);
    Mod32Sum(phase + n * a, m * s, phase + n * b, m * t);
  }

  /** Only the low 32 bits of step and slope matter, so builds with 32-bit and 64-bit registers agree. */
  lemma LowBitsDecide(t: Table, d: Registers, e: Registers, width: nat, width': nat, n: nat)
    requires IsWidth(width) && IsWidth(width') && d.phase == e.phase < PHASE_RANGE
    requires Mod32(d.step) == Mod32(e.step) && Mod32(d.slope) == Mod32(e.slope)
    ensures Samples(t, d, width, n) == Samples(t, e, width', n)
  {
    forall i: nat | i < n
      ensures Samples(t, d, width, n)[i] == Samples(t, e, width', n)[i]
    {
      SameSample(t, d, e, width, width', n, i);
    }
  }

  lemma SameSample(t: Table, d: Registers, e: Registers, width: nat, width': nat, n: nat, i: nat)
    requires IsWidth(width) && IsWidth(width') && d.phase == e.phase < PHASE_RANGE && i < n
    requires Mod32(d.step) == Mod32(e.step) && Mod32(d.slope) == Mod32(e.slope)
    ensures Samples(t, d, width, n)[i] == Samples(t, e, width', n)[i]
  {
    SamplesInClosedForm(t, d, width, n, i);
    SamplesInClosedForm(t, e, width', n, i);
    ClosedPhaseOfLowBits(d, e, i);
  }

  lemma {:induction false} Mod32Product(k: nat, a: nat, b: nat)
    requires Mod32(a) == Mod32(b)
    ensures Mod32(k * a) == Mod32(k * b)
  {
    if k > 0 {
      Mod32Product(k - 1, a, b);
      Mod32Sum((k - 1) * a, a, (k - 1) * b, b);
      assert (k - 1) * a + a == k * a && (k - 1) * b + b == k * b;
    }
  }

  lemma {:induction false} AfterAdds(d: Registers, width: nat, n: nat, m: nat)
    requires width > 0
    ensures After(d, width, n + m) == After(After(d, width, n), width, m)
  {
    if m > 0 {
      AfterAdds(d, width, n, m - 1);
    }
  }

  /** Playing n + m samples is playing n and then m. */
  lemma {:induction false} SamplesAppend(t: Table, d: Registers, width: nat, n: nat, m: nat)
    requires width > 0 && d.phase < PHASE_RANGE
    ensures After(d, width, n).phase < PHASE_RANGE
    ensures Samples(t, d, width, n + m) == Samples(t, d, width, n) + Samples(t, After(d, width, n), width, m)
  {
    PhaseStaysInRange(d, width, n);
    if m > 0 {
      SamplesAppend(t, d, width, n, m - 1);
      AfterAdds(d, width, n, m - 1);
    }
  }

  class Oscillator {
    const width: nat
    const table: Table
    var phase: nat
    var phaseStep: nat
    var phaseSlope: nat

    constructor (width: nat, table: Table)
      requires IsWidth(width)
      ensures Valid() && this.width == width && this.table == table && Regs() == Registers(0, 0, 0)
    {
      this.width, this.table := width, table;
      phase, phaseStep, phaseSlope := 0, 0, 0;
    }

    ghost predicate Valid()
      reads this
    {
      IsWidth(width) && phase < PHASE_RANGE
    }

    ghost function Regs(): Registers
      reads this
    {
      Registers(phase, phaseStep, phaseSlope)
    }

    /** dds_set_freq, with frequency and slope already scaled to phase increments; the phase runs on. */
    method SetFreq(step: nat, slope: nat)
      requires Valid()
      modifies this
      ensures Valid() && Regs() == Registers(old(phase), step, slope)
    {
      phaseStep := step;
      phaseSlope := slope;
    }

    method Real() returns (sample: int)
      requires Valid()
      modifies this
      ensures Valid() && Regs() == Advance(old(Regs()), width) && sample == Sample(table, old(Regs()))
    {
      var tmp := phase / TABLE_STEP;
      phase := (phase + phaseStep) % width;
      phase := phase % PHASE_RANGE;
      phaseStep := (phaseStep + phaseSlope) % width;
      sample := table[tmp];
    }

    /** Writes `count` samples to `buf` from index `at` on. */
    method RealBuf(buf: array<int>, at: nat, count: nat)
      requires Valid() && at + count <= buf.Length
      modifies this, buf
      ensures Valid() && Regs() == After(old(Regs()), width, count)
      ensures buf[..] == old(buf[..at]) + Samples(table, old(Regs()), width, count) + old(buf[at + count..])
    {
      ghost var start, was := Regs(), buf[..];
      for i := 0 to count
        invariant Valid() && Regs() == After(start, width, i)
        invariant buf[..] == was[..at] + Samples(table, start, width, i) + was[at + i..]
      {
        var sample := Real();
        buf[at + i] := sample;
      }
    }
  }
}
