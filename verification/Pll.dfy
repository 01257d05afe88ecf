/** The sample-rate search (src/libosmo-fl2k.c, fl2k_set_sample_rate and fl2k_reg_to_freq): an exhaustive
    scan of the PLL settings for the rate closest to the one requested. */
module Pll {
  import opened Options

  const PLL_CLOCK := 160_000_000
  const HUGE_ERROR := 100_000_000_000_000_000_000

  datatype Setting = Setting(mult: int, div: int, frac: int)

  /** The ranges of the three nested loops; the multiplier and the divider count down. */
  datatype Grid = Grid(multHi: int, multLo: int, divHi: int, divLo: int, fracHi: int)

  const GRID := Grid(6, 3, 63, 2, 15)

  predicate InGrid(g: Grid, s: Setting) {
    g.multLo <= s.mult <= g.multHi && g.divLo <= s.div <= g.divHi && 1 <= s.frac <= g.fracHi
  }

  /** s comes before t in the order in which the loops visit the settings. */
  predicate Before(s: Setting, t: Setting) {
    s.mult > t.mult || (s.mult == t.mult && (s.div > t.div || (s.div == t.div && s.frac < t.frac)))
  }

  function Error(freq: int, target: int): nat {
    if freq >= target then freq - target else target - freq
  }

  /** How far off the target each setting is. */
  function Exactly(freq: Setting -> int, target: int): Setting -> nat {
    s => Error(freq(s), target)
  }

  /** The same after rounding. */
  function Rounded(round: nat -> nat, freq: Setting -> int, target: int): Setting -> nat {
    s => round(Error(freq(s), target))
  }

  /** s is less far off than t, or as far and was visited first. */
  predicate Preferred(error: Setting -> nat, s: Setting, t: Setting) {
    error(s) < error(t) || (error(s) == error(t) && (s == t || Before(s, t)))
  }

  ghost predicate IsChoice(error: Setting -> nat, g: Grid, s: Setting) {
    InGrid(g, s) && forall t :: InGrid(g, t) ==> Preferred(error, s, t)
  }

  /** What holds of the best setting when all settings before `here` have been visited. */
  ghost predicate BestBefore(error: Setting -> nat, g: Grid, best: Option<Setting>, lastError: int, here: Setting) {
    match best
    case None => lastError == HUGE_ERROR && forall t :: InGrid(g, t) ==> !Before(t, here)
    case Some(s) =>
      && InGrid(g, s) && Before(s, here) && lastError == error(s)
      && forall t :: InGrid(g, t) && Before(t, here) ==> Preferred(error, s, t)
  }

  /** Visiting one more setting: it becomes the best one only if it is strictly better. */
  lemma VisitOne(error: Setting -> nat, g: Grid, best: Option<Setting>, lastError: int, here: Setting)
    requires InGrid(g, here) && BestBefore(error, g, best, lastError, here) && error(here) < HUGE_ERROR
    ensures var next := here.(frac := here.frac + 1);
      if error(here) < lastError then BestBefore(error, g, Some(here), error(here), next)
      else BestBefore(error, g, best, lastError, next)
  {
    forall t | InGrid(g, t) && Before(t, here.(frac := here.frac + 1))
      ensures t == here || Before(t, here)
    {}
  }

  /** Behind the last fraction comes the next divider, and behind the last divider the next multiplier. */
  lemma RowDone(error: Setting -> nat, g: Grid, best: Option<Setting>, lastError: int, here: Setting)
    requires BestBefore(error, g, best, lastError, here) && here.frac > g.fracHi
    ensures BestBefore(error, g, best, lastError, Setting(here.mult, here.div - 1, 1))
  {
    forall t | InGrid(g, t)
      ensures Before(t, Setting(here.mult, here.div - 1, 1)) <==> Before(t, here)
    {}
  }

  lemma ColumnDone(error: Setting -> nat, g: Grid, best: Option<Setting>, lastError: int, here: Setting)
    requires BestBefore(error, g, best, lastError, here) && here.div < g.divLo && here.frac == 1
    ensures BestBefore(error, g, best, lastError, Setting(here.mult - 1, g.divHi, 1))
  {
    forall t | InGrid(g, t)
      ensures Before(t, Setting(here.mult - 1, g.divHi, 1)) <==> Before(t, here)
    {}
  }

  /** Behind the last multiplier everything has been visited. */
  lemma AllVisited(error: Setting -> nat, g: Grid, best: Option<Setting>, lastError: int, here: Setting)
    requires BestBefore(error, g, best, lastError, here) && here.mult < g.multLo
    ensures best.Some? ==> IsChoice(error, g, best.value)
    ensures best.None? <==> g.multLo > g.multHi || g.divLo > g.divHi || g.fracHi < 1
  {
    forall t | InGrid(g, t)
      ensures Before(t, here)
    {}
    if best.None? {
      assert !InGrid(g, Setting(g.multHi, g.divHi, 1));
    }
  }

  /** The three nested loops, over a grid of any size and for any measure of the error. */
  method Search(error: Setting -> nat, g: Grid) returns (best: Option<Setting>)
    requires forall s :: InGrid(g, s) ==> error(s) < HUGE_ERROR
    ensures best.Some? ==> IsChoice(error, g, best.value)
    ensures best.None? <==> g.multLo > g.multHi || g.divLo > g.divHi || g.fracHi < 1
  {
    best := None;
    var lastError := HUGE_ERROR;
    var mult := g.multHi;
    while mult >= g.multLo
      invariant mult <= g.multHi && (mult >= g.multLo - 1 || mult == g.multHi)
      invariant BestBefore(error, g, best, lastError, Setting(mult, g.divHi, 1))
    {
      var div := g.divHi;
      while div >= g.divLo
        invariant div <= g.divHi && (div >= g.divLo - 1 || div == g.divHi)
        invariant BestBefore(error, g, best, lastError, Setting(mult, div, 1))
      {
        var frac := 1;
        while frac <= g.fracHi
          invariant 1 <= frac && (frac <= g.fracHi + 1 || frac == 1)
          invariant BestBefore(error, g, best, lastError, Setting(mult, div, frac))
        {
          var here := Setting(mult, div, frac);
          assert InGrid(g, here);
          VisitOne(error, g, best, lastError, here);
          if error(here) < lastError {
            best, lastError := Some(here), error(here);
          }
          frac := frac + 1;
        }
        RowDone(error, g, best, lastError, Setting(mult, div, frac));
        div := div - 1;
      }
      ColumnDone(error, g, best, lastError, Setting(mult, div, 1));
      mult := mult - 1;
    }
    AllVisited(error, g, best, lastError, Setting(mult, g.divHi, 1));
  }

  // ---------- what being the choice means ----------

  /** A choice is unique, so the search is a function of the errors. */
  lemma ChoiceUnique(error: Setting -> nat, g: Grid, s: Setting, t: Setting)
    requires IsChoice(error, g, s) && IsChoice(error, g, t)
    ensures s == t
  {
    assert Preferred(error, s, t) && Preferred(error, t, s);
  }

  /** Asking for a higher rate never gives a lower one. */
  lemma ChoiceMonotone(freq: Setting -> int, g: Grid, target: int, target': int, s: Setting, s': Setting)
    requires target <= target' && IsChoice(Exactly(freq, target), g, s) && IsChoice(Exactly(freq, target'), g, s')
    ensures freq(s) <= freq(s')
  {
    assert Preferred(Exactly(freq, target), s, s') && Preferred(Exactly(freq, target'), s', s);
  }

  /** Asking for the rate that was reported gives that rate again. */
  lemma ChoiceStable(freq: Setting -> int, g: Grid, target: int, s: Setting, again: Setting)
    requires IsChoice(Exactly(freq, target), g, s) && IsChoice(Exactly(freq, freq(s)), g, again)
    ensures freq(again) == freq(s)
  {
    assert Preferred(Exactly(freq, freq(s)), again, s);
  }

  /** A rounding to single precision, as far as errors in whole numbers go: exact up to 2^24, monotone above, and never
      as much as doubling a number. */
  ghost predicate IsRounding(round: nat -> nat) {
    && (forall a: nat, b: nat :: a <= b ==> round(a) <= round(b))
    && (forall a: nat :: a <= EXACT_FLOATS ==> round(a) == a)
    && (forall a: nat :: round(a) <= 2 * a)
  }

  const EXACT_FLOATS := 0x100_0000

  /** As soon as some setting comes within 2^24 of the target, rounding the errors does not change the choice. */
  lemma RoundingChoosesAlike(round: nat -> nat, freq: Setting -> int, g: Grid, target: int, near: Setting, s: Setting)
    requires IsRounding(round) && InGrid(g, near) && Error(freq(near), target) < EXACT_FLOATS
    ensures IsChoice(Rounded(round, freq, target), g, s) <==> IsChoice(Exactly(freq, target), g, s)
  {
    var rounded, exact := Rounded(round, freq, target), Exactly(freq, target);
    if IsChoice(rounded, g, s) {
      assert Preferred(rounded, s, near);
      RoundingKeepsOrder(round, exact(s), exact(near));
      forall t | InGrid(g, t)
        ensures Preferred(exact, s, t)
      {
        assert Preferred(rounded, s, t);
        RoundingKeepsOrder(round, exact(t), exact(s));
      }
    }
    if IsChoice(exact, g, s) {
      assert Preferred(exact, s, near);
      forall t | InGrid(g, t)
        ensures Preferred(rounded, s, t)
      {
        assert Preferred(exact, s, t);
        RoundingKeepsOrder(round, exact(t), exact(s));
      }
    }
  }

  /** Rounding keeps any number on its side of a small one. */
  lemma RoundingKeepsOrder(round: nat -> nat, a: nat, small: nat)
    requires IsRounding(round) && small < EXACT_FLOATS
    ensures (round(a) < round(small) <==> a < small) && (round(a) == round(small) <==> a == small)
  {
    assert round(small) == small;
    if a <= EXACT_FLOATS {
      assert round(a) == a;
    } else {
      assert round(EXACT_FLOATS) <= round(a);
    }
  }

  // ---------- registers ----------

  /** The register word of a setting, with output divider 1. */
  function Pack(s: Setting): nat
    requires InGrid(GRID, s)
  {
    s.mult * 0x10_0000 + s.frac * 0x1_0000 + 0x6100 + s.div
  }

  function Fields(reg: nat): (Setting, nat) {
    (Setting(reg / 0x10_0000 % 16, reg % 64, reg / 0x1_0000 % 16), reg / 0x100 % 16)
  }

  lemma PackFields(s: Setting)
    requires InGrid(GRID, s)
    ensures Fields(Pack(s)) == (s, 1)
  {
    var reg := Pack(s);
    MultField(s.mult, s.frac * 0x1_0000 + 0x6100 + s.div);
    FracField(s.mult * 0x10 + s.frac, 0x6100 + s.div);
    LowFields(s.mult * 0x10 + s.frac, s.div);
    NibbleField(0, s.mult);
    NibbleField(s.mult, s.frac);
  }

  lemma MultField(q: int, r: int)
    requires 0 <= r < 0x10_0000
    ensures (q * 0x10_0000 + r) / 0x10_0000 == q
  {}

  lemma FracField(q: int, r: int)
    requires 0 <= r < 0x1_0000
    ensures (q * 0x1_0000 + r) / 0x1_0000 == q
  {}

  lemma LowFields(q: int, div: int)
    requires 0 <= div < 64
    ensures (q * 0x1_0000 + 0x6100 + div) / 0x100 % 16 == 1 && (q * 0x1_0000 + 0x6100 + div) % 64 == div
  {
    ByteField(q * 0x100 + 0x61, div);
    NibbleField(q * 0x10 + 6, 1);
    SixBits(q * 0x400 + 0x184, div);
  }

  lemma ByteField(q: int, r: int)
    requires 0 <= r < 0x100
    ensures (q * 0x100 + r) / 0x100 == q
  {}

  lemma NibbleField(q: int, r: int)
    requires 0 <= r < 16
    ensures (q * 16 + r) % 16 == r
  {}

  lemma SixBits(q: int, r: int)
    requires 0 <= r < 64
    ensures (q * 64 + r) % 64 == r
  {}

  /** fl2k_reg_to_freq in exact arithmetic, for output divider 1. */
  function Frequency(s: Setting): int {
    if s.div <= 0 || s.mult <= 0 then 0
    else
      var clock := PLL_CLOCK * s.mult / s.div;
      var offset := clock / (16 * s.mult);
      clock + offset * s.frac
  }

  lemma FrequencyInRange(s: Setting, target: nat)
    requires InGrid(GRID, s) && target < 0x1_0000_0000
    ensures 0 <= Frequency(s) < 0x1_0000_0000 && Error(Frequency(s), target) < HUGE_ERROR
  {
    DivideShrinks(PLL_CLOCK * s.mult, s.div);
    var clock := PLL_CLOCK * s.mult / s.div;
    assert clock <= PLL_CLOCK * 6;
    OffsetBound(clock, 16 * s.mult);
    assert 0 <= clock / (16 * s.mult) * s.frac <= clock / 48 * 15 by {
      ProductBound(clock / (16 * s.mult), s.frac, clock / 48, 15);
    }
  }

  /** The rate of a setting is 160 MHz * mult / div * (1 + frac / (16 * mult)), cut off by at most frac + 1 Hz. */
  lemma FrequencyIs(s: Setting)
    requires s.mult > 0 && s.div > 0 && s.frac >= 0
    ensures 16 * s.mult * s.div * Frequency(s) <= 160_000_000 * s.mult * (16 * s.mult + s.frac)
    ensures 160_000_000 * s.mult * (16 * s.mult + s.frac) < 16 * s.mult * s.div * (Frequency(s) + s.frac + 1)
  {
    var c := PLL_CLOCK * s.mult;
    var q := c / s.div;
    var o := q / (16 * s.mult);
    QuotientIs(c, s.div);
    QuotientIs(q, 16 * s.mult);
    LowerBound(c, s.div, q, 16 * s.mult, o, s.frac);
    UpperBound(c, s.div, q, 16 * s.mult, o, s.frac);
    Grouped(16 * s.mult, s.div, q + o * s.frac);
    Grouped(16 * s.mult, s.div, q + o * s.frac + s.frac + 1);
  }

  lemma QuotientIs(x: nat, d: nat)
    requires d > 0
    ensures 0 <= x / d && x / d * d <= x < (x / d + 1) * d
  {
    assert x == d * (x / d) + x % d;
  }

  lemma Grouped(m: int, d: int, x: int)
    ensures m * d * x == m * (d * x)
  {}

  lemma LowerBound(c: nat, d: nat, q: nat, m: nat, o: nat, f: nat)
    requires q * d <= c && o * m <= q
    ensures m * (d * (q + o * f)) <= c * (m + f)
  {
    ProductBound(q * d, m, c, m);
    ProductBound(o * m, d, q, d);
    assert o * m * d <= c;
    ProductBound(o * m * d, f, c, f);
    Spread(m, d, q, o, f);
    assert c * (m + f) == c * m + c * f;
  }

  lemma Spread(m: nat, d: nat, q: nat, o: nat, f: nat)
    ensures m * (d * (q + o * f)) == q * d * m + o * m * d * f
  {}

  lemma UpperBound(c: nat, d: nat, q: nat, m: nat, o: nat, f: nat)
    requires c < (q + 1) * d && q < (o + 1) * m && m > 0
    ensures c * (m + f) < m * (d * (q + o * f + f + 1))
  {
    assert c * m < (q + 1) * d * m by {
      ProductBound(c + 1, m, (q + 1) * d, m);
    }
    ProductBound(q + 1, d, (o + 1) * m, d);
    ProductBound(c, f, (o + 1) * m * d, f);
    Spread(m, d, q + 1, o + 1, f);
    assert (q + 1) + (o + 1) * f == q + o * f + f + 1;
    assert c * (m + f) == c * m + c * f;
  }

  /** Every step of the fraction gives a higher rate. */
  lemma FrequencyIncreases(s: Setting, frac: int)
    requires InGrid(GRID, s) && s.frac < frac
    ensures Frequency(s) < Frequency(s.(frac := frac))
  {
    var q := PLL_CLOCK * s.mult / s.div;
    var m := 16 * s.mult;
    AtLeastQuotient(PLL_CLOCK * s.mult, s.div, 96);
    AtLeastQuotient(q, m, 1);
    assert q / m * frac == q / m * s.frac + q / m * (frac - s.frac);
    ProductBound(1, 1, q / m, frac - s.frac);
  }

  lemma AtLeastQuotient(x: nat, d: nat, k: nat)
    requires 0 < d && k * d <= x
    ensures k <= x / d
  {
    QuotientIs(x, d);
    if x / d + 1 <= k {
      ProductBound(x / d + 1, d, k, d);
    }
  }

  /** 100 MHz is reached exactly, and first by multiplier 6, divider 10 and fraction 4. */
  lemma HundredMegahertz()
    ensures IsChoice(Exactly(Frequency, 100_000_000), GRID, Setting(6, 10, 4))
    ensures Frequency(Setting(6, 10, 4)) == 100_000_000 && Pack(Setting(6, 10, 4)) == 0x64610A
  {
    HitsHundred();
    forall t | InGrid(GRID, t)
      ensures Preferred(Exactly(Frequency, 100_000_000), Setting(6, 10, 4), t)
    {
      HundredPreferred(t);
    }
  }

  lemma HitsHundred()
    ensures Frequency(Setting(6, 10, 4)) == 100_000_000
  {
    assert PLL_CLOCK * 6 / 10 == 96_000_000;
  }

  lemma HundredPreferred(t: Setting)
    requires InGrid(GRID, t)
    ensures Preferred(Exactly(Frequency, 100_000_000), Setting(6, 10, 4), t)
  {
    HitsHundred();
    MissesHundred(t);
    NoneBetter(Frequency, 100_000_000, Setting(6, 10, 4), t);
  }

  lemma NoneBetter(freq: Setting -> int, target: int, s: Setting, t: Setting)
    requires freq(s) == target && (s == t || Before(s, t) || freq(t) != target)
    ensures Preferred(Exactly(freq, target), s, t)
  {}

  lemma MissesHundred(t: Setting)
    requires InGrid(GRID, t)
    ensures Setting(6, 10, 4) == t || Before(Setting(6, 10, 4), t) || Frequency(t) != 100_000_000
  {
    if t.mult == 6 {
      if t.div > 11 {
        FrequencyIs(t);
        assert 96 * t.div * Frequency(t) <= 106_560_000_000;
        BelowHundred(t.div, Frequency(t));
      } else if t.div == 10 && t.frac < 4 {
        HitsHundred();
        FrequencyIncreases(t, 4);
      }
    }
  }

  lemma BelowHundred(div: int, f: int)
    requires div >= 12 && 96 * div * f <= 106_560_000_000
    ensures f < 100_000_000
  {
    assert 96 * div * f == 96 * (div * f);
    if f >= 100_000_000 {
      ProductBound(12, 100_000_000, div, f);
    }
  }

  lemma ProductBound(a: int, b: int, c: int, d: int)
    requires 0 <= a <= c && 0 <= b <= d
    ensures 0 <= a * b <= c * d
  {}

  lemma OffsetBound(x: nat, d: int)
    requires d >= 48
    ensures 0 <= x / d <= x / 48
  {
    DivideShrinks(x, d);
    assert x == d * (x / d) + x % d;
    ProductBound(48, x / d, d, x / d);
  }

  lemma DivideShrinks(x: nat, d: int)
    requires d >= 1
    ensures 0 <= x / d <= x
  {
    assert x == d * (x / d) + x % d;
  }

  /** Chooses the register for a target rate, comparing rounded errors, and reports the rate it gives. If any setting
      comes within 2^24 of the target, that is the choice by exact errors. */
  method SetSampleRate(round: nat -> nat, target: nat) returns (reg: nat, rate: int)
    requires IsRounding(round) && target < 0x1_0000_0000
    ensures exists s :: Chosen(Rounded(round, Frequency, target), s, reg, rate)
    ensures (exists near :: IsNear(near, target)) ==> exists s :: Chosen(Exactly(Frequency, target), s, reg, rate)
  {
    forall s | InGrid(GRID, s)
      ensures Rounded(round, Frequency, target)(s) < HUGE_ERROR
    {
      FrequencyInRange(s, target);
      assert round(Error(Frequency(s), target)) <= 2 * Error(Frequency(s), target);
    }
    var best := Search(Rounded(round, Frequency, target), GRID);
    reg, rate := Pack(best.value), Frequency(best.value);
    assert Chosen(Rounded(round, Frequency, target), best.value, reg, rate);
    if near :| IsNear(near, target) {
      RoundingChoosesAlike(round, Frequency, GRID, target, near, best.value);
      assert Chosen(Exactly(Frequency, target), best.value, reg, rate);
    }
  }

  ghost predicate Chosen(error: Setting -> nat, s: Setting, reg: nat, rate: int) {
    IsChoice(error, GRID, s) && reg == Pack(s) && rate == Frequency(s)
  }

  predicate IsNear(s: Setting, target: nat) {
    InGrid(GRID, s) && Error(Frequency(s), target) < EXACT_FLOATS
  }
}
