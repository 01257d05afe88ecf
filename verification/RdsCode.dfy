/** The RDS checkword (src/rds_mod.c): a 16-bit shift register that never clears the bits above x^9,
    against division of polynomials over GF(2) by x^10 + x^8 + x^7 + x^5 + x^4 + x^3 + 1. */
module RdsCode {
  /** Bit strings and polynomials over GF(2), highest coefficient first. */
  type Bits = seq<bool>

  const POLY: bv16 := 0x1B9
  const POLY_DEG := 10
  const BLOCK_SIZE := 16
  /** x^10 + x^8 + x^7 + x^5 + x^4 + x^3 + 1 */
  const GENERATOR: Bits := [true, false, true, true, false, true, true, true, false, false, true]

  function Zeros(n: nat): (r: Bits)
    ensures |r| == n && forall i :: 0 <= i < n ==> !r[i]
  {
    seq(n, _ => false)
  }

  function Xor(a: Bits, b: Bits): (r: Bits)
    requires |a| == |b|
    ensures |r| == |a| && forall i :: 0 <= i < |a| ==> r[i] == (a[i] != b[i])
  {
    seq(|a|, i requires 0 <= i < |a| => a[i] != b[i])
  }

  // ---------- multiplication and division of polynomials ----------

  /** q(x) times the generator, by Horner's rule. */
  function TimesGenerator(q: Bits): (p: Bits)
    ensures |p| == |q| + POLY_DEG
  {
    if q == [] then Zeros(POLY_DEG)
    else
      var n := |q| - 1;
      Horner(TimesGenerator(q[..n]), q[n])
  }

  /** One step of the rule: shift, and add the generator for a one. */
  function Horner(p: Bits, b: bool): (r: Bits)
    requires |p| >= POLY_DEG
    ensures |r| == |p| + 1
  {
    if b then Xor(p + [false], Zeros(|p| - POLY_DEG) + GENERATOR) else p + [false]
  }

  /** r(x) is the remainder of m(x) * x^10 divided by the generator. */
  ghost predicate IsRemainder(m: Bits, r: Bits) {
    |r| == POLY_DEG && exists q: Bits :: |q| == |m| && m + Zeros(POLY_DEG) == Xor(TimesGenerator(q), Zeros(|m|) + r)
  }

  ghost predicate Divisible(p: Bits) {
    exists q: Bits :: p == TimesGenerator(q)
  }

  // ---------- the shift register on its ten meaningful bits ----------

  function Step(r: Bits, b: bool): (s: Bits)
    requires |r| == POLY_DEG
    ensures |s| == POLY_DEG
  {
    var shifted := r[1..] + [false];
    if r[0] != b then Xor(shifted, GENERATOR[1..]) else shifted
  }

  function Run(r: Bits, m: Bits): (s: Bits)
    requires |r| == POLY_DEG
    ensures |s| == POLY_DEG
    decreases |m|
  {
    if m == [] then r else Run(Step(r, m[0]), m[1..])
  }

  lemma RunOne(r: Bits, b: bool)
    requires |r| == POLY_DEG
    ensures Run(r, [b]) == Step(r, b)
  {
    assert Run(r, [b]) == Run(Step(r, b), [b][1..]);
  }

  function Checkword(m: Bits): (r: Bits)
    ensures |r| == POLY_DEG
  {
    Run(Zeros(POLY_DEG), m)
  }

  lemma {:induction false} RunAppend(r: Bits, a: Bits, b: Bits)
    requires |r| == POLY_DEG
    ensures Run(r, a + b) == Run(Run(r, a), b)
    decreases |a|
  {
    if a == [] {
      assert a + b == b;
    } else {
      assert (a + b)[0] == a[0] && (a + b)[1..] == a[1..] + b;
      RunAppend(Step(r, a[0]), a[1..], b);
    }
  }

  /** The feedback bits, which turn out to be the quotient. */
  function Quotient(m: Bits): (q: Bits)
    ensures |q| == |m|
  {
    if m == [] then [] else
      var n := |m| - 1;
      Quotient(m[..n]) + [Checkword(m[..n])[0] != m[n]]
  }

  lemma {:induction false} Division(m: Bits)
    ensures m + Zeros(POLY_DEG) == Xor(TimesGenerator(Quotient(m)), Zeros(|m|) + Checkword(m))
  {
    if m != [] {
      Division(m[..|m| - 1]);
      DivisionSnoc(m, m[..|m| - 1], m[|m| - 1]);
    }
  }

  /** One more bit divided. */
  lemma DivisionSnoc(m: Bits, u: Bits, b: bool)
    requires m == u + [b] && u + Zeros(POLY_DEG) == Xor(TimesGenerator(Quotient(u)), Zeros(|u|) + Checkword(u))
    ensures m + Zeros(POLY_DEG) == Xor(TimesGenerator(Quotient(m)), Zeros(|m|) + Checkword(m))
  {
    QuotientSnoc(m, u, b);
    TimesSnoc(Quotient(m), Quotient(u), Checkword(u)[0] != b);
    CheckwordSnoc(m, u, b);
    DivisionStep(m, u, b, TimesGenerator(Quotient(u)), Checkword(u), TimesGenerator(Quotient(m)), Checkword(m));
  }

  lemma QuotientSnoc(m: Bits, u: Bits, b: bool)
    requires m == u + [b]
    ensures Quotient(m) == Quotient(u) + [Checkword(u)[0] != b]
  {
    assert m[..|u|] == u;
  }

  lemma TimesSnoc(q': Bits, q: Bits, b: bool)
    requires q' == q + [b]
    ensures TimesGenerator(q') == Horner(TimesGenerator(q), b)
  {
    assert q'[..|q|] == q;
  }

  lemma CheckwordSnoc(m: Bits, u: Bits, b: bool)
    requires m == u + [b]
    ensures Checkword(m) == Step(Checkword(u), b)
  {
    RunAppend(Zeros(POLY_DEG), u, [b]);
    RunOne(Checkword(u), b);
  }

  lemma DivisionStep(m: Bits, u: Bits, b: bool, p: Bits, r: Bits, p': Bits, r': Bits)
    requires |r| == POLY_DEG && |p| == |u| + POLY_DEG && u + Zeros(POLY_DEG) == Xor(p, Zeros(|u|) + r)
    requires m == u + [b] && p' == Horner(p, r[0] != b) && r' == Step(r, b)
    ensures m + Zeros(POLY_DEG) == Xor(p', Zeros(|m|) + r')
  {
    var a, c := m + Zeros(POLY_DEG), Xor(p', Zeros(|m|) + r');
    forall i | 0 <= i < |u| + 11
      ensures a[i] == c[i]
    {
      PaddedAt(u, b, i);
      BehindZerosAt(|m|, r', i);
      DivisionStepAt(u, b, p, r, p', r', i);
    }
  }

  lemma DivisionStepAt(u: Bits, b: bool, p: Bits, r: Bits, p': Bits, r': Bits, i: nat)
    requires |r| == POLY_DEG && |p| == |u| + POLY_DEG && i < |u| + 11
    requires u + Zeros(POLY_DEG) == Xor(p, Zeros(|u|) + r) && p' == Horner(p, r[0] != b) && r' == Step(r, b)
    ensures (if i < |u| then u[i] else i == |u| && b) == (p'[i] != (i > |u| && r'[i - |u| - 1]))
  {
    HornerAt(p, r[0] != b, i);
    if i < |u| + 10 {
      DividedAt(u, p, r, i);
    }
    if i > |u| {
      StepAt(r, b, i - |u| - 1);
    }
  }

  lemma PaddedAt(u: Bits, b: bool, i: nat)
    requires i < |u| + 11
    ensures (u + [b] + Zeros(POLY_DEG))[i] == if i < |u| then u[i] else i == |u| && b
  {}

  lemma BehindZerosAt(n: nat, s: Bits, i: nat)
    requires i < n + |s|
    ensures (Zeros(n) + s)[i] == (i >= n && s[i - n])
  {}

  lemma DividedAt(u: Bits, p: Bits, r: Bits, i: nat)
    requires |r| == POLY_DEG && |p| == |u| + POLY_DEG && i < |p|
    requires u + Zeros(POLY_DEG) == Xor(p, Zeros(|u|) + r)
    ensures p[i] == if i < |u| then u[i] else r[i - |u|]
  {
    BehindZerosAt(|u|, r, i);
    assert (u + Zeros(POLY_DEG))[i] == (p[i] != (Zeros(|u|) + r)[i]);
  }

  lemma HornerAt(p: Bits, b: bool, i: nat)
    requires |p| >= POLY_DEG && i <= |p|
    ensures Horner(p, b)[i] == ((i < |p| && p[i]) != (b && i >= |p| - POLY_DEG && GENERATOR[i - (|p| - POLY_DEG)]))
  {}

  lemma StepAt(r: Bits, b: bool, j: nat)
    requires |r| == POLY_DEG && j < POLY_DEG
    ensures Step(r, b)[j] == ((j < 9 && r[j + 1]) != (r[0] != b && GENERATOR[j + 1]))
  {}

  lemma {:induction false} TimesLinear(q: Bits, q': Bits)
    requires |q| == |q'|
    ensures TimesGenerator(Xor(q, q')) == Xor(TimesGenerator(q), TimesGenerator(q'))
  {
    if q != [] {
      var n := |q| - 1;
      TimesLinear(q[..n], q'[..n]);
      assert Xor(q, q')[..n] == Xor(q[..n], q'[..n]);
    }
  }

  /** The generator is monic, so a product that vanishes above x^9 is the product with zero. */
  lemma {:induction false} TimesLeading(q: Bits)
    requires forall i :: 0 <= i < |q| ==> !TimesGenerator(q)[i]
    ensures q == Zeros(|q|) && TimesGenerator(q) == Zeros(|q| + POLY_DEG)
  {
    if q != [] {
      var n := |q| - 1;
      var p := TimesGenerator(q[..n]);
      forall i | 0 <= i < n
        ensures !p[i]
      {
        assert TimesGenerator(q)[i] == p[i];
      }
      TimesLeading(q[..n]);
      assert TimesGenerator(q)[n] == (p[n] != q[n]);
      assert q == q[..n] + [q[n]];
    }
  }

  /** The register computes the remainder, and there is no other. */
  lemma CheckwordIsRemainder(m: Bits, r: Bits)
    ensures IsRemainder(m, r) <==> r == Checkword(m)
  {
    Division(m);
    if IsRemainder(m, r) {
      var q: Bits :| |q| == |m| && m + Zeros(POLY_DEG) == Xor(TimesGenerator(q), Zeros(|m|) + r);
      RemainderUnique(q, r, Quotient(m), Checkword(m));
    }
  }

  lemma XorSwap(p: Bits, a: Bits, p': Bits, a': Bits)
    requires |p| == |a| == |p'| == |a'| && Xor(p, a) == Xor(p', a')
    ensures Xor(p, p') == Xor(a, a')
  {
    forall i | 0 <= i < |p|
      ensures Xor(p, p')[i] == Xor(a, a')[i]
    {
      assert Xor(p, a)[i] == Xor(p', a')[i];
    }
  }

  lemma XorZero(a: Bits, b: Bits)
    requires |a| == |b| && Xor(a, b) == Zeros(|a|)
    ensures a == b
  {
    forall i | 0 <= i < |a|
      ensures a[i] == b[i]
    {
      assert !Xor(a, b)[i];
    }
  }

  lemma XorBehindZeros(n: nat, r: Bits, r': Bits)
    requires |r| == |r'|
    ensures Xor(Zeros(n) + r, Zeros(n) + r') == Zeros(n) + Xor(r, r')
  {}

  lemma RemainderUnique(q: Bits, r: Bits, q': Bits, r': Bits)
    requires |q| == |q'| && |r| == POLY_DEG == |r'|
    requires Xor(TimesGenerator(q), Zeros(|q|) + r) == Xor(TimesGenerator(q'), Zeros(|q|) + r')
    ensures q == q' && r == r'
  {
    TimesLinear(q, q');
    XorSwap(TimesGenerator(q), Zeros(|q|) + r, TimesGenerator(q'), Zeros(|q|) + r');
    XorBehindZeros(|q|, r, r');
    NoDifference(Xor(q, q'), Xor(r, r'));
    XorZero(q, q');
    XorZero(r, r');
  }

  /** A multiple of the generator below x^10 is zero. */
  lemma NoDifference(q: Bits, r: Bits)
    requires |r| == POLY_DEG && TimesGenerator(q) == Zeros(|q|) + r
    ensures q == Zeros(|q|) && r == Zeros(POLY_DEG)
  {
    LeadingZeros(TimesGenerator(q), |q|, r);
    TimesLeading(q);
    OnlyZeros(Zeros(|q|), r);
  }

  lemma LeadingZeros(p: Bits, n: nat, r: Bits)
    requires p == Zeros(n) + r
    ensures forall i :: 0 <= i < n ==> !p[i]
  {}

  lemma OnlyZeros(a: Bits, b: Bits)
    requires a + b == Zeros(|a| + |b|)
    ensures a == Zeros(|a|) && b == Zeros(|b|)
  {
    assert (a + b)[..|a|] == a && (a + b)[|a|..] == b;
  }

  // ---------- error detection ----------

  lemma StepLinear(r: Bits, s: Bits, a: bool, b: bool)
    requires |r| == POLY_DEG == |s|
    ensures Step(Xor(r, s), a != b) == Xor(Step(r, a), Step(s, b))
  {}

  lemma {:induction false} RunLinear(r: Bits, s: Bits, a: Bits, b: Bits)
    requires |r| == POLY_DEG == |s| && |a| == |b|
    ensures Run(Xor(r, s), Xor(a, b)) == Xor(Run(r, a), Run(s, b))
    decreases |a|
  {
    if a != [] {
      StepLinear(r, s, a[0], b[0]);
      RunLinear(Step(r, a[0]), Step(s, b[0]), a[1..], b[1..]);
      assert Xor(a, b)[1..] == Xor(a[1..], b[1..]);
    }
  }

  /** With zero input the register steps injectively: it forgets nothing. */
  lemma StepKeepsNonzero(r: Bits)
    requires |r| == POLY_DEG && r != Zeros(POLY_DEG)
    ensures Step(r, false) != Zeros(POLY_DEG)
  {
    var s := Step(r, false);
    var i :| 0 <= i < POLY_DEG && r[i];
    assert s[9] == r[0];
    assert !r[0] ==> s[i - 1];
  }

  lemma {:induction false} RunKeepsNonzero(r: Bits, n: nat)
    requires |r| == POLY_DEG && r != Zeros(POLY_DEG)
    ensures Run(r, Zeros(n)) != Zeros(POLY_DEG)
    decreases n
  {
    if n > 0 {
      StepKeepsNonzero(r);
      RunKeepsNonzero(Step(r, false), n - 1);
      assert Zeros(n)[1..] == Zeros(n - 1);
    }
  }

  lemma {:induction false} RunOfZeros(n: nat)
    ensures Run(Zeros(POLY_DEG), Zeros(n)) == Zeros(POLY_DEG)
  {
    if n > 0 {
      RunOfZeros(n - 1);
      assert Zeros(n)[1..] == Zeros(n - 1);
      assert Step(Zeros(POLY_DEG), false) == Zeros(POLY_DEG);
    }
  }

  /** Feeding up to ten bits is the same as placing them in the register beforehand. */
  lemma FeedIsLoad(r: Bits, w: Bits)
    requires |r| == POLY_DEG && |w| <= POLY_DEG
    ensures Run(r, w) == Run(Xor(r, w + Zeros(POLY_DEG - |w|)), Zeros(|w|))
  {
    var load := w + Zeros(POLY_DEG - |w|);
    RunLinear(r, load, w, w);
    XorSelf(w);
    assert load[..|w|] == w && load[|w|..] == Zeros(POLY_DEG - |w|);
    ShiftOut(load, |w|);
    XorZeros(Run(r, w));
  }

  lemma XorSelf(w: Bits)
    ensures Xor(w, w) == Zeros(|w|)
  {}

  lemma XorZeros(r: Bits)
    ensures Xor(r, Zeros(|r|)) == r
  {}

  /** A block with its checkword leaves the register empty. */
  lemma {:induction false} ShiftOut(r: Bits, k: nat)
    requires |r| == POLY_DEG && k <= POLY_DEG && r[k..] == Zeros(POLY_DEG - k)
    ensures Run(r, r[..k]) == Zeros(POLY_DEG)
    decreases k
  {
    if k == 0 {
      assert r == r[0..];
    } else {
      var s := Step(r, r[0]);
      assert s == r[1..] + [false];
      assert forall i :: k - 1 <= i < 9 ==> s[i] == r[k..][i + 1 - k];
      assert s[k - 1..] == Zeros(POLY_DEG - (k - 1));
      ShiftOut(s, k - 1);
      assert r[..k][1..] == s[..k - 1];
    }
  }

  lemma CodewordChecks(m: Bits)
    ensures Checkword(m + Checkword(m)) == Zeros(POLY_DEG)
  {
    var r := Checkword(m);
    RunAppend(Zeros(POLY_DEG), m, r);
    assert r[..10] == r && r[10..] == [];
    ShiftOut(r, 10);
  }

  /** Any error confined to at most ten consecutive bits of a protected word is detected, whatever the
      length of the word and wherever the error lies. */
  lemma BurstDetected(m: Bits, before: nat, burst: Bits, after: nat)
    requires |burst| <= POLY_DEG && burst != Zeros(|burst|)
    requires before + |burst| + after == |m| + POLY_DEG
    ensures Checkword(Xor(m + Checkword(m), Zeros(before) + burst + Zeros(after))) != Zeros(POLY_DEG)
  {
    var word, error := m + Checkword(m), Zeros(before) + burst + Zeros(after);
    CodewordChecks(m);
    SyndromeOfError(word, error);
    BurstSyndrome(before, burst, after);
  }

  lemma XorWithZeros(r: Bits)
    ensures Xor(Zeros(|r|), r) == r
  {}

  /** The syndrome depends on the error only. */
  lemma SyndromeOfError(word: Bits, error: Bits)
    requires |word| == |error| && Checkword(word) == Zeros(POLY_DEG)
    ensures Checkword(Xor(word, error)) == Checkword(error)
  {
    var z := Zeros(POLY_DEG);
    XorWithZeros(z);
    RunLinear(z, z, word, error);
    XorWithZeros(Checkword(error));
  }

  lemma BurstSyndrome(before: nat, burst: Bits, after: nat)
    requires |burst| <= POLY_DEG && burst != Zeros(|burst|)
    ensures Checkword(Zeros(before) + burst + Zeros(after)) != Zeros(POLY_DEG)
  {
    var z := Zeros(POLY_DEG);
    RunAppend(z, Zeros(before) + burst, Zeros(after));
    RunAppend(z, Zeros(before), burst);
    RunOfZeros(before);
    BurstLoads(burst);
    RunKeepsNonzero(Run(z, burst), after);
  }

  /** A short burst leaves something in an empty register. */
  lemma BurstLoads(burst: Bits)
    requires |burst| <= POLY_DEG && burst != Zeros(|burst|)
    ensures Run(Zeros(POLY_DEG), burst) != Zeros(POLY_DEG)
  {
    var load := burst + Zeros(POLY_DEG - |burst|);
    var i :| 0 <= i < |burst| && burst[i];
    assert load[i];
    FeedIsLoad(Zeros(POLY_DEG), burst);
    XorWithZeros(load);
    RunKeepsNonzero(load, |burst|);
  }

  // ---------- words and registers ----------

  /** A uint16_t. */
  type Word = w: int | 0 <= w < 0x1_0000

  function Pow2(n: nat): (p: nat)
    ensures p >= 1
  {
    if n == 0 then 1 else 2 * Pow2(n - 1)
  }

  /** The low n bits of a number, most significant first. */
  function BitsOf(w: nat, n: nat): (r: Bits)
    ensures |r| == n
  {
    if n == 0 then [] else BitsOf(w / 2, n - 1) + [w % 2 == 1]
  }

  function Bits16(w: Word): (r: Bits)
    ensures |r| == BLOCK_SIZE
  {
    BitsOf(w, BLOCK_SIZE)
  }

  lemma {:induction false} BitsOfTop(w: nat, n: nat)
    requires w < Pow2(n + 1)
    ensures BitsOf(w, n + 1) == [w >= Pow2(n)] + BitsOf(if w >= Pow2(n) then w - Pow2(n) else w, n)
  {
    if n > 0 {
      BitsOfTop(w / 2, n - 1);
      var h, v := w / 2, if w >= Pow2(n) then w - Pow2(n) else w;
      assert v / 2 == (if h >= Pow2(n - 1) then h - Pow2(n - 1) else h) && v % 2 == w % 2;
    } else {
      assert BitsOf(w, 1) == BitsOf(w / 2, 0) + [w % 2 == 1];
    }
  }

  lemma Pow2Of16()
    ensures Pow2(15) == 0x8000 && Pow2(16) == 0x1_0000
  {
    assert Pow2(4) == 16 && Pow2(8) == 0x100 && Pow2(12) == 0x1000;
  }

  lemma BitsOfShift(w: nat, n: nat)
    requires w < Pow2(n + 1)
    ensures BitsOf(w, n + 1)[0] == (w >= Pow2(n))
    ensures BitsOf(2 * (if w >= Pow2(n) then w - Pow2(n) else w), n + 1) == BitsOf(w, n + 1)[1..] + [false]
  {
    BitsOfTop(w, n);
    var v := if w >= Pow2(n) then w - Pow2(n) else w;
    assert (2 * v) / 2 == v && (2 * v) % 2 == 0;
    assert BitsOf(2 * v, n + 1) == BitsOf(v, n) + [false];
  }

  /** `block <<= 1` on a uint16_t drops the most significant bit. */
  function ShiftLeft(w: Word): Word {
    2 * w % 0x1_0000
  }

  lemma Bits16Shift(w: Word)
    ensures Bits16(w)[0] == (w >= 0x8000)
    ensures Bits16(ShiftLeft(w)) == Bits16(w)[1..] + [false]
  {
    Pow2Of16();
    ShiftInWord(w, BLOCK_SIZE - 1);
  }

  lemma ShiftInWord(w: Word, n: nat)
    requires Pow2(n) == 0x8000
    ensures BitsOf(w, n + 1)[0] == (w >= 0x8000)
    ensures BitsOf(ShiftLeft(w), n + 1) == BitsOf(w, n + 1)[1..] + [false]
  {
    BitsOfShift(w, n);
    assert ShiftLeft(w) == 2 * (if w >= 0x8000 then w - 0x8000 else w);
  }

  /** The i-th of the ten bits of the register that count; those above hold leftovers of the shifts. */
  function Mask(i: nat): (m: bv16)
    requires i < POLY_DEG
    ensures m & (m - 1) == 0
  {
    if i == 0 then 0x200 else Mask(i - 1) >> 1
  }

  function Low10(w: bv16): (r: Bits)
    ensures |r| == POLY_DEG
  {
    seq(POLY_DEG, i requires 0 <= i < POLY_DEG => w & Mask(i) != 0)
  }

  lemma Masks()
    ensures Mask(1) == 0x100 && Mask(2) == 0x80 && Mask(3) == 0x40 && Mask(4) == 0x20
    ensures Mask(5) == 0x10 && Mask(6) == 8 && Mask(7) == 4 && Mask(8) == 2 && Mask(9) == 1
  {}

  lemma MaskShift(w: bv16, m: bv16)
    ensures ((w << 1) & m != 0) == (w & (m >> 1) != 0)
  {}

  lemma MaskXor(v: bv16, w: bv16, m: bv16)
    requires m & (m - 1) == 0
    ensures ((v ^ w) & m != 0) == ((v & m != 0) != (w & m != 0))
  {}

  lemma LowBitClear(w: bv16)
    ensures (w << 1) & 1 == 0
  {}

  lemma LastBitShift(w: bv16)
    ensures !Low10(w << 1)[POLY_DEG - 1]
  {
    Masks();
    LowBitClear(w);
  }

  lemma BitShift(w: bv16, i: nat)
    requires i < POLY_DEG - 1
    ensures Low10(w << 1)[i] == Low10(w)[i + 1]
  {
    MaskShift(w, Mask(i));
  }

  lemma BitXor(v: bv16, w: bv16, i: nat)
    requires i < POLY_DEG
    ensures Low10(v ^ w)[i] == (Low10(v)[i] != Low10(w)[i])
  {
    MaskXor(v, w, Mask(i));
  }

  lemma ShiftedIs(a: Bits, b: Bits)
    requires 0 < |a| == |b| && forall i :: 0 <= i < |a| ==> (b[i] <==> i < |a| - 1 && a[i + 1])
    ensures b == a[1..] + [false]
  {}

  /** A shifted word whose remaining bits were those of `all` from `i` on holds those from i + 1 on. */
  lemma ShiftConsumes(a: Bits, b: Bits, all: Bits, i: nat)
    requires i < |all| == |a| && b == a[1..] + [false] && a[..|a| - i] == all[i..]
    ensures a[0] == all[i] && b[..|a| - i - 1] == all[i + 1..]
  {
    assert a[0] == a[..|a| - i][0];
    forall k | 0 <= k < |a| - i - 1
      ensures b[k] == all[i + 1..][k]
    {
      assert b[k] == a[..|a| - i][k + 1];
    }
  }

  lemma ShiftTake(a: Bits, b: Bits, n: nat)
    requires 0 < n <= |a| && b == a[1..] + [false]
    ensures a[..n][0] == a[0] && a[..n][1..] == b[..n - 1]
  {}

  lemma Low10Shift(w: bv16)
    ensures Low10(w << 1) == Low10(w)[1..] + [false]
  {
    var a, b := Low10(w), Low10(w << 1);
    forall i | 0 <= i < POLY_DEG
      ensures b[i] <==> i < POLY_DEG - 1 && a[i + 1]
    {
      if i == POLY_DEG - 1 {
        LastBitShift(w);
      } else {
        BitShift(w, i);
      }
    }
    ShiftedIs(a, b);
  }

  lemma Low10Xor(v: bv16, w: bv16)
    ensures Low10(v ^ w) == Xor(Low10(v), Low10(w))
  {
    var a, b, c := Low10(v), Low10(w), Low10(v ^ w);
    forall i | 0 <= i < POLY_DEG
      ensures c[i] == (a[i] != b[i])
    {
      BitXor(v, w, i);
    }
    XorIs(a, b, c);
  }

  lemma XorIs(a: Bits, b: Bits, c: Bits)
    requires |a| == |b| == |c| && forall i :: 0 <= i < |a| ==> c[i] == (a[i] != b[i])
    ensures c == Xor(a, b)
  {}

  lemma PolyBits()
    ensures Low10(POLY) == GENERATOR[1..] && Low10(0) == Zeros(POLY_DEG)
  {
    Masks();
  }

  lemma TopOfTen(w: bv16)
    ensures ((w >> 9) & 1 == 1) == (w & 0x200 != 0) == Low10(w)[0]
  {}

  lemma RegisterStep(reg: bv16)
    ensures Low10(reg << 1) == Low10(reg)[1..] + [false]
    ensures Low10((reg << 1) ^ POLY) == Xor(Low10(reg)[1..] + [false], GENERATOR[1..])
  {
    Low10Shift(reg);
    Low10Xor(reg << 1, POLY);
    PolyBits();
  }

  /** One shift of the register: x^10 drops out of the low ten bits but stays in the word. */
  function NextRegister(reg: bv16, bit: bool): (r: bv16)
    ensures Low10(r) == Step(Low10(reg), bit)
  {
    RegisterStep(reg);
    TopOfTen(reg);
    var msb := (reg >> 9) & 1 == 1;
    if msb != bit then (reg << 1) ^ POLY else reg << 1
  }

  /** The checkword loop. */
  method Crc(block: Word) returns (crc: bv16)
    ensures Low10(crc) == Checkword(Bits16(block))
  {
    crc := 0;
    var rest := block;
    ghost var goal := Checkword(Bits16(block));
    PolyBits();
    assert Bits16(block)[..BLOCK_SIZE] == Bits16(block);
    for i := 0 to BLOCK_SIZE
      invariant Run(Low10(crc), Bits16(rest)[..BLOCK_SIZE - i]) == goal
    {
      Bits16Shift(rest);
      ShiftTake(Bits16(rest), Bits16(ShiftLeft(rest)), BLOCK_SIZE - i);
      var bit := rest >= 0x8000;
      rest := ShiftLeft(rest);
      crc := NextRegister(crc, bit);
    }
  }

  /** A transmitted block: sixteen information bits, then the checkword with the offset word added. */
  function Protected(block: Word, offset: bv16): (r: Bits)
    ensures |r| == BLOCK_SIZE + POLY_DEG
  {
    Bits16(block) + Xor(Checkword(Bits16(block)), Low10(offset))
  }

  /** Subtracting the offset word from a transmitted block leaves a multiple of the generator. */
  lemma ProtectedDivisible(block: Word, offset: bv16)
    ensures Divisible(Xor(Protected(block, offset), Zeros(BLOCK_SIZE) + Low10(offset)))
  {
    var m := Bits16(block);
    Division(m);
    var p := TimesGenerator(Quotient(m));
    SubtractRemainder(m, Checkword(m), Low10(offset), p);
  }

  lemma SubtractRemainder(m: Bits, r: Bits, offset: Bits, p: Bits)
    requires |r| == |offset| == POLY_DEG && |p| == |m| + POLY_DEG
    requires m + Zeros(POLY_DEG) == Xor(p, Zeros(|m|) + r)
    ensures Xor(m + Xor(r, offset), Zeros(|m|) + offset) == p
  {
    forall i | 0 <= i < |p|
      ensures Xor(m + Xor(r, offset), Zeros(|m|) + offset)[i] == p[i]
    {
      assert (m + Zeros(POLY_DEG))[i] == (p[i] != (Zeros(|m|) + r)[i]);
    }
  }

  /** The loops that emit one block, information bits first, most significant bit first. */
  method EmitBlock(block: Word, offset: bv16, buffer: array<bool>, at: nat)
    requires at + BLOCK_SIZE + POLY_DEG <= buffer.Length
    modifies buffer
    ensures buffer[..at] == old(buffer[..at])
    ensures buffer[at..at + BLOCK_SIZE + POLY_DEG] == Protected(block, offset)
    ensures buffer[at + BLOCK_SIZE + POLY_DEG..] == old(buffer[at + BLOCK_SIZE + POLY_DEG..])
  {
    var crc := Crc(block);
    var check := crc ^ offset;
    Low10Xor(crc, offset);
    EmitInfo(block, buffer, at);
    EmitCheck(check, buffer, at + BLOCK_SIZE);
    assert buffer[at..at + BLOCK_SIZE] == buffer[..at + BLOCK_SIZE][at..];
  }

  /** The j-th bit behind `at` is emitted. */
  lemma EmittedOne(buffer: Bits, was: Bits, at: nat, j: nat, bits: Bits)
    requires at + j < |buffer| == |was| && j < |bits|
    requires buffer[..at] == was[..at] && buffer[at..at + j] == bits[..j] && buffer[at + j..] == was[at + j..]
    ensures var after := buffer[at + j := bits[j]];
      && after[..at] == was[..at] && after[at..at + j + 1] == bits[..j + 1] && after[at + j + 1..] == was[at + j + 1..]
  {
    var after := buffer[at + j := bits[j]];
    assert after[at..at + j + 1] == buffer[at..at + j] + [bits[j]] == bits[..j + 1];
    assert after[at + j + 1..] == buffer[at + j..][1..] == was[at + j..][1..];
  }

  method EmitInfo(block: Word, buffer: array<bool>, at: nat)
    requires at + BLOCK_SIZE <= buffer.Length
    modifies buffer
    ensures buffer[..at] == old(buffer[..at]) && buffer[at..at + BLOCK_SIZE] == Bits16(block)
    ensures buffer[at + BLOCK_SIZE..] == old(buffer[at + BLOCK_SIZE..])
  {
    var rest := block;
    ghost var info := Bits16(block);
    for j := 0 to BLOCK_SIZE
      invariant buffer[..at] == old(buffer[..at]) && buffer[at + j..] == old(buffer[at + j..])
      invariant buffer[at..at + j] == info[..j] && Bits16(rest)[..BLOCK_SIZE - j] == info[j..]
    {
      Bits16Shift(rest);
      ShiftConsumes(Bits16(rest), Bits16(ShiftLeft(rest)), info, j);
      EmittedOne(buffer[..], old(buffer[..]), at, j, info);
      buffer[at + j] := rest >= 0x8000;
      rest := ShiftLeft(rest);
    }
  }

  method EmitCheck(word: bv16, buffer: array<bool>, at: nat)
    requires at + POLY_DEG <= buffer.Length
    modifies buffer
    ensures buffer[..at] == old(buffer[..at]) && buffer[at..at + POLY_DEG] == Low10(word)
    ensures buffer[at + POLY_DEG..] == old(buffer[at + POLY_DEG..])
  {
    var check := word;
    ghost var tail := Low10(word);
    for j := 0 to POLY_DEG
      invariant buffer[..at] == old(buffer[..at]) && buffer[at + j..] == old(buffer[at + j..])
      invariant buffer[at..at + j] == tail[..j] && Low10(check)[..POLY_DEG - j] == tail[j..]
    {
      Low10Shift(check);
      TopOfTen(check);
      ShiftConsumes(Low10(check), Low10(check << 1), tail, j);
      EmittedOne(buffer[..], old(buffer[..]), at, j, tail);
      buffer[at + j] := check & 0x200 != 0;
      check := check << 1;
    }
  }
}
