/** What a receiver finds in the bits of the groups that src/rds_mod.c emits: words and syndromes of the blocks, the
    fields of their headers, and when a clock time comes. */
module RdsReception {
  import opened RdsCode
  import opened RdsGroups
  import opened RdsEncoder
  import RdsModulator

  // ---------- blocks ----------

  /** The number written in binary, most significant bit first. */
  function Value(b: Bits): nat {
    if b == [] then 0 else 2 * Value(b[..|b| - 1]) + (if b[|b| - 1] then 1 else 0)
  }

  lemma {:induction false} ValueOfBits(w: nat, n: nat)
    requires w < Pow2(n)
    ensures Value(BitsOf(w, n)) == w
  {
    if n > 0 {
      ValueOfBits(w / 2, n - 1);
      assert BitsOf(w, n)[..n - 1] == BitsOf(w / 2, n - 1);
    }
  }

  /** Block i takes bits 26 * i to 26 * i + 25. */
  lemma {:induction false} BlockAt(g: Group, n: nat, i: nat)
    requires i < n <= GROUP_LENGTH
    ensures 26 * i + 26 <= 26 * n
    ensures BlockBits(g, n)[26 * i..26 * i + 26] == Protected(g[i], OFFSET_WORDS[i])
    decreases n
  {
    if i < n - 1 {
      BlockAt(g, n - 1, i);
      SliceOfFront(BlockBits(g, n - 1), Protected(g[n - 1], OFFSET_WORDS[n - 1]), 26 * i, 26 * i + 26);
    } else {
      SliceOfBack(BlockBits(g, n - 1), Protected(g[n - 1], OFFSET_WORDS[n - 1]));
    }
  }

  lemma SliceOfFront(a: Bits, b: Bits, from: nat, to: nat)
    requires from <= to <= |a|
    ensures (a + b)[from..to] == a[from..to]
  {}

  lemma SliceOfBack(a: Bits, b: Bits)
    ensures (a + b)[|a|..|a| + |b|] == b
  {}

  /** The first sixteen bits of block i are its word, and its last ten differ from the word's checkword by the offset
      word of the block. */
  lemma WordsReadBack(g: Group, i: nat)
    requires i < 4
    ensures Value(GroupBits(g)[26 * i..26 * i + 16]) == g[i]
    ensures Xor(GroupBits(g)[26 * i + 16..26 * i + 26], Checkword(GroupBits(g)[26 * i..26 * i + 16]))
              == Low10(OFFSET_WORDS[i])
  {
    var block := GroupBits(g)[26 * i..26 * i + 26];
    BlockAt(g, GROUP_LENGTH, i);
    assert GroupBits(g)[26 * i..26 * i + 16] == block[..16];
    assert GroupBits(g)[26 * i + 16..26 * i + 26] == block[16..];
    ProtectedReadsBack(g[i], OFFSET_WORDS[i], block);
  }

  lemma ProtectedReadsBack(w: Word, offset: bv16, block: Bits)
    requires block == Protected(w, offset)
    ensures Value(block[..16]) == w && Xor(block[16..], Checkword(block[..16])) == Low10(offset)
  {
    Pow2Of16();
    ValueOfBits(w, BLOCK_SIZE);
    var c, d := Checkword(Bits16(w)), Low10(offset);
    assert block[..16] == Bits16(w) && block[16..] == Xor(c, d);
    assert Xor(Xor(c, d), c) == d;
  }

  /** The syndromes that Annex B of EN 50067 lists for blocks A, B, C and D. */
  const SYNDROMES: seq<bv16> := [0x3D8, 0x3D4, 0x25C, 0x258]

  function Shift(r: bv16): bv16 {
    if r & 0x200 != 0 then (r << 1) ^ 0x1B9 else r << 1
  }

  lemma ShiftIsStep(r: bv16)
    ensures Low10(Shift(r)) == Step(Low10(r), false)
  {
    RegisterStep(r);
    TopOfTen(r);
  }

  lemma ZerosSnoc(n: nat)
    requires n > 0
    ensures Zeros(n) == Zeros(n - 1) + [false]
  {}

  /** n shifts of the register without input. */
  function Shifts(reg: bv16, n: nat): bv16 {
    if n == 0 then reg
    else
      Shift(Shifts(reg, n - 1))
  }

  lemma {:induction false} ShiftsRun(reg: bv16, n: nat)
    ensures Low10(Shifts(reg, n)) == Run(Low10(reg), Zeros(n))
  {
    if n > 0 {
      ShiftsRun(reg, n - 1);
      ShiftIsStep(Shifts(reg, n - 1));
      ZerosSnoc(n);
      RunAppend(Low10(reg), Zeros(n - 1), [false]);
      RunOne(Low10(Shifts(reg, n - 1)), false);
    }
  }

  /** A block read as a polynomial leaves its offset word when divided by the generator, and the annex's syndrome times
      x^16 leaves that too; x^16 because the annex's syndrome is the remainder of the block times x^-16. */
  lemma SyndromeIs(i: nat)
    requires i < 4
    ensures IsRemainder(Low10(SYNDROMES[i]) + Zeros(6), Low10(OFFSET_WORDS[i]))
  {
    SyndromeShifts(i);
    ShiftsRun(SYNDROMES[i], 16);
    RemainderOfShifts(Low10(SYNDROMES[i]), 6);
    CheckwordIsRemainder(Low10(SYNDROMES[i]) + Zeros(6), Low10(OFFSET_WORDS[i]));
  }

  lemma RemainderOfShifts(s: Bits, k: nat)
    requires |s| == POLY_DEG
    ensures Checkword(s + Zeros(k)) == Run(s, Zeros(POLY_DEG + k))
  {
    RunAppend(Zeros(POLY_DEG), s, Zeros(k));
    LoadWhole(s);
    RunAppend(s, Zeros(POLY_DEG), Zeros(k));
    ZerosAppend(POLY_DEG, k);
  }

  lemma ZerosAppend(n: nat, k: nat)
    ensures Zeros(n) + Zeros(k) == Zeros(n + k)
  {}

  lemma LoadWhole(s: Bits)
    requires |s| == POLY_DEG
    ensures Run(Zeros(POLY_DEG), s) == Run(s, Zeros(POLY_DEG))
  {
    FeedIsLoad(Zeros(POLY_DEG), s);
    assert s + Zeros(0) == s;
    XorWithZeros(s);
  }

  lemma SyndromeShifts(i: nat)
    requires i < 4
    ensures Low10(Shifts(SYNDROMES[i], 16)) == Low10(OFFSET_WORDS[i])
  {
    match i
    case 0 => ShiftsA();
    case 1 => ShiftsB();
    case 2 => ShiftsC();
    case 3 => ShiftsD();
  }

  /** The register's bits above the low ten are leftovers of the shifts. */
  lemma LowTen(v: bv16, w: bv16)
    requires v & 0x3FF == w & 0x3FF
    ensures Low10(v) == Low10(w)
  {
    forall i: nat | i < POLY_DEG
      ensures Low10(v)[i] == Low10(w)[i]
    {
      SameBit(v, w, i);
    }
    SameBits(Low10(v), Low10(w));
  }

  lemma SameBits(a: Bits, b: Bits)
    requires |a| == POLY_DEG == |b| && forall i: nat :: i < POLY_DEG ==> a[i] == b[i]
    ensures a == b
  {}

  lemma SameBit(v: bv16, w: bv16, i: nat)
    requires v & 0x3FF == w & 0x3FF && i < POLY_DEG
    ensures Low10(v)[i] == Low10(w)[i]
  {
    MaskIsLow(i);
    SameUnderMask(v, w, Mask(i));
  }

  lemma {:induction false} MaskIsLow(i: nat)
    requires i < POLY_DEG
    ensures Mask(i) & 0x3FF == Mask(i)
  {
    if i > 0 {
      MaskIsLow(i - 1);
      HalfIsLow(Mask(i - 1));
    }
  }

  lemma HalfIsLow(m: bv16)
    requires m & 0x3FF == m
    ensures (m >> 1) & 0x3FF == m >> 1
  {}

  lemma SameUnderMask(v: bv16, w: bv16, m: bv16)
    requires v & 0x3FF == w & 0x3FF && m & 0x3FF == m
    ensures v & m == w & m
  {}

  lemma ShiftsA()
    ensures Low10(Shifts(0x3D8, 16)) == Low10(0x0FC)
  {
    assert Shifts(0x3D8, 4) == 0x3715;
    assert Shifts(0x3D8, 8) == 0x790E;
    assert Shifts(0x3D8, 12) == 0x97BD;
    assert Shifts(0x3D8, 16) == 0x70FC;
    LowTen(0x70FC, 0x0FC);
  }

  lemma ShiftsB()
    ensures Low10(Shifts(0x3D4, 16)) == Low10(0x198)
  {
    assert Shifts(0x3D4, 4) == 0x37D5;
    assert Shifts(0x3D4, 8) == 0x77C5;
    assert Shifts(0x3D4, 12) == 0x76C5;
    assert Shifts(0x3D4, 16) == 0x6198;
    LowTen(0x6198, 0x198);
  }

  lemma ShiftsC()
    ensures Low10(Shifts(0x25C, 16)) == Low10(0x168)
  {
    assert Shifts(0x25C, 4) == 0x2B7A;
    assert Shifts(0x25C, 8) == 0xBE47;
    assert Shifts(0x25C, 12) == 0xEACA;
    assert Shifts(0x25C, 16) == 0xA168;
    LowTen(0xA168, 0x168);
  }

  lemma ShiftsD()
    ensures Low10(Shifts(0x258, 16)) == Low10(0x1B4)
  {
    assert Shifts(0x258, 4) == 0x2B3A;
    assert Shifts(0x258, 8) == 0xBBFE;
    assert Shifts(0x258, 12) == 0xB575;
    assert Shifts(0x258, 16) == 0x51B4;
    LowTen(0x51B4, 0x1B4);
  }

  // ---------- headers ----------

  /** The fields of the first two blocks as EN 50067 lays them out: program identification, four bits of group type, a
      bit of version, the traffic program flag, five bits of program type and five bits of the group's own. */
  datatype Header = Header(pi: int, kind: int, version: int, tp: int, pty: int, own: int)

  function HeaderOf(g: Group): Header {
    Header(g[0], g[1] / 4096, g[1] / 2048 % 2, g[1] / 1024 % 2, g[1] / 32 % 32, g[1] % 32)
  }

  lemma NameHeader(p: Params, segment: nat)
    requires segment < 4
    ensures HeaderOf(NameGroup(p, segment)) == Header(p.pi, 0, 0, 1, 0, segment + if p.ta then 16 else 0)
    ensures NameGroup(p, segment)[2] == 205 * 256 + 205
  {}

  lemma TextHeader(p: Params, segment: nat)
    requires segment < 16
    ensures HeaderOf(TextGroup(p, segment)) == Header(p.pi, 2, 0, 1, 0, segment)
  {}

  lemma ClockHeader(pi: Word, now: Reading)
    requires Encodable(now.utc)
    ensures HeaderOf(CtGroup(pi, now)) == Header(pi, 4, 0, 1, 0, Mjd(now.utc) / 0x8000)
  {
    ClockBlocks(pi, Mjd(now.utc), now.utc.hour, now.utc.min, now.offset);
  }

  lemma ClockBlocks(pi: Word, mjd: int, hour: int, min: int, offset: int)
    requires 0 <= mjd < 0x2_0000
    ensures HeaderOf(CtBlocks(pi, mjd, hour, min, offset)) == Header(pi, 4, 0, 1, 0, mjd / 0x8000)
  {
    DayHigh(mjd);
    ClockFields(0x4400 + mjd / 0x8000, mjd / 0x8000);
  }

  lemma ClockFields(b: nat, top: nat)
    requires b == 0x4400 + top && top < 4
    ensures b / 4096 == 4 && b / 2048 % 2 == 0 && b / 1024 % 2 == 1 && b / 32 % 32 == 0 && b % 32 == top
  {}

  /** Every group carries the station's code and says what it is. A name group's own bits are the traffic announcement
      flag and the segment, and its third block holds the filler code twice, as there are no alternative
      frequencies. */
  lemma HeaderReads(p: Params, s: State, now: Reading)
    requires InRange(s) && Encodable(now.utc)
    ensures var g := Generate(p, s, now).1;
      && HeaderOf(g).pi == p.pi && HeaderOf(g).tp == 1 && HeaderOf(g).version == 0 && HeaderOf(g).pty == 0
      && HeaderOf(g).kind == (if now.utc.min != s.latestMinutes then 4 else if s.state < 4 then 0 else 2)
      && (HeaderOf(g).kind == 0 ==> HeaderOf(g).own == s.psState + (if p.ta then 16 else 0) && g[2] == 0xCDCD)
      && (HeaderOf(g).kind == 2 ==> HeaderOf(g).own == s.rtState)
  {
    if ClockDue(s, now) {
      ClockHeader(p.pi, now);
    } else if s.state < 4 {
      NameHeader(p, s.psState);
    } else {
      TextHeader(p, s.rtState);
    }
  }

  // ---------- when a clock time comes ----------

  /** The groups of a run of requests. */
  function GroupsOf(p: Params, s: State, readings: seq<Reading>): (r: seq<Group>)
    requires InRange(s)
    ensures |r| == |readings|
    decreases |readings|
  {
    if readings == [] then []
    else
      var r := Generate(p, s, readings[0]);
      [r.1] + GroupsOf(p, r.0, readings[1..])
  }

  /** Whatever the last group was, the minute it was made in is the latest one. */
  lemma LatestMinutes(p: Params, s: State, now: Reading)
    requires InRange(s)
    ensures Generate(p, s, now).0.latestMinutes == now.utc.min
  {}

  /** The minute of the request before the k-th, or the latest one before the run. */
  function MinuteBefore(s: State, readings: seq<Reading>, k: nat): int
    requires k <= |readings|
  {
    if k == 0 then s.latestMinutes else readings[k - 1].utc.min
  }

  /** The k-th group of a run is a clock time if and only if the minute has changed since the request before. */
  lemma {:induction false} ClockOnceAMinute(p: Params, s: State, readings: seq<Reading>, k: nat)
    requires InRange(s) && k < |readings| && forall r <- readings :: Encodable(r.utc)
    ensures HeaderOf(GroupsOf(p, s, readings)[k]).kind == 4
       <==> readings[k].utc.min != MinuteBefore(s, readings, k)
    decreases k
  {
    assert readings[0] in readings;
    if k == 0 {
      HeaderReads(p, s, readings[0]);
    } else {
      var s' := Generate(p, s, readings[0]).0;
      LatestMinutes(p, s, readings[0]);
      ClockOnceAMinute(p, s', readings[1..], k - 1);
      assert MinuteBefore(s', readings[1..], k - 1) == MinuteBefore(s, readings, k);
    }
  }

  /** So the very first group is one, whenever it is requested. */
  lemma FirstIsClock(p: Params, readings: seq<Reading>)
    requires readings != [] && forall r <- readings :: Encodable(r.utc)
    ensures HeaderOf(GroupsOf(p, INITIAL, readings)[0]).kind == 4
  {
    assert readings[0] in readings;
    ClockOnceAMinute(p, INITIAL, readings, 0);
  }

  // ---------- from the bits on the air to the groups ----------

  /** The first m readings of a clock. */
  function Readings(clock: nat -> Reading, m: nat): (r: seq<Reading>)
    ensures |r| == m
  {
    seq(m, i requires 0 <= i < m => clock(i))
  }

  lemma ReadingsNext(clock: nat -> Reading, m: nat)
    requires m > 0
    ensures Readings(clock, m) == Readings(clock, m - 1) + [clock(m - 1)]
  {}

  lemma {:induction false} GroupsSnoc(p: Params, s: State, readings: seq<Reading>, now: Reading)
    requires InRange(s)
    ensures var next := Generate(p, StateAfter(p, s, readings), now);
      && StateAfter(p, s, readings + [now]) == next.0
      && GroupsOf(p, s, readings + [now]) == GroupsOf(p, s, readings) + [next.1]
    decreases |readings|
  {
    var all := readings + [now];
    if readings == [] {
      assert all == [now] && all[1..] == [];
    } else {
      GroupsSnoc(p, Generate(p, s, readings[0]).0, readings[1..], now);
      assert all[0] == readings[0] && all[1..] == readings[1..] + [now];
    }
  }

  /** Groups end to end. */
  function Joined(groups: seq<Group>): (r: Bits)
    ensures |r| == 104 * |groups|
  {
    Concat(groups, GroupBits)
  }

  function Concat(groups: seq<Group>, bitsOf: Group -> Bits): (r: Bits)
    ensures (forall g :: |bitsOf(g)| == 104) ==> |r| == 104 * |groups|
  {
    if groups == [] then []
    else
      var last := |groups| - 1;
      Concat(groups[..last], bitsOf) + bitsOf(groups[last])
  }

  lemma ConcatSnoc(groups: seq<Group>, g: Group, bitsOf: Group -> Bits)
    ensures Concat(groups + [g], bitsOf) == Concat(groups, bitsOf) + bitsOf(g)
  {
    assert (groups + [g])[..|groups|] == groups;
  }

  /** Group k takes bits 104 * k to 104 * k + 103. */
  lemma {:induction false} ConcatAt(groups: seq<Group>, bitsOf: Group -> Bits, k: nat)
    requires k < |groups| && forall g :: |bitsOf(g)| == 104
    ensures Concat(groups, bitsOf)[104 * k..104 * k + 104] == bitsOf(groups[k])
    decreases |groups|
  {
    var last := |groups| - 1;
    var front, bits := groups[..last], bitsOf(groups[last]);
    if k < last {
      ConcatAt(front, bitsOf, k);
      SliceOfFront(Concat(front, bitsOf), bits, 104 * k, 104 * k + 104);
    } else {
      SliceOfBack(Concat(front, bitsOf), bits);
    }
  }

  /** What the modulator is fed with is the groups of the run, whatever the clock, and nothing else. */
  lemma {:induction false} BitsAreGroups(p: Params, s: State, clock: nat -> Reading, m: nat)
    requires InRange(s)
    ensures RdsModulator.MoreBits(p, s, [], clock, m)
         == (StateAfter(p, s, Readings(clock, m)), Joined(GroupsOf(p, s, Readings(clock, m))))
  {
    if m > 0 {
      BitsAreGroups(p, s, clock, m - 1);
      ReadingsNext(clock, m);
      OneMoreGroup(p, s, Readings(clock, m - 1), clock(m - 1));
    }
  }

  lemma OneMoreGroup(p: Params, s: State, readings: seq<Reading>, now: Reading)
    requires InRange(s)
    ensures RdsModulator.OneMore(p, (StateAfter(p, s, readings), Joined(GroupsOf(p, s, readings))), now)
         == (StateAfter(p, s, readings + [now]), Joined(GroupsOf(p, s, readings + [now])))
  {
    GroupsSnoc(p, s, readings, now);
    ConcatSnoc(GroupsOf(p, s, readings), Generate(p, StateAfter(p, s, readings), now).1, GroupBits);
  }

  /** Block i of group k is found 104 * k + 26 * i bits from where the first group begins. */
  lemma WordsOnAir(groups: seq<Group>, k: nat, i: nat)
    requires k < |groups| && i < 4
    ensures WordAt(Joined(groups), 104 * k + 26 * i, groups[k][i], OFFSET_WORDS[i])
  {
    JoinedAt(groups, k);
    GroupAt(Joined(groups), groups[k], 104 * k, i);
  }

  lemma JoinedAt(groups: seq<Group>, k: nat)
    requires k < |groups|
    ensures 104 * k + 104 <= |Joined(groups)|
    ensures Joined(groups)[104 * k..104 * k + 104] == GroupBits(groups[k])
  {
    ConcatAt(groups, GroupBits, k);
  }

  /** From bit `at` on, these 26 bits are the word and its checkword with the offset word added. */
  predicate WordAt(bits: Bits, at: nat, w: Word, offset: bv16) {
    && at + 26 <= |bits|
    && Value(bits[at..at + 16]) == w && Xor(bits[at + 16..at + 26], Checkword(bits[at..at + 16])) == Low10(offset)
  }

  lemma GroupAt(bits: Bits, g: Group, start: nat, i: nat)
    requires i < 4 && start + 104 <= |bits| && bits[start..start + 104] == GroupBits(g)
    ensures WordAt(bits, start + 26 * i, g[i], OFFSET_WORDS[i])
  {
    var group := bits[start..start + 104];
    WordsReadBack(g, i);
    SliceOfSlice(bits, start, group, 26 * i, 26 * i + 16);
    SliceOfSlice(bits, start, group, 26 * i + 16, 26 * i + 26);
  }

  lemma SliceOfSlice(bits: Bits, at: nat, part: Bits, from: nat, to: nat)
    requires from <= to <= |part| && at + |part| <= |bits| && part == bits[at..at + |part|]
    ensures part[from..to] == bits[at + from..at + to]
  {
    var a, b := part[from..to], bits[at + from..at + to];
    forall k | 0 <= k < |a|
      ensures a[k] == b[k]
    {
      assert a[k] == part[from + k] == bits[at + (from + k)];
    }
  }
}
