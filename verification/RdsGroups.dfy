/** RDS group generation (src/rds_mod.c): the 0A, 0A, 0A, 0A, 2A schedule that clock-time groups may
    interrupt, the contents of the groups, and what a receiver can rebuild from them. */
module RdsGroups {
  import opened RdsCode

  const RT_LENGTH := 64
  const PS_LENGTH := 8
  const GROUP_LENGTH := 4
  const BITS_PER_GROUP := 104
  const SPACE: Byte := 32

  type Byte = c: int | 0 <= c < 256

  /** Offset words A, B, C and D; the last serves group types of version A only. */
  const OFFSET_WORDS: seq<bv16> := [0x0FC, 0x198, 0x168, 0x1B4]

  type Group = b: seq<Word> | |b| == GROUP_LENGTH witness [0, 0, 0, 0]

  type Text8 = t: seq<Byte> | |t| == PS_LENGTH witness [0, 0, 0, 0, 0, 0, 0, 0]
  type Text64 = t: seq<Byte> | |t| == RT_LENGTH witness seq(RT_LENGTH, _ => 0)

  datatype Params = Params(pi: Word, ta: bool, ps: Text8, rt: Text64)

  /** The broken-down time the C library reports; `year` counts from 1900, `mon` from 0. */
  datatype Tm = Tm(min: int, hour: int, mday: int, mon: int, year: int)

  /** One reading of the clock: the UTC time and the offset in half hours computed along with it. */
  datatype Reading = Reading(utc: Tm, offset: int)

  datatype State = State(state: nat, psState: nat, rtState: nat, latestMinutes: int)

  const INITIAL := State(0, 0, 0, -1)

  predicate InRange(s: State) {
    s.state < 5 && s.psState < 4 && s.rtState < 16
  }

  // ---------- the modified Julian day ----------

  /** C's conversion of a quotient to int: truncation toward zero. */
  function TruncDiv(a: int, b: int): int
    requires b > 0
  {
    if a >= 0 then a / b else -(-a / b)
  }

  function Mjd(t: Tm): int {
    var l := if t.mon <= 1 then 1 else 0;
    14956 + t.mday + YearDays(t.year - l) + MonthDays(t.mon + 2 + l * 12)
  }

  /** Truncation of 365.25 years. */
  function YearDays(years: int): int {
    TruncDiv(years * 1461, 4)
  }

  /** Truncation of 30.6001 months. */
  function MonthDays(months: int): int {
    TruncDiv(months * 306001, 10000)
  }

  predicate IsDate(t: Tm) {
    0 <= t.mon < 12 && 1 <= t.mday <= MonthLength(t.mon, t.year % 4 == 0)
  }

  function MonthLength(mon: int, leap: bool): int {
    if mon == 1 then (if leap then 29 else 28)
    else if mon == 3 || mon == 5 || mon == 8 || mon == 10 then 30 else 31
  }

  /** The next calendar day, with a leap year every `leap` years. */
  function NextDay(t: Tm, leap: bool): Tm {
    if t.mday < MonthLength(t.mon, leap) then t.(mday := t.mday + 1)
    else if t.mon < 11 then t.(mday := 1, mon := t.mon + 1)
    else t.(mday := 1, mon := 0, year := t.year + 1)
  }

  predicate GregorianLeap(year: int) {
    year % 4 == 0 && (year % 100 != 0 || year % 400 == 100)
  }

  /** From 1901 on the formula counts days under the every-fourth-year leap rule. */
  lemma MjdCountsDays(t: Tm)
    requires IsDate(t) && t.year >= 1
    ensures var u := NextDay(t, t.year % 4 == 0); IsDate(u) && u.year >= 1 && Mjd(u) == Mjd(t) + 1
  {
    if t.mday == MonthLength(t.mon, t.year % 4 == 0) {
      MonthTable();
      if t.mon == 1 {
        YearStep(t.year - 1);
      } else {
        MonthStep(t.mon);
      }
    }
  }

  /** From one month to the next, January and February counting as months 14 and 15 of the year before. */
  lemma MonthStep(mon: int)
    requires 0 <= mon < 12 && mon != 1
    ensures var m := if mon == 0 then 14 else mon + 2; MonthDays(m + 1) == MonthDays(m) + MonthLength(mon, false)
  {
    MonthTable();
    assert mon in {0, 2, 3, 4, 5, 6, 7, 8, 9, 10, 11};
  }

  lemma MonthTable()
    ensures MonthDays(4) == 122 && MonthDays(5) == 153 && MonthDays(6) == 183 && MonthDays(7) == 214
    ensures MonthDays(8) == 244 && MonthDays(9) == 275 && MonthDays(10) == 306 && MonthDays(11) == 336
    ensures MonthDays(12) == 367 && MonthDays(13) == 397 && MonthDays(14) == 428 && MonthDays(15) == 459
  {}

  /** The years count 365 days, and one more every fourth year. */
  lemma YearStep(years: nat)
    ensures YearDays(years + 1) == YearDays(years) + if (years + 1) % 4 == 0 then 366 else 365
  {
    assert years * 1461 == 4 * (365 * years) + years;
  }

  /** On the real calendar it fails exactly at the end of February of a skipped leap year. */
  lemma MjdOnGregorianCalendar(t: Tm)
    requires IsDate(t) && t.year >= 1 && t.mday <= MonthLength(t.mon, GregorianLeap(t.year))
    ensures Mjd(NextDay(t, GregorianLeap(t.year))) == Mjd(t) + 1
       <==> !(t.mon == 1 && t.mday == 28 && t.year % 4 == 0 && !GregorianLeap(t.year))
  {
    MjdCountsDays(t);
    if t.mon == 1 && t.mday == 28 && t.year % 4 == 0 && !GregorianLeap(t.year) {
      MjdCountsDays(t.(mday := 29));
    }
  }

  /** The day behind 28 February 2100 is 1 March, but the formula skips a number. */
  lemma MjdSkips()
    ensures var t := Tm(0, 0, 28, 1, 200);
      NextDay(t, GregorianLeap(t.year)).mon == 2 && Mjd(NextDay(t, GregorianLeap(t.year))) == Mjd(t) + 2
  {}

  /** Two anchors: 1 March 1900 was day 15079, 1 January 2000 was day 51544. */
  lemma MjdAnchors()
    ensures Mjd(Tm(0, 0, 1, 2, 0)) == 15079 && Mjd(Tm(0, 0, 1, 0, 100)) == 51544
  {}

  function DaysLater(t: Tm, n: nat): Tm {
    if n == 0 then t else
      var u := DaysLater(t, n - 1);
      NextDay(u, u.year % 4 == 0)
  }

  /** n days later the formula has grown by n, for every n. */
  lemma {:induction false} MjdAfterDays(t: Tm, n: nat)
    requires IsDate(t) && t.year >= 1
    ensures var u := DaysLater(t, n); IsDate(u) && u.year >= 1 && Mjd(u) == Mjd(t) + n
  {
    if n > 0 {
      MjdAfterDays(t, n - 1);
      MjdCountsDays(DaysLater(t, n - 1));
    }
  }

  // ---------- group contents ----------

  /** Bitwise or. */
  function Or(a: nat, b: nat): nat {
    if a == 0 then b else if b == 0 then a
    else 2 * Or(a / 2, b / 2) + (if a % 2 == 1 || b % 2 == 1 then 1 else 0)
  }

  /** The lowest bits are combined on their own. */
  lemma OrHalves(a: nat, e: nat, b: nat, f: nat)
    requires e < 2 && f < 2
    ensures Or(2 * a + e, 2 * b + f) == 2 * Or(a, b) + (if e == 1 || f == 1 then 1 else 0)
  {}

  /** m shifted left by k bits. */
  function Shifted(m: nat, k: nat): nat {
    if k == 0 then m else 2 * Shifted(m, k - 1)
  }

  lemma {:induction false} ShiftedIsProduct(m: nat, k: nat)
    ensures Shifted(m, k) == m * Pow2(k)
  {
    if k > 0 {
      ShiftedIsProduct(m, k - 1);
      Doubled(m, Pow2(k - 1));
    }
  }

  lemma Doubled(m: nat, p: nat)
    ensures m * (2 * p) == 2 * (m * p)
  {}

  lemma {:induction false} OrDisjoint(m: nat, b: nat, k: nat)
    requires b < Pow2(k)
    ensures Or(Shifted(m, k), b) == Shifted(m, k) + b
  {
    if k > 0 {
      OrHalves(Shifted(m, k - 1), 0, b / 2, b % 2);
      OrDisjoint(m, b / 2, k - 1);
    }
  }

  predicate BitClear(x: nat, k: nat) {
    if k == 0 then x % 2 == 0 else BitClear(x / 2, k - 1)
  }

  lemma {:induction false} BitBehindLow(m: nat, low: nat, k: nat)
    requires low < Pow2(k)
    ensures BitClear(Shifted(2 * m, k) + low, k)
  {
    if k > 0 {
      BitBehindLow(m, low / 2, k - 1);
      assert (Shifted(2 * m, k) + low) / 2 == Shifted(2 * m, k - 1) + low / 2;
    }
  }

  /** Setting a clear bit adds its weight. */
  lemma {:induction false} OrBit(x: nat, k: nat)
    requires BitClear(x, k)
    ensures Or(x, Pow2(k)) == x + Pow2(k)
  {
    if k > 0 {
      OrBit(x / 2, k - 1);
      OrHalves(x / 2, x % 2, Pow2(k - 1), 0);
    } else {
      OrHalves(x / 2, 0, 0, 1);
    }
  }

  function Truncate16(x: int): Word {
    x % 0x1_0000
  }

  function Or16(a: Word, b: Word): Word {
    Truncate16(Or(a, b))
  }

  function Abs(x: int): nat {
    if x < 0 then -x else x
  }

  function CtDayHigh(mjd: int): Word {
    Or16(0x4400, Truncate16(mjd / 0x8000))
  }

  function CtDayLow(mjd: int, hour: int): Word {
    Or16(Truncate16(2 * mjd), Truncate16(hour / 16))
  }

  function CtTime(hour: int, min: int, offset: int): Word {
    var local := Or16(Or16(hour % 16 * 4096, Truncate16(min * 64)), Truncate16(Abs(offset)));
    if offset < 0 then Or16(local, 0x20) else local
  }

  /** Clock time, type 4A. */
  function CtBlocks(pi: Word, mjd: int, hour: int, min: int, offset: int): Group {
    [pi, CtDayHigh(mjd), CtDayLow(mjd, hour), CtTime(hour, min, offset)]
  }

  function CtGroup(pi: Word, now: Reading): Group {
    CtBlocks(pi, Mjd(now.utc), now.utc.hour, now.utc.min, now.offset)
  }

  /** Two characters in one block. The second is a signed char: its sign bits smear over the first. */
  function Pair(hi: Byte, lo: Byte): Word {
    if lo >= 0x80 then 0xFF00 + lo else hi * 256 + lo
  }

  /** Program service name, type 0A; the bits that are or-ed together do not overlap. */
  function NameGroup(p: Params, segment: nat): Group
    requires segment < 4
  {
    [p.pi, 0x0400 + segment + (if p.ta then 0x0010 else 0), 0xCDCD, Pair(p.ps[segment * 2], p.ps[segment * 2 + 1])]
  }

  /** Radio text, type 2A. */
  function TextGroup(p: Params, segment: nat): Group
    requires segment < 16
  {
    [p.pi, 0x2400 + segment,
     Pair(p.rt[segment * 4], p.rt[segment * 4 + 1]), Pair(p.rt[segment * 4 + 2], p.rt[segment * 4 + 3])]
  }

  /** The minute has changed since the last clock-time group: such a group goes first. */
  predicate ClockDue(s: State, now: Reading) {
    now.utc.min != s.latestMinutes
  }

  /** One group and the state behind it. */
  function Generate(p: Params, s: State, now: Reading): (r: (State, Group))
    requires InRange(s)
    ensures InRange(r.0)
  {
    if ClockDue(s, now) then (s.(latestMinutes := now.utc.min), CtGroup(p.pi, now))
    else
      var s' := s.(state := if s.state >= 4 then 0 else s.state + 1);
      if s.state < 4 then (s'.(psState := if s.psState >= 3 then 0 else s.psState + 1), NameGroup(p, s.psState))
      else (s'.(rtState := if s.rtState >= 15 then 0 else s.rtState + 1), TextGroup(p, s.rtState))
  }

  // ---------- clock time survives the round trip ----------

  datatype Clock = Clock(mjd: int, hour: int, min: int, offset: int)

  function DecodeCt(b: Group): Clock {
    var b1: int, b2: int, b3: int := b[1], b[2], b[3];
    Clock(b1 % 4 * 0x8000 + b2 / 2, b2 % 2 * 16 + b3 / 4096, b3 / 64 % 64,
          if b3 / 32 % 2 == 1 then -(b3 % 32) else b3 % 32)
  }

  predicate Encodable(t: Tm) {
    0 <= Mjd(t) < 0x2_0000 && 0 <= t.hour < 24 && 0 <= t.min < 60
  }

  lemma SmallPowers()
    ensures Pow2(1) == 2 && Pow2(5) == 32 && Pow2(6) == 64 && Pow2(10) == 0x400 && Pow2(12) == 0x1000
  {
    assert Pow2(3) == 8 && Pow2(8) == 0x100;
  }

  /** With everything in range no bits overlap, so each `|` is a sum. */
  lemma OrSum(m: nat, p: nat, b: nat, k: nat)
    requires p == Pow2(k) && b < p && m * p + b < 0x1_0000
    ensures Or16(m * p, b) == m * p + b
  {
    ShiftedIsProduct(m, k);
    OrDisjoint(m, b, k);
  }

  lemma DayHigh(mjd: int)
    requires 0 <= mjd < 0x2_0000
    ensures CtDayHigh(mjd) == 0x4400 + mjd / 0x8000
  {
    var x := mjd / 0x8000;
    assert 0 <= x < 4 && Truncate16(x) == x;
    OrFour(x);
  }

  lemma OrFour(x: nat)
    requires x < 4
    ensures Or16(0x4400, x) == 0x4400 + x
  {
    SmallPowers();
    OrSum(17, 0x400, x, 10);
  }

  lemma DayLow(mjd: int, hour: int)
    requires 0 <= mjd < 0x2_0000 && 0 <= hour < 24
    ensures CtDayLow(mjd, hour) == mjd % 0x8000 * 2 + hour / 16
  {
    TwiceTruncated(mjd);
    OrOdd(mjd % 0x8000, hour / 16);
  }

  lemma TwiceTruncated(mjd: int)
    requires 0 <= mjd < 0x2_0000
    ensures Truncate16(2 * mjd) == mjd % 0x8000 * 2
  {}

  lemma OrOdd(m: nat, b: nat)
    requires m < 0x8000 && b < 2
    ensures Or16(m * 2, Truncate16(b)) == m * 2 + b
  {
    assert Pow2(1) == 2 by { SmallPowers(); }
    assert Truncate16(b) == b;
    OrSum(m, 2, b, 1);
  }

  lemma TimeBlock(hour: int, min: int, offset: int)
    requires 0 <= hour < 24 && 0 <= min < 60 && -31 <= offset <= 31
    ensures CtTime(hour, min, offset) == (hour % 16 * 64 + min) * 64 + Abs(offset) + (if offset < 0 then 0x20 else 0)
  {
    var h, low := hour % 16, Abs(offset);
    assert Truncate16(min * 64) == min * 64;
    assert Truncate16(low) == low;
    TimeSum(h, min, low);
    SignSum(h * 64 + min, low);
  }

  lemma TimeSum(h: nat, min: nat, low: nat)
    requires h < 16 && min < 60 && low < 32
    ensures Or16(Or16(h * 4096, min * 64), low) == (h * 64 + min) * 64 + low
  {
    SmallPowers();
    OrSum(h, 4096, min * 64, 12);
    OrSum(h * 64 + min, 64, low, 6);
  }

  lemma SignSum(m: nat, low: nat)
    requires m < 1024 && low < 32
    ensures Or16(m * 64 + low, 0x20) == m * 64 + low + 0x20
  {
    assert Pow2(5) == 0x20 by { SmallPowers(); }
    BitSum(m * 64 + low, m, 0x20, low, 5);
    Or16Is(m * 64 + low, 0x20, m * 64 + low + 0x20);
  }

  lemma Or16Is(a: Word, b: Word, r: nat)
    requires Or(a, b) == r < 0x1_0000
    ensures Or16(a, b) == r
  {}

  lemma BitSum(x: nat, m: nat, p: nat, low: nat, k: nat)
    requires p == Pow2(k) && low < p && x == 2 * m * p + low
    ensures Or(x, p) == x + p
  {
    ShiftedIsProduct(2 * m, k);
    BitBehindLow(m, low, k);
    OrBit(x, k);
  }

  /** A receiver reads back day, hour, minute and offset exactly when the offset fits its five bits. */
  lemma CtRoundTrip(pi: Word, now: Reading)
    requires Encodable(now.utc)
    ensures DecodeCt(CtGroup(pi, now)) == Clock(Mjd(now.utc), now.utc.hour, now.utc.min, now.offset)
       <==> -31 <= now.offset <= 31
  {
    BlocksRoundTrip(pi, Mjd(now.utc), now.utc.hour, now.utc.min, now.offset);
  }

  lemma BlocksRoundTrip(pi: Word, mjd: int, hour: int, min: int, offset: int)
    requires 0 <= mjd < 0x2_0000 && 0 <= hour < 24 && 0 <= min < 60
    ensures DecodeCt(CtBlocks(pi, mjd, hour, min, offset)) == Clock(mjd, hour, min, offset) <==> -31 <= offset <= 31
  {
    var g := CtBlocks(pi, mjd, hour, min, offset);
    if -31 <= offset <= 31 {
      DayHigh(mjd);
      DayLow(mjd, hour);
      TimeBlock(hour, min, offset);
      DecodeDate(g, mjd, hour);
      DecodeTime(g, hour % 16, min, Abs(offset), offset < 0);
    } else {
      assert -31 <= DecodeCt(g).offset <= 31;
    }
  }

  lemma DecodeDate(g: Group, mjd: int, hour: int)
    requires 0 <= mjd < 0x2_0000 && 0 <= hour < 24
    requires g[1] == 0x4400 + mjd / 0x8000 && g[2] == mjd % 0x8000 * 2 + hour / 16
    ensures DecodeCt(g).mjd == mjd && g[2] % 2 == hour / 16
  {}

  lemma DecodeTime(g: Group, h: int, min: int, magnitude: int, negative: bool)
    requires 0 <= h < 16 && 0 <= min < 60 && 0 <= magnitude < 32
    requires g[3] == (h * 64 + min) * 64 + magnitude + (if negative then 0x20 else 0)
    ensures g[3] / 4096 == h && DecodeCt(g).min == min
    ensures DecodeCt(g).offset == if negative then -magnitude else magnitude
  {
    SplitTime(g[3], h * 64 + min, magnitude + (if negative then 0x20 else 0));
  }

  lemma SplitTime(b3: int, t: int, low: int)
    requires b3 == t * 64 + low && 0 <= low < 64
    ensures b3 / 4096 == t / 64 && b3 / 64 == t && b3 % 32 == low % 32 && b3 / 32 % 2 == low / 32
  {
    Over32(t, low / 32, low % 32);
    Over4096(t / 64, t % 64 * 64 + low);
  }

  lemma Over32(t: int, high: int, low: int)
    requires 0 <= high < 2 && 0 <= low < 32
    ensures (t * 64 + 32 * high + low) / 32 == 2 * t + high && (t * 64 + 32 * high + low) % 32 == low
    ensures (2 * t + high) % 2 == high
  {}

  lemma Over4096(q: int, r: int)
    requires 0 <= r < 4096
    ensures (q * 4096 + r) / 4096 == q
  {}

  /** The offset that builds without tm_gmtoff send: half hours since the epoch. */
  function EpochOffset(seconds: nat): int {
    seconds / 1800
  }

  /** From sixteen hours after the epoch on, such builds never send a clock time a receiver can read back. */
  lemma EpochOffsetUnreadable(pi: Word, utc: Tm, seconds: nat)
    requires Encodable(utc)
    ensures DecodeCt(CtGroup(pi, Reading(utc, EpochOffset(seconds))))
              == Clock(Mjd(utc), utc.hour, utc.min, EpochOffset(seconds))
       <==> seconds < 57600
  {
    CtRoundTrip(pi, Reading(utc, EpochOffset(seconds)));
  }

  /** One day after the epoch, at midnight, the offset 48 reads back as -16. */
  lemma EpochOffsetMisread(g: Group)
    requires g[3] == CtTime(0, 0, EpochOffset(86400))
    ensures DecodeCt(g).offset == -16
  {
    OrZero();
    DecodeTime(g, 0, 0, 16, true);
  }

  lemma OrZero()
    ensures CtTime(0, 0, 48) == 48
  {}

  // ---------- the schedule ----------

  /** The state behind a run of group requests, one clock reading each. */
  function StateAfter(p: Params, s: State, readings: seq<Reading>): (r: State)
    requires InRange(s)
    ensures InRange(r)
    decreases |readings|
  {
    if readings == [] then s else StateAfter(p, Generate(p, s, readings[0]).0, readings[1..])
  }

  /** How many of the groups of a run are not clock-time groups. */
  function PlainCount(p: Params, s: State, readings: seq<Reading>): nat
    requires InRange(s)
    decreases |readings|
  {
    if readings == [] then 0
    else (if ClockDue(s, readings[0]) then 0 else 1) + PlainCount(p, Generate(p, s, readings[0]).0, readings[1..])
  }

  /** The n-th plain group of a run from the beginning is due in this state. */
  predicate AtPlain(s: State, n: nat) {
    s.state == n % 5 && s.psState == (if n % 5 == 4 then 0 else n % 5) && s.rtState == n / 5 % 16
  }

  /** However clock-time groups interrupt it, the plain sequence is 0A, 0A, 0A, 0A, 2A for ever, with the
      name segments in step with the pattern and the text segments advancing once a round. */
  lemma {:induction false} Schedule(p: Params, s: State, n: nat, readings: seq<Reading>)
    requires InRange(s) && AtPlain(s, n)
    ensures AtPlain(StateAfter(p, s, readings), n + PlainCount(p, s, readings))
    decreases |readings|
  {
    if readings != [] {
      PlainStep(p, s, n, readings[0]);
      Schedule(p, Generate(p, s, readings[0]).0, if ClockDue(s, readings[0]) then n else n + 1, readings[1..]);
    }
  }

  lemma PlainStep(p: Params, s: State, n: nat, now: Reading)
    requires InRange(s) && AtPlain(s, n)
    ensures AtPlain(Generate(p, s, now).0, if ClockDue(s, now) then n else n + 1)
  {
    NextPlain(n);
    NextRound(n / 5);
  }

  lemma NextPlain(n: nat)
    ensures n % 5 == 4 ==> (n + 1) % 5 == 0 && (n + 1) / 5 == n / 5 + 1
    ensures n % 5 < 4 ==> (n + 1) % 5 == n % 5 + 1 && (n + 1) / 5 == n / 5
  {}

  lemma NextRound(q: nat)
    ensures (q + 1) % 16 == if q % 16 == 15 then 0 else q % 16 + 1
  {}

  // ---------- what a receiver rebuilds ----------

  datatype Receiver = Receiver(ps: Text8, rt: Text64)

  function WithPair(field: seq<Byte>, i: nat, w: Word): (r: seq<Byte>)
    requires 2 * i + 1 < |field|
    ensures |r| == |field|
  {
    field[2 * i := w / 256][2 * i + 1 := w % 256]
  }

  /** A receiver files the characters of 0A and 2A groups by their segment address. */
  function Receive(d: Receiver, g: Group): Receiver {
    var kind := g[1] / 2048;
    if kind == 0 then
      var a := g[1] % 4;
      d.(ps := WithPair(d.ps, a, g[3]))
    else if kind == 4 then
      var a := g[1] % 16;
      d.(rt := WithPair(WithPair(d.rt, 2 * a, g[2]), 2 * a + 1, g[3]))
    else d
  }

  function ReceiveAll(d: Receiver, p: Params, s: State, readings: seq<Reading>): Receiver
    requires InRange(s)
    decreases |readings|
  {
    if readings == [] then d
    else
      var r := Generate(p, s, readings[0]);
      ReceiveAll(Receive(d, r.1), p, r.0, readings[1..])
  }

  /** The pairs that get through: `char` is signed, so a second character from 0x80 on sets the first to 0xFF. */
  predicate Survives(hi: Byte, lo: Byte) {
    lo < 0x80 || hi == 0xFF
  }

  lemma PairRoundTrip(hi: Byte, lo: Byte)
    ensures Pair(hi, lo) / 256 == hi && Pair(hi, lo) % 256 == lo <==> Survives(hi, lo)
  {}

  /** An `A` before a character from 0x80 on is lost, one behind it is not. */
  lemma PairLost()
    ensures Pair(0x41, 0xE4) / 256 == 0xFF && Pair(0xE4, 0x41) / 256 == 0xE4 && Pair(0xE4, 0x41) % 256 == 0x41
  {}

  /** The i-th pair of a text has been filed as the pair of bytes that is sent for it. */
  predicate Filed(field: seq<Byte>, text: seq<Byte>, i: nat)
    requires |field| == |text| && 2 * i + 1 < |text|
  {
    var w := Pair(text[2 * i], text[2 * i + 1]);
    field[2 * i] == w / 256 && field[2 * i + 1] == w % 256
  }

  ghost predicate HasName(d: Receiver, p: Params, a: int) {
    0 <= a < 4 && Filed(d.ps, p.ps, a)
  }

  ghost predicate HasText(d: Receiver, p: Params, a: int) {
    0 <= a < 16 && Filed(d.rt, p.rt, 2 * a) && Filed(d.rt, p.rt, 2 * a + 1)
  }

  lemma PairIsFiled(field: seq<Byte>, text: seq<Byte>, i: nat)
    requires |field| == |text| && 2 * i + 1 < |text|
    ensures var after := WithPair(field, i, Pair(text[2 * i], text[2 * i + 1]));
      && Filed(after, text, i)
      && forall k: nat :: 2 * k + 1 < |text| && Filed(field, text, k) ==> Filed(after, text, k)
  {}

  lemma ReceiveName(d: Receiver, p: Params, segment: nat)
    requires segment < 4
    ensures var d' := Receive(d, NameGroup(p, segment));
      && d'.rt == d.rt && HasName(d', p, segment)
      && forall a :: HasName(d, p, a) ==> HasName(d', p, a)
  {
    PairIsFiled(d.ps, p.ps, segment);
  }

  lemma ReceiveText(d: Receiver, p: Params, segment: nat)
    requires segment < 16
    ensures var d' := Receive(d, TextGroup(p, segment));
      && d'.ps == d.ps && HasText(d', p, segment)
      && forall a :: HasText(d, p, a) ==> HasText(d', p, a)
  {
    PairIsFiled(d.rt, p.rt, 2 * segment);
    PairIsFiled(WithPair(d.rt, 2 * segment, TextGroup(p, segment)[2]), p.rt, 2 * segment + 1);
  }

  lemma ReceiveClock(d: Receiver, p: Params, now: Reading)
    requires Encodable(now.utc)
    ensures Receive(d, CtGroup(p.pi, now)) == d
  {
    DayHigh(Mjd(now.utc));
  }

  /** One group: segments received stay, and the one that is due arrives. */
  lemma ReceiveOne(d: Receiver, p: Params, s: State, now: Reading)
    requires InRange(s) && Encodable(now.utc)
    ensures var d' := Receive(d, Generate(p, s, now).1);
      && (forall a :: HasName(d, p, a) ==> HasName(d', p, a))
      && (forall a :: HasText(d, p, a) ==> HasText(d', p, a))
      && (!ClockDue(s, now) ==> if s.state < 4 then HasName(d', p, s.psState) else HasText(d', p, s.rtState))
  {
    if ClockDue(s, now) {
      ReceiveClock(d, p, now);
    } else if s.state < 4 {
      ReceiveName(d, p, s.psState);
    } else {
      ReceiveText(d, p, s.rtState);
    }
  }

  /** Plain groups to wait until name segment a comes round, and until text segment a does. */
  function NameWait(s: State, a: nat): int {
    if a >= s.state then a - s.state else a + 5 - s.state
  }

  function TextWait(s: State, a: nat): int {
    4 - s.state + 5 * (if a >= s.rtState then a - s.rtState else a + 16 - s.rtState)
  }

  /** The name segment is in step with the position in the pattern, as it is at the beginning. */
  predicate InStep(s: State) {
    InRange(s) && s.psState == if s.state == 4 then 0 else s.state
  }

  /** Segment a is there, or arrives within `count` further plain groups. */
  ghost predicate NameComing(d: Receiver, p: Params, s: State, count: nat, a: nat) {
    HasName(d, p, a) || (a < 4 && NameWait(s, a) < count)
  }

  ghost predicate TextComing(d: Receiver, p: Params, s: State, count: nat, a: nat) {
    HasText(d, p, a) || (a < 16 && TextWait(s, a) < count)
  }

  lemma {:induction false} SegmentArrives(d: Receiver, p: Params, s: State, readings: seq<Reading>, a: nat)
    requires InStep(s) && forall r <- readings :: Encodable(r.utc)
    ensures NameComing(d, p, s, PlainCount(p, s, readings), a) ==> HasName(ReceiveAll(d, p, s, readings), p, a)
    ensures TextComing(d, p, s, PlainCount(p, s, readings), a) ==> HasText(ReceiveAll(d, p, s, readings), p, a)
    decreases |readings|
  {
    if readings != [] {
      var g := Generate(p, s, readings[0]);
      var d' := Receive(d, g.1);
      ReceiveOne(d, p, s, readings[0]);
      ComingCloser(d, d', p, s, g.0, readings[0], PlainCount(p, g.0, readings[1..]), a);
      SegmentArrives(d', p, g.0, readings[1..], a);
    }
  }

  lemma ComingCloser(d: Receiver, d': Receiver, p: Params, s: State, s': State, now: Reading, count: nat, a: nat)
    requires InStep(s) && s' == Generate(p, s, now).0
    requires (HasName(d, p, a) ==> HasName(d', p, a)) && (HasText(d, p, a) ==> HasText(d', p, a))
    requires !ClockDue(s, now) ==> if s.state < 4 then HasName(d', p, s.psState) else HasText(d', p, s.rtState)
    ensures InStep(s')
    ensures var all := if ClockDue(s, now) then count else count + 1;
      && (NameComing(d, p, s, all, a) ==> NameComing(d', p, s', count, a))
      && (TextComing(d, p, s, all, a) ==> TextComing(d', p, s', count, a))
  {}

  /** Every pair of a text survives being sent. */
  ghost predicate Sendable(text: seq<Byte>) {
    forall i :: 0 <= 2 * i && 2 * i + 1 < |text| ==> PairSurvives(text, i)
  }

  predicate PairSurvives(text: seq<Byte>, i: int)
    requires 0 <= 2 * i && 2 * i + 1 < |text|
  {
    Survives(text[2 * i], text[2 * i + 1])
  }

  /** Any stretch with five plain groups conveys the name, and any with eighty the text, from whatever point it starts
      and however many clock-time groups are strewn in: all of it exactly when all of its pairs survive. */
  lemma Reception(d: Receiver, p: Params, s: State, readings: seq<Reading>)
    requires InStep(s) && forall r <- readings :: Encodable(r.utc)
    ensures PlainCount(p, s, readings) >= 5 ==> (ReceiveAll(d, p, s, readings).ps == p.ps <==> Sendable(p.ps))
    ensures PlainCount(p, s, readings) >= 80 ==> (ReceiveAll(d, p, s, readings).rt == p.rt <==> Sendable(p.rt))
  {
    var d', count := ReceiveAll(d, p, s, readings), PlainCount(p, s, readings);
    if count >= 5 {
      forall i: nat | i < 4
        ensures Filed(d'.ps, p.ps, i)
      {
        SegmentArrives(d, p, s, readings, i);
        assert HasName(d', p, i);
      }
      FiledIsText(d'.ps, p.ps);
    }
    if count >= 80 {
      forall i: nat | i < 32
        ensures Filed(d'.rt, p.rt, i)
      {
        SegmentArrives(d, p, s, readings, i / 2);
        assert HasText(d', p, i / 2);
      }
      FiledIsText(d'.rt, p.rt);
    }
  }

  /** A field in which every pair has been filed is the text exactly when every pair survives. */
  lemma FiledIsText(field: seq<Byte>, text: seq<Byte>)
    requires |field| == |text| && |text| % 2 == 0
    requires forall i: nat :: 2 * i + 1 < |text| ==> Filed(field, text, i)
    ensures field == text <==> Sendable(text)
  {
    forall i: nat | 2 * i + 1 < |text|
      ensures PairSurvives(text, i) <==> field[2 * i] == text[2 * i] && field[2 * i + 1] == text[2 * i + 1]
    {
      assert Filed(field, text, i);
      PairRoundTrip(text[2 * i], text[2 * i + 1]);
    }
    if Sendable(text) {
      forall k | 0 <= k < |text|
        ensures field[k] == text[k]
      {
        assert PairSurvives(text, k / 2);
      }
    }
  }
}
