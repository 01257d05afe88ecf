/** The transmit ring of the SoapySDR driver (src/SoapySDR/Streaming.cpp): writeStream fills buffers at the
    head, the USB thread's tx_callback takes them from the tail, and a reset or an underflow drains the ring. */
module SoapyRing {
  import opened Options

  /** One buffer of the ring: a row of bytes for red, green and blue. */
  type Buffer = seq<seq<int>>

  datatype Format = Float32 | Int16 | Uint16 | Int8 | Uint8
  datatype Element = Float(value: real) | Short(word: int)

  predicate Copies(format: Format) {
    format.Float32? || format.Int16? || format.Uint16?
  }

  predicate OfFormat(format: Format, es: seq<Element>) {
    Copies(format) ==> forall e :: e in es ==> (e.Float? <==> format.Float32?)
  }

  /** What other threads do between two steps of the writer. */
  datatype Event = Callback(underflow: bool) | NewSampleRate | PollStatus

  /** The events before each of writeStream's accesses to the shared state. */
  datatype Interference = Interference(entering: seq<Event>, draining: seq<Event>, checking: seq<Event>,
                                       waiting: seq<Event>, writing: seq<Event>)

  datatype Acquired = Elements(n: nat) | Timeout | Underflow

  // ---- what the events do ----

  /** What the writer and the other threads share: how many buffers are filled, whether an underflow is noted, and
      whether a reset is requested. */
  datatype Shared = Shared(filled: int, underflow: bool, reset: bool)

  function Happened(s: Shared, e: Event): Shared {
    match e
    case Callback(underflow) => if underflow || s.filled == 0 then s.(underflow := true) else s.(filled := s.filled - 1)
    case NewSampleRate => s.(reset := true)
    case PollStatus => s.(underflow := false)
  }

  function AllHappened(s: Shared, events: seq<Event>): Shared {
    if events == [] then s
    else
      var last := |events| - 1;
      Happened(AllHappened(s, events[..last]), events[last])
  }

  lemma HappenedNext(s: Shared, events: seq<Event>, i: nat)
    requires i < |events|
    ensures AllHappened(s, events[..i + 1]) == Happened(AllHappened(s, events[..i]), events[i])
  {
    assert events[..i + 1][..i] == events[..i];
  }

  /** Callbacks take no buffer from an empty queue. */
  lemma {:induction false} EmptyStays(s: Shared, events: seq<Event>)
    requires s.filled == 0
    ensures AllHappened(s, events).filled == 0
  {
    if events != [] {
      EmptyStays(s, events[..|events| - 1]);
    }
  }

  /** A request for a reset is only withdrawn by the writer. */
  lemma {:induction false} ResetStays(s: Shared, events: seq<Event>)
    ensures AllHappened(s, events).reset <==> s.reset || NewSampleRate in events
  {
    if events != [] {
      var last := |events| - 1;
      ResetStays(s, events[..last]);
      assert events == events[..last] + [events[last]];
    }
  }

  /** The events up to the first one that frees one of n filled buffers. */
  function Waited(s: Shared, events: seq<Event>, n: nat): Shared
    decreases |events|
  {
    if s.filled != n || events == [] then s else Waited(Happened(s, events[0]), events[1..], n)
  }

  // ---- what the writer is told ----

  /** An answer, and what is shared afterwards. */
  datatype Turn = Turn(answer: Acquired, next: Shared)

  /** acquireWriteBuffer, in a ring of n buffers of this size: a reset empties the queue and forgets an underflow; an
      underflow that is noted when the writer looks is reported, and empties the queue too; otherwise there is a timeout
      if none of the events while waiting frees a buffer. */
  function Acquiring(s: Shared, i: Interference, n: nat, size: nat): Turn {
    Looking(AllHappened(if s.reset then Shared(0, false, false) else s, i.checking), i, n, size)
  }

  function Looking(s: Shared, i: Interference, n: nat, size: nat): Turn {
    if s.underflow then Turn(Underflow, AllHappened(s.(filled := 0), i.draining).(underflow := false))
    else
      var waited := Waited(s, i.waiting, n);
      if waited.filled == n then Turn(Timeout, waited) else Turn(Elements(size), waited)
  }

  /** The first half of writeStream, with `buffered` elements of room in an unfinished buffer. */
  function Beginning(buffered: nat, s: Shared, i: Interference, n: nat, size: nat): Turn {
    var dropped := buffered > 0 && s.reset;
    var entered := AllHappened(if dropped then s.(filled := s.filled + 1) else s, i.entering);
    if buffered > 0 && !dropped then Turn(Elements(buffered), entered) else Acquiring(entered, i, n, size)
  }

  /** A call of writeStream: what it returns, the room that is left, and what is shared afterwards. */
  function Writing(buffered: nat, s: Shared, numElems: nat, i: Interference, n: nat, size: nat)
    : (Acquired, nat, Shared)
  {
    Filling(Beginning(buffered, s, i, n, size), numElems, i)
  }

  /** The second half of writeStream. */
  function Filling(turn: Turn, numElems: nat, i: Interference): (Acquired, nat, Shared) {
    if !turn.answer.Elements? then (turn.answer, 0, turn.next)
    else
      var room := turn.answer.n;
      var k := if room < numElems then room else numElems;
      var after := AllHappened(turn.next, i.writing);
      (Elements(k), room - k, if k == room then after.(filled := after.filled + 1) else after)
  }

  /** One call of writeStream by the application. */
  datatype Write = Write(input: seq<seq<Element>>, numElems: nat, i: Interference)

  /** A series of calls: what each returns, the room left in the end, and what is shared then. */
  function Calls(buffered: nat, s: Shared, writes: seq<Write>, n: nat, size: nat): (r: (seq<Acquired>, nat, Shared))
    ensures |r.0| == |writes|
  {
    if writes == [] then ([], buffered, s)
    else
      var w := writes[|writes| - 1];
      var before := Calls(buffered, s, writes[..|writes| - 1], n, size);
      var call := Writing(before.1, before.2, w.numElems, w.i, n, size);
      (before.0 + [call.0], call.1, call.2)
  }

  /** What the calls accepted of channel c, end to end. */
  function Accepted(writes: seq<Write>, answers: seq<Acquired>, c: nat): seq<Element>
    requires |answers| == |writes|
  {
    if writes == [] then []
    else
      var last := |writes| - 1;
      Accepted(writes[..last], answers[..last], c) + Part(writes[last], answers[last], c)
  }

  /** What one call accepted of it. */
  function Part(w: Write, answer: Acquired, c: nat): seq<Element> {
    if answer.Elements? && c < |w.input| && answer.n <= |w.input[c]| then w.input[c][..answer.n] else []
  }

  lemma AcceptedNext(writes: seq<Write>, answers: seq<Acquired>, a: Acquired, c: nat, i: nat)
    requires |answers| == i < |writes|
    ensures Accepted(writes[..i + 1], answers + [a], c) == Accepted(writes[..i], answers, c) + Part(writes[i], a, c)
  {
    assert writes[..i + 1][..i] == writes[..i] && (answers + [a])[..i] == answers;
  }

  lemma CallsNext(buffered: nat, s: Shared, writes: seq<Write>, i: nat, n: nat, size: nat)
    requires i < |writes|
    ensures var before, w := Calls(buffered, s, writes[..i], n, size), writes[i];
      var call := Writing(before.1, before.2, w.numElems, w.i, n, size);
      Calls(buffered, s, writes[..i + 1], n, size) == (before.0 + [call.0], call.1, call.2)
  {
    assert writes[..i + 1][..i] == writes[..i];
  }

  predicate AllOffer(format: Format, channels: seq<nat>, writes: seq<Write>) {
    forall w <- writes :: Offers(format, channels, w.input, w.numElems)
  }

  predicate AllCalm(writes: seq<Write>) {
    forall w <- writes :: Calm(w.i)
  }

  /** No reset is requested while the call runs. */
  predicate Calm(i: Interference) {
    && NewSampleRate !in i.entering && NewSampleRate !in i.draining && NewSampleRate !in i.checking
    && NewSampleRate !in i.waiting && NewSampleRate !in i.writing
  }

  lemma {:induction false} WaitedCalm(s: Shared, events: seq<Event>, n: nat)
    requires NewSampleRate !in events
    ensures Waited(s, events, n).reset == s.reset
    decreases |events|
  {
    if s.filled == n && events != [] {
      assert events[0] in events && forall e :: e in events[1..] ==> e in events;
      WaitedCalm(Happened(s, events[0]), events[1..], n);
    }
  }

  /** After a call in which none is requested, none is pending, unless the call went on with an unfinished buffer. */
  lemma CalmStays(buffered: nat, s: Shared, numElems: nat, i: Interference, n: nat, size: nat)
    requires Calm(i) && (buffered == 0 || !s.reset)
    ensures !Writing(buffered, s, numElems, i, n, size).2.reset
  {
    var turn := Beginning(buffered, s, i, n, size);
    ResetStays(s, i.entering);
    if buffered == 0 {
      AcquiringCalm(AllHappened(s, i.entering), i, n, size);
    }
    ResetStays(turn.next, i.writing);
  }

  lemma AcquiringCalm(s: Shared, i: Interference, n: nat, size: nat)
    requires Calm(i)
    ensures !Acquiring(s, i, n, size).next.reset
  {
    var start := if s.reset then Shared(0, false, false) else s;
    var seen := AllHappened(start, i.checking);
    ResetStays(start, i.checking);
    ResetStays(seen.(filled := 0), i.draining);
    WaitedCalm(seen, i.waiting, n);
  }

  // ---- bytes ----

  function Truncate(r: real): int {
    if r >= 0.0 then r.Floor else -(-r).Floor
  }

  function Eighth(x: int): int {
    if x >= 0 then x / 8 else -(-x / 8)
  }

  /** The 16 bits of a word read as a signed number. */
  function Signed16(w: int): int {
    if w % 65536 < 32768 then w % 65536 else w % 65536 - 65536
  }

  function Signed8(b: int): int {
    if b % 256 < 128 then b % 256 else b % 256 - 256
  }

  /** The byte stored for an element; both 16-bit formats are read as signed words. */
  function Convert(e: Element): (r: int)
    ensures 0 <= r < 256
  {
    match e
    case Float(f) => Truncate(f * 128.0) % 256
    case Short(w) => Eighth(Signed16(w)) % 256
  }

  function ConvertAll(es: seq<Element>): (r: seq<int>)
    ensures |r| == |es|
  {
    seq(|es|, i requires 0 <= i < |es| => Convert(es[i]))
  }

  lemma FitsByte(x: int)
    ensures Signed8(x % 256) == x <==> -128 <= x < 128
  {}

  /** Truncation goes to the next whole number on the side of zero. */
  lemma TruncateIs(r: real)
    ensures r >= 0.0 ==> 0.0 <= Truncate(r) as real <= r < Truncate(r) as real + 1.0
    ensures r <= 0.0 ==> Truncate(r) as real - 1.0 < r <= Truncate(r) as real <= 0.0
  {}

  /** The conversion of a scaled float to int8_t is defined exactly inside (-129/128, 1), and there the signed byte is
      less than 1 away from 128 times the float, on the side of zero; outside, the model lets it wrap around, and it is
      not. */
  lemma FloatFitsByte(f: real)
    ensures -129.0 < f * 128.0 < 128.0 <==> -128 <= Truncate(f * 128.0) < 128
    ensures Signed8(Convert(Float(f))) == Truncate(f * 128.0) <==> -129.0 < f * 128.0 < 128.0
    ensures 0.0 <= f * 128.0 < 128.0 ==>
              0.0 <= Signed8(Convert(Float(f))) as real <= f * 128.0 < Signed8(Convert(Float(f))) as real + 1.0
    ensures -129.0 < f * 128.0 <= 0.0 ==>
              Signed8(Convert(Float(f))) as real - 1.0 < f * 128.0 <= Signed8(Convert(Float(f))) as real <= 0.0
  {
    FitsByte(Truncate(f * 128.0));
    TruncateIs(f * 128.0);
  }

  /** Half of full scale is sent as 64, minus half as -64. */
  lemma HalfScale()
    ensures Convert(Float(0.5)) == 64 && Signed8(Convert(Float(-0.5))) == -64
  {
    TruncateIs(64.0);
    TruncateIs(-64.0);
    assert 0.5 * 128.0 == 64.0 && -0.5 * 128.0 == -64.0;
  }

  /** Division by 8 truncates too. */
  lemma EighthIs(x: int)
    ensures x >= 0 ==> 0 <= 8 * Eighth(x) <= x <= 8 * Eighth(x) + 7
    ensures x <= 0 ==> 8 * Eighth(x) - 7 <= x <= 8 * Eighth(x) <= 0
  {}

  /** A 16-bit word read as signed differs by a multiple of 2^16 and lies in the signed range. */
  lemma Signed16Is(w: int)
    ensures -32768 <= Signed16(w) < 32768 && (Signed16(w) - w) % 65536 == 0
  {}

  /** A signed 16-bit sample survives the division by 8 exactly when it is no louder than about 1024 of 32768:
      everything above wraps around. */
  lemma ShortFitsByte(w: int)
    requires -32768 <= w < 32768
    ensures Signed8(Convert(Short(w))) == Eighth(w) <==> -1031 <= w <= 1023
    ensures 0 <= w <= 1023 ==> 8 * Signed8(Convert(Short(w))) <= w <= 8 * Signed8(Convert(Short(w))) + 7
    ensures -1031 <= w <= 0 ==> 8 * Signed8(Convert(Short(w))) - 7 <= w <= 8 * Signed8(Convert(Short(w)))
  {
    ShortIs(w);
    FitsByte(Eighth(w));
    EighthIs(w);
    EighthInByte(w);
  }

  lemma ShortIs(w: int)
    requires -32768 <= w < 32768
    ensures Convert(Short(w)) == Eighth(w) % 256
  {
    assert Signed16(w) == w;
  }

  lemma EighthInByte(w: int)
    ensures -128 <= Eighth(w) < 128 <==> -1031 <= w <= 1023
  {}

  /** The first samples that do not survive: full scale comes out as -1, and 1024 as the lowest byte. */
  lemma ShortWraps()
    ensures Signed8(Convert(Short(1024))) == -128 && Signed8(Convert(Short(32767))) == -1
  {}

  // ---- positions ----

  /** k places after position i of a ring of n. */
  function Plus(i: int, k: int, n: int): int {
    if i + k < n then i + k else i + k - n
  }

  lemma PlusIsModulo(i: nat, k: nat, n: nat)
    requires i < n && k <= n
    ensures Plus(i, k, n) == (i + k) % n
  {
    if i + k < n {
      SmallModulo(i + k, n);
    } else {
      SmallModulo(i + k - n, n);
      OneTurn(i + k - n, n);
    }
  }

  lemma SmallModulo(x: nat, n: nat)
    requires x < n
    ensures x % n == x
  {}

  lemma OneTurn(x: nat, n: nat)
    requires x < n
    ensures (x + n) % n == x
  {
    ghost var q, r := (x + n) / n, (x + n) % n;
    assert q * n + r == x + n;
    if q < 1 { Product(q, 0, n); }
    if q > 1 { Product(2, q, n); }
  }

  lemma Product(a: int, b: int, n: nat)
    requires a <= b
    ensures a * n <= b * n
  {}

  // ---- the shared ring ----

  /** The filled buffers: k of them from the tail on. */
  function Queue(buffs: seq<Buffer>, tail: nat, k: nat): (r: seq<Buffer>)
    requires tail < |buffs|
    ensures |r| == k
    decreases k
  {
    if k == 0 then [] else [buffs[tail]] + Queue(buffs, Plus(tail, 1, |buffs|), k - 1)
  }

  lemma {:induction false} QueueSnoc(buffs: seq<Buffer>, tail: nat, k: nat)
    requires tail < |buffs| && k < |buffs|
    ensures 0 <= Plus(tail, k, |buffs|) < |buffs|
    ensures Queue(buffs, tail, k + 1) == Queue(buffs, tail, k) + [buffs[Plus(tail, k, |buffs|)]]
    decreases k
  {
    if k > 0 {
      QueueSnoc(buffs, Plus(tail, 1, |buffs|), k - 1);
    }
  }

  /** Writing to a place at or behind the end of the queue leaves the queue alone. */
  lemma {:induction false} QueueUntouched(buffs: seq<Buffer>, tail: nat, k: nat, m: nat, b: Buffer)
    requires tail < |buffs| && k <= m < |buffs|
    ensures 0 <= Plus(tail, m, |buffs|) < |buffs|
    ensures Queue(buffs[Plus(tail, m, |buffs|) := b], tail, k) == Queue(buffs, tail, k)
    decreases k
  {
    if k > 0 {
      QueueUntouched(buffs, Plus(tail, 1, |buffs|), k - 1, m - 1, b);
    }
  }

  /** The law of the ring: the head is ahead of the tail by the filled buffers and the one the writer holds. */
  predicate RingLaw(n: nat, head: nat, tail: nat, count: int, held: bool) {
    && tail < n && (if held then 1 else 0) <= count <= n
    && head == Plus(tail, n - count + if held then 1 else 0, n)
  }

  /** The held buffer is the one behind the queue. */
  predicate HolderLaw(n: nat, handle: nat, tail: nat, count: int, held: bool) {
    handle < n && (held ==> handle == Plus(tail, n - count, n))
  }

  /** The buffer that tx_callback may take is never the one the writer holds. */
  lemma NeverTheHeld(n: nat, head: nat, tail: nat, count: int, handle: nat)
    requires RingLaw(n, head, tail, count, true) && HolderLaw(n, handle, tail, count, true) && count < n
    ensures handle != tail
  {}

  /** The head is one buffer further ahead of the tail than the law says. */
  predicate Astray(n: nat, head: nat, tail: nat, count: int, held: bool) {
    tail < n && RingLaw(n, head, Plus(tail, 1, n), count, held)
  }

  /** Forgetting a held buffer, as activateStream does by zeroing bufferedElems, leaves the ring astray, and the
      drain that the activation asks for does not repair that. */
  lemma Forgetting(n: nat, head: nat, tail: nat, count: int)
    requires RingLaw(n, head, tail, count, true)
    ensures Astray(n, head, tail, count, false)
    ensures Astray(n, (head + count) % n, tail, n, false)
    ensures (head + count) % n == Plus(tail, 1, n)
  {
    PlusIsModulo(head, count, n);
  }

  /** A ring can be both astray and lawful only if it has a single buffer. */
  lemma AstrayIsUnlawful(n: nat, head: nat, tail: nat, count: int, held: bool)
    requires Astray(n, head, tail, count, held)
    ensures RingLaw(n, head, tail, count, held) <==> n == 1
  {}

  /** No step of the callback or the writer brings an astray ring back, further drains included. */
  lemma AstrayForEver(n: nat, head: nat, tail: nat, count: int, held: bool)
    requires Astray(n, head, tail, count, held)
    ensures count < n ==> Astray(n, head, (tail + 1) % n, count + 1, held)
    ensures held ==> Astray(n, head, tail, count - 1, false)
    ensures !held && count > 0 ==> Astray(n, (head + 1) % n, tail, count, true)
    ensures !held ==> Astray(n, (head + count) % n, tail, n, false)
  {
    PlusIsModulo(tail, 1, n);
    PlusIsModulo(head, 1, n);
    PlusIsModulo(head, count, n);
  }

  /** After the drain the writer acquires, fills and releases the buffer at the head; the callback that is now
      allowed to take a buffer takes the one at the tail, which is another unless the ring has only one. */
  lemma AstrayMissesTheBuffer(n: nat, head: nat, tail: nat, count: int)
    requires RingLaw(n, head, tail, count, true)
    ensures var drained := (head + count) % n;
      && Astray(n, (drained + 1) % n, tail, n, true) && Astray(n, (drained + 1) % n, tail, n - 1, false)
      && (drained == tail <==> n == 1)
  {
    Forgetting(n, head, tail, count);
    PlusIsModulo(Plus(tail, 1, n), 1, n);
  }

  /** Two buffers: buffer 0 is held, activation drains to head 1, buffer 1 is filled, and buffer 0 is sent. */
  lemma AstrayPair()
    ensures RingLaw(2, 1, 0, 2, true) && (1 + 2) % 2 == 1 && !RingLaw(2, 1, 0, 2, false)
    ensures Astray(2, (1 + 1) % 2, 0, 1, false)
  {}

  /** The ring and its history: the buffers completed are those sent and those still queued. */
  ghost predicate History(buffs: seq<Buffer>, head: nat, tail: nat, count: int, held: bool, handle: nat,
                          sent: seq<Buffer>, completed: seq<Buffer>) {
    RingLaw(|buffs|, head, tail, count, held) && HolderLaw(|buffs|, handle, tail, count, held)
    && completed == sent + Queue(buffs, tail, |buffs| - count)
  }

  lemma TakeStep(buffs: seq<Buffer>, head: nat, tail: nat, count: int, held: bool, handle: nat,
                 sent: seq<Buffer>, completed: seq<Buffer>)
    requires History(buffs, head, tail, count, held, handle, sent, completed) && count < |buffs|
    ensures (tail + 1) % |buffs| < |buffs|
    ensures History(buffs, head, (tail + 1) % |buffs|, count + 1, held, handle, sent + [buffs[tail]], completed)
  {
    PlusIsModulo(tail, 1, |buffs|);
  }

  lemma ReleaseStep(buffs: seq<Buffer>, head: nat, tail: nat, count: int, handle: nat,
                    sent: seq<Buffer>, completed: seq<Buffer>)
    requires History(buffs, head, tail, count, true, handle, sent, completed)
    ensures History(buffs, head, tail, count - 1, false, handle, sent, completed + [buffs[handle]])
  {
    QueueSnoc(buffs, tail, |buffs| - count);
  }

  lemma DrainStep(buffs: seq<Buffer>, head: nat, tail: nat, count: int, handle: nat,
                  sent: seq<Buffer>, completed: seq<Buffer>)
    requires History(buffs, head, tail, count, false, handle, sent, completed)
    ensures (head + count) % |buffs| == tail
    ensures History(buffs, tail, tail, |buffs|, false, handle, sent, sent)
  {
    PlusIsModulo(head, count, |buffs|);
  }

  lemma HoldStep(buffs: seq<Buffer>, head: nat, tail: nat, count: int, handle: nat,
                 sent: seq<Buffer>, completed: seq<Buffer>)
    requires History(buffs, head, tail, count, false, handle, sent, completed) && count > 0
    ensures 0 <= (head + 1) % |buffs|
    ensures History(buffs, (head + 1) % |buffs|, tail, count, true, head, sent, completed)
  {
    PlusIsModulo(head, 1, |buffs|);
  }

  /** Writing into the held buffer changes nothing that is queued. */
  lemma WriteStep(buffs: seq<Buffer>, head: nat, tail: nat, count: int, handle: nat,
                  sent: seq<Buffer>, completed: seq<Buffer>, b: Buffer)
    requires History(buffs, head, tail, count, true, handle, sent, completed)
    ensures History(buffs[handle := b], head, tail, count, true, handle, sent, completed)
  {
    QueueUntouched(buffs, tail, |buffs| - count, |buffs| - count, b);
  }

  predicate Shaped(b: Buffer, size: nat) {
    |b| == 3 && |b[0]| == size && |b[1]| == size && |b[2]| == size
  }

  predicate AllShaped(buffs: seq<Buffer>, size: nat) {
    forall i :: 0 <= i < |buffs| ==> Shaped(buffs[i], size)
  }

  // ---- what the writer has written ----

  /** Channel c of all these buffers, end to end. */
  function Joined(whole: seq<Buffer>, c: nat, size: nat): (r: seq<int>)
    requires c < 3 && AllShaped(whole, size)
    ensures |r| == |whole| * size
  {
    if whole == [] then [] else Joined(whole[..|whole| - 1], c, size) + whole[|whole| - 1][c]
  }

  lemma JoinedSnoc(whole: seq<Buffer>, b: Buffer, c: nat, size: nat)
    requires c < 3 && AllShaped(whole, size) && Shaped(b, size)
    ensures AllShaped(whole + [b], size) && Joined(whole + [b], c, size) == Joined(whole, c, size) + b[c]
  {
    assert (whole + [b])[..|whole|] == whole;
  }

  /** Everything kept of a channel is the full buffers followed by the filled part of the current one. */
  predicate Account(kept: seq<int>, whole: seq<Buffer>, row: seq<int>, filled: nat, c: nat, size: nat) {
    c < 3 && AllShaped(whole, size) && filled <= size == |row| && kept == Joined(whole, c, size) + row[..filled]
  }

  /** Every full buffer holds exactly its `size` consecutive converted elements. */
  lemma {:induction false} FullBufferIsWindow(kept: seq<int>, whole: seq<Buffer>, row: seq<int>, filled: nat,
                                              c: nat, size: nat, j: nat)
    requires Account(kept, whole, row, filled, c, size) && j < |whole|
    ensures 0 <= j * size <= j * size + size <= |kept| && whole[j][c] == kept[j * size..j * size + size]
    decreases |whole|
  {
    var n := |whole| - 1;
    var before := Joined(whole[..n], c, size);
    assert |whole| * size == n * size + size;
    if j < n {
      FullBufferIsWindow(before, whole[..n], row, 0, c, size, j);
    }
  }

  ghost predicate Accounts(kept: seq<seq<int>>, whole: seq<Buffer>, current: Buffer, filled: nat,
                           channels: seq<nat>, size: nat) {
    |kept| == 3 && AllShaped(whole, size) && Shaped(current, size)
    && forall c :: c in channels ==> c < 3 && Account(kept[c], whole, current[c], filled, c, size)
  }

  /** Releasing a full buffer moves it from the current to the full ones. */
  lemma AccountsFull(kept: seq<seq<int>>, whole: seq<Buffer>, current: Buffer, channels: seq<nat>, size: nat)
    requires Accounts(kept, whole, current, size, channels, size)
    ensures Accounts(kept, whole + [current], current, 0, channels, size)
  {
    forall c | c in channels
      ensures c < 3 && Account(kept[c], whole + [current], current[c], 0, c, size)
    {
      JoinedSnoc(whole, current, c, size);
      assert current[c][..size] == current[c];
    }
  }

  /** With nothing filled, any buffer can become the current one. */
  lemma AccountsMoved(kept: seq<seq<int>>, whole: seq<Buffer>, current: Buffer, next: Buffer,
                      channels: seq<nat>, size: nat)
    requires Accounts(kept, whole, current, 0, channels, size) && Shaped(next, size)
    ensures Accounts(kept, whole, next, 0, channels, size)
  {
    forall c | c in channels
      ensures c < 3 && Account(kept[c], whole, next[c], 0, c, size)
    {
      assert Account(kept[c], whole, current[c], 0, c, size);
    }
  }

  /** The accounts once a reset has dropped the unfinished buffer. */
  function Dropped(kept: seq<seq<int>>, whole: seq<Buffer>, channels: seq<nat>, size: nat): (r: seq<seq<int>>)
    requires |kept| == 3 && AllShaped(whole, size)
    ensures |r| == 3
  {
    seq(3, c requires 0 <= c < 3 => if c in channels then Joined(whole, c, size) else kept[c])
  }

  function Kept(kept: seq<seq<int>>, whole: seq<Buffer>, channels: seq<nat>, size: nat, dropping: bool)
    : (r: seq<seq<int>>)
    requires |kept| == 3 && AllShaped(whole, size)
    ensures |r| == 3
  {
    if dropping then Dropped(kept, whole, channels, size) else kept
  }

  lemma AccountsDropped(kept: seq<seq<int>>, whole: seq<Buffer>, current: Buffer, filled: nat,
                        channels: seq<nat>, size: nat)
    requires Accounts(kept, whole, current, filled, channels, size)
    ensures Accounts(Dropped(kept, whole, channels, size), whole, current, 0, channels, size)
  {
    forall c | c in channels
      ensures c < 3 && Account(Dropped(kept, whole, channels, size)[c], whole, current[c], 0, c, size)
    {
      assert Account(kept[c], whole, current[c], filled, c, size);
    }
  }

  /** The accounts after k more elements of each enabled channel. */
  function Extended(format: Format, kept: seq<seq<int>>, channels: seq<nat>, input: seq<seq<Element>>, k: nat)
    : (r: seq<seq<int>>)
    requires |kept| == 3 && Offers(format, channels, input, k)
    ensures |r| == 3
  {
    seq(3, c requires 0 <= c < 3 =>
      if c in channels && Copies(format) then kept[c] + ConvertAll(input[c][..k]) else kept[c])
  }

  /** What is left of the caller's buffers after k elements. */
  function Rest(input: seq<seq<Element>>, k: nat): (r: seq<seq<Element>>)
    ensures |r| == |input|
  {
    seq(|input|, c requires 0 <= c < |input| => if k <= |input[c]| then input[c][k..] else [])
  }

  lemma RestOffers(format: Format, channels: seq<nat>, input: seq<seq<Element>>, k: nat, m: nat)
    requires Offers(format, channels, input, k + m)
    ensures Offers(format, channels, input, k) && Offers(format, channels, Rest(input, k), m)
  {
    forall c | c in channels
      ensures OfFormat(format, Rest(input, k)[c])
    {
      assert forall e :: e in input[c][k..] ==> e in input[c];
    }
  }

  lemma ConvertSplits(source: seq<Element>, k: nat, m: nat)
    requires k + m <= |source|
    ensures ConvertAll(source[..k + m]) == ConvertAll(source[..k]) + ConvertAll(source[k..][..m])
  {
    assert source[..k + m] == source[..k] + source[k..][..m];
  }

  /** Splitting a write makes no difference to what is kept. */
  lemma FragmentsConserve(format: Format, kept: seq<seq<int>>, channels: seq<nat>, input: seq<seq<Element>>,
                          k: nat, m: nat)
    requires |kept| == 3 && Offers(format, channels, input, k + m)
    ensures Offers(format, channels, input, k) && Offers(format, channels, Rest(input, k), m)
    ensures Extended(format, Extended(format, kept, channels, input, k), channels, Rest(input, k), m)
         == Extended(format, kept, channels, input, k + m)
  {
    RestOffers(format, channels, input, k, m);
    var all := Extended(format, kept, channels, input, k + m);
    var twice := Extended(format, Extended(format, kept, channels, input, k), channels, Rest(input, k), m);
    forall c: nat | c < 3
      ensures twice[c] == all[c]
    {
      SplitChannel(format, kept, channels, input, k, m, c);
    }
    SameThree(twice, all);
  }

  lemma SameThree(a: seq<seq<int>>, b: seq<seq<int>>)
    requires |a| == 3 == |b| && forall c: nat :: c < 3 ==> a[c] == b[c]
    ensures a == b
  {}

  lemma SplitChannel(format: Format, kept: seq<seq<int>>, channels: seq<nat>, input: seq<seq<Element>>, k: nat, m: nat,
                     c: nat)
    requires |kept| == 3 && c < 3 && Offers(format, channels, input, k + m)
    requires Offers(format, channels, input, k) && Offers(format, channels, Rest(input, k), m)
    ensures Extended(format, Extended(format, kept, channels, input, k), channels, Rest(input, k), m)[c]
         == Extended(format, kept, channels, input, k + m)[c]
  {
    var once := Extended(format, kept, channels, input, k);
    ExtendedAt(format, kept, channels, input, k, c);
    ExtendedAt(format, once, channels, Rest(input, k), m, c);
    ExtendedAt(format, kept, channels, input, k + m, c);
    if c in channels && Copies(format) {
      ConvertSplits(input[c], k, m);
      assert Rest(input, k)[c] == input[c][k..];
      Associates(kept[c], ConvertAll(input[c][..k]), ConvertAll(input[c][k..][..m]));
    }
  }

  lemma Associates(a: seq<int>, b: seq<int>, c: seq<int>)
    ensures a + b + c == a + (b + c)
  {}

  lemma ExtendedAt(format: Format, kept: seq<seq<int>>, channels: seq<nat>, input: seq<seq<Element>>, k: nat, c: nat)
    requires |kept| == 3 && c < 3 && Offers(format, channels, input, k)
    ensures Extended(format, kept, channels, input, k)[c]
         == if c in channels && Copies(format) then kept[c] + ConvertAll(input[c][..k]) else kept[c]
  {}

  /** The caller's buffers have k elements of the right format for every enabled channel. */
  predicate Offers(format: Format, channels: seq<nat>, input: seq<seq<Element>>, k: nat) {
    forall c :: c in channels ==> (c < 3 && c < |input| && k <= |input[c]| && OfFormat(format, input[c]))
  }

  /** `after` is `before` with k converted elements of each enabled channel written at `off`. */
  ghost predicate Rows(format: Format, before: Buffer, after: Buffer, channels: seq<nat>, input: seq<seq<Element>>,
                       off: nat, k: nat, size: nat) {
    && Offers(format, channels, input, k) && Shaped(before, size) && Shaped(after, size) && off + k <= size
    && RowIs(format, before, after, channels, input, off, k, 0)
    && RowIs(format, before, after, channels, input, off, k, 1)
    && RowIs(format, before, after, channels, input, off, k, 2)
  }

  ghost predicate RowIs(format: Format, before: Buffer, after: Buffer, channels: seq<nat>, input: seq<seq<Element>>,
                        off: nat, k: nat, c: nat)
    requires c < |before| && c < |after| && off + k <= |before[c]| && Offers(format, channels, input, k)
  {
    after[c] == if c in channels then RowAfter(format, before[c], input[c], off, k) else before[c]
  }

  /** A channel's row after writing the first k elements of `source` at `off`; the 8-bit formats copy nothing. */
  function RowAfter(format: Format, row: seq<int>, source: seq<Element>, off: nat, k: nat): (r: seq<int>)
    requires off + k <= |row| && k <= |source|
    ensures |r| == |row|
  {
    if Copies(format) then Spliced(row, off, ConvertAll(source[..k])) else row
  }

  lemma AccountWritten(kept: seq<int>, whole: seq<Buffer>, row: seq<int>, off: nat, bytes: seq<int>, c: nat, size: nat)
    requires Account(kept, whole, row, off, c, size) && off + |bytes| <= size
    ensures Account(kept + bytes, whole, Spliced(row, off, bytes), off + |bytes|, c, size)
  {
    assert Spliced(row, off, bytes)[..off + |bytes|] == row[..off] + bytes;
  }

  lemma AccountsWritten(format: Format, kept: seq<seq<int>>, whole: seq<Buffer>, before: Buffer, after: Buffer,
                        channels: seq<nat>, input: seq<seq<Element>>, off: nat, k: nat, size: nat)
    requires Accounts(kept, whole, before, off, channels, size) && Copies(format)
    requires Rows(format, before, after, channels, input, off, k, size)
    ensures Accounts(Extended(format, kept, channels, input, k), whole, after, off + k, channels, size)
  {
    forall c | c in channels
      ensures c < 3 && Account(Extended(format, kept, channels, input, k)[c], whole, after[c], off + k, c, size)
    {
      AccountWritten(kept[c], whole, before[c], off, ConvertAll(input[c][..k]), c, size);
    }
  }

  function Spliced(row: seq<int>, off: nat, bytes: seq<int>): (r: seq<int>)
    requires off + |bytes| <= |row|
    ensures |r| == |row|
  {
    row[..off] + bytes + row[off + |bytes|..]
  }

  /** The byte loops of writeStreamForChannel. */
  method ConvertInto(format: Format, source: seq<Element>, row: seq<int>, off: nat, n: nat) returns (r: seq<int>)
    requires off + n <= |row| && n <= |source| && OfFormat(format, source)
    ensures r == RowAfter(format, row, source, off, n)
  {
    r := row;
    if Copies(format) {
      for i := 0 to n
        invariant |r| == |row| && r == Spliced(row, off, ConvertAll(source[..i]))
      {
        var byte: int;
        match source[i] {
          case Float(f) => byte := Truncate(f * 128.0) % 256;
          case Short(w) => byte := Eighth(Signed16(w)) % 256;
        }
        SplicedNext(row, off, source, i);
        r := r[off + i := byte];
      }
    }
  }

  lemma SplicedNext(row: seq<int>, off: nat, source: seq<Element>, i: nat)
    requires off + i < |row| && i < |source|
    ensures Spliced(row, off, ConvertAll(source[..i]))[off + i := Convert(source[i])]
         == Spliced(row, off, ConvertAll(source[..i + 1]))
  {
    assert ConvertAll(source[..i + 1]) == ConvertAll(source[..i]) + [Convert(source[i])];
  }

  predicate IsAt(offsets: seq<nat>, channels: seq<nat>, off: nat) {
    |offsets| == 3 && forall c :: c in channels ==> c < 3 && offsets[c] == off
  }

  predicate Distinct(channels: seq<nat>) {
    forall i, j :: 0 <= i < j < |channels| ==> channels[i] != channels[j]
  }

  /** A channel list that setupStream accepts, naming no channel twice. */
  predicate Enabled(channels: seq<nat>) {
    Distinct(channels) && forall c :: c in channels ==> c < 3
  }

  lemma SplitAt(channels: seq<nat>, i: nat)
    requires i < |channels| && Distinct(channels)
    ensures channels[i] in channels && channels[i] !in channels[..i] && channels[i] !in channels[i + 1..]
    ensures channels[..i + 1] == channels[..i] + [channels[i]] && channels[i..] == [channels[i]] + channels[i + 1..]
  {}

  /** Moving the write pointer of the next enabled channel. */
  lemma IsAtAdvance(offsets: seq<nat>, done: seq<nat>, c: nat, rest: seq<nat>, off: nat, k: nat)
    requires c !in done && c !in rest && IsAt(offsets, done, off + k) && IsAt(offsets, [c] + rest, off)
    ensures c < 3 && offsets[c] == off
    ensures IsAt(offsets[c := off + k], done + [c], off + k) && IsAt(offsets[c := off + k], rest, off)
  {
    assert c in [c] + rest;
    forall d | d in rest
      ensures d < 3 && offsets[d] == off
    {
      assert d in [c] + rest;
    }
  }

  lemma RowsAdvance(format: Format, before: Buffer, after: Buffer, done: seq<nat>, input: seq<seq<Element>>,
                    off: nat, k: nat, size: nat, c: nat)
    requires Rows(format, before, after, done, input, off, k, size) && c !in done && Offers(format, [c], input, k)
    ensures c in [c]
    ensures Rows(format, before, after[c := RowAfter(format, after[c], input[c], off, k)], done + [c], input,
                 off, k, size)
  {
    assert c in [c];
    OffersBoth(format, done, [c], input, k);
    var after' := after[c := RowAfter(format, after[c], input[c], off, k)];
    assert after[c] == before[c];
    RowKept(format, before, after, after', done, input, off, k, c, 0);
    RowKept(format, before, after, after', done, input, off, k, c, 1);
    RowKept(format, before, after, after', done, input, off, k, c, 2);
  }

  /** Writing row c leaves the others as they are. */
  lemma RowKept(format: Format, before: Buffer, after: Buffer, after': Buffer, done: seq<nat>, input: seq<seq<Element>>,
                off: nat, k: nat, c: nat, d: nat)
    requires c < |before| == |after| && d < |before| && off + k <= |before[c]| && off + k <= |before[d]|
    requires Offers(format, done, input, k) && Offers(format, done + [c], input, k) && c in done + [c]
    requires after' == after[c := RowAfter(format, before[c], input[c], off, k)]
    requires RowIs(format, before, after, done, input, off, k, d)
    ensures RowIs(format, before, after', done + [c], input, off, k, d)
  {
    assert d in done + [c] <==> d in done || d == c;
  }

  lemma OffersBoth(format: Format, a: seq<nat>, b: seq<nat>, input: seq<seq<Element>>, k: nat)
    requires Offers(format, a, input, k) && Offers(format, b, input, k)
    ensures Offers(format, a + b, input, k)
  {
    forall d | d in a + b
      ensures d < 3 && d < |input| && k <= |input[d]| && OfFormat(format, input[d])
    {
      assert d in a || d in b;
    }
  }

  /** A buffer's rows for the enabled channels, nothing for the others. */
  function Given(buff: Buffer, channels: seq<nat>): seq<Option<seq<int>>>
    requires |buff| == 3
  {
    seq(3, c requires 0 <= c < 3 => if c in channels then Some(buff[c]) else None)
  }

  /** k elements were taken: those there is room for, appended to what is kept; the buffer counts as full
      when they fill it. */
  ghost predicate Wrote(format: Format, channels: seq<nat>, input: seq<seq<Element>>, numElems: nat, room: nat,
                        before: seq<seq<int>>, after: seq<seq<int>>, left: nat, released: int, k: nat)
    requires |before| == 3 && Offers(format, channels, input, numElems)
  {
    k == (if room < numElems then room else numElems) && left == room - k
    && after == Extended(format, before, channels, input, k)
    && released == if left == 0 then 1 else 0
  }

  // ---- the driver object ----

  class Ring {
    const n: nat                   // buffers in the ring
    const size: nat                // bytes per channel of a buffer
    const format: Format
    const channels: seq<nat>
    var buffs: seq<Buffer>
    var head: nat
    var tail: nat
    var count: int
    var underflowEvent: bool
    var resetBuffer: bool
    var currentHandle: nat
    var bufferedElems: nat
    var offsets: seq<nat>          // how far each channel's write pointer is into the current buffer
    ghost var held: bool           // the writer holds a buffer
    ghost var filled: nat          // bytes of it that count as written
    ghost var completed: seq<Buffer> // buffers released and not drained, in order
    ghost var sent: seq<Buffer>    // buffers handed to the USB library, in order
    ghost var whole: seq<Buffer>   // buffers released full, in order
    ghost var kept: seq<seq<int>>  // per channel, the bytes written and not dropped by a reset

    /** setupStream. */
    constructor (buffs: seq<Buffer>, size: nat, format: Format, channels: seq<nat>)
      requires buffs != [] && size > 0 && AllShaped(buffs, size)
      requires Enabled(channels)
      ensures Valid() && Idle() && !held && sent == completed == whole == [] && kept == [[], [], []]
      ensures bufferedElems == 0 && Now() == Shared(0, false, false)
      ensures this.n == |buffs| && this.size == size && this.format == format && this.channels == channels
    {
      this.n, this.size, this.format, this.channels := |buffs|, size, format, channels;
      this.buffs, head, tail, count := buffs, 0, 0, |buffs|;
      underflowEvent, resetBuffer, currentHandle, bufferedElems, offsets := false, false, 0, 0, [0, 0, 0];
      held, filled, completed, sent, whole, kept := false, 0, [], [], [], [[], [], []];
    }

    ghost predicate Valid()
      reads this
    {
      && 0 < n == |buffs| && 0 < size && AllShaped(buffs, size) && |offsets| == 3 == |kept|
      && Enabled(channels)
      && History(buffs, head, tail, count, held, currentHandle, sent, completed)
      && (!held ==> filled == 0 == bufferedElems) && AllShaped(whole, size)
      && (Copies(format) ==> Accounts(kept, whole, buffs[currentHandle], filled, channels, size))
    }

    ghost function Now(): Shared
      reads this`count, this`underflowEvent, this`resetBuffer
    {
      Shared(n - count, underflowEvent, resetBuffer)
    }

    /** Between two calls of writeStream. */
    ghost predicate Idle()
      reads this
    {
      held ==> (bufferedElems > 0 && filled + bufferedElems == size && IsAt(offsets, channels, filled))
    }

    /** The pointers tx_callback stores for the enabled channels. */
    method Give(buff: Buffer) returns (given: seq<Option<seq<int>>>)
      requires |buff| == 3 && Enabled(channels)
      ensures given == Given(buff, channels)
    {
      given := [None, None, None];
      for i := 0 to |channels|
        invariant |given| == 3 && given == Given(buff, channels[..i])
      {
        assert channels[i] in channels;
        given := given[channels[i] := Some(buff[channels[i]])];
      }
      assert channels[..|channels|] == channels;
    }

    /** tx_callback: hand the USB library the buffer at the tail, or note an underflow. */
    method TxCallback(underflow: bool) returns (given: seq<Option<seq<int>>>)
      requires Valid()
      modifies this`tail, this`count, this`underflowEvent, this`sent
      ensures Valid() && count >= old(count)
      ensures (underflow || old(count) == n) ==>
              (underflowEvent && tail == old(tail) && count == old(count) && sent == old(sent)
               && given == [None, None, None])
      ensures (!underflow && old(count) < n) ==>
              (underflowEvent == old(underflowEvent) && tail == (old(tail) + 1) % n && count == old(count) + 1
               && sent == old(sent) + [buffs[old(tail)]] && given == Given(buffs[old(tail)], channels)
               && (held ==> old(tail) != currentHandle))
    {
      given := [None, None, None];
      if underflow || count >= n {
        underflowEvent := true;
        return;
      }
      given := Give(buffs[tail]);
      Take();
    }

    /** The buffer at the tail goes to the USB library. */
    method Take()
      requires Valid() && count < n
      modifies this`tail, this`count, this`sent
      ensures Valid() && tail == (old(tail) + 1) % n && count == old(count) + 1
      ensures sent == old(sent) + [buffs[old(tail)]]
      ensures held ==> old(tail) != currentHandle
    {
      if held {
        NeverTheHeld(n, head, tail, count, currentHandle);
      }
      TakeStep(buffs, head, tail, count, held, currentHandle, sent, completed);
      sent := sent + [buffs[tail]];
      tail := (tail + 1) % n;
      count := count + 1;
    }

    /** What the other threads do before the writer's next step. */
    method Interfere(events: seq<Event>)
      requires Valid()
      modifies this`tail, this`count, this`underflowEvent, this`resetBuffer, this`sent
      ensures Valid() && count >= old(count) && old(sent) <= sent
      ensures Now() == AllHappened(old(Now()), events)
    {
      for i := 0 to |events|
        invariant Valid() && count >= old(count) && old(sent) <= sent
        invariant Now() == AllHappened(old(Now()), events[..i])
      {
        HappenedNext(old(Now()), events, i);
        Happen(events[i]);
      }
      assert events[..|events|] == events;
    }

    method Happen(event: Event)
      requires Valid()
      modifies this`tail, this`count, this`underflowEvent, this`resetBuffer, this`sent
      ensures Valid() && count >= old(count) && old(sent) <= sent
      ensures Now() == Happened(old(Now()), event)
    {
      match event {
        case Callback(underflow) => var _ := TxCallback(underflow);
        case NewSampleRate => resetBuffer := true;
        case PollStatus => underflowEvent := false;
      }
    }

    /** The drain of acquireWriteBuffer: give up every filled buffer not yet taken. */
    method Drain()
      requires Valid() && !held
      modifies this`head, this`count, this`completed
      ensures Valid() && count == n && head == tail && completed == sent
    {
      DrainStep(buffs, head, tail, count, currentHandle, sent, completed);
      head := (head + count) % n;
      count := n;
      completed := sent;
    }

    /** releaseWriteBuffer; the buffer counts as full only when all of it was written. */
    method Release()
      requires Valid() && held && bufferedElems == 0 && (filled == size || filled == 0)
      modifies this`count, this`held, this`filled, this`completed, this`whole
      ensures Valid() && !held && count == old(count) - 1
      ensures completed == old(completed) + [buffs[currentHandle]]
      ensures whole == if old(filled) == size then old(whole) + [buffs[currentHandle]] else old(whole)
    {
      ReleaseStep(buffs, head, tail, count, currentHandle, sent, completed);
      completed := completed + [buffs[currentHandle]];
      if filled == size {
        if Copies(format) {
          AccountsFull(kept, whole, buffs[currentHandle], channels, size);
        }
        whole := whole + [buffs[currentHandle]];
      }
      count := count - 1;
      held, filled := false, 0;
    }

    /** Waiting for a free buffer while callbacks arrive; gives up when no more do. */
    method Wait(events: seq<Event>) returns (ok: bool)
      requires Valid()
      modifies this`tail, this`count, this`underflowEvent, this`resetBuffer, this`sent
      ensures Valid() && count >= old(count) && old(sent) <= sent
      ensures ok <==> count != 0
      ensures Now() == Waited(old(Now()), events, n)
    {
      var i := 0;
      while count == 0 && i < |events|
        invariant i <= |events| && Valid() && count >= old(count) && old(sent) <= sent
        invariant Waited(Now(), events[i..], n) == Waited(old(Now()), events, n)
      {
        assert events[i..][1..] == events[i + 1..];
        Happen(events[i]);
        i := i + 1;
      }
      ok := count != 0;
    }

    /** The end of acquireWriteBuffer: take the buffer at the head. */
    method Hold()
      requires Valid() && !held && count > 0
      modifies this`head, this`currentHandle, this`held, this`offsets
      ensures Valid() && held && currentHandle == old(head) && head == (old(head) + 1) % n
      ensures IsAt(offsets, channels, 0)
    {
      HoldStep(buffs, head, tail, count, currentHandle, sent, completed);
      if Copies(format) {
        AccountsMoved(kept, whole, buffs[currentHandle], buffs[head], channels, size);
      }
      currentHandle := head;
      head := (head + 1) % n;
      held := true;
      Rewind();
    }

    /** activateStream: a reset is requested, and a buffer that is only partly written is forgotten. The ring is lawful
        afterwards, and after the drain the reset leads to, exactly when there was none or the ring has one buffer. */
    method Activate()
      requires Valid() && Idle()
      modifies this`resetBuffer, this`bufferedElems, this`held, this`filled, this`kept
      ensures resetBuffer && bufferedElems == 0 && !held && (!old(held) ==> kept == old(kept))
      ensures Valid() <==> old(bufferedElems) == 0 || n == 1
      ensures RingLaw(n, (head + count) % n, tail, n, false) <==> old(bufferedElems) == 0 || n == 1
    {
      if held {
        Forgetting(n, head, tail, count);
        AstrayIsUnlawful(n, head, tail, count, false);
        AstrayIsUnlawful(n, (head + count) % n, tail, n, false);
        if Copies(format) {
          AccountsDropped(kept, whole, buffs[currentHandle], filled, channels, size);
        }
        kept := Dropped(kept, whole, channels, size);
      } else {
        DrainStep(buffs, head, tail, count, currentHandle, sent, completed);
      }
      resetBuffer := true;
      bufferedElems := 0;
      held, filled := false, 0;
    }

    /** Point every enabled channel at the start of the current buffer. */
    method Rewind()
      requires |offsets| == 3 && Enabled(channels)
      modifies this`offsets
      ensures IsAt(offsets, channels, 0)
    {
      for i := 0 to |channels|
        invariant IsAt(offsets, channels[..i], 0)
      {
        assert channels[i] in channels;
        assert channels[..i + 1] == channels[..i] + [channels[i]];
        offsets := offsets[channels[i] := 0];
      }
      assert channels[..|channels|] == channels;
    }

    /** acquireWriteBuffer. Without a reset the queue is only ever drained together with reporting an underflow. */
    method Acquire(i: Interference) returns (r: Acquired)
      requires Valid() && !held
      modifies this`head, this`tail, this`count, this`underflowEvent, this`resetBuffer, this`currentHandle,
               this`offsets, this`held, this`sent, this`completed
      ensures Valid() && old(sent) <= sent && held == r.Elements?
      ensures Turn(r, Now()) == Acquiring(old(Now()), i, n, size)
      ensures r.Elements? ==> IsAt(offsets, channels, 0)
      ensures r.Underflow? || old(resetBuffer) ==> completed == sent
      ensures !r.Underflow? && (!old(resetBuffer) || old(count) == n) ==> completed == old(completed)
    {
      ApplyReset(i.draining);
      Interfere(i.checking);
      r := TakeFree(i);
    }

    /** A pending reset drains the queue and forgets an underflow. */
    method ApplyReset(events: seq<Event>)
      requires Valid() && !held
      modifies this`head, this`tail, this`count, this`underflowEvent, this`resetBuffer, this`sent, this`completed
      ensures Valid() && old(sent) <= sent && (old(count) == n ==> count == n && completed == old(completed))
      ensures Now() == if old(resetBuffer) then Shared(0, false, false) else old(Now())
      ensures if old(resetBuffer) then completed == sent else completed == old(completed)
    {
      if resetBuffer {
        Drain();
        EmptyStays(Now(), events);
        Interfere(events);
        resetBuffer := false;
        underflowEvent := false;
      }
    }

    /** The rest of acquireWriteBuffer, from the check for an underflow on. */
    method TakeFree(i: Interference) returns (r: Acquired)
      requires Valid() && !held
      modifies this`head, this`tail, this`count, this`underflowEvent, this`resetBuffer, this`currentHandle,
               this`offsets, this`held, this`sent, this`completed
      ensures Valid() && old(sent) <= sent && held == r.Elements?
      ensures r.Elements? ==> (r.n == size && IsAt(offsets, channels, 0))
      ensures Turn(r, Now()) == Looking(old(Now()), i, n, size)
      ensures old(count) == n ==> sent == old(sent)
      ensures if r.Underflow? then completed == sent else completed == old(completed)
    {
      if underflowEvent {
        Drain();
        EmptyStays(Now(), i.draining);
        Interfere(i.draining);
        underflowEvent := false;
        r := Underflow;
        return;
      }
      var ok := Wait(i.waiting);
      if !ok {
        r := Timeout;
        return;
      }
      Hold();
      r := Elements(size);
    }

    /** The conversion loop of writeStream over the enabled channels. */
    method WriteChannels(input: seq<seq<Element>>, k: nat, ghost off: nat)
      requires currentHandle < |buffs| && Shaped(buffs[currentHandle], size) && off + k <= size
      requires Offers(format, channels, input, k) && IsAt(offsets, channels, off)
      requires Enabled(channels)
      modifies this`buffs, this`offsets
      ensures |buffs| == |old(buffs)| && buffs == old(buffs)[currentHandle := buffs[currentHandle]]
      ensures Rows(format, old(buffs)[currentHandle], buffs[currentHandle], channels, input, off, k, size)
      ensures IsAt(offsets, channels, off + k)
    {
      ghost var was := buffs;
      for i := 0 to |channels|
        invariant |buffs| == |was| && buffs == was[currentHandle := buffs[currentHandle]]
        invariant Rows(format, was[currentHandle], buffs[currentHandle], channels[..i], input, off, k, size)
        invariant IsAt(offsets, channels[..i], off + k) && IsAt(offsets, channels[i..], off)
      {
        SplitAt(channels, i);
        IsAtAdvance(offsets, channels[..i], channels[i], channels[i + 1..], off, k);
        WriteChannel(input, k, channels[i], was[currentHandle], channels[..i]);
      }
      assert channels[..|channels|] == channels;
    }

    /** One enabled channel: convert, and move its write pointer on. */
    method WriteChannel(input: seq<seq<Element>>, k: nat, c: nat, ghost before: Buffer, ghost done: seq<nat>)
      requires currentHandle < |buffs| && |offsets| == 3 && c < 3 && c !in done && Offers(format, [c], input, k)
      requires Rows(format, before, buffs[currentHandle], done, input, offsets[c], k, size)
      modifies this`buffs, this`offsets
      ensures offsets == old(offsets)[c := old(offsets[c]) + k]
      ensures |buffs| == |old(buffs)| && buffs == old(buffs)[currentHandle := buffs[currentHandle]]
      ensures Rows(format, before, buffs[currentHandle], done + [c], input, old(offsets[c]), k, size)
    {
      RowsAdvance(format, before, buffs[currentHandle], done, input, offsets[c], k, size, c);
      var row := ConvertInto(format, input[c], buffs[currentHandle][c], offsets[c], k);
      buffs := buffs[currentHandle := buffs[currentHandle][c := row]];
      offsets := offsets[c := offsets[c] + k];
    }

    /** The first half of writeStream: make sure the writer holds a buffer with room. */
    method Begin(i: Interference) returns (r: Acquired)
      requires Valid() && Idle()
      modifies this
      ensures Valid() && Idle() && old(sent) <= sent && held == r.Elements?
      ensures whole == old(whole) && buffs == old(buffs)
      ensures kept == Kept(old(kept), whole, channels, size, old(Dropping()))
      ensures Turn(r, Now()) == Beginning(old(bufferedElems), old(Now()), i, n, size)
      ensures r.Elements? ==> bufferedElems == r.n
      ensures r.Underflow? || old(resetBuffer) ==> completed == sent
      ensures !r.Underflow? && (old(Undrained()) && NewSampleRate !in i.entering) ==> completed == old(completed)
    {
      Enter(i.entering);
      r := Refill(i);
    }

    /** A pending reset drops an unfinished buffer; then other threads may come in between. */
    method Enter(events: seq<Event>)
      requires Valid() && Idle()
      modifies this`bufferedElems, this`count, this`held, this`filled, this`completed, this`whole, this`kept
      modifies this`tail, this`underflowEvent, this`resetBuffer, this`sent
      ensures Valid() && Idle() && old(sent) <= sent && whole == old(whole) && held == (old(held) && !old(resetBuffer))
      ensures kept == Kept(old(kept), whole, channels, size, old(Dropping()))
      ensures held ==> bufferedElems == old(bufferedElems)
      ensures Now() == AllHappened(if old(Dropping()) then old(Now()).(filled := old(Now()).filled + 1) else old(Now()),
                                   events)
      ensures resetBuffer == (old(resetBuffer) || NewSampleRate in events)
      ensures !old(Dropping()) ==> (completed == old(completed) && count >= old(count))
    {
      DropUnfinished();
      ResetStays(Now(), events);
      Interfere(events);
    }

    /** An unfinished buffer is released as it is when a reset is pending. */
    method DropUnfinished()
      requires Valid() && Idle()
      modifies this`bufferedElems, this`count, this`held, this`filled, this`completed, this`whole, this`kept
      ensures Valid() && Idle() && whole == old(whole) && held == (old(held) && !resetBuffer)
      ensures kept == Kept(old(kept), whole, channels, size, old(Dropping()))
      ensures held ==> (bufferedElems == old(bufferedElems) && filled == old(filled))
      ensures Now() == if old(Dropping()) then old(Now()).(filled := old(Now()).filled + 1) else old(Now())
      ensures !old(Dropping()) ==> completed == old(completed)
    {
      if resetBuffer && bufferedElems != 0 {
        Abandon();
      }
    }

    /** A new buffer is acquired when none is held. */
    method Refill(i: Interference) returns (r: Acquired)
      requires Valid() && Idle()
      modifies this`head, this`tail, this`count, this`underflowEvent, this`resetBuffer, this`currentHandle,
               this`offsets, this`held, this`sent, this`completed, this`bufferedElems
      ensures Valid() && Idle() && old(sent) <= sent && held == r.Elements?
      ensures Turn(r, Now()) == if old(held) then Turn(Elements(old(bufferedElems)), old(Now()))
                                else Acquiring(old(Now()), i, n, size)
      ensures r.Elements? ==> bufferedElems == r.n
      ensures r.Underflow? ==> completed == sent
      ensures !r.Underflow? && (!old(resetBuffer) || old(count) == n) ==> completed == old(completed)
      ensures old(resetBuffer) && !old(held) ==> completed == sent
    {
      r := Elements(bufferedElems);
      if bufferedElems == 0 {
        r := Acquire(i);
        if r.Elements? {
          bufferedElems := r.n;
        }
      }
    }

    /** A reset is pending while a buffer is unfinished. */
    ghost predicate Dropping()
      reads this
    {
      resetBuffer && held
    }

    /** No reset is pending, or there is nothing it could drop or drain. */
    ghost predicate Undrained()
      reads this
    {
      !resetBuffer || (!held && count == n)
    }

    /** writeStream: as many elements as the current buffer has room for are converted and kept; a buffer is
        released exactly when it is full. */
    method WriteStream(input: seq<seq<Element>>, numElems: nat, i: Interference) returns (r: Acquired)
      requires Valid() && Idle() && Offers(format, channels, input, numElems)
      modifies this
      ensures Valid() && Idle() && old(sent) <= sent && old(whole) <= whole
      ensures (r, bufferedElems, Now()) == Writing(old(bufferedElems), old(Now()), numElems, i, n, size)
      ensures r.Elements? ==>
                Wrote(format, channels, input, numElems, if old(Dropping() || !held) then size else old(bufferedElems),
                      Kept(old(kept), old(whole), channels, size, old(Dropping())), kept,
                      bufferedElems, |whole| - |old(whole)|, r.n)
      ensures !r.Elements? ==>
                (!held && whole == old(whole) && kept == Kept(old(kept), whole, channels, size, old(Dropping())))
      ensures r.Underflow? ==> completed == sent
      ensures !r.Underflow? && (old(Undrained()) && NewSampleRate !in i.entering) ==>
                completed == old(completed) + whole[|old(whole)|..]
    {
      r := Begin(i);
      if r.Elements? {
        var k := Fill(input, numElems, i);
        r := Elements(k);
      }
    }

    /** The second half of writeStream: convert what fits, and release the buffer if that fills it. */
    method Fill(input: seq<seq<Element>>, numElems: nat, i: Interference) returns (k: nat)
      requires Valid() && Idle() && held && Offers(format, channels, input, numElems)
      modifies this`buffs, this`offsets, this`bufferedElems, this`kept, this`filled, this`tail, this`count
      modifies this`underflowEvent, this`resetBuffer, this`sent, this`held, this`completed, this`whole
      ensures Valid() && Idle() && old(sent) <= sent && old(whole) <= whole
      ensures Wrote(format, channels, input, numElems, old(bufferedElems), old(kept), kept,
                    bufferedElems, |whole| - |old(whole)|, k)
      ensures completed == old(completed) + whole[|old(whole)|..]
      ensures (Elements(k), bufferedElems, Now())
           == Filling(Turn(Elements(old(bufferedElems)), old(Now())), numElems, i)
    {
      k := if bufferedElems < numElems then bufferedElems else numElems;
      Put(input, k);
      Finish(i.writing);
    }

    /** What is left of writeStream once the elements are in the buffer. */
    method Finish(events: seq<Event>)
      requires Valid() && held && filled + bufferedElems == size && IsAt(offsets, channels, filled)
      modifies this`tail, this`count, this`underflowEvent, this`resetBuffer, this`sent
      modifies this`held, this`filled, this`completed, this`whole
      ensures Valid() && Idle() && old(sent) <= sent
      ensures whole == old(whole) + (if bufferedElems > 0 then [] else [buffs[currentHandle]])
      ensures completed == old(completed) + (if bufferedElems > 0 then [] else [buffs[currentHandle]])
      ensures var after := AllHappened(old(Now()), events);
        Now() == if bufferedElems == 0 then after.(filled := after.filled + 1) else after
    {
      Interfere(events);
      ReleaseIfFull();
    }

    method ReleaseIfFull()
      requires Valid() && held && filled + bufferedElems == size && IsAt(offsets, channels, filled)
      modifies this`count, this`held, this`filled, this`completed, this`whole
      ensures Valid() && Idle() && held == (bufferedElems > 0)
      ensures whole == old(whole) + (if held then [] else [buffs[currentHandle]])
      ensures completed == old(completed) + (if held then [] else [buffs[currentHandle]])
      ensures count == old(count) - if held then 0 else 1
    {
      if bufferedElems == 0 {
        Release();
      }
    }

    method Abandon()
      requires Valid() && held
      modifies this`bufferedElems, this`count, this`held, this`filled, this`completed, this`whole, this`kept
      ensures Valid() && !held && whole == old(whole) && kept == Dropped(old(kept), whole, channels, size)
      ensures count == old(count) - 1
    {
      if Copies(format) {
        AccountsDropped(kept, whole, buffs[currentHandle], filled, channels, size);
      }
      kept := Dropped(kept, whole, channels, size);
      filled := 0;
      bufferedElems := 0;
      Release();
    }

    method Put(input: seq<seq<Element>>, k: nat)
      requires Valid() && Idle() && held && k <= bufferedElems && Offers(format, channels, input, k)
      modifies this`buffs, this`offsets, this`bufferedElems, this`kept, this`filled
      ensures Valid() && held && bufferedElems == old(bufferedElems) - k && filled == old(filled) + k
      ensures IsAt(offsets, channels, filled)
      ensures kept == Extended(format, old(kept), channels, input, k)
    {
      ghost var before, off := buffs, filled;
      WriteChannels(input, k, filled);
      WriteStep(before, head, tail, count, currentHandle, sent, completed, buffs[currentHandle]);
      if Copies(format) {
        AccountsWritten(format, kept, whole, before[currentHandle], buffs[currentHandle], channels, input,
                        off, k, size);
      }
      kept := Extended(format, kept, channels, input, k);
      filled := filled + k;
      bufferedElems := bufferedElems - k;
    }

    /** The application's calls. As long as nothing is dropped or drained, every buffer completed is one that was
        filled, and what is kept is what the calls accepted. */
    method WriteAll(writes: seq<Write>) returns (answers: seq<Acquired>)
      requires Valid() && Idle() && AllOffer(format, channels, writes)
      modifies this
      ensures Valid() && Idle() && old(sent) <= sent && |answers| == |writes|
      ensures (answers, bufferedElems, Now()) == Calls(old(bufferedElems), old(Now()), writes, n, size)
      ensures old(Undrained()) && AllCalm(writes) ==> Grown(format, channels, old(kept), kept, writes, answers)
      ensures old(Undrained()) && AllCalm(writes) && Underflow !in answers ==>
                FullOnes(old(completed), completed, old(whole), whole)
    {
      answers := [];
      ghost var calm := Undrained() && AllCalm(writes);
      for j := 0 to |writes|
        invariant old(sent) <= sent
        invariant Series(writes, j, answers, old(bufferedElems), old(Now()), old(kept), old(completed), old(whole),
                         calm)
      {
        answers := WriteOneMore(writes, j, answers, old(bufferedElems), old(Now()), old(kept), old(completed),
                                old(whole), calm);
      }
      assert writes[..|writes|] == writes;
    }

    /** The first j calls have been made. */
    ghost predicate Series(writes: seq<Write>, j: nat, answers: seq<Acquired>, buffered0: nat, s0: Shared,
                           kept0: seq<seq<int>>, completed0: seq<Buffer>, whole0: seq<Buffer>, calm: bool)
      reads this
    {
      && Valid() && Idle() && |answers| == j <= |writes|
      && (answers, bufferedElems, Now()) == Calls(buffered0, s0, writes[..j], n, size)
      && (calm ==> Undrained() && Grown(format, channels, kept0, kept, writes[..j], answers))
      && (calm && Underflow !in answers ==> FullOnes(completed0, completed, whole0, whole))
    }

    /** The next of the application's calls. */
    method WriteOneMore(writes: seq<Write>, j: nat, answers: seq<Acquired>, ghost buffered0: nat, ghost s0: Shared,
                        ghost kept0: seq<seq<int>>, ghost completed0: seq<Buffer>, ghost whole0: seq<Buffer>,
                        ghost calm: bool)
      returns (answers': seq<Acquired>)
      requires j < |writes| && AllOffer(format, channels, writes) && (calm ==> AllCalm(writes))
      requires Series(writes, j, answers, buffered0, s0, kept0, completed0, whole0, calm)
      modifies this
      ensures Series(writes, j + 1, answers', buffered0, s0, kept0, completed0, whole0, calm) && old(sent) <= sent
    {
      assert writes[j] in writes;
      CallsNext(buffered0, s0, writes, j, n, size);
      ghost var kept1, completed1, whole1 := kept, completed, whole;
      var r := WriteNext(writes[j]);
      if calm {
        GrownNext(format, channels, kept0, kept1, kept, writes, j, answers, r);
        if Underflow !in answers && r != Underflow {
          FullOnesNext(completed0, completed1, completed, whole0, whole1, whole);
        }
      }
      answers' := answers + [r];
    }

    /** One of the application's calls. */
    method WriteNext(w: Write) returns (r: Acquired)
      requires Valid() && Idle() && Offers(format, channels, w.input, w.numElems)
      modifies this
      ensures Valid() && Idle() && old(sent) <= sent
      ensures (r, bufferedElems, Now()) == Writing(old(bufferedElems), old(Now()), w.numElems, w.i, n, size)
      ensures old(Undrained()) && Calm(w.i) ==> Undrained() && Extends(format, channels, old(kept), kept, w, r)
      ensures old(Undrained()) && Calm(w.i) && r != Underflow ==> FullOnes(old(completed), completed, old(whole), whole)
    {
      if Undrained() && Calm(w.i) {
        CalmStays(bufferedElems, Now(), w.numElems, w.i, n, size);
      }
      ghost var before := kept;
      r := WriteStream(w.input, w.numElems, w.i);
      if r.Elements? && kept == Extended(format, before, channels, w.input, r.n) {
        ExtendedExtends(format, before, channels, w, r);
      }
    }
  }

  /** The buffers completed since are the ones filled since. */
  ghost predicate FullOnes(completed0: seq<Buffer>, completed: seq<Buffer>, whole0: seq<Buffer>, whole: seq<Buffer>) {
    whole0 <= whole && completed == completed0 + whole[|whole0|..]
  }

  lemma FullOnesNext(c0: seq<Buffer>, c1: seq<Buffer>, c2: seq<Buffer>,
                     w0: seq<Buffer>, w1: seq<Buffer>, w2: seq<Buffer>)
    requires FullOnes(c0, c1, w0, w1) && FullOnes(c1, c2, w1, w2)
    ensures FullOnes(c0, c2, w0, w2)
  {
    assert w2[|w0|..] == w1[|w0|..] + w2[|w1|..];
  }

  lemma ExtendedExtends(format: Format, before: seq<seq<int>>, channels: seq<nat>, w: Write, r: Acquired)
    requires |before| == 3 && r.Elements? && Offers(format, channels, w.input, r.n)
    ensures Extends(format, channels, before, Extended(format, before, channels, w.input, r.n), w, r)
  {}

  /** One call adds what it accepts to what is kept. */
  ghost predicate Extends(format: Format, channels: seq<nat>, before: seq<seq<int>>, after: seq<seq<int>>, w: Write,
                          r: Acquired) {
    && |before| == |after| == 3
    && (Copies(format) ==> forall c :: c in channels && c < 3 ==> after[c] == before[c] + ConvertAll(Part(w, r, c)))
  }

  ghost predicate Grown(format: Format, channels: seq<nat>, before: seq<seq<int>>, after: seq<seq<int>>,
                        writes: seq<Write>, answers: seq<Acquired>)
    requires |answers| == |writes|
  {
    && |before| == |after| == 3
    && (Copies(format) ==> forall c :: c in channels && c < 3 ==>
          after[c] == before[c] + ConvertAll(Accepted(writes, answers, c)))
  }

  lemma GrownNext(format: Format, channels: seq<nat>, kept0: seq<seq<int>>, before: seq<seq<int>>, after: seq<seq<int>>,
                  writes: seq<Write>, j: nat, answers: seq<Acquired>, r: Acquired)
    requires |answers| == j < |writes| && Grown(format, channels, kept0, before, writes[..j], answers)
    requires Extends(format, channels, before, after, writes[j], r)
    ensures Grown(format, channels, kept0, after, writes[..j + 1], answers + [r])
  {
    forall c | c in channels && c < 3 && Copies(format)
      ensures after[c] == kept0[c] + ConvertAll(Accepted(writes[..j + 1], answers + [r], c))
    {
      AcceptedNext(writes, answers, r, c, j);
      GrownOne(kept0[c], before[c], after[c], Accepted(writes[..j], answers, c), Part(writes[j], r, c));
    }
  }

  lemma GrownOne(first: seq<int>, before: seq<int>, after: seq<int>, accepted: seq<Element>, part: seq<Element>)
    requires before == first + ConvertAll(accepted) && after == before + ConvertAll(part)
    ensures after == first + ConvertAll(accepted + part)
  {
    ConvertConcat(accepted, part);
    Associates(first, ConvertAll(accepted), ConvertAll(part));
  }

  lemma ConvertConcat(a: seq<Element>, b: seq<Element>)
    ensures ConvertAll(a + b) == ConvertAll(a) + ConvertAll(b)
  {}

  /** Every buffer released full holds the next `size` converted elements of each enabled channel. */
  lemma WholeBuffersAreWindows(m: Ring, c: nat, j: nat)
    requires m.Valid() && Copies(m.format) && c in m.channels && j < |m.whole|
    ensures c < 3 && 0 <= j * m.size <= j * m.size + m.size <= |m.kept[c]|
    ensures |m.whole[j]| == 3 && m.whole[j][c] == m.kept[c][j * m.size..j * m.size + m.size]
  {
    FullBufferIsWindow(m.kept[c], m.whole, m.buffs[m.currentHandle][c], m.filled, c, m.size, j);
  }

  /** Buffer number j carries, on channel c, elements j * size to (j + 1) * size of the stream. */
  predicate IsWindow(b: Buffer, stream: seq<int>, c: nat, j: nat, size: nat) {
    && c < 3 && |b| == 3 && 0 <= j * size <= j * size + size <= |stream|
    && b[c] == stream[j * size..j * size + size]
  }

  ghost predicate AreWindows(sent: seq<Buffer>, stream: seq<int>, c: nat, size: nat) {
    forall j: nat :: j < |sent| ==> IsWindow(sent[j], stream, c, j, size)
  }

  lemma SentAreWindows(m: Ring, c: nat)
    requires m.Valid() && Copies(m.format) && c in m.channels && m.completed == m.whole
    ensures c < 3 && AreWindows(m.sent, m.kept[c], c, m.size)
  {
    forall j: nat | j < |m.sent|
      ensures IsWindow(m.sent[j], m.kept[c], c, j, m.size)
    {
      WholeBuffersAreWindows(m, c, j);
      assert m.sent[j] == m.completed[j];
    }
  }

  /** setupStream and activateStream. */
  method Start(buffs: seq<Buffer>, size: nat, format: Format, channels: seq<nat>) returns (m: Ring)
    requires buffs != [] && size > 0 && AllShaped(buffs, size) && Enabled(channels)
    ensures fresh(m) && m.Valid() && m.Idle() && m.Undrained()
    ensures m.n == |buffs| && m.size == size && m.format == format && m.channels == channels
    ensures m.bufferedElems == 0 && m.Now() == Shared(0, false, true)
    ensures m.sent == m.completed == m.whole == [] && m.kept == [[], [], []]
  {
    m := new Ring(buffs, size, format, channels);
    m.Activate();
  }

  lemma FromNothing(m: Ring, writes: seq<Write>, answers: seq<Acquired>, c: nat)
    requires m.Valid() && Copies(m.format) && c in m.channels && |answers| == |writes|
    requires Grown(m.format, m.channels, [[], [], []], m.kept, writes, answers)
    requires FullOnes([], m.completed, [], m.whole)
    ensures c < 3 && m.completed == m.whole && m.kept[c] == ConvertAll(Accepted(writes, answers, c))
    ensures AreWindows(m.sent, ConvertAll(Accepted(writes, answers, c)), c, m.size)
  {
    GrownFromNothing(m.format, m.channels, m.kept, writes, answers, c);
    FullFromNothing(m.completed, m.whole);
    SentAreWindows(m, c);
  }

  lemma GrownFromNothing(format: Format, channels: seq<nat>, kept: seq<seq<int>>, writes: seq<Write>,
                         answers: seq<Acquired>, c: nat)
    requires Copies(format) && c in channels && c < 3 && |answers| == |writes|
    requires Grown(format, channels, [[], [], []], kept, writes, answers)
    ensures kept[c] == ConvertAll(Accepted(writes, answers, c))
  {
    assert kept[c] == [[], [], []][c] + ConvertAll(Accepted(writes, answers, c));
  }

  lemma FullFromNothing(completed: seq<Buffer>, whole: seq<Buffer>)
    requires FullOnes([], completed, [], whole)
    ensures completed == whole
  {}

  /** A whole transmission: set the stream up, activate it, and write. While no reset is requested and no underflow
      reported, the buffers sent are, in order, the windows of each enabled channel's converted input, however that is
      split into calls. */
  method Transmit(buffs: seq<Buffer>, size: nat, format: Format, channels: seq<nat>, writes: seq<Write>)
    returns (m: Ring, answers: seq<Acquired>)
    requires buffs != [] && size > 0 && AllShaped(buffs, size) && Enabled(channels)
    requires AllOffer(format, channels, writes)
    ensures m.Valid() && m.size == size && |answers| == |writes|
    ensures (answers, m.bufferedElems, m.Now()) == Calls(0, Shared(0, false, true), writes, |buffs|, size)
    ensures AllCalm(writes) && Underflow !in answers ==> m.completed == m.whole
    ensures AllCalm(writes) && Underflow !in answers && Copies(format) ==>
              forall c :: c in channels ==> IsSent(m, ConvertAll(Accepted(writes, answers, c)), c)
  {
    m := Start(buffs, size, format, channels);
    answers := m.WriteAll(writes);
    forall c | c in channels && AllCalm(writes) && Underflow !in answers && Copies(format)
      ensures IsSent(m, ConvertAll(Accepted(writes, answers, c)), c)
    {
      FromNothing(m, writes, answers, c);
    }
    if AllCalm(writes) && Underflow !in answers {
      FullFromNothing(m.completed, m.whole);
    }
  }

  /** All of the stream is kept, in full buffers and the unfinished one, and the buffers sent are its windows. */
  ghost predicate IsSent(m: Ring, stream: seq<int>, c: nat)
    reads m
  {
    c < |m.kept| && m.kept[c] == stream && AreWindows(m.sent, stream, c, m.size)
  }

  /** What the j-th callback that gets a buffer is handed: for an enabled channel the j-th window of what was converted
      for it, and nothing for the others. */
  lemma HandedOver(m: Ring, stream: seq<int>, c: nat, j: nat)
    requires c < 3 && j < |m.sent| && |m.sent[j]| == 3 && (c in m.channels ==> IsSent(m, stream, c))
    ensures if c in m.channels
            then j * m.size + m.size <= |stream|
                 && Given(m.sent[j], m.channels)[c] == Some(stream[j * m.size..j * m.size + m.size])
            else Given(m.sent[j], m.channels)[c] == None
  {
    assert c in m.channels ==> IsWindow(m.sent[j], stream, c, j, m.size);
  }
}
