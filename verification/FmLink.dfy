/** The frequency ring between its two threads (src/fl2k_fm.c): fm_worker reads an entry for every slot of the ring in
    turn, while the modulator writes behind it as far as writelen allows. */
module FmLink {
  import Dds
  import opened FmModulator
  import FmWorker
  import opened Options

  /** What fm_worker passes to the oscillator for one slot, and how many frequencies had been written by then. */
  datatype Entry = Entry(freq: real, slope: real, written: nat)

  /** One round of the modulator, with what is left of the input; or one slot read by fm_worker. */
  datatype Event = Write(file: seq<int>, rds: Option<seq<real>>) | Read

  /** The reader has read `read` slots, from slot 0 on, and the modulator written `written`, from slot 1 on: the reader
      has not overtaken the modulator, nor the modulator the reader. */
  predicate InStep(read: nat, written: nat) {
    read <= written + 1 <= read + BUFFER_SAMPLES
  }

  /** What writelen allows never reaches a slot that is still to be read. */
  lemma WritingKeepsStep(read: nat, written: nat, taken: nat)
    requires InStep(read, written) && taken <= Ahead(Slot(written), read % BUFFER_SAMPLES)
    ensures InStep(read, written + taken)
  {
    var d := written + 1 - read;
    AheadIs(read, written, d);
  }

  lemma AheadIs(read: nat, written: nat, d: nat)
    requires d == written + 1 - read && d <= BUFFER_SAMPLES
    ensures Ahead(Slot(written), read % BUFFER_SAMPLES) == if d == 0 then 0 else BUFFER_SAMPLES - d
  {}

  /** The slot to be read next holds the next frequency; its slope leads to the frequency behind it, unless that is
      still to be written, when it is the slope of a whole ring ago. */
  lemma ReaderSees(m: Modulator, read: nat)
    requires m.Valid() && InStep(read, |m.freqs|) && 1 <= read <= |m.freqs|
    ensures m.freqbuf[read % BUFFER_SAMPLES] == m.freqs[read - 1]
    ensures read < |m.freqs| ==>
      m.slopebuf[read % BUFFER_SAMPLES] == SlopeTo(m.freqs[read - 1], m.freqs[read], m.carrierPerSignal as real)
    ensures BUFFER_SAMPLES < read == |m.freqs| ==>
      m.slopebuf[read % BUFFER_SAMPLES]
        == SlopeTo(m.freqs[read - 1 - BUFFER_SAMPLES], m.freqs[read - BUFFER_SAMPLES], m.carrierPerSignal as real)
  {
    assert Slot(read - 1) == read % BUFFER_SAMPLES && Live(read - 1, |m.freqs|);
    if read < |m.freqs| {
      assert Live(read - 1, |m.freqs| - 1);
      SlopesAt(m.freqs, m.carrierPerSignal as real, read - 1);
    } else if BUFFER_SAMPLES < read {
      var k := read - 1 - BUFFER_SAMPLES;
      SameSlot(k);
      assert Live(k, |m.freqs| - 1);
      SlopesAt(m.freqs, m.carrierPerSignal as real, k);
    }
  }

  lemma SameSlot(k: nat)
    ensures Slot(k + BUFFER_SAMPLES) == Slot(k)
  {}

  // ---------- the two threads without the ring ----------

  predicate Fits(e: Event) {
    e.Write? && e.rds.Some? ==> |e.rds.value| >= AUDIO_BUF_SIZE
  }

  predicate AllFit(events: seq<Event>) {
    forall e <- events :: Fits(e)
  }

  /** How many slots have been read, and all frequencies written. */
  datatype Progress = Progress(read: nat, freqs: seq<real>)

  function Step(m: Modulator, p: Progress, e: Event): Progress
    requires Fits(e)
  {
    match e
    case Write(file, rds) =>
      var taken := Taken(Slot(|p.freqs|), p.read % BUFFER_SAMPLES, |file|);
      p.(freqs := p.freqs + m.Frequencies(file[..taken], rds))
    case Read => p.(read := p.read + 1)
  }

  function After(m: Modulator, events: seq<Event>): Progress
    requires AllFit(events)
  {
    if events == [] then Progress(0, [])
    else
      var last := |events| - 1;
      Step(m, After(m, events[..last]), events[last])
  }

  /** For every read in turn, how many frequencies had been written by then. */
  function WrittenAtReads(m: Modulator, events: seq<Event>): (r: seq<nat>)
    requires AllFit(events)
    ensures |r| == After(m, events).read
  {
    if events == [] then []
    else
      var last := |events| - 1;
      WrittenAtReads(m, events[..last]) + if events[last].Read? then [|After(m, events[..last]).freqs|] else []
  }

  /** The reader is about to read a slot that is still to be written. */
  predicate Overtaking(p: Progress, e: Event) {
    e.Read? && p.read > |p.freqs|
  }

  /** The first `done` events pass without the reader overtaking the modulator, and the next one is where it would. */
  ghost predicate StopsAt(m: Modulator, events: seq<Event>, done: nat)
    requires AllFit(events)
  {
    && done <= |events| && (done < |events| ==> Overtaking(After(m, events[..done]), events[done]))
    && NotBefore(m, events, done)
  }

  ghost predicate NotBefore(m: Modulator, events: seq<Event>, n: nat)
    requires AllFit(events) && n <= |events|
  {
    forall i :: 0 <= i < n ==> !Overtaking(After(m, events[..i]), events[i])
  }

  lemma NotBeforeNext(m: Modulator, events: seq<Event>, n: nat)
    requires AllFit(events) && n < |events| && NotBefore(m, events, n) && !Overtaking(After(m, events[..n]), events[n])
    ensures NotBefore(m, events, n + 1)
  {}

  lemma AfterNext(m: Modulator, events: seq<Event>, i: nat)
    requires AllFit(events) && i < |events|
    ensures After(m, events[..i + 1]) == Step(m, After(m, events[..i]), events[i])
    ensures WrittenAtReads(m, events[..i + 1])
         == WrittenAtReads(m, events[..i]) + if events[i].Read? then [|After(m, events[..i]).freqs|] else []
  {
    assert events[..i + 1][..i] == events[..i];
  }

  /** Once the reader has read the newest slot, the modulator writes nothing more: only a read that overtakes it could
      make room. */
  lemma {:induction false} CaughtUp(m: Modulator, events: seq<Event>, more: seq<Event>)
    requires AllFit(events) && AllFit(more) && After(m, events).read == |After(m, events).freqs| + 1
    requires forall e <- more :: e.Write?
    ensures AllFit(events + more) && After(m, events + more) == After(m, events)
    decreases |more|
  {
    var all, last := events + more, |more| - 1;
    if more == [] {
      assert all == events;
    } else {
      CaughtUp(m, events, more[..last]);
      assert all[..|all| - 1] == events + more[..last] && all[|all| - 1] == more[last] && more[last] in more;
      NothingTaken(m, After(m, events), more[last]);
    }
  }

  lemma NothingTaken(m: Modulator, p: Progress, e: Event)
    requires Fits(e) && e.Write? && p.read == |p.freqs| + 1
    ensures Step(m, p, e) == p
  {
    AheadIs(p.read, |p.freqs|, 0);
    assert m.Frequencies(e.file[..0], e.rds) == [];
  }

  // ---------- the two threads on the ring ----------

  /** What has been read from slot 1 on: every frequency once and in order. The slope leads to the next frequency if
      that had been written when the slot was read; in a newest slot it is the slope of a whole ring ago. */
  predicate IsHeard(heard: seq<Entry>, freqs: seq<real>, perSlot: real)
    requires perSlot != 0.0
  {
    forall k :: 1 <= k < |heard| ==> HeardAt(heard[k], freqs, k, perSlot)
  }

  predicate HeardAt(e: Entry, freqs: seq<real>, k: nat, perSlot: real)
    requires perSlot != 0.0
  {
    && 1 <= k <= e.written <= |freqs| && e.freq == freqs[k - 1]
    && (k < e.written ==> e.slope == SlopeTo(freqs[k - 1], freqs[k], perSlot))
    && (BUFFER_SAMPLES < k == e.written ==>
          e.slope == SlopeTo(freqs[k - 1 - BUFFER_SAMPLES], freqs[k - BUFFER_SAMPLES], perSlot))
  }

  lemma HeardStays(heard: seq<Entry>, freqs: seq<real>, more: seq<real>, perSlot: real)
    requires perSlot != 0.0 && IsHeard(heard, freqs, perSlot)
    ensures IsHeard(heard, freqs + more, perSlot)
  {
    forall k | 1 <= k < |heard|
      ensures HeardAt(heard[k], freqs + more, k, perSlot)
    {
      assert HeardAt(heard[k], freqs, k, perSlot);
    }
  }

  /** The entries' counts are those of the events. */
  predicate AreCounts(heard: seq<Entry>, counts: seq<nat>) {
    |heard| == |counts| && forall k :: 0 <= k < |heard| ==> heard[k].written == counts[k]
  }

  /** One slot read by fm_worker. */
  method ReadSlot(m: Modulator, readpos: nat, written: nat, ghost read: nat) returns (e: Entry, readpos': nat)
    requires m.Valid() && readpos == read % BUFFER_SAMPLES
    ensures e == Entry(m.freqbuf[readpos], m.slopebuf[readpos], written) && readpos' == (read + 1) % BUFFER_SAMPLES
  {
    e := Entry(m.freqbuf[readpos], m.slopebuf[readpos], written);
    readpos' := readpos + 1;
    readpos' := readpos' % BUFFER_SAMPLES;
  }

  lemma HeardOne(m: Modulator, heard: seq<Entry>, e: Entry)
    requires m.Valid() && IsHeard(heard, m.freqs, m.carrierPerSignal as real)
    requires |heard| <= |m.freqs| && InStep(|heard|, |m.freqs|)
    requires var p := |heard| % BUFFER_SAMPLES; e == Entry(m.freqbuf[p], m.slopebuf[p], |m.freqs|)
    ensures IsHeard(heard + [e], m.freqs, m.carrierPerSignal as real)
  {
    if heard != [] {
      ReaderSees(m, |heard|);
      assert HeardAt(e, m.freqs, |heard|, m.carrierPerSignal as real);
    }
  }

  /** Any interleaving of modulator rounds and reads, up to the first read that would overtake the modulator:
      frequencies written and slots read are those of the threads without the ring, and from slot 1 on the reader gets
      every frequency once and in order. */
  method Interplay(m: Modulator, events: seq<Event>) returns (heard: seq<Entry>, ghost done: nat)
    requires m.Valid() && m.freqs == [] && AllFit(events)
    modifies m`writepos, m`lastwritepos, m`lastfreq, m`freqs, m.freqbuf, m.slopebuf
    ensures m.Valid() && StopsAt(m, events, done) && m.freqs == After(m, events[..done]).freqs
    ensures AreCounts(heard, WrittenAtReads(m, events[..done])) && IsHeard(heard, m.freqs, m.carrierPerSignal as real)
  {
    heard, done := [], 0;
    var readpos, read, written := 0, 0, 0;
    for i := 0 to |events|
      invariant done == i && NotBefore(m, events, i) && Upto(m, events, i, heard, readpos, read, written)
    {
      if events[i].Read? && read > written {
        return;
      }
      NotBeforeNext(m, events, i);
      if events[i].Read? {
        heard, readpos, read := ReadEvent(m, events, i, heard, readpos, read, written);
      } else {
        written := WriteEvent(m, events, i, heard, readpos, read, written);
      }
      done := i + 1;
    }
  }

  /** The first i events have been dealt with. */
  ghost predicate Upto(m: Modulator, events: seq<Event>, i: nat, heard: seq<Entry>,
                       readpos: nat, read: nat, written: nat)
    reads m, m.freqbuf, m.slopebuf
  {
    && m.Valid() && AllFit(events) && i <= |events| && After(m, events[..i]) == Progress(read, m.freqs)
    && written == |m.freqs| && InStep(read, written) && readpos == read % BUFFER_SAMPLES
    && AreCounts(heard, WrittenAtReads(m, events[..i])) && IsHeard(heard, m.freqs, m.carrierPerSignal as real)
  }

  /** One round of the modulator. */
  method WriteEvent(m: Modulator, events: seq<Event>, i: nat, heard: seq<Entry>, readpos: nat, read: nat, written: nat)
    returns (written': nat)
    requires Upto(m, events, i, heard, readpos, read, written) && i < |events| && events[i].Write?
    modifies m`writepos, m`lastwritepos, m`lastfreq, m`freqs, m.freqbuf, m.slopebuf
    ensures Upto(m, events, i + 1, heard, readpos, read, written')
  {
    AfterNext(m, events, i);
    assert events[i] in events;
    ghost var before := m.freqs;
    var file, rds := events[i].file, events[i].rds;
    var taken := m.MonoRound(readpos, file, rds);
    WritingKeepsStep(read, written, taken);
    HeardStays(heard, before, m.Frequencies(file[..taken], rds), m.carrierPerSignal as real);
    written' := written + taken;
  }

  /** One slot read. */
  method ReadEvent(m: Modulator, events: seq<Event>, i: nat, heard: seq<Entry>, readpos: nat, read: nat, written: nat)
    returns (heard': seq<Entry>, readpos': nat, read': nat)
    requires Upto(m, events, i, heard, readpos, read, written) && i < |events| && events[i].Read? && read <= written
    ensures Upto(m, events, i + 1, heard', readpos', read', written)
  {
    AfterNext(m, events, i);
    var e;
    e, readpos' := ReadSlot(m, readpos, written, read);
    HeardOne(m, heard, e);
    heard', read' := heard + [e], read + 1;
  }

  // ---------- from audio to the transmit buffers ----------

  /** The entries as phase increments, by whatever conversion. */
  function Increments(heard: seq<Entry>, convert: Entry -> FmWorker.Entry): (r: seq<FmWorker.Entry>)
    ensures |r| == |heard| && forall k :: 0 <= k < |r| ==> r[k] == convert(heard[k])
  {
    seq(|heard|, k requires 0 <= k < |heard| => convert(heard[k]))
  }

  /** The generator plays what is heard: the buffers it publishes are the windows of the one stream that the entries of
      the ring make. */
  method Broadcast(m: Modulator, w: FmWorker.Worker, events: seq<Event>, convert: Entry -> FmWorker.Entry)
    returns (heard: seq<Entry>, ghost done: nat)
    requires m.Valid() && m.freqs == [] && AllFit(events)
    requires w.Valid() && w.stream == [] && w.published == [] && w.full == 0
    modifies m`writepos, m`lastwritepos, m`lastfreq, m`freqs, m.freqbuf, m.slopebuf
    modifies w, w.carrier, w.fmbuf, w.txbuf
    ensures m.Valid() && StopsAt(m, events, done) && m.freqs == After(m, events[..done]).freqs
    ensures AreCounts(heard, WrittenAtReads(m, events[..done])) && IsHeard(heard, m.freqs, m.carrierPerSignal as real)
    ensures w.Valid() && FmWorker.AreWindows(w.stream, w.size, w.published)
    ensures w.stream == FmWorker.Stream(w.carrier.table, old(w.carrier.Regs()), w.carrier.width,
                                        Increments(heard, convert), w.perEntry)
    ensures FmWorker.ArePublishedTones(w.published, w.size, w.carrier.table, old(w.carrier.phase),
                                       Increments(heard, convert), w.perEntry)
    ensures |w.stream| <= (|w.published| + 2) * w.size
  {
    heard, done := Interplay(m, events);
    FmWorker.PlayAll(w, Increments(heard, convert));
  }
}
