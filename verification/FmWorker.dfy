/** The FM signal generator (src/fl2k_fm.c, fm_worker): plays a fixed number of oscillator samples for every
    entry of the frequency buffer and cuts the stream into the buffers that two pointers alternate between. */
module FmWorker {
  import opened Dds

  /** One entry of the frequency buffer, as the phase increments that dds_set_freq makes of it. */
  datatype Entry = Entry(step: nat, slope: nat)

  function SetTo(d: Registers, e: Entry): Registers {
    Registers(d.phase, e.step, e.slope)
  }

  /** The oscillator after playing a series of entries, `count` samples each. */
  function Played(d: Registers, width: nat, entries: seq<Entry>, count: nat): (r: Registers)
    requires width > 0 && d.phase < PHASE_RANGE
    ensures r.phase < PHASE_RANGE
  {
    if entries == [] then d
    else
      var n := |entries| - 1;
      var before := SetTo(Played(d, width, entries[..n], count), entries[n]);
      PhaseStaysInRange(before, width, count);
      After(before, width, count)
  }

  /** The one continuous stream those entries make. */
  function Stream(t: Table, d: Registers, width: nat, entries: seq<Entry>, count: nat): (r: seq<int>)
    requires width > 0 && d.phase < PHASE_RANGE
    ensures |r| == |entries| * count
  {
    if entries == [] then []
    else
      var n := |entries| - 1;
      Stream(t, d, width, entries[..n], count)
        + Samples(t, SetTo(Played(d, width, entries[..n], count), entries[n]), width, count)
  }

  /** Window j of a stream, for buffers of size b. */
  function Window(stream: seq<int>, b: nat, j: nat): (r: seq<int>)
    requires (j + 1) * b <= |stream|
    ensures |r| == b
  {
    assert j * b <= (j + 1) * b == j * b + b;
    stream[j * b..(j + 1) * b]
  }

  /** What has been generated since the last of `full` buffers was filled. */
  ghost predicate IsTail(stream: seq<int>, b: nat, full: nat, tail: seq<int>) {
    |stream| == full * b + |tail| && tail == stream[full * b..]
  }

  ghost predicate IsWindow(stream: seq<int>, b: nat, j: nat, w: seq<int>) {
    (j + 1) * b <= |stream| && w == Window(stream, b, j)
  }

  /** The buffers published are windows 1, 2, 3, ... of the stream; window 0 is not among them. */
  ghost predicate AreWindows(stream: seq<int>, b: nat, published: seq<seq<int>>) {
    forall i :: 0 <= i < |published| ==> IsWindow(stream, b, i + 1, published[i])
  }

  /** Extending a stream extends its tail and does not change the windows it already has. */
  lemma TailGrows(stream: seq<int>, b: nat, full: nat, tail: seq<int>, more: seq<int>)
    requires IsTail(stream, b, full, tail)
    ensures IsTail(stream + more, b, full, tail + more)
  {}

  lemma WindowStable(stream: seq<int>, more: seq<int>, b: nat, j: nat, w: seq<int>)
    requires IsWindow(stream, b, j, w)
    ensures IsWindow(stream + more, b, j, w)
  {
    assert j * b <= (j + 1) * b;
  }

  lemma WindowsStable(stream: seq<int>, more: seq<int>, b: nat, published: seq<seq<int>>)
    requires AreWindows(stream, b, published)
    ensures AreWindows(stream + more, b, published)
  {
    forall i | 0 <= i < |published|
      ensures IsWindow(stream + more, b, i + 1, published[i])
    {
      WindowStable(stream, more, b, i + 1, published[i]);
    }
  }

  /** A full tail is the next window, and the tail behind it is empty. */
  lemma TailIsWindow(stream: seq<int>, b: nat, full: nat, tail: seq<int>)
    requires IsTail(stream, b, full, tail) && |tail| == b
    ensures IsWindow(stream, b, full, tail) && IsTail(stream, b, full + 1, [])
  {}

  class Worker {
    const size: nat                 // FL2K_BUF_LEN
    const perEntry: nat             // carrier_per_signal
    const carrier: Oscillator
    var fmbuf: array<int>
    var txbuf: array<int>
    var len: nat
    var prefilled: bool
    ghost var stream: seq<int>      // every sample generated so far
    ghost var full: nat             // buffers filled so far
    ghost var published: seq<seq<int>>

    constructor (size: nat, perEntry: nat, carrier: Oscillator, buf1: array<int>, buf2: array<int>)
      requires perEntry <= size && carrier.Valid() && buf1 != buf2 && buf1.Length == size == buf2.Length
      ensures Valid() && this.carrier == carrier && this.size == size && this.perEntry == perEntry
      ensures fmbuf == buf1 && txbuf == buf2 && stream == [] && published == []
    {
      this.size, this.perEntry, this.carrier := size, perEntry, carrier;
      fmbuf, txbuf, len, prefilled := buf1, buf2, 0, false;
      stream, full, published := [], 0, [];
    }

    ghost predicate Buffers()
      reads this
    {
      fmbuf != txbuf && fmbuf.Length == size == txbuf.Length && len <= size && prefilled == (full > 0)
    }

    ghost predicate Valid()
      reads this, fmbuf, txbuf, carrier
    {
      && carrier.Valid() && perEntry <= size && Buffers()
      && IsTail(stream, size, full, fmbuf[..len])
      && |published| == (if full > 0 then full - 1 else 0) && AreWindows(stream, size, published)
      && (published != [] ==> txbuf[..] == published[|published| - 1])
    }

    /** Generates `count` samples into the current buffer. */
    method Append(count: nat)
      requires Valid() && len + count <= size
      modifies this`len, this`stream, carrier, fmbuf
      ensures Valid() && len == old(len) + count && full == old(full) && published == old(published)
      ensures carrier.Regs() == After(old(carrier.Regs()), carrier.width, count)
      ensures stream == old(stream) + Samples(carrier.table, old(carrier.Regs()), carrier.width, count)
    {
      ghost var more := Samples(carrier.table, carrier.Regs(), carrier.width, count);
      TailGrows(stream, size, full, fmbuf[..len], more);
      WindowsStable(stream, more, size, published);
      carrier.RealBuf(fmbuf, len, count);
      assert fmbuf[..len + count] == old(fmbuf[..len]) + more;
      len := len + count;
      stream := stream + more;
    }

    /** At the end of a buffer: from the second one on, publish it by swapping the two pointers. */
    method Swap()
      requires Valid() && len == size
      modifies this`fmbuf, this`txbuf, this`len, this`prefilled, this`full, this`published
      ensures Valid() && len == 0 && {fmbuf, txbuf} == old({fmbuf, txbuf})
      ensures full == old(full) + 1 && old(published) <= published
    {
      TailIsWindow(stream, size, full, fmbuf[..]);
      assert fmbuf[..len] == fmbuf[..];
      if prefilled {
        fmbuf, txbuf := txbuf, fmbuf;
        published := published + [txbuf[..]];
      }
      prefilled := true;
      len := 0;
      full := full + 1;
    }

    /** One round of the worker's loop. */
    method Round(e: Entry)
      requires Valid()
      modifies this`fmbuf, this`txbuf, this`len, this`prefilled, this`full, this`published, this`stream
      modifies carrier, fmbuf, txbuf
      ensures Valid() && {fmbuf, txbuf} == old({fmbuf, txbuf}) && old(published) <= published
      ensures carrier.Regs() == After(SetTo(old(carrier.Regs()), e), carrier.width, perEntry)
      ensures stream == old(stream) + Samples(carrier.table, SetTo(old(carrier.Regs()), e), carrier.width, perEntry)
    {
      carrier.SetFreq(e.step, e.slope);
      if len + perEntry > size {
        Cross();
      } else {
        Append(perEntry);
      }
    }

    /** An entry that reaches past the end of the current buffer is continued in the next one. */
    method Cross()
      requires Valid() && len + perEntry > size
      modifies this`fmbuf, this`txbuf, this`len, this`prefilled, this`full, this`published, this`stream
      modifies carrier, fmbuf, txbuf
      ensures Valid() && {fmbuf, txbuf} == old({fmbuf, txbuf}) && old(published) <= published
      ensures carrier.Regs() == After(old(carrier.Regs()), carrier.width, perEntry)
      ensures stream == old(stream) + Samples(carrier.table, old(carrier.Regs()), carrier.width, perEntry)
    {
      var readlen := size - len;
      var remaining := perEntry - readlen;
      ghost var d, before := carrier.Regs(), stream;
      SamplesAppend(carrier.table, d, carrier.width, readlen, remaining);
      AfterAdds(d, carrier.width, readlen, remaining);
      ghost var front := Samples(carrier.table, d, carrier.width, readlen);
      ghost var back := Samples(carrier.table, After(d, carrier.width, readlen), carrier.width, remaining);
      Append(readlen);
      assert stream == before + front;
      Swap();
      Append(remaining);
      assert stream == before + (front + back);
    }
  }

  lemma StreamSnoc(t: Table, d: Registers, width: nat, entries: seq<Entry>, e: Entry, count: nat)
    requires width > 0 && d.phase < PHASE_RANGE
    ensures var before := SetTo(Played(d, width, entries, count), e);
      && Played(d, width, entries + [e], count) == After(before, width, count)
      && Stream(t, d, width, entries + [e], count)
           == Stream(t, d, width, entries, count) + Samples(t, before, width, count)
  {
    assert (entries + [e])[..|entries|] == entries;
  }

  // ---------- what the stream holds ----------

  /** The phase after a series of entries, without wrap-around. */
  function PhaseAfter(phase: nat, entries: seq<Entry>, count: nat): int {
    if entries == [] then phase
    else
      var n := |entries| - 1;
      PhaseAfter(phase, entries[..n], count)
        + count * entries[n].step + count * (count - 1) / 2 * entries[n].slope
  }

  /** Sample x belongs to entry x / count: the phase that the entries before it have reached goes on from there with
      that entry's step, which grows by its slope, and 2^32 phases are one turn through the 256 values of the table. */
  function ToneAt(t: Table, phase: nat, entries: seq<Entry>, count: nat, x: nat): int
    requires count > 0 && x / count < |entries|
  {
    var e, i := x / count, x % count;
    var turned := PhaseAfter(phase, entries[..e], count) + i * entries[e].step + i * (i - 1) / 2 * entries[e].slope;
    TableIndex(turned % 0x1_0000_0000);
    t[turned % 0x1_0000_0000 * 256 / 0x1_0000_0000]
  }

  lemma TableIndex(phase: nat)
    requires phase < PHASE_RANGE
    ensures phase / TABLE_STEP == phase * 256 / 0x1_0000_0000 < 256
  {}

  /** A series of samples that starts with sample `first` of the entries' tones. */
  ghost predicate IsTones(samples: seq<int>, t: Table, phase: nat, entries: seq<Entry>, count: nat, first: nat) {
    forall k :: 0 <= k < |samples| ==> IsTone(samples[k], t, phase, entries, count, first + k)
  }

  predicate IsTone(sample: int, t: Table, phase: nat, entries: seq<Entry>, count: nat, x: nat) {
    count > 0 && x / count < |entries| && sample == ToneAt(t, phase, entries, count, x)
  }

  /** Published buffer j holds the tones from number (j + 1) * b on. */
  ghost predicate ArePublishedTones(published: seq<seq<int>>, b: nat, t: Table, phase: nat, entries: seq<Entry>,
                                    count: nat)
  {
    forall j :: 0 <= j < |published| ==> IsPublished(published[j], b, t, phase, entries, count, j + 1)
  }

  ghost predicate IsPublished(w: seq<int>, b: nat, t: Table, phase: nat, entries: seq<Entry>, count: nat, j: nat) {
    |w| == b && IsTones(w, t, phase, entries, count, j * b)
  }

  lemma Mod32Carries(p: int, more: int)
    ensures Mod32(Mod32(p) + more) == Mod32(p + more)
  {}

  /** The oscillator's phase after the entries played. */
  lemma {:induction false} PlayedPhase(d: Registers, width: nat, entries: seq<Entry>, count: nat)
    requires IsWidth(width) && d.phase < PHASE_RANGE
    ensures Played(d, width, entries, count).phase == Mod32(PhaseAfter(d.phase, entries, count))
  {
    if entries != [] {
      var n := |entries| - 1;
      PlayedPhase(d, width, entries[..n], count);
      PhaseOnward(d, width, entries[..n], entries[n], count, count);
    }
  }

  /** i samples into the next entry. */
  lemma PhaseOnward(d: Registers, width: nat, entries: seq<Entry>, e: Entry, count: nat, i: nat)
    requires IsWidth(width) && d.phase < PHASE_RANGE
    requires Played(d, width, entries, count).phase == Mod32(PhaseAfter(d.phase, entries, count))
    ensures var before := SetTo(Played(d, width, entries, count), e);
      && ClosedPhase(before, i)
           == Mod32(PhaseAfter(d.phase, entries, count) + i * e.step + i * (i - 1) / 2 * e.slope)
      && After(before, width, i).phase == ClosedPhase(before, i)
  {
    var before := SetTo(Played(d, width, entries, count), e);
    PhaseInClosedForm(before, width, i);
    Mod32Carries(PhaseAfter(d.phase, entries, count), i * e.step + i * (i - 1) / 2 * e.slope);
  }

  /** Sample i of entry e. */
  lemma {:induction false} StreamAt(t: Table, d: Registers, width: nat, entries: seq<Entry>, count: nat, e: nat, i: nat)
    requires IsWidth(width) && d.phase < PHASE_RANGE && e < |entries| && i < count
    ensures (e * count + i) / count == e && (e * count + i) % count == i
    ensures e * count + i < |entries| * count
    ensures Stream(t, d, width, entries, count)[e * count + i] == ToneAt(t, d.phase, entries, count, e * count + i)
    decreases |entries|
  {
    var n := |entries| - 1;
    Split(e, i, count);
    Within(e, n, i, count);
    if e < n {
      StreamAt(t, d, width, entries[..n], count, e, i);
      assert entries[..n][..e] == entries[..e];
    } else {
      LastEntryAt(t, d, width, entries[..n], entries[n], count, i);
    }
  }

  lemma LastEntryAt(t: Table, d: Registers, width: nat, entries: seq<Entry>, e: Entry, count: nat, i: nat)
    requires IsWidth(width) && d.phase < PHASE_RANGE && i < count
    ensures var turned := PhaseAfter(d.phase, entries, count) + i * e.step + i * (i - 1) / 2 * e.slope;
      && turned % 0x1_0000_0000 * 256 / 0x1_0000_0000 < 256
      && Samples(t, SetTo(Played(d, width, entries, count), e), width, count)[i]
           == t[turned % 0x1_0000_0000 * 256 / 0x1_0000_0000]
  {
    var before := SetTo(Played(d, width, entries, count), e);
    PlayedPhase(d, width, entries, count);
    PhaseOnward(d, width, entries, e, count, i);
    SamplesInClosedForm(t, before, width, count, i);
    TableIndex(ClosedPhase(before, i));
  }

  lemma Split(e: nat, i: nat, count: nat)
    requires i < count
    ensures (e * count + i) / count == e && (e * count + i) % count == i
  {
    var x := e * count + i;
    assert x == count * (x / count) + x % count;
    Between(e, x / count, i, x % count, count);
  }

  lemma Between(a: nat, b: nat, i: nat, j: nat, count: nat)
    requires a * count + i == b * count + j && i < count && j < count
    ensures a == b && i == j
  {
    if a < b {
      TimesMonotone(a + 1, b, count);
    } else if b < a {
      TimesMonotone(b + 1, a, count);
    }
  }

  lemma TimesMonotone(a: nat, b: nat, count: nat)
    requires a <= b
    ensures a * count <= b * count
  {
    assert b * count == a * count + (b - a) * count;
  }

  lemma Within(e: nat, n: nat, i: nat, count: nat)
    requires e <= n && i < count
    ensures e * count + i < (n + 1) * count && (e < n ==> e * count + i < n * count)
  {
    TimesMonotone(e + 1, n + 1, count);
    if e < n {
      TimesMonotone(e + 1, n, count);
    }
  }

  /** The closed form of the whole stream. */
  lemma StreamIsTones(t: Table, d: Registers, width: nat, entries: seq<Entry>, count: nat)
    requires IsWidth(width) && d.phase < PHASE_RANGE
    ensures IsTones(Stream(t, d, width, entries, count), t, d.phase, entries, count, 0)
  {
    forall x: nat | x < |entries| * count
      ensures IsTone(Stream(t, d, width, entries, count)[x], t, d.phase, entries, count, x)
    {
      ToneOfStream(t, d, width, entries, count, x);
    }
  }

  lemma ToneOfStream(t: Table, d: Registers, width: nat, entries: seq<Entry>, count: nat, x: nat)
    requires IsWidth(width) && d.phase < PHASE_RANGE && x < |entries| * count
    ensures IsTone(Stream(t, d, width, entries, count)[x], t, d.phase, entries, count, x)
  {
    assert count > 0;
    EntryOf(x, count, |entries|);
    StreamAt(t, d, width, entries, count, x / count, x % count);
  }

  lemma EntryOf(x: nat, count: nat, n: nat)
    requires count > 0 && x < n * count
    ensures x / count < n && x == x / count * count + x % count
  {
    assert x == count * (x / count) + x % count;
    if x / count >= n {
      TimesMonotone(n, x / count, count);
    }
  }

  /** So every published buffer holds its part of the tones. */
  lemma WindowsAreTones(stream: seq<int>, b: nat, published: seq<seq<int>>, t: Table, phase: nat, entries: seq<Entry>,
                        count: nat)
    requires IsTones(stream, t, phase, entries, count, 0) && AreWindows(stream, b, published)
    ensures ArePublishedTones(published, b, t, phase, entries, count)
  {
    forall j | 0 <= j < |published|
      ensures IsPublished(published[j], b, t, phase, entries, count, j + 1)
    {
      WindowIsTones(stream, b, j + 1, published[j], t, phase, entries, count);
    }
  }

  lemma WindowIsTones(stream: seq<int>, b: nat, j: nat, w: seq<int>, t: Table, phase: nat, entries: seq<Entry>,
                      count: nat)
    requires IsTones(stream, t, phase, entries, count, 0) && IsWindow(stream, b, j, w)
    ensures IsPublished(w, b, t, phase, entries, count, j)
  {
    assert (j + 1) * b == j * b + b;
    forall k | 0 <= k < b
      ensures IsTone(w[k], t, phase, entries, count, j * b + k)
    {
      assert w[k] == stream[j * b + k];
      assert IsTone(stream[j * b + k], t, phase, entries, count, 0 + (j * b + k));
    }
  }

  /** A step of one table place that grows by one place a sample: places 0, 1, 3 and 6. */
  lemma Chirp(t: Table, width: nat)
    requires IsWidth(width)
    ensures Stream(t, Registers(0, 0, 0), width, [Entry(0x100_0000, 0x100_0000)], 4) == [t[0], t[1], t[3], t[6]]
  {
    var entries := [Entry(0x100_0000, 0x100_0000)];
    StreamIsTones(t, Registers(0, 0, 0), width, entries, 4);
    ChirpTones(t, entries, Stream(t, Registers(0, 0, 0), width, entries, 4));
  }

  lemma ChirpTones(t: Table, entries: seq<Entry>, r: seq<int>)
    requires entries == [Entry(0x100_0000, 0x100_0000)] && |r| == 4 && IsTones(r, t, 0, entries, 4, 0)
    ensures r == [t[0], t[1], t[3], t[6]]
  {
    forall x: nat | x < 4
      ensures r[x] == t[x * (x + 1) / 2]
    {
      assert IsTone(r[x], t, 0, entries, 4, 0 + x);
      ChirpTone(t, entries, x);
    }
    assert r[0] == t[0] && r[1] == t[1] && r[2] == t[3] && r[3] == t[6];
  }

  lemma ChirpTone(t: Table, entries: seq<Entry>, x: nat)
    requires entries == [Entry(0x100_0000, 0x100_0000)] && x < 4
    ensures ToneAt(t, 0, entries, 4, x) == t[x * (x + 1) / 2]
  {
    assert entries[..0] == [];
    assert PhaseAfter(0, entries[..0], 4) == 0;
    assert x == 0 || x == 1 || x == 2 || x == 3;
  }

  /** All but the first and the unfinished last buffer have been published. */
  lemma Coverage(w: Worker)
    requires w.Valid()
    ensures |w.stream| <= (|w.published| + 2) * w.size
  {
    assert w.full <= |w.published| + 1;
    assert w.full * w.size <= (|w.published| + 1) * w.size;
  }

  /** The worker's loop over the entries it reads: whatever their number, what it has published is windows
      1, 2, 3, ... of the one stream the entries make, and only what follows them and window 0 is missing. */
  method PlayAll(w: Worker, entries: seq<Entry>)
    requires w.Valid() && w.stream == [] && w.published == [] && w.full == 0
    modifies w, w.carrier, w.fmbuf, w.txbuf
    ensures w.Valid()
    ensures w.stream == Stream(w.carrier.table, old(w.carrier.Regs()), w.carrier.width, entries, w.perEntry)
    ensures AreWindows(w.stream, w.size, w.published)
    ensures IsTones(w.stream, w.carrier.table, old(w.carrier.phase), entries, w.perEntry, 0)
    ensures ArePublishedTones(w.published, w.size, w.carrier.table, old(w.carrier.phase), entries, w.perEntry)
    ensures |w.stream| <= (|w.published| + 2) * w.size
  {
    ghost var d, t, width, count := w.carrier.Regs(), w.carrier.table, w.carrier.width, w.perEntry;
    var n := 0;
    while n < |entries|
      invariant n <= |entries| && w.Valid() && {w.fmbuf, w.txbuf} == old({w.fmbuf, w.txbuf})
      invariant w.carrier.Regs() == Played(d, width, entries[..n], count)
      invariant w.stream == Stream(t, d, width, entries[..n], count)
    {
      StreamSnoc(t, d, width, entries[..n], entries[n], count);
      assert entries[..n] + [entries[n]] == entries[..n + 1];
      w.Round(entries[n]);
      n := n + 1;
    }
    assert entries[..n] == entries;
    StreamIsTones(t, d, width, entries, count);
    WindowsAreTones(w.stream, w.size, w.published, t, d.phase, entries, count);
    Coverage(w);
  }
}
