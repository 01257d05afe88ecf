/** The producer of the frequency buffer (src/fl2k_fm.c): every audio sample becomes a frequency, and each
    slot's slope leads from its frequency to the next slot's. Doubles are modelled as reals. */
module FmModulator {
  import opened Options

  const BUFFER_SAMPLES := 65536
  const AUDIO_BUF_SIZE := 1024

  /** How far slot p is ahead of slot `from` in the ring. */
  function Ahead(from: int, p: int): int {
    (p - from) % BUFFER_SAMPLES
  }

  /** The slot of the k-th sample ever written; writing starts at slot 1. */
  function Slot(k: nat): nat {
    (1 + k) % BUFFER_SAMPLES
  }

  /** How many of `offered` samples one round of the modulator takes: none if writelen allows at most one, else as many
      as it allows, and at most the size of the audio buffer. */
  function Taken(writepos: nat, readpos: nat, offered: nat): (r: nat)
    ensures r <= offered && r <= AUDIO_BUF_SIZE && r <= Ahead(writepos, readpos)
  {
    var len := if Ahead(writepos, readpos) > AUDIO_BUF_SIZE then AUDIO_BUF_SIZE else Ahead(writepos, readpos);
    if len <= 1 then 0 else if offered < len then offered else len
  }

  /** The baseband sample made of one audio sample and, if RDS is on, one RDS sample. */
  function Baseband(audio: int, rds: Option<real>): real {
    var sample := audio as real / 32767.0;
    match rds case None => sample case Some(r) => (sample * 4.0 + r) / 5.0
  }

  /** A round takes nothing while there is room for at most one sample. Otherwise it takes as much as it can: all that
      is offered, all that there is room for, or a full audio buffer. */
  lemma TakenIs(writepos: nat, readpos: nat, offered: nat)
    ensures var room, taken := (readpos - writepos) % 65536, Taken(writepos, readpos, offered);
      && taken <= offered && taken <= room && taken <= 1024
      && (room <= 1 ==> taken == 0)
      && (room > 1 ==> taken == offered || taken == room || taken == 1024)
  {}

  /** Audio is scaled to the range from -1 to 1; RDS takes a fifth of the sum and leaves four fifths to the audio. */
  lemma BasebandIs(audio: int, r: real)
    ensures Baseband(audio, None) * 32767.0 == audio as real
    ensures Baseband(audio, Some(r)) * 5.0 == Baseband(audio, None) * 4.0 + r
    ensures -1.0 <= Baseband(audio, None) <= 1.0 <==> -32767 <= audio <= 32767
    ensures -32767 <= audio <= 32767 && -1.0 <= r <= 1.0 ==> -1.0 <= Baseband(audio, Some(r)) <= 1.0
  {}

  /** Sample k of n has not been overwritten yet. */
  predicate Live(k: int, n: nat) {
    0 <= k < n <= k + BUFFER_SAMPLES
  }

  /** The ring `buf` holds every value of `written` that has not been overwritten. */
  ghost predicate Holds(buf: seq<real>, written: seq<real>) {
    |buf| == BUFFER_SAMPLES && forall k: nat :: Live(k, |written|) ==> buf[Slot(k)] == written[k]
  }

  /** The slopes between consecutive frequencies, for perSlot samples per slot. */
  function Slopes(freqs: seq<real>, perSlot: real): (r: seq<real>)
    requires perSlot != 0.0
    ensures |r| == if freqs == [] then 0 else |freqs| - 1
  {
    if |freqs| < 2 then []
    else
      var last := |freqs| - 1;
      Slopes(freqs[..last], perSlot) + [SlopeTo(freqs[last - 1], freqs[last], perSlot)]
  }

  function SlopeTo(f: real, g: real, perSlot: real): real
    requires perSlot != 0.0
  {
    (g - f) / perSlot
  }

  lemma {:induction false} SlopesAt(freqs: seq<real>, perSlot: real, k: nat)
    requires perSlot != 0.0 && k + 1 < |freqs|
    ensures Slopes(freqs, perSlot)[k] == SlopeTo(freqs[k], freqs[k + 1], perSlot)
  {
    if k + 2 < |freqs| {
      SlopesAt(freqs[..|freqs| - 1], perSlot, k);
    }
  }

  /** Every slope leads from its frequency to the next one in perSlot steps. */
  lemma SlopeLeads(freqs: seq<real>, perSlot: real, k: nat)
    requires perSlot != 0.0 && k + 1 < |freqs|
    ensures freqs[k] + perSlot * Slopes(freqs, perSlot)[k] == freqs[k + 1]
  {
    SlopesAt(freqs, perSlot, k);
  }

  lemma SlopesSnoc(freqs: seq<real>, f: real, perSlot: real)
    requires perSlot != 0.0 && freqs != []
    ensures Slopes(freqs + [f], perSlot) == Slopes(freqs, perSlot) + [SlopeTo(freqs[|freqs| - 1], f, perSlot)]
  {
    assert (freqs + [f])[..|freqs|] == freqs;
  }

  lemma SlotsDiffer(k: nat, n: nat)
    requires k < n < k + BUFFER_SAMPLES
    ensures Slot(k) != Slot(n)
  {}

  lemma NextSlot(k: nat)
    ensures (Slot(k) + 1) % BUFFER_SAMPLES == Slot(k + 1)
  {}

  /** The i-th slot after the slot of sample `start` is i ahead of it. */
  lemma SlotAhead(start: nat, i: nat)
    requires i < BUFFER_SAMPLES
    ensures Ahead(Slot(start), Slot(start + i)) == i
  {}

  /** Writing the next value at its slot overwrites only the value a whole ring older. */
  lemma HoldsStep(buf: seq<real>, written: seq<real>, v: real)
    requires Holds(buf, written)
    ensures Holds(buf[Slot(|written|) := v], written + [v])
  {
    forall k: nat | Live(k, |written| + 1)
      ensures buf[Slot(|written|) := v][Slot(k)] == (written + [v])[k]
    {
      if k < |written| {
        SlotsDiffer(k, |written|);
        assert Live(k, |written|);
      }
    }
  }

  /** `lastfreq` is the last frequency written, and its slope goes to the slot it was written to. */
  predicate IsLast(lastwritepos: nat, lastfreq: real, carrier: real, freqs: seq<real>) {
    && lastwritepos == (if freqs == [] then Slot(0) else Slot(|freqs| - 1))
    && lastfreq == (if freqs == [] then carrier else freqs[|freqs| - 1])
  }

  lemma SlopeStep(lastwritepos: nat, lastfreq: real, slopebuf: seq<real>, carrier: real, perSlot: real,
                  freqs: seq<real>, f: real)
    requires perSlot != 0.0 && IsLast(lastwritepos, lastfreq, carrier, freqs) && Holds(slopebuf, Slopes(freqs, perSlot))
    ensures lastwritepos < BUFFER_SAMPLES
    ensures Holds(slopebuf[lastwritepos := SlopeTo(lastfreq, f, perSlot)], Slopes(freqs + [f], perSlot))
  {
    if freqs != [] {
      SlopesSnoc(freqs, f, perSlot);
      HoldsStep(slopebuf, Slopes(freqs, perSlot), SlopeTo(lastfreq, f, perSlot));
    }
  }

  class Modulator {
    const freqbuf: array<real>
    const slopebuf: array<real>
    const carrierFreq: real
    const deltaFreq: real
    const carrierPerSignal: nat
    var writepos: nat
    var lastwritepos: nat
    var lastfreq: real
    ghost var freqs: seq<real>      // every frequency written so far

    constructor (freqbuf: array<real>, slopebuf: array<real>, carrierFreq: real, deltaFreq: real, carrierPerSignal: nat)
      requires freqbuf != slopebuf && freqbuf.Length == BUFFER_SAMPLES == slopebuf.Length && carrierPerSignal > 0
      ensures Valid() && freqs == [] && writepos == 1
      ensures this.freqbuf == freqbuf && this.slopebuf == slopebuf
      ensures this.carrierFreq == carrierFreq && this.deltaFreq == deltaFreq
      ensures this.carrierPerSignal == carrierPerSignal
    {
      this.freqbuf, this.slopebuf := freqbuf, slopebuf;
      this.carrierFreq, this.deltaFreq, this.carrierPerSignal := carrierFreq, deltaFreq, carrierPerSignal;
      writepos, lastwritepos, lastfreq, freqs := 1, 1, carrierFreq, [];
    }

    ghost predicate Valid()
      reads this, freqbuf, slopebuf
    {
      && freqbuf != slopebuf && freqbuf.Length == BUFFER_SAMPLES == slopebuf.Length && carrierPerSignal > 0
      && writepos == Slot(|freqs|) && IsLast(lastwritepos, lastfreq, carrierFreq, freqs)
      && Holds(freqbuf[..], freqs) && Holds(slopebuf[..], Slopes(freqs, carrierPerSignal as real))
    }

    /** The frequency of a baseband sample. */
    function Frequency(sample: real): real {
      sample * deltaFreq + carrierFreq
    }

    /** modulate_sample and the cursor update behind it: one more frequency. */
    method ModulateSample(sample: real)
      requires Valid()
      modifies this`writepos, this`lastwritepos, this`lastfreq, this`freqs, freqbuf, slopebuf
      ensures Valid() && freqs == old(freqs) + [Frequency(sample)]
      ensures freqbuf[..] == old(freqbuf[..])[old(writepos) := Frequency(sample)]
    {
      HoldsStep(freqbuf[..], freqs, Frequency(sample));
      SlopeStep(lastwritepos, lastfreq, slopebuf[..], carrierFreq, carrierPerSignal as real, freqs, Frequency(sample));
      NextSlot(|freqs|);
      var freq := sample * deltaFreq;
      freq := freq + carrierFreq;
      var slope := freq - lastfreq;
      slope := slope / carrierPerSignal as real;
      assert freq == Frequency(sample) && slope == SlopeTo(lastfreq, freq, carrierPerSignal as real);
      slopebuf[lastwritepos] := slope;
      assert slopebuf[..] == old(slopebuf[..])[lastwritepos := slope];
      freqbuf[writepos] := freq;
      assert freqbuf[..] == old(freqbuf[..])[writepos := freq];
      lastfreq := freq;
      lastwritepos := writepos;
      writepos := writepos + 1;
      writepos := writepos % BUFFER_SAMPLES;
      freqs := freqs + [freq];
    }

    /** writelen: how many slots may be written before reaching the reader, at most maxlen. */
    method WriteLen(readpos: nat, maxlen: nat) returns (r: nat)
      requires writepos < BUFFER_SAMPLES && readpos < BUFFER_SAMPLES
      ensures r == if Ahead(writepos, readpos) > maxlen then maxlen else Ahead(writepos, readpos)
    {
      var rp := readpos;
      if rp < writepos {
        rp := rp + BUFFER_SAMPLES;
      }
      var len := rp - writepos;
      r := if len > maxlen then maxlen else len;
    }

    /** The frequencies of a batch of audio samples. */
    function Frequencies(audio: seq<int>, rds: Option<seq<real>>): (r: seq<real>)
      requires rds.Some? ==> |rds.value| >= |audio|
      ensures |r| == |audio|
    {
      seq(|audio|, i requires 0 <= i < |audio| =>
        Frequency(Baseband(audio[i], if rds.Some? then Some(rds.value[i]) else None)))
    }

    /** The body of the mono modulator's inner loop. */
    method OneSample(audio: int, rds: Option<real>, ghost before: seq<real>, ghost start: nat, ghost i: nat)
      requires Valid() && |freqs| == start + i && i < BUFFER_SAMPLES
      requires SameFrom(before, freqbuf[..], Slot(start), i)
      modifies this`writepos, this`lastwritepos, this`lastfreq, this`freqs, freqbuf, slopebuf
      ensures Valid() && freqs == old(freqs) + [Frequency(Baseband(audio, rds))]
      ensures SameFrom(before, freqbuf[..], Slot(start), i + 1)
    {
      SameFromStep(before, freqbuf[..], start, i, Frequency(Baseband(audio, rds)));
      var sample := audio as real / 32767.0;
      if rds.Some? {
        sample := sample * 4.0;
        sample := sample + rds.value;
        sample := sample / 5.0;
      }
      assert sample == Baseband(audio, rds);
      ModulateSample(sample);
    }

    /** The inner loop of the mono modulator: one batch of samples. */
    method Batch(audio: seq<int>, rds: Option<seq<real>>)
      requires Valid() && |audio| <= BUFFER_SAMPLES && (rds.Some? ==> |rds.value| >= |audio|)
      modifies this`writepos, this`lastwritepos, this`lastfreq, this`freqs, freqbuf, slopebuf
      ensures Valid() && freqs == old(freqs) + Frequencies(audio, rds)
      ensures SameFrom(old(freqbuf[..]), freqbuf[..], old(writepos), |audio|)
    {
      ghost var start, fs := |freqs|, Frequencies(audio, rds);
      ghost var before := freqbuf[..];
      for i := 0 to |audio|
        invariant Valid() && |freqs| == start + i && freqs == old(freqs) + fs[..i]
        invariant SameFrom(before, freqbuf[..], Slot(start), i)
      {
        OneSample(audio[i], if rds.Some? then Some(rds.value[i]) else None, before, start, i);
        PrefixSnoc(fs, i);
      }
      assert fs[..|audio|] == fs;
    }

    /** One round of the mono modulator; `file` is what is left of the input, `taken` how much it used. */
    method MonoRound(readpos: nat, file: seq<int>, rds: Option<seq<real>>) returns (taken: nat)
      requires Valid() && readpos < BUFFER_SAMPLES && (rds.Some? ==> |rds.value| >= AUDIO_BUF_SIZE)
      modifies this`writepos, this`lastwritepos, this`lastfreq, this`freqs, freqbuf, slopebuf
      ensures Valid() && taken == Taken(old(writepos), readpos, |file|)
      ensures freqs == old(freqs) + Frequencies(file[..taken], rds)
      ensures SameFrom(old(freqbuf[..]), freqbuf[..], old(writepos), Ahead(old(writepos), readpos))
    {
      var len := WriteLen(readpos, AUDIO_BUF_SIZE);
      taken := 0;
      if len > 1 {
        taken := if |file| < len then |file| else len;
        Batch(file[..taken], rds);
      }
    }
  }

  /** Slots at least n ahead of `from` are unchanged. */
  ghost predicate SameFrom(before: seq<real>, after: seq<real>, from: nat, n: int) {
    |before| == |after| == BUFFER_SAMPLES
    && forall p: nat :: p < BUFFER_SAMPLES && Ahead(from, p) >= n ==> after[p] == before[p]
  }

  lemma SameFromStep(before: seq<real>, after: seq<real>, start: nat, i: nat, f: real)
    requires SameFrom(before, after, Slot(start), i) && i < BUFFER_SAMPLES
    ensures SameFrom(before, after[Slot(start + i) := f], Slot(start), i + 1)
  {
    SlotAhead(start, i);
  }

  lemma PrefixSnoc(s: seq<real>, i: nat)
    requires i < |s|
    ensures s[..i + 1] == s[..i] + [s[i]]
  {}

  /** Piecewise-linear continuity: from any live slot, carrierPerSignal steps of its slope lead to the
      frequency of the slot written after it, across batches and around the end of the ring. */
  lemma Continuity(m: Modulator, k: nat)
    requires m.Valid() && Live(k, |m.freqs|) && k + 1 < |m.freqs|
    ensures m.freqbuf[Slot(k)] + m.carrierPerSignal as real * m.slopebuf[Slot(k)] == m.freqbuf[Slot(k + 1)]
  {
    assert Live(k + 1, |m.freqs|);
    assert Live(k, |m.freqs| - 1);
    SlopeLeads(m.freqs, m.carrierPerSignal as real, k);
  }

  /** Silence gives the carrier, full scale the whole deviation, and nothing within full scale more than that. */
  lemma Deviation(m: Modulator, sample: real)
    requires m.deltaFreq > 0.0
    ensures m.Frequency(Baseband(0, None)) == m.carrierFreq
    ensures m.Frequency(Baseband(32767, None)) == m.carrierFreq + m.deltaFreq
    ensures m.carrierFreq - m.deltaFreq <= m.Frequency(sample) <= m.carrierFreq + m.deltaFreq <==> -1.0 <= sample <= 1.0
  {
    assert Baseband(0, None) == 0.0 && Baseband(32767, None) == 1.0;
    Scaled(sample, 1.0, m.deltaFreq);
    Scaled(-1.0, sample, m.deltaFreq);
  }

  lemma Scaled(a: real, b: real, delta: real)
    requires delta > 0.0
    ensures a * delta <= b * delta <==> a <= b
  {
    assert b * delta - a * delta == (b - a) * delta;
  }

  /** The frequencies of a batch, in terms of the samples alone. */
  lemma FrequenciesAre(m: Modulator, audio: seq<int>, rds: seq<real>, i: nat)
    requires i < |audio| <= |rds|
    ensures m.Frequencies(audio, None)[i] == m.carrierFreq + m.deltaFreq * (audio[i] as real / 32767.0)
    ensures m.Frequencies(audio, Some(rds))[i]
         == m.carrierFreq + m.deltaFreq * ((4.0 * (audio[i] as real / 32767.0) + rds[i]) / 5.0)
  {}
}
