/** The RDS sample generator (src/rds_mod.c): a 768-slot overlap-add ring and running indices, against the
    plain convolution of the differentially coded symbols with the biphase waveform. */
module RdsModulator {
  import opened RdsCode
  import opened RdsGroups
  import opened RdsEncoder

  const SAMPLES_PER_BIT := 192
  const FILTER_SIZE := 576
  const SAMPLE_BUFFER_SIZE := 768

  type Waveform = w: seq<real> | |w| == FILTER_SIZE witness seq(FILTER_SIZE, _ => 0.0)

  // ---------- the signal, without buffers ----------

  /** Differential coding: the k-th symbol is inverted if an odd number of the bits up to k are ones. */
  function Inverted(bits: Bits, k: nat): bool
    requires k < |bits|
  {
    if k == 0 then bits[0] else Inverted(bits, k - 1) != bits[k]
  }

  /** What symbol k contributes at position p of the envelope. */
  function Contribution(w: Waveform, bits: Bits, k: nat, p: int): real
    requires k < |bits|
  {
    var j := p - SAMPLES_PER_BIT * k;
    if !(0 <= j < FILTER_SIZE) then 0.0 else if Inverted(bits, k) then -w[j] else w[j]
  }

  /** The superposition of the first n symbols. */
  function Superposed(w: Waveform, bits: Bits, n: nat, p: int): real
    requires n <= |bits|
  {
    if n == 0 then 0.0 else Superposed(w, bits, n - 1, p) + Contribution(w, bits, n - 1, p)
  }

  /** Symbols whose waveform has begun by position p. */
  function Begun(p: int): nat {
    if p < 0 then 0 else p / SAMPLES_PER_BIT + 1
  }

  /** The envelope at position p: at most three waveforms overlap there. */
  function Envelope(w: Waveform, bits: Bits, p: int): real
    requires Begun(p) <= |bits|
  {
    if p < 0 then 0.0 else
      var k := p / SAMPLES_PER_BIT;
      Contribution(w, bits, k, p)
        + (if k >= 1 then Contribution(w, bits, k - 1, p) else 0.0)
        + (if k >= 2 then Contribution(w, bits, k - 2, p) else 0.0)
  }

  /** The carrier phase of sample n, in quarter periods. */
  function Phase(n: nat): nat {
    if n == 0 then 0 else if Phase(n - 1) == 3 then 0 else Phase(n - 1) + 1
  }

  lemma {:induction false} PhaseIs(n: nat)
    ensures Phase(n) == n % 4
  {
    if n > 0 {
      PhaseIs(n - 1);
    }
  }

  /** A quarter period of the carrier is one sample, so it takes the values 0, 1, 0, -1. */
  function OnCarrier(e: real, phase: nat): real {
    if phase == 1 then e else if phase == 3 then -e else 0.0
  }

  /** Sample n: the envelope one sample earlier, on a 57 kHz carrier at a quarter of the sample rate. */
  function Sample(w: Waveform, bits: Bits, n: nat): real
    requires Begun(n - 1) <= |bits|
  {
    OnCarrier(Envelope(w, bits, n - 1), Phase(n))
  }

  lemma {:induction false} FarSymbolsSilent(w: Waveform, bits: Bits, n: nat, p: int)
    requires n <= |bits| && SAMPLES_PER_BIT * (n + 2) <= p
    ensures Superposed(w, bits, n, p) == 0.0
  {
    if n > 0 {
      FarSymbolsSilent(w, bits, n - 1, p);
    }
  }

  /** The superposition of any number of symbols that includes all begun ones is the three-tap envelope. */
  lemma {:induction false} SuperposedIsEnvelope(w: Waveform, bits: Bits, n: nat, p: int)
    requires Begun(p) <= n <= |bits|
    ensures Superposed(w, bits, n, p) == Envelope(w, bits, p)
  {
    if n > Begun(p) {
      SuperposedIsEnvelope(w, bits, n - 1, p);
    } else if p >= 0 {
      var k := p / SAMPLES_PER_BIT;
      assert Superposed(w, bits, k + 1, p) == Superposed(w, bits, k, p) + Contribution(w, bits, k, p);
      if k >= 1 {
        assert Superposed(w, bits, k, p) == Superposed(w, bits, k - 1, p) + Contribution(w, bits, k - 1, p);
      }
      if k >= 2 {
        assert Superposed(w, bits, k - 1, p) == Superposed(w, bits, k - 2, p) + Contribution(w, bits, k - 2, p);
        FarSymbolsSilent(w, bits, k - 2, p);
      }
    }
  }

  // ---------- what the samples are, in numbers ----------

  /** The number of ones among bits. */
  function Ones(bits: Bits): nat {
    if bits == [] then 0 else Ones(bits[..|bits| - 1]) + if bits[|bits| - 1] then 1 else 0
  }

  lemma {:induction false} InvertedIsParity(bits: Bits, k: nat)
    requires k < |bits|
    ensures Inverted(bits, k) <==> Ones(bits[..k + 1]) % 2 == 1
  {
    assert bits[..k + 1][..k] == bits[..k];
    if k > 0 {
      InvertedIsParity(bits, k - 1);
    }
  }

  /** Symbol k adds the 576 samples of the waveform from sample 192 k on, with the sign that the parity of the bits up
      to it says, and nothing anywhere else. */
  lemma SymbolAdds(w: Waveform, bits: Bits, k: nat, p: int)
    requires k < |bits|
    ensures Superposed(w, bits, 0, p) == 0.0
    ensures Superposed(w, bits, k + 1, p) - Superposed(w, bits, k, p)
         == if p < 192 * k || p >= 192 * k + 576 then 0.0
            else if Ones(bits[..k + 1]) % 2 == 0 then w[p - 192 * k] else 0.0 - w[p - 192 * k]
  {
    InvertedIsParity(bits, k);
  }

  /** The samples are the superposition, one sample late, times 0, 1, 0, -1 for ever; any number k of symbols that
      includes those begun gives the same superposition. */
  lemma SampleIs(w: Waveform, bits: Bits, n: nat, k: nat)
    requires Begun(n - 1) <= k <= |bits|
    ensures n % 2 == 0 ==> Sample(w, bits, n) == 0.0
    ensures n % 4 == 1 ==> Sample(w, bits, n) == Superposed(w, bits, k, n - 1)
    ensures n % 4 == 3 ==> Sample(w, bits, n) == 0.0 - Superposed(w, bits, k, n - 1)
  {
    PhaseIs(n);
    SuperposedIsEnvelope(w, bits, k, n - 1);
  }

  /** The symbols begun by position p are those whose 192 k does not exceed it. */
  lemma BegunIs(p: nat, k: nat)
    ensures k < Begun(p) <==> 192 * k <= p
  {}

  /** Multiplying by the carrier once more gives every second sample of the superposition back. */
  lemma Demodulated(w: Waveform, bits: Bits, n: nat, k: nat)
    requires Begun(n - 1) <= k <= |bits| && n % 2 == 1
    ensures (if n % 4 == 1 then 1.0 else -1.0) * Sample(w, bits, n) == Superposed(w, bits, k, n - 1)
  {
    SampleIs(w, bits, n, k);
  }

  lemma {:induction false} InvertedStable(bits: Bits, more: Bits, k: nat)
    requires k < |bits|
    ensures Inverted(bits + more, k) == Inverted(bits, k)
  {
    if k > 0 {
      InvertedStable(bits, more, k - 1);
    }
  }

  lemma {:induction false} SuperposedStable(w: Waveform, bits: Bits, more: Bits, n: nat, p: int)
    requires n <= |bits|
    ensures Superposed(w, bits + more, n, p) == Superposed(w, bits, n, p)
  {
    if n > 0 {
      SuperposedStable(w, bits, more, n - 1, p);
      InvertedStable(bits, more, n - 1);
    }
  }

  /** Later bits do not change samples that were already determined. */
  lemma SampleStable(w: Waveform, bits: Bits, more: Bits, n: nat)
    requires Begun(n - 1) <= |bits|
    ensures Sample(w, bits + more, n) == Sample(w, bits, n)
  {
    SuperposedIsEnvelope(w, bits, Begun(n - 1), n - 1);
    SuperposedIsEnvelope(w, bits + more, Begun(n - 1), n - 1);
    SuperposedStable(w, bits, more, Begun(n - 1), n - 1);
  }

  // ---------- differential decoding ----------

  /** The symbols on the air; a receiver may see all of them with the wrong sign. */
  function Symbols(bits: Bits, flipped: bool): (r: Bits)
    ensures |r| == |bits|
  {
    seq(|bits|, k requires 0 <= k < |bits| => Inverted(bits, k) != flipped)
  }

  /** A receiver compares each symbol with the one before it. */
  function Decoded(symbols: Bits): Bits {
    if |symbols| < 2 then [] else Decoded(symbols[..|symbols| - 1]) + [symbols[|symbols| - 1] != symbols[|symbols| - 2]]
  }

  /** All bits but the first come back, whatever the polarity. */
  lemma {:induction false} DifferentialDecoding(bits: Bits, flipped: bool)
    requires bits != []
    ensures Decoded(Symbols(bits, flipped)) == bits[1..]
  {
    var n, s := |bits| - 1, Symbols(bits, flipped);
    if n > 0 {
      DifferentialDecoding(bits[..n], flipped);
      forall k | 0 <= k < n
        ensures s[..n][k] == Symbols(bits[..n], flipped)[k]
      {
        InvertedStable(bits[..n], bits[n..], k);
        assert bits[..n] + bits[n..] == bits;
      }
      assert s[..n] == Symbols(bits[..n], flipped);
    }
  }

  // ---------- the groups behind the bits ----------

  /** m more groups, the i-th requested when the clock reads clock(i): the encoder's state and the bit
      stream behind them. */
  function MoreBits(p: Params, s: State, bits: Bits, clock: nat -> Reading, m: nat): (r: (State, Bits))
    requires InRange(s)
    ensures InRange(r.0) && bits <= r.1
  {
    if m == 0 then (s, bits)
    else
      OneMore(p, MoreBits(p, s, bits, clock, m - 1), clock(m - 1))
  }

  /** One more group, requested at `now`. */
  function OneMore(p: Params, before: (State, Bits), now: Reading): (r: (State, Bits))
    requires InRange(before.0)
    ensures InRange(r.0) && before.1 <= r.1
  {
    var next := Generate(p, before.0, now);
    (next.0, before.1 + GroupBits(next.1))
  }

  // ---------- the ring ----------

  function Wrap(i: nat): nat
    requires i < 2 * SAMPLE_BUFFER_SIZE
  {
    if i >= SAMPLE_BUFFER_SIZE then i - SAMPLE_BUFFER_SIZE else i
  }

  /** The ring index i places behind `base`. */
  function Slot(base: nat, i: nat): (r: nat)
    requires base < SAMPLE_BUFFER_SIZE && i < SAMPLE_BUFFER_SIZE
    ensures r < SAMPLE_BUFFER_SIZE
  {
    Wrap(base + i)
  }

  /** Slot i of the ring, counted from the read index, holds what the first k symbols have added up to at
      position n - 1 + i: the ring is a window of 768 positions on the unbounded superposition. */
  ghost predicate Window(ring: seq<real>, out: nat, w: Waveform, bits: Bits, k: nat, n: nat) {
    && |ring| == SAMPLE_BUFFER_SIZE && out < SAMPLE_BUFFER_SIZE && k <= |bits|
    && forall i :: 0 <= i < SAMPLE_BUFFER_SIZE ==> ring[Slot(out, i)] == Superposed(w, bits, k, n - 1 + i)
  }

  /** The bit cursor points at bit number `symbols` of the stream, and the coder remembers the symbol before. */
  ghost predicate BitCursor(sent: Bits, symbols: nat, bitPos: nat, coded: bool, buffer: seq<bool>) {
    && |buffer| == BITS_PER_GROUP
    && bitPos <= BITS_PER_GROUP && symbols + BITS_PER_GROUP == |sent| + bitPos
    && coded == (symbols > 0 && Inverted(sent, symbols - 1))
    && (bitPos < BITS_PER_GROUP ==> |sent| >= BITS_PER_GROUP && buffer == sent[|sent| - BITS_PER_GROUP..])
  }

  /** How the two ring indices follow from the numbers of symbols and samples. */
  ghost predicate RingCursor(symbols: nat, samples: nat, sampleCount: nat, in': nat, out: nat) {
    && sampleCount <= SAMPLES_PER_BIT && samples + SAMPLES_PER_BIT == SAMPLES_PER_BIT * symbols + sampleCount
    && out < SAMPLE_BUFFER_SIZE && in' == Wrap(out + 1 + SAMPLES_PER_BIT - sampleCount)
  }

  ghost predicate IsSample(w: Waveform, bits: Bits, n: nat, x: real) {
    Begun(n - 1) <= |bits| && x == Sample(w, bits, n)
  }

  /** Every sample is the sample of the unbuffered signal at its place. */
  ghost predicate IsSignal(w: Waveform, bits: Bits, signal: seq<real>) {
    forall n :: 0 <= n < |signal| ==> IsSample(w, bits, n, signal[n])
  }

  lemma SignalSnoc(w: Waveform, bits: Bits, signal: seq<real>, x: real)
    requires IsSignal(w, bits, signal) && IsSample(w, bits, |signal|, x)
    ensures IsSignal(w, bits, signal + [x])
  {}

  lemma SignalStable(w: Waveform, bits: Bits, more: Bits, signal: seq<real>)
    requires IsSignal(w, bits, signal)
    ensures IsSignal(w, bits + more, signal)
  {
    forall n | 0 <= n < |signal|
      ensures IsSample(w, bits + more, n, signal[n])
    {
      assert IsSample(w, bits, n, signal[n]);
      SampleStable(w, bits, more, n);
    }
  }

  /** A freshly fetched group extends the stream; the cursor moves to its first bit. */
  lemma BitCursorFetch(sent: Bits, symbols: nat, coded: bool, buffer: seq<bool>, more: Bits)
    requires BitCursor(sent, symbols, BITS_PER_GROUP, coded, buffer) && |more| == BITS_PER_GROUP
    ensures BitCursor(sent + more, symbols, 0, coded, more)
  {
    if symbols > 0 {
      InvertedStable(sent, more, symbols - 1);
    }
  }

  /** Coding the bit under the cursor. */
  lemma BitCursorStep(sent: Bits, symbols: nat, bitPos: nat, coded: bool, buffer: seq<bool>)
    requires BitCursor(sent, symbols, bitPos, coded, buffer) && bitPos < BITS_PER_GROUP
    ensures symbols < |sent| && (coded != buffer[bitPos]) == Inverted(sent, symbols)
    ensures BitCursor(sent, symbols + 1, bitPos + 1, Inverted(sent, symbols), buffer)
  {
    assert symbols == |sent| - BITS_PER_GROUP + bitPos;
    assert buffer[bitPos] == sent[symbols];
  }

  class Modulator {
    const encoder: Encoder
    const waveform: Waveform
    const bitBuffer: array<bool>
    const sampleBuffer: array<real>
    var bitPos: nat
    var curOutput: bool
    var sampleCount: nat
    var phase: nat
    var inSampleIndex: nat
    var outSampleIndex: nat
    ghost var symbols: nat          // bits taken from the stream
    ghost var sent: Bits            // all bits of the groups fetched so far
    ghost var samples: nat          // samples put out
    ghost var signal: seq<real>     // those samples

    constructor (encoder: Encoder, waveform: Waveform)
      requires encoder.Valid()
      ensures Valid() && fresh(bitBuffer) && fresh(sampleBuffer)
      ensures this.encoder == encoder && this.waveform == waveform && sent == [] && signal == []
    {
      this.encoder, this.waveform := encoder, waveform;
      bitBuffer := new bool[BITS_PER_GROUP](_ => false);
      sampleBuffer := new real[SAMPLE_BUFFER_SIZE](_ => 0.0);
      bitPos, curOutput, sampleCount, phase := BITS_PER_GROUP, false, SAMPLES_PER_BIT, 0;
      inSampleIndex, outSampleIndex := 0, SAMPLE_BUFFER_SIZE - 1;
      sent, symbols, samples, signal := [], 0, 0, [];
    }

    ghost predicate BitsInStep()
      reads this`bitPos, this`symbols, this`curOutput, this`sent, bitBuffer
    {
      BitCursor(sent, symbols, bitPos, curOutput, bitBuffer[..])
    }

    ghost predicate RingInStep()
      reads this`outSampleIndex, this`inSampleIndex, this`sampleCount, this`samples, this`symbols, this`sent
      reads sampleBuffer
    {
      && RingCursor(symbols, samples, sampleCount, inSampleIndex, outSampleIndex)
      && Window(sampleBuffer[..], outSampleIndex, waveform, sent, symbols, samples)
    }

    ghost predicate Valid()
      reads this, encoder, bitBuffer, sampleBuffer
    {
      && encoder.Valid() && BitsInStep() && RingInStep() && phase == Phase(samples)
      && phase < 4 && |signal| == samples && IsSignal(waveform, sent, signal)
    }

    /** Adds one waveform to the ring, wrapping at its end. */
    method AddWaveform(inverting: bool)
      requires sampleBuffer.Length == SAMPLE_BUFFER_SIZE && inSampleIndex < SAMPLE_BUFFER_SIZE
      modifies sampleBuffer
      ensures forall i :: 0 <= i < SAMPLE_BUFFER_SIZE ==>
        sampleBuffer[Slot(inSampleIndex, i)] == old(sampleBuffer[Slot(inSampleIndex, i)]) + Tap(waveform, inverting, i)
    {
      var idx := inSampleIndex;
      for j := 0 to FILTER_SIZE
        invariant idx == Slot(inSampleIndex, j)
        invariant forall i :: 0 <= i < SAMPLE_BUFFER_SIZE ==>
          sampleBuffer[Slot(inSampleIndex, i)]
            == old(sampleBuffer[Slot(inSampleIndex, i)]) + (if i < j then Tap(waveform, inverting, i) else 0.0)
      {
        var val := waveform[j];
        if inverting {
          val := -val;
        }
        sampleBuffer[idx] := sampleBuffer[idx] + val;
        idx := idx + 1;
        if idx >= SAMPLE_BUFFER_SIZE {
          idx := 0;
        }
      }
    }

    /** Adds the waveform of symbol `symbols` and moves the write index one symbol on. */
    method PlaceSymbol(inverting: bool)
      requires RingInStep() && sampleCount == SAMPLES_PER_BIT && symbols < |sent|
      requires inverting == Inverted(sent, symbols)
      modifies this`inSampleIndex, this`sampleCount, this`symbols, sampleBuffer
      ensures RingInStep() && sampleCount == 0 && symbols == old(symbols) + 1
    {
      ghost var ring := sampleBuffer[..];
      AddWaveform(inverting);
      WindowAdd(ring, sampleBuffer[..], outSampleIndex, inSampleIndex, waveform, sent, symbols, samples);
      inSampleIndex := inSampleIndex + SAMPLES_PER_BIT;
      if inSampleIndex >= SAMPLE_BUFFER_SIZE {
        inSampleIndex := inSampleIndex - SAMPLE_BUFFER_SIZE;
      }
      sampleCount := 0;
      symbols := symbols + 1;
    }

    /** Reads one position out of the ring and clears its slot for reuse. */
    method ReadSlot() returns (sample: real)
      requires RingInStep() && sampleCount < SAMPLES_PER_BIT
      modifies this`sampleCount, this`outSampleIndex, this`samples, sampleBuffer
      ensures RingInStep() && samples == old(samples) + 1
      ensures Begun(old(samples) - 1) <= |sent| && sample == Envelope(waveform, sent, old(samples) - 1)
    {
      SuperposedIsEnvelope(waveform, sent, symbols, samples - 1);
      sample := sampleBuffer[Slot(outSampleIndex, 0)];
      WindowAdvance(sampleBuffer[..], outSampleIndex, waveform, sent, symbols, samples);
      sampleBuffer[outSampleIndex] := 0.0;
      outSampleIndex := outSampleIndex + 1;
      if outSampleIndex >= SAMPLE_BUFFER_SIZE {
        outSampleIndex := 0;
      }
      sampleCount := sampleCount + 1;
      samples := samples + 1;
    }

    method Modulate(e: real) returns (sample: real)
      requires phase < 4
      modifies this`phase
      ensures sample == OnCarrier(e, old(phase)) && phase == if old(phase) == 3 then 0 else old(phase) + 1
    {
      match phase {
        case 1 => sample := e;
        case 3 => sample := -e;
        case _ => sample := 0.0;
      }
      phase := phase + 1;
      if phase >= 4 {
        phase := 0;
      }
    }

    /** One sample: the envelope on the 57 kHz carrier. */
    method EmitSample() returns (sample: real)
      requires Valid() && sampleCount < SAMPLES_PER_BIT
      modifies this`sampleCount, this`outSampleIndex, this`phase, this`samples, this`signal, sampleBuffer
      ensures Valid() && signal == old(signal) + [sample]
    {
      var e := ReadSlot();
      sample := Modulate(e);
      assert sample == Sample(waveform, sent, old(samples));
      SignalSnoc(waveform, sent, signal, sample);
      signal := signal + [sample];
    }

    /** The state of the encoder and the bits it has produced. */
    ghost function Source(): (State, Bits)
      reads this`sent, encoder
    {
      (encoder.St(), sent)
    }

    /** The encoder has produced the groups behind `before` by running from `from`, reading `clock`. */
    ghost predicate Continues(p: Params, from: State, before: Bits, clock: nat -> Reading, fetched: nat)
      requires InRange(from)
      reads this`sent, encoder, encoder.ps, encoder.rt
    {
      encoder.Valid() && encoder.Settings() == p && Source() == MoreBits(p, from, before, clock, fetched)
    }

    /** Fetches group g; all bits of the last one have been used up. */
    method FetchGroup(clock: nat -> Reading, g: nat, ghost p: Params, ghost from: State, ghost before: Bits)
      requires Valid() && bitPos == BITS_PER_GROUP && InRange(from) && Continues(p, from, before, clock, g)
      modifies this`bitPos, this`sent, bitBuffer
      modifies encoder`state, encoder`psState, encoder`rtState, encoder`latestMinutes
      ensures Valid() && bitPos == 0 && Continues(p, from, before, clock, g + 1)
    {
      ghost var group := encoder.GetGroup(bitBuffer, clock(g));
      BitCursorFetch(sent, symbols, curOutput, old(bitBuffer[..]), GroupBits(group));
      WindowExtend(sampleBuffer[..], outSampleIndex, waveform, sent, GroupBits(group), symbols, samples);
      SignalStable(waveform, sent, GroupBits(group), signal);
      sent := sent + GroupBits(group);
      bitPos := 0;
    }

    /** Encodes the next bit differentially. */
    method CodeBit()
      requires BitsInStep() && bitPos < BITS_PER_GROUP
      modifies this`curOutput
      ensures symbols < |sent| && curOutput == Inverted(sent, symbols)
      ensures BitCursor(sent, symbols + 1, bitPos + 1, curOutput, bitBuffer[..])
    {
      BitCursorStep(sent, symbols, bitPos, curOutput, bitBuffer[..]);
      var curBit := bitBuffer[bitPos];
      var prevOutput := curOutput;
      curOutput := prevOutput != curBit;
    }

    /** Takes the next bit, encodes it differentially and adds its waveform. */
    method AddSymbol()
      requires Valid() && bitPos < BITS_PER_GROUP && sampleCount == SAMPLES_PER_BIT
      modifies this`bitPos, this`curOutput, this`sampleCount, this`inSampleIndex, this`symbols, sampleBuffer
      ensures Valid() && sampleCount == 0 && bitPos == old(bitPos) + 1
      ensures encoder.Settings() == old(encoder.Settings()) && Source() == old(Source())
    {
      CodeBit();
      PlaceSymbol(curOutput);
      bitPos := bitPos + 1;
    }

    /** The next group is fetched when all bits of the last one have been used up; g groups have been fetched before,
        g' after. */
    method Refill(clock: nat -> Reading, g: nat, ghost p: Params, ghost from: State, ghost before: Bits)
      returns (g': nat)
      requires Valid() && InRange(from) && Continues(p, from, before, clock, g)
      modifies this`bitPos, this`sent, bitBuffer
      modifies encoder`state, encoder`psState, encoder`rtState, encoder`latestMinutes
      ensures Valid() && bitPos < BITS_PER_GROUP && Continues(p, from, before, clock, g')
    {
      g' := g;
      if bitPos >= BITS_PER_GROUP {
        FetchGroup(clock, g, p, from, before);
        g' := g + 1;
      }
    }

    /** Gets the modulator ready to put out a sample: adds the next symbol if it is due. */
    method Prepare(clock: nat -> Reading, g: nat, ghost p: Params, ghost from: State, ghost before: Bits)
      returns (g': nat)
      requires Valid() && InRange(from) && Continues(p, from, before, clock, g)
      modifies this, bitBuffer, sampleBuffer
      modifies encoder`state, encoder`psState, encoder`rtState, encoder`latestMinutes
      ensures Valid() && sampleCount < SAMPLES_PER_BIT && signal == old(signal)
      ensures Continues(p, from, before, clock, g')
    {
      g' := g;
      if sampleCount >= SAMPLES_PER_BIT {
        g' := Refill(clock, g, p, from, before);
        AddSymbol();
      }
    }

    /** One round of the sample loop, including the write to the caller's buffer. */
    method Round(buffer: array<real>, i: nat, clock: nat -> Reading, g: nat,
                 ghost p: Params, ghost from: State, ghost before: Bits)
      returns (sample: real, g': nat)
      requires Valid() && i < buffer.Length && buffer != sampleBuffer
      requires InRange(from) && Continues(p, from, before, clock, g)
      modifies this, bitBuffer, sampleBuffer, buffer
      modifies encoder`state, encoder`psState, encoder`rtState, encoder`latestMinutes
      ensures Valid() && Continues(p, from, before, clock, g')
      ensures signal == old(signal) + [sample] && buffer[..] == old(buffer[..])[i := sample]
    {
      g' := Prepare(clock, g, p, from, before);
      sample := EmitSample();
      Put(buffer, i, sample);
    }

    /** Writing to the caller's buffer leaves the modulator alone. */
    method Put(buffer: array<real>, i: nat, sample: real)
      requires Valid() && i < buffer.Length && buffer != sampleBuffer
      modifies buffer
      ensures Valid() && encoder.Settings() == old(encoder.Settings())
      ensures buffer[..] == old(buffer[..])[i := sample]
    {
      buffer[i] := sample;
      assert encoder.ps[..] == old(encoder.ps[..]) && encoder.rt[..] == old(encoder.rt[..]);
    }

    /** Fills `buffer` with the next `count` samples; clock(i) is the time read for the i-th group it needs. */
    method GetSamples(buffer: array<real>, count: nat, clock: nat -> Reading) returns (ghost fetched: nat)
      requires Valid() && count <= buffer.Length && buffer != sampleBuffer
      modifies this, bitBuffer, sampleBuffer, buffer
      modifies encoder`state, encoder`psState, encoder`rtState, encoder`latestMinutes
      ensures Valid() && Continues(old(encoder.Settings()), old(encoder.St()), old(sent), clock, fetched)
      ensures signal == old(signal) + buffer[..count] && buffer[count..] == old(buffer[count..])
    {
      ghost var p, from, before := encoder.Settings(), encoder.St(), sent;
      ghost var was, earlier := buffer[..], signal;
      var g := 0;
      for i := 0 to count
        invariant Valid() && Continues(p, from, before, clock, g)
        invariant signal == earlier + buffer[..i] && buffer[i..] == was[i..]
      {
        ghost var now := buffer[..];
        var sample;
        sample, g := Round(buffer, i, clock, g, p, from, before);
        PutStep(now, buffer[..], i, sample, was, earlier);
      }
      fetched := g;
    }
  }

  lemma PutStep(before: seq<real>, after: seq<real>, i: nat, x: real, was: seq<real>, earlier: seq<real>)
    requires i < |before| == |was| && after == before[i := x] && before[i..] == was[i..]
    ensures earlier + before[..i] + [x] == earlier + after[..i + 1] && after[i + 1..] == was[i + 1..]
  {
    assert after[..i + 1] == before[..i] + [x];
    assert after[i + 1..] == before[i..][1..] == was[i..][1..];
  }

  /** What position i of a waveform adds, if it is that long. */
  function Tap(w: Waveform, inverting: bool, i: nat): real {
    if i >= FILTER_SIZE then 0.0 else if inverting then -w[i] else w[i]
  }

  lemma WindowExtend(ring: seq<real>, out: nat, w: Waveform, bits: Bits, more: Bits, k: nat, n: nat)
    requires Window(ring, out, w, bits, k, n)
    ensures Window(ring, out, w, bits + more, k, n)
  {
    forall i | 0 <= i < SAMPLE_BUFFER_SIZE
      ensures ring[Slot(out, i)] == Superposed(w, bits + more, k, n - 1 + i)
    {
      SuperposedStable(w, bits, more, k, n - 1 + i);
    }
  }

  /** A new symbol occupies positions n to n + 575, which the window holds at slots in, in + 1, ... */
  lemma WindowAdd(ring: seq<real>, ring': seq<real>, out: nat, in': nat, w: Waveform, bits: Bits, k: nat, n: nat)
    requires Window(ring, out, w, bits, k, n) && k < |bits| && n == SAMPLES_PER_BIT * k
    requires |ring'| == SAMPLE_BUFFER_SIZE && in' == Wrap(out + 1)
    requires forall i :: 0 <= i < SAMPLE_BUFFER_SIZE ==>
      ring'[Slot(in', i)] == ring[Slot(in', i)] + Tap(w, Inverted(bits, k), i)
    ensures Window(ring', out, w, bits, k + 1, n)
  {
    forall i | 0 <= i < SAMPLE_BUFFER_SIZE
      ensures ring'[Slot(out, i)] == Superposed(w, bits, k + 1, n - 1 + i)
    {
      var j := if i == 0 then SAMPLE_BUFFER_SIZE - 1 else i - 1;
      assert Slot(in', j) == Slot(out, i);
      assert Contribution(w, bits, k, n - 1 + i) == Tap(w, Inverted(bits, k), j);
    }
  }

  /** The slot just read comes to stand for the position 768 further on, which no symbol has reached yet. */
  lemma WindowAdvance(ring: seq<real>, out: nat, w: Waveform, bits: Bits, k: nat, n: nat)
    requires Window(ring, out, w, bits, k, n) && SAMPLES_PER_BIT * k <= n + SAMPLES_PER_BIT
    ensures Window(ring[out := 0.0], Wrap(out + 1), w, bits, k, n + 1)
  {
    var out' := Wrap(out + 1);
    forall i | 0 <= i < SAMPLE_BUFFER_SIZE
      ensures ring[out := 0.0][Slot(out', i)] == Superposed(w, bits, k, n + i)
    {
      if i < SAMPLE_BUFFER_SIZE - 1 {
        assert Slot(out', i) == Slot(out, i + 1);
      } else {
        FarSymbolsSilent(w, bits, k, n + i);
      }
    }
  }
}
