/** The byte layout of a transfer (src/libosmo-fl2k.c, fl2k_convert_r/g/b): three loops scatter the red,
    green and blue channels over every group of 24 bytes. */
module Scatter {
  type Byte = c: int | 0 <= c < 256

  const GROUP := 24

  datatype Channel = Blue | Green | Red

  function Lane(c: Channel): nat {
    match c case Blue => 0 case Green => 1 case Red => 2
  }

  function ChannelOfLane(lane: nat): Channel {
    if lane == 0 then Blue else if lane == 1 then Green else Red
  }

  /** i with its bit of weight 4 flipped: the two halves of every eight positions trade places. */
  function Xor4(i: nat): nat {
    8 * (i / 8) + (i % 8 + 4) % 8
  }

  /** It is the exclusive or with 4, which leaves all bits from the third on alone. */
  lemma Xor4IsXor(i: nat)
    ensures Xor4(i) == 8 * (i / 8) + ((i % 8) as bv8 ^ 4) as nat
  {
    assert i % 8 in {0, 1, 2, 3, 4, 5, 6, 7};
  }

  /** Where sample k of a channel goes: its place in a packed B, G, R stream, with index bit 2 flipped. */
  function Place(c: Channel, k: nat): nat {
    Xor4(3 * k + Lane(c))
  }

  /** The channel and sample number a byte position belongs to. */
  function Origin(i: nat): (Channel, nat) {
    var j := Xor4(i);
    (ChannelOfLane(j % 3), j / 3)
  }

  lemma Xor4Involutive(i: nat)
    ensures Xor4(Xor4(i)) == i
  {
    assert Xor4(i) / 8 == i / 8 && Xor4(i) % 8 == (i % 8 + 4) % 8;
  }

  lemma Xor4StaysBelow(i: nat, m: nat)
    ensures i < 8 * m <==> Xor4(i) < 8 * m
  {}

  lemma OriginOfPlace(c: Channel, k: nat)
    ensures Origin(Place(c, k)) == (c, k)
  {
    Xor4Involutive(3 * k + Lane(c));
    DivMod3(k, Lane(c));
  }

  lemma DivMod3(k: nat, l: nat)
    requires l < 3
    ensures (3 * k + l) / 3 == k && (3 * k + l) % 3 == l
  {}

  lemma PlaceOfOrigin(i: nat)
    ensures Place(Origin(i).0, Origin(i).1) == i
  {
    Xor4Involutive(i);
  }

  /** Place and Origin are inverse to each other, so the layout is a bijection between the samples of the
      three channels and the bytes of the transfer, for every whole number of groups. */
  lemma PlaceBijective(c: Channel, k: nat, i: nat, n: nat)
    ensures Origin(Place(c, k)) == (c, k)
    ensures Place(Origin(i).0, Origin(i).1) == i
    ensures k < 8 * n <==> Place(c, k) < GROUP * n
  {
    OriginOfPlace(c, k);
    PlaceOfOrigin(i);
    Xor4StaysBelow(3 * k + Lane(c), 3 * n);
  }

  /** Signed samples are moved to the unsigned range of the DAC. */
  function Shift(x: Byte, offset: Byte): Byte {
    (x + offset) % 256
  }

  /** With offset 128 the two's complement of s becomes s + 128, and without an offset a byte stays as it is. */
  lemma ShiftIs(s: int, x: Byte)
    requires -128 <= s < 128
    ensures Shift(s % 256, 128) == s + 128 && Shift(x, 0) == x
  {}

  /** What one converter makes of the transfer buffer. */
  function Scattered(out: seq<Byte>, c: Channel, samples: seq<Byte>, offset: Byte): (r: seq<Byte>)
    requires |out| % GROUP == 0 && |samples| * 3 >= |out|
    ensures |r| == |out|
  {
    seq(|out|, i requires 0 <= i < |out| =>
      if Origin(i).0 == c then (OriginInRange(i, |out|); Shift(samples[Origin(i).1], offset)) else out[i])
  }

  lemma OriginInRange(i: nat, len: nat)
    requires len % GROUP == 0 && i < len
    ensures 3 * Origin(i).1 < len
  {
    assert len == 8 * (len / 8);
    Xor4StaysBelow(i, len / 8);
  }

  // ---------- the converters ----------

  /** The offsets of eight consecutive samples of a channel within a group of 24 bytes, as the loops list them. */
  function Offsets(c: Channel): seq<int> {
    match c
    case Red => [6, 1, 12, 15, 10, 21, 16, 19]
    case Green => [5, 0, 3, 14, 9, 20, 23, 18]
    case Blue => [4, 7, 2, 13, 8, 11, 22, 17]
  }

  /** The listed offsets are the packed B, G, R order with index bit 2 flipped. */
  lemma OffsetsArePlaces(c: Channel, g: nat, t: nat)
    requires t < 8
    ensures GROUP * g + Offsets(c)[t] == Place(c, 8 * g + t)
  {
    var j := 3 * t + Lane(c);
    Xor4Shift(3 * g, j);
    OffsetsTable(c, t);
    assert 3 * (8 * g + t) + Lane(c) == 8 * (3 * g) + j;
  }

  lemma Xor4Shift(a: nat, j: nat)
    ensures Xor4(8 * a + j) == 8 * a + Xor4(j)
  {
    assert (8 * a + j) / 8 == a + j / 8 && (8 * a + j) % 8 == j % 8;
  }

  lemma OffsetsTable(c: Channel, t: nat)
    requires t < 8
    ensures Offsets(c)[t] == Xor4(3 * t + Lane(c))
  {
    assert t == 0 || t == 1 || t == 2 || t == 3 || t == 4 || t == 5 || t == 6 || t == 7;
  }

  /** A channel buffer, if there is one, is long enough for the transfer. */
  predicate Fits(input: array?<Byte>, out: array<Byte>) {
    input != null ==> input != out && input.Length * 3 >= out.Length
  }

  /** The effect of one converter; without a channel buffer it leaves the transfer as it is. */
  ghost function Converted(out: seq<Byte>, c: Channel, input: array?<Byte>, offset: Byte): (r: seq<Byte>)
    requires |out| % GROUP == 0 && (input != null ==> input.Length * 3 >= |out|)
    reads input
    ensures |r| == |out|
  {
    if input == null then out else Scattered(out, c, input[..], offset)
  }

  /** The buffer when a converter has treated the first g groups. */
  function ScatteredUpTo(out: seq<Byte>, c: Channel, samples: seq<Byte>, offset: Byte, g: nat): (r: seq<Byte>)
    requires |out| % GROUP == 0 && |samples| * 3 >= |out|
    ensures |r| == |out|
  {
    seq(|out|, i requires 0 <= i < |out| =>
      if i < GROUP * g then Scattered(out, c, samples, offset)[i] else out[i])
  }

  ghost predicate At(after: seq<Byte>, c: Channel, samples: seq<Byte>, offset: Byte, g: nat, t: nat)
    requires GROUP * (g + 1) <= |after| && |samples| >= 8 * (g + 1) && t < 8
  {
    after[GROUP * g + Offsets(c)[t]] == Shift(samples[8 * g + t], offset)
  }

  lemma AllEight(after: seq<Byte>, c: Channel, samples: seq<Byte>, offset: Byte, g: nat)
    requires GROUP * (g + 1) <= |after| && |samples| >= 8 * (g + 1)
    requires At(after, c, samples, offset, g, 0) && At(after, c, samples, offset, g, 1)
    requires At(after, c, samples, offset, g, 2) && At(after, c, samples, offset, g, 3)
    requires At(after, c, samples, offset, g, 4) && At(after, c, samples, offset, g, 5)
    requires At(after, c, samples, offset, g, 6) && At(after, c, samples, offset, g, 7)
    ensures forall t :: 0 <= t < 8 ==> At(after, c, samples, offset, g, t)
  {}

  /** What one round of a converter loop does: the eight listed bytes change, no others. */
  ghost predicate GroupWritten(before: seq<Byte>, after: seq<Byte>, c: Channel, samples: seq<Byte>, offset: Byte,
                               g: nat)
    requires GROUP * (g + 1) <= |before| && |samples| >= 8 * (g + 1)
  {
    && |after| == |before|
    && (forall t :: 0 <= t < 8 ==> At(after, c, samples, offset, g, t))
    && (forall i :: 0 <= i < |before| && i - GROUP * g !in Offsets(c) ==> after[i] == before[i])
  }

  /** The byte positions of a channel within a group are exactly the listed ones. */
  lemma OriginInGroup(i: nat)
    ensures var c, t := Origin(i).0, Origin(i).1 - 8 * (i / GROUP);
      0 <= t < 8 && i == GROUP * (i / GROUP) + Offsets(c)[t]
  {
    var g, r := i / GROUP, i % GROUP;
    assert i == 8 * (3 * g) + r;
    OriginAt(g, r);
    TableAt(r);
  }

  /** Groups repeat: a position r places into group g. */
  lemma OriginAt(g: nat, r: nat)
    ensures Origin(8 * (3 * g) + r) == (ChannelOfLane(Xor4(r) % 3), 8 * g + Xor4(r) / 3)
  {
    Xor4Shift(3 * g, r);
    OriginSplit(g, Xor4(r));
  }

  lemma OriginSplit(g: nat, x: nat)
    ensures (8 * (3 * g) + x) / 3 == 8 * g + x / 3 && (8 * (3 * g) + x) % 3 == x % 3
  {}

  /** Within a group, every position is the listed one of its channel. */
  lemma TableAt(r: nat)
    requires r < GROUP
    ensures Xor4(r) / 3 < 8 && Offsets(ChannelOfLane(Xor4(r) % 3))[Xor4(r) / 3] == r
  {
    var x, c := Xor4(r), ChannelOfLane(Xor4(r) % 3);
    Xor4StaysBelow(r, 3);
    Xor4Involutive(r);
    OffsetsTable(c, x / 3);
    assert 3 * (x / 3) + Lane(c) == x;
  }

  lemma ListedOrigin(c: Channel, g: nat, t: nat)
    requires t < 8
    ensures Offsets(c)[t] < GROUP && Origin(GROUP * g + Offsets(c)[t]) == (c, 8 * g + t)
  {
    OffsetsArePlaces(c, g, t);
    OriginOfPlace(c, 8 * g + t);
    OffsetsInGroup(c, t);
  }

  lemma OffsetsInGroup(c: Channel, t: nat)
    requires t < 8
    ensures 0 <= Offsets(c)[t] < GROUP
  {
    assert t == 0 || t == 1 || t == 2 || t == 3 || t == 4 || t == 5 || t == 6 || t == 7;
  }

  lemma Unlisted(c: Channel, g: nat, i: nat)
    requires i / GROUP != g || Origin(i).0 != c
    ensures i - GROUP * g !in Offsets(c)
  {
    if i - GROUP * g in Offsets(c) {
      var t :| 0 <= t < 8 && Offsets(c)[t] == i - GROUP * g;
      ListedOrigin(c, g, t);
      assert false;
    }
  }

  /** A byte of the channel in the group just treated. */
  lemma ScatterListed(out: seq<Byte>, before: seq<Byte>, after: seq<Byte>, c: Channel, samples: seq<Byte>, offset: Byte,
                      g: nat, i: nat)
    requires GROUP * (g + 1) <= |out| && |out| % GROUP == 0 && |samples| * 3 >= |out| && |before| == |out|
    requires GroupWritten(before, after, c, samples, offset, g) && i < |out| && i / GROUP == g && Origin(i).0 == c
    ensures after[i] == Scattered(out, c, samples, offset)[i]
  {
    OriginInGroup(i);
    var t := Origin(i).1 - 8 * g;
    assert At(after, c, samples, offset, g, t);
    OriginInRange(i, |out|);
  }

  lemma GroupBounds(i: nat, g: nat)
    ensures i < GROUP * (g + 1) <==> i < GROUP * g || i / GROUP == g
    ensures i / GROUP == g ==> GROUP * g <= i
  {}

  lemma ScatterStepAt(out: seq<Byte>, before: seq<Byte>, after: seq<Byte>, c: Channel, samples: seq<Byte>, offset: Byte,
                      g: nat, i: nat)
    requires GROUP * (g + 1) <= |out| && |out| % GROUP == 0 && |samples| * 3 >= |out| && i < |out|
    requires before == ScatteredUpTo(out, c, samples, offset, g)
    requires GroupWritten(before, after, c, samples, offset, g)
    ensures after[i] == ScatteredUpTo(out, c, samples, offset, g + 1)[i]
  {
    GroupBounds(i, g);
    if i / GROUP == g && Origin(i).0 == c {
      ScatterListed(out, before, after, c, samples, offset, g, i);
    } else {
      Unlisted(c, g, i);
      assert after[i] == before[i];
      if i / GROUP == g {
        assert Scattered(out, c, samples, offset)[i] == out[i];
      }
    }
  }

  lemma ScatterStep(out: seq<Byte>, before: seq<Byte>, after: seq<Byte>, c: Channel, samples: seq<Byte>, offset: Byte,
                    g: nat)
    requires GROUP * (g + 1) <= |out| && |out| % GROUP == 0 && |samples| * 3 >= |out|
    requires before == ScatteredUpTo(out, c, samples, offset, g)
    requires GroupWritten(before, after, c, samples, offset, g)
    ensures after == ScatteredUpTo(out, c, samples, offset, g + 1)
  {
    forall i | 0 <= i < |out|
      ensures after[i] == ScatteredUpTo(out, c, samples, offset, g + 1)[i]
    {
      ScatterStepAt(out, before, after, c, samples, offset, g, i);
    }
  }

  /** One round of the red loop. */
  method RoundR(out: array<Byte>, input: array<Byte>, i: nat, j: nat, ghost g: nat, offset: Byte)
    requires input != out && i == GROUP * g && j == 8 * g && i + GROUP <= out.Length && j + 8 <= input.Length
    modifies out
    ensures GroupWritten(old(out[..]), out[..], Red, input[..], offset, g)
  {
    out[i + 6] := Shift(input[j], offset);
    out[i + 1] := Shift(input[j + 1], offset);
    out[i + 12] := Shift(input[j + 2], offset);
    out[i + 15] := Shift(input[j + 3], offset);
    out[i + 10] := Shift(input[j + 4], offset);
    out[i + 21] := Shift(input[j + 5], offset);
    out[i + 16] := Shift(input[j + 6], offset);
    out[i + 19] := Shift(input[j + 7], offset);
    AllEight(out[..], Red, input[..], offset, g);
  }

  method ConvertR(out: array<Byte>, input: array?<Byte>, offset: Byte)
    requires out.Length % GROUP == 0 && Fits(input, out)
    modifies out
    ensures out[..] == Converted(old(out[..]), Red, input, offset)
  {
    if input == null {
      return;
    }
    ghost var was, samples, g := out[..], input[..], 0;
    var i, j := 0, 0;
    while i < out.Length
      invariant i == GROUP * g <= out.Length && j == 8 * g && input[..] == samples
      invariant out[..] == ScatteredUpTo(was, Red, samples, offset, g)
    {
      ghost var before := out[..];
      RoundR(out, input, i, j, g, offset);
      ScatterStep(was, before, out[..], Red, samples, offset, g);
      i, j, g := i + GROUP, j + 8, g + 1;
    }
  }

  /** One round of the green loop. */
  method RoundG(out: array<Byte>, input: array<Byte>, i: nat, j: nat, ghost g: nat, offset: Byte)
    requires input != out && i == GROUP * g && j == 8 * g && i + GROUP <= out.Length && j + 8 <= input.Length
    modifies out
    ensures GroupWritten(old(out[..]), out[..], Green, input[..], offset, g)
  {
    out[i + 5] := Shift(input[j], offset);
    out[i + 0] := Shift(input[j + 1], offset);
    out[i + 3] := Shift(input[j + 2], offset);
    out[i + 14] := Shift(input[j + 3], offset);
    out[i + 9] := Shift(input[j + 4], offset);
    out[i + 20] := Shift(input[j + 5], offset);
    out[i + 23] := Shift(input[j + 6], offset);
    out[i + 18] := Shift(input[j + 7], offset);
    AllEight(out[..], Green, input[..], offset, g);
  }

  method ConvertG(out: array<Byte>, input: array?<Byte>, offset: Byte)
    requires out.Length % GROUP == 0 && Fits(input, out)
    modifies out
    ensures out[..] == Converted(old(out[..]), Green, input, offset)
  {
    if input == null {
      return;
    }
    ghost var was, samples, g := out[..], input[..], 0;
    var i, j := 0, 0;
    while i < out.Length
      invariant i == GROUP * g <= out.Length && j == 8 * g && input[..] == samples
      invariant out[..] == ScatteredUpTo(was, Green, samples, offset, g)
    {
      ghost var before := out[..];
      RoundG(out, input, i, j, g, offset);
      ScatterStep(was, before, out[..], Green, samples, offset, g);
      i, j, g := i + GROUP, j + 8, g + 1;
    }
  }

  /** One round of the blue loop. */
  method RoundB(out: array<Byte>, input: array<Byte>, i: nat, j: nat, ghost g: nat, offset: Byte)
    requires input != out && i == GROUP * g && j == 8 * g && i + GROUP <= out.Length && j + 8 <= input.Length
    modifies out
    ensures GroupWritten(old(out[..]), out[..], Blue, input[..], offset, g)
  {
    out[i + 4] := Shift(input[j], offset);
    out[i + 7] := Shift(input[j + 1], offset);
    out[i + 2] := Shift(input[j + 2], offset);
    out[i + 13] := Shift(input[j + 3], offset);
    out[i + 8] := Shift(input[j + 4], offset);
    out[i + 11] := Shift(input[j + 5], offset);
    out[i + 22] := Shift(input[j + 6], offset);
    out[i + 17] := Shift(input[j + 7], offset);
    AllEight(out[..], Blue, input[..], offset, g);
  }

  method ConvertB(out: array<Byte>, input: array?<Byte>, offset: Byte)
    requires out.Length % GROUP == 0 && Fits(input, out)
    modifies out
    ensures out[..] == Converted(old(out[..]), Blue, input, offset)
  {
    if input == null {
      return;
    }
    ghost var was, samples, g := out[..], input[..], 0;
    var i, j := 0, 0;
    while i < out.Length
      invariant i == GROUP * g <= out.Length && j == 8 * g && input[..] == samples
      invariant out[..] == ScatteredUpTo(was, Blue, samples, offset, g)
    {
      ghost var before := out[..];
      RoundB(out, input, i, j, g, offset);
      ScatterStep(was, before, out[..], Blue, samples, offset, g);
      i, j, g := i + GROUP, j + 8, g + 1;
    }
  }

  // ---------- all three channels ----------

  function Pick(c: Channel, r: seq<Byte>, g: seq<Byte>, b: seq<Byte>): seq<Byte> {
    match c case Red => r case Green => g case Blue => b
  }

  /** The transfer that carries three channels, described byte by byte. */
  function Transfer(r: seq<Byte>, g: seq<Byte>, b: seq<Byte>, offset: Byte, len: nat): (t: seq<Byte>)
    requires len % GROUP == 0 && |r| * 3 >= len && |g| * 3 >= len && |b| * 3 >= len
    ensures |t| == len
  {
    seq(len, i requires 0 <= i < len =>
      (OriginInRange(i, len); Shift(Pick(Origin(i).0, r, g, b)[Origin(i).1], offset)))
  }

  /** In whatever order the three converters run, and whatever the buffer held, the result is that transfer. */
  lemma ConvertersCommute(out: seq<Byte>, r: seq<Byte>, g: seq<Byte>, b: seq<Byte>, offset: Byte,
                          x: Channel, y: Channel, z: Channel)
    requires |out| % GROUP == 0 && |r| * 3 >= |out| && |g| * 3 >= |out| && |b| * 3 >= |out|
    requires x != y && y != z && x != z
    ensures var one := Scattered(out, x, Pick(x, r, g, b), offset);
      var two := Scattered(one, y, Pick(y, r, g, b), offset);
      Scattered(two, z, Pick(z, r, g, b), offset) == Transfer(r, g, b, offset, |out|)
  {
    var one := Scattered(out, x, Pick(x, r, g, b), offset);
    var two := Scattered(one, y, Pick(y, r, g, b), offset);
    var three := Scattered(two, z, Pick(z, r, g, b), offset);
    forall i | 0 <= i < |out|
      ensures three[i] == Transfer(r, g, b, offset, |out|)[i]
    {
      var c := Origin(i).0;
      assert c == x || c == y || c == z;
      assert c == x ==> two[i] == one[i];
    }
  }

  function Unshift(x: Byte, offset: Byte): Byte {
    (x + 256 - offset) % 256
  }

  lemma PlaceInRange(c: Channel, k: nat, len: nat)
    requires len % GROUP == 0 && 3 * k < len
    ensures Place(c, k) < len
  {
    PlaceBijective(c, k, Place(c, k), len / GROUP);
  }

  /** Each channel can be read back from the transfer, every sample from its own byte. */
  lemma ChannelsRecovered(r: seq<Byte>, g: seq<Byte>, b: seq<Byte>, offset: Byte, len: nat, c: Channel, k: nat)
    requires len % GROUP == 0 && |r| * 3 >= len && |g| * 3 >= len && |b| * 3 >= len && 3 * k < len
    ensures Place(c, k) < len
    ensures Unshift(Transfer(r, g, b, offset, len)[Place(c, k)], offset) == Pick(c, r, g, b)[k]
  {
    PlaceInRange(c, k, len);
    OriginOfPlace(c, k);
    ShiftUnshift(Pick(c, r, g, b)[k], offset);
  }

  lemma ShiftUnshift(x: Byte, offset: Byte)
    ensures Unshift(Shift(x, offset), offset) == x
  {}

  /** The sample worker's use of the converters on one transfer buffer; absent channels leave their bytes. */
  method FillTransfer(out: array<Byte>, r: array?<Byte>, g: array?<Byte>, b: array?<Byte>, signed: bool)
    requires out.Length % GROUP == 0
    requires Fits(r, out) && Fits(g, out) && Fits(b, out)
    modifies out
    ensures var offset: Byte := if signed then 128 else 0;
      out[..] == Converted(Converted(Converted(old(out[..]), Red, r, offset), Green, g, offset), Blue, b, offset)
    ensures r != null && g != null && b != null ==>
      out[..] == Transfer(r[..], g[..], b[..], if signed then 128 else 0, out.Length)
  {
    var offset: Byte := if signed then 128 else 0;
    ghost var was := out[..];
    ConvertR(out, r, offset);
    ConvertG(out, g, offset);
    ConvertB(out, b, offset);
    if r != null && g != null && b != null {
      ConvertersCommute(was, r[..], g[..], b[..], offset, Red, Green, Blue);
    }
  }
}
