/** The stateful group encoder (src/rds_mod.c): the parameter block, the static counters of
    get_rds_group and get_rds_ct_group, and the bits they write into a caller's buffer. */
module RdsEncoder {
  import opened RdsCode
  import opened RdsGroups

  /** What the setters store for a text: the text, cut or padded with spaces to the field's length. */
  function Padded(text: seq<Byte>, n: nat): (r: seq<Byte>)
    ensures |r| == n
  {
    seq(n, i requires 0 <= i < n => if i < |text| then text[i] else SPACE)
  }

  /** A long text is cut, a short one is followed by spaces, character 32; a text without zeros leaves none. */
  lemma PaddedIs(text: seq<Byte>, n: nat)
    ensures |text| >= n ==> Padded(text, n) == text[..n]
    ensures |text| < n ==> Padded(text, n) == text + seq(n - |text|, _ => 32)
    ensures 0 !in text ==> 0 !in Padded(text, n)
  {
    assert forall i :: 0 <= i < n && i < |text| ==> text[i] in text;
  }

  const BLOCK_BITS := 26

  /** The bits of the first n blocks of a group, each with its checkword and offset word. */
  function BlockBits(g: Group, n: nat): (r: Bits)
    requires n <= GROUP_LENGTH
    ensures |r| == BLOCK_BITS * n
  {
    if n == 0 then [] else BlockBits(g, n - 1) + Protected(g[n - 1], OFFSET_WORDS[n - 1])
  }

  function GroupBits(g: Group): (r: Bits)
    ensures |r| == BITS_PER_GROUP
  {
    BlockBits(g, GROUP_LENGTH)
  }

  /** The loop that emits the blocks of a group. */
  method EmitGroup(blocks: array<Word>, buffer: array<bool>)
    requires blocks.Length == GROUP_LENGTH && buffer.Length == BITS_PER_GROUP
    modifies buffer
    ensures buffer[..] == GroupBits(blocks[..])
  {
    ghost var g: Group := blocks[..];
    for i := 0 to GROUP_LENGTH
      invariant blocks[..] == g && buffer[..i * BLOCK_BITS] == BlockBits(g, i)
    {
      ghost var at := i * BLOCK_BITS;
      EmitBlock(blocks[i], OFFSET_WORDS[i], buffer, i * BLOCK_BITS);
      assert buffer[..at + BLOCK_BITS] == buffer[..at] + buffer[at..at + BLOCK_BITS];
    }
    assert buffer[..GROUP_LENGTH * BLOCK_BITS] == buffer[..];
  }

  class Encoder {
    var pi: Word
    var ta: bool
    const ps: array<Byte>
    const rt: array<Byte>
    var state: nat
    var psState: nat
    var rtState: nat
    var latestMinutes: int

    constructor ()
      ensures Valid() && fresh(ps) && fresh(rt)
      ensures St() == INITIAL
    {
      pi, ta := 0, false;
      ps := new Byte[PS_LENGTH](_ => 0);
      rt := new Byte[RT_LENGTH](_ => 0);
      state, psState, rtState, latestMinutes := 0, 0, 0, -1;
    }

    ghost predicate Valid()
      reads this
    {
      ps.Length == PS_LENGTH && rt.Length == RT_LENGTH && ps != rt && InRange(St())
    }

    function St(): State
      reads this
    {
      State(state, psState, rtState, latestMinutes)
    }

    ghost function Settings(): Params
      requires Valid()
      reads this, ps, rt
    {
      Params(pi, ta, ps[..], rt[..])
    }

    /** strncpy, then spaces for the zeros it padded with; `text` is a C string without its terminator. */
    static method SetText(field: array<Byte>, text: seq<Byte>)
      requires forall c <- text :: c != 0
      modifies field
      ensures field[..] == Padded(text, field.Length)
    {
      for i := 0 to field.Length
        invariant forall k :: 0 <= k < i ==> field[k] == if k < |text| then text[k] else 0
      {
        field[i] := if i < |text| then text[i] else 0;
      }
      for i := 0 to field.Length
        invariant forall k :: 0 <= k < i ==> field[k] == Padded(text, field.Length)[k]
        invariant forall k :: i <= k < field.Length ==> field[k] == if k < |text| then text[k] else 0
      {
        assert i < |text| ==> text[i] in text;
        if field[i] == 0 {
          field[i] := SPACE;
        }
      }
    }

    method SetRt(text: seq<Byte>)
      requires Valid() && forall c <- text :: c != 0
      modifies rt
      ensures Valid() && Settings() == old(Settings()).(rt := Padded(text, RT_LENGTH))
    {
      SetText(rt, text);
    }

    method SetPs(text: seq<Byte>)
      requires Valid() && forall c <- text :: c != 0
      modifies ps
      ensures Valid() && Settings() == old(Settings()).(ps := Padded(text, PS_LENGTH))
    {
      SetText(ps, text);
    }

    /** Fills in a clock-time group if the minute has changed. */
    method GetCtGroup(blocks: array<Word>, now: Reading) returns (generated: bool)
      requires Valid() && blocks.Length == GROUP_LENGTH && blocks[..] == [pi, 0, 0, 0]
      modifies this`latestMinutes, blocks
      ensures generated == old(ClockDue(St(), now))
      ensures generated ==> St() == old(St()).(latestMinutes := now.utc.min) && blocks[..] == CtGroup(pi, now)
      ensures !generated ==> St() == old(St()) && blocks[..] == old(blocks[..])
    {
      if now.utc.min == latestMinutes {
        return false;
      }
      latestMinutes := now.utc.min;
      var mjd := Mjd(now.utc);
      blocks[1] := Or16(0x4400, Truncate16(mjd / 0x8000));
      blocks[2] := Or16(Truncate16(2 * mjd), Truncate16(now.utc.hour / 16));
      blocks[3] := Or16(now.utc.hour % 16 * 4096, Truncate16(now.utc.min * 64));
      blocks[3] := Or16(blocks[3], Truncate16(Abs(now.offset)));
      if now.offset < 0 {
        blocks[3] := Or16(blocks[3], 0x20);
      }
      return true;
    }

    method FillName(blocks: array<Word>)
      requires Valid() && blocks.Length == GROUP_LENGTH && blocks[..] == [pi, 0, 0, 0]
      modifies this`psState, blocks
      ensures Valid() && psState == (if old(psState) >= 3 then 0 else old(psState) + 1)
      ensures blocks[..] == NameGroup(old(Settings()), old(psState))
    {
      blocks[1] := 0x0400 + psState;
      if ta {
        blocks[1] := blocks[1] + 0x0010;
      }
      blocks[2] := 0xCDCD;
      blocks[3] := Pair(ps[psState * 2], ps[psState * 2 + 1]);
      psState := psState + 1;
      if psState >= 4 {
        psState := 0;
      }
    }

    method FillText(blocks: array<Word>)
      requires Valid() && blocks.Length == GROUP_LENGTH && blocks[..] == [pi, 0, 0, 0]
      modifies this`rtState, blocks
      ensures Valid() && rtState == (if old(rtState) >= 15 then 0 else old(rtState) + 1)
      ensures blocks[..] == TextGroup(old(Settings()), old(rtState))
    {
      blocks[1] := 0x2400 + rtState;
      blocks[2] := Pair(rt[rtState * 4], rt[rtState * 4 + 1]);
      blocks[3] := Pair(rt[rtState * 4 + 2], rt[rtState * 4 + 3]);
      rtState := rtState + 1;
      if rtState >= 16 {
        rtState := 0;
      }
    }

    /** Fills in the group whose turn it is. */
    method NextBlocks(now: Reading) returns (blocks: array<Word>)
      requires Valid()
      modifies this`state, this`psState, this`rtState, this`latestMinutes
      ensures Valid() && fresh(blocks) && blocks.Length == GROUP_LENGTH
      ensures (St(), blocks[..]) == Generate(old(Settings()), old(St()), now)
    {
      blocks := new Word[GROUP_LENGTH](_ => 0);
      blocks[0] := pi;
      assert blocks[..] == [pi, 0, 0, 0];
      var ct := GetCtGroup(blocks, now);
      if !ct {
        if state < 4 {
          FillName(blocks);
        } else {
          FillText(blocks);
        }
        state := state + 1;
        if state >= 5 {
          state := 0;
        }
      }
    }

    /** One group as 104 bits. */
    method GetGroup(buffer: array<bool>, now: Reading) returns (ghost g: Group)
      requires Valid() && buffer.Length == BITS_PER_GROUP
      modifies this`state, this`psState, this`rtState, this`latestMinutes, buffer
      ensures Valid() && (St(), g) == Generate(old(Settings()), old(St()), now)
      ensures buffer[..] == GroupBits(g)
    {
      var blocks := NextBlocks(now);
      g := blocks[..];
      EmitGroup(blocks, buffer);
    }
  }
}
