/** getopt with hidden cursors that permutes argv in place while it scans (src/getopt/getopt.c). */
module Getopt {
  import opened Options
  import opened GetoptSpec

  /** Two adjacent blocks of `s`, [lo, mid) and [mid, hi), trade places. */
  function Rotated<T>(s: seq<T>, lo: nat, mid: nat, hi: nat): (r: seq<T>)
    requires lo <= mid <= hi <= |s|
    ensures |r| == |s|
  {
    s[..lo] + s[mid..hi] + s[lo..mid] + s[hi..]
  }

  /** The blocks [lo, lo + len) and [hi, hi + len) of `s` trade places. */
  function Swapped<T>(s: seq<T>, lo: nat, hi: nat, len: nat): (r: seq<T>)
    requires lo + len <= hi && hi + len <= |s|
    ensures |r| == |s|
  {
    s[..lo] + s[hi..hi + len] + s[lo + len..hi] + s[lo..lo + len] + s[hi + len..]
  }

  datatype Phase = Finished | PassedBy(event: Event) | AtOption

  class Scanner {
    const argv: array<string>
    const cfg: Config
    var optind: nat
    var nextchar: string        // "" stands for the null pointer as well as for a pointer to '\0'
    var firstNonopt: nat
    var lastNonopt: nat
    var ordering: Ordering
    var initialized: bool
    var optarg: Option<string>
    var optopt: int
    ghost var start: nat        // where scanning began

    constructor (argv: array<string>, cfg: Config, optind: nat)
      requires optind <= argv.Length
      ensures this.argv == argv && this.cfg == cfg && this.optind == optind
      ensures !initialized && Valid()
    {
      this.argv, this.cfg, this.optind := argv, cfg, optind;
      nextchar, firstNonopt, lastNonopt, ordering := "", 0, 0, Permute;
      initialized, optarg, optopt, start := false, None, '?' as int, 0;
    }

    // ---------- abstraction ----------

    /** The cursors are in order and `nextchar` lies inside argv[optind]. */
    ghost predicate Scanning()
      reads this, argv
    {
      && initialized
      && 1 <= start <= firstNonopt <= lastNonopt <= optind
      && Inside()
      && ordering == OrderingOf(cfg)
      && (ordering != Permute ==> firstNonopt == lastNonopt == start)
    }

    ghost predicate Fresh()
      reads this
    {
      optind == 0 || !initialized
    }

    ghost predicate Valid()
      reads this, argv
    {
      optind <= argv.Length && (Fresh() || Scanning())
    }

    /** Options moved to the front so far, and those seen since, in original order. */
    ghost function Opts(): seq<string>
      requires Fresh() || Scanning()
      reads this, argv
    {
      if Fresh() then [] else argv[start..firstNonopt] + argv[lastNonopt..optind]
    }

    ghost function NonOpts(): seq<string>
      requires Fresh() || Scanning()
      reads this, argv
    {
      if Fresh() then [] else argv[firstNonopt..lastNonopt]
    }

    ghost function Start(): nat
      reads this
    {
      if !Fresh() then start else if optind == 0 then 1 else optind
    }

    /** What the rest of the run will report. */
    ghost function Pending(): Outcome
      requires Valid() && argv.Length >= 1
      reads this, argv
    {
      if Fresh() then Scan(cfg, Unmarked(cfg.optstring), "", argv[Start()..])
      else Scan(cfg, cfg.optstring, nextchar, argv[optind..])
    }

    ghost predicate Inside()
      reads this, argv
    {
      optind <= argv.Length && (nextchar != "" ==> optind < argv.Length && |argv[optind]| >= 2)
    }

    /** What the scan reports from here on, when the next call works with `os`. */
    ghost function Ahead(os: string): Outcome
      requires Inside()
      reads this, argv
    {
      Scan(cfg, os, nextchar, argv[optind..])
    }

    // ---------- exchange ----------

    /** Swaps the blocks [lo, lo + len) and [hi, hi + len) element by element. */
    method SwapBlocks(lo: nat, hi: nat, len: nat)
      requires lo + len <= hi && hi + len <= argv.Length
      modifies argv
      ensures argv[..] == Swapped(old(argv[..]), lo, hi, len)
    {
      ghost var was := argv[..];
      SwappedNone(was, lo, hi);
      for i := 0 to len
        invariant argv[..] == Swapped(was, lo, hi, i)
      {
        SwappedNext(was, lo, hi, i);
        var tem := argv[lo + i];
        argv[lo + i] := argv[hi + i];
        argv[hi + i] := tem;
      }
    }

    /** One round of the block swap: the shorter block goes to its final place, at the far end of the
        longer one, and is excluded; what remains to be exchanged is a smaller pair of blocks. */
    method SwapShorter(bottom: nat, middle: nat, top: nat) returns (bottom': nat, top': nat)
      requires bottom < middle < top <= argv.Length
      modifies argv
      ensures bottom <= bottom' <= middle <= top' <= top && top' - bottom' < top - bottom
      ensures Rotated(argv[..], bottom', middle, top') == Rotated(old(argv[..]), bottom, middle, top)
    {
      if top - middle > middle - bottom {
        top' := SwapBottom(bottom, middle, top);
        bottom' := bottom;
      } else {
        bottom' := SwapTop(bottom, middle, top);
        top' := top;
      }
    }

    /** The bottom block is the short one. */
    method SwapBottom(bottom: nat, middle: nat, top: nat) returns (top': nat)
      requires bottom < middle < top <= argv.Length && top - middle > middle - bottom
      modifies argv
      ensures middle <= top' == top - (middle - bottom)
      ensures Rotated(argv[..], bottom, middle, top') == Rotated(old(argv[..]), bottom, middle, top)
    {
      var len := middle - bottom;
      top' := top - len;
      RotateShortBottom(argv[..], bottom, middle, top', top);
      SwapBlocks(bottom, top', len);
    }

    /** The top block is no longer than the bottom one. */
    method SwapTop(bottom: nat, middle: nat, top: nat) returns (bottom': nat)
      requires bottom < middle < top <= argv.Length && top - middle <= middle - bottom
      modifies argv
      ensures bottom' == bottom + (top - middle) <= middle
      ensures Rotated(argv[..], bottom', middle, top) == Rotated(old(argv[..]), bottom, middle, top)
    {
      var len := top - middle;
      bottom' := bottom + len;
      RotateShortTop(argv[..], bottom, bottom', middle, top);
      SwapBlocks(bottom, middle, len);
    }

    /** The block swap: the non-options [firstNonopt, lastNonopt) trade places with the options
        [lastNonopt, optind), and the two cursors follow the non-options. */
    method Exchange()
      requires firstNonopt <= lastNonopt <= optind <= argv.Length
      modifies this`firstNonopt, this`lastNonopt, argv
      ensures argv[..] == Rotated(old(argv[..]), old(firstNonopt), old(lastNonopt), optind)
      ensures firstNonopt == old(firstNonopt) + (optind - old(lastNonopt))
      ensures lastNonopt == optind
    {
      var bottom, middle, top := firstNonopt, lastNonopt, optind;
      ghost var goal := Rotated(argv[..], bottom, middle, top);
      while top > middle && middle > bottom
        invariant firstNonopt == old(firstNonopt) && lastNonopt == old(lastNonopt)
        invariant firstNonopt <= bottom <= middle <= top <= optind
        invariant Rotated(argv[..], bottom, middle, top) == goal
        decreases top - bottom
      {
        bottom, top := SwapShorter(bottom, middle, top);
      }
      RotateNothing(argv[..], bottom, middle, top);
      firstNonopt := firstNonopt + (optind - lastNonopt);
      lastNonopt := optind;
    }

    // ---------- moving to the next option element ----------

    /** If options were processed behind skipped non-options, moves those options in front of them. */
    method Gather()
      requires Scanning() && nextchar == "" && ordering == Permute
      modifies this`firstNonopt, this`lastNonopt, argv
      ensures start <= firstNonopt <= optind
      ensures argv[start..firstNonopt] == old(Opts()) && argv[firstNonopt..optind] == old(NonOpts())
      ensures argv[..start] == old(argv[..start]) && argv[optind..] == old(argv[optind..])
    {
      if firstNonopt != lastNonopt && lastNonopt != optind {
        RotatedSlices(argv[..], start, firstNonopt, lastNonopt, optind);
        Exchange();
      } else if lastNonopt != optind {
        firstNonopt := optind;
      }
    }

    /** Skips additional non-options, extending the range of those skipped before. */
    method Skip(ghost os: string)
      requires firstNonopt <= optind <= argv.Length && nextchar == "" && ordering == Permute == OrderingOf(cfg)
      modifies this`lastNonopt, this`optind
      ensures old(optind) <= optind == lastNonopt <= argv.Length
      ensures optind < argv.Length ==> !NonOption(argv[optind])
      ensures Ahead(os).events == old(Ahead(os)).events && Ahead(os).opts == old(Ahead(os)).opts
      ensures argv[firstNonopt..optind] + Ahead(os).nonopts
           == old(argv[firstNonopt..optind] + Ahead(os).nonopts)
    {
      ghost var skipped, todo := argv[firstNonopt..optind], Ahead(os);
      while optind < argv.Length && NonOption(argv[optind])
        invariant old(optind) <= optind <= argv.Length
        invariant Ahead(os).events == todo.events && Ahead(os).opts == todo.opts
        invariant argv[firstNonopt..optind] + Ahead(os).nonopts == skipped + todo.nonopts
      {
        ghost var rest := Ahead(os).nonopts;
        assert argv[optind..][1..] == argv[optind + 1..];
        assert argv[firstNonopt..optind] + rest == argv[firstNonopt..optind + 1] + rest[1..];
        optind := optind + 1;
      }
      lastNonopt := optind;
    }

    /** The outcome `o` of the rest of the scan, completed by what has been passed by already. */
    ghost function Total(o: Outcome): Outcome
      requires Scanning()
      reads this, argv
    {
      Outcome(o.events, Opts() + o.opts, NonOpts() + o.nonopts)
    }

    /** The special element `--`: skipped like an option, everything behind it like a non-option. */
    method StopAtDashes()
      requires start <= firstNonopt <= lastNonopt <= optind < argv.Length
      requires firstNonopt == lastNonopt || lastNonopt == optind
      modifies this`firstNonopt, this`lastNonopt, this`optind, argv
      ensures optind == lastNonopt == argv.Length && start <= firstNonopt <= argv.Length
      ensures argv[..start] == old(argv[..start])
      ensures argv[start..firstNonopt] == old(argv[start..firstNonopt] + argv[lastNonopt..optind] + [argv[optind]])
      ensures argv[firstNonopt..] == old(argv[firstNonopt..lastNonopt] + argv[optind + 1..])
    {
      optind := optind + 1;
      if firstNonopt != lastNonopt && lastNonopt != optind {
        MoveDashes();
      } else if firstNonopt == lastNonopt {
        DashesKept(argv[..], start, firstNonopt, lastNonopt, optind - 1);
        firstNonopt := optind;
      }
      lastNonopt := argv.Length;
      optind := argv.Length;
    }

    /** The `--` in front of optind has non-options before it. */
    method MoveDashes()
      requires start <= firstNonopt <= lastNonopt < optind <= argv.Length
      modifies this`firstNonopt, this`lastNonopt, argv
      ensures start <= firstNonopt <= argv.Length && argv[..start] == old(argv[..start])
      ensures argv[start..firstNonopt]
           == old(argv[start..firstNonopt] + argv[lastNonopt..optind - 1] + [argv[optind - 1]])
      ensures argv[firstNonopt..] == old(argv[firstNonopt..lastNonopt] + argv[optind..])
    {
      DashesMoved(argv[..], start, firstNonopt, lastNonopt, optind - 1);
      Exchange();
    }

    /** PERMUTE only: brings the cursors up to the next element that is not a non-option. */
    method Settle(ghost os: string)
      requires Scanning() && nextchar == ""
      modifies this`firstNonopt, this`lastNonopt, this`optind, argv
      ensures Scanning() && optind >= old(optind) && argv[..start] == old(argv[..start])
      ensures ordering != Permute ==> optind == old(optind)
      ensures ordering == Permute ==> lastNonopt == optind && (optind < argv.Length ==> !NonOption(argv[optind]))
      ensures Total(Ahead(os)) == old(Total(Ahead(os)))
    {
      if ordering == Permute {
        GatherAndSkip(os);
        assert Opts() == argv[start..firstNonopt] + [] == old(Opts());
      }
    }

    method GatherAndSkip(ghost os: string)
      requires Scanning() && nextchar == "" && ordering == Permute
      modifies this`firstNonopt, this`lastNonopt, this`optind, argv
      ensures start <= firstNonopt <= optind == lastNonopt <= argv.Length && optind >= old(optind)
      ensures argv[..start] == old(argv[..start]) && (optind < argv.Length ==> !NonOption(argv[optind]))
      ensures argv[start..firstNonopt] == old(Opts())
      ensures Ahead(os).events == old(Ahead(os)).events && Ahead(os).opts == old(Ahead(os)).opts
      ensures argv[firstNonopt..optind] + Ahead(os).nonopts == old(NonOpts() + Ahead(os).nonopts)
    {
      Gather();
      Skip(os);
    }

    /** Ends the scan at `--` or at the end of argv, leaving `optind` at the first non-option. */
    method Finish(ghost os: string)
      requires Scanning() && nextchar == "" && (ordering == Permute ==> lastNonopt == optind)
      requires optind == argv.Length || argv[optind] == "--"
      modifies this`firstNonopt, this`lastNonopt, this`optind, argv
      ensures argv[..start] == old(argv[..start]) && start <= optind <= argv.Length
      ensures old(Total(Ahead(os))) == Outcome([], argv[start..optind], argv[optind..])
    {
      ghost var opts, nonopts, args := Opts(), NonOpts(), argv[optind..];
      if optind != argv.Length {
        StopAtDashes();
        assert argv[start..firstNonopt] == opts + ["--"];
        assert argv[firstNonopt..] == nonopts + args[1..];
      }
      if firstNonopt != lastNonopt {
        optind := firstNonopt;
      }
    }

    /** RETURN_IN_ORDER: describes a non-option to the caller and passes it by. */
    method PassBy(ghost os: string) returns (event: Event)
      requires Scanning() && nextchar == "" && ordering == ReturnInOrder
      requires optind < argv.Length && NonOption(argv[optind])
      modifies this`optind
      ensures Scanning() && optind == old(optind) + 1 && event == Plain(1, event.optarg)
      ensures old(Total(Ahead(os))) == After(event, Total(Ahead(cfg.optstring)))
    {
      ghost var args, opts := argv[optind..], Opts();
      assert args[0] != "--" && args[1..] == argv[optind + 1..];
      assert opts + [args[0]] == argv[start..firstNonopt] + argv[lastNonopt..optind + 1];
      optind := optind + 1;
      event := Plain(1, Some(argv[optind - 1]));
    }

    /** REQUIRE_ORDER: the first non-option ends the scan. */
    lemma StopInOrder(os: string)
      requires Scanning() && nextchar == "" && ordering == RequireOrder
      requires optind < argv.Length && NonOption(argv[optind])
      ensures Total(Ahead(os)) == Outcome([], argv[start..optind], argv[optind..])
    {}

    /** Skips the initial punctuation of an option element. */
    method Enter(ghost os: string)
      requires Scanning() && nextchar == ""
      requires optind < argv.Length && argv[optind] != "--" && !NonOption(argv[optind])
      modifies this`nextchar
      ensures Scanning() && nextchar != "" && Total(Ahead(os)) == old(Total(Ahead(os)))
    {
      nextchar := OptionText(cfg, argv[optind]);
    }

    /** Moves on to the next element that is to be decoded or described to the caller. */
    method Advance(ghost os: string) returns (phase: Phase)
      requires Scanning() && nextchar == ""
      modifies this`firstNonopt, this`lastNonopt, this`optind, this`nextchar, argv
      ensures argv[..start] == old(argv[..start])
      ensures phase.Finished? ==>
        (start <= optind <= argv.Length && old(Total(Ahead(os))) == Outcome([], argv[start..optind], argv[optind..]))
      ensures phase.PassedBy? ==>
        (Scanning() && nextchar == "" && optind == old(optind) + 1
         && phase.event == Plain(1, phase.event.optarg)
         && old(Total(Ahead(os))) == After(phase.event, Total(Ahead(cfg.optstring))))
      ensures phase.AtOption? ==>
        (Scanning() && nextchar != "" && optind >= old(optind)
         && old(Total(Ahead(os))) == Total(Ahead(os)))
    {
      Settle(os);
      if optind == argv.Length || argv[optind] == "--" {
        Finish(os);
        return Finished;
      }
      if NonOption(argv[optind]) {
        if ordering == RequireOrder {
          StopInOrder(os);
          return Finished;
        }
        var event := PassBy(os);
        return PassedBy(event);
      }
      Enter(os);
      return AtOption;
    }

    // ---------- decoding one option ----------

    ghost function DecodedHere(os: string): Decoded
      requires Scanning() && nextchar != ""
      reads this, argv
    {
      Decode(cfg, os, argv[optind], nextchar, Second(argv[optind..]))
    }

    /** The next argv element becomes `optarg`, if there is one. */
    method TakeNext() returns (taken: bool)
      modifies this`optind, this`optarg
      ensures taken <==> old(optind) < argv.Length
      ensures taken ==> optarg == Some(argv[old(optind)]) && optind == old(optind) + 1
      ensures !taken ==> optarg == old(optarg) && optind == old(optind)
    {
      taken := optind < argv.Length;
      if taken {
        optarg := Some(argv[optind]);
        optind := optind + 1;
      }
    }

    method DecodeShortHere(os: string) returns (e: Event)
      requires optind < argv.Length && nextchar != "" && optarg == None && NoLongShort(os)
      modifies this`nextchar, this`optind, this`optarg, this`optopt
      ensures var d := old(DecodeShort(os, nextchar, Second(argv[optind..])));
        && d.event == e && d.rest == nextchar && optind == old(optind) + d.taken && optarg == e.optarg
        && optopt == if e.optopt.Some? then e.optopt.value else old(optopt)
    {
      var c, text := nextchar[0], nextchar[1..];
      nextchar := text;
      if text == "" {
        optind := optind + 1;
      }
      if !KnownShort(os, c) {
        optopt := c as int;
        return Failed('?' as int, c as int);
      }
      match ShortKind(os, c) {
        case NoArgument =>
        case OptionalArgument =>
          if text != "" {
            optarg := Some(text);
            optind := optind + 1;
          }
          nextchar := "";
        case RequiredArgument =>
          nextchar := "";
          if text != "" {
            optarg := Some(text);
            optind := optind + 1;
          } else {
            var taken := TakeNext();
            if !taken {
              optopt := c as int;
              return Failed(MissingCode(os), c as int);
            }
          }
      }
      e := Plain(c as int, optarg);
    }

    method DecodeLongHere(os: string, table: seq<LongOption>, index: nat) returns (e: Event)
      requires optind < argv.Length && nextchar != "" && optarg == None && index < |table|
      modifies this`nextchar, this`optind, this`optarg, this`optopt
      ensures var d := old(DecodeLong(os, table, index, nextchar, Second(argv[optind..])));
        && d.event == e && d.rest == nextchar && optind == old(optind) + d.taken && optarg == e.optarg
        && optopt == if e.optopt.Some? then e.optopt.value else old(optopt)
    {
      var p := table[index];
      var end := NameEnd(nextchar);
      var text := nextchar;
      nextchar := "";
      optind := optind + 1;
      if end < |text| {
        if p.hasArg == NoArgument {
          optopt := p.val;
          return Failed('?' as int, p.val);
        }
        optarg := Some(text[end + 1..]);
      } else if p.hasArg == RequiredArgument {
        var taken := TakeNext();
        if !taken {
          optopt := p.val;
          return Failed(MissingCode(os), p.val);
        }
      }
      if p.flag.Some? {
        return Event(0, optarg, None, Some(index), Some((p.flag.value, p.val)));
      }
      return Event(p.val, optarg, None, Some(index), None);
    }

    /** Decodes the next option of the current element. */
    method DecodeHere(os: string) returns (e: Event)
      requires Scanning() && nextchar != "" && optarg == None && NoLongShort(os)
      modifies this`nextchar, this`optind, this`optarg, this`optopt
      ensures var d := old(DecodedHere(os));
        d.event == e && d.rest == nextchar && optind == old(optind) + d.taken && optarg == e.optarg
      ensures optopt == if e.optopt.Some? then e.optopt.value else old(optopt)
    {
      var elem := argv[optind];
      if TriesLong(cfg, os, elem) {
        var table := cfg.longopts.value;
        var end := NameEnd(nextchar);
        var m := FindLong(table, nextchar[..end], cfg.longOnly);
        if m.Found? {
          e := DecodeLongHere(os, table, m.index);
          return;
        }
        if m.Ambiguous? || !cfg.longOnly || elem[1] == '-' || nextchar[0] !in os {
          nextchar := "";
          optind := optind + 1;
          optopt := 0;
          return Failed('?' as int, 0);
        }
      }
      e := DecodeShortHere(os);
    }

    // ---------- the calls ----------

    /** The outcome of the whole run, of which a part may lie behind already. */
    ghost function Completed(): Outcome
      requires Valid() && argv.Length >= 1
      reads this, argv
    {
      Outcome(Pending().events, Opts() + Pending().opts, NonOpts() + Pending().nonopts)
    }

    method Initialize()
      requires Valid() && Fresh() && argv.Length >= 1
      modifies this
      ensures Scanning() && start == old(Start()) && nextchar == "" && Opts() == [] == NonOpts()
      ensures Total(Ahead(Unmarked(cfg.optstring))) == old(Completed())
      ensures optarg == old(optarg) && optopt == old(optopt)
    {
      if optind == 0 {
        optind := 1;
      }
      firstNonopt, lastNonopt, start := optind, optind, optind;
      nextchar := "";
      ordering := OrderingOf(cfg);
      initialized := true;
    }

    /** Decodes the next option, which passes by the elements it took. */
    method DecodeAndPass(os: string) returns (e: Event)
      requires Scanning() && nextchar != "" && optarg == None && NoLongShort(os)
      modifies this`nextchar, this`optind, this`optarg, this`optopt
      ensures Scanning() && optarg == e.optarg
      ensures old(Total(Ahead(os))) == After(e, Total(Ahead(cfg.optstring)))
      ensures optopt == if e.optopt.Some? then e.optopt.value else old(optopt)
    {
      ghost var opts, args := Opts(), argv[optind..];
      DecodePrepends(cfg, os, nextchar, args, opts, NonOpts());
      e := DecodeStep(os);
    }

    /** Decodes the next option; the elements it took count as options passed by. */
    method DecodeStep(os: string) returns (e: Event)
      requires Scanning() && nextchar != "" && optarg == None && NoLongShort(os)
      modifies this`nextchar, this`optind, this`optarg, this`optopt
      ensures Scanning()
      ensures var d := old(DecodedHere(os));
        && d.taken <= old(argv.Length - optind) && e == d.event && nextchar == d.rest && optarg == e.optarg
        && Opts() == old(Opts()) + old(argv[optind..])[..d.taken] && argv[optind..] == old(argv[optind..])[d.taken..]
      ensures optopt == if e.optopt.Some? then e.optopt.value else old(optopt)
    {
      ghost var args, d := argv[optind..], DecodedHere(os);
      DecodeFits(cfg, os, nextchar, args);
      TakenCut(argv[..], start, firstNonopt, lastNonopt, optind, d.taken);
      e := DecodeHere(os);
    }

    /** The part of a call that follows the initialization. */
    method Continue(os: string) returns (r: Option<Event>)
      requires Scanning() && optarg == None && NoLongShort(os)
      modifies this`firstNonopt, this`lastNonopt, this`optind, this`nextchar, this`optarg, this`optopt, argv
      ensures argv[..start] == old(argv[..start])
      ensures r.None? ==>
        (start <= optind <= argv.Length && old(Total(Ahead(os))) == Outcome([], argv[start..optind], argv[optind..]))
      ensures r.Some? ==> Scanning() && old(Total(Ahead(os))) == After(r.value, Total(Ahead(cfg.optstring)))
      ensures optarg == if r.Some? then r.value.optarg else None
      ensures optopt == if r.Some? && r.value.optopt.Some? then r.value.optopt.value else old(optopt)
    {
      var phase := AtOption;
      if nextchar == "" {
        phase := Advance(os);
      }
      r := Report(os, phase);
    }

    /** What the call returns for each phase. */
    method Report(os: string, phase: Phase) returns (r: Option<Event>)
      requires phase.AtOption? ==> Scanning() && nextchar != ""
      requires optarg == None && NoLongShort(os)
      modifies this`nextchar, this`optind, this`optarg, this`optopt
      ensures phase.AtOption? ==>
        (Scanning() && r.Some? && old(Total(Ahead(os))) == After(r.value, Total(Ahead(cfg.optstring))))
      ensures !phase.AtOption? ==> (optind == old(optind) && nextchar == old(nextchar))
      ensures phase.Finished? ==> r == None
      ensures phase.PassedBy? ==> r == Some(phase.event)
      ensures optarg == if r.Some? then r.value.optarg else None
      ensures optopt == if phase.AtOption? && r.value.optopt.Some? then r.value.optopt.value else old(optopt)
    {
      match phase {
        case Finished => r := None;
        case PassedBy(event) =>
          optarg := event.optarg;
          r := Some(event);
        case AtOption =>
          var e := DecodeAndPass(os);
          r := Some(e);
      }
    }

    /** One call of getopt; None is its -1. */
    method Next() returns (r: Option<Event>)
      requires Valid() && NoLongShort(cfg.optstring)
      modifies this, argv
      ensures argv.Length == 0 ==> r == None && optind == old(optind)
      ensures argv.Length > 0 ==> argv[..old(Start())] == old(argv[..Start()])
      ensures argv.Length > 0 && r.None? ==>
        (old(Start()) <= optind <= argv.Length
         && old(Completed()) == Outcome([], argv[old(Start())..optind], argv[optind..]))
      ensures r.Some? ==>
        (Valid() && !Fresh() && start == old(Start()) && old(Completed()) == After(r.value, Completed()))
      ensures argv.Length > 0 ==> optarg == if r.Some? then r.value.optarg else None
      ensures optopt == if r.Some? && r.value.optopt.Some? then r.value.optopt.value else old(optopt)
    {
      if argv.Length < 1 {
        return None;
      }
      optarg := None;
      if optind == 0 || !initialized {
        Initialize();
        UnmarkedHasNoLongShort(cfg.optstring);
        r := Continue(Unmarked(cfg.optstring));
      } else {
        r := Continue(cfg.optstring);
      }
    }
  }

  lemma UnmarkedHasNoLongShort(os: string)
    requires NoLongShort(os)
    ensures NoLongShort(Unmarked(os))
  {}

  /** An option takes no more elements than there are, and none while more of its cluster is to come. */
  lemma DecodeFits(cfg: Config, os: string, rest: string, args: seq<string>)
    requires rest != "" && args != [] && |args[0]| >= 2
    ensures var d := Decode(cfg, os, args[0], rest, Second(args));
      d.taken <= |args| && (d.rest != "" ==> d.taken == 0)
  {}

  lemma DecodePrepends(cfg: Config, os: string, rest: string, args: seq<string>,
                       opts: seq<string>, nonopts: seq<string>)
    requires rest != "" && args != [] && |args[0]| >= 2
    ensures var d := Decode(cfg, os, args[0], rest, Second(args));
      var here, o := Scan(cfg, os, rest, args), Scan(cfg, cfg.optstring, d.rest, args[d.taken..]);
      Outcome(here.events, opts + here.opts, nonopts + here.nonopts)
        == After(d.event, Outcome(o.events, opts + args[..d.taken] + o.opts, nonopts + o.nonopts))
  {}

  /** The layout a run leaves behind: options in front, non-options behind, `optind` in between. */
  ghost predicate LaidOut(argv: seq<string>, optind: nat, head: seq<string>, opts: seq<string>, nonopts: seq<string>) {
    argv == head + opts + nonopts && optind == |head| + |opts|
  }

  lemma LayOut(s: Scanner, st: nat)
    requires st <= s.optind <= s.argv.Length
    ensures LaidOut(s.argv[..], s.optind, s.argv[..st], s.argv[st..s.optind], s.argv[s.optind..])
  {}

  /** `events` have been reported, and `rest` is still to come, of the outcome `goal`. */
  ghost predicate Reached(events: seq<Event>, rest: Outcome, goal: Outcome) {
    goal == Outcome(events + rest.events, rest.opts, rest.nonopts)
  }

  lemma ReachedNext(events: seq<Event>, e: Event, rest: Outcome, goal: Outcome)
    requires Reached(events, After(e, rest), goal)
    ensures Reached(events + [e], rest, goal)
  {
    assert events + ([e] + rest.events) == events + [e] + rest.events;
  }

  /** One round of the caller's loop. */
  method NextOf(s: Scanner, ghost events: seq<Event>, ghost goal: Outcome, ghost st: nat) returns (r: Option<Event>)
    requires s.Valid() && s.argv.Length >= 1 && NoLongShort(s.cfg.optstring)
    requires s.Start() == st && Reached(events, s.Completed(), goal)
    modifies s, s.argv
    ensures s.argv[..st] == old(s.argv[..st])
    ensures r.None? ==>
      (events == goal.events && LaidOut(s.argv[..], s.optind, s.argv[..st], goal.opts, goal.nonopts))
    ensures r.Some? ==>
      (s.Valid() && s.Start() == st && Reached(events + [r.value], s.Completed(), goal)
       && |s.Completed().events| < old(|s.Completed().events|))
  {
    ghost var before := s.Completed();
    r := s.Next();
    if r.None? {
      LayOut(s, st);
    } else {
      ghost var rest := s.Completed();
      assert before == After(r.value, rest);
      ReachedNext(events, r.value, rest, goal);
    }
  }

  /** The caller's loop: calls getopt until it returns -1. From a fresh scanner, `Completed()` is the
      left-to-right scan of the original vector behind `Start()`. */
  method ScanAll(s: Scanner) returns (events: seq<Event>)
    requires s.Valid() && s.argv.Length >= 1 && NoLongShort(s.cfg.optstring)
    modifies s, s.argv
    ensures events == old(s.Completed()).events
    ensures LaidOut(s.argv[..], s.optind, old(s.argv[..s.Start()]), old(s.Completed()).opts, old(s.Completed()).nonopts)
  {
    events := [];
    ghost var goal, st, head := s.Completed(), s.Start(), s.argv[..s.Start()];
    while true
      invariant s.Valid() && s.Start() == st && Reached(events, s.Completed(), goal)
      invariant s.argv[..st] == head
      decreases |s.Completed().events|
    {
      var r := NextOf(s, events, goal, st);
      if r.None? {
        return;
      }
      events := events + [r.value];
    }
  }

  /** The end of a long option's name: the first `=` or the end of the text. */
  method NameEnd(text: string) returns (n: nat)
    ensures n == |NameOf(text)|
  {
    n := 0;
    while n < |text| && text[n] != '='
      invariant n <= |text| && '=' !in text[..n]
    {
      n := n + 1;
    }
    IndexOfIs(text, '=', n);
  }

  /** The loop over the long-option table: an exact match ends it, abbreviations are collected. */
  method FindLong(table: seq<LongOption>, name: string, longOnly: bool) returns (m: Match)
    ensures m == Lookup(table, name, longOnly)
  {
    var pfound, ambig := |table|, false;
    for i := 0 to |table|
      invariant forall k :: 0 <= k < i ==> !Exact(table, name, k)
      invariant forall k :: 0 <= k < (if pfound < |table| then pfound else i) ==> !Abbreviates(table, name, k)
      invariant pfound == |table| || (pfound < i && Abbreviates(table, name, pfound))
      invariant pfound == |table| ==> !ambig
      invariant pfound < |table| ==> (ambig <==> exists k :: k < i && Clash(table, name, longOnly, pfound, k))
    {
      var p := table[i];
      if name <= p.name {
        assert Abbreviates(table, name, i);
        if |name| == |p.name| {
          assert Exact(table, name, i);
          return Found(i);
        } else if pfound == |table| {
          pfound := i;
        } else if longOnly || !Interchangeable(table[pfound], p) {
          assert Clash(table, name, longOnly, pfound, i);
          ambig := true;
        }
      }
    }
    m := if ambig then Ambiguous else if pfound < |table| then Found(pfound) else NotFound;
  }

  /** The outcome of a scan that reports `e` first. */
  function After(e: Event, o: Outcome): Outcome {
    o.(events := [e] + o.events)
  }

  /** Where the element at place k of a rotated sequence was before. */
  function RotatedFrom(lo: nat, mid: nat, hi: nat, k: nat): (i: int)
    requires lo <= mid <= hi
  {
    if k < lo || k >= hi then k else if k < lo + (hi - mid) then mid + (k - lo) else k - (hi - mid)
  }

  lemma RotatedAt<T>(s: seq<T>, lo: nat, mid: nat, hi: nat, k: nat)
    requires lo <= mid <= hi <= |s| && k < |s|
    ensures 0 <= RotatedFrom(lo, mid, hi, k) < |s| && Rotated(s, lo, mid, hi)[k] == s[RotatedFrom(lo, mid, hi, k)]
  {}

  /** Where the element at place k was before two blocks traded places. */
  function SwappedFrom(lo: nat, hi: nat, len: nat, k: nat): (i: int) {
    if lo <= k < lo + len then hi + (k - lo) else if hi <= k < hi + len then lo + (k - hi) else k
  }

  lemma SwappedAt<T>(s: seq<T>, lo: nat, hi: nat, len: nat, k: nat)
    requires lo + len <= hi && hi + len <= |s| && k < |s|
    ensures 0 <= SwappedFrom(lo, hi, len, k) < |s| && Swapped(s, lo, hi, len)[k] == s[SwappedFrom(lo, hi, len, k)]
  {}

  lemma SwappedNone<T>(s: seq<T>, lo: nat, hi: nat)
    requires lo <= hi <= |s|
    ensures Swapped(s, lo, hi, 0) == s
  {
    var t := Swapped(s, lo, hi, 0);
    forall k | 0 <= k < |s|
      ensures t[k] == s[k]
    {
      SwappedAt(s, lo, hi, 0, k);
    }
  }

  /** One more pair of elements trades places. */
  lemma SwappedNext<T>(s: seq<T>, lo: nat, hi: nat, i: nat)
    requires lo + i < hi && hi + i < |s|
    ensures var t := Swapped(s, lo, hi, i); t[lo + i := t[hi + i]][hi + i := t[lo + i]] == Swapped(s, lo, hi, i + 1)
  {
    var t := Swapped(s, lo, hi, i);
    SwappedAt(s, lo, hi, i, lo + i);
    SwappedAt(s, lo, hi, i, hi + i);
    var t', u := t[lo + i := t[hi + i]][hi + i := t[lo + i]], Swapped(s, lo, hi, i + 1);
    forall k | 0 <= k < |s|
      ensures t'[k] == u[k]
    {
      SwappedAt(s, lo, hi, i, k);
      SwappedAt(s, lo, hi, i + 1, k);
    }
  }

  lemma RotateNothing<T>(s: seq<T>, lo: nat, mid: nat, hi: nat)
    requires lo <= mid <= hi <= |s| && (lo == mid || mid == hi)
    ensures Rotated(s, lo, mid, hi) == s
  {
    var r := Rotated(s, lo, mid, hi);
    forall k | 0 <= k < |s|
      ensures r[k] == s[k]
    {
      RotatedAt(s, lo, mid, hi, k);
    }
  }

  /** Outside the two blocks nothing moves. */
  lemma RotatedKept<T>(s: seq<T>, lo: nat, mid: nat, hi: nat, from: nat, to: nat)
    requires lo <= mid <= hi <= |s| && from <= to <= |s| && (to <= lo || hi <= from)
    ensures Rotated(s, lo, mid, hi)[from..to] == s[from..to]
  {
    forall k | 0 <= k < to - from
      ensures Rotated(s, lo, mid, hi)[from..to][k] == s[from..to][k]
    {
      RotatedAt(s, lo, mid, hi, from + k);
    }
  }

  lemma RotatedUp<T>(s: seq<T>, lo: nat, mid: nat, hi: nat)
    requires lo <= mid <= hi <= |s|
    ensures Rotated(s, lo, mid, hi)[lo..lo + (hi - mid)] == s[mid..hi]
  {
    var r := Rotated(s, lo, mid, hi)[lo..lo + (hi - mid)];
    forall k | 0 <= k < hi - mid
      ensures r[k] == s[mid..hi][k]
    {
      RotatedAt(s, lo, mid, hi, lo + k);
    }
  }

  lemma RotatedDown<T>(s: seq<T>, lo: nat, mid: nat, hi: nat)
    requires lo <= mid <= hi <= |s|
    ensures Rotated(s, lo, mid, hi)[lo + (hi - mid)..hi] == s[lo..mid]
  {
    var r := Rotated(s, lo, mid, hi)[lo + (hi - mid)..hi];
    forall k | 0 <= k < mid - lo
      ensures r[k] == s[lo..mid][k]
    {
      RotatedAt(s, lo, mid, hi, lo + (hi - mid) + k);
    }
  }

  /** t elements from place o on join those in [st, lo) and [mid, o). */
  lemma TakenCut(s: seq<string>, st: nat, lo: nat, mid: nat, o: nat, t: nat)
    requires st <= lo <= mid <= o <= o + t <= |s|
    ensures s[st..lo] + s[mid..o + t] == s[st..lo] + s[mid..o] + s[o..][..t] && s[o..][t..] == s[o + t..]
  {
    CutAt(s, mid, o, o + t);
    assert s[o..][..t] == s[o..o + t];
  }

  /** [from, to) is [from, cut) and [cut, to). */
  lemma CutAt<T>(s: seq<T>, from: nat, cut: nat, to: nat)
    requires from <= cut <= to <= |s|
    ensures s[from..to] == s[from..cut] + s[cut..to]
  {}

  lemma RotatedSlices<T>(s: seq<T>, st: nat, lo: nat, mid: nat, hi: nat)
    requires st <= lo <= mid <= hi <= |s|
    ensures var r, cut := Rotated(s, lo, mid, hi), lo + (hi - mid);
      && r[..st] == s[..st] && r[st..cut] == s[st..lo] + s[mid..hi]
      && r[cut..hi] == s[lo..mid] && r[hi..] == s[hi..]
  {
    RotatedKept(s, lo, mid, hi, 0, st);
    RotatedKept(s, lo, mid, hi, st, lo);
    RotatedUp(s, lo, mid, hi);
    RotatedDown(s, lo, mid, hi);
    RotatedKept(s, lo, mid, hi, hi, |s|);
    CutAt(Rotated(s, lo, mid, hi), st, lo, lo + (hi - mid));
  }

  /** The element `--` at place o moves along with the options in front of it. */
  lemma DashesMoved(s: seq<string>, st: nat, lo: nat, mid: nat, o: nat)
    requires st <= lo <= mid <= o < |s|
    ensures var r, cut := Rotated(s, lo, mid, o + 1), lo + (o + 1 - mid);
      && r[..st] == s[..st] && r[st..cut] == s[st..lo] + s[mid..o] + [s[o]] && r[cut..] == s[lo..mid] + s[o + 1..]
  {
    var cut := lo + (o + 1 - mid);
    RotatedSlices(s, st, lo, mid, o + 1);
    TakenCut(s, st, lo, mid, o, 1);
    assert s[o..][..1] == [s[o]];
    CutAt(Rotated(s, lo, mid, o + 1), cut, o + 1, |s|);
  }

  /** The same without any non-options in front of it. */
  lemma DashesKept(s: seq<string>, st: nat, lo: nat, mid: nat, o: nat)
    requires st <= lo <= mid <= o < |s| && (lo == mid || mid == o + 1)
    ensures s[st..o + 1] == s[st..lo] + s[mid..o] + [s[o]] && s[o + 1..] == s[lo..mid] + s[o + 1..]
  {
    CutAt(s, st, lo, o);
    CutAt(s, st, o, o + 1);
  }

  lemma SourceAfterBottom(lo: nat, mid: nat, hi': nat, hi: nat, k: nat)
    requires lo <= mid <= hi' <= hi && mid - lo == hi - hi'
    ensures SwappedFrom(lo, hi', mid - lo, RotatedFrom(lo, mid, hi', k)) == RotatedFrom(lo, mid, hi, k)
  {}

  lemma SourceAfterTop(lo: nat, lo': nat, mid: nat, hi: nat, k: nat)
    requires lo <= lo' <= mid <= hi && hi - mid == lo' - lo
    ensures SwappedFrom(lo, mid, hi - mid, RotatedFrom(lo', mid, hi, k)) == RotatedFrom(lo, mid, hi, k)
  {}

  /** Swapping the short bottom block with the far end of the top block leaves the rest of the rotation to do. */
  lemma RotateShortBottom<T>(s: seq<T>, lo: nat, mid: nat, hi': nat, hi: nat)
    requires lo <= mid <= hi' <= hi <= |s| && mid - lo == hi - hi'
    ensures Rotated(Swapped(s, lo, hi', mid - lo), lo, mid, hi') == Rotated(s, lo, mid, hi)
  {
    var t := Swapped(s, lo, hi', mid - lo);
    var r, r' := Rotated(s, lo, mid, hi), Rotated(t, lo, mid, hi');
    forall k | 0 <= k < |s|
      ensures r'[k] == r[k]
    {
      RotatedAt(s, lo, mid, hi, k);
      RotatedAt(t, lo, mid, hi', k);
      SwappedAt(s, lo, hi', mid - lo, RotatedFrom(lo, mid, hi', k));
      SourceAfterBottom(lo, mid, hi', hi, k);
    }
  }

  lemma RotateShortTop<T>(s: seq<T>, lo: nat, lo': nat, mid: nat, hi: nat)
    requires lo <= lo' <= mid <= hi <= |s| && hi - mid == lo' - lo
    ensures Rotated(Swapped(s, lo, mid, hi - mid), lo', mid, hi) == Rotated(s, lo, mid, hi)
  {
    var t := Swapped(s, lo, mid, hi - mid);
    var r, r' := Rotated(s, lo, mid, hi), Rotated(t, lo', mid, hi);
    forall k | 0 <= k < |s|
      ensures r'[k] == r[k]
    {
      RotatedAt(s, lo, mid, hi, k);
      RotatedAt(t, lo', mid, hi, k);
      SwappedAt(s, lo, mid, hi - mid, RotatedFrom(lo', mid, hi, k));
      SourceAfterTop(lo, lo', mid, hi, k);
    }
  }
}
