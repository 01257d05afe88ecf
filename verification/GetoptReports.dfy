/** What a caller of getopt is told about each kind of option, in terms of argv, the option string and the long-option
    table (src/getopt/getopt.c). */
module GetoptReports {
  import opened Options
  import opened GetoptSpec
  import opened GetoptLaws

  /** The run `all` reports e first and goes on as `rest`. */
  predicate Reports(all: Outcome, e: Event, rest: Outcome) {
    all.events == [e] + rest.events && all.nonopts == rest.nonopts
  }

  // ---------- long options ----------

  /** For a row without a flag the call returns the row's value; for one with a flag it returns 0 and the value is
      stored through the flag. The row's number is reported either way. */
  function Matched(p: LongOption, i: nat, arg: Option<string>): Event {
    match p.flag
    case None => Event(p.val, arg, None, Some(i), None)
    case Some(flag) => Event(0, arg, None, Some(i), Some((flag, p.val)))
  }

  /** The text `name` finds row i of the table. */
  ghost predicate Finds(cfg: Config, name: string, i: nat) {
    && cfg.longopts.Some? && i < |cfg.longopts.value| && name != "" && '=' !in name
    && Lookup(cfg.longopts.value, name, cfg.longOnly) == Found(i)
  }

  /** How row p, number i, is reported, and the number of elements that takes. */
  function Reported(os: string, p: LongOption, i: nat, tail: string, next: Option<string>): (Event, nat) {
    if tail == "" then
      if p.hasArg != RequiredArgument then (Matched(p, i, None), 1)
      else if next.Some? then (Matched(p, i, next), 2)
      else (Event(if CharAt(os, 0, ':') then ':' as int else '?' as int, None, Some(p.val), None, None), 1)
    else if p.hasArg == NoArgument then (Event('?' as int, None, Some(p.val), None, None), 1)
    else (Matched(p, i, Some(tail[1..])), 1)
  }

  lemma DecodesAs(os: string, table: seq<LongOption>, i: nat, name: string, tail: string, next: Option<string>)
    requires i < |table| && '=' !in name && (tail == "" || tail[0] == '=')
    ensures var (e, n) := Reported(os, table[i], i, tail, next);
      DecodeLong(os, table, i, name + tail, next) == Decoded(e, "", n)
  {
    NameIs(name, tail);
    if tail != "" {
      assert (name + tail)[|name| + 1..] == tail[1..];
    }
  }

  /** The element `--name` or `--name=...` first. */
  lemma LongFirst(cfg: Config, name: string, tail: string, i: nat, args: seq<string>) returns (e: Event, n: nat)
    requires Finds(cfg, name, i) && (tail == "" || tail[0] == '=')
    ensures (e, n)
         == Reported(cfg.optstring, cfg.longopts.value[i], i, tail, if args == [] then None else Some(args[0]))
    ensures 1 <= n <= |args| + 1
    ensures Reports(Scan(cfg, cfg.optstring, "", ["--" + name + tail] + args), e,
                    Scan(cfg, cfg.optstring, "", args[n - 1..]))
  {
    var elem, o, d := "--" + name + tail, Outcome([], [], []), Decoded(Plain(0, None), "", 0);
    var next := if args == [] then None else Some(args[0]);
    assert Second([elem] + args) == next;
    LongOptionDecodes(cfg, name, tail, next);
    DecodesAs(cfg.optstring, cfg.longopts.value, i, name, tail, next);
    d, o := OneOption(cfg, elem, args);
    DropFront(elem, args, d.taken);
    e, n := d.event, d.taken;
  }

  /** `--name`, for a row that takes no argument or may do without. */
  lemma LongAlone(cfg: Config, name: string, i: nat, args: seq<string>)
    requires Finds(cfg, name, i) && cfg.longopts.value[i].hasArg != RequiredArgument
    ensures Reports(Scan(cfg, cfg.optstring, "", ["--" + name] + args), Matched(cfg.longopts.value[i], i, None),
                    Scan(cfg, cfg.optstring, "", args))
  {
    var e, n := LongFirst(cfg, name, "", i, args);
    assert "--" + name + "" == "--" + name && args[0..] == args;
  }

  /** `--name=arg`, for a row that takes an argument, required or not; arg may be empty. */
  lemma LongAttached(cfg: Config, name: string, arg: string, i: nat, args: seq<string>)
    requires Finds(cfg, name, i) && cfg.longopts.value[i].hasArg != NoArgument
    ensures Reports(Scan(cfg, cfg.optstring, "", ["--" + name + ("=" + arg)] + args),
                    Matched(cfg.longopts.value[i], i, Some(arg)), Scan(cfg, cfg.optstring, "", args))
  {
    var e, n := LongFirst(cfg, name, "=" + arg, i, args);
    assert ("=" + arg)[1..] == arg && args[0..] == args;
  }

  /** `--name arg`, for a row that requires one: arg is passed by, whatever it looks like. */
  lemma LongSeparate(cfg: Config, name: string, arg: string, i: nat, args: seq<string>)
    requires Finds(cfg, name, i) && cfg.longopts.value[i].hasArg == RequiredArgument
    ensures Reports(Scan(cfg, cfg.optstring, "", ["--" + name, arg] + args),
                    Matched(cfg.longopts.value[i], i, Some(arg)), Scan(cfg, cfg.optstring, "", args))
  {
    var e, n := LongFirst(cfg, name, "", i, [arg] + args);
    PairFront("--" + name, arg, args);
    assert "--" + name + "" == "--" + name && ([arg] + args)[1..] == args;
  }

  /** `--name` at the end of argv, for a row that requires an argument. */
  lemma LongMissing(cfg: Config, name: string, i: nat)
    requires Finds(cfg, name, i) && cfg.longopts.value[i].hasArg == RequiredArgument
    ensures Scan(cfg, cfg.optstring, "", ["--" + name])
         == Outcome([Event(if CharAt(cfg.optstring, 0, ':') then ':' as int else '?' as int, None,
                           Some(cfg.longopts.value[i].val), None, None)], ["--" + name], [])
  {
    var elem := "--" + name;
    var e, n := LongFirst(cfg, name, "", i, []);
    assert elem + "" == elem && [elem] + [] == [elem];
    ScanSplits(cfg, cfg.optstring, "", [elem]);
    OnlyElement(Scan(cfg, cfg.optstring, "", [elem]), elem);
  }

  lemma OnlyElement(o: Outcome, e: string)
    requires multiset([e]) == multiset(o.opts) + multiset(o.nonopts) && o.nonopts == []
    ensures o.opts == [e]
  {
    assert |multiset(o.opts)| == |o.opts| && |multiset([e])| == 1;
    assert o.opts[0] in multiset([e]);
  }

  /** `--name=arg`, for a row that takes no argument. */
  lemma LongUnwanted(cfg: Config, name: string, arg: string, i: nat, args: seq<string>)
    requires Finds(cfg, name, i) && cfg.longopts.value[i].hasArg == NoArgument
    ensures Reports(Scan(cfg, cfg.optstring, "", ["--" + name + ("=" + arg)] + args),
                    Event('?' as int, None, Some(cfg.longopts.value[i].val), None, None),
                    Scan(cfg, cfg.optstring, "", args))
  {
    var e, n := LongFirst(cfg, name, "=" + arg, i, args);
    assert args[0..] == args;
  }

  /** `--name`, with or without `=arg`, for a name that no row matches or that is ambiguous. */
  lemma LongUnmatched(cfg: Config, name: string, tail: string, args: seq<string>)
    requires cfg.longopts.Some? && name != "" && '=' !in name && (tail == "" || tail[0] == '=')
    requires !Lookup(cfg.longopts.value, name, cfg.longOnly).Found?
    ensures Reports(Scan(cfg, cfg.optstring, "", ["--" + name + tail] + args),
                    Event('?' as int, None, Some(0), None, None), Scan(cfg, cfg.optstring, "", args))
  {
    var e := "--" + name + tail;
    NameIs(name, tail);
    assert OptionText(cfg, e) == name + tail;
    var d, o := OneOption(cfg, e, args);
    DropFront(e, args, 1);
    assert args[0..] == args;
  }

  /** In the long-only mode one dash is as good as two, unless the element is a single known short option. */
  lemma OneDash(cfg: Config, name: string, tail: string, i: nat, args: seq<string>)
    requires cfg.longOnly && Finds(cfg, name, i) && name[0] != '-' && (tail == "" || tail[0] == '=')
    requires |name + tail| > 1 || name[0] !in cfg.optstring
    ensures var o := Scan(cfg, cfg.optstring, "", ["-" + (name + tail)] + args);
      var o' := Scan(cfg, cfg.optstring, "", ["--" + name + tail] + args);
      o.events == o'.events && o.nonopts == o'.nonopts
  {
    var e, e' := "-" + (name + tail), "--" + name + tail;
    assert Second([e] + args) == Second([e'] + args);
    OneDashDecodes(cfg, name, tail, i, Second([e] + args));
    LongOptionDecodes(cfg, name, tail, Second([e] + args));
    DecodesAs(cfg.optstring, cfg.longopts.value, i, name, tail, Second([e] + args));
    SameDecoding(cfg, e, e', args);
  }

  lemma OneDashDecodes(cfg: Config, name: string, tail: string, i: nat, next: Option<string>)
    requires cfg.longOnly && Finds(cfg, name, i) && name[0] != '-' && (tail == "" || tail[0] == '=')
    requires |name + tail| > 1 || name[0] !in cfg.optstring
    ensures var e := "-" + (name + tail);
      && !NonOption(e) && e != "--" && OptionText(cfg, e) == name + tail
      && Decode(cfg, cfg.optstring, e, name + tail, next)
           == DecodeLong(cfg.optstring, cfg.longopts.value, i, name + tail, next)
  {
    var e := "-" + (name + tail);
    NameIs(name, tail);
    assert e[0] == '-' && e[1] == (name + tail)[0] == name[0] && e[1..] == name + tail;
    assert TriesLong(cfg, cfg.optstring, e);
  }

  /** In the long-only mode a text behind one dash that no row matches is tried as short options. */
  lemma FallBack(cfg: Config, c: char, tail: string, args: seq<string>) returns (d: Decoded)
    requires cfg.longOnly && cfg.longopts.Some? && c != '-' && tail != ""
    requires Lookup(cfg.longopts.value, NameOf([c] + tail), true) == NotFound
    ensures var e := "-" + [c] + tail;
      && d == (if c in cfg.optstring then DecodeShort(cfg.optstring, [c] + tail, Second([e] + args))
               else Decoded(Event('?' as int, None, Some(0), None, None), "", 1))
      && (d.taken == 1 ==>
            Reports(Scan(cfg, cfg.optstring, "", [e] + args), d.event, Scan(cfg, cfg.optstring, "", args)))
  {
    var e, o := "-" + [c] + tail, Outcome([], [], []);
    DashText(c, tail);
    assert e[1] == c && OptionText(cfg, e) == [c] + tail && TriesLong(cfg, cfg.optstring, e);
    d, o := OneOption(cfg, e, args);
    if d.taken == 1 {
      DropFront(e, args, 1);
      assert args[0..] == args;
    }
  }

  /** There, `-carg` is c with its argument if the option string lists c with one, and unknown if it does not list c. */
  lemma FallBackAttached(cfg: Config, c: char, arg: string, args: seq<string>)
    requires cfg.longOnly && cfg.longopts.Some? && c != '-' && arg != ""
    requires Lookup(cfg.longopts.value, NameOf([c] + arg), true) == NotFound
    ensures KnownShort(cfg.optstring, c) && ShortKind(cfg.optstring, c) != NoArgument ==>
      Reports(Scan(cfg, cfg.optstring, "", ["-" + [c] + arg] + args), Event(c as int, Some(arg), None, None, None),
              Scan(cfg, cfg.optstring, "", args))
    ensures c !in cfg.optstring ==>
      Reports(Scan(cfg, cfg.optstring, "", ["-" + [c] + arg] + args), Event('?' as int, None, Some(0), None, None),
              Scan(cfg, cfg.optstring, "", args))
  {
    var d := FallBack(cfg, c, arg, args);
    assert ([c] + arg)[1..] == arg;
  }

  // ---------- which row a name finds ----------

  /** No row matches exactly if no row begins with the name; a name is ambiguous exactly if no row has it and two rows
      that begin with it differ in argument, flag or value, or at all in the long-only mode. */
  lemma LookupIs(table: seq<LongOption>, name: string, longOnly: bool)
    ensures Lookup(table, name, longOnly) == NotFound <==> forall k :: 0 <= k < |table| ==> !(name <= table[k].name)
    ensures Lookup(table, name, longOnly) == Ambiguous
       <==> (forall k :: 0 <= k < |table| ==> table[k].name != name)
            && exists j, k :: Differ(table, name, longOnly, j, k)
  {
    var e, i := FirstRow(table, name, true, 0), FirstRow(table, name, false, 0);
    assert forall k :: 0 <= k < |table| ==> (Abbreviates(table, name, k) <==> name <= table[k].name);
    assert forall k :: 0 <= k < |table| ==> (Exact(table, name, k) <==> table[k].name == name);
    if e == |table| && i < |table| {
      if k :| Clash(table, name, longOnly, i, k) {
        assert Differ(table, name, longOnly, i, k);
      }
      if j, k :| Differ(table, name, longOnly, j, k) {
        assert Clash(table, name, longOnly, i, j) || Clash(table, name, longOnly, i, k);
      }
    }
  }

  predicate Differ(table: seq<LongOption>, name: string, longOnly: bool, j: int, k: int) {
    && 0 <= j < k < |table| && name <= table[j].name && name <= table[k].name
    && (longOnly || table[j].hasArg != table[k].hasArg || table[j].flag != table[k].flag
        || table[j].val != table[k].val)
  }

  /** The row found has the name exactly, the first such row; or, if none has, begins with it, the first to do so. */
  lemma LookupFinds(table: seq<LongOption>, name: string, longOnly: bool, i: nat)
    requires Lookup(table, name, longOnly) == Found(i)
    ensures i < |table|
    ensures if exists k :: 0 <= k < |table| && table[k].name == name
            then table[i].name == name && forall k :: 0 <= k < i ==> table[k].name != name
            else name <= table[i].name && forall k :: 0 <= k < i ==> !(name <= table[k].name)
  {
    assert forall k :: 0 <= k < |table| ==> (Abbreviates(table, name, k) <==> name <= table[k].name);
    assert forall k :: 0 <= k < |table| ==> (Exact(table, name, k) <==> table[k].name == name);
  }

  // ---------- short options ----------

  /** The kind of a known option is the number of colons behind its first place in the option string, up to two. */
  lemma ShortKindIs(os: string, before: string, c: char, behind: string)
    requires os == before + [c] + behind && c !in before
    ensures ShortKind(os, c) == if CharAt(behind, 0, ':') && CharAt(behind, 1, ':') then OptionalArgument
                                else if CharAt(behind, 0, ':') then RequiredArgument else NoArgument
  {
    assert os[..|before|] == before && os[|before|] == c && os[|before| + 1..] == behind;
    IndexOfIs(os, c, |before|);
    assert forall k :: 0 <= k < |behind| ==> behind[k] == os[|before| + 1 + k];
  }

  /** The element `-c` with this tail is not tried as a long option. */
  predicate IsShort(cfg: Config, c: char, tail: string) {
    c != '-' && (!cfg.longOnly || (c in cfg.optstring && tail == ""))
  }

  lemma ShortFirst(cfg: Config, c: char, tail: string, args: seq<string>) returns (d: Decoded)
    requires IsShort(cfg, c, tail)
    ensures var e := "-" + [c] + tail;
      && d == DecodeShort(cfg.optstring, [c] + tail, Second([e] + args)) && d.taken <= |args| + 1
      && (d.taken > 0 ==>
            Reports(Scan(cfg, cfg.optstring, "", [e] + args), d.event,
                    Scan(cfg, cfg.optstring, "", args[d.taken - 1..])))
  {
    var e, o := "-" + [c] + tail, Outcome([], [], []);
    DashText(c, tail);
    assert OptionText(cfg, e) == [c] + tail;
    d, o := OneOption(cfg, e, args);
    if d.taken > 0 {
      DropFront(e, args, d.taken);
    }
  }

  /** `-c`, for an option that takes no argument or may do without: the call returns the character. */
  lemma ShortAlone(cfg: Config, c: char, args: seq<string>)
    requires IsShort(cfg, c, "") && KnownShort(cfg.optstring, c) && ShortKind(cfg.optstring, c) != RequiredArgument
    ensures Reports(Scan(cfg, cfg.optstring, "", ["-" + [c]] + args), Event(c as int, None, None, None, None),
                    Scan(cfg, cfg.optstring, "", args))
  {
    var d := ShortFirst(cfg, c, "", args);
    assert "-" + [c] + "" == "-" + [c] && [c] + "" == [c] && args[0..] == args;
  }

  /** `-carg`, for an option that takes an argument, required or not. */
  lemma ShortAttached(cfg: Config, c: char, arg: string, args: seq<string>)
    requires IsShort(cfg, c, arg) && KnownShort(cfg.optstring, c) && arg != ""
    requires ShortKind(cfg.optstring, c) != NoArgument
    ensures Reports(Scan(cfg, cfg.optstring, "", ["-" + [c] + arg] + args),
                    Event(c as int, Some(arg), None, None, None), Scan(cfg, cfg.optstring, "", args))
  {
    var d := ShortFirst(cfg, c, arg, args);
    assert ([c] + arg)[1..] == arg && args[0..] == args;
  }

  /** `-c arg`, for an option that requires one. */
  lemma ShortSeparate(cfg: Config, c: char, arg: string, args: seq<string>)
    requires IsShort(cfg, c, "") && KnownShort(cfg.optstring, c) && ShortKind(cfg.optstring, c) == RequiredArgument
    ensures Reports(Scan(cfg, cfg.optstring, "", ["-" + [c], arg] + args), Event(c as int, Some(arg), None, None, None),
                    Scan(cfg, cfg.optstring, "", args))
  {
    var d := ShortFirst(cfg, c, "", [arg] + args);
    PairFront("-" + [c], arg, args);
    assert "-" + [c] + "" == "-" + [c] && [c] + "" == [c] && ([arg] + args)[1..] == args;
  }

  /** `-c` at the end of argv, for an option that requires an argument. */
  lemma ShortMissing(cfg: Config, c: char)
    requires IsShort(cfg, c, "") && KnownShort(cfg.optstring, c) && ShortKind(cfg.optstring, c) == RequiredArgument
    ensures Scan(cfg, cfg.optstring, "", ["-" + [c]])
         == Outcome([Event(if CharAt(cfg.optstring, 0, ':') then ':' as int else '?' as int, None, Some(c as int),
                           None, None)], ["-" + [c]], [])
  {
    var e := "-" + [c];
    var d := ShortFirst(cfg, c, "", []);
    assert e + "" == e && [c] + "" == [c] && [e] + [] == [e];
    ScanSplits(cfg, cfg.optstring, "", [e]);
    OnlyElement(Scan(cfg, cfg.optstring, "", [e]), e);
  }

  /** `-c`, for a character that the option string does not list; `:` never counts as listed. */
  lemma ShortUnknown(cfg: Config, c: char, args: seq<string>)
    requires IsShort(cfg, c, "") && (c !in cfg.optstring || c == ':')
    ensures Reports(Scan(cfg, cfg.optstring, "", ["-" + [c]] + args),
                    Event('?' as int, None, Some(c as int), None, None), Scan(cfg, cfg.optstring, "", args))
  {
    var d := ShortFirst(cfg, c, "", args);
    assert "-" + [c] + "" == "-" + [c] && [c] + "" == [c] && args[0..] == args;
  }

  // ---------- non-options ----------

  /** Everything behind `--` is a non-option, and `--` itself is reported to nobody. */
  lemma DashesEnd(cfg: Config, os: string, args: seq<string>)
    ensures Scan(cfg, os, "", ["--"] + args) == Outcome([], ["--"], args)
  {
    assert (["--"] + args)[1..] == args;
  }

  /** A non-option is passed over, ends the run, or is reported as the argument of option 1: by the first character of
      the option string, and without a marker by the environment. */
  lemma NonOptionFirst(cfg: Config, os: string, elem: string, args: seq<string>)
    requires NonOption(elem)
    ensures var all, rest := Scan(cfg, os, "", [elem] + args), Scan(cfg, cfg.optstring, "", args);
      if CharAt(cfg.optstring, 0, '-') then
        all == Outcome([Event(1, Some(elem), None, None, None)] + rest.events, [elem] + rest.opts, rest.nonopts)
      else if CharAt(cfg.optstring, 0, '+') || cfg.posixlyCorrect then all == Outcome([], [], [elem] + args)
      else
        var same := Scan(cfg, os, "", args);
        all == Outcome(same.events, same.opts, [elem] + same.nonopts)
  {
    assert ([elem] + args)[1..] == args;
  }

  /** Options are the elements of at least two characters that begin with `-`. */
  lemma NonOptionIs(elem: string)
    ensures NonOption(elem) <==> elem == "" || elem == "-" || elem[0] != '-'
  {}
}
