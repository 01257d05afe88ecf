/** Laws of the getopt scan: what the documentation of src/getopt/getopt.c promises about option syntax,
    argument order and rescanning, for every argument vector. */
module GetoptLaws {
  import opened Options
  import opened GetoptSpec

  // ---------- nothing is lost and nothing is reordered ----------

  /** `whole` is a merge of `a` and `b` that keeps the order of both. */
  ghost predicate Merge<T>(whole: seq<T>, a: seq<T>, b: seq<T>) {
    if whole == [] then a == [] && b == []
    else
      || (a != [] && a[0] == whole[0] && Merge(whole[1..], a[1..], b))
      || (b != [] && b[0] == whole[0] && Merge(whole[1..], a, b[1..]))
  }

  lemma {:induction false} MergeFront<T>(front: seq<T>, whole: seq<T>, a: seq<T>, b: seq<T>)
    requires Merge(whole, a, b)
    ensures Merge(front + whole, front + a, b)
  {
    if front == [] {
      assert front + whole == whole && front + a == a;
    } else {
      MergeFront(front[1..], whole, a, b);
      assert (front + whole)[1..] == front[1..] + whole && (front + a)[1..] == front[1..] + a;
    }
  }

  lemma {:induction false} MergeRight<T>(s: seq<T>)
    ensures Merge(s, [], s)
  {
    if s != [] {
      MergeRight(s[1..]);
    }
  }

  lemma {:induction false} MergeCounts<T>(whole: seq<T>, a: seq<T>, b: seq<T>)
    requires Merge(whole, a, b)
    ensures multiset(whole) == multiset(a) + multiset(b)
  {
    if whole != [] {
      assert whole == [whole[0]] + whole[1..];
      if a != [] && a[0] == whole[0] && Merge(whole[1..], a[1..], b) {
        MergeCounts(whole[1..], a[1..], b);
        assert a == [a[0]] + a[1..];
      } else {
        MergeCounts(whole[1..], a, b[1..]);
        assert b == [b[0]] + b[1..];
      }
    }
  }

  /** One option: the scan is its event and what follows. */
  lemma ScanOption(cfg: Config, os: string, rest: string, args: seq<string>) returns (d: Decoded, o: Outcome)
    requires rest != "" && args != [] && |args[0]| >= 2
    ensures d == Decode(cfg, os, args[0], rest, Second(args)) && d.taken <= |args| && (d.rest != "" ==> d.taken == 0)
    ensures o == Scan(cfg, cfg.optstring, d.rest, args[d.taken..])
    ensures Scan(cfg, os, rest, args) == Outcome([d.event] + o.events, args[..d.taken] + o.opts, o.nonopts)
  {
    d := Decode(cfg, os, args[0], rest, Second(args));
    o := Scan(cfg, cfg.optstring, d.rest, args[d.taken..]);
  }

  /** Options and non-options split the scanned elements, each kind in its original order. */
  lemma {:induction false} ScanSplits(cfg: Config, os: string, rest: string, args: seq<string>)
    requires rest != "" ==> args != [] && |args[0]| >= 2
    ensures var o := Scan(cfg, os, rest, args);
      Merge(args, o.opts, o.nonopts) && multiset(args) == multiset(o.opts) + multiset(o.nonopts)
    decreases |args|, rest == "", |rest|
  {
    var out := Scan(cfg, os, rest, args);
    if rest != "" {
      var d, o := ScanOption(cfg, os, rest, args);
      ScanSplits(cfg, cfg.optstring, d.rest, args[d.taken..]);
      MergeFront(args[..d.taken], args[d.taken..], o.opts, o.nonopts);
      FrontAndBack(args, d.taken);
    } else if args == [] {
    } else if args[0] == "--" {
      MergeRight(args[1..]);
    } else if !NonOption(args[0]) {
      ScanSplits(cfg, os, OptionText(cfg, args[0]), args);
    } else {
      match OrderingOf(cfg)
      case RequireOrder => MergeRight(args);
      case ReturnInOrder => ScanSplits(cfg, cfg.optstring, "", args[1..]);
      case Permute => ScanSplits(cfg, os, "", args[1..]);
    }
    MergeCounts(args, out.opts, out.nonopts);
  }

  lemma FrontAndBack(args: seq<string>, n: nat)
    requires n <= |args|
    ensures args[..n] + args[n..] == args
  {}

  /** Without permutation a run leaves argv as it was, and in the in-order mode it leaves non-options only if it ended
      at a `--`. */
  lemma {:induction false} OnlyPermuteMoves(cfg: Config, os: string, rest: string, args: seq<string>)
    requires (rest != "" ==> args != [] && |args[0]| >= 2) && OrderingOf(cfg) != Permute
    ensures Unmoved(cfg, args, Scan(cfg, os, rest, args))
    decreases |args|, rest == "", |rest|
  {
    if rest != "" {
      var d := Decode(cfg, os, args[0], rest, Second(args));
      OnlyPermuteMoves(cfg, cfg.optstring, d.rest, args[d.taken..]);
      UnmovedFront(cfg, args, d.taken, [d.event], Scan(cfg, cfg.optstring, d.rest, args[d.taken..]));
    } else if args != [] && args[0] != "--" {
      if !NonOption(args[0]) {
        OnlyPermuteMoves(cfg, os, OptionText(cfg, args[0]), args);
      } else if OrderingOf(cfg) == ReturnInOrder {
        OnlyPermuteMoves(cfg, cfg.optstring, "", args[1..]);
        UnmovedFront(cfg, args, 1, [Plain(1, Some(args[0]))], Scan(cfg, cfg.optstring, "", args[1..]));
      }
    }
  }

  predicate Unmoved(cfg: Config, args: seq<string>, o: Outcome) {
    && o.opts + o.nonopts == args
    && (OrderingOf(cfg) == ReturnInOrder && o.nonopts != [] ==> o.opts != [] && o.opts[|o.opts| - 1] == "--")
  }

  lemma UnmovedFront(cfg: Config, args: seq<string>, n: nat, events: seq<Event>, o: Outcome)
    requires n <= |args| && Unmoved(cfg, args[n..], o)
    ensures Unmoved(cfg, args, Outcome(events + o.events, args[..n] + o.opts, o.nonopts))
  {
    assert args[..n] + o.opts + o.nonopts == args[..n] + (o.opts + o.nonopts);
    FrontAndBack(args, n);
  }

  // ---------- equivalent spellings ----------

  /** Inside a cluster of short options only the unread text matters, not the element it sits in. */
  lemma {:induction false} ClusterText(cfg: Config, os: string, rest: string, e: string, e': string, args: seq<string>)
    requires rest != "" && |e| >= 2 && |e'| >= 2
    requires !cfg.longOnly && (cfg.longopts.None? || (e[1] != '-' && e'[1] != '-'))
    ensures var o, o' := Scan(cfg, os, rest, [e] + args), Scan(cfg, os, rest, [e'] + args);
      o.events == o'.events && o.nonopts == o'.nonopts
    decreases |rest|
  {
    var d := Decode(cfg, os, e, rest, Second([e] + args));
    assert Second([e] + args) == Second([e'] + args);
    assert d == Decode(cfg, os, e', rest, Second([e'] + args));
    if d.taken == 0 {
      ClusterText(cfg, cfg.optstring, d.rest, e, e', args);
      assert ([e] + args)[0..] == [e] + args && ([e'] + args)[0..] == [e'] + args;
    } else {
      assert ([e] + args)[d.taken..] == args[d.taken - 1..] == ([e'] + args)[d.taken..];
    }
  }

  /** A scan that starts at an option element decodes its text and goes on behind what that took. */
  lemma OneOption(cfg: Config, elem: string, args: seq<string>) returns (d: Decoded, o: Outcome)
    requires !NonOption(elem) && elem != "--"
    ensures d == Decode(cfg, cfg.optstring, elem, OptionText(cfg, elem), Second([elem] + args))
    ensures d.taken <= |args| + 1 && (d.rest != "" ==> d.taken == 0)
    ensures o == Scan(cfg, cfg.optstring, d.rest, ([elem] + args)[d.taken..])
    ensures var all := Scan(cfg, cfg.optstring, "", [elem] + args);
      all.events == [d.event] + o.events && all.nonopts == o.nonopts
  {
    var a := [elem] + args;
    d := Decode(cfg, cfg.optstring, elem, OptionText(cfg, elem), Second(a));
    o := Scan(cfg, cfg.optstring, d.rest, a[d.taken..]);
    assert Scan(cfg, cfg.optstring, "", a) == Scan(cfg, cfg.optstring, OptionText(cfg, elem), a);
  }

  lemma DashText(c: char, tail: string)
    ensures ("-" + [c] + tail)[1..] == [c] + tail && ("-" + [c])[1..] == [c]
  {}

  lemma DropFront(e: string, args: seq<string>, n: nat)
    requires 0 < n <= |args| + 1
    ensures ([e] + args)[n..] == args[n - 1..]
  {}

  lemma PairFront(e: string, f: string, args: seq<string>)
    ensures [e] + ([f] + args) == [e, f] + args
    ensures ([e, f] + args)[1..] == [f] + args && ([e, f] + args)[2..] == args
  {}

  /** `-ab...` reports what `-a -b...` reports, when `a` takes no argument (or is unknown). */
  lemma ClusterSplits(cfg: Config, c: char, tail: string, args: seq<string>)
    requires !cfg.longOnly && c != '-' && tail != "" && tail[0] != '-'
    requires KnownShort(cfg.optstring, c) ==> ShortKind(cfg.optstring, c) == NoArgument
    ensures var o := Scan(cfg, cfg.optstring, "", ["-" + [c] + tail] + args);
      var o' := Scan(cfg, cfg.optstring, "", ["-" + [c], "-" + tail] + args);
      o.events == o'.events && o.nonopts == o'.nonopts
  {
    var e, e1, e2 := "-" + [c] + tail, "-" + [c], "-" + tail;
    DashText(c, tail);
    assert OptionText(cfg, e) == [c] + tail && OptionText(cfg, e1) == [c] && OptionText(cfg, e2) == tail;
    var d, o := OneOption(cfg, e, args);
    var d1, o1 := OneOption(cfg, e1, [e2] + args);
    PairFront(e1, e2, args);
    assert ([e] + args)[0..] == [e] + args;
    ClusterText(cfg, cfg.optstring, tail, e, e2, args);
  }

  /** `-ofoo` reports what `-o foo` reports, when `o` requires an argument. */
  lemma ShortArgumentAttached(cfg: Config, c: char, arg: string, args: seq<string>)
    requires !cfg.longOnly && c != '-' && arg != ""
    requires KnownShort(cfg.optstring, c) && ShortKind(cfg.optstring, c) == RequiredArgument
    ensures var o := Scan(cfg, cfg.optstring, "", ["-" + [c] + arg] + args);
      var o' := Scan(cfg, cfg.optstring, "", ["-" + [c], arg] + args);
      o.events == o'.events && o.nonopts == o'.nonopts && o.events != [] && o.events[0].optarg == Some(arg)
  {
    var e, e1 := "-" + [c] + arg, "-" + [c];
    DashText(c, arg);
    assert OptionText(cfg, e) == [c] + arg && OptionText(cfg, e1) == [c];
    var d, o := OneOption(cfg, e, args);
    var d1, o1 := OneOption(cfg, e1, [arg] + args);
    DropFront(e, args, 1);
    PairFront(e1, arg, args);
  }

  lemma NameIs(name: string, tail: string)
    requires '=' !in name && (tail == "" || tail[0] == '=')
    ensures NameOf(name + tail) == name
  {
    assert (name + tail)[..|name|] == name;
    IndexOfIs(name + tail, '=', |name|);
  }

  lemma LongOptionDecodes(cfg: Config, name: string, tail: string, next: Option<string>)
    requires cfg.longopts.Some? && name != "" && '=' !in name && (tail == "" || tail[0] == '=')
    requires var m := Lookup(cfg.longopts.value, name, cfg.longOnly); m.Found? && m.index < |cfg.longopts.value|
    ensures var elem, os, table := "--" + name + tail, cfg.optstring, cfg.longopts.value;
      && !NonOption(elem) && elem != "--" && OptionText(cfg, elem) == name + tail
      && Decode(cfg, os, elem, name + tail, next)
           == DecodeLong(os, table, Lookup(table, name, cfg.longOnly).index, name + tail, next)
  {
    NameIs(name, tail);
  }

  /** `--name=arg` reports what `--name arg` reports, when the option requires an argument. */
  lemma LongArgumentAttached(cfg: Config, name: string, arg: string, args: seq<string>)
    requires cfg.longopts.Some? && name != "" && '=' !in name
    requires var m := Lookup(cfg.longopts.value, name, cfg.longOnly);
      m.Found? && m.index < |cfg.longopts.value| && cfg.longopts.value[m.index].hasArg == RequiredArgument
    ensures var o := Scan(cfg, cfg.optstring, "", ["--" + name + "=" + arg] + args);
      var o' := Scan(cfg, cfg.optstring, "", ["--" + name, arg] + args);
      o.events == o'.events && o.nonopts == o'.nonopts && o.events != [] && o.events[0].optarg == Some(arg)
  {
    AttachedForm(cfg, name, arg, args);
    SeparateForm(cfg, name, arg, args);
  }

  lemma AttachedForm(cfg: Config, name: string, arg: string, args: seq<string>)
    requires cfg.longopts.Some? && name != "" && '=' !in name
    requires var m := Lookup(cfg.longopts.value, name, cfg.longOnly);
      m.Found? && m.index < |cfg.longopts.value| && cfg.longopts.value[m.index].hasArg == RequiredArgument
    ensures var table := cfg.longopts.value;
      var index, here, o := Lookup(table, name, cfg.longOnly).index,
                            Scan(cfg, cfg.optstring, "", ["--" + name + "=" + arg] + args),
                            Scan(cfg, cfg.optstring, "", args);
      here.events == [DecodeLong(cfg.optstring, table, index, name, Some(arg)).event] + o.events
      && here.nonopts == o.nonopts
      && here.events[0].optarg == Some(arg)
  {
    var e := "--" + name + "=" + arg;
    assert e == "--" + name + ("=" + arg);
    LongOptionDecodes(cfg, name, "=" + arg, Second([e] + args));
    var table := cfg.longopts.value;
    DecodeAttached(cfg.optstring, table, Lookup(table, name, cfg.longOnly).index, name, arg, Second([e] + args));
    var d, o := OneOption(cfg, e, args);
    assert ([e] + args)[1..] == args;
  }

  /** An attached argument takes no further element. */
  lemma DecodeAttached(os: string, table: seq<LongOption>, index: nat, name: string, arg: string, next: Option<string>)
    requires name != "" && '=' !in name && index < |table| && table[index].hasArg == RequiredArgument
    ensures var d := DecodeLong(os, table, index, name + ("=" + arg), next);
      && d.event == DecodeLong(os, table, index, name, Some(arg)).event
      && d.event.optarg == Some(arg) && d.rest == "" && d.taken == 1
  {
    var text := name + ("=" + arg);
    NameIs(name, "=" + arg);
    NameIs(name, "");
    assert name + "" == name && text[|name| + 1..] == arg;
  }

  lemma SeparateForm(cfg: Config, name: string, arg: string, args: seq<string>)
    requires cfg.longopts.Some? && name != "" && '=' !in name
    requires var m := Lookup(cfg.longopts.value, name, cfg.longOnly);
      m.Found? && m.index < |cfg.longopts.value| && cfg.longopts.value[m.index].hasArg == RequiredArgument
    ensures var table := cfg.longopts.value;
      var index, here, o := Lookup(table, name, cfg.longOnly).index,
                            Scan(cfg, cfg.optstring, "", ["--" + name, arg] + args),
                            Scan(cfg, cfg.optstring, "", args);
      here.events == [DecodeLong(cfg.optstring, table, index, name, Some(arg)).event] + o.events
      && here.nonopts == o.nonopts
  {
    var e := "--" + name;
    NameIs(name, "");
    LongOptionDecodes(cfg, name, "", Second([e, arg] + args));
    assert e == "--" + name + "" && name + "" == name;
    var d, o := OneOption(cfg, e, [arg] + args);
    PairFront(e, arg, args);
  }

  /** What is an abbreviation of row `i` only finds row `i`, and so does that row's full name. */
  lemma UniqueAbbreviation(table: seq<LongOption>, i: nat, name: string, longOnly: bool)
    requires i < |table| && name <= table[i].name
    requires forall k :: Abbreviates(table, name, k) ==> k == i
    ensures Lookup(table, name, longOnly) == Found(i) == Lookup(table, table[i].name, longOnly)
  {
    var full := table[i].name;
    assert Exact(table, full, i) && Abbreviates(table, name, i);
    assert forall k :: Abbreviates(table, full, k) ==> Abbreviates(table, name, k);
    assert forall k :: Exact(table, full, k) ==> Abbreviates(table, full, k);
    assert forall k :: Exact(table, name, k) ==> Abbreviates(table, name, k);
  }

  /** An abbreviation of exactly one row stands for that row's full name, argument and all. */
  lemma AbbreviationStandsForName(cfg: Config, i: nat, name: string, tail: string, args: seq<string>)
    requires cfg.longopts.Some? && i < |cfg.longopts.value|
    requires var full := cfg.longopts.value[i].name;
      && name != "" && name <= full && '=' !in full && (tail == "" || tail[0] == '=')
      && forall k :: Abbreviates(cfg.longopts.value, name, k) ==> k == i
    ensures var full := cfg.longopts.value[i].name;
      var o := Scan(cfg, cfg.optstring, "", ["--" + name + tail] + args);
      var o' := Scan(cfg, cfg.optstring, "", ["--" + full + tail] + args);
      o.events == o'.events && o.nonopts == o'.nonopts
  {
    var full := cfg.longopts.value[i].name;
    UniqueAbbreviation(cfg.longopts.value, i, name, cfg.longOnly);
    assert '=' !in name by {
      assert forall k :: 0 <= k < |name| ==> name[k] == full[k];
    }
    AbbreviationDecodes(cfg, i, name, tail, Second(["--" + name + tail] + args));
    SameDecoding(cfg, "--" + name + tail, "--" + full + tail, args);
  }

  lemma AbbreviationDecodes(cfg: Config, i: nat, name: string, tail: string, next: Option<string>)
    requires cfg.longopts.Some? && i < |cfg.longopts.value| && name != "" && '=' !in name
    requires var full := cfg.longopts.value[i].name;
      name <= full && '=' !in full && (tail == "" || tail[0] == '=')
    requires var full := cfg.longopts.value[i].name;
      Lookup(cfg.longopts.value, name, cfg.longOnly) == Found(i) == Lookup(cfg.longopts.value, full, cfg.longOnly)
    ensures var e, e' := "--" + name + tail, "--" + cfg.longopts.value[i].name + tail;
      && !NonOption(e) && e != "--" && !NonOption(e') && e' != "--"
      && Decode(cfg, cfg.optstring, e, OptionText(cfg, e), next)
           == Decode(cfg, cfg.optstring, e', OptionText(cfg, e'), next)
      && Decode(cfg, cfg.optstring, e, OptionText(cfg, e), next).taken > 0
  {
    LongOptionDecodes(cfg, name, tail, next);
    LongOptionDecodes(cfg, cfg.longopts.value[i].name, tail, next);
    DecodeLongTail(cfg.optstring, cfg.longopts.value, i, name, cfg.longopts.value[i].name, tail, next);
  }

  /** Once the row is found, only what follows the name counts. */
  lemma DecodeLongTail(os: string, table: seq<LongOption>, i: nat, name: string, name': string, tail: string,
                       next: Option<string>)
    requires i < |table| && '=' !in name && '=' !in name' && (tail == "" || tail[0] == '=')
    ensures DecodeLong(os, table, i, name + tail, next) == DecodeLong(os, table, i, name' + tail, next)
    ensures DecodeLong(os, table, i, name + tail, next).taken > 0
  {
    NameIs(name, tail);
    NameIs(name', tail);
    if tail != "" {
      assert (name + tail)[|name| + 1..] == tail[1..] == (name' + tail)[|name'| + 1..];
    }
  }

  /** Elements that decode alike, and leave no text, can stand for each other. */
  lemma SameDecoding(cfg: Config, e: string, e': string, args: seq<string>)
    requires !NonOption(e) && e != "--" && !NonOption(e') && e' != "--"
    requires var next := Second([e] + args); var os := cfg.optstring;
      var d := Decode(cfg, os, e, OptionText(cfg, e), next);
      d.taken > 0 && Decode(cfg, os, e', OptionText(cfg, e'), next) == d
    ensures var o, o' := Scan(cfg, cfg.optstring, "", [e] + args), Scan(cfg, cfg.optstring, "", [e'] + args);
      o.events == o'.events && o.nonopts == o'.nonopts
  {
    assert Second([e] + args) == Second([e'] + args);
    var d, o := OneOption(cfg, e, args);
    var d1, o1 := OneOption(cfg, e', args);
    DropFront(e, args, d.taken);
    DropFront(e', args, d.taken);
  }

  // ---------- scanning a permuted vector again ----------

  /** The option at the head of `rest` takes the following element as its argument if there is one. */
  ghost predicate WantsNext(cfg: Config, os: string, elem: string, rest: string)
    requires |elem| >= 2 && rest != ""
  {
    Decode(cfg, os, elem, rest, Some("")).taken == 2
  }

  /** The scan runs off the end of `args` looking for a required argument while it has a non-option in hand. */
  ghost predicate Starved(cfg: Config, os: string, rest: string, args: seq<string>, seen: bool)
    requires rest != "" ==> args != [] && |args[0]| >= 2
    decreases |args|, rest == "", |rest|
  {
    if rest != "" then
      var d := Decode(cfg, os, args[0], rest, Second(args));
      (seen && |args| == 1 && WantsNext(cfg, os, args[0], rest))
      || Starved(cfg, cfg.optstring, d.rest, args[d.taken..], seen)
    else if args == [] || args[0] == "--" then false
    else if !NonOption(args[0]) then Starved(cfg, os, OptionText(cfg, args[0]), args, seen)
    else Starved(cfg, os, "", args[1..], true)
  }

  lemma {:induction false} OptionsLead(cfg: Config, os: string, rest: string, args: seq<string>)
    requires rest != "" && args != [] && |args[0]| >= 2
    ensures var o := Scan(cfg, os, rest, args); o.opts != [] && o.opts[0] == args[0]
    decreases |rest|
  {
    var d := Decode(cfg, os, args[0], rest, Second(args));
    if d.taken == 0 {
      OptionsLead(cfg, cfg.optstring, d.rest, args);
    }
  }

  lemma {:induction false} OnlyNonOptions(cfg: Config, os: string, ns: seq<string>)
    requires OrderingOf(cfg) == Permute && forall n <- ns :: NonOption(n)
    ensures Scan(cfg, os, "", ns) == Outcome([], [], ns)
  {
    if ns != [] {
      assert NonOption(ns[0]) && ns[0] != "--";
      OnlyNonOptions(cfg, os, ns[1..]);
      var o := Scan(cfg, os, "", ns[1..]);
      assert Scan(cfg, os, "", ns) == Outcome(o.events, o.opts, [ns[0]] + o.nonopts);
    }
  }

  /** `again` repeats the scan `o`, with the non-options `ns` in front of its own; a starved one reports otherwise. */
  predicate Repeats(again: Outcome, o: Outcome, ns: seq<string>, starved: bool) {
    if starved then again.events != o.events else again == Outcome(o.events, o.opts, ns + o.nonopts)
  }

  /** Scanning `opts + (ns + nonopts)`, where `ns` are non-options skipped earlier: the same reports,
      unless the scan was starved and now finds a non-option for an argument. */
  lemma {:induction false} Rescan(cfg: Config, os: string, rest: string, args: seq<string>, ns: seq<string>)
    requires rest != "" ==> args != [] && |args[0]| >= 2
    requires OrderingOf(cfg) == Permute && forall n <- ns :: NonOption(n)
    ensures var o := Scan(cfg, os, rest, args);
      && (rest != "" ==> o.opts != [] && o.opts[0] == args[0])
      && Repeats(Scan(cfg, os, rest, o.opts + (ns + o.nonopts)), o, ns, Starved(cfg, os, rest, args, ns != []))
    decreases |args|, rest == "", |rest|
  {
    var out := Scan(cfg, os, rest, args);
    var tail := ns + out.nonopts;
    var p := out.opts + tail;
    if rest != "" {
      OptionsLead(cfg, os, rest, args);
      RescanOption(cfg, os, rest, args, ns);
    } else if args == [] {
      assert p == ns;
      OnlyNonOptions(cfg, os, ns);
    } else if args[0] == "--" {
      assert p[0] == "--" && p[1..] == tail;
    } else if !NonOption(args[0]) {
      OptionsLead(cfg, os, OptionText(cfg, args[0]), args);
      Rescan(cfg, os, OptionText(cfg, args[0]), args, ns);
    } else {
      Rescan(cfg, os, "", args[1..], ns + [args[0]]);
      var o := Scan(cfg, os, "", args[1..]);
      assert ns + [args[0]] + o.nonopts == tail;
    }
  }

  /** A last element that wants an argument ends the scan with nothing but itself. */
  lemma LastWants(cfg: Config, os: string, rest: string, elem: string, seen: bool)
    requires rest != "" && |elem| >= 2 && WantsNext(cfg, os, elem, rest)
    ensures Starved(cfg, os, rest, [elem], seen) == seen
    ensures Scan(cfg, os, rest, [elem]) == Outcome([Decode(cfg, os, elem, rest, None).event], [elem], [])
  {
    NextMatters(cfg, os, elem, rest, None, None);
    assert Second([elem]) == None && [elem][1..] == [] && [elem][..1] == [elem];
  }

  /** The one way a rescan differs: the starved option finds an argument. */
  lemma RescanCompletes(cfg: Config, os: string, rest: string, elem: string, ns: seq<string>)
    requires rest != "" && |elem| >= 2 && WantsNext(cfg, os, elem, rest) && ns != []
    ensures Scan(cfg, os, rest, [elem] + ns).events != Scan(cfg, os, rest, [elem]).events
  {
    LastWants(cfg, os, rest, elem, true);
    var d, d' := Decode(cfg, os, elem, rest, None), Decode(cfg, os, elem, rest, Some(ns[0]));
    assert d.event.optarg == None && d'.event.optarg == Some(ns[0]);
    assert Second([elem] + ns) == Some(ns[0]);
    assert Scan(cfg, os, rest, [elem] + ns).events[0] == d'.event;
  }

  /** The last element wants an argument: the rescan differs once there is something for it to take. */
  lemma RescanDangling(cfg: Config, os: string, rest: string, args: seq<string>, ns: seq<string>)
    requires rest != "" && |args| == 1 && |args[0]| >= 2 && WantsNext(cfg, os, args[0], rest)
    ensures var o := Scan(cfg, os, rest, args);
      && o.opts == args && o.nonopts == [] && Starved(cfg, os, rest, args, ns != []) == (ns != [])
      && (ns == [] ==> o.opts + (ns + o.nonopts) == args)
      && (ns != [] ==> Scan(cfg, os, rest, o.opts + (ns + o.nonopts)).events != o.events)
  {
    var elem := args[0];
    assert args == [elem];
    LastWants(cfg, os, rest, elem, ns != []);
    assert args + (ns + []) == [elem] + ns;
    if ns != [] {
      RescanCompletes(cfg, os, rest, elem, ns);
    }
  }

  lemma {:induction false} RescanOption(cfg: Config, os: string, rest: string, args: seq<string>, ns: seq<string>)
    requires rest != "" && args != [] && |args[0]| >= 2
    requires OrderingOf(cfg) == Permute && forall n <- ns :: NonOption(n)
    ensures var o := Scan(cfg, os, rest, args);
      && o.opts != [] && o.opts[0] == args[0]
      && Repeats(Scan(cfg, os, rest, o.opts + (ns + o.nonopts)), o, ns, Starved(cfg, os, rest, args, ns != []))
    decreases |args|, false, |rest|, 0
  {
    OptionsLead(cfg, os, rest, args);
    if |args| == 1 && WantsNext(cfg, os, args[0], rest) {
      RescanDangling(cfg, os, rest, args, ns);
    } else {
      SameNext(cfg, os, rest, args, ns);
      var d := Decode(cfg, os, args[0], rest, Second(args));
      var o := Scan(cfg, cfg.optstring, d.rest, args[d.taken..]);
      Rescan(cfg, cfg.optstring, d.rest, args[d.taken..], ns);
      StarvedOption(cfg, os, rest, args, ns != []);
      RescanStep(cfg, os, rest, args, ns, d, o, Starved(cfg, os, rest, args, ns != []));
    }
  }

  lemma StarvedOption(cfg: Config, os: string, rest: string, args: seq<string>, seen: bool)
    requires rest != "" && args != [] && |args[0]| >= 2 && !(|args| == 1 && WantsNext(cfg, os, args[0], rest))
    ensures var d := Decode(cfg, os, args[0], rest, Second(args));
      Starved(cfg, os, rest, args, seen) == Starved(cfg, cfg.optstring, d.rest, args[d.taken..], seen)
  {}

  /** Prepending one option to a scan and to its repetition. */
  lemma RescanStep(cfg: Config, os: string, rest: string, args: seq<string>, ns: seq<string>, d: Decoded, o: Outcome,
                   starved: bool)
    requires rest != "" && args != [] && |args[0]| >= 2
    requires d == Decode(cfg, os, args[0], rest, Second(args)) && o == Scan(cfg, cfg.optstring, d.rest, args[d.taken..])
    requires d.rest != "" ==> o.opts != [] && o.opts[0] == args[0]
    requires var p := args[..d.taken] + o.opts + (ns + o.nonopts);
      p != [] && p[0] == args[0] && Decode(cfg, os, p[0], rest, Second(p)) == d
    requires Repeats(Scan(cfg, cfg.optstring, d.rest, o.opts + (ns + o.nonopts)), o, ns, starved)
    ensures Repeats(Scan(cfg, os, rest, args[..d.taken] + o.opts + (ns + o.nonopts)),
                    Scan(cfg, os, rest, args), ns, starved)
  {
    var front := args[..d.taken];
    var p := front + o.opts + (ns + o.nonopts);
    FrontOfThree(front, o.opts, ns + o.nonopts);
    var d1, o1 := ScanOption(cfg, os, rest, args);
    var d2, again := ScanOption(cfg, os, rest, p);
    PrependBoth(d.event, front, o, again, ns, starved);
  }

  lemma FrontOfThree(a: seq<string>, b: seq<string>, c: seq<string>)
    ensures (a + b + c)[..|a|] == a && (a + b + c)[|a|..] == b + c
  {
    assert a + b + c == a + (b + c);
  }

  /** The relation between a scan and its repetition survives prepending the same step to both. */
  lemma PrependBoth(e: Event, front: seq<string>, o: Outcome, again: Outcome, ns: seq<string>, starved: bool)
    requires Repeats(again, o, ns, starved)
    ensures Repeats(Outcome([e] + again.events, front + again.opts, again.nonopts),
                    Outcome([e] + o.events, front + o.opts, o.nonopts), ns, starved)
  {
    assert ([e] + again.events)[1..] == again.events && ([e] + o.events)[1..] == o.events;
  }

  /** Otherwise the option at the head decodes as before, whatever now follows its element. */
  lemma SameNext(cfg: Config, os: string, rest: string, args: seq<string>, ns: seq<string>)
    requires rest != "" && args != [] && |args[0]| >= 2
    requires !(|args| == 1 && WantsNext(cfg, os, args[0], rest) && ns != [])
    ensures var o := Scan(cfg, os, rest, args);
      var p := o.opts + (ns + o.nonopts);
      && p != [] && p[0] == args[0]
      && Decode(cfg, os, p[0], rest, Second(p)) == Decode(cfg, os, args[0], rest, Second(args))
  {
    OptionsLead(cfg, os, rest, args);
    var o := Scan(cfg, os, rest, args);
    var p := o.opts + (ns + o.nonopts);
    NextMatters(cfg, os, args[0], rest, Second(args), Second(p));
    if WantsNext(cfg, os, args[0], rest) {
      if |args| == 1 {
        assert args[1..] == [] && p == args;
      } else {
        assert o.opts[..2] == args[..2];
        assert p[1] == args[1];
      }
    }
  }

  lemma NextMatters(cfg: Config, os: string, elem: string, rest: string, next: Option<string>, next': Option<string>)
    requires |elem| >= 2 && rest != ""
    ensures !WantsNext(cfg, os, elem, rest) ==> Decode(cfg, os, elem, rest, next) == Decode(cfg, os, elem, rest, next')
    ensures WantsNext(cfg, os, elem, rest) && next.Some? ==> Decode(cfg, os, elem, rest, next).taken == 2
    ensures WantsNext(cfg, os, elem, rest) && next.None? ==>
      Decode(cfg, os, elem, rest, next).taken == 1 && Decode(cfg, os, elem, rest, next).event.optarg == None
  {}

  /** Starting over on the vector that a whole run left behind reports the same and leaves it alone, exactly
      when that run did not end missing an argument with a non-option passed over. */
  lemma RescanRepeats(cfg: Config, os: string, args: seq<string>)
    requires OrderingOf(cfg) == Permute
    ensures var o := Scan(cfg, os, "", args);
      Scan(cfg, os, "", o.opts + o.nonopts) == o <==> !Starved(cfg, os, "", args, false)
  {
    var o := Scan(cfg, os, "", args);
    Rescan(cfg, os, "", args, []);
    assert [] + o.nonopts == o.nonopts;
  }

  /** `x -o` misses the argument of `o`; the vector `-o x` it leaves behind does not. */
  lemma RescanFindsArgument()
    ensures var cfg := Config("o:", None, false, false);
      var o := Scan(cfg, cfg.optstring, "", ["x", "-o"]);
      && o == Outcome([Failed('?' as int, 'o' as int)], ["-o"], ["x"])
      && Starved(cfg, cfg.optstring, "", ["x", "-o"], false)
      && Scan(cfg, cfg.optstring, "", o.opts + o.nonopts) == Outcome([Plain('o' as int, Some("x"))], ["-o", "x"], [])
  {
    var cfg := Config("o:", None, false, false);
    IndexOfIs("o:", 'o', 0);
    assert ["x", "-o"][1..] == ["-o"] && "-o"[1..] == "o" && "o"[1..] == "";
    LastWants(cfg, "o:", "o", "-o", true);
    assert Scan(cfg, "o:", "", ["-o"]) == Scan(cfg, "o:", "o", ["-o"]);
    assert Scan(cfg, "o:", "", ["x", "-o"]) == Outcome([Failed('?' as int, 'o' as int)], ["-o"], ["x"]);
    assert ["-o"] + ["x"] == ["-o", "x"] && ["-o", "x"][2..] == [] && ["-o", "x"][..2] == ["-o", "x"];
    assert Scan(cfg, "o:", "", ["-o", "x"]) == Scan(cfg, "o:", "o", ["-o", "x"]);
  }

  // ---------- the ordering marker ----------

  /** What kind of option a call takes c for, if it knows it. */
  function Use(os: string, c: char): Option<HasArg> {
    if KnownShort(os, c) then Some(ShortKind(os, c)) else None
  }

  /** Only the first call drops a leading `-` or `+` from the option string. That moves no other option... */
  lemma OthersKeepTheirUse(os: string, c: char)
    requires Marked(os) && c != os[0]
    ensures Use(os, c) == Use(os[1..], c)
  {
    assert os == [os[0]] + os[1..];
    if c in os[1..] {
      assert IndexOf(os, c) == 1 + IndexOf(os[1..], c);
    }
  }

  /** ... but makes the marker an option, and hides a `:` behind it. */
  lemma MarkerLeads(os: string)
    requires Marked(os)
    ensures Use(os, os[0]).Some? && MissingCode(os) == '?' as int
    ensures MissingCode(os[1..]) == if CharAt(os, 1, ':') then ':' as int else '?' as int
  {}

  /** Whether kinds `first` and `later` (None: unknown) decode alike on this tail and next element; with a hidden
      colon the first call reports a missing argument as `:` and later ones as `?`. */
  predicate Alike(first: Option<HasArg>, later: Option<HasArg>, tail: string, next: Option<string>, hiddenColon: bool) {
    match (first, later)
    case (None, None) => true
    case (None, Some(b)) => b == RequiredArgument && tail == "" && next == None
    case (Some(a), None) => false
    case (Some(a), Some(b)) =>
      if a == b then !(a == RequiredArgument && tail == "" && next == None && hiddenColon)
      else if a == RequiredArgument || b == RequiredArgument then
        tail != "" && (a == OptionalArgument || b == OptionalArgument)
      else tail == ""
  }

  /** The first call and a later one decode an option alike exactly when the kinds they take it for do. */
  lemma MarkerChangesDecoding(os: string, rest: string, next: Option<string>)
    requires Marked(os) && rest != ""
    ensures DecodeShort(os, rest, next) == DecodeShort(Unmarked(os), rest, next)
       <==> Alike(Use(Unmarked(os), rest[0]), Use(os, rest[0]), rest[1..], next, CharAt(os, 1, ':'))
  {
    MarkerLeads(os);
    if rest[0] != os[0] {
      OthersKeepTheirUse(os, rest[0]);
    }
  }

  /** A long option decodes alike unless its argument is missing and the marker hides a `:`. */
  lemma MarkerOnLongOptions(os: string, table: seq<LongOption>, i: nat, rest: string, next: Option<string>)
    requires Marked(os) && i < |table|
    ensures DecodeLong(os, table, i, rest, next) == DecodeLong(Unmarked(os), table, i, rest, next)
       <==> !('=' !in rest && table[i].hasArg == RequiredArgument && next == None && CharAt(os, 1, ':'))
  {
    MarkerLeads(os);
  }

  ghost predicate DecodesAlike(os: string, c: char, tail: string, next: Option<string>) {
    DecodeShort(os, [c] + tail, next) == DecodeShort(Unmarked(os), [c] + tail, next)
  }

  /** c is not the marker, or it is listed again with the kind that the marker's place gives it; and if it requires an
      argument, no `:` is hidden behind the marker. */
  predicate KeepsMeaning(os: string, c: char)
    requires Marked(os)
  {
    (c == os[0] ==> Use(os[1..], c) == Use(os, c)) && !(Use(os, c) == Some(RequiredArgument) && CharAt(os, 1, ':'))
  }

  /** In all its uses option c means later what it meant in the first call, exactly under that condition. */
  lemma MarkerBecomesOption(os: string, c: char)
    requires Marked(os)
    ensures (forall tail, next :: DecodesAlike(os, c, tail, next)) <==> KeepsMeaning(os, c)
  {
    forall tail, next
      ensures DecodesAlike(os, c, tail, next)
         <==> Alike(Use(os[1..], c), Use(os, c), tail, next, CharAt(os, 1, ':'))
    {
      MarkerChangesDecoding(os, [c] + tail, next);
      assert ([c] + tail)[1..] == tail;
    }
    if c != os[0] {
      OthersKeepTheirUse(os, c);
    }
    MarkerLeads(os);
    assert DecodesAlike(os, c, "", None) <==> Alike(Use(os[1..], c), Use(os, c), "", None, CharAt(os, 1, ':'));
    assert DecodesAlike(os, c, "a", None) <==> Alike(Use(os[1..], c), Use(os, c), "a", None, CharAt(os, 1, ':'));
  }

  /** With "+a+:" the marker, though listed again, loses its argument after the first call. */
  lemma MarkerLosesArgument()
    ensures Use(Unmarked("+a+:"), '+') == Some(RequiredArgument) && Use("+a+:", '+') == Some(NoArgument)
  {
    IndexOfIs("a+:", '+', 1);
    IndexOfIs("+a+:", '+', 0);
  }

  /** With "+:a:" a missing argument of `a` is reported as `:` by the first call and as `?` by later ones. */
  lemma MarkerHidesColon()
    ensures DecodeShort(Unmarked("+:a:"), "a", None).event == Failed(':' as int, 'a' as int)
    ensures DecodeShort("+:a:", "a", None).event == Failed('?' as int, 'a' as int)
  {
    IndexOfIs(":a:", 'a', 1);
    IndexOfIs("+:a:", 'a', 2);
  }

  /** `-+` behind another option, with option string "+a", is accepted; as the first option it is not. */
  lemma MarkerAccepted()
    ensures var cfg := Config("+a", None, false, false);
      && Scan(cfg, Unmarked(cfg.optstring), "", ["-+"]).events == [Failed('?' as int, '+' as int)]
      && Scan(cfg, Unmarked(cfg.optstring), "", ["-a", "-+"]).events
           == [Plain('a' as int, None), Plain('+' as int, None)]
  {
    var cfg, u := Config("+a", None, false, false), Unmarked("+a");
    assert u == "a";
    var a := ["-a", "-+"];
    assert OptionText(cfg, "-a") == "a" && OptionText(cfg, "-+") == "+";
    assert Decode(cfg, u, "-+", "+", None) == Decoded(Failed('?' as int, '+' as int), "", 1);
    assert ["-+"][1..] == [];
    assert "a"[1..] == "" && "+"[1..] == "";
    assert !CharAt(u, IndexOf(u, 'a') + 1, ':');
    assert Decode(cfg, u, "-a", "a", Some("-+")) == Decoded(Plain('a' as int, None), "", 1);
    assert a[1..] == ["-+"];
    assert IndexOf("+a", '+') == 0;
    assert Decode(cfg, "+a", "-+", "+", None) == Decoded(Plain('+' as int, None), "", 1);
  }
}
