/** What a run of getopt means, stated without any permutation: a pure left-to-right scan of the
    original argument vector (src/getopt/getopt.c). */
module GetoptSpec {
  import opened Options

  datatype HasArg = NoArgument | RequiredArgument | OptionalArgument

  /** One row of the long-option table; `flag` is the identity of the int it points to, if any. */
  datatype LongOption = LongOption(name: string, hasArg: HasArg, flag: Option<nat>, val: int)

  datatype Ordering = RequireOrder | Permute | ReturnInOrder

  datatype Config = Config(optstring: string, longopts: Option<seq<LongOption>>, longOnly: bool, posixlyCorrect: bool)

  /** What one call reports: the returned code and `optarg`, together with what the call stored through
      `optopt`, `longind` and the matched option's `flag`, if it stored anything. */
  datatype Event = Event(code: int, optarg: Option<string>, optopt: Option<int>, longind: Option<nat>,
                         store: Option<(nat, int)>)

  /** The effect of decoding one option: the event, the text left in the element, elements passed by. */
  datatype Decoded = Decoded(event: Event, rest: string, taken: nat)

  datatype Match = NotFound | Ambiguous | Found(index: nat)

  function Plain(code: int, optarg: Option<string>): Event {
    Event(code, optarg, None, None, None)
  }

  function Failed(code: int, optopt: int): Event {
    Event(code, None, Some(optopt), None, None)
  }

  // ---------- option strings ----------

  predicate Marked(optstring: string) {
    optstring != "" && (optstring[0] == '-' || optstring[0] == '+')
  }

  /** The option string the first call works with; later calls see the caller's own string again. */
  function Unmarked(optstring: string): string {
    if Marked(optstring) then optstring[1..] else optstring
  }

  function OrderingOf(cfg: Config): Ordering {
    if cfg.optstring != "" && cfg.optstring[0] == '-' then ReturnInOrder
    else if cfg.optstring != "" && cfg.optstring[0] == '+' then RequireOrder
    else if cfg.posixlyCorrect then RequireOrder
    else Permute
  }

  function IndexOf(s: string, c: char): (i: nat)
    ensures i <= |s| && c !in s[..i]
    ensures i < |s| ==> s[i] == c
    ensures i < |s| <==> c in s
  {
    if s == "" then 0 else if s[0] == c then 0 else 1 + IndexOf(s[1..], c)
  }

  lemma IndexOfIs(s: string, c: char, n: nat)
    requires n <= |s| && c !in s[..n] && (n < |s| ==> s[n] == c)
    ensures IndexOf(s, c) == n
  {}

  predicate CharAt(s: string, i: nat, c: char) {
    i < |s| && s[i] == c
  }

  predicate KnownShort(os: string, c: char) {
    c in os && c != ':'
  }

  function ShortKind(os: string, c: char): HasArg {
    var p := IndexOf(os, c);
    if !CharAt(os, p + 1, ':') then NoArgument
    else if CharAt(os, p + 2, ':') then OptionalArgument else RequiredArgument
  }

  /** The option string does not ask for the `-W foo` convention, which is not part of this model. */
  predicate NoLongShort(os: string) {
    !('W' in os && CharAt(os, IndexOf(os, 'W') + 1, ';'))
  }

  function MissingCode(os: string): int {
    if CharAt(os, 0, ':') then ':' as int else '?' as int
  }

  // ---------- short options ----------

  function DecodeShort(os: string, rest: string, next: Option<string>): Decoded
    requires rest != ""
  {
    var c, tail := rest[0], rest[1..];
    var step := if tail == "" then 1 else 0;
    if !KnownShort(os, c) then Decoded(Failed('?' as int, c as int), tail, step)
    else match ShortKind(os, c)
      case NoArgument => Decoded(Plain(c as int, None), tail, step)
      case OptionalArgument => Decoded(Plain(c as int, if tail == "" then None else Some(tail)), "", 1)
      case RequiredArgument =>
        if tail != "" then Decoded(Plain(c as int, Some(tail)), "", 1)
        else match next
          case None => Decoded(Failed(MissingCode(os), c as int), "", 1)
          case Some(arg) => Decoded(Plain(c as int, Some(arg)), "", 2)
  }

  // ---------- long options ----------

  function NameOf(text: string): string {
    text[..IndexOf(text, '=')]
  }

  predicate Exact(table: seq<LongOption>, name: string, i: int) {
    0 <= i < |table| && table[i].name == name
  }

  predicate Abbreviates(table: seq<LongOption>, name: string, i: int) {
    0 <= i < |table| && name <= table[i].name
  }

  /** The first row from `from` on that satisfies the exact (or the prefix) test, or |table|. */
  function FirstRow(table: seq<LongOption>, name: string, exact: bool, from: nat): (i: nat)
    requires from <= |table|
    ensures from <= i <= |table|
    ensures i < |table| ==> if exact then Exact(table, name, i) else Abbreviates(table, name, i)
    ensures forall k :: from <= k < i ==> if exact then !Exact(table, name, k) else !Abbreviates(table, name, k)
    decreases |table| - from
  {
    if from == |table| then from
    else if (if exact then Exact(table, name, from) else Abbreviates(table, name, from)) then from
    else FirstRow(table, name, exact, from + 1)
  }

  predicate Interchangeable(a: LongOption, b: LongOption) {
    a.hasArg == b.hasArg && a.flag == b.flag && a.val == b.val
  }

  /** A later row that the name abbreviates too and that would not mean the same as row `i`. */
  ghost predicate Clash(table: seq<LongOption>, name: string, longOnly: bool, i: nat, k: int)
    requires i < |table|
  {
    i < k < |table| && Abbreviates(table, name, k) && (longOnly || !Interchangeable(table[i], table[k]))
  }

  /** The documented rule: an exact name wins; otherwise an abbreviation must be unambiguous. */
  ghost function Lookup(table: seq<LongOption>, name: string, longOnly: bool): Match {
    var e := FirstRow(table, name, true, 0);
    var i := FirstRow(table, name, false, 0);
    if e < |table| then Found(e)
    else if i == |table| then NotFound
    else if exists k :: Clash(table, name, longOnly, i, k) then Ambiguous
    else Found(i)
  }

  function DecodeLong(os: string, table: seq<LongOption>, i: nat, rest: string, next: Option<string>): Decoded
    requires i < |table|
  {
    var p, name := table[i], NameOf(rest);
    var attached := |name| < |rest|;
    if attached && p.hasArg.NoArgument? then Decoded(Failed('?' as int, p.val), "", 1)
    else if !attached && p.hasArg.RequiredArgument? && next.None? then Decoded(Failed(MissingCode(os), p.val), "", 1)
    else
      var arg := if attached then Some(rest[|name| + 1..]) else if p.hasArg.RequiredArgument? then next else None;
      var code := if p.flag.Some? then 0 else p.val;
      var store := if p.flag.Some? then Some((p.flag.value, p.val)) else None;
      Decoded(Event(code, arg, None, Some(i), store), "", if !attached && p.hasArg.RequiredArgument? then 2 else 1)
  }

  predicate TriesLong(cfg: Config, os: string, elem: string)
    requires |elem| >= 2
  {
    cfg.longopts.Some? && (elem[1] == '-' || (cfg.longOnly && (|elem| > 2 || elem[1] !in os)))
  }

  /** One option decoded from `rest`, the unread text of the element `elem`; `next` is the element after it. */
  ghost function Decode(cfg: Config, os: string, elem: string, rest: string, next: Option<string>): (d: Decoded)
    requires |elem| >= 2 && rest != ""
    ensures d.taken == 0 ==> d.rest != "" && |d.rest| < |rest|
    ensures d.taken > 0 ==> d.rest == ""
    ensures d.taken <= 1 || (d.taken == 2 && next.Some?)
  {
    if !TriesLong(cfg, os, elem) then DecodeShort(os, rest, next)
    else match Lookup(cfg.longopts.value, NameOf(rest), cfg.longOnly)
      case Ambiguous => Decoded(Failed('?' as int, 0), "", 1)
      case Found(i) => DecodeLong(os, cfg.longopts.value, i, rest, next)
      case NotFound =>
        if !cfg.longOnly || elem[1] == '-' || rest[0] !in os then Decoded(Failed('?' as int, 0), "", 1)
        else DecodeShort(os, rest, next)
  }

  // ---------- the scan ----------

  datatype Outcome = Outcome(events: seq<Event>, opts: seq<string>, nonopts: seq<string>)

  predicate NonOption(elem: string) {
    |elem| < 2 || elem[0] != '-'
  }

  /** The option text of an element, without its leading punctuation. */
  function OptionText(cfg: Config, elem: string): string
    requires !NonOption(elem)
  {
    if cfg.longopts.Some? && elem[1] == '-' then elem[2..] else elem[1..]
  }

  function Second(args: seq<string>): Option<string> {
    if |args| > 1 then Some(args[1]) else None
  }

  /** Everything a whole run reports on `args`: the events in order, the elements that were options or
      option arguments, and the rest. A non-empty `rest` says the scan is inside args[0]; `os` is the
      option string the next call works with. */
  ghost function Scan(cfg: Config, os: string, rest: string, args: seq<string>): Outcome
    requires rest != "" ==> args != [] && |args[0]| >= 2
    decreases |args|, rest == "", |rest|
  {
    if rest != "" then
      var d := Decode(cfg, os, args[0], rest, Second(args));
      var o := Scan(cfg, cfg.optstring, d.rest, args[d.taken..]);
      Outcome([d.event] + o.events, args[..d.taken] + o.opts, o.nonopts)
    else if args == [] then Outcome([], [], [])
    else if args[0] == "--" then Outcome([], ["--"], args[1..])
    else if !NonOption(args[0]) then Scan(cfg, os, OptionText(cfg, args[0]), args)
    else match OrderingOf(cfg)
      case RequireOrder => Outcome([], [], args)
      case ReturnInOrder =>
        var o := Scan(cfg, cfg.optstring, "", args[1..]);
        Outcome([Plain(1, Some(args[0]))] + o.events, [args[0]] + o.opts, o.nonopts)
      case Permute =>
        var o := Scan(cfg, os, "", args[1..]);
        Outcome(o.events, o.opts, [args[0]] + o.nonopts)
  }
}
