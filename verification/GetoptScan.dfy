/**
 What getopt makes of a list of arguments when it is read once from left to right,
 with nothing permuted: how one option is decoded, and which arguments belong to
 options and which are operands.  C strings are sequences of characters, and ""
 stands both for a null and for an exhausted "next character" pointer.
 */
module GetoptScan {
  import opened Wrappers

  datatype LongOption = LongOption(name: string, hasArg: nat, flag: bool, val: int)

  /** The option string without its leading + or -, the long options if any, and getopt_long_only. */
  datatype Config = Config(optstring: string, longopts: Option<seq<LongOption>>, longOnly: bool)

  // ----- the table of long options

  datatype Match = Found(index: nat) | Ambiguous | NoMatch

  /** The part of s before the first '='. */
  function NameOf(s: string): (name: string)
    ensures name <= s && '=' !in name && (|name| < |s| ==> s[|name|] == '=')
  {
    if s == [] || s[0] == '=' then [] else [s[0]] + NameOf(s[1..])
  }

  /** The first option from index i on that is called name, or the number of options. */
  function ExactFrom(opts: seq<LongOption>, name: string, i: nat): (k: nat)
    requires i <= |opts|
    ensures i <= k <= |opts| && (k < |opts| ==> opts[k].name == name)
    ensures forall j | i <= j < k :: opts[j].name != name
    decreases |opts| - i
  {
    if i == |opts| || opts[i].name == name then i else ExactFrom(opts, name, i + 1)
  }

  /** The same for an option whose name begins with name. */
  function PrefixFrom(opts: seq<LongOption>, name: string, i: nat): (k: nat)
    requires i <= |opts|
    ensures i <= k <= |opts| && (k < |opts| ==> name <= opts[k].name)
    ensures forall j | i <= j < k :: !(name <= opts[j].name)
    decreases |opts| - i
  {
    if i == |opts| || name <= opts[i].name then i else PrefixFrom(opts, name, i + 1)
  }

  predicate Differ(a: LongOption, b: LongOption, longOnly: bool)
  {
    longOnly || a.hasArg != b.hasArg || a.flag != b.flag || a.val != b.val
  }

  /** An exact name wins; otherwise a prefix must not stand for two options that differ. */
  function Lookup(opts: seq<LongOption>, name: string, longOnly: bool): (m: Match)
    ensures m.Found? ==> m.index < |opts| && name <= opts[m.index].name
  {
    var e, p := ExactFrom(opts, name, 0), PrefixFrom(opts, name, 0);
    if e < |opts| then Found(e)
    else if p == |opts| then NoMatch
    else if exists j | p < j < |opts| :: name <= opts[j].name && Differ(opts[p], opts[j], longOnly) then Ambiguous
    else Found(p)
  }

  /** The first option whose name begins with name. */
  ghost predicate FirstPrefix(opts: seq<LongOption>, name: string, i: nat)
  {
    i < |opts| && name <= opts[i].name && forall k | 0 <= k < i :: !(name <= opts[k].name)
  }

  /** What the lookup answers, case by case: an exact name wins over any prefix; no name at all;
      and otherwise it is ambiguous exactly if an option differs from the first that fits. */
  lemma LookupExactly(opts: seq<LongOption>, name: string, longOnly: bool)
    ensures var m := Lookup(opts, name, longOnly);
      && (m.NoMatch? <==> forall j | 0 <= j < |opts| :: !(name <= opts[j].name))
      && ((exists j | 0 <= j < |opts| :: opts[j].name == name) ==>
            m.Found? && opts[m.index].name == name && forall k | 0 <= k < m.index :: opts[k].name != name)
      && ((forall j | 0 <= j < |opts| :: opts[j].name != name) ==>
            (m.Found? ==> FirstPrefix(opts, name, m.index))
            && (m.Ambiguous? <==> exists i, j | 0 <= i < j < |opts| ::
                  FirstPrefix(opts, name, i) && name <= opts[j].name && Differ(opts[i], opts[j], longOnly)))
  {
    var e, p := ExactFrom(opts, name, 0), PrefixFrom(opts, name, 0);
    if e < |opts| {
      assert opts[e].name == name && name <= opts[e].name;
    } else if p < |opts| {
      assert FirstPrefix(opts, name, p);
    }
  }

  // ----- one option

  /** What one call does at an option: arguments used up, what is left of the cluster, and what it reports. */
  datatype Outcome = Outcome(used: nat, next: string, ret: int, arg: Option<string>)

  const QUESTION := '?' as int

  function Missing(cfg: Config): int
  {
    if cfg.optstring != [] && cfg.optstring[0] == ':' then ':' as int else '?' as int
  }

  function Returned(o: LongOption): int
  {
    if o.flag then 0 else o.val
  }

  /** An argument that is an option: a dash and at least one more character. */
  predicate Dashed(w: string)
  {
    |w| >= 2 && w[0] == '-'
  }

  predicate LongApplies(cfg: Config, w: string)
    requires Dashed(w)
  {
    cfg.longopts.Some? && (w[1] == '-' || (cfg.longOnly && (|w| > 2 || w[1] !in cfg.optstring)))
  }

  /** Once the table says which option s names, its argument is what follows '=' or the next
      argument; without one that it needs, or with one it does not allow, arg stays as it was. */
  function LongOutcome(cfg: Config, o: LongOption, s: string, rest: seq<string>, used: nat, arg: Option<string>): Outcome
  {
    var name := NameOf(s);
    if |name| < |s| then
      if o.hasArg != 0 then Outcome(used, "", Returned(o), Some(s[|name| + 1..])) else Outcome(used, "", QUESTION, arg)
    else if o.hasArg == 1 then
      if used < |rest| then Outcome(used + 1, "", Returned(o), Some(rest[used])) else Outcome(used, "", Missing(cfg), arg)
    else Outcome(used, "", Returned(o), None)
  }

  /** A long option, or None when the letter in next is to be tried as a short one. */
  function LongDecode(cfg: Config, rest: seq<string>, next: string): Option<Outcome>
    requires rest != [] && Dashed(rest[0]) && next != [] && cfg.longopts.Some?
  {
    match Lookup(cfg.longopts.value, NameOf(next), cfg.longOnly)
    case Ambiguous => Some(Outcome(1, "", QUESTION, None))
    case Found(i) => Some(LongOutcome(cfg, cfg.longopts.value[i], next, rest, 1, None))
    case NoMatch =>
      if !cfg.longOnly || rest[0][1] == '-' || next[0] !in cfg.optstring
      then Some(Outcome(1, "", QUESTION, None)) else None
  }

  /** strchr */
  function Position(s: string, c: char): (p: nat)
    ensures p <= |s| && (p < |s| ==> s[p] == c) && forall j | 0 <= j < p :: s[j] != c
  {
    if s == [] || s[0] == c then 0 else 1 + Position(s[1..], c)
  }

  /** The option string says c at position p, and k further on. */
  predicate Follows(s: string, p: nat, k: nat, c: char)
  {
    p + k < |s| && s[p + k] == c
  }

  /** -W name as another spelling of --name. */
  function WDecode(cfg: Config, rest: seq<string>, tail: string): Outcome
    requires rest != []
  {
    if cfg.longopts.None? then Outcome(if tail == [] then 1 else 0, "", 'W' as int, None)
    else if tail == [] && |rest| == 1 then Outcome(1, "", Missing(cfg), None)
    else
      var used := if tail == [] then 2 else 1;
      var s := if tail == [] then rest[1] else tail;
      match Lookup(cfg.longopts.value, NameOf(s), cfg.longOnly)
      case Ambiguous => Outcome(used + 1, "", QUESTION, Some(s))
      case Found(i) => LongOutcome(cfg, cfg.longopts.value[i], s, rest, used, Some(s))
      case NoMatch => Outcome(used, "", 'W' as int, Some(s))
  }

  /** One letter of a cluster of short options. */
  function ShortDecode(cfg: Config, rest: seq<string>, next: string): Outcome
    requires rest != [] && next != []
  {
    var c, tail := next[0], next[1..];
    var p, used := Position(cfg.optstring, c), if tail == [] then 1 else 0;
    if p == |cfg.optstring| || c == ':' || c == ';' then Outcome(used, tail, QUESTION, None)
    else if c == 'W' && Follows(cfg.optstring, p, 1, ';') then WDecode(cfg, rest, tail)
    else if !Follows(cfg.optstring, p, 1, ':') then Outcome(used, tail, c as int, None)
    else if tail != [] then Outcome(1, "", c as int, Some(tail))
    else if Follows(cfg.optstring, p, 2, ':') then Outcome(1, "", c as int, None)
    else if |rest| == 1 then Outcome(1, "", Missing(cfg), None)
    else Outcome(2, "", c as int, Some(rest[1]))
  }

  /** What a call does when next is what is left of the option rest[0]. */
  function Decode(cfg: Config, rest: seq<string>, next: string): Outcome
    requires rest != [] && Dashed(rest[0]) && next != []
  {
    if LongApplies(cfg, rest[0]) then
      var d := LongDecode(cfg, rest, next);
      if d.Some? then d.value else ShortDecode(cfg, rest, next)
    else ShortDecode(cfg, rest, next)
  }

  /** The call makes progress and stays within the arguments. */
  predicate Regular(d: Outcome, rest: seq<string>, next: string)
  {
    d.used <= |rest| && (if d.used == 0 then 0 < |d.next| < |next| else d.next == [])
  }

  /** The -W branch is taken at next. */
  predicate TakesW(cfg: Config, rest: seq<string>, next: string)
    requires rest != [] && Dashed(rest[0]) && next != []
  {
    && !(LongApplies(cfg, rest[0]) && LongDecode(cfg, rest, next).Some?)
    && next[0] == 'W' && 'W' in cfg.optstring && Follows(cfg.optstring, Position(cfg.optstring, 'W'), 1, ';')
  }

  /** The two ways in which a call goes wrong, both with "W;" in the option string: without a table
      of long options -Wname is read again and again, and an ambiguous name given as the last
      argument moves past the end of the arguments. */
  predicate GoesWrong(cfg: Config, rest: seq<string>, next: string)
    requires rest != [] && Dashed(rest[0]) && next != []
  {
    var tail := next[1..];
    TakesW(cfg, rest, next) &&
    if cfg.longopts.None? then tail != []
    else if tail != [] then |rest| == 1 && Lookup(cfg.longopts.value, NameOf(tail), cfg.longOnly).Ambiguous?
    else |rest| == 2 && Lookup(cfg.longopts.value, NameOf(rest[1]), cfg.longOnly).Ambiguous?
  }

  /** No letter of the option string is W followed by ';', so neither can happen. */
  predicate Harmless(cfg: Config)
  {
    'W' in cfg.optstring ==> !Follows(cfg.optstring, Position(cfg.optstring, 'W'), 1, ';')
  }

  lemma RegularExactly(cfg: Config, rest: seq<string>, next: string)
    requires rest != [] && Dashed(rest[0]) && next != []
    ensures Regular(Decode(cfg, rest, next), rest, next) <==> !GoesWrong(cfg, rest, next)
  {
    hide Lookup, LongDecode, NameOf;
    if LongApplies(cfg, rest[0]) { LongRegular(cfg, rest, next); }
  }

  lemma LongRegular(cfg: Config, rest: seq<string>, next: string)
    requires rest != [] && Dashed(rest[0]) && next != [] && cfg.longopts.Some?
    ensures var d := LongDecode(cfg, rest, next); d.Some? ==> Regular(d.value, rest, next)
  {
    hide Lookup, NameOf;
  }

  // ----- the whole list

  /** What a call returns, and the argument it leaves in optarg. */
  datatype Report = Report(ret: int, arg: Option<string>)

  /** The arguments in the order a run leaves them, options with their arguments and then operands,
      and what its calls report; smooth tells that no call goes wrong. */
  datatype Split = Split(options: seq<string>, operands: seq<string>, reports: seq<Report>, smooth: bool)

  /** What a call starts from at the option w. */
  function Start(cfg: Config, w: string): (next: string)
    requires Dashed(w) && w != "--"
    ensures next != []
  {
    if cfg.longopts.Some? && w[1] == '-' then w[2..] else w[1..]
  }

  /** Reading rest from left to right, when next is what is left of the option rest[0]. */
  function Scan(cfg: Config, rest: seq<string>, next: string): Split
    decreases |rest|, if next == [] then 1 else 0, |next|
  {
    if rest == [] then Split([], [], [], true)
    else if next == [] then
      if !Dashed(rest[0]) then
        var s := Scan(cfg, rest[1..], []);
        Split(s.options, [rest[0]] + s.operands, s.reports, s.smooth)
      else if rest[0] == "--" then Split(["--"], rest[1..], [], true)
      else Scan(cfg, rest, Start(cfg, rest[0]))
    else if !Dashed(rest[0]) then Split([], rest, [], true)
    else
      var d := Decode(cfg, rest, next);
      if Regular(d, rest, next) then
        var s := Scan(cfg, rest[d.used..], d.next);
        Split(rest[..d.used] + s.options, s.operands, [Report(d.ret, d.arg)] + s.reports, s.smooth)
      else Split([], rest, [], false)
  }

  /** Reading the arguments loses and invents none. */
  lemma {:induction false} ScanKeeps(cfg: Config, rest: seq<string>, next: string)
    ensures var s := Scan(cfg, rest, next);
      |s.options| + |s.operands| == |rest| && multiset(s.options) + multiset(s.operands) == multiset(rest)
    decreases |rest|, if next == [] then 1 else 0, |next|
  {
    hide Decode;
    if rest != [] {
      assert rest == [rest[0]] + rest[1..];
      if next == [] {
        if !Dashed(rest[0]) { ScanKeeps(cfg, rest[1..], []); }
        else if rest[0] != "--" { ScanKeeps(cfg, rest, Start(cfg, rest[0])); }
      } else if Dashed(rest[0]) {
        var d := Decode(cfg, rest, next);
        if Regular(d, rest, next) {
          ScanKeeps(cfg, rest[d.used..], d.next);
          assert rest == rest[..d.used] + rest[d.used..];
        }
      }
    }
  }

  /** An option string without W; makes every reading smooth. */
  lemma {:induction false} HarmlessSmooth(cfg: Config, rest: seq<string>, next: string)
    requires Harmless(cfg)
    ensures Scan(cfg, rest, next).smooth
    decreases |rest|, if next == [] then 1 else 0, |next|
  {
    hide Decode, GoesWrong, Harmless;
    if rest != [] {
      if next == [] {
        if !Dashed(rest[0]) { HarmlessSmooth(cfg, rest[1..], []); }
        else if rest[0] != "--" { HarmlessSmooth(cfg, rest, Start(cfg, rest[0])); }
      } else if Dashed(rest[0]) {
        var d := Decode(cfg, rest, next);
        RegularExactly(cfg, rest, next);
        WrongNeedsW(cfg, rest, next);
        HarmlessSmooth(cfg, rest[d.used..], d.next);
      }
    }
  }

  lemma WrongNeedsW(cfg: Config, rest: seq<string>, next: string)
    requires rest != [] && Dashed(rest[0]) && next != []
    ensures GoesWrong(cfg, rest, next) ==> !Harmless(cfg)
  {
    hide Lookup, LongDecode;
  }

  // ----- arguments that go wrong

  /** Without a table, -Wx is read again and again: nothing is used up, and nothing is left of the option. */
  lemma {:induction false} ReadForEver()
    ensures var cfg, rest := Config("W;", None, false), ["-Wx"];
      && GoesWrong(cfg, rest, "Wx") && Decode(cfg, rest, "Wx") == Outcome(0, "", 'W' as int, None)
      && !Regular(Decode(cfg, rest, "Wx"), rest, "Wx") && !Scan(cfg, rest, []).smooth
  {
    var cfg, rest := Config("W;", None, false), ["-Wx"];
    assert Position(cfg.optstring, 'W') == 0 && Follows(cfg.optstring, 0, 1, ';');
    assert "Wx"[1..] == "x" && Start(cfg, "-Wx") == "Wx";
    assert Scan(cfg, rest, []) == Scan(cfg, rest, "Wx");
  }

  /** With a table in which al may stand for alpha and for alps, -Wal moves past the last argument. */
  lemma {:induction false} PastTheEnd()
    ensures var opts := [LongOption("alpha", 0, false, 1), LongOption("alps", 0, false, 2)];
      var cfg, rest := Config("W;", Some(opts), false), ["-Wal"];
      && GoesWrong(cfg, rest, "Wal") && Decode(cfg, rest, "Wal").used == 2 > |rest|
      && !Regular(Decode(cfg, rest, "Wal"), rest, "Wal") && !Scan(cfg, rest, []).smooth
  {
    var opts := [LongOption("alpha", 0, false, 1), LongOption("alps", 0, false, 2)];
    var cfg, rest := Config("W;", Some(opts), false), ["-Wal"];
    assert Position(cfg.optstring, 'W') == 0 && Follows(cfg.optstring, 0, 1, ';');
    assert "Wal"[1..] == "al" && Start(cfg, "-Wal") == "Wal";
    AlIsAmbiguous(opts);
    hide Lookup;
    assert Scan(cfg, rest, []) == Scan(cfg, rest, "Wal");
  }

  lemma {:induction false} AlIsAmbiguous(opts: seq<LongOption>)
    requires opts == [LongOption("alpha", 0, false, 1), LongOption("alps", 0, false, 2)]
    ensures NameOf("al") == "al" && Lookup(opts, "al", false).Ambiguous?
  {
    assert "al"[1..] == "l" && "l"[1..] == [] && NameOf([]) == [] && NameOf("l") == "l";
    LookupExactly(opts, "al", false);
    hide Lookup;
    assert "al" <= opts[0].name && "al" <= opts[1].name;
    assert FirstPrefix(opts, "al", 0) && Differ(opts[0], opts[1], false);
    assert |opts[0].name| == 5 && |opts[1].name| == 4;
  }
}
