/**
 What the calls of a run report, for every option string, table and list of arguments:
 laws about readings of whole lists, by the forms that options have on a command line.
 */
module GetoptReports {
  import opened Wrappers
  import opened GetoptScan
  import opened GetoptState

  /** A reading that begins with these options and these reports and goes on with s. */
  function Then(options: seq<string>, reports: seq<Report>, s: Split): Split
  {
    Split(options + s.options, s.operands, reports + s.reports, s.smooth)
  }

  /** What the option string says about a letter. */
  datatype Kind = Unknown | Plain | Required | Optional | LongName

  /** By what follows the letter. */
  function KindOf(c: char, what: string): Kind
  {
    if c == 'W' && ";" <= what then LongName
    else if "::" <= what then Optional
    else if ":" <= what then Required
    else Plain
  }

  /** What the option string declares c as, by the place where c first stands. */
  ghost predicate Declares(optstring: string, c: char, kind: Kind)
  {
    if c == ':' || c == ';' || c !in optstring then kind == Unknown
    else exists before, what :: optstring == before + [c] + what && c !in before && kind == KindOf(c, what)
  }

  lemma {:induction false} PositionIs(before: string, c: char, what: string)
    requires c !in before
    ensures Position(before + [c] + what, c) == |before|
    decreases |before|
  {
    var s := before + [c] + what;
    if before != [] {
      assert s[1..] == before[1..] + [c] + what;
      PositionIs(before[1..], c, what);
    }
  }

  lemma {:induction false} NoPosition(s: string, c: char)
    ensures Position(s, c) == |s| <==> c !in s
  {
  }

  /** How one letter is decoded, by what the option string says about it. */
  lemma {:induction false} LetterDecodes(cfg: Config, c: char, tail: string, rest: seq<string>, kind: Kind)
    requires rest != [] && Declares(cfg.optstring, c, kind)
    ensures var used := if tail == [] then 1 else 0;
      ShortDecode(cfg, rest, [c] + tail) ==
        match kind
        case Unknown => Outcome(used, tail, QUESTION, None)
        case Plain => Outcome(used, tail, c as int, None)
        case Optional => Outcome(1, "", c as int, if tail == [] then None else Some(tail))
        case Required =>
          if tail != [] then Outcome(1, "", c as int, Some(tail))
          else if |rest| == 1 then Outcome(1, "", Missing(cfg), None)
          else Outcome(2, "", c as int, Some(rest[1]))
        case LongName => WDecode(cfg, rest, tail)
  {
    hide WDecode;
    var o := cfg.optstring;
    NoPosition(o, c);
    assert ([c] + tail)[0] == c && ([c] + tail)[1..] == tail;
    if kind != Unknown {
      var before, what :| o == before + [c] + what && c !in before && kind == KindOf(c, what);
      PositionIs(before, c, what);
      AfterIs(before, c, what);
    }
  }

  lemma AfterIs(before: string, c: char, what: string)
    ensures var o := before + [c] + what; var p := |before|;
      && (Follows(o, p, 1, ':') <==> ":" <= what) && (Follows(o, p, 1, ';') <==> ";" <= what)
      && ("::" <= what <==> Follows(o, p, 1, ':') && Follows(o, p, 2, ':'))
  {
    var o, p := before + [c] + what, |before|;
    assert forall i | 0 <= i < |what| :: o[p + 1 + i] == what[i];
  }

  // ----- short options

  /** Arguments that begin with a dash and c are short options. */
  predicate Short(cfg: Config, c: char)
  {
    c != '-' && (cfg.longopts.None? || !cfg.longOnly)
  }

  /** The reading of an argument that is a cluster of short options. */
  lemma {:induction false} ClusterStarts(cfg: Config, c: char, tail: string, rest: seq<string>)
    requires Short(cfg, c)
    ensures var w := "-" + [c] + tail;
      Scan(cfg, [w] + rest, []) == Scan(cfg, [w] + rest, [c] + tail) && Dashed(w) && !LongApplies(cfg, w)
  {
    var w := "-" + [c] + tail;
    assert w[1..] == [c] + tail;
  }

  /** One letter of a cluster, and the reading after it. */
  lemma {:induction false} LetterScan(cfg: Config, w: string, c: char, tail: string, rest: seq<string>)
    requires Dashed(w) && !LongApplies(cfg, w)
    ensures var d := ShortDecode(cfg, [w] + rest, [c] + tail);
      Regular(d, [w] + rest, [c] + tail) ==>
        Scan(cfg, [w] + rest, [c] + tail) ==
          Then(([w] + rest)[..d.used], [Report(d.ret, d.arg)], Scan(cfg, ([w] + rest)[d.used..], d.next))
  {
    hide ShortDecode;
    assert Decode(cfg, [w] + rest, [c] + tail) == ShortDecode(cfg, [w] + rest, [c] + tail);
  }

  /** -cARG: attached text is the argument, of a letter that needs one or may have one. */
  lemma {:induction false} AttachedArgument(cfg: Config, c: char, arg: string, rest: seq<string>, kind: Kind)
    requires Short(cfg, c) && Declares(cfg.optstring, c, kind) && (kind == Required || kind == Optional) && arg != []
    ensures Scan(cfg, ["-" + [c] + arg] + rest, [])
      == Then(["-" + [c] + arg], [Report(c as int, Some(arg))], Scan(cfg, rest, []))
  {
    hide Declares;
    var w := "-" + [c] + arg;
    ClusterStarts(cfg, c, arg, rest);
    LetterDecodes(cfg, c, arg, [w] + rest, kind);
    LetterScan(cfg, w, c, arg, rest);
    assert ([w] + rest)[..1] == [w] && ([w] + rest)[1..] == rest;
  }

  /** -c ARG: the next argument is the argument of a letter that needs one, whatever it looks like. */
  lemma {:induction false} SeparateArgument(cfg: Config, c: char, arg: string, rest: seq<string>)
    requires Short(cfg, c) && Declares(cfg.optstring, c, Required)
    ensures Scan(cfg, ["-" + [c], arg] + rest, [])
      == Then(["-" + [c], arg], [Report(c as int, Some(arg))], Scan(cfg, rest, []))
  {
    hide Declares;
    var w := "-" + [c];
    assert w == "-" + [c] + "" && [w, arg] + rest == [w] + ([arg] + rest) && [c] + "" == [c];
    ClusterStarts(cfg, c, "", [arg] + rest);
    LetterDecodes(cfg, c, "", [w] + ([arg] + rest), Required);
    LetterScan(cfg, w, c, "", [arg] + rest);
    assert ([w, arg] + rest)[..2] == [w, arg] && ([w, arg] + rest)[2..] == rest;
  }

  /** -c at the end, for a letter that needs an argument: ':' if the option string begins with one, else '?'. */
  lemma {:induction false} MissingArgument(cfg: Config, c: char)
    requires Short(cfg, c) && Declares(cfg.optstring, c, Required)
    ensures Scan(cfg, ["-" + [c]], [])
      == Split(["-" + [c]], [], [Report(if ":" <= cfg.optstring then ':' as int else '?' as int, None)], true)
  {
    hide Declares;
    var w := "-" + [c];
    assert w == "-" + [c] + "" && [w] + [] == [w] && [c] + "" == [c];
    ClusterStarts(cfg, c, "", []);
    LetterDecodes(cfg, c, "", [w], Required);
    LetterScan(cfg, w, c, "", []);
    assert [w][..1] == [w] && [w][1..] == [];
    assert [w] + [] == [w];
  }

  /** -c alone, for a letter without an argument, one whose argument is optional, or an unknown one: the
      next argument is none of its business. */
  lemma {:induction false} LetterAlone(cfg: Config, c: char, rest: seq<string>, kind: Kind)
    requires Short(cfg, c) && Declares(cfg.optstring, c, kind) && (kind == Plain || kind == Optional || kind == Unknown)
    ensures Scan(cfg, ["-" + [c]] + rest, [])
      == Then(["-" + [c]], [Report(if kind == Unknown then '?' as int else c as int, None)], Scan(cfg, rest, []))
  {
    hide Declares;
    var w := "-" + [c];
    assert w == "-" + [c] + "" && [c] + "" == [c];
    ClusterStarts(cfg, c, "", rest);
    LetterDecodes(cfg, c, "", [w] + rest, kind);
    LetterScan(cfg, w, c, "", rest);
    assert ([w] + rest)[..1] == [w] && ([w] + rest)[1..] == rest;
  }

  /** What is left of a cluster is read without regard to the letters before it. */
  lemma {:induction false} ClusterSame(cfg: Config, w: string, x: string, next: string, rest: seq<string>)
    requires Dashed(w) && Dashed(x) && !LongApplies(cfg, w) && !LongApplies(cfg, x) && next != []
    ensures Scan(cfg, [w] + rest, next).reports == Scan(cfg, [x] + rest, next).reports
    ensures Scan(cfg, [w] + rest, next).smooth == Scan(cfg, [x] + rest, next).smooth
    decreases |next|
  {
    hide ShortDecode, Scan;
    var c, tail := next[0], next[1..];
    assert next == [c] + tail;
    DecodeSame(cfg, w, x, next, rest);
    var d := ShortDecode(cfg, [w] + rest, next);
    Roughly(cfg, w, c, tail, rest);
    Roughly(cfg, x, c, tail, rest);
    if Regular(d, [w] + rest, next) {
      LetterScan(cfg, w, c, tail, rest);
      LetterScan(cfg, x, c, tail, rest);
      if d.used == 0 {
        assert ([w] + rest)[0..] == [w] + rest && ([x] + rest)[0..] == [x] + rest;
        ClusterSame(cfg, w, x, d.next, rest);
      } else {
        assert ([w] + rest)[d.used..] == rest[d.used - 1..] == ([x] + rest)[d.used..];
      }
    }
  }

  lemma Roughly(cfg: Config, w: string, c: char, tail: string, rest: seq<string>)
    requires Dashed(w) && !LongApplies(cfg, w)
    ensures !Regular(ShortDecode(cfg, [w] + rest, [c] + tail), [w] + rest, [c] + tail) ==>
      Scan(cfg, [w] + rest, [c] + tail) == Split([], [w] + rest, [], false)
  {
    hide ShortDecode;
    assert Decode(cfg, [w] + rest, [c] + tail) == ShortDecode(cfg, [w] + rest, [c] + tail);
  }

  /** Decoding a letter does not look at the argument it stands in. */
  lemma {:induction false} DecodeSame(cfg: Config, w: string, x: string, next: string, rest: seq<string>)
    requires next != []
    ensures ShortDecode(cfg, [w] + rest, next) == ShortDecode(cfg, [x] + rest, next)
  {
    hide Lookup, NameOf, Position;
    assert forall i | 0 < i < |rest| + 1 :: ([w] + rest)[i] == ([x] + rest)[i];
  }

  /** -cREST is read as -c -REST, for a letter without an argument and for an unknown one. */
  lemma {:induction false} ClusterSplits(cfg: Config, c: char, more: string, rest: seq<string>, kind: Kind)
    requires Short(cfg, c) && Declares(cfg.optstring, c, kind) && (kind == Plain || kind == Unknown)
    requires more != [] && Short(cfg, more[0])
    ensures Scan(cfg, ["-" + [c] + more] + rest, []).reports == Scan(cfg, ["-" + [c], "-" + more] + rest, []).reports
    ensures Scan(cfg, ["-" + [c] + more] + rest, []).smooth == Scan(cfg, ["-" + [c], "-" + more] + rest, []).smooth
  {
    hide Declares, Scan, ShortDecode;
    var w, x := "-" + [c] + more, "-" + more;
    assert more == [more[0]] + more[1..] && x == "-" + [more[0]] + more[1..];
    ClusterStarts(cfg, c, more, rest);
    LetterDecodes(cfg, c, more, [w] + rest, kind);
    LetterScan(cfg, w, c, more, rest);
    assert ([w] + rest)[0..] == [w] + rest;
    LetterAlone(cfg, c, [x] + rest, kind);
    assert ["-" + [c], x] + rest == ["-" + [c]] + ([x] + rest);
    ClusterStarts(cfg, more[0], more[1..], rest);
    ClusterSame(cfg, w, x, more, rest);
  }

  // ----- long options

  /** dash introduces the long option s: two of them do, and with getopt_long_only one does before a
      name of several characters. */
  predicate Introduces(cfg: Config, dash: string, s: string)
  {
    && cfg.longopts.Some? && s != []
    && (dash == "--" || (dash == "-" && cfg.longOnly && s[0] != '-' && |s| > 1))
  }

  lemma {:induction false} NameIs(name: string, a: string)
    requires '=' !in name
    ensures NameOf(name) == name && NameOf(name + "=" + a) == name
    decreases |name|
  {
    var s := name + "=" + a;
    if name != [] {
      assert s[1..] == name[1..] + "=" + a;
      NameIs(name[1..], a);
    }
  }

  /** The reading of an argument that is a long option. */
  lemma {:induction false} LongScan(cfg: Config, dash: string, s: string, rest: seq<string>)
    requires Introduces(cfg, dash, s) && (dash == "--" || !Lookup(cfg.longopts.value, NameOf(s), cfg.longOnly).NoMatch?)
    ensures var w := [dash + s] + rest;
      var opts := cfg.longopts.value;
      var d := match Lookup(opts, NameOf(s), cfg.longOnly)
        case Found(i) => LongOutcome(cfg, opts[i], s, w, 1, None)
        case _ => Outcome(1, "", QUESTION, None);
      d.used <= |w| && Scan(cfg, w, []) == Then(w[..d.used], [Report(d.ret, d.arg)], Scan(cfg, w[d.used..], []))
  {
    hide Lookup, NameOf, ShortDecode;
    var w := [dash + s] + rest;
    assert w[0] == dash + s && (dash + s)[|dash|..] == s;
    assert dash == "-" ==> (dash + s)[1] == s[0];
    assert Start(cfg, w[0]) == s;
    assert Scan(cfg, w, []) == Scan(cfg, w, s);
  }

  /** --name=ARG: reported with the argument if the option may have one, and wrong otherwise. */
  lemma {:induction false} LongAttached(cfg: Config, dash: string, name: string, arg: string, i: nat, rest: seq<string>)
    requires '=' !in name && Introduces(cfg, dash, name + "=" + arg)
    requires Lookup(cfg.longopts.value, name, cfg.longOnly) == Found(i)
    ensures var o := cfg.longopts.value[i]; var w := dash + (name + "=" + arg);
      Scan(cfg, [w] + rest, []) ==
        Then([w], [if o.hasArg == 0 then Report('?' as int, None) else Report(if o.flag then 0 else o.val, Some(arg))],
             Scan(cfg, rest, []))
  {
    hide Lookup, Scan;
    var s := name + "=" + arg;
    NameIs(name, arg);
    LongScan(cfg, dash, s, rest);
    assert s[|name| + 1..] == arg;
    assert ([dash + s] + rest)[..1] == [dash + s] && ([dash + s] + rest)[1..] == rest;
  }

  /** --name ARG for an option that needs an argument: the next argument is that, whatever it looks like. */
  lemma {:induction false} LongSeparate(cfg: Config, dash: string, name: string, arg: string, i: nat, rest: seq<string>)
    requires '=' !in name && Introduces(cfg, dash, name)
    requires Lookup(cfg.longopts.value, name, cfg.longOnly) == Found(i) && cfg.longopts.value[i].hasArg == 1
    ensures var o := cfg.longopts.value[i]; var w := dash + name;
      Scan(cfg, [w, arg] + rest, []) ==
        Then([w, arg], [Report(if o.flag then 0 else o.val, Some(arg))], Scan(cfg, rest, []))
  {
    hide Lookup, Scan;
    NameIs(name, "");
    LongScan(cfg, dash, name, [arg] + rest);
    var w := dash + name;
    assert [w] + ([arg] + rest) == [w, arg] + rest;
    assert ([w, arg] + rest)[..2] == [w, arg] && ([w, arg] + rest)[2..] == rest;
  }

  /** --name otherwise: without an argument, or at the end for an option that needs one. */
  lemma {:induction false} LongAlone(cfg: Config, dash: string, name: string, i: nat, rest: seq<string>)
    requires '=' !in name && Introduces(cfg, dash, name)
    requires Lookup(cfg.longopts.value, name, cfg.longOnly) == Found(i)
    requires cfg.longopts.value[i].hasArg == 1 ==> rest == []
    ensures var o := cfg.longopts.value[i]; var w := dash + name;
      Scan(cfg, [w] + rest, []) ==
        Then([w], [Report(if o.hasArg == 1 then (if ":" <= cfg.optstring then ':' as int else '?' as int)
                          else if o.flag then 0 else o.val, None)],
             Scan(cfg, rest, []))
  {
    hide Lookup, Scan;
    NameIs(name, "");
    LongScan(cfg, dash, name, rest);
    var w := dash + name;
    assert ([w] + rest)[..1] == [w] && ([w] + rest)[1..] == rest;
  }

  /** A name that stands for no option, or for several, is reported as '?', and its argument with it is gone. */
  lemma {:induction false} LongWrong(cfg: Config, s: string, rest: seq<string>)
    requires Introduces(cfg, "--", s) && !Lookup(cfg.longopts.value, NameOf(s), cfg.longOnly).Found?
    ensures Scan(cfg, ["--" + s] + rest, []) == Then(["--" + s], [Report('?' as int, None)], Scan(cfg, rest, []))
  {
    hide Lookup, Scan, NameOf;
    LongScan(cfg, "--", s, rest);
    var w := "--" + s;
    assert ([w] + rest)[..1] == [w] && ([w] + rest)[1..] == rest;
  }

  /** -W NAME and -WNAME are other ways to write --NAME, when that is not wrong. */
  lemma {:induction false} LongByW(cfg: Config, s: string, i: nat, rest: seq<string>)
    requires cfg.longopts.Some? && !cfg.longOnly && Declares(cfg.optstring, 'W', LongName) && s != []
    requires Lookup(cfg.longopts.value, NameOf(s), false) == Found(i)
    requires var o := cfg.longopts.value[i];
      if |NameOf(s)| < |s| then o.hasArg != 0 else o.hasArg == 1 ==> rest != []
    ensures Scan(cfg, ["-W", s] + rest, []).reports == Scan(cfg, ["--" + s] + rest, []).reports
    ensures Scan(cfg, ["-W" + s] + rest, []).reports == Scan(cfg, ["--" + s] + rest, []).reports
  {
    hide Lookup, Scan, NameOf, Declares, ShortDecode;
    var d, w := "--" + s, "-W" + s;
    LongScan(cfg, "--", s, rest);
    assert w == "-" + ['W'] + s;
    ClusterStarts(cfg, 'W', s, rest);
    LetterDecodes(cfg, 'W', s, [w] + rest, LongName);
    LetterScan(cfg, w, 'W', s, rest);
    var e := ["W"];
    assert "-W" == "-" + ['W'] + "" && ['W'] + "" == ['W'];
    ClusterStarts(cfg, 'W', "", [s] + rest);
    LetterDecodes(cfg, 'W', "", ["-W"] + ([s] + rest), LongName);
    LetterScan(cfg, "-W", 'W', "", [s] + rest);
    assert ["-W", s] + rest == ["-W"] + ([s] + rest);
    Rests(d, w, s, rest);
  }

  lemma Rests(d: string, w: string, s: string, rest: seq<string>)
    ensures ([d] + rest)[1..] == rest && ([w] + rest)[1..] == rest && (["-W"] + ([s] + rest))[2..] == rest
    ensures rest != [] ==> ([d] + rest)[2..] == ([w] + rest)[2..] == (["-W"] + ([s] + rest))[3..] == rest[1..]
    ensures rest != [] ==> ([d] + rest)[1] == ([w] + rest)[1] == (["-W"] + ([s] + rest))[2] == rest[0]
  {
  }

  // ----- operands

  /** An operand is left to the end, and reading goes on. */
  lemma {:induction false} OperandWaits(cfg: Config, w: string, rest: seq<string>)
    requires w == "-" || !("-" <= w)
    ensures var s := Scan(cfg, rest, []);
      Scan(cfg, [w] + rest, []) == Split(s.options, [w] + s.operands, s.reports, s.smooth)
  {
    assert ([w] + rest)[1..] == rest;
    assert "-" <= w <==> |w| >= 1 && w[0] == '-';
  }

  /** After -- everything is an operand. */
  lemma {:induction false} DashesEnd(cfg: Config, rest: seq<string>)
    ensures Scan(cfg, ["--"] + rest, []) == Split(["--"], rest, [], true)
  {
    assert (["--"] + rest)[1..] == rest;
  }

  // ----- the orders in which nothing is permuted

  /** With REQUIRE_ORDER the calls report the beginning of what they would, and as much where there are no operands. */
  lemma {:induction false} InOrderReports(cfg: Config, all: bool, rest: seq<string>, next: string)
    ensures var r, s := ReadInOrder(cfg, all, rest, next), Scan(cfg, rest, next);
      && (!all ==> r.reports <= s.reports)
      && (s.smooth && s.operands == [] ==> r == Reading(|rest|, s.reports, true))
    decreases |rest|, if next == [] then 1 else 0, |next|
  {
    hide Decode;
    if rest != [] {
      if next == [] {
        if !Dashed(rest[0]) {
          InOrderReports(cfg, all, rest[1..], []);
        } else if rest[0] != "--" {
          InOrderReports(cfg, all, rest, Start(cfg, rest[0]));
        }
      } else if Dashed(rest[0]) {
        var d := Decode(cfg, rest, next);
        if Regular(d, rest, next) { InOrderReports(cfg, all, rest[d.used..], d.next); }
      }
    }
  }

  /** With RETURN_IN_ORDER an operand is reported in its place, as 1 with itself as the argument. */
  lemma {:induction false} OperandReported(cfg: Config, w: string, rest: seq<string>)
    requires w == "-" || !("-" <= w)
    ensures ReadInOrder(cfg, true, [w] + rest, []).reports == [Report(1, Some(w))] + ReadInOrder(cfg, true, rest, []).reports
    ensures ReadInOrder(cfg, false, [w] + rest, []) == Reading(0, [], true)
  {
    assert ([w] + rest)[1..] == rest;
    assert "-" <= w <==> |w| >= 1 && w[0] == '-';
  }
}
