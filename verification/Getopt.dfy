/**
 getopt as a resumable state machine: each call advances through argv, moving the
 operands it has skipped behind the options it has consumed.
 */
module Getopt {
  import opened Wrappers
  import opened GetoptScan
  import opened GetoptState
  import opened Rotation

  datatype Ordering = REQUIRE_ORDER | PERMUTE | RETURN_IN_ORDER

  /** The table lookup, as the loop that getopt runs over it. */
  method FindLong(opts: seq<LongOption>, name: string, longOnly: bool) returns (m: Match)
    ensures m == Lookup(opts, name, longOnly)
  {
    var found, ambiguous := -1, false;
    var i := 0;
    while i < |opts|
      invariant 0 <= i <= |opts| && -1 <= found < i
      invariant forall j | 0 <= j < i :: opts[j].name != name
      invariant found == -1 ==> !ambiguous && forall j | 0 <= j < i :: !(name <= opts[j].name)
      invariant found >= 0 ==> name <= opts[found].name && forall j | 0 <= j < found :: !(name <= opts[j].name)
      invariant found >= 0 ==> (ambiguous <==>
        exists j | found < j < i :: name <= opts[j].name && Differ(opts[found], opts[j], longOnly))
    {
      if name <= opts[i].name {
        if |name| == |opts[i].name| {
          assert opts[i].name == name;
          return Found(i);
        } else if found == -1 {
          found := i;
        } else if Differ(opts[found], opts[i], longOnly) {
          ambiguous := true;
        }
      }
      i := i + 1;
    }
    m := if found == -1 then NoMatch else if ambiguous then Ambiguous else Found(found);
  }

  class Parser {
    const argv: array<string>
    const optstring: string
    const longopts: Option<seq<LongOption>>
    const longOnly: bool
    const posixlyCorrect: bool
    var optind: nat
    var initialized: bool
    var nextchar: string
    var ordering: Ordering
    var firstNonopt: nat
    var lastNonopt: nat
    var optarg: Option<string>
    ghost var original: seq<string>
    ghost var start: nat
    ghost var reports: seq<Report>

    /** The option string without the leading character that chooses the ordering. */
    function Letters(): string
    {
      if optstring != [] && (optstring[0] == '-' || optstring[0] == '+') then optstring[1..] else optstring
    }

    function Cfg(): Config
    {
      Config(Letters(), longopts, longOnly)
    }

    /** Neither the option string nor the environment asks for another order. */
    predicate Permuting()
    {
      !(optstring != [] && (optstring[0] == '-' || optstring[0] == '+')) && !posixlyCorrect
    }

    /** Operands are to be reported one by one. */
    predicate Returning()
    {
      optstring != [] && optstring[0] == '-'
    }

    ghost predicate ReachedHere()
      reads this
    {
      Reached(Cfg(), Returning(), original, start, optind, nextchar, reports)
    }

    /** No call of the reading from left to right goes wrong. */
    ghost predicate Smooth()
      requires start <= |original|
      reads this
    {
      if Permuting() then Scan(Cfg(), original[start..], []).smooth
      else ReadInOrder(Cfg(), Returning(), original[start..], []).smooth
    }

    /** At the end of a run, in whatever order, with the final position at. */
    ghost predicate Over(at: nat)
      reads this, argv
    {
      if Permuting() then Finished(Cfg(), original, start, argv[..], at, reports)
      else argv[..] == original && Ended(Cfg(), Returning(), original, start, at, reports)
    }

    ghost predicate OnTrackHere()
      reads this, argv
    {
      OnTrack(Cfg(), original, start, argv[..], firstNonopt, lastNonopt, optind, nextchar, reports)
    }

    ghost predicate Valid()
      reads this, argv
    {
      if !initialized then
        nextchar == [] && reports == [] && optind <= argv.Length && original == argv[..] && start == (if optind == 0 then 1 else optind)
      else if ordering == PERMUTE then Permuting() && OnTrackHere()
      else
        && !Permuting() && (ordering == RETURN_IN_ORDER <==> Returning()) && original == argv[..]
        && start == firstNonopt == lastNonopt <= optind <= argv.Length && ReachedHere()
    }

    constructor (args: array<string>, optstring: string, longopts: Option<seq<LongOption>>, longOnly: bool,
                 posixlyCorrect: bool, optind: nat)
      requires optind <= args.Length
      ensures Valid() && !initialized && argv == args
      ensures original == args[..] && start == if optind == 0 then 1 else optind
    {
      argv, this.optstring, this.longopts, this.longOnly := args, optstring, longopts, longOnly;
      this.posixlyCorrect, this.optind := posixlyCorrect, optind;
      initialized, nextchar, optarg, ordering := false, [], None, PERMUTE;
      firstNonopt, lastNonopt := 0, 0;
      original, start, reports := args[..], if optind == 0 then 1 else optind, [];
    }

    /** _getopt_initialize */
    method Initialize()
      requires Valid() && !initialized && 0 < argv.Length
      modifies this`optind, this`firstNonopt, this`lastNonopt, this`nextchar, this`ordering, this`initialized
      ensures Valid() && initialized && nextchar == [] && original == old(original) && start == old(start)
      ensures optind == start
    {
      hide OnTrack;
      if optind == 0 { optind := 1; }
      firstNonopt, lastNonopt, nextchar := optind, optind, [];
      if optstring != [] && optstring[0] == '-' {
        ordering := RETURN_IN_ORDER;
      } else if optstring != [] && optstring[0] == '+' {
        ordering := REQUIRE_ORDER;
      } else if posixlyCorrect {
        ordering := REQUIRE_ORDER;
      } else {
        ordering := PERMUTE;
      }
      initialized := true;
      assert ordering == PERMUTE ==> OnTrackHere() by { Begin(Cfg(), original, start); }
      Outset(Cfg(), Returning(), original, start);
    }

    /** In PERMUTE order: options consumed since the last time move in front of the operands
        skipped, and the operands that come next are skipped. */
    method Settle()
      requires initialized && ordering == PERMUTE && Valid() && nextchar == []
      modifies this`optind, this`firstNonopt, this`lastNonopt, argv
      ensures Valid() && lastNonopt == optind >= old(optind)
      ensures optind < argv.Length ==> Dashed(argv[optind])
    {
      hide OnTrack, Rotated, Cfg;
      Bounds();
      if firstNonopt != lastNonopt && lastNonopt != optind {
        Exchanged(Cfg(), original, start, argv[..], firstNonopt, lastNonopt, optind, reports);
        Exchange(argv, firstNonopt, lastNonopt, optind);
        firstNonopt := firstNonopt + (optind - lastNonopt);
        lastNonopt := optind;
      } else if lastNonopt != optind {
        NoneSkipped(Cfg(), original, start, argv[..], firstNonopt, optind, reports);
        firstNonopt := optind;
      }
      ghost var from := optind;
      while optind < argv.Length && !Dashed(argv[optind])
        invariant from <= optind <= argv.Length
        invariant OnTrack(Cfg(), original, start, argv[..], firstNonopt, optind, optind, [], reports)
      {
        Skipped(Cfg(), original, start, argv[..], firstNonopt, optind, reports);
        optind := optind + 1;
      }
      lastNonopt := optind;
    }

    /** "--" ends the options: it joins them, and everything after it is an operand. */
    method PassDashes() returns (seen: bool)
      requires initialized && Valid() && nextchar == [] && (ordering == PERMUTE ==> lastNonopt == optind)
      modifies this`optind, this`firstNonopt, this`lastNonopt, argv
      ensures !seen ==> Valid() && optind == old(optind) && lastNonopt == old(lastNonopt)
      ensures !seen && optind < argv.Length ==> argv[optind] != "--" && argv[optind] == old(argv[optind])
      ensures seen ==> optind == lastNonopt == argv.Length
      ensures seen ==> Over(firstNonopt)
      ensures ordering == PERMUTE <==> Permuting()
    {
      hide OnTrack, Finished, Rotated, Cfg, Reached, Ended;
      Bounds();
      if optind == argv.Length || argv[optind] != "--" { return false; }
      if ordering == PERMUTE {
        DashDash(Cfg(), original, start, argv[..], firstNonopt, optind, reports);
      } else {
        EndReached(Cfg(), Returning(), original, start, optind, reports);
      }
      optind := optind + 1;
      if firstNonopt != lastNonopt && lastNonopt != optind {
        Exchange(argv, firstNonopt, lastNonopt, optind);
        firstNonopt := firstNonopt + (optind - lastNonopt);
        lastNonopt := optind;
      } else if firstNonopt == lastNonopt {
        if ordering == PERMUTE { NothingLeft(argv[..], firstNonopt, lastNonopt, optind); }
        firstNonopt := optind;
      }
      lastNonopt := argv.Length;
      optind := argv.Length;
      return true;
    }

    /** How far an option's name reaches. */
    method NameEnd(s: string) returns (n: nat)
      ensures n == |NameOf(s)|
    {
      hide NameOf;
      n := 0;
      while n < |s| && s[n] != '='
        invariant n <= |s| && forall k | 0 <= k < n :: s[k] != '='
      {
        n := n + 1;
      }
      NameLength(s, n);
    }

    lemma NameLength(s: string, n: nat)
      requires n <= |s| && (forall k | 0 <= k < n :: s[k] != '=') && (n < |s| ==> s[n] == '=')
      ensures n == |NameOf(s)|
    {
      var name := NameOf(s);
      assert forall k | 0 <= k < |name| :: name[k] == s[k];
    }

    /** A call's outcome is d, from position i on. */
    ghost predicate Is(d: Outcome, i: nat, ret: int)
      reads this
    {
      optind == i + d.used && nextchar == d.next && ret == d.ret && optarg == d.arg
    }

    /** What the table's option o, named at the beginning of s, takes as its argument. */
    method TakeLong(o: LongOption, s: string, ghost rest: seq<string>, ghost i: nat) returns (ret: int)
      requires i <= optind <= argv.Length && rest == argv[i..]
      modifies this`optind, this`nextchar, this`optarg
      ensures Is(LongOutcome(Cfg(), o, s, rest, old(optind) - i, old(optarg)), i, ret)
    {
      var n := NameEnd(s);
      nextchar := "";
      if n < |s| {
        if o.hasArg == 0 { return QUESTION; }
        optarg := Some(s[n + 1..]);
      } else if o.hasArg == 1 {
        if optind == argv.Length { return Missing(Cfg()); }
        optarg := Some(argv[optind]);
        optind := optind + 1;
      } else {
        optarg := None;
      }
      ret := Returned(o);
    }

    /** The long-option branch; unhandled when the letter is to be tried as a short option. */
    method LongOption() returns (handled: bool, ret: int)
      requires nextchar != [] && optind < argv.Length && Dashed(argv[optind]) && longopts.Some? && optarg == None
      modifies this`optind, this`nextchar, this`optarg
      ensures var d := LongDecode(Cfg(), argv[old(optind)..], old(nextchar));
        if handled then d.Some? && Is(d.value, old(optind), ret)
        else d.None? && optind == old(optind) && nextchar == old(nextchar) && optarg == None
    {
      hide Lookup, LongOutcome;
      ghost var rest, i := argv[optind..], optind;
      var s := nextchar;
      var n := NameEnd(s);
      assert s[..n] == NameOf(s);
      var m := FindLong(longopts.value, s[..n], longOnly);
      match m
      case Ambiguous =>
        nextchar := "";
        optind := optind + 1;
        return true, QUESTION;
      case Found(k) =>
        optind := optind + 1;
        ret := TakeLong(longopts.value[k], s, rest, i);
        return true, ret;
      case NoMatch =>
        if !longOnly || argv[optind][1] == '-' || s[0] !in Letters() {
          nextchar := "";
          optind := optind + 1;
          return true, QUESTION;
        }
        return false, 0;
    }

    /** -W name, once the W has been read. */
    method WOption(ghost rest: seq<string>, ghost i: nat) returns (ret: int)
      requires i < argv.Length && rest == argv[i..] && optarg == None
      requires optind == if nextchar == [] then i + 1 else i
      modifies this`optind, this`nextchar, this`optarg
      ensures Is(WDecode(Cfg(), rest, old(nextchar)), i, ret)
    {
      hide Lookup, LongOutcome;
      if longopts.None? {
        nextchar := "";
        return 'W' as int;
      }
      if nextchar != [] {
        optarg := Some(nextchar);
        optind := optind + 1;
      } else if optind == argv.Length {
        return Missing(Cfg());
      } else {
        optarg := Some(argv[optind]);
        optind := optind + 1;
      }
      var s := optarg.value;
      var n := NameEnd(s);
      assert s[..n] == NameOf(s);
      var m := FindLong(longopts.value, s[..n], longOnly);
      nextchar := "";
      match m
      case Ambiguous =>
        optind := optind + 1;
        ret := QUESTION;
      case Found(k) =>
        ret := TakeLong(longopts.value[k], s, rest, i);
      case NoMatch =>
        ret := 'W' as int;
    }

    /** The short-option branch. */
    method ShortOption() returns (ret: int)
      requires nextchar != [] && optind < argv.Length && optarg == None
      modifies this`optind, this`nextchar, this`optarg
      ensures Is(ShortDecode(Cfg(), argv[old(optind)..], old(nextchar)), old(optind), ret)
    {
      hide WDecode, Position;
      ghost var rest, i := argv[optind..], optind;
      var c := nextchar[0];
      var p := Position(Letters(), c);
      nextchar := nextchar[1..];
      if nextchar == [] { optind := optind + 1; }
      if p == |Letters()| || c == ':' || c == ';' { return QUESTION; }
      if c == 'W' && Follows(Letters(), p, 1, ';') {
        ret := WOption(rest, i);
        return;
      }
      ret := c as int;
      if Follows(Letters(), p, 1, ':') {
        if nextchar != [] {
          optarg := Some(nextchar);
          optind := optind + 1;
        } else if Follows(Letters(), p, 2, ':') {
          optarg := None;
        } else if optind == argv.Length {
          ret := Missing(Cfg());
        } else {
          optarg := Some(argv[optind]);
          optind := optind + 1;
        }
        nextchar := "";
      }
    }

    method TakeOption() returns (ret: int)
      requires nextchar != [] && optind < argv.Length && Dashed(argv[optind]) && optarg == None
      modifies this`optind, this`nextchar, this`optarg
      ensures Is(Decode(Cfg(), argv[old(optind)..], old(nextchar)), old(optind), ret)
    {
      hide LongDecode, ShortDecode;
      if LongApplies(Cfg(), argv[optind]) {
        var handled;
        handled, ret := LongOption();
        if handled { return; }
      }
      ret := ShortOption();
    }

    /** argv is a permutation of what it was when the run began. */
    ghost predicate Permuted()
      reads this`original, argv
    {
      multiset(argv[..]) == multiset(original)
    }

    /** The positions are ready for an option to be read at optind. */
    ghost predicate AtOption()
      reads this, argv
    {
      initialized && Valid() && nextchar != [] && optind < argv.Length && Dashed(argv[optind]) && optarg == None
    }

    /** The beginning of a call made between options: done, an operand to report, or an option to read. */
    method Advance() returns (done: bool, operand: bool)
      requires initialized && Valid() && nextchar == [] && optarg == None
      modifies this`optind, this`firstNonopt, this`lastNonopt, this`nextchar, this`optarg, this`reports, argv
      ensures done ==> Over(optind)
      ensures !done ==> Valid() && optind >= old(optind)
      ensures done ==> Permuted()
      ensures reports == old(reports) + if !done && operand then [Report(1, optarg)] else []
      ensures !done && operand ==> ordering == RETURN_IN_ORDER && nextchar == []
      ensures !done && operand ==> optind == old(optind) + 1 && optarg == Some(original[old(optind)])
      ensures !done && !operand ==> AtOption()
    {
      hide OnTrack, Finished, Rotated, Cfg, Permuted, Reached, Ended;
      done, operand := false, false;
      if ordering == PERMUTE { Settle(); }
      Bounds();
      var seen := PassDashes();
      if optind == argv.Length {
        if ordering == PERMUTE && !seen { AtEnd(Cfg(), original, start, argv[..], firstNonopt, reports); }
        if ordering != PERMUTE && !seen { EndReached(Cfg(), Returning(), original, start, optind, reports); }
        if firstNonopt != lastNonopt { optind := firstNonopt; }
        DonePermutes();
        done := true;
      } else if !Dashed(argv[optind]) {
        if ordering == REQUIRE_ORDER {
          EndReached(Cfg(), Returning(), original, start, optind, reports);
          DonePermutes();
          done := true;
          return;
        }
        OperandReached(Cfg(), original, start, optind, reports);
        optarg := Some(argv[optind]);
        optind := optind + 1;
        reports := reports + [Report(1, optarg)];
        operand := true;
      } else {
        if ordering == PERMUTE {
          Entered(Cfg(), original, start, argv[..], firstNonopt, lastNonopt, optind, reports);
        } else {
          OptionReached(Cfg(), Returning(), original, start, optind, reports);
        }
        nextchar := Start(Cfg(), argv[optind]);
      }
    }

    /** The start of every call. */
    method Prepare()
      requires Valid() && 0 < argv.Length
      modifies this`optind, this`firstNonopt, this`lastNonopt, this`nextchar, this`ordering, this`initialized, this`optarg
      ensures Valid() && initialized && optarg == None && nextchar == old(nextchar)
      ensures optind == if old(optind) == 0 && !old(initialized) then 1 else old(optind)
    {
      hide OnTrack;
      optarg := None;
      if !initialized { Initialize(); }
    }

    /** One call of getopt.  done stands for the result -1, which an option's own value could also be;
        wrong tells that the call has made no progress or has left the arguments. */
    method Next() returns (done: bool, ret: int, wrong: bool)
      requires Valid()
      modifies this, argv
      ensures original == old(original) && start == old(start)
      ensures Permuted()
      ensures done && argv.Length > 0 ==> Over(optind)
      ensures argv.Length == 0 ==> done
      ensures reports == old(reports) + if done then [] else [Report(ret, optarg)]
      ensures wrong ==> !done && !Harmless(Cfg())
      ensures argv.Length > 0 ==> start <= |original|
      ensures wrong ==> start <= |original| && !Smooth()
      ensures !done ==> initialized
      ensures !done && !wrong ==> Valid() && Progress() && optind <= argv.Length
    {
      hide Permuted, Finished, OnTrack, Valid, Cfg, Harmless, GoesWrong, Dashed, Permuting;
      done, ret, wrong := false, 1, false;
      if argv.Length == 0 {
        ValidPermutes();
        done := true;
        return;
      }
      Prepare();
      if nextchar == [] {
        var operand;
        Bounds();
        done, operand := Advance();
        if done { return; }
        if operand {
          ValidPermutes();
          Bounds();
          return;
        }
      }
      ValidPermutes();
      Ready();
      ret, wrong := Consume();
      if !wrong { Bounds(); }
    }

    /** What a caller can measure a run's progress by. */
    twostate predicate Progress()
      reads this
    {
      || optind > old(optind)
      || (optind == old(optind) && nextchar != [] && (old(nextchar) == [] || |nextchar| < |old(nextchar)|))
    }

    /** The end of a call: one option is read, and all stays in order unless the call goes wrong. */
    method Consume() returns (ret: int, wrong: bool)
      requires AtOption()
      modifies this`optind, this`nextchar, this`optarg, this`reports
      ensures reports == old(reports) + [Report(ret, optarg)]
      ensures wrong <==> GoesWrong(Cfg(), argv[old(optind)..], old(nextchar))
      ensures wrong ==> !Harmless(Cfg())
      ensures start <= |original| && (wrong ==> !Smooth())
      ensures !wrong ==> Valid() && (optind > old(optind) || (optind == old(optind) && 0 < |nextchar| < |old(nextchar)|))
    {
      hide OnTrack, Cfg, Decode, GoesWrong, Reached;
      Bounds();
      var from, next := optind, nextchar;
      ghost var rest := argv[optind..];
      RegularExactly(Cfg(), rest, next);
      WrongNeedsW(Cfg(), rest, next);
      if ordering == PERMUTE {
        if GoesWrong(Cfg(), rest, next) {
          Rough(Cfg(), original, start, argv[..], firstNonopt, lastNonopt, optind, next, reports);
        } else {
          Decoded(Cfg(), original, start, argv[..], firstNonopt, lastNonopt, optind, next, reports);
        }
      } else {
        OptionRead(Cfg(), Returning(), original, start, optind, next, reports);
      }
      ret := TakeOption();
      wrong := optind > argv.Length || if optind == from then !(0 < |nextchar| < |next|) else nextchar != [];
      reports := reports + [Report(ret, optarg)];
    }

    lemma Ready()
      requires Valid() && nextchar != []
      ensures initialized && optind < argv.Length && Dashed(argv[optind])
    {
    }

    lemma ValidPermutes()
      requires Valid()
      ensures Permuted()
    {
      hide OnTrack;
      if initialized && ordering == PERMUTE {
        OnTrackPermutes(Cfg(), original, start, argv[..], firstNonopt, lastNonopt, optind, nextchar, reports);
      }
    }

    lemma DonePermutes()
      requires Over(optind)
      ensures Permuted()
    {
      hide Finished;
      if Permuting() { FinishedPermutes(Cfg(), original, start, argv[..], optind, reports); }
    }

    /** A caller's run until -1.  It ends, and without "+", "-" or POSIXLY_CORRECT it leaves the options in
        front and the operands from optind on, each in the order they were given in, and the calls report
        what one reading from left to right reports, if and only if no call of that reading goes wrong;
        the run stops where one does.  In the other orders nothing moves, and optind is where reading ends. */
    method Drain() returns (results: seq<Report>, wrong: bool)
      requires Valid() && !initialized && argv.Length > 0
      modifies this, argv
      ensures start == old(start) && start <= |old(argv[..])| && Permuted()
      ensures wrong && Permuting() ==> !Scan(Cfg(), old(argv[..])[start..], []).smooth
      ensures !wrong && Permuting() ==>
        var s := Scan(Cfg(), old(argv[..])[start..], []);
        && s.smooth && argv[..] == old(argv[..])[..start] + s.options + s.operands
        && optind == start + |s.options| && results == s.reports
      ensures wrong && !Permuting() ==> !ReadInOrder(Cfg(), Returning(), old(argv[..])[start..], []).smooth
      ensures !wrong && !Permuting() ==>
        && argv[..] == old(argv[..]) && start <= optind
        && ReadInOrder(Cfg(), Returning(), old(argv[..])[start..], []) == Reading(optind - start, results, true)
    {
      hide OnTrack, Harmless, Cfg, GoesWrong, Permuting, ReadInOrder, Scan;
      results, wrong := [], false;
      var done := false;
      while !done
        invariant original == old(argv[..]) && start == old(start) <= |original| && results == reports && Permuted()
        invariant !done ==> Valid() && optind <= argv.Length
        invariant done ==> Over(optind)
        decreases !done, if initialized then 0 else 1, if done then 0 else argv.Length - optind, if nextchar == [] then 1 else 0, |nextchar|
      {
        var ret;
        done, ret, wrong := Next();
        if wrong { return; }
        if !done { results := results + [Report(ret, optarg)]; }
      }
    }

    lemma Bounds()
      requires initialized && Valid()
      ensures start <= firstNonopt <= lastNonopt <= optind <= argv.Length && start <= |original|
    {
    }
  }

  lemma Begin(cfg: Config, argv: seq<string>, start: nat)
    requires start <= |argv|
    ensures OnTrack(cfg, argv, start, argv, start, start, start, [], [])
  {
    hide Scan;
    assert argv[start..start] == [];
    assert [] + Scan(cfg, argv[start..], []).options == Scan(cfg, argv[start..], []).options;
    assert [] + Scan(cfg, argv[start..], []).operands == Scan(cfg, argv[start..], []).operands;
    assert [] + Scan(cfg, argv[start..], []).reports == Scan(cfg, argv[start..], []).reports;
  }
}
