/** What the positions getopt keeps between calls mean, and that each of its moves keeps that meaning. */
module GetoptState {
  import opened Wrappers
  import opened Sequences
  import opened GetoptScan
  import opened Rotation

  function After(options: seq<string>, operands: seq<string>, reports: seq<Report>, s: Split): Split
  {
    Split(options + s.options, operands + s.operands, reports + s.reports, s.smooth)
  }

  /** Between calls: argv[first..last] are the operands skipped so far, the rest of argv[start..optind]
      the options consumed so far, both in their original order, and nothing from optind on has moved. */
  ghost predicate OnTrack(cfg: Config, original: seq<string>, start: nat,
                          argv: seq<string>, first: nat, last: nat, optind: nat, next: string,
                          reports: seq<Report>)
  {
    && start <= first <= last <= optind <= |argv| == |original|
    && argv[..start] == original[..start] && argv[optind..] == original[optind..]
    && (next != [] ==> optind < |argv| && Dashed(argv[optind]))
    && Scan(cfg, original[start..], []) ==
       After(argv[start..first] + argv[last..optind], argv[first..last], reports, Scan(cfg, original[optind..], next))
  }

  /** At the end: all options, then from optind on all operands. */
  ghost predicate Finished(cfg: Config, original: seq<string>, start: nat, argv: seq<string>, optind: nat,
                           reports: seq<Report>)
  {
    start <= |original| &&
    var s := Scan(cfg, original[start..], []);
    && optind == start + |s.options|
    && argv == original[..start] + s.options + s.operands
    && reports == s.reports && s.smooth
  }

  lemma {:induction false} Exchanged(cfg: Config, original: seq<string>, start: nat, argv: seq<string>,
                  first: nat, last: nat, optind: nat, reports: seq<Report>)
    requires OnTrack(cfg, original, start, argv, first, last, optind, [], reports)
    ensures OnTrack(cfg, original, start, Rotated(argv, first, last, optind), first + (optind - last), optind, optind, [],
                    reports)
  {
    hide Scan;
    RotatedParts(argv, first, last, optind);
    var r, f := Rotated(argv, first, last, optind), first + (optind - last);
    assert r[..start] == argv[..start] by { assert r[..start] == r[..first][..start]; }
    assert r[start..f] + r[optind..optind] == argv[start..first] + argv[last..optind] by {
      assert r[start..first] == r[..first][start..] == argv[start..first];
      assert r[start..f] == r[start..first] + r[first..f];
    }
  }

  lemma RotatedParts<T>(s: seq<T>, b: nat, m: nat, t: nat)
    requires b <= m <= t <= |s|
    ensures |Rotated(s, b, m, t)| == |s| && Rotated(s, b, m, t)[..b] == s[..b] && Rotated(s, b, m, t)[t..] == s[t..]
    ensures Rotated(s, b, m, t)[b..b + (t - m)] == s[m..t] && Rotated(s, b, m, t)[b + (t - m)..t] == s[b..m]
  {
  }

  /** With no operand skipped so far, all of argv[start..optind] are options. */
  lemma {:induction false} NoneSkipped(cfg: Config, original: seq<string>, start: nat, argv: seq<string>,
                    first: nat, optind: nat, reports: seq<Report>)
    requires OnTrack(cfg, original, start, argv, first, first, optind, [], reports)
    ensures OnTrack(cfg, original, start, argv, optind, optind, optind, [], reports)
  {
    hide Scan;
    assert argv[start..first] + argv[first..optind] == argv[start..optind] + argv[optind..optind];
  }

  lemma {:induction false} Skipped(cfg: Config, original: seq<string>, start: nat, argv: seq<string>,
                first: nat, optind: nat, reports: seq<Report>)
    requires OnTrack(cfg, original, start, argv, first, optind, optind, [], reports)
    requires optind < |argv| && !Dashed(argv[optind])
    ensures OnTrack(cfg, original, start, argv, first, optind + 1, optind + 1, [], reports)
  {
    NextArgument(argv, original, optind);
    SkipScan(cfg, original[optind..]);
    hide Scan, Dashed;
    var s := Scan(cfg, original[optind + 1..], []);
    OneMore(argv, first, optind, s.operands);
    Empty(argv, optind);
    Empty(argv, optind + 1);
    assert [] + s.options == s.options;
  }

  lemma OneMore<T>(s: seq<T>, a: nat, b: nat, t: seq<T>)
    requires a <= b < |s|
    ensures s[a..b] + ([s[b]] + t) == s[a..b + 1] + t
  {
  }

  lemma Empty<T>(s: seq<T>, a: nat)
    requires a <= |s|
    ensures s[a..a] == []
  {
  }

  lemma ThreeParts<T>(s: seq<T>, a: nat, b: nat)
    requires a <= b <= |s|
    ensures s == s[..a] + s[a..b] + s[b..]
  {
  }

  lemma NextArgument(argv: seq<string>, original: seq<string>, optind: nat)
    requires optind < |argv| == |original| && argv[optind..] == original[optind..]
    ensures original[optind] == argv[optind] && original[optind..][0] == argv[optind]
    ensures argv[optind + 1..] == original[optind + 1..] == original[optind..][1..]
  {
    assert argv[optind..][0] == argv[optind] && argv[optind..][1..] == argv[optind + 1..];
  }

  lemma SkipScan(cfg: Config, rest: seq<string>)
    requires rest != [] && !Dashed(rest[0])
    ensures Scan(cfg, rest, []) == After([], [rest[0]], [], Scan(cfg, rest[1..], []))
  {
  }

  /** "--" ends the options. */
  lemma {:induction false} DashDash(cfg: Config, original: seq<string>, start: nat, argv: seq<string>,
                first: nat, optind: nat, reports: seq<Report>)
    requires OnTrack(cfg, original, start, argv, first, optind, optind, [], reports)
    requires optind < |argv| && argv[optind] == "--"
    ensures Finished(cfg, original, start, Rotated(argv, first, optind, optind + 1), first + 1, reports)
  {
    NextArgument(argv, original, optind);
    assert Scan(cfg, original[optind..], []) == Split(["--"], argv[optind + 1..], [], true);
    hide Scan, Rotated;
    RotatedOne(argv, start, first, optind);
    assert argv[start..first] + argv[optind..optind] == argv[start..first];
  }

  lemma RotatedOne<T>(s: seq<T>, a: nat, b: nat, m: nat)
    requires a <= b <= m < |s|
    ensures Rotated(s, b, m, m + 1) == s[..a] + (s[a..b] + [s[m]]) + (s[b..m] + s[m + 1..])
  {
    assert s[m..m + 1] == [s[m]] && s[..b] == s[..a] + s[a..b];
  }

  lemma {:induction false} AtEnd(cfg: Config, original: seq<string>, start: nat, argv: seq<string>,
              first: nat, reports: seq<Report>)
    requires OnTrack(cfg, original, start, argv, first, |argv|, |argv|, [], reports)
    ensures Finished(cfg, original, start, argv, first, reports)
  {
    assert original[|argv|..] == [];
    assert Scan(cfg, [], []) == Split([], [], [], true);
    hide Scan;
    assert argv[start..first] + argv[|argv|..|argv|] + [] == argv[start..first];
    ThreeParts(argv, start, first);
  }

  lemma {:induction false} Entered(cfg: Config, original: seq<string>, start: nat, argv: seq<string>,
                first: nat, last: nat, optind: nat, reports: seq<Report>)
    requires OnTrack(cfg, original, start, argv, first, last, optind, [], reports)
    requires optind < |argv| && Dashed(argv[optind]) && argv[optind] != "--"
    ensures OnTrack(cfg, original, start, argv, first, last, optind, Start(cfg, argv[optind]), reports)
  {
    NextArgument(argv, original, optind);
    var rest := original[optind..];
    assert Scan(cfg, rest, []) == Scan(cfg, rest, Start(cfg, rest[0]));
  }

  lemma {:induction false} Decoded(cfg: Config, original: seq<string>, start: nat, argv: seq<string>,
                first: nat, last: nat, optind: nat, next: string, reports: seq<Report>)
    requires OnTrack(cfg, original, start, argv, first, last, optind, next, reports) && next != []
    requires Regular(Decode(cfg, argv[optind..], next), argv[optind..], next)
    ensures var d := Decode(cfg, argv[optind..], next);
      OnTrack(cfg, original, start, argv, first, last, optind + d.used, d.next, reports + [Report(d.ret, d.arg)])
  {
    NextArgument(argv, original, optind);
    var rest := original[optind..];
    hide Decode, Scan, Dashed, OnTrack;
    assert rest == argv[optind..] by { InRange(cfg, original, start, argv, first, last, optind, next, reports); }
    var d := Decode(cfg, rest, next);
    DecodeScan(cfg, rest, next);
    Advanced(cfg, original, start, argv, first, last, optind, next, optind + d.used, d.next, reports, [Report(d.ret, d.arg)]);
  }

  /** An option at which a call goes wrong ends a smooth reading. */
  lemma {:induction false} Rough(cfg: Config, original: seq<string>, start: nat, argv: seq<string>,
              first: nat, last: nat, optind: nat, next: string, reports: seq<Report>)
    requires OnTrack(cfg, original, start, argv, first, last, optind, next, reports) && next != []
    requires !Regular(Decode(cfg, argv[optind..], next), argv[optind..], next)
    ensures !Scan(cfg, original[start..], []).smooth
  {
    hide Decode;
    var rest := original[optind..];
    assert rest == argv[optind..] && rest[0] == argv[optind];
    assert !Scan(cfg, rest, next).smooth;
  }

  lemma InRange(cfg: Config, original: seq<string>, start: nat, argv: seq<string>,
                first: nat, last: nat, optind: nat, next: string, reports: seq<Report>)
    requires OnTrack(cfg, original, start, argv, first, last, optind, next, reports)
    ensures start <= first <= last <= optind <= |argv| == |original|
    ensures argv[optind..] == original[optind..] && (next != [] ==> optind < |argv| && Dashed(argv[optind]))
  {
  }

  lemma {:induction false} Advanced(cfg: Config, original: seq<string>, start: nat, argv: seq<string>,
                 first: nat, last: nat, optind: nat, next: string, o: nat, left: string,
                 reports: seq<Report>, more: seq<Report>)
    requires OnTrack(cfg, original, start, argv, first, last, optind, next, reports)
    requires optind <= o <= |argv| && (left != [] ==> o == optind && next != [])
    requires var s := Scan(cfg, original[optind..][o - optind..], left);
      Scan(cfg, original[optind..], next) == Split(original[optind..][..o - optind] + s.options, s.operands, more + s.reports, s.smooth)
    ensures OnTrack(cfg, original, start, argv, first, last, o, left, reports + more)
  {
    hide Scan, Dashed;
    Consumed(argv, original, start, first, last, optind, o);
    var s := Scan(cfg, original[o..], left);
    assert Scan(cfg, original[optind..], next) == Split(argv[optind..o] + s.options, s.operands, more + s.reports, s.smooth);
    Assoc(reports, more, s.reports);
    AssocThree(argv[start..first], argv[last..optind], argv[optind..o], s.options);
  }

  lemma DecodeScan(cfg: Config, rest: seq<string>, next: string)
    requires rest != [] && Dashed(rest[0]) && next != [] && Regular(Decode(cfg, rest, next), rest, next)
    ensures var d := Decode(cfg, rest, next);
      var s := Scan(cfg, rest[d.used..], d.next);
      Scan(cfg, rest, next) == Split(rest[..d.used] + s.options, s.operands, [Report(d.ret, d.arg)] + s.reports, s.smooth)
  {
    hide Decode;
  }

  lemma Consumed(argv: seq<string>, original: seq<string>, start: nat, first: nat, last: nat, optind: nat, o: nat)
    requires start <= first <= last <= optind <= o <= |argv| == |original| && argv[optind..] == original[optind..]
    ensures argv[o..] == original[o..] == original[optind..][o - optind..]
    ensures original[optind..][..o - optind] == argv[optind..o]
    ensures argv[last..o] == argv[last..optind] + argv[optind..o]
  {
    assert argv[o..] == argv[optind..][o - optind..];
    assert argv[optind..o] == argv[optind..][..o - optind];
  }

  lemma AssocThree<T>(a: seq<T>, b: seq<T>, c: seq<T>, d: seq<T>)
    ensures (a + b) + (c + d) == (a + (b + c)) + d
  {
  }

  /** A finished run leaves a permutation of the arguments. */
  lemma {:induction false} FinishedPermutes(cfg: Config, original: seq<string>, start: nat, argv: seq<string>,
                         optind: nat, reports: seq<Report>)
    requires Finished(cfg, original, start, argv, optind, reports)
    ensures |argv| == |original| && multiset(argv) == multiset(original) && start <= optind <= |argv|
    ensures argv[optind..] == Scan(cfg, original[start..], []).operands
    ensures argv[start..optind] == Scan(cfg, original[start..], []).options
  {
    hide Scan;
    ScanKeeps(cfg, original[start..], []);
    assert original == original[..start] + original[start..];
  }

  lemma Parts<T>(s: seq<T>, a: nat, b: nat, c: nat, d: nat)
    requires a <= b <= c <= d <= |s|
    ensures multiset(s) == multiset(s[..a]) + multiset(s[a..b]) + multiset(s[b..c]) + multiset(s[c..d]) + multiset(s[d..])
  {
    assert s == s[..a] + s[a..b] + s[b..c] + s[c..d] + s[d..];
  }

  lemma Sum<T>(s: seq<T>, t: seq<T>)
    ensures multiset(s + t) == multiset(s) + multiset(t)
  {
  }

  /** So does every state on the way. */
  lemma {:induction false} OnTrackPermutes(cfg: Config, original: seq<string>, start: nat,
                                           argv: seq<string>, first: nat, last: nat, optind: nat, next: string, reports: seq<Report>)
    requires OnTrack(cfg, original, start, argv, first, last, optind, next, reports)
    ensures multiset(argv) == multiset(original)
  {
    hide Scan;
    ScanKeeps(cfg, original[start..], []);
    ScanKeeps(cfg, original[optind..], next);
    var s := Scan(cfg, original[optind..], next);
    Sum(argv[start..first] + argv[last..optind], s.options);
    Sum(argv[start..first], argv[last..optind]);
    Sum(argv[first..last], s.operands);
    Parts(argv, start, first, last, optind);
    Parts(original, start, start, start, start);
    hide OnTrack;
  }

  // ----- the other orders, in which nothing is permuted

  /** What a reading in the given order uses up and reports; smooth tells that no call goes wrong. */
  datatype Reading = Reading(used: nat, reports: seq<Report>, smooth: bool)

  /** Reading rest from left to right, when next is what is left of the option rest[0].  An operand is
      reported as such, with all, or else ends the reading. */
  function ReadInOrder(cfg: Config, all: bool, rest: seq<string>, next: string): Reading
    decreases |rest|, if next == [] then 1 else 0, |next|
  {
    if rest == [] then Reading(0, [], true)
    else if next == [] then
      if !Dashed(rest[0]) then
        if all then Further(1, [Report(1, Some(rest[0]))], ReadInOrder(cfg, all, rest[1..], []))
        else Reading(0, [], true)
      else if rest[0] == "--" then Reading(1, [], true)
      else ReadInOrder(cfg, all, rest, Start(cfg, rest[0]))
    else if !Dashed(rest[0]) then Reading(0, [], true)
    else
      var d := Decode(cfg, rest, next);
      if Regular(d, rest, next)
      then Further(d.used, [Report(d.ret, d.arg)], ReadInOrder(cfg, all, rest[d.used..], d.next))
      else Reading(0, [], false)
  }

  function Further(used: nat, reports: seq<Report>, r: Reading): Reading
  {
    Reading(used + r.used, reports + r.reports, r.smooth)
  }

  /** Between calls: the arguments up to optind have been read. */
  ghost predicate Reached(cfg: Config, all: bool, original: seq<string>, start: nat, optind: nat, next: string, reports: seq<Report>)
  {
    && start <= optind <= |original| && (next != [] ==> optind < |original| && Dashed(original[optind]))
    && ReadInOrder(cfg, all, original[start..], []) ==
       Further(optind - start, reports, ReadInOrder(cfg, all, original[optind..], next))
  }

  /** At the end. */
  ghost predicate Ended(cfg: Config, all: bool, original: seq<string>, start: nat, optind: nat, reports: seq<Report>)
  {
    start <= |original| && start <= optind && ReadInOrder(cfg, all, original[start..], []) == Reading(optind - start, reports, true)
  }

  lemma Outset(cfg: Config, all: bool, original: seq<string>, start: nat)
    requires start <= |original|
    ensures Reached(cfg, all, original, start, start, [], [])
  {
    hide ReadInOrder;
    var r := ReadInOrder(cfg, all, original[start..], []);
    assert [] + r.reports == r.reports;
  }

  lemma {:induction false} OperandReached(cfg: Config, original: seq<string>, start: nat, optind: nat, reports: seq<Report>)
    requires Reached(cfg, true, original, start, optind, [], reports) && optind < |original| && !Dashed(original[optind])
    ensures Reached(cfg, true, original, start, optind + 1, [], reports + [Report(1, Some(original[optind]))])
  {
    var rest, report := original[optind..], [Report(1, Some(original[optind]))];
    assert rest[1..] == original[optind + 1..];
    assert ReadInOrder(cfg, true, rest, []) == Further(1, report, ReadInOrder(cfg, true, rest[1..], []));
    hide ReadInOrder;
    Assoc(reports, report, ReadInOrder(cfg, true, rest[1..], []).reports);
  }

  lemma {:induction false} EndReached(cfg: Config, all: bool, original: seq<string>, start: nat, optind: nat, reports: seq<Report>)
    requires Reached(cfg, all, original, start, optind, [], reports)
    requires optind < |original| ==> original[optind] == "--" || (!all && !Dashed(original[optind]))
    ensures Ended(cfg, all, original, start,
                  if optind < |original| && original[optind] == "--" then optind + 1 else optind, reports)
  {
    var rest := original[optind..];
    assert rest != [] ==> rest[0] == original[optind];
    var r := ReadInOrder(cfg, all, rest, []);
    assert r.reports == [];
    assert reports + [] == reports;
  }

  lemma {:induction false} OptionReached(cfg: Config, all: bool, original: seq<string>, start: nat, optind: nat, reports: seq<Report>)
    requires Reached(cfg, all, original, start, optind, [], reports)
    requires optind < |original| && Dashed(original[optind]) && original[optind] != "--"
    ensures Reached(cfg, all, original, start, optind, Start(cfg, original[optind]), reports)
  {
    assert original[optind..][0] == original[optind];
  }

  lemma {:induction false} OptionRead(cfg: Config, all: bool, original: seq<string>, start: nat, optind: nat, next: string,
                                      reports: seq<Report>)
    requires Reached(cfg, all, original, start, optind, next, reports) && next != []
    ensures GoesWrong(cfg, original[optind..], next) ==> !ReadInOrder(cfg, all, original[start..], []).smooth
    ensures var rest := original[optind..]; var d := Decode(cfg, rest, next);
      !GoesWrong(cfg, rest, next) ==>
        && Regular(d, rest, next)
        && Reached(cfg, all, original, start, optind + d.used, d.next, reports + [Report(d.ret, d.arg)])
  {
    hide Decode, GoesWrong;
    var rest := original[optind..];
    assert rest[0] == original[optind];
    RegularExactly(cfg, rest, next);
    var d := Decode(cfg, rest, next);
    if Regular(d, rest, next) {
      assert rest[d.used..] == original[optind + d.used..];
      assert d.used == 0 ==> rest[d.used..][0] == rest[0];
      hide ReadInOrder;
      InOrderStep(cfg, all, rest, next);
      Assoc(reports, [Report(d.ret, d.arg)], ReadInOrder(cfg, all, rest[d.used..], d.next).reports);
    }
  }

  lemma {:induction false} InOrderStep(cfg: Config, all: bool, rest: seq<string>, next: string)
    requires rest != [] && next != [] && Dashed(rest[0])
    ensures var d := Decode(cfg, rest, next);
      Regular(d, rest, next) ==>
        ReadInOrder(cfg, all, rest, next) == Further(d.used, [Report(d.ret, d.arg)], ReadInOrder(cfg, all, rest[d.used..], d.next))
  {
    hide Decode;
  }
}
