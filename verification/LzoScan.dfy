/**
 What the compressor finds: its two hash probes into a dictionary that is never
 cleared, the filter on stale entries, and the greedy scan over the input.
 Dictionary entries are pointers in the source; here they are positions relative
 to the input, and an entry left from an earlier use may be any integer.
 */
module LzoScan {
  import opened Bytes
  import opened LzoFormat

  const D_SIZE := 0x4000

  /** DX3: four bytes mixed into one word. */
  function Mix(b0: bv32, b1: bv32, b2: bv32, b3: bv32): bv32
  {
    (((((b3 << 6) ^ b2) << 5) ^ b1) << 5) ^ b0
  }

  function Slot(mixed: bv32): bv14
  {
    (((0x21 * mixed) >> 5) & 0x3fff) as bv14
  }

  /** The number made of the k low bits of n, as a word. */
  function Word(n: nat, k: nat): bv32
  {
    if k == 0 then 0 else (Word(n / 2, k - 1) << 1) | (if n % 2 == 1 then 1 else 0)
  }

  function AsWord(b: Byte): bv32
  {
    Word(b, 8)
  }

  function SlotOf(b0: Byte, b1: Byte, b2: Byte, b3: Byte): bv14
  {
    Slot(Mix(AsWord(b0), AsWord(b1), AsWord(b2), AsWord(b3)))
  }

  /** D_INDEX1: a hash of four bytes. */
  function Index1(inp: seq<Byte>, p: nat): bv14
    requires p + 3 < |inp|
  {
    SlotOf(inp[p], inp[p + 1], inp[p + 2], inp[p + 3])
  }

  /** D_INDEX2: the second slot tried. */
  function Index2(d: bv14): bv14
  {
    (d & 0x7ff) ^ 0x201f
  }

  /** A slot as an index of the dictionary. */
  function Number(d: bv14): (n: nat)
    ensures n < D_SIZE
  {
    d as nat
  }

  /** LZO_CHECK_MPOS_NON_DET passes: the entry is a position before ip, near enough. */
  predicate Candidate(ip: nat, mPos: int)
  {
    0 <= mPos && 1 <= ip - mPos <= M4_MAX_OFFSET
  }

  /** A far candidate is tried only if its fourth byte agrees. */
  predicate Worth(inp: seq<Byte>, ip: nat, mPos: int)
    requires Candidate(ip, mPos) && ip + 3 < |inp|
  {
    ip - mPos <= M2_MAX_OFFSET || inp[mPos + 3] == inp[ip + 3]
  }

  /** try_match: the first three bytes agree. */
  predicate SameThree(inp: seq<Byte>, ip: nat, mPos: int)
    requires Candidate(ip, mPos) && ip + 3 < |inp|
  {
    inp[mPos] == inp[ip] && inp[mPos + 1] == inp[ip + 1] && inp[mPos + 2] == inp[ip + 2]
  }

  /** Which slot is updated, and the match position if there is a match. */
  datatype Probe = NoMatch(dindex: nat) | Found(dindex: nat, mPos: nat)

  function FindMatch(inp: seq<Byte>, ip: nat, dict: seq<int>): (p: Probe)
    requires ip + 3 < |inp| && |dict| == D_SIZE
    ensures p.dindex < D_SIZE
    ensures p.Found? ==> Candidate(ip, p.mPos) && Worth(inp, ip, p.mPos) && SameThree(inp, ip, p.mPos)
  {
    hide Index1, Index2, Number;
    var d1 := Index1(inp, ip);
    var m1 := dict[Number(d1)];
    if !Candidate(ip, m1) then NoMatch(Number(d1))
    else if Worth(inp, ip, m1) then (if SameThree(inp, ip, m1) then Found(Number(d1), m1) else NoMatch(Number(d1)))
    else
      var d2 := Index2(d1);
      var m2 := dict[Number(d2)];
      if Candidate(ip, m2) && Worth(inp, ip, m2) && SameThree(inp, ip, m2) then Found(Number(d2), m2)
      else NoMatch(Number(d2))
  }

  /** How many bytes from a and from b on agree before they differ or the input ends. */
  function Common(inp: seq<Byte>, a: nat, b: nat): (n: nat)
    requires a < b <= |inp|
    ensures b + n <= |inp|
    ensures forall k | b <= k < b + n :: inp[k] == inp[k - (b - a)]
    ensures b + n < |inp| ==> inp[a + n] != inp[b + n]
    decreases |inp| - b
  {
    if b == |inp| || inp[a] != inp[b] then 0 else 1 + Common(inp, a + 1, b + 1)
  }

  /** The greedy scan from ip on: no match begins at or after the last thirteen bytes. */
  function Scan(inp: seq<Byte>, ip: nat, dict: seq<int>): seq<Match>
    requires ip + 10 <= |inp| && |dict| == D_SIZE
    decreases |inp| - ip
  {
    var ipEnd := |inp| - M2_MAX_LEN - 5;
    var p := FindMatch(inp, ip, dict);
    var dict' := dict[p.dindex := ip];
    match p
    case NoMatch(_) =>
      if ip + 1 >= ipEnd then [] else Scan(inp, ip + 1, dict')
    case Found(_, mPos) =>
      assert inp[mPos] == inp[ip];
      var m := Match(ip, ip - mPos, Common(inp, mPos, ip));
      if m.End() >= ipEnd then [m] else [m] + Scan(inp, m.End(), dict')
  }

  /** The matches the compressor finds, for any initial content of its work memory. */
  function Matches(inp: seq<Byte>, dict: seq<int>): seq<Match>
    requires |dict| == D_SIZE
  {
    if |inp| <= M2_MAX_LEN + 5 then [] else Scan(inp, 4, dict)
  }

  /** Every emitted code is shorter than its match. */
  ghost predicate Pays(m: Match)
  {
    m.off > M2_MAX_OFFSET ==> m.len >= 4
  }

  /** A probe that succeeds gives a true match, and one that pays. */
  lemma MatchIsIn(inp: seq<Byte>, ip: nat, mPos: nat)
    requires ip + 3 < |inp| && Candidate(ip, mPos) && SameThree(inp, ip, mPos) && Worth(inp, ip, mPos)
    ensures var m := Match(ip, ip - mPos, Common(inp, mPos, ip)); m.In(inp) && Pays(m)
  {
    var n := Common(inp, mPos, ip);
    assert n >= 3;
  }

  /** ms is a chain of paying matches in inp, none before position from. */
  ghost predicate Good(inp: seq<Byte>, ms: seq<Match>, from: nat)
  {
    && Chain(inp, ms)
    && (forall i | 0 <= i < |ms| :: Pays(ms[i]))
    && (ms != [] ==> ms[0].pos >= from)
  }

  lemma GoodCons(inp: seq<Byte>, m: Match, ms: seq<Match>)
    requires m.In(inp) && Pays(m) && Good(inp, ms, m.End())
    ensures Good(inp, [m] + ms, m.pos)
  {
  }

  /** The scan yields a chain of true, paying matches, beginning no earlier than ip. */
  lemma {:induction false} ScanChain(inp: seq<Byte>, ip: nat, dict: seq<int>)
    requires ip + 10 <= |inp| && |dict| == D_SIZE
    ensures Good(inp, Scan(inp, ip, dict), ip)
    decreases |inp| - ip
  {
    hide FindMatch, Index1, Index2;
    var ipEnd := |inp| - M2_MAX_LEN - 5;
    var p := FindMatch(inp, ip, dict);
    var dict' := dict[p.dindex := ip];
    match p
    case NoMatch(_) =>
      if ip + 1 < ipEnd {
        ScanChain(inp, ip + 1, dict');
      }
    case Found(_, mPos) =>
      MatchIsIn(inp, ip, mPos);
      var m := Match(ip, ip - mPos, Common(inp, mPos, ip));
      if m.End() < ipEnd {
        ScanChain(inp, m.End(), dict');
        GoodCons(inp, m, Scan(inp, m.End(), dict'));
      }
  }

  lemma MatchesChain(inp: seq<Byte>, dict: seq<int>)
    requires |dict| == D_SIZE
    ensures Good(inp, Matches(inp, dict), 4)
  {
    hide Scan;
    if |inp| > M2_MAX_LEN + 5 {
      ScanChain(inp, 4, dict);
    }
  }
}
