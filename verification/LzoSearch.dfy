/**
 That repetitions are found: exactly when a probe succeeds, how long the dictionary
 remembers a position, and what becomes of an input of equal bytes.
 */
module LzoSearch {
  import opened Bytes
  import opened LzoFormat
  import opened LzoScan
  import LzoStream

  // ----- one position

  /** The n bytes at m stand again at ip, no more than 0xbfff further on. */
  ghost predicate Again(inp: seq<Byte>, m: int, ip: nat, n: nat)
  {
    0 <= m < ip <= m + 0xbfff && ip + n <= |inp| && inp[m..m + n] == inp[ip..ip + n]
  }

  /** Three bytes up to 0x800 back, or four. */
  ghost predicate Repeats(inp: seq<Byte>, m: int, ip: nat)
  {
    Again(inp, m, ip, 4) || (Again(inp, m, ip, 3) && ip - m <= 0x800)
  }

  /** The entry of the first slot is far away, and already its fourth byte differs. */
  ghost predicate Wasted(inp: seq<Byte>, m: int, ip: nat)
    requires ip + 3 < |inp|
  {
    0 <= m < ip <= m + 0xbfff && ip - m > 0x800 && inp[m + 3] != inp[ip + 3]
  }

  lemma RepeatsIs(inp: seq<Byte>, m: int, ip: nat)
    requires ip + 3 < |inp|
    ensures Repeats(inp, m, ip) <==> Candidate(ip, m) && Worth(inp, ip, m) && SameThree(inp, ip, m)
  {
    if 0 <= m < ip {
      var a, b := inp[m..m + 4], inp[ip..ip + 4];
      assert inp[m..m + 3] == a[..3] && inp[ip..ip + 3] == b[..3];
      assert a[0] == inp[m] && a[1] == inp[m + 1] && a[2] == inp[m + 2] && a[3] == inp[m + 3];
      assert b[0] == inp[ip] && b[1] == inp[ip + 1] && b[2] == inp[ip + 2] && b[3] == inp[ip + 3];
    }
  }

  /** A match is found exactly at the entry of the first slot, if that is a repetition, or at that of
      the second, if it is one and the first was not worth a try. */
  lemma FoundExactly(inp: seq<Byte>, ip: nat, dict: seq<int>)
    requires ip + 3 < |inp| && |dict| == D_SIZE
    ensures var d1, d2 := Number(Index1(inp, ip)), Number(Index2(Index1(inp, ip)));
      FindMatch(inp, ip, dict) ==
        if Repeats(inp, dict[d1], ip) then Found(d1, dict[d1])
        else if !Wasted(inp, dict[d1], ip) then NoMatch(d1)
        else if Repeats(inp, dict[d2], ip) then Found(d2, dict[d2])
        else NoMatch(d2)
  {
    hide Index1, Index2, Number;
    var d1 := Index1(inp, ip);
    RepeatsIs(inp, dict[Number(d1)], ip);
    RepeatsIs(inp, dict[Number(Index2(d1))], ip);
  }

  // ----- the slots

  /** The first slot is a matter of four bytes. */
  lemma SameSlot(inp: seq<Byte>, p: nat, q: nat)
    requires p + 3 < |inp| && q + 3 < |inp| && inp[p..p + 4] == inp[q..q + 4]
    ensures Index1(inp, p) == Index1(inp, q)
  {
    hide SlotOf;
    var a, b := inp[p..p + 4], inp[q..q + 4];
    assert a[0] == inp[p] && a[1] == inp[p + 1] && a[2] == inp[p + 2] && a[3] == inp[p + 3];
    assert b[0] == inp[q] && b[1] == inp[q + 1] && b[2] == inp[q + 2] && b[3] == inp[q + 3];
  }

  /** 0x21 times x. */
  ghost function Folded(x: bv32): bv32
  {
    x + (x << 5)
  }

  lemma SlotBits(x: bv32, y: bv32)
    ensures 0x21 * x == Folded(x) && (Slot(x) == Slot(y) ==> (Folded(x) >> 5) & 0x3fff == (Folded(y) >> 5) & 0x3fff)
  {
  }

  lemma Joined(x: bv32, y: bv32)
    requires (x >> 5) & 0x3fff == (y >> 5) & 0x3fff && x & 0x1f == y & 0x1f
    ensures x & 0x7ffff == y & 0x7ffff
  {
  }

  lemma LowFive(x: bv32)
    ensures Folded(x) & 0x1f == x & 0x1f
  {
  }

  lemma Undone(x: bv32, y: bv32)
    requires Folded(x) & 0x7ffff == Folded(y) & 0x7ffff
    ensures x & 0x7ffff == y & 0x7ffff
  {
  }

  /** Words that agree in their low five bits share a slot only if they agree in nineteen. */
  lemma SlotSpread(x: bv32, y: bv32)
    requires Slot(x) == Slot(y) && x & 0x1f == y & 0x1f
    ensures x & 0x7ffff == y & 0x7ffff
  {
    hide Slot, Folded;
    SlotBits(x, y);
    LowFive(x);
    LowFive(y);
    Joined(Folded(x), Folded(y));
    Undone(x, y);
  }

  lemma MixDiffers(b0: bv32, b1: bv32, b2: bv32, b3: bv32, c: bv32)
    requires b0 < 0x100 && b1 < 0x100 && b2 < 0x100 && b3 < 0x100 && c < 0x100
    ensures c != b1 ==> Mix(b0, b1, b2, b3) & 0x7ffff != Mix(b0, c, b2, b3) & 0x7ffff
    ensures c != b2 ==> Mix(b0, b1, b2, b3) & 0x7ffff != Mix(b0, b1, c, b3) & 0x7ffff
    ensures Mix(b0, b1, b2, b3) & 0x1f == b0 & 0x1f
  {
  }

  ghost function Top(k: nat): bv32
  {
    if k == 0 then 1 else Top(k - 1) << 1
  }

  ghost function Power(k: nat): nat
  {
    if k == 0 then 1 else 2 * Power(k - 1)
  }

  lemma {:induction false} TopIs(k: nat)
    requires k < 8
    ensures Top(k) <= 0x80 && Top(8) == 0x100
  {
    assert Top(2) == 4 && Top(4) == 0x10 && Top(6) == 0x40;
  }

  lemma ShiftIn(w: bv32, top: bv32, b: bool)
    requires w < top <= 0x80
    ensures ((w << 1) | (if b then 1 else 0)) < top << 1
  {
  }

  /** Shifting back gives the word and the bit again. */
  lemma ShiftBack(w: bv32, b: bool)
    requires w < 0x80
    ensures var x := (w << 1) | (if b then 1 else 0); x >> 1 == w && (x & 1 == 1 <==> b)
  {
  }

  lemma {:induction false} WordBound(n: nat, k: nat)
    requires k <= 8
    ensures Word(n, k) < Top(k)
  {
    if k > 0 {
      WordBound(n / 2, k - 1);
      TopIs(k - 1);
      ShiftIn(Word(n / 2, k - 1), Top(k - 1), n % 2 == 1);
    }
  }

  lemma {:induction false} WordOnce(n: nat, m: nat, k: nat)
    requires k <= 8 && n < Power(k) && m < Power(k) && Word(n, k) == Word(m, k)
    ensures n == m
  {
    if k > 0 {
      WordBound(n / 2, k - 1);
      WordBound(m / 2, k - 1);
      TopIs(k - 1);
      hide Top;
      ShiftBack(Word(n / 2, k - 1), n % 2 == 1);
      ShiftBack(Word(m / 2, k - 1), m % 2 == 1);
      WordOnce(n / 2, m / 2, k - 1);
    }
  }

  lemma {:induction false} WordIs(b: Byte, c: Byte)
    ensures AsWord(b) < 0x100 && (b != c ==> AsWord(b) != AsWord(c))
  {
    assert Power(2) == 4 && Power(4) == 16 && Power(6) == 64;
    hide Word, Top;
    TopIs(0);
    WordBound(b, 8);
    if Word(b, 8) == Word(c, 8) { WordOnce(b, c, 8); }
  }

  /** Another second or another third byte makes another slot. */
  lemma SlotsApart(b0: Byte, b1: Byte, b2: Byte, b3: Byte, c: Byte)
    ensures c != b1 ==> SlotOf(b0, c, b2, b3) != SlotOf(b0, b1, b2, b3)
    ensures c != b2 ==> SlotOf(b0, b1, c, b3) != SlotOf(b0, b1, b2, b3)
  {
    hide Slot, Mix, AsWord;
    WordIs(b0, c);
    WordIs(b1, c);
    WordIs(b2, c);
    WordIs(b3, c);
    WordIs(c, b1);
    var a0, a1, a2, a3, d := AsWord(b0), AsWord(b1), AsWord(b2), AsWord(b3), AsWord(c);
    MixDiffers(a0, a1, a2, a3, d);
    if Slot(Mix(a0, d, a2, a3)) == Slot(Mix(a0, a1, a2, a3)) {
      MixDiffers(a0, d, a2, a3, d);
      SlotSpread(Mix(a0, d, a2, a3), Mix(a0, a1, a2, a3));
    }
    if Slot(Mix(a0, a1, d, a3)) == Slot(Mix(a0, a1, a2, a3)) {
      MixDiffers(a0, a1, d, a3, d);
      SlotSpread(Mix(a0, a1, d, a3), Mix(a0, a1, a2, a3));
    }
  }

  /** Four bytes that differ from others only in the second or only in the third have a slot of their own. */
  lemma NeighboursApart(inp: seq<Byte>, p: nat, q: nat)
    requires p + 3 < |inp| && q + 3 < |inp| && inp[p] == inp[q] && inp[p + 3] == inp[q + 3]
    requires (inp[p + 1] == inp[q + 1]) != (inp[p + 2] == inp[q + 2])
    ensures Index1(inp, p) != Index1(inp, q)
  {
    hide SlotOf;
    var x := SlotOf(inp[p], inp[p + 1], inp[p + 2], inp[p + 3]);
    var y := SlotOf(inp[q], inp[q + 1], inp[q + 2], inp[q + 3]);
    SlotsApart(inp[p], inp[p + 1], inp[p + 2], inp[p + 3], inp[q + 1]);
    SlotsApart(inp[p], inp[p + 1], inp[p + 2], inp[p + 3], inp[q + 2]);
  }

  /** The second slot is never the first. */
  lemma OtherSlot(d: bv14)
    ensures Index2(d) != d
  {
  }

  /** Different slots have different numbers. */
  lemma NumberOnce(x: bv14, y: bv14)
    requires Number(x) == Number(y)
    ensures x == y
  {
    assert (x as nat) as bv14 == x;
  }

  // ----- what the dictionary remembers

  /** A turn of the scan: where it stands, the slot it takes, and whether it finds a match. */
  datatype Turn = Turn(at: nat, slot: nat, found: bool)

  /** Where the turn after ip stands. */
  ghost function Onward(inp: seq<Byte>, ip: nat, dict: seq<int>): (next: nat)
    requires ip + 10 <= |inp| && |dict| == D_SIZE
    ensures ip < next
  {
    var p := FindMatch(inp, ip, dict);
    if p.Found? then
      assert inp[p.mPos] == inp[ip];
      ip + Common(inp, p.mPos, ip)
    else ip + 1
  }

  ghost function Stored(inp: seq<Byte>, ip: nat, dict: seq<int>): (next: seq<int>)
    requires ip + 10 <= |inp| && |dict| == D_SIZE
    ensures |next| == D_SIZE
  {
    dict[FindMatch(inp, ip, dict).dindex := ip]
  }

  ghost function Turns(inp: seq<Byte>, ip: nat, dict: seq<int>): (ts: seq<Turn>)
    requires ip + 10 <= |inp| && |dict| == D_SIZE
    ensures ts != [] && forall k | 0 <= k < |ts| :: ip <= ts[k].at && ts[k].at + 10 <= |inp|
    decreases |inp| - ip
  {
    var p := FindMatch(inp, ip, dict);
    var next := Onward(inp, ip, dict);
    [Turn(ip, p.dindex, p.Found?)]
    + if next >= |inp| - M2_MAX_LEN - 5 then [] else Turns(inp, next, Stored(inp, ip, dict))
  }

  lemma TurnsCons(inp: seq<Byte>, ip: nat, dict: seq<int>)
    requires ip + 10 <= |inp| && |dict| == D_SIZE
    ensures var ts, p := Turns(inp, ip, dict), FindMatch(inp, ip, dict);
      && ts[0] == Turn(ip, p.dindex, p.Found?)
      && (|ts| > 1 ==>
            var next := Onward(inp, ip, dict);
            next < |inp| - M2_MAX_LEN - 5 && ts[1..] == Turns(inp, next, Stored(inp, ip, dict)))
      && (|ts| > 1 <==> Onward(inp, ip, dict) < |inp| - M2_MAX_LEN - 5)
  {
    hide FindMatch, Onward, Stored;
  }

  /** A slot that holds q still does so at turn j, if no turn before has taken it; then a repetition of
      the four bytes at q is found there. */
  lemma {:induction false} Kept(inp: seq<Byte>, ip: nat, dict: seq<int>, q: nat, j: nat)
    requires ip + 10 <= |inp| && |dict| == D_SIZE && j < |Turns(inp, ip, dict)|
    requires Again(inp, q, Turns(inp, ip, dict)[j].at, 4) && dict[Number(Index1(inp, q))] == q
    requires forall k | 0 <= k < j :: Turns(inp, ip, dict)[k].slot != Number(Index1(inp, q))
    ensures Turns(inp, ip, dict)[j].found
    decreases j
  {
    hide Index1, Index2, Number, FindMatch, Onward, Turns;
    var ts := Turns(inp, ip, dict);
    TurnsCons(inp, ip, dict);
    if j == 0 {
      SameSlot(inp, q, ip);
      FoundExactly(inp, ip, dict);
    } else {
      assert forall k | 0 <= k < j :: ts[1..][k] == ts[k + 1];
      Kept(inp, Onward(inp, ip, dict), Stored(inp, ip, dict), q, j - 1);
    }
  }

  /**
   No repetition of four bytes within reach of an earlier turn is missed, unless a turn in between
   has taken the slot of that one.
   */
  lemma {:induction false} Remembered(inp: seq<Byte>, ip: nat, dict: seq<int>, i: nat, j: nat)
    requires ip + 10 <= |inp| && |dict| == D_SIZE && i < j < |Turns(inp, ip, dict)|
    requires var ts := Turns(inp, ip, dict);
      && Again(inp, ts[i].at, ts[j].at, 4) && ts[i].slot == Number(Index1(inp, ts[i].at))
      && forall k | i < k < j :: ts[k].slot != ts[i].slot
    ensures Turns(inp, ip, dict)[j].found
    decreases i
  {
    hide Index1, Index2, Number, FindMatch, Onward, Turns;
    var ts := Turns(inp, ip, dict);
    TurnsCons(inp, ip, dict);
    assert forall k | 0 <= k < j :: ts[1..][k] == ts[k + 1];
    if i == 0 {
      Kept(inp, Onward(inp, ip, dict), Stored(inp, ip, dict), ip, j - 1);
    } else {
      Remembered(inp, Onward(inp, ip, dict), Stored(inp, ip, dict), i - 1, j - 1);
    }
  }

  lemma LaterMatches(inp: seq<Byte>, ip: nat, dict: seq<int>, m: Match)
    requires ip + 10 <= |inp| && |dict| == D_SIZE && m in Scan(inp, ip, dict)
    ensures ip <= m.pos
  {
    hide Scan;
    ScanChain(inp, ip, dict);
    var ms := Scan(inp, ip, dict);
    var i :| 0 <= i < |ms| && ms[i] == m;
    ChainFrom(inp, ms, i);
  }

  lemma {:induction false} ChainFrom(inp: seq<Byte>, ms: seq<Match>, i: nat)
    requires Chain(inp, ms) && i < |ms|
    ensures ms[0].pos <= ms[i].pos
  {
    if i > 0 { ChainFrom(inp, ms, i - 1); }
  }

  /** The first turn and the matches that it and the later ones find. */
  lemma {:induction false} ScanCons(inp: seq<Byte>, ip: nat, dict: seq<int>)
    requires ip + 10 <= |inp| && |dict| == D_SIZE
    ensures var p, next := FindMatch(inp, ip, dict), Onward(inp, ip, dict);
      Scan(inp, ip, dict) ==
        (if p.Found? then [Match(ip, ip - p.mPos, next - ip)] else [])
        + if next >= |inp| - M2_MAX_LEN - 5 then [] else Scan(inp, next, Stored(inp, ip, dict))
  {
    hide FindMatch, Onward, Stored, Common;
    var p, next := FindMatch(inp, ip, dict), Onward(inp, ip, dict);
    OnwardIs(inp, ip, dict);
    assert Stored(inp, ip, dict) == dict[p.dindex := ip] by { StoredIs(inp, ip, dict); }
  }

  /** Every position up to the last thirteen has its turn or lies inside a match, and a match begins
      exactly where a turn finds one. */
  lemma {:induction false} Searched(inp: seq<Byte>, ip: nat, dict: seq<int>, at: nat)
    requires ip + 10 <= |inp| && |dict| == D_SIZE && ip <= at < |inp| - M2_MAX_LEN - 5
    ensures var ts, ms := Turns(inp, ip, dict), Scan(inp, ip, dict);
      || (exists k | 0 <= k < |ts| :: ts[k].at == at && (ts[k].found <==> exists m | m in ms :: m.pos == at))
      || (exists m | m in ms :: m.pos < at < m.End())
    decreases |inp| - ip
  {
    hide FindMatch, Onward, Stored, Scan, Turns;
    var ts, ms := Turns(inp, ip, dict), Scan(inp, ip, dict);
    var p, next := FindMatch(inp, ip, dict), Onward(inp, ip, dict);
    TurnsCons(inp, ip, dict);
    ScanCons(inp, ip, dict);
    if at == ip {
      if next < |inp| - M2_MAX_LEN - 5 {
        forall m | m in Scan(inp, next, Stored(inp, ip, dict)) ensures m.pos > at {
          LaterMatches(inp, next, Stored(inp, ip, dict), m);
        }
      }
      assert ts[0].at == at;
    } else if at < next {
      OnwardIs(inp, ip, dict);
      assert ms[0].pos < at < ms[0].End();
    } else {
      Searched(inp, next, Stored(inp, ip, dict), at);
      var rest := Scan(inp, next, Stored(inp, ip, dict));
      assert forall m :: m in ms <==> m in rest || (p.Found? && m == ms[0]);
      if k :| 0 <= k < |ts[1..]| && ts[1..][k].at == at && (ts[1..][k].found <==> exists m | m in rest :: m.pos == at) {
        assert ts[k + 1] == ts[1..][k];
      }
    }
  }

  lemma OnwardIs(inp: seq<Byte>, ip: nat, dict: seq<int>)
    requires ip + 10 <= |inp| && |dict| == D_SIZE
    ensures var p := FindMatch(inp, ip, dict);
      Onward(inp, ip, dict) == ip + if p.Found? then Common(inp, p.mPos, ip) else 1
  {
    hide FindMatch;
  }

  lemma StoredIs(inp: seq<Byte>, ip: nat, dict: seq<int>)
    requires ip + 10 <= |inp| && |dict| == D_SIZE
    ensures Stored(inp, ip, dict) == dict[FindMatch(inp, ip, dict).dindex := ip]
  {
    hide FindMatch;
  }

  // ----- equal bytes

  ghost predicate AllEqual(inp: seq<Byte>)
  {
    forall i, j | 0 <= i < |inp| && 0 <= j < |inp| :: inp[i] == inp[j]
  }

  lemma {:induction false} CommonAll(inp: seq<Byte>, a: nat, b: nat)
    requires AllEqual(inp) && a < b <= |inp|
    ensures Common(inp, a, b) == |inp| - b
    decreases |inp| - b
  {
    if b < |inp| { CommonAll(inp, a + 1, b + 1); }
  }

  lemma EqualAgain(inp: seq<Byte>, m: int, ip: nat, n: nat)
    requires AllEqual(inp) && 0 <= m < ip <= m + 0xbfff && ip + n <= |inp|
    ensures Again(inp, m, ip, n)
  {
  }

  /** Equal bytes are one match, found at once or at the next position, whatever the dictionary holds. */
  lemma {:induction false} EqualMatches(inp: seq<Byte>, dict: seq<int>)
    requires |dict| == D_SIZE && |inp| > 18 && AllEqual(inp)
    ensures var n := |inp|; var ms := Matches(inp, dict);
      ms == [Match(5, 1, n - 5)] || (|ms| == 1 && 1 <= ms[0].off <= 4 && ms == [Match(4, ms[0].off, n - 4)])
  {
    hide FindMatch, Index1, Index2, Number, Scan, AllEqual, Common;
    FoundExactly(inp, 4, dict);
    ScanCons(inp, 4, dict);
    var p := FindMatch(inp, 4, dict);
    if p.Found? {
      CommonAll(inp, p.mPos, 4);
      assert Scan(inp, 4, dict) == [Match(4, 4 - p.mPos, |inp| - 4)];
    } else {
      var next := Stored(inp, 4, dict);
      NotWasted(inp, dict[Number(Index1(inp, 4))]);
      assert next[Number(Index1(inp, 4))] == 4;
      EqualAgain(inp, 4, 5, 4);
      SameSlot(inp, 4, 5);
      FoundExactly(inp, 5, next);
      ScanCons(inp, 5, next);
      CommonAll(inp, 4, 5);
      assert Scan(inp, 4, dict) == [] + Scan(inp, 5, next);
    }
  }

  lemma NotWasted(inp: seq<Byte>, m: int)
    requires |inp| > 18
    ensures !Wasted(inp, m, 4)
  {
  }

  /** So n equal bytes are compressed to no more than a constant and n / 255 bytes. */
  lemma {:induction false} EqualBytes(inp: seq<Byte>, dict: seq<int>)
    requires |dict| == D_SIZE && AllEqual(inp)
    ensures Good(inp, Matches(inp, dict), 4)
    ensures |Encoding(inp, Matches(inp, dict))| <= if |inp| > 18 then 13 + |inp| / 255 else |inp| + 5
  {
    hide Matches, Encoding;
    MatchesChain(inp, dict);
    if |inp| > 18 {
      EqualMatches(inp, dict);
      OneMatch(inp, Matches(inp, dict)[0]);
    } else {
      LzoStream.WorstCase(inp, Matches(inp, dict));
    }
  }

  /** One match, from position 4 or 5 to the end. */
  lemma {:induction false} OneMatch(inp: seq<Byte>, m: Match)
    requires Good(inp, [m], 4) && m.pos <= 5 && m.off <= 4 && m.End() == |inp| > 18
    ensures |Encoding(inp, [m])| <= 13 + |inp| / 255
  {
    hide OffsetField, Extension;
    assert Rest(inp, [m]) == CodeBefore(m, 0) + [] + Rest(inp, [m][1..]);
    assert RunHeader(m.pos) == [m.pos - 3];
  }

  // ----- the size of what is written

  /** How many zero bytes and one more say n. */
  lemma {:induction false} ExtensionSize(n: nat)
    requires n > 0
    ensures |Extension(n)| == (n + 254) / 255
    decreases n
  {
    if n > 255 { ExtensionSize(n - 255); }
  }

  /** Two bytes for what is near and short, three for what is not long, and one more for every 255 bytes. */
  lemma {:induction false} CodeSize(off: nat, len: nat)
    requires 1 <= off <= 0xbfff && 3 <= len
    ensures |MatchCode(off, len)| ==
      if off <= 0x800 && len <= 8 then 2
      else var most := if off <= 0x4000 then 33 else 9;
        3 + if len <= most then 0 else (len - most + 254) / 255
  {
    hide Extension, OffsetField;
    if len > 33 { ExtensionSize(len - 33); }
    if len > 9 { ExtensionSize(len - 9); }
  }

  /** One byte announces up to 18 literals, or up to 238 that are all there is; otherwise one more for every 255. */
  lemma {:induction false} RunSize(t: nat, data: seq<Byte>)
    requires t > 3
    ensures |RunHeader(t)| == if t <= 18 then 1 else 1 + (t - 18 + 254) / 255
    ensures data != [] ==> |PlainRun(data)| == |data| + if |data| <= 238 then 1 else 1 + (|data| - 18 + 254) / 255
  {
    hide Extension;
    if t > 18 { ExtensionSize(t - 18); }
    if |data| > 238 { ExtensionSize(|data| - 18); }
  }

  /** The matches of a whole input: from position 4 up to the last thirteen, every position is searched or covered. */
  lemma {:induction false} MatchesSearched(inp: seq<Byte>, dict: seq<int>, at: nat)
    requires |dict| == D_SIZE && 4 <= at && at + 13 < |inp|
    ensures var ts, ms := Turns(inp, 4, dict), Matches(inp, dict);
      || (exists k | 0 <= k < |ts| :: ts[k].at == at && (ts[k].found <==> exists m | m in ms :: m.pos == at))
      || (exists m | m in ms :: m.pos < at < m.End())
  {
    hide Turns, Scan;
    Searched(inp, 4, dict, at);
  }
}
