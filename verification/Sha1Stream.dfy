/** The hash object that takes a message in pieces, and the keyed hash built on it. */
module Sha1Stream {
  import opened Sha1
  import opened Sha1Transform

  const WORD_LIMIT := 0x1_0000_0000
  const LENGTH_LIMIT := 0x1_0000_0000_0000_0000

  // ----- the bit count in two words

  /** The low word is low, the high word high, and together they count 8 * n bits modulo 2^64. */
  predicate Counts(low: nat, high: nat, n: nat)
  {
    low < WORD_LIMIT && high < WORD_LIMIT && high * WORD_LIMIT + low == 8 * n % LENGTH_LIMIT
  }

  lemma CountsBound(low: nat, high: nat, n: nat)
    requires Counts(low, high, n)
    ensures high < WORD_LIMIT
  {
  }

  lemma CountsModulo(low: nat, high: nat, n: nat, q: int)
    requires low < WORD_LIMIT && high < WORD_LIMIT && high * WORD_LIMIT + low == 8 * n - q * LENGTH_LIMIT
    ensures Counts(low, high, n)
  {
    Remainder(8 * n, q, high * WORD_LIMIT + low);
  }

  lemma Remainder(x: int, q: int, r: int)
    requires x == q * LENGTH_LIMIT + r && 0 <= r < LENGTH_LIMIT
    ensures x % LENGTH_LIMIT == r
  {
  }

  /** The additions with carry of Update. */
  lemma CountsUpdate(low: nat, high: nat, n: nat, len: nat)
    requires Counts(low, high, n) && len < WORD_LIMIT
    ensures var bits := 8 * len % WORD_LIMIT; var low' := (low + bits) % WORD_LIMIT;
      Counts(low', (high + (if low' < bits then 1 else 0) + len / 0x2000_0000) % WORD_LIMIT, n + len)
  {
    var bits, hi := 8 * len % WORD_LIMIT, len / 0x2000_0000;
    assert 8 * len == hi * WORD_LIMIT + bits;
    var low' := (low + bits) % WORD_LIMIT;
    var carry := if low' < bits then 1 else 0;
    assert low + bits == carry * WORD_LIMIT + low';
    var total := high + carry + hi;
    var high', p := total % WORD_LIMIT, total / WORD_LIMIT;
    var q := 8 * n / LENGTH_LIMIT;
    assert high' * WORD_LIMIT + low' == 8 * (n + len) - (q + p) * LENGTH_LIMIT;
    CountsModulo(low', high', n + len, q + p);
  }

  /** The position in the buffer is read off the low word. */
  lemma CountsPosition(low: nat, high: nat, n: nat)
    requires Counts(low, high, n)
    ensures low / 8 % 64 == n % 64
  {
    var q := 8 * n / LENGTH_LIMIT;
    assert 8 * n == (q * WORD_LIMIT + high) * WORD_LIMIT + low;
    assert n == (q * WORD_LIMIT + high) * 0x2000_0000 + low / 8;
    SameModulo(n, low / 8, (q * WORD_LIMIT + high) * 0x80_0000);
  }

  lemma SameModulo(x: nat, y: nat, m: int)
    requires x == 64 * m + y
    ensures x % 64 == y % 64
  {
  }

  /** The two words, byte by byte, are the length field of the padding. */
  lemma CountsField(low: nat, high: nat, n: nat)
    requires Counts(low, high, n)
    ensures BigEndian(8 * n % LENGTH_LIMIT, 8) == BigEndian(high, 4) + BigEndian(low, 4)
  {
    BigEndianSplit(high, low, 4);
  }

  function Pow256(n: nat): nat
  {
    if n == 0 then 1 else 256 * Pow256(n - 1)
  }

  lemma {:induction false} BigEndianSplit(high: nat, low: nat, n: nat)
    requires low < Pow256(n)
    ensures BigEndian(high * Pow256(n) + low, 4 + n) == BigEndian(high, 4) + BigEndian(low, n)
    decreases n
  {
    if n > 0 {
      var m := high * Pow256(n - 1);
      Shift(high, Pow256(n - 1));
      SameOctet(m, low);
      BigEndianSplit(high, low / 256, n - 1);
      AppendOctet(BigEndian(high, 4), 256 * m + low, low, n);
    }
  }

  lemma AppendOctet(a: seq<Octet>, x: nat, low: nat, n: nat)
    requires n > 0 && BigEndian(x / 256, 3 + n) == a + BigEndian(low / 256, n - 1) && OctetOf(x) == OctetOf(low)
    ensures BigEndian(x, 4 + n) == a + BigEndian(low, n)
  {
    BigEndianStep(x, 3 + n);
    BigEndianStep(low, n - 1);
    hide BigEndian, OctetOf;
  }

  lemma Shift(high: nat, p: nat)
    ensures high * (256 * p) == 256 * (high * p)
  {
  }

  lemma BigEndianStep(x: nat, n: nat)
    ensures BigEndian(x, n + 1) == BigEndian(x / 256, n) + [OctetOf(x)]
  {
    hide OctetOf;
  }

  lemma SameOctetOf(x: nat, y: nat)
    requires x % 256 == y % 256
    ensures OctetOf(x) == OctetOf(y)
  {
  }

  lemma SameOctet(m: nat, low: nat)
    ensures (256 * m + low) / 256 == m + low / 256 && OctetOf(256 * m + low) == OctetOf(low)
  {
    assert (256 * m + low) % 256 == low % 256;
    hide OctetOf;
    SameOctetOf(256 * m + low, low);
  }

  // ----- the message so far

  function Whole(m: seq<Octet>): (n: nat)
    ensures n <= |m|
  {
    |m| - |m| % 64
  }

  /** A full block on top of whole blocks. */
  lemma {:induction false} AbsorbBlock(s: Vars, m: seq<Octet>, block: seq<Octet>)
    requires |m| % 64 == 0 && |block| == 64
    ensures Absorb(s, m + block) == Compress(Absorb(s, m), block)
  {
    AbsorbAppend(s, m, block);
    AbsorbOne(Absorb(s, m), block);
  }

  /** Only the whole blocks of a message have been absorbed. */
  lemma {:induction false} AbsorbWhole(s: Vars, m: seq<Octet>)
    ensures Absorb(s, m) == Absorb(s, m[..Whole(m)])
  {
    assert m == m[..Whole(m)] + m[Whole(m)..];
    AbsorbTail(s, m[..Whole(m)], m[Whole(m)..]);
  }

  /** The first block that is completed: what was in the buffer and the beginning of data. */
  lemma {:induction false} AbsorbFirst(s: Vars, m: seq<Octet>, data: seq<Octet>, i: nat)
    requires i == 64 - |m| % 64 <= |data|
    ensures (|m| + i) % 64 == 0
    ensures |m[Whole(m)..] + data[..i]| == 64
    ensures Absorb(s, m + data[..i]) == Compress(Absorb(s, m), m[Whole(m)..] + data[..i])
  {
    AbsorbWhole(s, m);
    RoundUp(|m|, i);
    hide Absorb, Compress, Whole;
    var w := Whole(m);
    AbsorbBlock(s, m[..w], m[w..] + data[..i]);
    Regroup(m, w, data[..i]);
  }

  lemma Regroup<T>(m: seq<T>, w: nat, d: seq<T>)
    requires w <= |m|
    ensures m[..w] + (m[w..] + d) == m + d
  {
  }

  lemma RoundUp(n: nat, i: nat)
    requires i == 64 - n % 64
    ensures (n + i) % 64 == 0 && (n - n % 64) % 64 == 0
  {
  }

  /** Every further block of data. */
  lemma {:induction false} AbsorbNext(s: Vars, m: seq<Octet>, data: seq<Octet>, i: nat)
    requires i + 64 <= |data| && (|m| + i) % 64 == 0
    ensures (|m| + (i + 64)) % 64 == 0
    ensures Absorb(s, m + data[..i + 64]) == Compress(Absorb(s, m + data[..i]), data[i..i + 64])
  {
    AbsorbBlock(s, m + data[..i], data[i..i + 64]);
    assert m + data[..i] + data[i..i + 64] == m + data[..i + 64];
    SameModulo(|m| + (i + 64), |m| + i, 1);
  }

  /** What is left over stays in the buffer. */
  lemma {:induction false} AbsorbRest(s: Vars, m: seq<Octet>, data: seq<Octet>, i: nat)
    requires i <= |data| < i + 64 && (|m| + i) % 64 == 0
    ensures Absorb(s, m + data) == Absorb(s, m + data[..i])
    ensures (m + data)[Whole(m + data)..] == data[i..] && |m + data| % 64 == |data| - i
  {
    AbsorbTail(s, m + data[..i], data[i..]);
    assert m + data == m + data[..i] + data[i..];
    Leftover(|m| + i, |data| - i);
  }

  lemma Leftover(n: nat, r: nat)
    requires n % 64 == 0 && r < 64
    ensures (n + r) % 64 == r
  {
  }

  /** Data that does not complete a block stays in the buffer altogether. */
  lemma {:induction false} AbsorbNothing(s: Vars, m: seq<Octet>, data: seq<Octet>)
    requires |m| % 64 + |data| < 64
    ensures Absorb(s, m + data) == Absorb(s, m)
    ensures (m + data)[Whole(m + data)..] == m[Whole(m)..] + data && |m + data| % 64 == |m| % 64 + |data|
  {
    Leftover(Whole(m), |m| % 64 + |data|);
    AbsorbWhole(s, m);
    AbsorbWhole(s, m + data);
    assert (m + data)[..Whole(m)] == m[..Whole(m)];
  }

  /** memcpy to position at of the buffer. */
  method CopyTo(a: array<Octet>, at: nat, data: seq<Octet>)
    requires at + |data| <= a.Length
    modifies a
    ensures a[..at] == old(a[..at]) && a[at..at + |data|] == data
  {
    var i := 0;
    while i < |data|
      invariant i <= |data| && a[..at] == old(a[..at]) && a[at..at + i] == data[..i]
    {
      a[at + i] := data[i];
      assert a[at..at + i + 1] == a[at..at + i] + [data[i]];
      i := i + 1;
    }
  }

  lemma CarryOnce(high: nat, carry: nat, hi: nat)
    requires high < WORD_LIMIT && carry <= 1
    ensures ((high + carry) % WORD_LIMIT + hi) % WORD_LIMIT == (high + carry + hi) % WORD_LIMIT
    ensures (high + 0 + hi) % WORD_LIMIT == (high + hi) % WORD_LIMIT
  {
  }

  /**
   The test whether data fits behind position p of the buffer, on 32-bit words, tells the
   truth exactly if p + len is below 2^32.  Otherwise it holds although data does not fit,
   and the copy into the buffer goes past its end.
   */
  lemma FitsExactly(p: nat, len: nat)
    requires p < 64 && len < WORD_LIMIT
    ensures ((p + len) % WORD_LIMIT <= 63 <==> p + len <= 63) <==> p + len < WORD_LIMIT
  {
    if p + len >= WORD_LIMIT { assert (p + len) % WORD_LIMIT == p + len - WORD_LIMIT; }
  }

  lemma Nothing()
    ensures Absorb(INITIAL, []) == INITIAL && Whole([]) == 0 && Counts(0, 0, 0)
  {
  }

  /** Up to the last block completed, the loop of Update does not wrap round. */
  lemma NoWrap(m: nat, i: nat, len: nat)
    requires (m + i) % 64 == 0 && i <= len && m % 64 + len < WORD_LIMIT
    ensures i + 63 < WORD_LIMIT
  {
    var q := m % 64 + i;
    assert q % 64 == 0;
    assert q <= WORD_LIMIT - 64;
  }

  class CSHA1 {
    const state: array<Word>
    const workspace: array<Word>
    const buffer: array<Octet>
    var digest: seq<Octet>
    var countLow: nat
    var countHigh: nat
    ghost var message: seq<Octet>

    ghost predicate Shape()
    {
      state.Length == 5 && workspace.Length == 16 && buffer.Length == 64 && state != workspace
    }

    /** The object has taken in message since the last Reset. */
    ghost predicate Valid()
      reads this, state, buffer
    {
      && Shape()
      && StateOf(state[..]) == Absorb(INITIAL, message)
      && buffer[..|message| % 64] == message[Whole(message)..]
      && Counts(countLow, countHigh, |message|)
    }

    constructor ()
      ensures Valid() && message == [] && fresh(state) && fresh(workspace) && fresh(buffer)
    {
      state := new Word[5];
      workspace := new Word[16];
      buffer := new Octet[64];
      digest := [];
      new;
      Reset();
    }

    method Reset()
      requires Shape()
      modifies this, state
      ensures Valid() && message == []
    {
      hide Absorb, StateOf, Counts, Whole;
      Nothing();
      SetState(0x67452301, 0xEFCDAB89, 0x98BADCFE, 0x10325476, 0xC3D2E1F0);
      countLow, countHigh, message := 0, 0, [];
    }

    method SetState(a: Word, b: Word, c: Word, d: Word, e: Word)
      requires state.Length == 5
      modifies state
      ensures StateOf(state[..]) == Vars(a, b, c, d, e)
    {
      state[0] := a;
      state[1] := b;
      state[2] := c;
      state[3] := d;
      state[4] := e;
    }

    /** The first block that is completed. */
    method FirstBlock(data: seq<Octet>, j: nat) returns (i: nat)
      requires Valid() && j == |message| % 64 && 63 < j + |data|
      modifies state, workspace, buffer
      ensures i == 64 - j && StateOf(state[..]) == Absorb(INITIAL, message + data[..i]) && (|message| + i) % 64 == 0
    {
      hide Absorb, Compress, Counts, StateOf;
      i := 64 - j;
      AbsorbFirst(INITIAL, message, data, i);
      CopyTo(buffer, j, data[..i]);
      assert buffer[..] == message[Whole(message)..] + data[..i];
      Transform(state, workspace, buffer[..]);
    }

    /** A further block of data. */
    method NextBlock(data: seq<Octet>, i: nat)
      requires Shape() && i + 64 <= |data| && (|message| + i) % 64 == 0
      requires StateOf(state[..]) == Absorb(INITIAL, message + data[..i])
      modifies state, workspace
      ensures StateOf(state[..]) == Absorb(INITIAL, message + data[..i + 64]) && (|message| + (i + 64)) % 64 == 0
    {
      hide Absorb, Compress, StateOf;
      AbsorbNext(INITIAL, message, data, i);
      Transform(state, workspace, data[i..i + 64]);
    }

    /** The blocks that data completes; i is how much of data has gone. */
    method Feed(data: seq<Octet>, j: nat) returns (i: nat)
      requires Valid() && j == |message| % 64 && 63 < j + |data| < WORD_LIMIT
      modifies state, workspace, buffer
      ensures i <= |data| < i + 64 && (|message| + i) % 64 == 0
      ensures StateOf(state[..]) == Absorb(INITIAL, message + data[..i])
    {
      hide Absorb, Compress, Counts, StateOf, Whole;
      i := FirstBlock(data, j);
      NoWrap(|message|, i, |data|);
      while (i + 63) % WORD_LIMIT < |data|
        invariant i <= |data| && (|message| + i) % 64 == 0 && i + 63 < WORD_LIMIT
        invariant StateOf(state[..]) == Absorb(INITIAL, message + data[..i])
      {
        NextBlock(data, i);
        i := i + 64;
        NoWrap(|message|, i, |data|);
      }
    }

    /** The position in the buffer, read off the bit count. */
    lemma PositionIs()
      requires Valid()
      ensures countLow / 8 % 64 == |message| % 64
    {
      hide Absorb, StateOf, Whole;
      CountsPosition(countLow, countHigh, |message|);
    }

    /** Blocks that are completed go into the state, the rest of data into the buffer; wrong tells
        that the rest goes past the end of the buffer. */
    method TakeIn(data: seq<Octet>, position: nat) returns (wrong: bool)
      requires Valid() && position == |message| % 64 && |data| < WORD_LIMIT
      modifies state, workspace, buffer
      ensures wrong <==> position + |data| >= WORD_LIMIT
      ensures !wrong ==> StateOf(state[..]) == Absorb(INITIAL, message + data)
      ensures !wrong ==> buffer[..|message + data| % 64] == (message + data)[Whole(message + data)..]
    {
      hide Absorb, Compress, Counts, StateOf, Whole;
      var i, j := 0, position;
      FitsExactly(j, |data|);
      if (j + |data|) % WORD_LIMIT > 63 {
        i := Feed(data, j);
        AbsorbRest(INITIAL, message, data, i);
        j := 0;
      } else if j + |data| < WORD_LIMIT {
        AbsorbNothing(INITIAL, message, data);
        assert data[0..] == data;
      }
      wrong := j + (|data| - i) > buffer.Length;
      if !wrong { Store(j, data[i..]); }
    }

    /**
     Update adds data to the message, however it is cut up, if and only if the position in
     the buffer and the length do not reach 2^32 together; otherwise it writes past the end
     of the buffer, where the run stops.
     */
    method Update(data: seq<Octet>) returns (wrong: bool)
      requires Valid() && |data| < WORD_LIMIT
      modifies this, state, workspace, buffer
      ensures wrong <==> old(|message|) % 64 + |data| >= WORD_LIMIT
      ensures !wrong ==> Valid() && message == old(message) + data && digest == old(digest)
    {
      hide Absorb, Compress, Counts, StateOf, Whole;
      var j := countLow / 8 % 64;
      PositionIs();
      CountsBound(countLow, countHigh, |message|);
      CountsUpdate(countLow, countHigh, |message|, |data|);
      wrong := TakeIn(data, j);
      Count(|data|);
      if !wrong { message := message + data; }
    }

    method Store(j: nat, rest: seq<Octet>)
      requires Shape() && j + |rest| <= 64
      modifies buffer
      ensures buffer[..j + |rest|] == old(buffer[..j]) + rest
    {
      CopyTo(buffer, j, rest);
      assert buffer[..j + |rest|] == buffer[..j] + buffer[j..j + |rest|];
    }

    /** The bit count, with its carry. */
    method Count(len: nat)
      requires len < WORD_LIMIT
      modifies this`countLow, this`countHigh
      requires countHigh < WORD_LIMIT
      ensures var bits := 8 * len % WORD_LIMIT;
        && countLow == (old(countLow) + bits) % WORD_LIMIT
        && countHigh == (old(countHigh) + (if countLow < bits then 1 else 0) + len / 0x2000_0000) % WORD_LIMIT
    {
      var bits := 8 * len % WORD_LIMIT;
      countLow := (countLow + bits) % WORD_LIMIT;
      CarryOnce(countHigh, if countLow < bits then 1 else 0, len / 0x2000_0000);
      if countLow < bits { countHigh := (countHigh + 1) % WORD_LIMIT; }
      countHigh := (countHigh + len / 0x2000_0000) % WORD_LIMIT;
    }

    /** The length field: the high word's bytes, then the low word's. */
    method CountField() returns (field: seq<Octet>)
      requires Counts(countLow, countHigh, |message|)
      ensures field == BigEndian(8 * |message| % LENGTH_LIMIT, 8)
    {
      hide CountOctet, CountOctets, BigEndian, Counts;
      FieldIs(countLow, countHigh, |message|);
      field := [];
      for i := 0 to 8
        invariant field == CountOctets(countLow, countHigh)[..i]
      {
        FieldAt(countLow, countHigh, i);
        field := field + [CountOctet(if i >= 4 then countLow else countHigh, 3 - i % 4)];
      }
    }

    /** The end of the padding is known from the low word alone. */
    method Pad()
      requires Valid()
      modifies this, state, workspace, buffer
      ensures Valid() && message == old(message) + Zeros((120 - |old(message)| % 64) % 64) && digest == old(digest)
    {
      hide Valid;
      ghost var m, n := message, 0;
      assert m + Zeros(0) == m;
      PositionIs();
      while countLow / 8 % 64 != 56
        invariant Valid() && message == m + Zeros(n) && digest == old(digest)
        invariant n <= (120 - |m| % 64) % 64 && countLow / 8 % 64 == (|m| + n) % 64
        decreases 64 - n
      {
        PadStep(|m|, n);
        var _ := Update([0]);
        PositionIs();
        assert m + Zeros(n) + [0] == m + Zeros(n + 1);
        n := n + 1;
      }
      PadEnd(|m|, n);
    }

    /** Final: the digest is that of the message, padded once. */
    method Final()
      requires Valid()
      modifies this, state, workspace, buffer
      ensures Shape() && digest == Digest(old(message))
    {
      hide Absorb, StateOf, Counts, Octets, BigEndian;
      ghost var m := message;
      var field := CountField();
      var _ := Update([0x80]);
      PadLength(|m|);
      Pad();
      var _ := Update(field);
      assert message == Padded(m);
      PaddedWhole(m);
      ReadDigest();
      Wipe();
    }

    /** Reset, Update and Final, as the keyed hash uses them. */
    method HashOf(m: seq<Octet>)
      requires Shape() && |m| < WORD_LIMIT
      modifies this, state, workspace, buffer
      ensures Shape() && digest == Digest(m)
    {
      Reset();
      var _ := Update(m);
      assert [] + m == m;
      Final();
    }

    /** The state as bytes, big-endian. */
    method ReadDigest()
      requires Shape()
      modifies this`digest
      ensures digest == Octets(StateOf(state[..]))
    {
      hide OctetAt, Octets;
      ghost var all := Octets(StateOf(state[..]));
      digest := [];
      for i := 0 to 20
        invariant digest == all[..i]
      {
        OctetsAt(state[..], i);
        digest := digest + [OctetAt(state[i / 4], 3 - i % 4)];
      }
      assert all[..20] == all;
    }

    /** Variables are wiped; the object is of no use until it is reset. */
    method Wipe()
      requires Shape()
      modifies this`countLow, this`countHigh, state, workspace, buffer
    {
      CopyTo(buffer, 0, Zeros(64));
      SetState(0, 0, 0, 0, 0);
      countLow, countHigh := 0, 0;
      Transform(state, workspace, buffer[..]);
    }
  }

  /** With one byte in the buffer, 2^32 - 1 more seem to fit behind it, and the copy overruns it. */
  method SeemsToFit(first: Octet, data: seq<Octet>) returns (wrong: bool)
    requires |data| == 0xFFFF_FFFF
    ensures (1 + |data|) % WORD_LIMIT == 0 && wrong
  {
    hide CSHA1.Valid;
    var csha1 := new CSHA1();
    var _ := csha1.Update([first]);
    assert [] + [first] == [first];
    wrong := csha1.Update(data);
  }

  lemma OctetsAt(s: seq<Word>, i: nat)
    requires |s| == 5 && i < 20
    ensures Octets(StateOf(s))[i] == OctetAt(s[i / 4], 3 - i % 4)
  {
    hide WordOctets, OctetAt;
    WordOctetsAt(s[i / 4], i % 4);
    var v := StateOf(s);
    Fives(WordOctets(v.a), WordOctets(v.b), WordOctets(v.c), WordOctets(v.d), WordOctets(v.e), i);
  }

  lemma Fives<T>(a: seq<T>, b: seq<T>, c: seq<T>, d: seq<T>, e: seq<T>, i: nat)
    requires |a| == |b| == |c| == |d| == |e| == 4 && i < 20
    ensures (a + b + c + d + e)[i] == [a, b, c, d, e][i / 4][i % 4]
  {
  }

  lemma WordOctetsAt(x: Word, k: nat)
    requires k < 4
    ensures WordOctets(x)[k] == OctetAt(x, 3 - k)
  {
    hide OctetAt;
  }

  /** (count >> 8 * k) & 255 */
  function CountOctet(count: nat, k: nat): Octet
  {
    OctetOf(if k == 3 then count / 0x100_0000 else if k == 2 then count / 0x1_0000 else if k == 1 then count / 0x100 else count)
  }

  /** finalcount */
  function CountOctets(low: nat, high: nat): (r: seq<Octet>)
    ensures |r| == 8
  {
    [CountOctet(high, 3), CountOctet(high, 2), CountOctet(high, 1), CountOctet(high, 0)]
    + [CountOctet(low, 3), CountOctet(low, 2), CountOctet(low, 1), CountOctet(low, 0)]
  }

  lemma FieldIs(low: nat, high: nat, n: nat)
    requires Counts(low, high, n)
    ensures CountOctets(low, high) == BigEndian(8 * n % LENGTH_LIMIT, 8)
    ensures CountOctets(low, high)[..8] == CountOctets(low, high)
  {
    CountsField(low, high, n);
    FourOctets(high);
    FourOctets(low);
  }

  lemma FieldAt(low: nat, high: nat, i: nat)
    requires i < 8
    ensures CountOctets(low, high)[..i + 1]
      == CountOctets(low, high)[..i] + [CountOctet(if i >= 4 then low else high, 3 - i % 4)]
  {
    hide CountOctet;
    assert CountOctets(low, high)[i] == CountOctet(if i >= 4 then low else high, 3 - i % 4);
  }

  lemma FourOctets(x: nat)
    ensures BigEndian(x, 4) == [CountOctet(x, 3), CountOctet(x, 2), CountOctet(x, 1), CountOctet(x, 0)]
  {
    hide OctetOf, BigEndian;
    Divisions(x);
    BigEndianStep(x, 3);
    BigEndianStep(x / 256, 2);
    BigEndianStep(x / 256 / 256, 1);
    BigEndianStep(x / 256 / 256 / 256, 0);
    NoOctets(x / 256 / 256 / 256 / 256);
  }

  lemma NoOctets(x: nat)
    ensures BigEndian(x, 0) == []
  {
  }

  lemma Divisions(x: nat)
    ensures x / 256 / 256 == x / 0x1_0000 && x / 256 / 256 / 256 == x / 0x100_0000
  {
  }

  lemma PadStep(m: nat, n: nat)
    requires n <= (120 - m % 64) % 64 && (m + n) % 64 != 56
    ensures n + 1 <= (120 - m % 64) % 64
  {
  }

  lemma PadEnd(m: nat, n: nat)
    requires n <= (120 - m % 64) % 64 && (m + n) % 64 == 56
    ensures n == (120 - m % 64) % 64
  {
  }

  /** One byte has been added before the zeros. */
  lemma PadLength(m: nat)
    ensures (120 - (m + 1) % 64) % 64 == (119 - m % 64) % 64
  {
  }

  lemma {:induction false} PaddedWhole(m: seq<Octet>)
    ensures |Padded(m)| % 64 == 0
  {
    hide BigEndian;
  }

  // ----- the keyed hash

  /** ipad[i] ^= key[i] over a whole block. */
  method XorBlock(key: seq<Octet>, pad: Octet) returns (r: seq<Octet>)
    ensures r == Xored(key, pad)
  {
    hide XorOctet;
    r := [];
    for i := 0 to |key|
      invariant |r| == i && forall k | 0 <= k < i :: r[k] == XorOctet(key[k], pad)
    {
      r := r + [XorOctet(key[i], pad)];
    }
    assert r == Xored(key, pad);
  }

  method HexDigest(s: seq<Octet>) returns (r: string)
    ensures r == Hex(s)
  {
    hide HexPair;
    r := [];
    for i := 0 to |s|
      invariant r == Hex(s[..i])
    {
      assert s[..i + 1][..i] == s[..i];
      r := r + HexPair(s[i]);
    }
    assert s[..|s|] == s;
  }

  /** sha1 with a key: HMAC over this hash. */
  method KeyedHash(data: seq<Octet>, key: seq<Octet>) returns (digest: seq<Octet>, hex: string)
    requires |data| + 64 <= 0x7FFF_FFFF && |key| <= 0x7FFF_FFFF
    ensures digest == Hmac(key, data) && hex == Hex(Hmac(key, data))
  {
    hide Digest;
    var csha1 := new CSHA1();
    var block := key + Zeros(if |key| <= 64 then 64 - |key| else 0);
    if |key| > 64 {
      csha1.HashOf(key);
      block := csha1.digest + Zeros(44);
    }
    var ipad := XorBlock(block, 0x36);
    var opad := XorBlock(block, 0x5c);
    csha1.HashOf(ipad + data);
    csha1.HashOf(opad + csha1.digest);
    digest := csha1.digest;
    hex := HexDigest(digest);
  }
}
