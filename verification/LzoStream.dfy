/** How a stream grows as the compressor emits literals and matches, and how large it can get. */
module LzoStream {
  import opened Bytes
  import opened LzoFormat
  import opened LzoScan

  /** The stream s after the compressor has emitted lits: a short run goes into the code before it. */
  ghost function Put(s: seq<Byte>, lits: seq<Byte>): seq<Byte>
    requires |s| >= 2
  {
    if |lits| <= 3 then s[|s| - 2 := Or2(s[|s| - 2], |lits|)] + lits
    else s + RunHeader(|lits|) + lits
  }

  /** ms is a chain whose last match ends at position end of inp. */
  ghost predicate Upto(inp: seq<Byte>, ms: seq<Match>, end: nat)
  {
    && end <= |inp| && ms != [] && ms[0].pos > 3
    && Chain(inp[..end], ms) && ms[|ms| - 1].End() == end
  }

  lemma ChainPrefix(inp: seq<Byte>, ms: seq<Match>, end: nat, more: nat)
    requires end <= more <= |inp| && Chain(inp[..end], ms)
    ensures Chain(inp[..more], ms)
  {
    forall i | 0 <= i < |ms| ensures ms[i].In(inp[..more]) {
      assert ms[i].In(inp[..end]);
      forall k | ms[i].pos <= k < ms[i].End() ensures inp[..more][k] == inp[..more][k - ms[i].off] {
        assert inp[..end][k] == inp[..end][k - ms[i].off];
      }
    }
  }

  /** The last match of a chain, without and with literals after it. */
  lemma LastLiterals(inp: seq<Byte>, m: Match, more: nat)
    requires m.End() <= more <= |inp| && Chain(inp[..m.End()], [m])
    ensures Chain(inp[..more], [m]) && |Rest(inp[..m.End()], [m])| >= 2
    ensures Rest(inp[..more], [m]) == Put(Rest(inp[..m.End()], [m]), inp[m.End()..more])
  {
    hide MatchCode, RunHeader;
    ChainPrefix(inp, [m], m.End(), more);
    var a, b := inp[..m.End()], inp[..more];
    assert [m][0].In(a);
    assert a[m.End()..NextPos(a, [m])] == [] && b[m.End()..NextPos(b, [m])] == inp[m.End()..more];
    assert Rest(a, [m][1..]) == [] && Rest(b, [m][1..]) == [];
    assert Rest(a, [m]) == CodeBefore(m, 0);
    assert Rest(b, [m]) == CodeBefore(m, more - m.End()) + RunAfter(inp[m.End()..more]);
    OrZero(m);
  }

  /** Literals after the last match change only the last code. */
  lemma {:induction false} RestLiterals(inp: seq<Byte>, ms: seq<Match>, end: nat, more: nat)
    requires end <= more <= |inp| && ms != []
    requires Chain(inp[..end], ms) && ms[|ms| - 1].End() == end
    ensures Chain(inp[..more], ms) && |Rest(inp[..end], ms)| >= 2
    ensures Rest(inp[..more], ms) == Put(Rest(inp[..end], ms), inp[end..more])
    decreases |ms|
  {
    hide MatchCode, RunHeader, CodeBefore, RunAfter, Put;
    ChainPrefix(inp, ms, end, more);
    var a, b := inp[..end], inp[..more];
    var m := ms[0];
    if |ms| == 1 {
      LastLiterals(inp, m, more);
      assert ms == [m];
    } else {
      assert a[m.End()..ms[1].pos] == b[m.End()..ms[1].pos];
      RestLiterals(inp, ms[1..], end, more);
      PutAfter(CodeBefore(m, ms[1].pos - m.End()) + RunAfter(a[m.End()..ms[1].pos]), Rest(a, ms[1..]), inp[end..more]);
    }
  }

  lemma OrZero(m: Match)
    requires 1 <= m.off <= M4_MAX_OFFSET && 3 <= m.len
    ensures CodeBefore(m, 0) == MatchCode(m.off, m.len)
  {
    hide MatchCode;
  }

  lemma PutAfter(a: seq<Byte>, s: seq<Byte>, lits: seq<Byte>)
    requires |s| >= 2
    ensures Put(a + s, lits) == a + Put(s, lits)
  {
    hide RunHeader, Or2;
    if |lits| > 3 {
      assert a + s + RunHeader(|lits|) + lits == a + (s + RunHeader(|lits|) + lits);
    } else {
      assert (a + s)[|a + s| - 2] == s[|s| - 2];
      assert (a + s)[|a + s| - 2 := Or2(s[|s| - 2], |lits|)] == a + s[|s| - 2 := Or2(s[|s| - 2], |lits|)];
    }
  }

  /** Emitting literals after a match. */
  lemma StreamLiterals(inp: seq<Byte>, ms: seq<Match>, end: nat, more: nat)
    requires Upto(inp, ms, end) && end <= more <= |inp|
    ensures Chain(inp[..more], ms) && |Stream(inp[..end], ms)| >= 2
    ensures Stream(inp[..more], ms) == Put(Stream(inp[..end], ms), inp[end..more])
  {
    hide RunHeader, Rest, Put;
    RestLiterals(inp, ms, end, more);
    var n := ms[0].pos;
    assert ms[0].In(inp[..end]);
    assert inp[..end][..n] == inp[..more][..n];
    PutAfter(RunHeader(n) + inp[..end][..n], Rest(inp[..end], ms), inp[end..more]);
  }

  lemma ChainSnoc(inp: seq<Byte>, ms: seq<Match>, m: Match)
    requires m.In(inp) && Chain(inp[..m.pos], ms)
    ensures Chain(inp[..m.End()], ms + [m])
  {
    ChainPrefix(inp, ms, m.pos, m.End());
    assert m.In(inp[..m.End()]);
    assert forall i | 0 <= i < |ms| :: ms[i].In(inp[..m.pos]);
  }

  lemma FirstMatch(inp: seq<Byte>, m: Match)
    requires m.In(inp)
    ensures Chain(inp[..m.End()], [m])
    ensures Rest(inp[..m.End()], [m]) == MatchCode(m.off, m.len)
  {
    hide MatchCode, CodeBefore, RunAfter, RunHeader;
    ChainSnoc(inp, [], m);
    assert [] + [m] == [m] && [m][1..] == [];
    OrZero(m);
    EmptyRun();
    assert inp[..m.End()][m.End()..NextPos(inp[..m.End()], [m])] == [];
  }

  /** A match appended where the data so far ends appends its code. */
  lemma {:induction false} RestMatch(inp: seq<Byte>, ms: seq<Match>, m: Match)
    requires m.In(inp) && Chain(inp[..m.pos], ms)
    ensures Chain(inp[..m.End()], ms + [m])
    ensures Rest(inp[..m.End()], ms + [m]) == Rest(inp[..m.pos], ms) + MatchCode(m.off, m.len)
    decreases |ms|
  {
    hide MatchCode, CodeBefore, RunAfter, RunHeader;
    ChainSnoc(inp, ms, m);
    if ms == [] {
      FirstMatch(inp, m);
      assert ms + [m] == [m];
    } else {
      var a, b, p := inp[..m.pos], inp[..m.End()], ms[0];
      assert (ms + [m])[0] == p && (ms + [m])[1..] == ms[1..] + [m];
      assert NextPos(b, ms + [m]) == NextPos(a, ms);
      assert p.In(a);
      var lits := a[p.End()..NextPos(a, ms)];
      assert lits == inp[p.End()..NextPos(a, ms)] == b[p.End()..NextPos(a, ms)];
      RestMatch(inp, ms[1..], m);
      assert Rest(a, ms) == CodeBefore(p, |lits|) + RunAfter(lits) + Rest(a, ms[1..]);
      assert Rest(b, ms + [m]) == CodeBefore(p, |lits|) + RunAfter(lits) + Rest(b, ms[1..] + [m]);
    }
  }

  lemma EmptyRun()
    ensures RunAfter([]) == []
  {
  }

  /** Emitting a match. */
  lemma StreamMatch(inp: seq<Byte>, ms: seq<Match>, m: Match)
    requires m.In(inp) && Chain(inp[..m.pos], ms) && m.pos > 3 && (ms != [] ==> ms[0].pos > 3)
    ensures Upto(inp, ms + [m], m.End())
    ensures Stream(inp[..m.End()], ms + [m])
      == (if ms == [] then RunHeader(m.pos) + inp[..m.pos] else Stream(inp[..m.pos], ms)) + MatchCode(m.off, m.len)
  {
    hide MatchCode, CodeBefore, RunAfter, RunHeader;
    RestMatch(inp, ms, m);
    var all := ms + [m];
    var n := all[0].pos;
    if ms != [] { assert ms[0].In(inp[..m.pos]); }
    assert inp[..m.End()][..n] == inp[..n] == inp[..m.pos][..n];
  }

  // ----- size

  lemma CodeSize(m: Match)
    requires 1 <= m.off <= M4_MAX_OFFSET && 3 <= m.len && Pays(m)
    ensures |MatchCode(m.off, m.len)| < m.len
  {
  }

  lemma HeaderSize(t: nat)
    requires t > 3
    ensures 16 * |RunHeader(t)| <= 16 + t
  {
  }

  lemma {:induction false} RestSize(data: seq<Byte>, ms: seq<Match>)
    requires Good(data, ms, 0) && ms != []
    ensures 16 * |Rest(data, ms)| <= 17 * (|data| - ms[0].pos)
    decreases |ms|
  {
    hide MatchCode, RunHeader;
    var m := ms[0];
    var lits := data[m.End()..NextPos(data, ms)];
    assert m.In(data);
    CodeSize(m);
    if |lits| > 3 { HeaderSize(|lits|); }
    if |ms| > 1 {
      assert Good(data, ms[1..], 0);
      RestSize(data, ms[1..]);
    } else {
      assert Rest(data, ms[1..]) == [];
    }
  }

  lemma StreamSize(data: seq<Byte>, ms: seq<Match>)
    requires Good(data, ms, 4) && ms != []
    ensures |Stream(data, ms)| <= |data| + |data| / 16 + 1
  {
    hide Rest, RunHeader;
    RestSize(data, ms);
    HeaderSize(ms[0].pos);
    assert ms[0].In(data);
  }

  /** The compressed form exceeds the data by at most a sixteenth and four bytes. */
  lemma WorstCase(data: seq<Byte>, ms: seq<Match>)
    requires Good(data, ms, 4)
    ensures |Encoding(data, ms)| <= |data| + |data| / 16 + 4
  {
    hide Rest, RunHeader;
    if ms != [] {
      StreamSize(data, ms);
    } else if |data| > 238 {
      HeaderSize(|data|);
    }
  }
}
