/**
 The compressor as it runs: the dictionary array is updated at every position
 visited, the output array is written at op and patched at op - 2.
 */
module LzoCompress {
  import opened Frames
  import opened Bytes
  import opened LzoFormat
  import opened LzoScan
  import opened LzoStream

  /** The output grew from position op to op' by bytes. */
  twostate predicate Appended(out: array<Byte>, op: nat, op': nat, bytes: seq<Byte>)
    requires op <= out.Length
    reads out
  {
    && op' == op + |bytes| <= out.Length
    && out[..op'] == old(out[..op]) + bytes
    && BeyondUnchanged(out, op')
  }

  method Emit(out: array<Byte>, op: nat, b: Byte) returns (op': nat)
    requires op < out.Length
    modifies out
    ensures Appended(out, op, op', [b])
  {
    out[op] := b;
    op' := op + 1;
  }

  method EmitExtension(out: array<Byte>, op: nat, rest: nat) returns (op': nat)
    requires rest > 0 && op + |Extension(rest)| <= out.Length
    modifies out
    ensures Appended(out, op, op', Extension(rest))
  {
    var tt := rest;
    op' := op;
    while tt > 255
      invariant 0 < tt && op <= op' && op' + |Extension(tt)| == op + |Extension(rest)|
      invariant out[..op'] + Extension(tt) == old(out[..op]) + Extension(rest)
      invariant BeyondUnchanged(out, op')
    {
      ghost var before, was := out[..op'], Extension(tt);
      tt := tt - 255;
      out[op'] := 0;
      op' := op' + 1;
      assert out[..op'] + Extension(tt) == before + was;
    }
    out[op'] := tt;
    op' := op' + 1;
    assert out[..op'] == out[..op' - 1] + Extension(tt);
  }

  method EmitPrefixed(out: array<Byte>, op: nat, b: Byte, rest: nat) returns (op': nat)
    requires rest > 0 && op + 1 + |Extension(rest)| <= out.Length
    modifies out
    ensures Appended(out, op, op', [b] + Extension(rest))
  {
    hide Extension;
    ghost var start := out[..op];
    op' := Emit(out, op, b);
    op' := EmitExtension(out, op', rest);
    assert start + ([b] + Extension(rest)) == start + [b] + Extension(rest);
  }

  method EmitRunHeader(out: array<Byte>, op: nat, t: nat) returns (op': nat)
    requires t > 3 && op + |RunHeader(t)| <= out.Length
    modifies out
    ensures Appended(out, op, op', RunHeader(t))
  {
    if t <= 18 {
      op' := Emit(out, op, t - 3);
    } else {
      hide Extension;
      op' := EmitPrefixed(out, op, 0, t - 18);
    }
  }

  method CopyIn(out: array<Byte>, op: nat, inp: seq<Byte>, ii: nat, n: nat) returns (op': nat)
    requires ii + n <= |inp| && op + n <= out.Length
    modifies out
    ensures Appended(out, op, op', inp[ii..ii + n])
  {
    var t := n;
    op' := op;
    while t > 0
      invariant 0 <= t <= n && op' == op + (n - t)
      invariant out[..op'] == old(out[..op]) + inp[ii..ii + (n - t)]
      invariant BeyondUnchanged(out, op')
    {
      out[op'] := inp[ii + (n - t)];
      op', t := op' + 1, t - 1;
    }
  }

  /** The output s after literals lits. */
  ghost function WithLiterals(s: seq<Byte>, lits: seq<Byte>): seq<Byte>
    requires |lits| > 3 || |s| >= 2
  {
    if |lits| > 3 then s + RunHeader(|lits|) + lits else Put(s, lits)
  }

  /** The pending literals from ii on: counted in the code before them, or announced. */
  method EmitLiterals(out: array<Byte>, op: nat, inp: seq<Byte>, ii: nat, t: nat) returns (op': nat)
    requires 0 < t && ii + t <= |inp| && op <= out.Length && (t > 3 || op >= 2)
    requires |WithLiterals(out[..op], inp[ii..ii + t])| <= out.Length
    modifies out
    ensures op <= op' <= out.Length && out[..op'] == WithLiterals(old(out[..op]), inp[ii..ii + t])
    ensures BeyondUnchanged(out, op')
  {
    op' := op;
    if t <= 3 {
      out[op - 2] := Or2(out[op - 2], t);
    } else {
      op' := EmitRunHeader(out, op, t);
    }
    op' := CopyIn(out, op', inp, ii, t);
  }

  method EmitHead(out: array<Byte>, op: nat, marker: nat, max: nat, len: nat) returns (op': nat)
    requires 3 <= len && 3 <= max && 16 <= marker && marker + (max - 2) < 256
    requires op + |Head(marker, max, len)| <= out.Length
    modifies out
    ensures Appended(out, op, op', Head(marker, max, len))
  {
    hide Extension;
    if len <= max {
      op' := Emit(out, op, marker + (len - 2));
    } else {
      op' := EmitPrefixed(out, op, marker, len - max);
    }
  }

  method EmitOffset(out: array<Byte>, op: nat, mOff: nat) returns (op': nat)
    requires op + 2 <= out.Length
    modifies out
    ensures Appended(out, op, op', OffsetField(mOff))
  {
    out[op] := mOff % 64 * 4;
    out[op + 1] := LowByte(mOff / 64);
    op' := op + 2;
  }

  /** The code of a match. */
  method EmitMatch(out: array<Byte>, op: nat, off: nat, len: nat) returns (op': nat)
    requires 1 <= off <= M4_MAX_OFFSET && 3 <= len && op + |MatchCode(off, len)| <= out.Length
    modifies out
    ensures Appended(out, op, op', MatchCode(off, len))
  {
    hide Head, OffsetField;
    if len <= M2_MAX_LEN && off <= M2_MAX_OFFSET {
      var mOff := off - 1;
      op' := Emit(out, op, (len - 1) * 32 + mOff % 8 * 4);
      op' := Emit(out, op', LowByte(mOff / 8));
    } else if off <= M3_MAX_OFFSET {
      op' := EmitHead(out, op, M3_MARKER, M3_MAX_LEN, len);
      op' := EmitOffset(out, op', off - 1);
    } else {
      var mOff := off - 0x4000;
      op' := EmitHead(out, op, M4_MARKER + mOff / 0x4000 % 2 * 8, M4_MAX_LEN, len);
      op' := EmitOffset(out, op', mOff);
    }
  }

  /** Both probes of the dictionary. */
  method Probes(inp: seq<Byte>, ip: nat, dict: array<int>) returns (p: Probe)
    requires ip + 3 < |inp| && dict.Length == D_SIZE
    ensures p == FindMatch(inp, ip, dict[..])
  {
    hide Index1, Index2, Number;
    var slot := Index1(inp, ip);
    var dindex := Number(slot);
    var mPos := dict[dindex];
    if !Candidate(ip, mPos) { return NoMatch(dindex); }
    if !Worth(inp, ip, mPos) {
      dindex := Number(Index2(slot));
      mPos := dict[dindex];
      if !Candidate(ip, mPos) { return NoMatch(dindex); }
      if !Worth(inp, ip, mPos) { return NoMatch(dindex); }
    }
    if SameThree(inp, ip, mPos) { return Found(dindex, mPos); }
    return NoMatch(dindex);
  }

  lemma {:induction false} CommonIs(inp: seq<Byte>, a: nat, b: nat, n: nat)
    requires a < b && b + n <= |inp|
    requires forall k | b <= k < b + n :: inp[k] == inp[k - (b - a)]
    requires b + n == |inp| || inp[b + n] != inp[a + n]
    ensures Common(inp, a, b) == n
    decreases n
  {
    if n > 0 {
      assert inp[b] == inp[b - (b - a)];
      CommonIs(inp, a + 1, b + 1, n - 1);
    }
  }

  /** How far the match goes: six more bytes one by one, then on to the end of the input. */
  method MatchLength(inp: seq<Byte>, mPos: nat, ip: nat) returns (len: nat)
    requires mPos < ip && ip + 9 <= |inp|
    requires inp[mPos] == inp[ip] && inp[mPos + 1] == inp[ip + 1] && inp[mPos + 2] == inp[ip + 2]
    ensures len == Common(inp, mPos, ip)
  {
    hide Common;
    len := 3;
    while len < M2_MAX_LEN + 1 && inp[mPos + len] == inp[ip + len]
      invariant 3 <= len <= M2_MAX_LEN + 1
      invariant forall k | ip <= k < ip + len :: inp[k] == inp[k - (ip - mPos)]
    {
      len := len + 1;
    }
    if len == M2_MAX_LEN + 1 {
      while ip + len < |inp| && inp[mPos + len] == inp[ip + len]
        invariant ip + len <= |inp|
        invariant forall k | ip <= k < ip + len :: inp[k] == inp[k - (ip - mPos)]
      {
        len := len + 1;
      }
    }
    CommonIs(inp, mPos, ip, len);
  }

  /** The matches found so far cover the input up to position ii. */
  ghost predicate Progress(inp: seq<Byte>, done: seq<Match>, ii: nat)
  {
    if done == [] then ii == 0 else Upto(inp, done, ii) && Good(inp[..ii], done, 4)
  }

  /** What has been written for them. */
  ghost function Emitted(inp: seq<Byte>, done: seq<Match>, ii: nat): seq<Byte>
    requires Progress(inp, done, ii)
  {
    if done == [] then [] else Stream(inp[..ii], done)
  }

  /** The output for the matches found so far and the literals pending up to position more. */
  ghost function Pending(inp: seq<Byte>, done: seq<Match>, ii: nat, more: nat): seq<Byte>
    requires Progress(inp, done, ii) && ii <= more <= |inp|
    requires more > 3 || done != []
  {
    if ii == more then Emitted(inp, done, ii)
    else if done == [] then RunHeader(more) + inp[..more]
    else Put(Stream(inp[..ii], done), inp[ii..more])
  }

  lemma PendingStream(inp: seq<Byte>, done: seq<Match>, ii: nat, more: nat)
    requires Progress(inp, done, ii) && ii <= more <= |inp| && (more > 3 || done != [])
    ensures done != [] ==> Good(inp[..more], done, 4) && Pending(inp, done, ii, more) == Stream(inp[..more], done)
    ensures |Pending(inp, done, ii, more)| <= more + more / 16 + 1
  {
    hide Rest, RunHeader, Put, Stream;
    if done == [] {
      HeaderSize(more);
    } else {
      StreamLiterals(inp, done, ii, more);
      ChainPrefix(inp, done, ii, more);
      StreamSize(inp[..more], done);
    }
  }

  /** One more match: its code follows the pending literals. */
  lemma NextMatch(inp: seq<Byte>, done: seq<Match>, ii: nat, m: Match)
    requires Progress(inp, done, ii) && ii <= m.pos && 3 < m.pos && m.In(inp) && Pays(m)
    ensures Progress(inp, done + [m], m.End())
    ensures Emitted(inp, done + [m], m.End()) == Pending(inp, done, ii, m.pos) + MatchCode(m.off, m.len)
    ensures |Emitted(inp, done + [m], m.End())| <= m.End() + m.End() / 16 + 1
  {
    hide Rest, RunHeader, Put, Stream, MatchCode;
    PendingStream(inp, done, ii, m.pos);
    assert Chain(inp[..m.pos], done);
    StreamMatch(inp, done, m);
    assert Good(inp[..m.End()], done + [m], 4);
    StreamSize(inp[..m.End()], done + [m]);
  }

  /** Emits the literals from ii up to ip, if there are any. */
  method FlushLiterals(out: array<Byte>, op: nat, inp: seq<Byte>, ghost done: seq<Match>, ii: nat, ip: nat)
    returns (op': nat)
    requires Progress(inp, done, ii) && ii <= ip <= |inp| && (ip > 3 || done != [])
    requires op <= out.Length && out[..op] == Emitted(inp, done, ii)
    requires |Pending(inp, done, ii, ip)| <= out.Length
    modifies out
    ensures op' == |Pending(inp, done, ii, ip)| && out[..op'] == Pending(inp, done, ii, ip)
    ensures op <= op' && BeyondUnchanged(out, op')
  {
    hide Rest, Put, RunHeader;
    op' := op;
    if ip - ii > 0 {
      WithLiteralsIsPending(inp, done, ii, ip);
      op' := EmitLiterals(out, op, inp, ii, ip - ii);
    }
  }

  lemma WithLiteralsIsPending(inp: seq<Byte>, done: seq<Match>, ii: nat, ip: nat)
    requires Progress(inp, done, ii) && ii < ip <= |inp| && (ip > 3 || done != [])
    ensures done != [] ==> |Emitted(inp, done, ii)| >= 2
    ensures WithLiterals(Emitted(inp, done, ii), inp[ii..ip]) == Pending(inp, done, ii, ip)
  {
    hide Rest, RunHeader;
    if done != [] {
      StreamLiterals(inp, done, ii, ip);
    } else {
      assert inp[ii..ip] == inp[..ip] && [] + RunHeader(ip) == RunHeader(ip);
    }
  }

  /** match: the pending literals, then the code of the match at ip. */
  method EmitFound(inp: seq<Byte>, out: array<Byte>, start: nat, ghost done: seq<Match>, ii: nat, ip: nat, mPos: nat)
    returns (op: nat, ip': nat)
    requires Progress(inp, done, ii) && ii <= ip && 3 < ip && ip + 9 <= |inp| && Candidate(ip, mPos)
    requires SameThree(inp, ip, mPos) && Worth(inp, ip, mPos)
    requires start <= out.Length && out[..start] == Emitted(inp, done, ii)
    requires out.Length >= |inp| + |inp| / 16 + 4
    modifies out
    ensures start <= op <= out.Length && BeyondUnchanged(out, op)
    ensures var m := Match(ip, ip - mPos, Common(inp, mPos, ip));
      && ip' == m.End() <= |inp| && m.len > 0
      && Progress(inp, done + [m], ip') && out[..op] == Emitted(inp, done + [m], ip')
  {
    hide Rest, Put, RunHeader, Stream, MatchCode, Pending, Upto, Good, Common, Progress, Emitted;
    var len := MatchLength(inp, mPos, ip);
    ghost var m := Match(ip, ip - mPos, len);
    MatchIsIn(inp, ip, mPos);
    PendingStream(inp, done, ii, ip);
    NextMatch(inp, done, ii, m);
    op := FlushLiterals(out, start, inp, done, ii, ip);
    op := EmitMatch(out, op, ip - mPos, len);
    ip' := ip + len;
  }

  /** The scan after one more position. */
  ghost function ScanOn(inp: seq<Byte>, ip: nat, dict: seq<int>): seq<Match>
    requires |dict| == D_SIZE && (ip + 10 <= |inp| || ip >= |inp| - M2_MAX_LEN - 5)
  {
    if ip >= |inp| - M2_MAX_LEN - 5 then [] else Scan(inp, ip, dict)
  }

  lemma ScanUnfold(inp: seq<Byte>, ip: nat, dict: seq<int>)
    requires ip + 10 <= |inp| && |dict| == D_SIZE
    ensures var p := FindMatch(inp, ip, dict); var dict' := dict[p.dindex := ip];
      if p.NoMatch? then Scan(inp, ip, dict) == ScanOn(inp, ip + 1, dict')
      else
        var m := Match(ip, ip - p.mPos, Common(inp, p.mPos, ip));
        m.len > 0 && Scan(inp, ip, dict) == [m] + ScanOn(inp, m.End(), dict')
  {
    hide FindMatch;
  }

  lemma Initially(inp: seq<Byte>, dict: seq<int>)
    ensures Progress(inp, [], 0) && Emitted(inp, [], 0) == []
    ensures |inp| > M2_MAX_LEN + 5 && |dict| == D_SIZE ==> Matches(inp, dict) == Scan(inp, 4, dict)
  {
    hide Scan;
  }

  /** One turn of the compressor's loop: probe at ip, record ip, and emit what was found. */
  method Turn(inp: seq<Byte>, out: array<Byte>, dict: array<int>, start: nat, ii0: nat, ip0: nat, ghost done: seq<Match>)
    returns (op: nat, ii: nat, ip: nat, ghost done': seq<Match>)
    requires 4 <= ip0 && ip0 + 10 <= |inp| && ii0 <= ip0
    requires dict.Length == D_SIZE && (out as object) != dict && out.Length >= |inp| + |inp| / 16 + 4
    requires Progress(inp, done, ii0) && start <= out.Length && out[..start] == Emitted(inp, done, ii0)
    modifies out, dict
    ensures ip0 < ip <= |inp| && ii <= ip && start <= op <= out.Length && BeyondUnchanged(out, op)
    ensures ip + 10 <= |inp| || ip >= |inp| - M2_MAX_LEN - 5
    ensures Progress(inp, done', ii) && out[..op] == Emitted(inp, done', ii)
    ensures done + Scan(inp, ip0, old(dict[..])) == done' + ScanOn(inp, ip, dict[..])
  {
    hide FindMatch, Scan, ScanOn, Common, Worth, SameThree, Progress, Emitted;
    op, ii, ip, done' := start, ii0, ip0, done;
    ghost var before := dict[..];
    var p := Probes(inp, ip, dict);
    ScanUnfold(inp, ip, before);
    dict[p.dindex] := ip;
    assert dict[..] == before[p.dindex := ip];
    if p.NoMatch? {
      ip := ip + 1;
    } else {
      ghost var m := Match(ip, ip - p.mPos, Common(inp, p.mPos, ip));
      op, ip := EmitFound(inp, out, op, done, ii, ip, p.mPos);
      assert dict[..] == before[p.dindex := m.pos];
      done' := done + [m];
      assert done + ([m] + ScanOn(inp, m.End(), dict[..])) == done' + ScanOn(inp, m.End(), dict[..]);
      ii := ip;
    }
  }

  /** do_compress: writes everything up to the last match and returns where that ends. */
  method DoCompress(inp: seq<Byte>, out: array<Byte>, dict: array<int>) returns (op: nat, ii: nat)
    requires |inp| > M2_MAX_LEN + 5 && dict.Length == D_SIZE && (out as object) != dict
    requires out.Length >= |inp| + |inp| / 16 + 4
    modifies out, dict
    ensures Progress(inp, Matches(inp, old(dict[..])), ii) && ii <= |inp| && op <= out.Length
    ensures out[..op] == Emitted(inp, Matches(inp, old(dict[..])), ii)
    ensures BeyondUnchanged(out, op)
  {
    hide Scan, ScanOn, Progress, Emitted;
    Initially(inp, dict[..]);
    var ipEnd := |inp| - M2_MAX_LEN - 5;
    ghost var all := Matches(inp, dict[..]);
    ghost var done: seq<Match> := [];
    var ip := 4;
    op, ii := 0, 0;
    assert done + Scan(inp, ip, dict[..]) == Scan(inp, ip, dict[..]);
    while true
      invariant ii <= ip && 4 <= ip && ip + 10 <= |inp| && op <= out.Length
      invariant Progress(inp, done, ii) && out[..op] == Emitted(inp, done, ii)
      invariant all == done + Scan(inp, ip, dict[..])
      invariant BeyondUnchanged(out, op)
      decreases |inp| - ip
    {
      op, ii, ip, done := Turn(inp, out, dict, op, ii, ip, done);
      ScanOnIs(inp, ip, dict[..]);
      if ip >= ipEnd {
        break;
      }
    }
    assert all == done;
  }

  lemma ScanOnIs(inp: seq<Byte>, ip: nat, dict: seq<int>)
    requires |dict| == D_SIZE && (ip + 10 <= |inp| || ip >= |inp| - M2_MAX_LEN - 5)
    ensures ScanOn(inp, ip, dict) == if ip >= |inp| - M2_MAX_LEN - 5 then [] else Scan(inp, ip, dict)
  {
    hide Scan;
  }

  /** The literals after the last match, or the whole input when there was none. */
  method EmitTail(inp: seq<Byte>, out: array<Byte>, start: nat, ghost ms: seq<Match>, ii: nat) returns (op: nat)
    requires Good(inp, ms, 4) && Progress(inp, ms, ii) && ii <= |inp|
    requires start <= out.Length && out[..start] == Emitted(inp, ms, ii)
    requires out.Length >= |inp| + |inp| / 16 + 4
    modifies out
    ensures start <= op && op + 3 <= |inp| + |inp| / 16 + 4 && BeyondUnchanged(out, op)
    ensures out[..op] + EOF_CODE == Encoding(inp, ms)
  {
    hide Rest, Put, RunHeader, Pending;
    WorstCase(inp, ms);
    assert inp[..|inp|] == inp;
    var t := |inp| - ii;
    op := start;
    if t > 0 {
      if op == 0 && t <= 238 {
        NothingEmitted(inp, ms, ii);
        op := Announce(out, inp);
      } else {
        PendingStream(inp, ms, ii, |inp|);
        op := FlushLiterals(out, op, inp, ms, ii, |inp|);
        PendingAll(inp, ms, ii);
      }
    }
  }

  /** A first run of at most 238 literals that is the whole input. */
  method Announce(out: array<Byte>, inp: seq<Byte>) returns (op: nat)
    requires 0 < |inp| <= 238 && out.Length > |inp|
    modifies out
    ensures op == |inp| + 1 && out[..op] == [17 + |inp|] + inp && BeyondUnchanged(out, op)
  {
    op := Emit(out, 0, 17 + |inp|);
    op := CopyIn(out, op, inp, 0, |inp|);
    assert inp[0..0 + |inp|] == inp;
  }

  /** If nothing has been written, no match was found, and the whole input is one announced run. */
  lemma NothingEmitted(inp: seq<Byte>, ms: seq<Match>, ii: nat)
    requires Good(inp, ms, 4) && Progress(inp, ms, ii) && ii < |inp| <= ii + 238 && Emitted(inp, ms, ii) == []
    ensures ms == [] && ii == 0 && Encoding(inp, ms) == [17 + |inp|] + inp + EOF_CODE
  {
  }

  lemma PendingAll(inp: seq<Byte>, ms: seq<Match>, ii: nat)
    requires Good(inp, ms, 4) && Progress(inp, ms, ii) && ii < |inp| && (ms != [] || |inp| > 238)
    ensures Pending(inp, ms, ii, |inp|) + EOF_CODE == Encoding(inp, ms)
  {
    hide Rest, Put, RunHeader;
    assert inp[..|inp|] == inp;
    PendingStream(inp, ms, ii, |inp|);
  }

  /** lzo1x_1_compress: the matches, the remaining literals and the end code. */
  method Compress(inp: seq<Byte>, out: array<Byte>, wrkmem: array<int>) returns (outLen: nat)
    requires wrkmem.Length == D_SIZE && (out as object) != wrkmem
    requires out.Length >= |inp| + |inp| / 16 + 4
    modifies out, wrkmem
    ensures Good(inp, Matches(inp, old(wrkmem[..])), 4)
    ensures outLen <= |inp| + |inp| / 16 + 4
    ensures out[..outLen] == Encoding(inp, Matches(inp, old(wrkmem[..])))
    ensures BeyondUnchanged(out, outLen)
  {
    hide Scan, Rest, Good, Emitted, Progress, Encoding;
    ghost var ms := Matches(inp, wrkmem[..]);
    MatchesChain(inp, wrkmem[..]);
    Initially(inp, wrkmem[..]);
    var op, ii := 0, 0;
    if |inp| > M2_MAX_LEN + 5 {
      op, ii := DoCompress(inp, out, wrkmem);
    }
    op := EmitTail(inp, out, op, ms, ii);
    outLen := EmitEof(out, op);
  }

  method EmitEof(out: array<Byte>, op: nat) returns (op': nat)
    requires op + 3 <= out.Length
    modifies out
    ensures Appended(out, op, op', EOF_CODE)
  {
    out[op], out[op + 1], out[op + 2] := M4_MARKER + 1, 0, 0;
    op' := op + 3;
  }
}
