/** Decoding the encoding of any data, for any chain of matches in it, gives the data back. */
module LzoRoundTrip {
  import opened Bytes
  import opened LzoFormat
  import opened LzoDecoder

  /** bytes stand in src from ip on. */
  ghost predicate At(src: seq<Byte>, ip: nat, bytes: seq<Byte>)
  {
    ip + |bytes| <= |src| && src[ip..ip + |bytes|] == bytes
  }

  lemma AtSplit(src: seq<Byte>, ip: nat, a: seq<Byte>, b: seq<Byte>)
    requires At(src, ip, a + b)
    ensures At(src, ip, a) && At(src, ip + |a|, b)
  {
    var s := src[ip..ip + |a + b|];
    assert s[..|a|] == a && s[|a|..] == b;
    assert src[ip..ip + |a|] == s[..|a|];
    assert src[ip + |a|..ip + |a| + |b|] == s[|a|..];
  }

  lemma AtSplit3(src: seq<Byte>, ip: nat, a: seq<Byte>, b: seq<Byte>, c: seq<Byte>, d: seq<Byte>)
    requires At(src, ip, a + b + c + d)
    ensures At(src, ip, a) && At(src, ip + |a|, b) && At(src, ip + |a| + |b|, c + d)
  {
    assert a + b + c + d == a + (b + (c + d));
    AtSplit(src, ip, a, b + (c + d));
    AtSplit(src, ip + |a|, b, c + d);
  }

  lemma AtIndex(src: seq<Byte>, ip: nat, bytes: seq<Byte>, k: nat)
    requires At(src, ip, bytes) && k < |bytes|
    ensures ip + k < |src| && src[ip + k] == bytes[k]
  {
    assert src[ip..ip + |bytes|][k] == src[ip + k];
  }

  lemma {:induction false} ReadExtension(src: seq<Byte>, ipEnd: nat, ip: nat, t: nat, tt: nat)
    requires tt > 0 && ipEnd <= |src| && ip + |Extension(tt)| <= ipEnd && At(src, ip, Extension(tt))
    ensures ReadRun(src, ipEnd, ip, t) == Length(ip + |Extension(tt)|, t + tt)
    decreases tt
  {
    AtIndex(src, ip, Extension(tt), 0);
    if tt > 255 {
      AtSplit(src, ip, [0], Extension(tt - 255));
      ReadExtension(src, ipEnd, ip + 1, t + 255, tt - 255);
    }
  }

  /** The opcode at ip has just been fetched. */
  function Fetched(src: seq<Byte>, ip: nat, out: seq<Byte>): State
    requires ip < |src|
  {
    State(AtMatch, ip + 1, out, src[ip])
  }

  lemma Or2Low(b: Byte, n: nat)
    requires b % 4 == 0 && n < 4
    ensures Or2(b, n) == b + n && Or2(b, n) / 4 == b / 4 && Or2(b, n) % 4 == n
  {
  }

  /** What the two offset bytes can hold of a fifteen-bit offset. */
  function Field(o: nat): nat
    requires o < 0x8000
  {
    if o < 0x4000 then o else o - 0x4000
  }

  /** The two offset bytes, with n literals counted in the first, read back. */
  lemma OffsetDecodes(src: seq<Byte>, ip: nat, o: nat, n: nat)
    requires o < 0x8000 && n < 4 && ip + 1 < |src|
    requires src[ip] == o % 64 * 4 + n && src[ip + 1] == LowByte(o / 64)
    ensures OffsetAt(src, ip) == Field(o) && Fetch(src, ip) % 4 == n
  {
    assert o / 64 / 256 == o / 0x4000;
    assert Fetch(src, ip) / 4 == o % 64;
  }

  lemma M2Decodes(off: nat, len: nat, n: nat)
    requires 1 <= off <= M2_MAX_OFFSET && 3 <= len <= M2_MAX_LEN && n < 4
    ensures var t := (len - 1) * 32 + (off - 1) % 8 * 4 + n;
      && 64 <= t < 256 && t / 32 - 1 + 2 == len && t % 4 == n
      && 1 + t / 4 % 8 + LowByte((off - 1) / 8) * 8 == off
  {
    var t := (len - 1) * 32 + (off - 1) % 8 * 4 + n;
    assert t / 4 == (len - 1) * 8 + (off - 1) % 8;
  }

  /** The head of a code: everything before its last two bytes. */
  lemma CodeParts(src: seq<Byte>, ip: nat, m: Match, n: nat)
    requires 1 <= m.off <= M4_MAX_OFFSET && 3 <= m.len
    requires At(src, ip, CodeBefore(m, n))
    ensures var code, k := MatchCode(m.off, m.len), |MatchCode(m.off, m.len)|;
      && At(src, ip, code[..k - 2])
      && src[ip + k - 2] == (if n <= 3 then code[k - 2] + n else code[k - 2])
      && src[ip + k - 1] == code[k - 1]
  {
    var code, code' := MatchCode(m.off, m.len), CodeBefore(m, n);
    var k := |code|;
    AtIndex(src, ip, code', k - 2);
    AtIndex(src, ip, code', k - 1);
    assert code' == code[..k - 2] + code'[k - 2..];
    AtSplit(src, ip, code[..k - 2], code'[k - 2..]);
    Or2Low(code[k - 2], if n <= 3 then n else 0);
  }

  /** What decoding a match code at ip has to achieve. */
  ghost predicate Decodes(src: seq<Byte>, ipEnd: nat, cap: nat, ip: nat, out: seq<Byte>, m: Match, n: nat)
    requires 1 <= m.off <= M4_MAX_OFFSET && 3 <= m.len && m.off <= |out|
  {
    var next := ip + |CodeBefore(m, n)|;
    && next < |src|
    && Inv(src, ipEnd, cap, Fetched(src, ip, out))
    && Step(src, ipEnd, cap, Fetched(src, ip, out))
       == State(MatchDone, next, CopyBack(out, m.off, m.len), 0)
    && Fetch(src, next - 2) % 4 == (if n <= 3 then n else 0)
  }

  ghost predicate CodeAt(src: seq<Byte>, ipEnd: nat, cap: nat, ip: nat, out: seq<Byte>, m: Match, n: nat)
  {
    && 1 <= m.off <= M4_MAX_OFFSET && 3 <= m.len
    && 1 <= ipEnd && ipEnd + 6 <= |src|
    && At(src, ip, CodeBefore(m, n)) && ip + |CodeBefore(m, n)| <= ipEnd
    && m.off <= |out| && |out| + m.len <= cap
  }

  lemma M2Copies(src: seq<Byte>, ipEnd: nat, cap: nat, s: State, off: nat, len: nat, n: nat)
    requires Inv(src, ipEnd, cap, s) && s.at == AtMatch
    requires 1 <= off <= M2_MAX_OFFSET && 3 <= len <= M2_MAX_LEN && n < 4
    requires s.t == (len - 1) * 32 + (off - 1) % 8 * 4 + n && Fetch(src, s.ip) == LowByte((off - 1) / 8)
    ensures Step(src, ipEnd, cap, s) == CopyMatch(cap, s.ip + 1, s.out, off, len)
  {
    hide CopyMatch, M3Match, M4Match;
    M2Decodes(off, len, n);
  }

  lemma M2Parts(src: seq<Byte>, ip: nat, m: Match, n: nat)
    requires 1 <= m.off <= M2_MAX_OFFSET && 3 <= m.len <= M2_MAX_LEN
    requires At(src, ip, CodeBefore(m, n))
    ensures |CodeBefore(m, n)| == 2 && ip + 1 < |src|
    ensures Fetch(src, ip) == (m.len - 1) * 32 + (m.off - 1) % 8 * 4 + if n <= 3 then n else 0
    ensures Fetch(src, ip + 1) == LowByte((m.off - 1) / 8)
  {
    CodeParts(src, ip, m, n);
  }

  lemma DecodeM2(src: seq<Byte>, ipEnd: nat, cap: nat, ip: nat, out: seq<Byte>, m: Match, n: nat)
    requires CodeAt(src, ipEnd, cap, ip, out, m, n)
    requires m.len <= M2_MAX_LEN && m.off <= M2_MAX_OFFSET
    ensures Decodes(src, ipEnd, cap, ip, out, m, n)
  {
    hide MatchCode, CodeBefore, CopyBack, Step;
    var low := if n <= 3 then n else 0;
    M2Parts(src, ip, m, n);
    M2Decodes(m.off, m.len, low);
    M2Copies(src, ipEnd, cap, Fetched(src, ip, out), m.off, m.len, low);
  }

  /** The first byte of a long code, and the field position after its length continuation. */
  ghost predicate LengthAt(src: seq<Byte>, s: State, field: nat, marker: nat, max: nat, len: nat)
  {
    && 3 <= len && 3 <= max
    && if len <= max then s.t == marker + (len - 2) && field == s.ip
       else s.t == marker && field == s.ip + |Extension(len - max)| && At(src, s.ip, Extension(len - max))
  }

  lemma M3Copies(src: seq<Byte>, ipEnd: nat, cap: nat, s: State, field: nat, off: nat, len: nat)
    requires Inv(src, ipEnd, cap, s) && s.at == AtMatch && field <= ipEnd
    requires LengthAt(src, s, field, M3_MARKER, M3_MAX_LEN, len)
    requires OffsetAt(src, field) == off - 1
    ensures 32 <= s.t < 64 && M3Match(src, ipEnd, cap, s) == CopyMatch(cap, field + 2, s.out, off, len)
  {
    hide CopyMatch, CopyBack, At;
    if len > M3_MAX_LEN {
      ReadExtension(src, ipEnd, s.ip, 0, len - M3_MAX_LEN);
    }
  }

  lemma M4Opcode(high: nat, l: nat)
    requires high < 2 && l < 8
    ensures var t := M4_MARKER + high * 8 + l; t % 8 == l && t / 8 % 2 == high && 16 <= t < 32
  {
  }

  lemma M4Copies(src: seq<Byte>, ipEnd: nat, cap: nat, s: State, field: nat, o: nat, len: nat)
    requires Inv(src, ipEnd, cap, s) && s.at == AtMatch && field <= ipEnd && 1 <= o < 0x8000
    requires LengthAt(src, s, field, M4_MARKER + o / 0x4000 * 8, M4_MAX_LEN, len)
    requires OffsetAt(src, field) == Field(o)
    ensures 16 <= s.t < 32
    ensures M4Match(src, ipEnd, cap, s) == CopyMatch(cap, field + 2, s.out, o + 0x4000, len)
  {
    hide CopyMatch, CopyBack, At;
    M4Opcode(o / 0x4000, if len <= M4_MAX_LEN then len - 2 else 0);
    if len > M4_MAX_LEN {
      ReadExtension(src, ipEnd, s.ip, 0, len - M4_MAX_LEN);
    }
  }

  lemma HeadAt(src: seq<Byte>, ip: nat, out: seq<Byte>, marker: nat, max: nat, len: nat)
    requires 3 <= len && 3 <= max && 16 <= marker && marker + (max - 2) < 256 && ip < |src|
    requires At(src, ip, Head(marker, max, len))
    ensures LengthAt(src, Fetched(src, ip, out), ip + |Head(marker, max, len)|, marker, max, len)
  {
    AtIndex(src, ip, Head(marker, max, len), 0);
    if len > max {
      AtSplit(src, ip, [marker], Extension(len - max));
    }
  }

  lemma LongCode(off: nat, len: nat)
    requires 1 <= off <= M4_MAX_OFFSET && 3 <= len && !(len <= M2_MAX_LEN && off <= M2_MAX_OFFSET)
    ensures MatchCode(off, len)
      == if off <= M3_MAX_OFFSET then Head(M3_MARKER, M3_MAX_LEN, len) + OffsetField(off - 1)
         else Head(M4_MARKER + (off - 0x4000) / 0x4000 * 8, M4_MAX_LEN, len) + OffsetField(off - 0x4000)
  {
  }

  /** Where the parts of a long code stand. */
  lemma LongParts(src: seq<Byte>, ip: nat, m: Match, n: nat, head: seq<Byte>, o: nat)
    requires 1 <= m.off <= M4_MAX_OFFSET && 3 <= m.len && o < 0x8000
    requires MatchCode(m.off, m.len) == head + OffsetField(o)
    requires At(src, ip, CodeBefore(m, n))
    ensures At(src, ip, head) && |CodeBefore(m, n)| == |head| + 2 && ip + |head| + 1 < |src|
    ensures OffsetAt(src, ip + |head|) == Field(o)
    ensures Fetch(src, ip + |head|) % 4 == if n <= 3 then n else 0
  {
    CodeParts(src, ip, m, n);
    assert MatchCode(m.off, m.len)[..|head|] == head;
    OffsetDecodes(src, ip + |head|, o, if n <= 3 then n else 0);
  }

  lemma DecodeM3(src: seq<Byte>, ipEnd: nat, cap: nat, ip: nat, out: seq<Byte>, m: Match, n: nat)
    requires CodeAt(src, ipEnd, cap, ip, out, m, n)
    requires m.off <= M3_MAX_OFFSET && !(m.len <= M2_MAX_LEN && m.off <= M2_MAX_OFFSET)
    ensures Decodes(src, ipEnd, cap, ip, out, m, n)
  {
    hide MatchCode, CodeBefore, CopyBack, At, Head;
    LongCode(m.off, m.len);
    var head := Head(M3_MARKER, M3_MAX_LEN, m.len);
    LongParts(src, ip, m, n, head, m.off - 1);
    HeadAt(src, ip, out, M3_MARKER, M3_MAX_LEN, m.len);
    M3Copies(src, ipEnd, cap, Fetched(src, ip, out), ip + |head|, m.off, m.len);
  }

  lemma DecodeM4(src: seq<Byte>, ipEnd: nat, cap: nat, ip: nat, out: seq<Byte>, m: Match, n: nat)
    requires CodeAt(src, ipEnd, cap, ip, out, m, n)
    requires m.off > M3_MAX_OFFSET
    ensures Decodes(src, ipEnd, cap, ip, out, m, n)
  {
    hide MatchCode, CodeBefore, CopyBack, At, Head;
    LongCode(m.off, m.len);
    var o := m.off - 0x4000;
    var head := Head(M4_MARKER + o / 0x4000 * 8, M4_MAX_LEN, m.len);
    LongParts(src, ip, m, n, head, o);
    HeadAt(src, ip, out, M4_MARKER + o / 0x4000 * 8, M4_MAX_LEN, m.len);
    M4Copies(src, ipEnd, cap, Fetched(src, ip, out), ip + |head|, o, m.len);
  }

  /** A match code is decoded to the copy it stands for, and leaves its literal count for match_done. */
  lemma DecodeCode(src: seq<Byte>, ipEnd: nat, cap: nat, ip: nat, out: seq<Byte>, m: Match, n: nat)
    requires CodeAt(src, ipEnd, cap, ip, out, m, n)
    ensures Decodes(src, ipEnd, cap, ip, out, m, n)
  {
    if m.len <= M2_MAX_LEN && m.off <= M2_MAX_OFFSET {
      DecodeM2(src, ipEnd, cap, ip, out, m, n);
    } else if m.off <= M3_MAX_OFFSET {
      DecodeM3(src, ipEnd, cap, ip, out, m, n);
    } else {
      DecodeM4(src, ipEnd, cap, ip, out, m, n);
    }
  }

  /** A run of more than three literals at the head of the outer loop. */
  lemma DecodeRun(src: seq<Byte>, ipEnd: nat, cap: nat, ip: nat, out: seq<Byte>, lits: seq<Byte>)
    requires 1 <= ipEnd && ipEnd + 6 <= |src| && |lits| > 3 && |out| + |lits| <= cap
    requires At(src, ip, RunHeader(|lits|) + lits)
    requires ip + |RunHeader(|lits|)| + |lits| < ipEnd
    ensures Step(src, ipEnd, cap, State(Top, ip, out, 0))
      == State(FirstLiteralRun, ip + |RunHeader(|lits|)| + |lits|, out + lits, 0)
  {
    hide At, CopyBack, M3Match, M4Match, MatchCode;
    var t := |lits|;
    AtSplit(src, ip, RunHeader(t), lits);
    AtIndex(src, ip, RunHeader(t), 0);
    if t > 18 {
      AtSplit(src, ip, [0], Extension(t - 18));
      ReadExtension(src, ipEnd, ip + 1, 0, t - 18);
    }
  }

  /** One to three literals after a match. */
  lemma DecodeFew(src: seq<Byte>, ipEnd: nat, cap: nat, ip: nat, out: seq<Byte>, lits: seq<Byte>)
    requires 1 <= ipEnd && ipEnd + 6 <= |src| && 1 <= |lits| <= 3 && |out| + |lits| <= cap
    requires At(src, ip, lits) && ip + |lits| + 1 < ipEnd
    ensures Step(src, ipEnd, cap, State(MatchNext, ip, out, |lits|)) == Fetched(src, ip + |lits|, out + lits)
  {
  }

  /** From match_done through the literals after a match to the next opcode. */
  lemma DecodeLiterals(src: seq<Byte>, ipEnd: nat, cap: nat, ip: nat, out: seq<Byte>, lits: seq<Byte>)
    requires 1 <= ipEnd && ipEnd + 6 <= |src| && |out| + |lits| <= cap
    requires 2 <= ip && At(src, ip, RunAfter(lits))
    requires Fetch(src, ip - 2) % 4 == if |lits| <= 3 then |lits| else 0
    requires ip + |RunAfter(lits)| + 1 < ipEnd && src[ip + |RunAfter(lits)|] >= 16
    ensures Run(src, ipEnd, cap, State(MatchDone, ip, out, 0))
      == Run(src, ipEnd, cap, Fetched(src, ip + |RunAfter(lits)|, out + lits))
  {
    hide At, CopyBack, CopyMatch, ReadRun, M3Match, M4Match, RunHeader;
    var done := State(MatchDone, ip, out, 0);
    var top := State(Top, ip, out, 0);
    var next := ip + |RunAfter(lits)|;
    if lits == [] {
      assert out + lits == out;
      assert Step(src, ipEnd, cap, done) == top;
      assert Step(src, ipEnd, cap, top) == Fetched(src, next, out);
    } else if |lits| <= 3 {
      assert Step(src, ipEnd, cap, done) == State(MatchNext, ip, out, |lits|);
      DecodeFew(src, ipEnd, cap, ip, out, lits);
    } else {
      assert Step(src, ipEnd, cap, done) == top;
      DecodeRun(src, ipEnd, cap, ip, out, lits);
      var first := State(FirstLiteralRun, next, out + lits, 0);
      assert Step(src, ipEnd, cap, first) == Fetched(src, next, out + lits);
      assert Run(src, ipEnd, cap, done) == Run(src, ipEnd, cap, top);
      assert Run(src, ipEnd, cap, top) == Run(src, ipEnd, cap, first);
    }
  }

  /** Every continuation of a stream starts with an opcode, and no stream is shorter than the end code. */
  lemma RestStarts(data: seq<Byte>, ms: seq<Match>)
    requires Chain(data, ms)
    ensures |Rest(data, ms) + EOF_CODE| >= 3 && (Rest(data, ms) + EOF_CODE)[0] >= 16
  {
  }

  /** The position in data at which the chain ms begins, or the end of data. */
  ghost function StartPos(data: seq<Byte>, ms: seq<Match>): nat
  {
    if ms == [] then |data| else ms[0].pos
  }

  lemma MatchCopies(data: seq<Byte>, m: Match)
    requires m.In(data)
    ensures CopyBack(data[..m.pos], m.off, m.len) == data[..m.End()]
  {
    CopyBackUnique(data[..m.pos], m.off, data[..m.End()]);
  }

  /** Where the first match code, its literals and the remaining stream stand. */
  lemma RestParts(src: seq<Byte>, ip: nat, data: seq<Byte>, ms: seq<Match>)
    requires Chain(data, ms) && ms != [] && At(src, ip, Rest(data, ms) + EOF_CODE)
    ensures var lits := data[ms[0].End()..NextPos(data, ms)];
      var ip1 := ip + |CodeBefore(ms[0], |lits|)|;
      var ip2 := ip1 + |RunAfter(lits)|;
      var tail := Rest(data, ms[1..]) + EOF_CODE;
      && At(src, ip, CodeBefore(ms[0], |lits|)) && At(src, ip1, RunAfter(lits)) && At(src, ip2, tail)
      && ip2 + |tail| == ip + |Rest(data, ms) + EOF_CODE|
      && |tail| >= 3 && ip2 < |src| && src[ip2] >= 16
  {
    hide MatchCode, CodeBefore, RunAfter, At;
    var lits := data[ms[0].End()..NextPos(data, ms)];
    var code := CodeBefore(ms[0], |lits|);
    var tail := Rest(data, ms[1..]) + EOF_CODE;
    RestStarts(data, ms[1..]);
    AtSplit3(src, ip, code, RunAfter(lits), Rest(data, ms[1..]), EOF_CODE);
    AtIndex(src, ip + |code| + |RunAfter(lits)|, tail, 0);
  }

  lemma DecodeEof(src: seq<Byte>, ipEnd: nat, cap: nat, ip: nat, out: seq<Byte>)
    requires ipEnd + 6 <= |src| && At(src, ip, EOF_CODE) && ipEnd >= ip + 3 && |out| <= cap
    ensures Step(src, ipEnd, cap, Fetched(src, ip, out)) == State(Halt(AtEof(ipEnd, ip + 3)), ip + 3, out, 0)
  {
    AtIndex(src, ip, EOF_CODE, 0);
    AtIndex(src, ip, EOF_CODE, 1);
    AtIndex(src, ip, EOF_CODE, 2);
  }

  lemma RunEof(src: seq<Byte>, ipEnd: nat, cap: nat, ip: nat, out: seq<Byte>)
    requires ipEnd + 6 <= |src| && At(src, ip, EOF_CODE) && ipEnd >= ip + 3 && |out| <= cap
    ensures Inv(src, ipEnd, cap, Fetched(src, ip, out))
    ensures Run(src, ipEnd, cap, Fetched(src, ip, out)) == State(Halt(AtEof(ipEnd, ip + 3)), ip + 3, out, 0)
  {
    DecodeEof(src, ipEnd, cap, ip, out);
    hide Step, AtEof;
  }

  /** One match with its literals is decoded, up to the next opcode. */
  lemma DecodeItem(src: seq<Byte>, ipEnd: nat, cap: nat, ip: nat, data: seq<Byte>, ms: seq<Match>)
    returns (next: nat)
    requires Chain(data, ms) && ms != [] && |data| <= cap
    requires ipEnd + 6 <= |src| && At(src, ip, Rest(data, ms) + EOF_CODE)
    requires ipEnd >= ip + |Rest(data, ms) + EOF_CODE|
    ensures At(src, next, Rest(data, ms[1..]) + EOF_CODE)
    ensures next + |Rest(data, ms[1..]) + EOF_CODE| == ip + |Rest(data, ms) + EOF_CODE| && next < |src|
    ensures Inv(src, ipEnd, cap, Fetched(src, ip, data[..ms[0].pos]))
    ensures Inv(src, ipEnd, cap, Fetched(src, next, data[..StartPos(data, ms[1..])]))
    ensures Run(src, ipEnd, cap, Fetched(src, ip, data[..ms[0].pos]))
      == Run(src, ipEnd, cap, Fetched(src, next, data[..StartPos(data, ms[1..])]))
  {
    hide CodeBefore, MatchCode, Step, RunAfter, Rest, At, CopyBack;
    var m := ms[0];
    var lits := data[m.End()..NextPos(data, ms)];
    var ip1 := ip + |CodeBefore(m, |lits|)|;
    next := ip1 + |RunAfter(lits)|;
    RestParts(src, ip, data, ms);
    DecodeCode(src, ipEnd, cap, ip, data[..m.pos], m, |lits|);
    MatchCopies(data, m);
    DecodeLiterals(src, ipEnd, cap, ip1, data[..m.End()], lits);
    assert data[..m.End()] + lits == data[..StartPos(data, ms[1..])];
  }

  lemma {:induction false} DecodeRest(src: seq<Byte>, ipEnd: nat, cap: nat, ip: nat, data: seq<Byte>, ms: seq<Match>)
    requires Chain(data, ms) && |data| <= cap
    requires ipEnd + 6 <= |src| && At(src, ip, Rest(data, ms) + EOF_CODE)
    requires ipEnd >= ip + |Rest(data, ms) + EOF_CODE|
    ensures Inv(src, ipEnd, cap, Fetched(src, ip, data[..StartPos(data, ms)]))
    ensures var r := Run(src, ipEnd, cap, Fetched(src, ip, data[..StartPos(data, ms)]));
      r.at == Halt(AtEof(ipEnd, ip + |Rest(data, ms) + EOF_CODE|)) && r.out == data
    decreases |ms|
  {
    hide CodeBefore, Step, RunAfter, Run, At, AtEof, Inv, Rest, Fetched;
    if ms == [] {
      RestNone(data);
      RunEof(src, ipEnd, cap, ip, data);
    } else {
      var next := DecodeItem(src, ipEnd, cap, ip, data, ms);
      DecodeRest(src, ipEnd, cap, next, data, ms[1..]);
    }
  }

  lemma RestNone(data: seq<Byte>)
    ensures Rest(data, []) + EOF_CODE == EOF_CODE && data[..StartPos(data, [])] == data
  {
  }

  /** The first byte of a stream that found no match and at most 238 bytes. */
  lemma StartShort(src: seq<Byte>, ipEnd: nat, cap: nat, data: seq<Byte>)
    requires 0 < |data| <= 238 && |data| <= cap
    requires ipEnd + 6 <= |src| && At(src, 0, [17 + |data|] + data + EOF_CODE) && ipEnd >= |data| + 4
    ensures At(src, 1 + |data|, EOF_CODE) && Inv(src, ipEnd, cap, Fetched(src, 1 + |data|, data))
    ensures Run(src, ipEnd, cap, State(Start, 0, [], 0)) == Run(src, ipEnd, cap, Fetched(src, 1 + |data|, data))
  {
    hide At, AtEof, CopyBack, ReadRun, M3Match, M4Match;
    assert [17 + |data|] + data + EOF_CODE == [17 + |data|] + (data + EOF_CODE);
    AtIndex(src, 0, [17 + |data|] + data + EOF_CODE, 0);
    AtSplit(src, 0, [17 + |data|], data + EOF_CODE);
    AtSplit(src, 1, data, EOF_CODE);
    var s1 := Step(src, ipEnd, cap, State(Start, 0, [], 0));
    var s2 := Step(src, ipEnd, cap, s1);
    assert [] + data == data;
    AtIndex(src, 1 + |data|, EOF_CODE, 0);
    assert Run(src, ipEnd, cap, s1) == Run(src, ipEnd, cap, Fetched(src, 1 + |data|, data));
  }

  lemma DecodeShort(src: seq<Byte>, ipEnd: nat, cap: nat, data: seq<Byte>)
    requires 0 < |data| <= 238 && |data| <= cap
    requires ipEnd + 6 <= |src| && At(src, 0, [17 + |data|] + data + EOF_CODE)
    requires ipEnd >= |data| + 4
    ensures Decoded(src, ipEnd, cap) == (AtEof(ipEnd, |data| + 4), data)
  {
    hide Run, At, AtEof;
    StartShort(src, ipEnd, cap, data);
    RunEof(src, ipEnd, cap, 1 + |data|, data);
  }

  lemma FirstRunParts(src: seq<Byte>, data: seq<Byte>, ms: seq<Match>)
    requires Chain(data, ms) && StartPos(data, ms) > 3
    requires At(src, 0, RunHeader(StartPos(data, ms)) + data[..StartPos(data, ms)] + Rest(data, ms) + EOF_CODE)
    ensures var n := StartPos(data, ms); var tail := Rest(data, ms) + EOF_CODE; var ip := |RunHeader(n)| + n;
      && At(src, 0, RunHeader(n) + data[..n]) && At(src, ip, tail) && |tail| >= 3
      && ip < |src| && src[0] <= 17 && src[ip] >= 16
  {
    hide At, MatchCode, CodeBefore, RunAfter, Rest;
    var n := StartPos(data, ms);
    var tail := Rest(data, ms) + EOF_CODE;
    RestStarts(data, ms);
    assert RunHeader(n) + data[..n] + Rest(data, ms) + EOF_CODE == (RunHeader(n) + data[..n]) + tail;
    AtSplit(src, 0, RunHeader(n) + data[..n], tail);
    AtIndex(src, 0, RunHeader(n) + data[..n], 0);
    AtIndex(src, |RunHeader(n)| + n, tail, 0);
  }

  /** Any other stream that begins with literals begins with a long run. */
  lemma DecodeFirstRun(src: seq<Byte>, ipEnd: nat, cap: nat, data: seq<Byte>, ms: seq<Match>)
    requires Chain(data, ms) && |data| <= cap && StartPos(data, ms) > 3
    requires ipEnd + 6 <= |src|
    requires var n := StartPos(data, ms); var enc := RunHeader(n) + data[..n] + Rest(data, ms) + EOF_CODE;
      At(src, 0, enc) && ipEnd >= |enc|
    ensures var n := StartPos(data, ms); var enc := RunHeader(n) + data[..n] + Rest(data, ms) + EOF_CODE;
      Decoded(src, ipEnd, cap) == (AtEof(ipEnd, |enc|), data)
  {
    hide At, CopyBack, CopyMatch, ReadRun, M3Match, M4Match, MatchCode, CodeBefore, Rest;
    var n := StartPos(data, ms);
    var ip := |RunHeader(n)| + n;
    FirstRunParts(src, data, ms);
    DecodeRun(src, ipEnd, cap, 0, [], data[..n]);
    assert [] + data[..n] == data[..n];
    var s0 := State(Start, 0, [], 0);
    var s2 := State(FirstLiteralRun, ip, data[..n], 0);
    assert Step(src, ipEnd, cap, s0) == State(Top, 0, [], 0);
    assert Step(src, ipEnd, cap, s2) == Fetched(src, ip, data[..n]);
    assert Run(src, ipEnd, cap, s0) == Run(src, ipEnd, cap, State(Top, 0, [], 0));
    assert Run(src, ipEnd, cap, s2) == Run(src, ipEnd, cap, Fetched(src, ip, data[..n]));
    DecodeRest(src, ipEnd, cap, ip, data, ms);
  }

  lemma EndOf(n: nat, more: nat)
    ensures AtEof(n + more, n) == if more == 0 then Ok else InputNotConsumed
  {
  }

  lemma DecodeNothing(src: seq<Byte>, ipEnd: nat, cap: nat)
    requires ipEnd + 6 <= |src| && At(src, 0, EOF_CODE) && ipEnd >= 3
    ensures Decoded(src, ipEnd, cap) == (AtEof(ipEnd, 3), [])
  {
    AtIndex(src, 0, EOF_CODE, 0);
    var s0 := State(Start, 0, [], 0);
    assert Run(src, ipEnd, cap, s0) == Run(src, ipEnd, cap, Fetched(src, 0, []));
    hide Run, Step;
    RunEof(src, ipEnd, cap, 0, []);
  }

  /**
   Whatever chain of matches a compressor found, the decoder turns the encoding back
   into the data, whatever follows it in memory and whatever room beyond the data; if
   that is said to be input too, it reports so.
   */
  lemma DecodeEncoding(data: seq<Byte>, ms: seq<Match>, padding: seq<Byte>, more: nat, cap: nat)
    requires Chain(data, ms) && (ms == [] || ms[0].pos > 3)
    requires |padding| >= more + 6 && |data| <= cap
    ensures |Encoding(data, ms)| >= 1
    ensures Decoded(Encoding(data, ms) + padding, |Encoding(data, ms)| + more, cap)
      == (if more == 0 then Ok else InputNotConsumed, data)
  {
    EndOf(|Encoding(data, ms)|, more);
    var enc := Encoding(data, ms);
    var src, ipEnd := enc + padding, |enc| + more;
    assert src[..|enc|] == enc;
    hide Run, Step, Rest, RunHeader, AtEof;
    if ms == [] && data == [] {
      DecodeNothing(src, ipEnd, cap);
    } else if ms == [] && |data| <= 238 {
      DecodeShort(src, ipEnd, cap, data);
    } else {
      var n := StartPos(data, ms);
      assert data[..|data|] == data;
      assert enc == RunHeader(n) + data[..n] + Rest(data, ms) + EOF_CODE;
      DecodeFirstRun(src, ipEnd, cap, data, ms);
    }
  }

  // ----- the codes that only other compressors write

  /** Opcodes below 16 after one to three literals: two bytes from up to 0x400 back, the literal count in the low bits. */
  lemma DecodeM1(src: seq<Byte>, ipEnd: nat, cap: nat, ip: nat, out: seq<Byte>, off: nat, lits: nat)
    requires 1 <= ip <= ipEnd && ipEnd + 6 <= |src| && |out| + 2 <= cap && 1 <= off <= 0x400 && off <= |out| && lits < 4
    requires src[ip - 1] == (off - 1) % 4 * 4 + lits && src[ip] == (off - 1) / 4
    ensures var s := Step(src, ipEnd, cap, State(AtMatch, ip, out, src[ip - 1]));
      && s == State(MatchDone, ip + 1, CopyBack(out, off, 2), 0)
      && Inv(src, ipEnd, cap, s)
      && Step(src, ipEnd, cap, s) == if lits == 0 then State(Top, ip + 1, s.out, 0) else State(MatchNext, ip + 1, s.out, lits)
  {
    hide CopyBack;
  }

  /** The same after a run of literals: three bytes from 0x801 to 0xc00 back. */
  lemma DecodeM1Far(src: seq<Byte>, ipEnd: nat, cap: nat, ip: nat, out: seq<Byte>, off: nat, lits: nat)
    requires ip < ipEnd && ipEnd + 6 <= |src| && |out| + 3 <= cap && 0x801 <= off <= 0xc00 && off <= |out| && lits < 4
    requires src[ip] == (off - 0x801) % 4 * 4 + lits && src[ip + 1] == (off - 0x801) / 4
    ensures var s := Step(src, ipEnd, cap, State(FirstLiteralRun, ip, out, 0));
      && s == State(MatchDone, ip + 2, CopyBack(out, off, 3), 0)
      && Inv(src, ipEnd, cap, s)
      && Step(src, ipEnd, cap, s) == if lits == 0 then State(Top, ip + 2, s.out, 0) else State(MatchNext, ip + 2, s.out, lits)
  {
    hide CopyBack;
  }
}
