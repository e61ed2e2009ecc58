/**
 The decoder as it runs: one output array written in place, positions ip, op and
 m_pos, four-byte copies where the source allows them, and a variable that stands
 for the label a goto leads to.  The source text is compiled twice, with and
 without the overrun tests; the parameter tests tells the two apart.
 */
module LzoDecompress {
  import opened Frames
  import opened Bytes
  import opened LzoFormat
  import opened LzoDecoder

  /** COPY4 from the input. */
  method Copy4In(src: seq<Byte>, ip: nat, out: array<Byte>, op: nat)
    requires ip + 4 <= |src| && op + 4 <= out.Length
    modifies out
    ensures out[..op + 4] == old(out[..op]) + src[ip..ip + 4]
    ensures BeyondUnchanged(out, op + 4)
  {
    out[op], out[op + 1], out[op + 2], out[op + 3] := src[ip], src[ip + 1], src[ip + 2], src[ip + 3];
  }

  /** n literals one by one. */
  method CopyLiteralBytes(src: seq<Byte>, ip: nat, out: array<Byte>, op: nat, n: nat)
    requires ip + n <= |src| && op + n <= out.Length
    modifies out
    ensures out[..op + n] == old(out[..op]) + src[ip..ip + n]
    ensures BeyondUnchanged(out, op + n)
  {
    var i := 0;
    while i < n
      invariant i <= n
      invariant out[..op + i] == old(out[..op]) + src[ip..ip + i]
      invariant BeyondUnchanged(out, op + i)
    {
      out[op + i] := src[ip + i];
      i := i + 1;
    }
  }

  lemma Adjacent(s: seq<Byte>, a: nat, b: nat, c: nat)
    requires a <= b <= c <= |s|
    ensures s[a..b] + s[b..c] == s[a..c]
  {
  }

  /** A run of more than three literals, four at a time and then the rest. */
  method CopyLiteralRun(src: seq<Byte>, ip: nat, out: array<Byte>, op: nat, n: nat)
    requires 4 <= n && ip + n <= |src| && op + n <= out.Length
    modifies out
    ensures out[..op + n] == old(out[..op]) + src[ip..ip + n]
    ensures BeyondUnchanged(out, op + n)
  {
    Copy4In(src, ip, out, op);
    var i, t := 4, n - 4;
    while t >= 4
      invariant i + t == n && 4 <= i
      invariant out[..op + i] == old(out[..op]) + src[ip..ip + i]
      invariant BeyondUnchanged(out, op + i)
    {
      Copy4In(src, ip + i, out, op + i);
      Adjacent(src, ip, ip + i, ip + i + 4);
      i, t := i + 4, t - 4;
    }
    CopyLiteralBytes(src, ip + i, out, op + i, t);
    Adjacent(src, ip, ip + i, ip + n);
  }

  /** From position from on, s repeats what stands off bytes earlier. */
  ghost predicate Repeats(s: seq<Byte>, from: nat, off: nat)
  {
    1 <= off <= from <= |s| && forall k | from <= k < |s| :: s[k] == s[k - off]
  }

  lemma RepeatsMore(s: seq<Byte>, from: nat, off: nat, c: seq<Byte>)
    requires Repeats(s, from, off) && |c| <= off
    requires c == s[|s| - off..|s| - off + |c|]
    ensures Repeats(s + c, from, off)
  {
  }

  /** COPY4 within the output: all four bytes are loaded before one is stored. */
  method Copy4Back(out: array<Byte>, mPos: nat, op: nat)
    requires mPos + 4 <= op && op + 4 <= out.Length
    modifies out
    ensures out[..op + 4] == old(out[..op]) + old(out[..op])[mPos..mPos + 4]
    ensures BeyondUnchanged(out, op + 4)
  {
    out[op], out[op + 1], out[op + 2], out[op + 3] := out[mPos], out[mPos + 1], out[mPos + 2], out[mPos + 3];
    assert forall k | 0 <= k < op :: out[..op + 4][k] == old(out[..op])[k];
    assert out[..op + 4][op..] == old(out[..op])[mPos..mPos + 4];
  }

  /** copy_match: n more bytes of a match that began at op0, one by one. */
  method CopyMatchBytes(out: array<Byte>, ghost op0: nat, op: nat, off: nat, n: nat)
    requires 1 <= off <= op0 <= op && op + n <= out.Length
    requires Repeats(out[..op], op0, off)
    modifies out
    ensures old(out[..op]) <= out[..op + n] && Repeats(out[..op + n], op0, off)
    ensures BeyondUnchanged(out, op + n)
  {
    var i := 0;
    while i < n
      invariant i <= n
      invariant old(out[..op]) <= out[..op + i]
      invariant Repeats(out[..op + i], op0, off)
      invariant BeyondUnchanged(out, op + i)
    {
      ghost var s := out[..op + i];
      out[op + i] := out[op + i - off];
      RepeatsMore(s, op0, off, [s[op + i - off]]);
      assert out[..op + (i + 1)] == s + [s[op + i - off]];
      i := i + 1;
    }
  }

  /** The match copy; words allows four bytes at a time when they cannot overlap. */
  method CopyMatchInPlace(words: bool, out: array<Byte>, op: nat, off: nat, n: nat)
    requires 1 <= off <= op && op + n <= out.Length
    modifies out
    ensures out[..op + n] == CopyBack(old(out[..op]), off, n)
    ensures BeyondUnchanged(out, op + n)
  {
    hide CopyBack;
    ghost var start := out[..op];
    var i := 0;
    if words && n >= 8 && off >= 4 {
      while n - i >= 4
        invariant i <= n
        invariant start <= out[..op + i]
        invariant Repeats(out[..op + i], op, off)
        invariant BeyondUnchanged(out, op + i)
      {
        ghost var s := out[..op + i];
        Copy4Back(out, op + i - off, op + i);
        RepeatsMore(s, op, off, s[op + i - off..op + i - off + 4]);
        assert out[..op + (i + 4)] == s + s[op + i - off..op + i - off + 4];
        i := i + 4;
      }
    }
    CopyMatchBytes(out, op, op + i, off, n - i);
    CopyBackUnique(start, off, out[..op + n]);
  }

  /** The register t matters only where an opcode or a literal count is in it. */
  function Register(at: Label, t: nat): nat
  {
    if at == AtMatch || at == MatchNext then t else 0
  }

  /** The machine state the variables stand for, at a label and with op bytes written. */
  function StateOf(at: Label, ip: nat, written: seq<Byte>, t: nat): State
  {
    State(at, ip, written, Register(at, t))
  }

  /** From s, the machine ends as it does from r, and r is a legal state. */
  ghost predicate Follows(src: seq<Byte>, ipEnd: nat, cap: nat, s: State, r: State)
  {
    && Inv(src, ipEnd, cap, s) && Inv(src, ipEnd, cap, r)
    && Run(src, ipEnd, cap, r).at == Run(src, ipEnd, cap, s).at
    && Run(src, ipEnd, cap, r).out == Run(src, ipEnd, cap, s).out
  }

  /** Without the overrun tests, only input that passes them all may be given. */
  ghost predicate Permitted(tests: bool, src: seq<Byte>, ipEnd: nat, cap: nat, s: State)
  {
    Inv(src, ipEnd, cap, s) && (tests || Run(src, ipEnd, cap, s).at == Halt(Ok))
  }

  lemma RunStep(src: seq<Byte>, ipEnd: nat, cap: nat, s: State)
    requires Inv(src, ipEnd, cap, s) && !s.at.Halt?
    ensures Inv(src, ipEnd, cap, Step(src, ipEnd, cap, s))
    ensures Measure(ipEnd, Step(src, ipEnd, cap, s)) < Measure(ipEnd, s)
    ensures Run(src, ipEnd, cap, s) == Run(src, ipEnd, cap, Step(src, ipEnd, cap, s))
  {
    StepInv(src, ipEnd, cap, s);
  }

  /** The zero-byte loop; base is what the opcode family adds. */
  method ReadLength(tests: bool, src: seq<Byte>, ipEnd: nat, start: nat, base: nat)
    returns (overrun: bool, ip: nat, t: nat)
    requires start <= ipEnd < |src|
    requires !tests ==> ReadRun(src, ipEnd, start, 0).Length?
    ensures overrun == ReadRun(src, ipEnd, start, 0).Overrun?
    ensures !overrun ==> var r := ReadRun(src, ipEnd, start, 0); ip == r.ip && t == base + r.t
  {
    ip, t := start, 0;
    overrun := false;
    ghost var spec := ReadRun(src, ipEnd, start, 0);
    if tests && InputShort(ipEnd, ip, 1) { return true, ip, t; }
    while src[ip] == 0
      invariant ip < ipEnd
      invariant ReadRun(src, ipEnd, ip, t) == spec
      decreases ipEnd - ip
    {
      t, ip := t + 255, ip + 1;
      if tests && InputShort(ipEnd, ip, 1) { return true, ip, t; }
    }
    t, ip := t + base + src[ip], ip + 1;
  }

  /** NEED_OP, NEED_IP and the copy of n literals; words allows the four-byte form. */
  method DoLiterals(tests: bool, words: bool, src: seq<Byte>, ipEnd: nat, out: array<Byte>, cap: nat,
                    ip: nat, op: nat, n: nat, next: Label)
    returns (at: Label, op': nat)
    requires op <= cap <= out.Length && (words ==> n > 3)
    requires ip + n <= |src| || InputShort(ipEnd, ip, n + 1)
    requires !tests ==> CopyLiterals(src, ipEnd, cap, ip, out[..op], n, next).at == next && !next.Halt?
    modifies out
    ensures op <= op' <= cap
    ensures var r := CopyLiterals(src, ipEnd, cap, ip, old(out[..op]), n, next); at == r.at && out[..op'] == r.out
    ensures BeyondUnchanged(out, op')
  {
    if tests && cap - op < n { return Halt(OutputOverrun), op; }
    if tests && InputShort(ipEnd, ip, n + 1) { return Halt(InputOverrun), op; }
    if words {
      CopyLiteralRun(src, ip, out, op, n);
    } else {
      CopyLiteralBytes(src, ip, out, op, n);
    }
    return next, op + n;
  }

  /** TEST_LB, NEED_OP and the copy of n bytes from mPos; words allows the four-byte form. */
  method DoCopy(tests: bool, words: bool, out: array<Byte>, cap: nat, op: nat, mPos: int, n: nat, ghost ip: nat)
    returns (at: Label, op': nat)
    requires op <= cap <= out.Length && mPos < op && 2 <= n
    requires !tests ==> !CopyMatch(cap, ip, out[..op], op - mPos, n).at.Halt?
    modifies out
    ensures op <= op' <= cap
    ensures var r := CopyMatch(cap, ip, old(out[..op]), op - mPos, n); at == r.at && out[..op'] == r.out
    ensures BeyondUnchanged(out, op')
  {
    if tests && mPos < 0 { return Halt(LookbehindOverrun), op; }
    if tests && cap - op < n { return Halt(OutputOverrun), op; }
    CopyMatchInPlace(words, out, op, op - mPos, n);
    return MatchDone, op + n;
  }

  /** What one block of the goto program establishes. */
  twostate predicate Advances(src: seq<Byte>, ipEnd: nat, cap: nat, out: array<Byte>, s: State, r: State, op: nat)
    reads out
  {
    && Follows(src, ipEnd, cap, s, r)
    && (r.at.Halt? || Measure(ipEnd, r) < Measure(ipEnd, s))
    && BeyondUnchanged(out, op)
  }

  /** r is s1, or the same halt with the input position left elsewhere. */
  predicate Matches(s1: State, r: State)
  {
    r == s1 || (r.at.Halt? && s1.at == r.at && s1.out == r.out)
  }

  /** Without tests the step from s meets no overrun. */
  lemma Enter(tests: bool, src: seq<Byte>, ipEnd: nat, cap: nat, s: State)
    requires Permitted(tests, src, ipEnd, cap, s) && !s.at.Halt?
    ensures var s1 := Step(src, ipEnd, cap, s);
      && (tests || !s1.at.Halt? || s1.at == Halt(Ok))
      && (tests || s1.at != Top || s1.ip < ipEnd)
  {
    var s1 := Step(src, ipEnd, cap, s);
    RunStep(src, ipEnd, cap, s);
    if s1.at == Top { RunStep(src, ipEnd, cap, s1); }
  }

  /** Having taken the step from s, the run goes on as before. */
  lemma Leave(src: seq<Byte>, ipEnd: nat, cap: nat, s: State, r: State)
    requires Inv(src, ipEnd, cap, s) && !s.at.Halt?
    requires Matches(Step(src, ipEnd, cap, s), r)
    ensures Follows(src, ipEnd, cap, s, r)
    ensures r.at.Halt? || Measure(ipEnd, r) < Measure(ipEnd, s)
  {
    RunStep(src, ipEnd, cap, s);
  }

  method StartBlock(tests: bool, src: seq<Byte>, ipEnd: nat, out: array<Byte>, cap: nat)
    returns (at: Label, ip: nat, op: nat, t: nat)
    requires cap <= out.Length
    requires Permitted(tests, src, ipEnd, cap, StateOf(Start, 0, out[..0], 0))
    modifies out
    ensures op <= cap
    ensures Advances(src, ipEnd, cap, out, StateOf(Start, 0, old(out[..0]), 0), StateOf(at, ip, out[..op], t), op)
  {
    hide CopyBack, ReadRun, CopyMatch, CopyLiterals, Run, Follows;
    ghost var s := StateOf(Start, 0, out[..0], 0);
    Enter(tests, src, ipEnd, cap, s);
    at, ip, op, t := Top, 0, 0, 0;
    if src[ip] > 17 {
      t, ip := src[ip] - 17, ip + 1;
      if t < 4 {
        at := MatchNext;
      } else {
        at, op := DoLiterals(tests, false, src, ipEnd, out, cap, ip, op, t, FirstLiteralRun);
        ip := ip + t;
      }
    }
    Leave(src, ipEnd, cap, s, StateOf(at, ip, out[..op], t));
  }

  /** The head of the outer loop: a literal run, or the opcode of a match. */
  method TopBlock(tests: bool, src: seq<Byte>, ipEnd: nat, out: array<Byte>, cap: nat, start: nat, op0: nat)
    returns (at: Label, ip: nat, op: nat, t: nat)
    requires op0 <= cap <= out.Length
    requires Permitted(tests, src, ipEnd, cap, StateOf(Top, start, out[..op0], 0))
    modifies out
    ensures op0 <= op <= cap
    ensures Advances(src, ipEnd, cap, out, StateOf(Top, start, old(out[..op0]), 0), StateOf(at, ip, out[..op], t), op)
  {
    hide CopyBack, ReadRun, CopyMatch, CopyLiterals, Run, Follows;
    ghost var s := StateOf(Top, start, out[..op0], 0);
    Enter(tests, src, ipEnd, cap, s);
    at, ip, op, t := FirstLiteralRun, start, op0, 0;
    if tests && ip >= ipEnd {
      at := Halt(EofNotFound);
    } else {
      t, ip := src[ip], ip + 1;
      if t >= 16 {
        at := AtMatch;
      } else {
        var overrun := false;
        if t == 0 {
          overrun, ip, t := ReadLength(tests, src, ipEnd, ip, 15);
        }
        if overrun {
          at := Halt(InputOverrun);
        } else {
          at, op := DoLiterals(tests, true, src, ipEnd, out, cap, ip, op, t + 3, FirstLiteralRun);
          ip := ip + t + 3;
        }
      }
    }
    Leave(src, ipEnd, cap, s, StateOf(at, ip, out[..op], t));
  }

  /** first_literal_run: an opcode below 16 here is a far three-byte match. */
  method FirstLiteralRunBlock(tests: bool, src: seq<Byte>, ipEnd: nat, out: array<Byte>, cap: nat, start: nat, op0: nat)
    returns (at: Label, ip: nat, op: nat, t: nat)
    requires op0 <= cap <= out.Length
    requires Permitted(tests, src, ipEnd, cap, StateOf(FirstLiteralRun, start, out[..op0], 0))
    modifies out
    ensures op0 <= op <= cap
    ensures Advances(src, ipEnd, cap, out, StateOf(FirstLiteralRun, start, old(out[..op0]), 0),
                     StateOf(at, ip, out[..op], t), op)
  {
    hide CopyBack, ReadRun, CopyMatch, CopyLiterals, Run, Follows;
    ghost var s := StateOf(FirstLiteralRun, start, out[..op0], 0);
    Enter(tests, src, ipEnd, cap, s);
    at, ip, op, t := AtMatch, start, op0, 0;
    t, ip := src[ip], ip + 1;
    if t < 16 {
      var mPos := op - (1 + M2_MAX_OFFSET);
      mPos := mPos - t / 4;
      mPos, ip := mPos - Fetch(src, ip) * 4, ip + 1;
      at, op := DoCopy(tests, false, out, cap, op, mPos, 3, ip);
    }
    Leave(src, ipEnd, cap, s, StateOf(at, ip, out[..op], t));
  }

  /** The M3 family. */
  method M3Block(tests: bool, src: seq<Byte>, ipEnd: nat, out: array<Byte>, cap: nat, start: nat, op0: nat, opcode: nat)
    returns (at: Label, ip: nat, op: nat, t: nat)
    requires op0 <= cap <= out.Length && 32 <= opcode < 64
    requires Permitted(tests, src, ipEnd, cap, StateOf(AtMatch, start, out[..op0], opcode))
    modifies out
    ensures op0 <= op <= cap
    ensures Advances(src, ipEnd, cap, out, StateOf(AtMatch, start, old(out[..op0]), opcode),
                     StateOf(at, ip, out[..op], t), op)
  {
    hide CopyBack, ReadRun, CopyMatch, CopyLiterals, Run, Follows;
    ghost var s := StateOf(AtMatch, start, out[..op0], opcode);
    Enter(tests, src, ipEnd, cap, s);
    at, ip, op, t := MatchDone, start, op0, opcode;
    t := t % 32;
    var overrun := false;
    if t == 0 {
      overrun, ip, t := ReadLength(tests, src, ipEnd, ip, 31);
    }
    if overrun {
      at := Halt(InputOverrun);
    } else {
      var mPos := op - 1;
      mPos := mPos - OffsetAt(src, ip);
      ip := ip + 2;
      at, op := DoCopy(tests, true, out, cap, op, mPos, t + 2, ip);
    }
    Leave(src, ipEnd, cap, s, StateOf(at, ip, out[..op], t));
  }

  /** The M4 family, with the end of the stream. */
  method M4Block(tests: bool, src: seq<Byte>, ipEnd: nat, out: array<Byte>, cap: nat, start: nat, op0: nat, opcode: nat)
    returns (at: Label, ip: nat, op: nat, t: nat)
    requires op0 <= cap <= out.Length && 16 <= opcode < 32
    requires Permitted(tests, src, ipEnd, cap, StateOf(AtMatch, start, out[..op0], opcode))
    modifies out
    ensures op0 <= op <= cap
    ensures Advances(src, ipEnd, cap, out, StateOf(AtMatch, start, old(out[..op0]), opcode),
                     StateOf(at, ip, out[..op], t), op)
  {
    hide CopyBack, ReadRun, CopyMatch, CopyLiterals, Run, Follows;
    ghost var s := StateOf(AtMatch, start, out[..op0], opcode);
    Enter(tests, src, ipEnd, cap, s);
    at, ip, op, t := MatchDone, start, op0, opcode;
    var mPos := op;
    mPos := mPos - t / 8 % 2 * 0x4000;
    t := t % 8;
    var overrun := false;
    if t == 0 {
      overrun, ip, t := ReadLength(tests, src, ipEnd, ip, 7);
    }
    if overrun {
      at := Halt(InputOverrun);
    } else {
      mPos := mPos - OffsetAt(src, ip);
      ip := ip + 2;
      if mPos == op {
        at := Halt(AtEof(ipEnd, ip));
      } else {
        mPos := mPos - 0x4000;
        at, op := DoCopy(tests, true, out, cap, op, mPos, t + 2, ip);
      }
    }
    Leave(src, ipEnd, cap, s, StateOf(at, ip, out[..op], t));
  }

  /** match: the four opcode families. */
  method MatchBlock(tests: bool, src: seq<Byte>, ipEnd: nat, out: array<Byte>, cap: nat, start: nat, op0: nat, opcode: nat)
    returns (at: Label, ip: nat, op: nat, t: nat)
    requires op0 <= cap <= out.Length
    requires Permitted(tests, src, ipEnd, cap, StateOf(AtMatch, start, out[..op0], opcode))
    modifies out
    ensures op0 <= op <= cap
    ensures Advances(src, ipEnd, cap, out, StateOf(AtMatch, start, old(out[..op0]), opcode),
                     StateOf(at, ip, out[..op], t), op)
  {
    hide CopyBack, ReadRun, CopyMatch, CopyLiterals, Run, Follows;
    ghost var s := StateOf(AtMatch, start, out[..op0], opcode);
    Enter(tests, src, ipEnd, cap, s);
    at, ip, op, t := MatchDone, start, op0, opcode;
    if t >= 64 {
      var mPos := op - 1;
      mPos := mPos - t / 4 % 8;
      mPos, ip := mPos - Fetch(src, ip) * 8, ip + 1;
      t := t / 32 - 1;
      at, op := DoCopy(tests, false, out, cap, op, mPos, t + 2, ip);
    } else if t >= 32 {
      at, ip, op, t := M3Block(tests, src, ipEnd, out, cap, ip, op, t);
      return;
    } else if t >= 16 {
      at, ip, op, t := M4Block(tests, src, ipEnd, out, cap, ip, op, t);
      return;
    } else {
      var mPos := op - 1;
      mPos := mPos - t / 4;
      mPos, ip := mPos - Fetch(src, ip) * 4, ip + 1;
      at, op := DoCopy(tests, false, out, cap, op, mPos, 2, ip);
    }
    Leave(src, ipEnd, cap, s, StateOf(at, ip, out[..op], t));
  }

  /** match_next: up to three literals, then the next opcode. */
  method MatchNextBlock(tests: bool, src: seq<Byte>, ipEnd: nat, out: array<Byte>, cap: nat, start: nat, op0: nat, count: nat)
    returns (at: Label, ip: nat, op: nat, t: nat)
    requires op0 <= cap <= out.Length
    requires Permitted(tests, src, ipEnd, cap, StateOf(MatchNext, start, out[..op0], count))
    modifies out
    ensures op0 <= op <= cap
    ensures Advances(src, ipEnd, cap, out, StateOf(MatchNext, start, old(out[..op0]), count),
                     StateOf(at, ip, out[..op], t), op)
  {
    hide CopyBack, ReadRun, CopyMatch, CopyLiterals, Run, Follows;
    ghost var s := StateOf(MatchNext, start, out[..op0], count);
    Enter(tests, src, ipEnd, cap, s);
    at, ip, op, t := AtMatch, start, op0, count;
    at, op := DoLiterals(tests, false, src, ipEnd, out, cap, ip, op, t, AtMatch);
    if !at.Halt? {
      ip := ip + t;
      t, ip := src[ip], ip + 1;
      if tests && !(ip < ipEnd) {
        at := Top;
      }
    }
    Leave(src, ipEnd, cap, s, StateOf(at, ip, out[..op], t));
  }

  /**
   lzo1x_decompress_safe (tests) and lzo1x_decompress (no tests), given inLen
   compressed bytes and outLen bytes of room.
   */
  method Decompress(tests: bool, src: seq<Byte>, inLen: nat, out: array<Byte>, outLen: nat)
    returns (error: Error, n: nat)
    requires 1 <= inLen && inLen + 6 <= |src| && outLen <= out.Length
    requires tests || Decoded(src, inLen, outLen).0 == Ok
    modifies out
    ensures n <= outLen && (error, out[..n]) == Decoded(src, inLen, outLen)
    ensures BeyondUnchanged(out, n)
  {
    var at, ip: nat, op: nat, t: nat := StartBlock(tests, src, inLen, out, outLen);
    while !at.Halt?
      invariant op <= outLen
      invariant Follows(src, inLen, outLen, State(Start, 0, [], 0), StateOf(at, ip, out[..op], t))
      invariant BeyondUnchanged(out, op)
      decreases !at.Halt?, Measure(inLen, StateOf(at, ip, out[..op], t))
    {
      if {
        case at == Top =>
          at, ip, op, t := TopBlock(tests, src, inLen, out, outLen, ip, op);
        case at == FirstLiteralRun =>
          at, ip, op, t := FirstLiteralRunBlock(tests, src, inLen, out, outLen, ip, op);
        case at == AtMatch =>
          at, ip, op, t := MatchBlock(tests, src, inLen, out, outLen, ip, op, t);
        case at == MatchNext =>
          at, ip, op, t := MatchNextBlock(tests, src, inLen, out, outLen, ip, op, t);
        case at == MatchDone =>
          RunStep(src, inLen, outLen, StateOf(at, ip, out[..op], t));
          t := src[ip - 2] % 4;
          at := if t == 0 then Top else MatchNext;
      }
    }
    return at.error, op;
  }
}
