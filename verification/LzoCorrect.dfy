/** The compressor and the decoder together. */
module LzoCorrect {
  import opened Bytes
  import opened LzoFormat
  import opened LzoDecoder
  import opened LzoScan
  import LzoStream
  import LzoRoundTrip
  import LzoCompress
  import LzoDecompress

  /**
   The round trip: for every input and every content of the work memory, the safe
   decoder accepts what the compressor produces and returns the input, given room
   for it; and the compressed form is never much larger than the input.
   */
  lemma RoundTrip(inp: seq<Byte>, wrkmem: seq<int>, padding: seq<Byte>, cap: nat)
    requires |wrkmem| == D_SIZE && |padding| >= 6 && |inp| <= cap
    ensures Good(inp, Matches(inp, wrkmem), 4)
    ensures var c := Encoding(inp, Matches(inp, wrkmem));
      && 1 <= |c| <= |inp| + |inp| / 16 + 4
      && Decoded(c + padding, |c|, cap) == (Ok, inp)
  {
    hide Matches, Encoding, Decoded;
    MatchesChain(inp, wrkmem);
    LzoStream.WorstCase(inp, Matches(inp, wrkmem));
    LzoRoundTrip.DecodeEncoding(inp, Matches(inp, wrkmem), padding, 0, cap);
  }

  /** A step with less room is the same step, or an output overrun. */
  lemma StepRoom(src: seq<Byte>, ipEnd: nat, small: nat, large: nat, s: State)
    requires small <= large && Inv(src, ipEnd, small, s) && !s.at.Halt?
    ensures Inv(src, ipEnd, large, s)
    ensures var r := Step(src, ipEnd, small, s);
      r == Step(src, ipEnd, large, s) || r.at == Halt(OutputOverrun)
  {
    hide CopyBack, ReadRun;
  }

  /** With one byte of room too few, the decoder reports that instead of writing past the end. */
  lemma {:induction false} TooLittleRoom(src: seq<Byte>, ipEnd: nat, small: nat, large: nat, s: State)
    requires small <= large && Inv(src, ipEnd, small, s)
    requires Run(src, ipEnd, large, s).at == Halt(Ok)
    requires |Run(src, ipEnd, large, s).out| > small
    ensures Run(src, ipEnd, small, s).at == Halt(OutputOverrun)
    decreases Measure(ipEnd, s)
  {
    hide Step;
    if !s.at.Halt? {
      StepInv(src, ipEnd, small, s);
      StepInv(src, ipEnd, large, s);
      StepRoom(src, ipEnd, small, large, s);
      var s' := Step(src, ipEnd, small, s);
      if s'.at != Halt(OutputOverrun) {
        TooLittleRoom(src, ipEnd, small, large, s');
      }
    }
  }

  /** What a step r with less input than q has may be: the same, or an error, or there is no more to read. */
  ghost predicate Shorter(small: nat, s: State, r: State, q: State)
  {
    && (r.out == s.out || r.out == q.out || (q.at.Halt? && q.at != Halt(Ok)))
    && (r == q || r.at.Halt? || (r.at == Top && r.ip >= small))
    && (r.at == Halt(Ok) ==> q.at == Halt(InputNotConsumed))
  }

  lemma StepShorter(src: seq<Byte>, small: nat, large: nat, cap: nat, s: State)
    requires small < large && large + 6 <= |src| && Inv(src, small, cap, s) && !s.at.Halt?
    ensures Inv(src, large, cap, s)
    ensures Shorter(small, s, Step(src, small, cap, s), Step(src, large, cap, s))
  {
    hide Shorter, Step, CopyBack, ReadRun;
    match s.at
    case AtMatch => MatchShorter(src, small, large, cap, s);
    case Top => TopShorter(src, small, large, cap, s);
    case _ => OtherShorter(src, small, large, cap, s);
  }

  lemma MatchShorter(src: seq<Byte>, small: nat, large: nat, cap: nat, s: State)
    requires small < large && large + 6 <= |src| && Inv(src, small, cap, s) && s.at == AtMatch
    ensures Shorter(small, s, Step(src, small, cap, s), Step(src, large, cap, s))
  {
    hide CopyMatch, ReadRun, OffsetAt;
    ReadShorter(src, small, large, s.ip, 0);
  }

  lemma TopShorter(src: seq<Byte>, small: nat, large: nat, cap: nat, s: State)
    requires small < large && large + 6 <= |src| && Inv(src, small, cap, s) && s.at == Top
    ensures Shorter(small, s, Step(src, small, cap, s), Step(src, large, cap, s))
  {
    hide CopyMatch, ReadRun;
    if s.ip < small { ReadShorter(src, small, large, s.ip + 1, 0); }
  }

  lemma OtherShorter(src: seq<Byte>, small: nat, large: nat, cap: nat, s: State)
    requires small < large && large + 6 <= |src| && Inv(src, small, cap, s) && !s.at.Halt? && s.at != Top && s.at != AtMatch
    ensures Shorter(small, s, Step(src, small, cap, s), Step(src, large, cap, s))
  {
    hide CopyBack, ReadRun;
  }

  lemma {:induction false} ReadShorter(src: seq<Byte>, small: nat, large: nat, ip: nat, t: nat)
    requires ip <= small <= large <= |src|
    ensures ReadRun(src, small, ip, t).Overrun? || ReadRun(src, small, ip, t) == ReadRun(src, large, ip, t)
    decreases small - ip
  {
    if ip < small && src[ip] == 0 { ReadShorter(src, small, large, ip + 1, t + 255); }
  }

  /** A stream cut short is never taken for whole, and what is written until then is the beginning. */
  lemma {:induction false} CutShort(src: seq<Byte>, small: nat, large: nat, cap: nat, s: State)
    requires small < large && large + 6 <= |src| && Inv(src, small, cap, s) && Inv(src, large, cap, s)
    requires Run(src, large, cap, s).at == Halt(Ok) && s.at != Halt(Ok)
    ensures Run(src, small, cap, s).at != Halt(Ok)
    ensures Run(src, small, cap, s).out <= Run(src, large, cap, s).out
    decreases Measure(small, s)
  {
    hide Step;
    if !s.at.Halt? {
      StepInv(src, small, cap, s);
      StepInv(src, large, cap, s);
      StepShorter(src, small, large, cap, s);
      var r, q := Step(src, small, cap, s), Step(src, large, cap, s);
      if r.at.Halt? {
      } else if r == q {
        CutShort(src, small, large, cap, r);
      } else {
        AllRead(src, small, cap, r);
      }
    }
  }

  lemma AllRead(src: seq<Byte>, ipEnd: nat, cap: nat, s: State)
    requires Inv(src, ipEnd, cap, s) && s.at == Top && s.ip >= ipEnd
    ensures Run(src, ipEnd, cap, s) == State(Halt(EofNotFound), s.ip, s.out, 0)
  {
    assert Step(src, ipEnd, cap, s) == State(Halt(EofNotFound), s.ip, s.out, 0);
  }

  /** Whatever was compressed: with bytes missing at its end, the stream is refused, and with more bytes
      said to follow it, that is reported. */
  lemma {:induction false} WrongLength(inp: seq<Byte>, wrkmem: seq<int>, padding: seq<Byte>, n: nat, cap: nat)
    requires |wrkmem| == D_SIZE && |inp| <= cap && n >= 1
    requires Good(inp, Matches(inp, wrkmem), 4)
    requires var c := Encoding(inp, Matches(inp, wrkmem)); |padding| >= 6 && |c + padding| >= n + 6
    ensures var c := Encoding(inp, Matches(inp, wrkmem));
      var d := Decoded(c + padding, n, cap);
      && (d.0 == Ok <==> n == |c|) && d.1 <= inp && (n > |c| ==> d == (InputNotConsumed, inp))
  {
    hide Matches, Encoding, Run;
    var c := Encoding(inp, Matches(inp, wrkmem));
    if n >= |c| {
      LzoRoundTrip.DecodeEncoding(inp, Matches(inp, wrkmem), padding, n - |c|, cap);
    } else {
      LzoRoundTrip.DecodeEncoding(inp, Matches(inp, wrkmem), padding, 0, cap);
      CutShort(c + padding, n, |c|, cap, State(Start, 0, [], 0));
    }
  }

  /** Compressing and decompressing in memory gives the input back, by either decoder. */
  method CompressDecompress(inp: seq<Byte>, wrkmem: array<int>, tests: bool) returns (back: seq<Byte>)
    requires wrkmem.Length == D_SIZE
    modifies wrkmem
    ensures back == inp
  {
    hide Matches, Encoding, Decoded;
    var packed := new Byte[|inp| + |inp| / 16 + 4];
    ghost var dict := wrkmem[..];
    var n := LzoCompress.Compress(inp, packed, wrkmem);
    var padding: seq<Byte> := [0, 0, 0, 0, 0, 0];
    RoundTrip(inp, dict, padding, |inp|);
    var unpacked := new Byte[|inp|];
    var error, m := LzoDecompress.Decompress(tests, packed[..n] + padding, n, unpacked, |inp|);
    back := unpacked[..m];
  }
}
