/**
 The LZO1X decoder as a state machine.  A state stands at one of the labels of the
 decoder's goto program, with the input position, the output written so far and
 the register t.  Input positions may run up to six bytes past the end of the
 input, because offset bytes are fetched without a test; the buffer is required
 to be readable there, and its content there is arbitrary.
 */
module LzoDecoder {
  import opened Bytes
  import opened LzoFormat

  datatype Error =
    | Ok
    | InputOverrun
    | OutputOverrun
    | LookbehindOverrun
    | EofNotFound
    | InputNotConsumed

  datatype Label =
    | Start                 // before the first byte is inspected
    | Top                   // head of the outer loop
    | FirstLiteralRun       // first_literal_run
    | AtMatch               // match, the opcode is in t
    | MatchDone             // match_done
    | MatchNext             // match_next, t literals to come
    | Halt(error: Error)

  datatype State = State(at: Label, ip: nat, out: seq<Byte>, t: nat)

  /** The byte at an input position, as a number. */
  function Fetch(src: seq<Byte>, ip: nat): int
    requires ip < |src|
  {
    src[ip]
  }

  /** The test NEED_IP(x): the difference is unsigned, so it passes when ip is past the end. */
  predicate InputShort(ipEnd: nat, ip: nat, x: nat)
  {
    ip <= ipEnd && ipEnd - ip < x
  }

  /** A length continued over zero bytes: where it ends and its value, or an overrun. */
  datatype RunLength = Overrun | Length(ip: nat, t: nat)

  function ReadRun(src: seq<Byte>, ipEnd: nat, ip: nat, t: nat): (r: RunLength)
    requires ip <= ipEnd <= |src|
    ensures r.Length? ==> ip < r.ip <= ipEnd && t < r.t <= t + 255 * (r.ip - ip)
    decreases ipEnd - ip
  {
    if InputShort(ipEnd, ip, 1) then Overrun
    else if src[ip] == 0 then ReadRun(src, ipEnd, ip + 1, t + 255)
    else Length(ip + 1, t + src[ip])
  }

  /** What every reachable state satisfies. */
  ghost predicate Inv(src: seq<Byte>, ipEnd: nat, cap: nat, s: State)
  {
    && 1 <= ipEnd && ipEnd + 6 <= |src|
    && |s.out| <= cap
    && match s.at
       case Start => s.ip == 0 && s.out == []
       case Top => s.ip <= ipEnd + 6
       case FirstLiteralRun => s.ip < ipEnd
       case AtMatch => 1 <= s.ip <= ipEnd && s.t < 256
       case MatchDone => 2 <= s.ip <= ipEnd + 2
       case MatchNext => s.ip <= ipEnd + 2 && 1 <= s.t <= 3
       case Halt(_) => true
  }

  /** r keeps every byte of out where it is and stays within the capacity. */
  ghost predicate Grows(cap: nat, out: seq<Byte>, r: State)
  {
    out <= r.out && |r.out| <= cap
  }

  /** Copies len bytes from off bytes back and goes to match_done, or reports why not. */
  function CopyMatch(cap: nat, ip: nat, out: seq<Byte>, off: nat, len: nat): (r: State)
    requires 1 <= off && |out| <= cap
    ensures Grows(cap, out, r)
    ensures r.ip == ip && r.t == 0
    ensures r.at == MatchDone || r.at == Halt(LookbehindOverrun) || r.at == Halt(OutputOverrun)
  {
    if off > |out| then State(Halt(LookbehindOverrun), ip, out, 0)
    else if cap - |out| < len then State(Halt(OutputOverrun), ip, out, 0)
    else State(MatchDone, ip, CopyBack(out, off, len), 0)
  }

  /** Copies n literals and stands at label next, or reports why not. */
  function CopyLiterals(src: seq<Byte>, ipEnd: nat, cap: nat, ip: nat, out: seq<Byte>, n: nat, next: Label): (r: State)
    requires ip + n <= |src| || InputShort(ipEnd, ip, n + 1)
    requires |out| <= cap
    ensures Grows(cap, out, r)
    ensures r.ip >= ip && r.t == 0
    ensures r.at == Halt(OutputOverrun) || r.at == Halt(InputOverrun) || (r.at == next && r.ip == ip + n && !InputShort(ipEnd, ip, n + 1))
  {
    if cap - |out| < n then State(Halt(OutputOverrun), ip, out, 0)
    else if InputShort(ipEnd, ip, n + 1) then State(Halt(InputOverrun), ip, out, 0)
    else State(next, ip + n, out + src[ip..ip + n], 0)
  }

  /** The value in the two offset bytes of an M3 or M4 code. */
  function OffsetAt(src: seq<Byte>, ip: nat): nat
    requires ip + 1 < |src|
  {
    Fetch(src, ip) / 4 + Fetch(src, ip + 1) * 64
  }

  /** The M3 family, t >= 32: offset bytes after an optional length continuation. */
  function M3Match(src: seq<Byte>, ipEnd: nat, cap: nat, s: State): State
    requires Inv(src, ipEnd, cap, s) && s.at == AtMatch && 32 <= s.t < 64
  {
    var run := if s.t == 32 then ReadRun(src, ipEnd, s.ip, 0) else Length(s.ip, s.t - 32);
    if run.Overrun? then State(Halt(InputOverrun), s.ip, s.out, 0) else
    var len := (if s.t == 32 then 31 + run.t else run.t) + 2;
    CopyMatch(cap, run.ip + 2, s.out, 1 + OffsetAt(src, run.ip), len)
  }

  /** The M4 family, 16 <= t < 32; a zero offset is the end of the stream. */
  function M4Match(src: seq<Byte>, ipEnd: nat, cap: nat, s: State): State
    requires Inv(src, ipEnd, cap, s) && s.at == AtMatch && 16 <= s.t < 32
  {
    var run := if s.t % 8 == 0 then ReadRun(src, ipEnd, s.ip, 0) else Length(s.ip, s.t % 8);
    if run.Overrun? then State(Halt(InputOverrun), s.ip, s.out, 0) else
    var len := (if s.t % 8 == 0 then 7 + run.t else run.t) + 2;
    var o := s.t / 8 % 2 * 0x4000 + OffsetAt(src, run.ip);
    if o == 0 then State(Halt(AtEof(ipEnd, run.ip + 2)), run.ip + 2, s.out, 0)
    else CopyMatch(cap, run.ip + 2, s.out, o + 0x4000, len)
  }

  function AtEof(ipEnd: nat, ip: nat): Error
  {
    if ip == ipEnd then Ok else if ip < ipEnd then InputNotConsumed else InputOverrun
  }

  /** One labelled block of the decoder. */
  function Step(src: seq<Byte>, ipEnd: nat, cap: nat, s: State): State
    requires Inv(src, ipEnd, cap, s) && !s.at.Halt?
  {
    match s.at
    case Start =>
      if src[0] > 17 then
        var t := src[0] - 17;
        if t < 4 then State(MatchNext, 1, s.out, t)
        else CopyLiterals(src, ipEnd, cap, 1, s.out, t, FirstLiteralRun)
      else
        State(Top, 0, s.out, 0)
    case Top =>
      if s.ip >= ipEnd then State(Halt(EofNotFound), s.ip, s.out, 0) else
      var t := src[s.ip];
      if t >= 16 then State(AtMatch, s.ip + 1, s.out, t) else
      var run := if t == 0 then ReadRun(src, ipEnd, s.ip + 1, 0) else Length(s.ip + 1, 0);
      if run.Overrun? then State(Halt(InputOverrun), s.ip, s.out, 0) else
      CopyLiterals(src, ipEnd, cap, run.ip, s.out, (if t == 0 then 15 + run.t else t) + 3, FirstLiteralRun)
    case FirstLiteralRun =>
      var t := src[s.ip];
      if t >= 16 then State(AtMatch, s.ip + 1, s.out, t)
      else CopyMatch(cap, s.ip + 2, s.out, 1 + M2_MAX_OFFSET + t / 4 + Fetch(src, s.ip + 1) * 4, 3)
    case AtMatch =>
      if s.t >= 64 then
        CopyMatch(cap, s.ip + 1, s.out, 1 + s.t / 4 % 8 + Fetch(src, s.ip) * 8, s.t / 32 - 1 + 2)
      else if s.t >= 32 then
        M3Match(src, ipEnd, cap, s)
      else if s.t >= 16 then
        M4Match(src, ipEnd, cap, s)
      else
        CopyMatch(cap, s.ip + 1, s.out, 1 + s.t / 4 + Fetch(src, s.ip) * 4, 2)
    case MatchDone =>
      var t := src[s.ip - 2] % 4;
      if t == 0 then State(Top, s.ip, s.out, 0) else State(MatchNext, s.ip, s.out, t)
    case MatchNext =>
      var r := CopyLiterals(src, ipEnd, cap, s.ip, s.out, s.t, AtMatch);
      if r.at.Halt? then r else
      var ip := s.ip + s.t + 1;
      if ip < ipEnd then State(AtMatch, ip, r.out, src[ip - 1]) else State(Top, ip, r.out, 0)
  }

  function Rank(l: Label): nat
  {
    match l
    case Start => 2
    case MatchDone => 2
    case Halt(_) => 0
    case _ => 1
  }

  function Measure(ipEnd: nat, s: State): int { 3 * (ipEnd + 6 - s.ip) + Rank(s.at) }

  lemma StepInv(src: seq<Byte>, ipEnd: nat, cap: nat, s: State)
    requires Inv(src, ipEnd, cap, s) && !s.at.Halt?
    ensures var s' := Step(src, ipEnd, cap, s);
      && Inv(src, ipEnd, cap, s')
      && s.out <= s'.out
      && Measure(ipEnd, s') < Measure(ipEnd, s)
  {
    hide CopyMatch, CopyLiterals, CopyBack, ReadRun;
  }

  /** The decoder's run from s until it halts. */
  function Run(src: seq<Byte>, ipEnd: nat, cap: nat, s: State): (r: State)
    requires Inv(src, ipEnd, cap, s)
    ensures r.at.Halt? && s.out <= r.out && |r.out| <= cap
    decreases Measure(ipEnd, s)
  {
    if s.at.Halt? then s else
      StepInv(src, ipEnd, cap, s);
      Run(src, ipEnd, cap, Step(src, ipEnd, cap, s))
  }

  /** What the decoder reports and has written for the first ipEnd bytes of src. */
  function Decoded(src: seq<Byte>, ipEnd: nat, cap: nat): (Error, seq<Byte>)
    requires 1 <= ipEnd && ipEnd + 6 <= |src|
  {
    var r := Run(src, ipEnd, cap, State(Start, 0, [], 0));
    (r.at.error, r.out)
  }
}
