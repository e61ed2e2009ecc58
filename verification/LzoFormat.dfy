/**
 The LZO1X byte format as the compressor writes it: how one match and one run of
 literals are spelled, and what a whole compressed stream is for a given list of
 matches.  Bytes are integers below 256; a bitwise "or" of fields that share no
 bit is written as a sum, and the one "or" into a byte already written is Or2.
 */
module LzoFormat {
  import opened Bytes

  const M2_MAX_OFFSET := 0x0800
  const M3_MAX_OFFSET := 0x4000
  const M4_MAX_OFFSET := 0xbfff
  const M2_MAX_LEN := 8
  const M3_MAX_LEN := 33
  const M4_MAX_LEN := 9
  const M3_MARKER := 32
  const M4_MARKER := 16

  /** The end-of-stream code: an M4 match whose offset field is zero. */
  const EOF_CODE: seq<Byte> := [M4_MARKER + 1, 0, 0]

  /** LZO_BYTE: the low eight bits. */
  function LowByte(x: nat): Byte { x % 256 }

  /** b | t for a two-bit t. */
  function Or2(b: Byte, t: nat): Byte
    requires t < 4
  {
    b - b % 4
    + (if b % 4 >= 2 || t >= 2 then 2 else 0)
    + (if b % 2 == 1 || t % 2 == 1 then 1 else 0)
  }

  /** Length continuation: one zero byte for each full 255, then the rest. */
  function Extension(tt: nat): (bytes: seq<Byte>)
    requires tt > 0
    ensures 0 < |bytes|
    ensures 255 * (|bytes| - 1) < tt <= 255 * |bytes|
  {
    if tt > 255 then [0] + Extension(tt - 255) else [tt]
  }

  /** What announces a run of more than three literals. */
  function RunHeader(t: nat): seq<Byte>
    requires t > 3
  {
    if t <= 18 then [t - 3] else [0] + Extension(t - 18)
  }

  /** The two trailing bytes of an M3 or M4 code; the low bits of the first are free. */
  function OffsetField(o: nat): (field: seq<Byte>)
    ensures |field| == 2
  {
    [o % 64 * 4, LowByte(o / 64)]
  }

  /** The bytes of an M3 or M4 code before its offset: the length, in the first byte if it fits. */
  function Head(marker: nat, max: nat, len: nat): (head: seq<Byte>)
    requires 3 <= len && 3 <= max && 16 <= marker && marker + (max - 2) < 256
    ensures 0 < |head| && head[0] >= 16
  {
    if len <= max then [marker + (len - 2)] else [marker] + Extension(len - max)
  }

  /** The code of a match of len bytes copied from off bytes back. */
  function MatchCode(off: nat, len: nat): (code: seq<Byte>)
    requires 1 <= off <= M4_MAX_OFFSET && 3 <= len
    ensures |code| >= 2 && code[0] >= 16
    ensures code[|code| - 2] % 4 == 0
  {
    if len <= M2_MAX_LEN && off <= M2_MAX_OFFSET then
      [(len - 1) * 32 + (off - 1) % 8 * 4, LowByte((off - 1) / 8)]
    else if off <= M3_MAX_OFFSET then
      Head(M3_MARKER, M3_MAX_LEN, len) + OffsetField(off - 1)
    else
      var o := off - 0x4000;
      Head(M4_MARKER + o / 0x4000 % 2 * 8, M4_MAX_LEN, len) + OffsetField(o)
  }

  /** A match at input position pos. */
  datatype Match = Match(pos: nat, off: nat, len: nat)
  {
    function End(): nat { pos + len }

    /** The match lies in data and repeats what stands off bytes earlier. */
    ghost predicate In(data: seq<Byte>)
    {
      && 1 <= off <= M4_MAX_OFFSET && off <= pos && 3 <= len && End() <= |data|
      && forall k | pos <= k < End() :: data[k] == data[k - off]
    }
  }

  /** Matches in input order, not overlapping, each one a true repetition. */
  ghost predicate Chain(data: seq<Byte>, ms: seq<Match>)
  {
    && (forall i | 0 <= i < |ms| :: ms[i].In(data))
    && (forall i | 0 < i < |ms| :: ms[i - 1].End() <= ms[i].pos)
  }

  /** Where the literals after the first match of ms end. */
  ghost function NextPos(data: seq<Byte>, ms: seq<Match>): nat
  {
    if |ms| > 1 then ms[1].pos else |data|
  }

  /** Up to three literals are counted in the low bits of the code before them. */
  ghost function CodeBefore(m: Match, literals: nat): (code: seq<Byte>)
    requires 1 <= m.off <= M4_MAX_OFFSET && 3 <= m.len
    ensures |code| == |MatchCode(m.off, m.len)| && code[0] >= 16
  {
    var code := MatchCode(m.off, m.len);
    if literals <= 3 then code[|code| - 2 := Or2(code[|code| - 2], literals)] else code
  }

  ghost function RunAfter(lits: seq<Byte>): seq<Byte>
  {
    if |lits| <= 3 then lits else RunHeader(|lits|) + lits
  }

  /** Every match of ms with the literals that follow it in data. */
  ghost function Rest(data: seq<Byte>, ms: seq<Match>): seq<Byte>
    requires Chain(data, ms)
  {
    if ms == [] then [] else
      var lits := data[ms[0].End()..NextPos(data, ms)];
      CodeBefore(ms[0], |lits|) + RunAfter(lits) + Rest(data, ms[1..])
  }

  /** The bytes for data when at least one match was found, without the end code. */
  ghost function Stream(data: seq<Byte>, ms: seq<Match>): seq<Byte>
    requires Chain(data, ms) && ms != [] && ms[0].pos > 3
  {
    RunHeader(ms[0].pos) + data[..ms[0].pos] + Rest(data, ms)
  }

  /** The bytes for data when no match was found, without the end code. */
  ghost function PlainRun(data: seq<Byte>): seq<Byte>
  {
    if data == [] then [] else
    if |data| <= 238 then [17 + |data|] + data else RunHeader(|data|) + data
  }

  /** The compressed form of data for the matches ms. */
  ghost function Encoding(data: seq<Byte>, ms: seq<Match>): seq<Byte>
    requires Chain(data, ms) && (ms == [] || ms[0].pos > 3)
  {
    (if ms == [] then PlainRun(data) else Stream(data, ms)) + EOF_CODE
  }

  /** The match copy of the format: byte by byte, so that source and destination may overlap. */
  function CopyBack(out: seq<Byte>, off: nat, n: nat): (r: seq<Byte>)
    requires 1 <= off <= |out|
    ensures |r| == |out| + n && out <= r
    decreases n
  {
    if n == 0 then out else CopyBack(out + [out[|out| - off]], off, n - 1)
  }

  /** Each byte a match copy appends equals the byte off places before it. */
  lemma {:induction false} CopyBackAt(out: seq<Byte>, off: nat, n: nat, k: nat)
    requires 1 <= off <= |out| <= k < |out| + n
    ensures CopyBack(out, off, n)[k] == CopyBack(out, off, n)[k - off]
    decreases n
  {
    var out' := out + [out[|out| - off]];
    var r := CopyBack(out', off, n - 1);
    if k == |out| {
      assert r[k] == out'[k] && r[k - off] == out'[k - off];
    } else {
      CopyBackAt(out', off, n - 1, k);
    }
  }

  /** Any extension of out with that property is the match copy. */
  lemma {:induction false} CopyBackUnique(out: seq<Byte>, off: nat, r: seq<Byte>)
    requires 1 <= off <= |out| && out <= r
    requires forall k | |out| <= k < |r| :: r[k] == r[k - off]
    ensures CopyBack(out, off, |r| - |out|) == r
    decreases |r| - |out|
  {
    if |r| > |out| {
      assert r[|out|] == r[|out| - off] == out[|out| - off];
      assert out + [out[|out| - off]] <= r;
      CopyBackUnique(out + [out[|out| - off]], off, r);
    }
  }
}
