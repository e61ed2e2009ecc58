/**
 The in-place text conversion: the buffer is rewritten behind the read position,
 and a gap that grows with every character saved is closed as late as possible.
 Reading never meets a rewritten character.
 */
module XmlInPlace {
  import opened Frames
  import opened Sequences
  import opened XmlText

  /** memmove of count characters to an earlier place. */
  method MoveDown(buf: array<char>, dst: nat, src: nat, count: nat)
    requires dst <= src && src + count <= buf.Length
    modifies buf
    ensures buf[dst..dst + count] == old(buf[src..src + count])
    ensures BeforeUnchanged(buf, dst) && BeyondUnchanged(buf, dst + count)
  {
    var i := 0;
    while i < count
      invariant i <= count
      invariant buf[dst..dst + i] == old(buf[src..src + i])
      invariant BeforeUnchanged(buf, dst) && BeyondUnchanged(buf, dst + i)
    {
      buf[dst + i] := buf[src + i];
      i := i + 1;
    }
  }

  lemma SliceJoin(buf: array<char>, a: nat, b: nat, c: nat)
    requires a <= b <= c <= buf.Length
    ensures buf[a..c] == buf[a..b] + buf[b..c]
  {
  }

  /**
   struct gap: end is where the last gap ends (-1 when there is none), size what all
   gaps hold.  done is the text converted so far: what stands before the gap and
   what stands after it, up to the read position.
   */
  class Gap {
    var end: int
    var size: nat
    ghost var done: seq<char>

    constructor ()
      ensures end == -1 && size == 0 && done == []
    {
      end, size, done := -1, 0, [];
    }

    ghost predicate Valid(buf: array<char>, begin: nat, s: nat)
      reads this, buf
    {
      && begin <= s <= buf.Length
      && if end == -1 then size == 0 && done == buf[begin..s]
         else begin + size <= end <= s && done == buf[begin..end - size] + buf[end..s]
    }

    /** Moves the text after the gap down to its start. */
    method Close(buf: array<char>, ghost begin: nat, s: nat)
      requires Valid(buf, begin, s) && end != -1
      modifies buf
      ensures buf[begin..s - size] == done
      ensures BeforeUnchanged(buf, begin) && BeyondUnchanged(buf, s)
    {
      ghost var left := buf[begin..end - size];
      MoveDown(buf, end - size, end, s - end);
      SliceJoin(buf, begin, end - size, s - size);
      assert buf[begin..end - size] == left;
    }

    /** Skips count characters from s on, closing the previous gap. */
    method Push(buf: array<char>, ghost begin: nat, s: nat, count: nat) returns (s': nat)
      requires Valid(buf, begin, s) && s + count <= buf.Length
      modifies this, buf
      ensures s' == s + count && Valid(buf, begin, s') && done == old(done)
      ensures BeforeUnchanged(buf, begin) && BeyondUnchanged(buf, s)
    {
      if end != -1 {
        Close(buf, begin, s);
      }
      s' := s + count;
      end := s';
      size := size + count;
      assert buf[end..s'] == [] && done + [] == done;
    }

    /** Closes the gap and returns the end of the converted text. */
    method Flush(buf: array<char>, ghost begin: nat, s: nat) returns (last: nat)
      requires Valid(buf, begin, s)
      modifies buf
      ensures begin <= last <= s && buf[begin..last] == done
      ensures BeforeUnchanged(buf, begin) && BeyondUnchanged(buf, s)
    {
      if end != -1 {
        Close(buf, begin, s);
        return s - size;
      }
      return s;
    }

    /** Passing over characters adds them to the text. */
    ghost method Pass(buf: array<char>, begin: nat, s: nat, next: nat)
      requires Valid(buf, begin, s) && s <= next <= buf.Length
      modifies this`done
      ensures Valid(buf, begin, next) && done == old(done) + buf[s..next]
    {
      ghost var more := buf[s..next];
      if end == -1 {
        SliceJoin(buf, begin, s, next);
      } else {
        SliceJoin(buf, end, s, next);
        var left, mid, right := buf[begin..end - size], buf[end..s], buf[s..next];
        Assoc(left, mid, right);
      }
      done := done + buf[s..next];
    }

    /** *s++ = c */
    method Put(buf: array<char>, ghost begin: nat, s: nat, c: char) returns (s': nat)
      requires Valid(buf, begin, s) && s < buf.Length
      modifies this`done, buf
      ensures s' == s + 1 && Valid(buf, begin, s') && done == old(done) + [c]
      ensures BeforeUnchanged(buf, s) && BeyondUnchanged(buf, s + 1)
    {
      buf[s] := c;
      if end == -1 {
        assert buf[begin..s] == old(buf[begin..s]);
      } else {
        assert buf[begin..end - size] == old(buf[begin..end - size]) && buf[end..s] == old(buf[end..s]);
      }
      Pass(buf, begin, s, s + 1);
      s' := s + 1;
    }

    method PutAll(buf: array<char>, ghost begin: nat, s: nat, out: seq<char>) returns (p: nat)
      requires Valid(buf, begin, s) && begin <= s && s + |out| <= buf.Length
      modifies this`done, buf
      ensures p == s + |out| && Valid(buf, begin, p) && done == old(done) + out
      ensures BeforeUnchanged(buf, begin) && BeyondUnchanged(buf, p)
    {
      hide Valid;
      p := s;
      ghost var all := done + out;
      assert out[0..] == out;
      while p < s + |out|
        invariant s <= p <= s + |out|
        invariant Valid(buf, begin, p) && done + out[p - s..] == all
        invariant BeforeUnchanged(buf, begin) && BeyondUnchanged(buf, p)
      {
        assert done + out[p - s..] == done + [out[p - s]] + out[p - s + 1..];
        p := Put(buf, begin, p, out[p - s]);
      }
      assert done + [] == done;
    }

    /** Writes out in place of the characters from s to next, which it does not exceed. */
    method Replace(buf: array<char>, ghost begin: nat, s: nat, out: seq<char>, next: nat)
      requires Valid(buf, begin, s) && s + |out| <= next <= buf.Length
      modifies this, buf
      ensures Valid(buf, begin, next) && done == old(done) + out
      ensures BeforeUnchanged(buf, begin) && BeyondUnchanged(buf, next)
    {
      assert begin <= s;
      hide Valid;
      var p := PutAll(buf, begin, s, out);
      var _ := Push(buf, begin, p, next - p);
    }
  }

  /** From s on, the buffer still holds the text that was given. */
  ghost predicate Ahead(buf: array<char>, text: seq<char>, s: nat)
    reads buf
  {
    && Terminated(text) && |text| == buf.Length
    && forall k | s <= k < |text| :: buf[k] == text[k]
  }

  /** The digits of a numeric reference, on a 32-bit word. */
  method ScanDigits(buf: array<char>, first: nat, radix: nat, ghost text: seq<char>) returns (r: Digits)
    requires first < buf.Length && Ahead(buf, text, first)
    ensures r == ReadDigits(text, first, radix, 0)
  {
    var p, value := first, 0;
    while true
      invariant first <= p < |text| && 0 <= value < WORD
      invariant ReadDigits(text, p, radix, value) == ReadDigits(text, first, radix, 0)
      decreases |text| - p
    {
      var d := DigitIn(radix, buf[p]);
      if d >= 0 {
        value := (radix * value + d) % WORD;
      } else {
        return Digits(buf[p] == ';', p, value);
      }
      p := p + 1;
    }
  }

  /** How many characters of name stand in the buffer from p on. */
  method ScanName(buf: array<char>, p: nat, name: seq<char>, ghost text: seq<char>) returns (n: nat)
    requires p < buf.Length && Ahead(buf, text, p) && NUL !in name
    ensures n == Agree(text, p, name) && p + n < buf.Length
  {
    hide Agree;
    n := 0;
    while n < |name| && buf[p + n] == name[n]
      invariant n <= |name| && p + n < |text|
      invariant text[p..p + n] == name[..n]
    {
      n := n + 1;
    }
    AgreeIs(text, p, name, n);
  }

  /** The text has grown by what e stands for, and reading goes on at e.next. */
  twostate predicate Converted(buf: array<char>, g: Gap, begin: nat, text: seq<char>, e: Expansion, next: nat)
    reads buf, g
  {
    && next == e.next && g.Valid(buf, begin, next) && g.done == old(g.done) + e.out
    && Ahead(buf, text, next) && BeforeUnchanged(buf, begin)
  }

  method NamedReference(buf: array<char>, g: Gap, ghost begin: nat, s: nat, name: seq<char>, c: char, ghost text: seq<char>)
    returns (next: nat)
    requires g.Valid(buf, begin, s) && s + 1 < buf.Length && Ahead(buf, text, s) && text[s] != NUL
    requires NUL !in name
    modifies g, buf
    ensures Converted(buf, g, begin, text, Named(text, s, name, c), next)
  {
    hide Gap.Valid;
    var n := ScanName(buf, s + 1, name, text);
    next := s + 1 + n;
    if n == |name| && n > 0 {
      g.Replace(buf, begin, s, [c], next);
    } else {
      assert buf[s..next] == text[s..next];
      g.Pass(buf, begin, s, next);
    }
  }

  method NumericReference(buf: array<char>, g: Gap, ghost begin: nat, s: nat, ghost text: seq<char>) returns (next: nat)
    requires g.Valid(buf, begin, s) && s + 1 < buf.Length && Ahead(buf, text, s) && text[s] == '&' && text[s + 1] == '#'
    modifies g, buf
    ensures Converted(buf, g, begin, text, Numeric(text, s), next)
  {
    hide ReadDigits, Utf8, Gap.Valid;
    var hex := buf[s + 2] == 'x';
    var first := if hex then s + 3 else s + 2;
    var r := ScanDigits(buf, first, if hex then 16 else 10, text);
    if r.complete && r.next > first {
      next := r.next + 1;
      g.Replace(buf, begin, s, Utf8(r.value), next);
    } else {
      next := r.next;
      assert buf[s..next] == text[s..next];
      g.Pass(buf, begin, s, next);
    }
  }

  /** strconv_escape */
  method StrconvEscape(buf: array<char>, g: Gap, ghost begin: nat, s: nat, ghost text: seq<char>) returns (next: nat)
    requires g.Valid(buf, begin, s) && s < buf.Length && Ahead(buf, text, s) && text[s] == '&'
    modifies g, buf
    ensures Converted(buf, g, begin, text, Reference(text, s), next)
  {
    hide Named, Numeric, Converted, Gap.Valid;
    if buf[s + 1] == '#' {
      next := NumericReference(buf, g, begin, s, text);
    } else {
      var (name, c) := NameFor(buf[s + 1], if buf[s + 1] == 'a' then buf[s + 2] else NUL);
      next := NamedReference(buf, g, begin, s, name, c, text);
    }
  }

  /** The text converted so far and the text still to convert make up the whole. */
  ghost predicate Halfway(buf: array<char>, g: Gap, begin: nat, s: nat, text: seq<char>, end: char, eol: bool, escapes: bool)
    reads buf, g
  {
    && begin <= s < buf.Length && g.Valid(buf, begin, s) && Ahead(buf, text, s)
    && var all := Convert(text, begin, end, eol, escapes);
       var rest := Convert(text, s, end, eol, escapes);
       all.stop == rest.stop && all.value == g.done + rest.value
  }

  /** A carriage return, with a line feed after it or without, becomes a line feed. */
  method LineEnd(buf: array<char>, g: Gap, ghost begin: nat, s: nat, ghost text: seq<char>) returns (s': nat)
    requires g.Valid(buf, begin, s) && s < buf.Length && Ahead(buf, text, s) && text[s] == CR
    requires begin <= s
    modifies g, buf
    ensures Converted(buf, g, begin, text, Expansion([LF], if text[s + 1] == LF then s + 2 else s + 1), s')
  {
    hide Gap.Valid;
    s' := g.Put(buf, begin, s, LF);
    if buf[s'] == LF {
      s' := g.Push(buf, begin, s', 1);
    }
  }

  /** One turn of the conversion loop. */
  method ConvertOne(buf: array<char>, g: Gap, ghost begin: nat, s: nat, eol: bool, escapes: bool, ghost text: seq<char>)
    returns (s': nat)
    requires g.Valid(buf, begin, s) && begin <= s < buf.Length && Ahead(buf, text, s) && buf[s] != NUL
    modifies g, buf
    ensures Converted(buf, g, begin, text, Unit(text, s, eol, escapes), s')
  {
    hide Reference, Gap.Valid;
    if eol && buf[s] == CR {
      s' := LineEnd(buf, g, begin, s, text);
    } else if escapes && buf[s] == '&' {
      s' := StrconvEscape(buf, g, begin, s, text);
    } else {
      assert buf[s..s + 1] == [text[s]];
      g.Pass(buf, begin, s, s + 1);
      s' := s + 1;
    }
  }

  lemma StartValid(buf: array<char>, g: Gap, begin: nat)
    requires begin <= buf.Length && g.end == -1 && g.size == 0 && g.done == []
    ensures g.Valid(buf, begin, begin)
  {
  }

  /**
   The loop of strconv_pcdata_impl (end is '<') and of parse_eol and parse_simple (end
   is the quote).  The scan over ordinary characters is the loop's last branch.
   */
  method ConvertLoop(buf: array<char>, g: Gap, begin: nat, end: char, eol: bool, escapes: bool, ghost text: seq<char>)
    returns (s: nat)
    requires begin < buf.Length && g.end == -1 && g.size == 0 && g.done == [] && Ahead(buf, text, begin)
    modifies g, buf
    ensures s == Convert(text, begin, end, eol, escapes).stop
    ensures g.Valid(buf, begin, s) && g.done == Convert(text, begin, end, eol, escapes).value
    ensures BeforeUnchanged(buf, begin) && Ahead(buf, text, s)
  {
    hide Unit, Convert, Gap.Valid;
    s := begin;
    StartValid(buf, g, begin);
    assert [] + Convert(text, begin, end, eol, escapes).value == Convert(text, begin, end, eol, escapes).value;
    while buf[s] != end && buf[s] != NUL
      invariant Halfway(buf, g, begin, s, text, end, eol, escapes)
      invariant BeforeUnchanged(buf, begin)
      decreases buf.Length - s
    {
      ConvertStep(text, s, end, eol, escapes, g.done);
      s := ConvertOne(buf, g, begin, s, eol, escapes, text);
    }
    ConvertStop(text, s, end, eol, escapes);
    assert g.done + [] == g.done;
  }

  lemma ConvertStop(text: seq<char>, s: nat, end: char, eol: bool, escapes: bool)
    requires Terminated(text) && s < |text| && (text[s] == end || text[s] == NUL)
    ensures Convert(text, s, end, eol, escapes) == Conversion([], s)
  {
  }

  /** The NUL-terminated string at position p of a buffer. */
  ghost predicate StringAt(buf: array<char>, p: nat, value: seq<char>)
    reads buf
  {
    p + |value| < buf.Length && buf[p..p + |value|] == value && buf[p + |value|] == NUL
  }

  /**
   strconv_pcdata_impl::parse: the converted, perhaps trimmed text stands at begin,
   terminated; the result is the position after '<', or that of the final NUL.
   text is what the buffer held when it was given, and still holds from begin on.
   */
  method StrconvPcdata(buf: array<char>, begin: nat, trim: bool, eol: bool, escapes: bool, ghost text: seq<char>)
    returns (next: nat)
    requires begin < buf.Length && Ahead(buf, text, begin)
    modifies buf
    ensures var r := Convert(text, begin, '<', eol, escapes);
      && next == (if text[r.stop] == '<' then r.stop + 1 else r.stop)
      && StringAt(buf, begin, if trim then TrimRight(r.value) else r.value)
    ensures BeforeUnchanged(buf, begin) && BeyondUnchanged(buf, next)
  {
    hide Convert, TrimRight, Gap.Valid;
    var g := new Gap();
    var s := ConvertLoop(buf, g, begin, '<', eol, escapes, text);
    var atTag := buf[s] == '<';
    Terminate(buf, g, begin, s, trim);
    next := if atTag then s + 1 else s;
  }

  /** The gap is closed, and the text is trimmed if asked and terminated. */
  method Terminate(buf: array<char>, g: Gap, begin: nat, s: nat, trim: bool)
    requires g.Valid(buf, begin, s) && begin <= s < buf.Length
    modifies buf
    ensures StringAt(buf, begin, if trim then TrimRight(g.done) else g.done)
    ensures BeforeUnchanged(buf, begin) && BeyondUnchanged(buf, s + 1)
    ensures buf[s] == NUL || buf[s] == old(buf[s])
  {
    hide TrimRight, Gap.Valid;
    var end := g.Flush(buf, begin, s);
    if trim {
      end := TrimEnd(buf, begin, end);
    }
    ghost var value := buf[begin..end];
    buf[end] := NUL;
    assert buf[begin..end] == value;
  }

  /** Steps back over white space at the end of a text. */
  method TrimEnd(buf: array<char>, begin: nat, last: nat) returns (end: nat)
    requires begin <= last <= buf.Length
    ensures begin <= end <= last && buf[begin..end] == TrimRight(buf[begin..last])
  {
    end := last;
    while end > begin && IsSpace(buf[end - 1])
      invariant begin <= end <= last
      invariant TrimRight(buf[begin..end]) == TrimRight(buf[begin..last])
    {
      assert buf[begin..end][..end - begin - 1] == buf[begin..end - 1];
      end := end - 1;
    }
  }

  /** parse_eol and parse_simple: the position after the closing quote, or failure at the final NUL. */
  method StrconvAttribute(buf: array<char>, begin: nat, quote: char, eol: bool, escapes: bool, ghost text: seq<char>)
    returns (ok: bool, next: nat)
    requires begin < buf.Length && Ahead(buf, text, begin) && quote != NUL
    modifies buf
    ensures var r := Convert(text, begin, quote, eol, escapes);
      && ok == (text[r.stop] == quote)
      && (ok ==> next == r.stop + 1 && StringAt(buf, begin, r.value))
    ensures ok ==> BeforeUnchanged(buf, begin) && BeyondUnchanged(buf, next)
  {
    hide Convert, TrimRight, Gap.Valid;
    var g := new Gap();
    var s := ConvertLoop(buf, g, begin, quote, eol, escapes, text);
    if buf[s] != quote { return false, 0; }
    var end := g.Flush(buf, begin, s);
    buf[end] := NUL;
    return true, s + 1;
  }
}
