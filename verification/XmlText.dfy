/**
 Text inside XML documents: character classes, what the printer writes for a
 character, and what the parser makes of character data (line ends normalised,
 references expanded).  A character is a byte of the buffer; the classes treat
 everything from 128 on alike.
 */
module XmlText {
  import opened Sequences

  const NUL: char := 0 as char
  const TAB: char := 9 as char
  const LF: char := 10 as char
  const CR: char := 13 as char

  predicate IsSpace(c: char) { c == ' ' || c == TAB || c == LF || c == CR }

  predicate IsDigit(c: char) { '0' <= c <= '9' }

  predicate IsStartSymbol(c: char)
  {
    'a' <= c <= 'z' || 'A' <= c <= 'Z' || c == '_' || c == ':' || c as int >= 128
  }

  predicate IsSymbol(c: char)
  {
    IsStartSymbol(c) || IsDigit(c) || c == '-' || c == '.'
  }

  /** ctx_special_pcdata and ctx_special_attr. */
  predicate IsSpecial(c: char, attr: bool)
  {
    || (c as int < 32 && c != TAB && (attr || (c != LF && c != CR)))
    || c == '&' || c == '<' || c == '>' || (attr && c == '"')
  }

  /** A text buffer as the parser sees it: one NUL, at its end. */
  predicate Terminated(text: seq<char>)
  {
    |text| > 0 && text[|text| - 1] == NUL
  }

  // ----- references

  /** The digits of a numeric reference: where they stop and the 32-bit value so far. */
  datatype Digits = Digits(complete: bool, next: nat, value: nat)

  function HexDigit(c: char): (d: int)
    ensures -1 <= d < 16
  {
    if IsDigit(c) then c as int - '0' as int
    else if 'a' <= c <= 'f' then c as int - 'a' as int + 10
    else if 'A' <= c <= 'F' then c as int - 'A' as int + 10
    else -1
  }

  function DigitIn(radix: nat, c: char): (d: int)
    ensures -1 <= d < 16
  {
    if radix == 16 then HexDigit(c) else if IsDigit(c) then c as int - '0' as int else -1
  }

  const WORD := 0x1_0000_0000

  function ReadDigits(text: seq<char>, p: nat, radix: nat, value: nat): (r: Digits)
    requires Terminated(text) && p < |text| && value < WORD
    ensures p <= r.next < |text| && r.value < WORD && r.complete == (text[r.next] == ';')
    decreases |text| - p
  {
    var d := DigitIn(radix, text[p]);
    if d >= 0 then ReadDigits(text, p + 1, radix, (radix * value + d) % WORD)
    else Digits(text[p] == ';', p, value)
  }

  /** utf8_writer::any */
  function Utf8(u: nat): (bytes: seq<char>)
    requires u < WORD
    ensures 1 <= |bytes| <= 4
  {
    if u < 0x80 then [u as char]
    else if u < 0x800 then [(0xC0 + u / 64) as char, (0x80 + u % 64) as char]
    else if u < 0x10000 then [(0xE0 + u / 4096) as char, (0x80 + u / 64 % 64) as char, (0x80 + u % 64) as char]
    else [(0xF0 + u / 0x40000 % 16) as char, (0x80 + u / 4096 % 64) as char,
          (0x80 + u / 64 % 64) as char, (0x80 + u % 64) as char]
  }

  /** What '&' at s stands for, and where reading goes on. */
  datatype Expansion = Expansion(out: seq<char>, next: nat)

  /** How far the characters of name agree with the text from p on. */
  function Agree(text: seq<char>, p: nat, name: seq<char>): (n: nat)
    requires p <= |text|
    ensures n <= |name| && p + n <= |text| && text[p..p + n] == name[..n]
    decreases |name|
  {
    if name == [] || p == |text| || text[p] != name[0] then 0 else 1 + Agree(text, p + 1, name[1..])
  }

  /** A named reference, or the characters skipped while failing to match it. */
  function Named(text: seq<char>, s: nat, name: seq<char>, c: char): (e: Expansion)
    requires Terminated(text) && s + 1 < |text| && NUL !in name && text[s] != NUL
    ensures s < e.next < |text| && |e.out| <= e.next - s
  {
    var n := Agree(text, s + 1, name);
    if n == |name| && n > 0 then
      assert text[s + n] == name[n - 1];
      Expansion([c], s + 1 + n)
    else
      assert n > 0 ==> text[s + n] == name[n - 1];
      Expansion(text[s..s + 1 + n], s + 1 + n)
  }

  /** A decimal or hexadecimal reference; "&#" and "&#x" without digits are passed over. */
  function Numeric(text: seq<char>, s: nat): (e: Expansion)
    requires Terminated(text) && s + 1 < |text| && text[s] == '&' && text[s + 1] == '#'
    ensures s < e.next < |text| && |e.out| <= e.next - s
  {
    var hex := text[s + 2] == 'x';
    var first := if hex then s + 3 else s + 2;
    var r := ReadDigits(text, first, if hex then 16 else 10, 0);
    if r.complete && r.next > first then Expansion(Utf8(r.value), r.next + 1)
    else Expansion(text[s..r.next], r.next)
  }

  /** The name tried, by the first two characters after '&', and what it stands for. */
  function NameFor(c: char, d: char): (r: (seq<char>, char))
    ensures NUL !in r.0
  {
    if c == 'a' then (if d == 'p' then ("apos;", '\'') else ("amp;", '&'))
    else if c == 'g' then ("gt;", '>')
    else if c == 'l' then ("lt;", '<')
    else if c == 'q' then ("quot;", '"')
    else ("", c)
  }

  /** strconv_escape: a reference is replaced; anything else is passed over as it stands. */
  function Reference(text: seq<char>, s: nat): (e: Expansion)
    requires Terminated(text) && s < |text| && text[s] == '&'
    ensures s < e.next < |text| && |e.out| <= e.next - s
  {
    if text[s + 1] == '#' then Numeric(text, s)
    else
      var (name, c) := NameFor(text[s + 1], if text[s + 1] == 'a' then text[s + 2] else NUL);
      Named(text, s, name, c)
  }

  // ----- conversion of character data

  /** The converted text and the position of the character that ended it. */
  datatype Conversion = Conversion(value: seq<char>, stop: nat)

  /** A line end, a reference or one ordinary character. */
  function Unit(text: seq<char>, s: nat, eol: bool, escapes: bool): (e: Expansion)
    requires Terminated(text) && s < |text| && text[s] != NUL
    ensures s < e.next < |text| && |e.out| <= e.next - s
  {
    if eol && text[s] == CR then Expansion([LF], if text[s + 1] == LF then s + 2 else s + 1)
    else if escapes && text[s] == '&' then Reference(text, s)
    else Expansion([text[s]], s + 1)
  }

  /**
   Character data from s up to the character end or the NUL.  This is the value of
   strconv_pcdata_impl (end is '<') before trimming, and of parse_eol and
   parse_simple for attributes (end is the quote).
   */
  function Convert(text: seq<char>, s: nat, end: char, eol: bool, escapes: bool): (r: Conversion)
    requires Terminated(text) && s < |text|
    ensures s <= r.stop < |text| && |r.value| <= r.stop - s
    ensures text[r.stop] == end || text[r.stop] == NUL
    decreases |text| - s
  {
    if text[s] == end || text[s] == NUL then Conversion([], s)
    else
      var e := Unit(text, s, eol, escapes);
      var r := Convert(text, e.next, end, eol, escapes);
      Conversion(e.out + r.value, r.stop)
  }

  /** What has been converted, with what one more unit and the rest give. */
  lemma ConvertStep(text: seq<char>, s: nat, end: char, eol: bool, escapes: bool, before: seq<char>)
    requires Terminated(text) && s < |text| && text[s] != end && text[s] != NUL
    ensures var e := Unit(text, s, eol, escapes);
      var r, rest := Convert(text, s, end, eol, escapes), Convert(text, e.next, end, eol, escapes);
      r.stop == rest.stop && before + r.value == (before + e.out) + rest.value
  {
    hide Unit;
    var e := Unit(text, s, eol, escapes);
    Assoc(before, e.out, Convert(text, e.next, end, eol, escapes).value);
  }

  /** opt_trim: white space at the end is dropped. */
  function TrimRight(value: seq<char>): (r: seq<char>)
    ensures r <= value
    ensures r == [] || !IsSpace(r[|r| - 1])
    ensures forall k | |r| <= k < |value| :: IsSpace(value[k])
  {
    if value != [] && IsSpace(value[|value| - 1]) then TrimRight(value[..|value| - 1]) else value
  }

  // ----- printing

  function DecimalDigit(d: nat): char
    requires d < 10
  {
    ('0' as int + d) as char
  }

  /** text_output_escaped for one character. */
  function EscapedChar(c: char, attr: bool): (r: seq<char>)
    ensures |r| >= 1
  {
    if !IsSpecial(c, attr) then [c]
    else if c == '&' then "&amp;"
    else if c == '<' then "&lt;"
    else if c == '>' then "&gt;"
    else if c == '"' then "&quot;"
    else ['&', '#', DecimalDigit(c as int / 10), DecimalDigit(c as int % 10), ';']
  }

  function Escaped(value: seq<char>, attr: bool): seq<char>
  {
    if value == [] then [] else EscapedChar(value[0], attr) + Escaped(value[1..], attr)
  }

  /** Values that survive printing: no NUL, and in element content no carriage return. */
  ghost predicate Printable(value: seq<char>, attr: bool)
  {
    forall i | 0 <= i < |value| :: value[i] != NUL && (attr || value[i] != CR)
  }

  /** part stands in text from s on. */
  ghost predicate Has(text: seq<char>, s: nat, part: seq<char>)
  {
    s + |part| <= |text| && text[s..s + |part|] == part
  }

  lemma HasSplit(text: seq<char>, s: nat, a: seq<char>, b: seq<char>)
    requires Has(text, s, a + b)
    ensures Has(text, s, a) && Has(text, s + |a|, b)
  {
    var t := text[s..s + |a + b|];
    assert t[..|a|] == a && t[|a|..] == b;
    assert text[s..s + |a|] == t[..|a|];
    assert text[s + |a|..s + |a| + |b|] == t[|a|..];
  }

  lemma HasAt(text: seq<char>, s: nat, part: seq<char>, k: nat)
    requires Has(text, s, part) && k < |part|
    ensures s + k < |text| && text[s + k] == part[k]
  {
    assert text[s..s + |part|][k] == text[s + k];
  }

  lemma {:induction false} AgreeAll(text: seq<char>, p: nat, name: seq<char>)
    requires Has(text, p, name)
    ensures Agree(text, p, name) == |name|
    decreases |name|
  {
    if name != [] {
      HasAt(text, p, name, 0);
      HasSplit(text, p, name[..1], name[1..]);
      assert name[..1] + name[1..] == name;
      AgreeAll(text, p + 1, name[1..]);
    }
  }

  lemma {:induction false} AgreeIs(text: seq<char>, p: nat, name: seq<char>, n: nat)
    requires n <= |name| && p + n < |text| && text[p..p + n] == name[..n]
    requires n == |name| || text[p + n] != name[n]
    ensures Agree(text, p, name) == n
    decreases n
  {
    if n > 0 {
      assert text[p..p + n][0] == name[..n][0];
      assert text[p + 1..p + 1 + (n - 1)] == text[p..p + n][1..] == name[1..][..n - 1];
      AgreeIs(text, p + 1, name[1..], n - 1);
    }
  }

  /** A named reference printed for c is read back as c. */
  lemma NamedConverts(text: seq<char>, s: nat, name: seq<char>, c: char)
    requires Terminated(text) && Has(text, s, ['&'] + name) && |name| >= 3
    requires (name, c) in {("amp;", '&'), ("lt;", '<'), ("gt;", '>'), ("quot;", '"')}
    ensures Reference(text, s) == Expansion([c], s + 1 + |name|)
  {
    hide Agree;
    HasAt(text, s, ['&'] + name, 0);
    HasAt(text, s, ['&'] + name, 1);
    HasAt(text, s, ['&'] + name, 2);
    HasSplit(text, s, ['&'], name);
    AgreeAll(text, s + 1, name);
  }

  lemma ControlConverts(text: seq<char>, s: nat, c: char)
    requires Terminated(text) && c as int < 32
    requires Has(text, s, ['&', '#', DecimalDigit(c as int / 10), DecimalDigit(c as int % 10), ';'])
    ensures Reference(text, s) == Expansion([c], s + 5)
  {
    var part := ['&', '#', DecimalDigit(c as int / 10), DecimalDigit(c as int % 10), ';'];
    HasAt(text, s, part, 0);
    HasAt(text, s, part, 1);
    HasAt(text, s, part, 2);
    HasAt(text, s, part, 3);
    HasAt(text, s, part, 4);
    var d, e := c as int / 10, c as int % 10;
    assert ReadDigits(text, s + 4, 10, d) == ReadDigits(text, s + 5 - 1, 10, d);
    assert ReadDigits(text, s + 3, 10, d) == ReadDigits(text, s + 4, 10, (10 * d + e) % WORD);
    assert ReadDigits(text, s + 2, 10, 0) == ReadDigits(text, s + 3, 10, d % WORD);
    assert ReadDigits(text, s + 2, 10, 0) == Digits(true, s + 4, c as int);
  }

  /** What is printed for a special character is read back as that character. */
  lemma ReferenceConverts(text: seq<char>, s: nat, c: char, attr: bool)
    requires Terminated(text) && c != NUL && IsSpecial(c, attr) && Has(text, s, EscapedChar(c, attr))
    ensures text[s] == '&' && Reference(text, s) == Expansion([c], s + |EscapedChar(c, attr)|)
  {
    hide Reference;
    HasAt(text, s, EscapedChar(c, attr), 0);
    if c == '&' {
      assert EscapedChar(c, attr) == ['&'] + "amp;";
      NamedConverts(text, s, "amp;", c);
    } else if c == '<' {
      assert EscapedChar(c, attr) == ['&'] + "lt;";
      NamedConverts(text, s, "lt;", c);
    } else if c == '>' {
      assert EscapedChar(c, attr) == ['&'] + "gt;";
      NamedConverts(text, s, "gt;", c);
    } else if c == '"' {
      assert EscapedChar(c, attr) == ['&'] + "quot;";
      NamedConverts(text, s, "quot;", c);
    } else {
      ControlConverts(text, s, c);
    }
  }

  lemma PlainChar(c: char, attr: bool)
    requires !IsSpecial(c, attr)
    ensures EscapedChar(c, attr) == [c]
  {
  }

  /** Reading what is printed for one character yields that character, then whatever follows. */
  lemma ConvertChar(text: seq<char>, s: nat, c: char, attr: bool)
    requires Terminated(text) && c != NUL && (attr || c != CR)
    requires Has(text, s, EscapedChar(c, attr)) && s + |EscapedChar(c, attr)| < |text|
    ensures var end := if attr then '"' else '<';
      var r := Convert(text, s + |EscapedChar(c, attr)|, end, true, true);
      Convert(text, s, end, true, true) == Conversion([c] + r.value, r.stop)
  {
    hide Reference, EscapedChar;
    HasAt(text, s, EscapedChar(c, attr), 0);
    if IsSpecial(c, attr) {
      ReferenceConverts(text, s, c, attr);
    } else {
      PlainChar(c, attr);
    }
  }

  lemma {:induction false} EscapedCons(value: seq<char>, attr: bool, tail: seq<char>)
    requires value != []
    ensures Escaped(value, attr) + tail == EscapedChar(value[0], attr) + (Escaped(value[1..], attr) + tail)
    ensures |Escaped(value, attr)| == |EscapedChar(value[0], attr)| + |Escaped(value[1..], attr)|
  {
    hide EscapedChar;
  }

  lemma ConvertEnd(text: seq<char>, s: nat, end: char)
    requires Terminated(text) && Has(text, s, [] + [end])
    ensures s < |text| && Convert(text, s, end, true, true) == Conversion([], s)
  {
    HasAt(text, s, [] + [end], 0);
  }

  /** Reading what is printed for a value yields that value, then whatever follows. */
  lemma {:induction false} ConvertThrough(text: seq<char>, s: nat, value: seq<char>, attr: bool)
    requires Terminated(text) && Printable(value, attr)
    requires Has(text, s, Escaped(value, attr)) && s + |Escaped(value, attr)| < |text|
    ensures var end := if attr then '"' else '<';
      var r := Convert(text, s + |Escaped(value, attr)|, end, true, true);
      Convert(text, s, end, true, true) == Conversion(value + r.value, r.stop)
    decreases |value|
  {
    hide EscapedChar, IsSpecial, Convert, Has;
    var end := if attr then '"' else '<';
    if value == [] {
      assert [] + Convert(text, s, end, true, true).value == Convert(text, s, end, true, true).value;
    } else {
      hide Escaped;
      var first, rest := EscapedChar(value[0], attr), Escaped(value[1..], attr);
      EscapedCons(value, attr, []);
      assert rest + [] == rest && Escaped(value, attr) + [] == Escaped(value, attr);
      HasSplit(text, s, first, rest);
      ConvertThrough(text, s + |first|, value[1..], attr);
      ConvertChar(text, s, value[0], attr);
      assert value == [value[0]] + value[1..];
      Assoc([value[0]], value[1..], Convert(text, s + |first| + |rest|, end, true, true).value);
    }
  }

  /** Escaping and converting are inverse: the parser reads back exactly the printed value. */
  lemma {:induction false} ConvertEscaped(text: seq<char>, s: nat, value: seq<char>, attr: bool)
    requires Terminated(text) && Printable(value, attr)
    requires Has(text, s, Escaped(value, attr) + [if attr then '"' else '<'])
    ensures Convert(text, s, if attr then '"' else '<', true, true)
      == Conversion(value, s + |Escaped(value, attr)|)
  {
    hide Escaped, Convert, Has;
    var end := if attr then '"' else '<';
    HasSplit(text, s, Escaped(value, attr), [end]);
    HasAt(text, s + |Escaped(value, attr)|, [end], 0);
    ConvertThrough(text, s, value, attr);
    assert [] + [end] == [end];
    ConvertEnd(text, s + |Escaped(value, attr)|, end);
    assert value + [] == value;
  }
}
