/**
 What references and line ends in character data mean: numeric references in any
 spelling against UTF-8, the five names, what is left as it stands, and line ends as
 section 2.11 of XML 1.0 has them.
 */
module XmlReferences {
  import opened Wrappers
  import opened XmlText

  // ----- character classes

  const SMALL := "abcdefghijklmnopqrstuvwxyz"
  const CAPITAL := "ABCDEFGHIJKLMNOPQRSTUVWXYZ"
  const DIGITS := "0123456789"

  lemma SmallLetters(c: char)
    ensures c in SMALL <==> 'a' <= c <= 'z'
  {
    if 'a' <= c <= 'z' { assert SMALL[c as int - 'a' as int] == c; }
  }

  lemma CapitalLetters(c: char)
    ensures c in CAPITAL <==> 'A' <= c <= 'Z'
  {
    if 'A' <= c <= 'Z' { assert CAPITAL[c as int - 'A' as int] == c; }
  }

  lemma Numerals(c: char)
    ensures c in DIGITS <==> IsDigit(c)
  {
    if IsDigit(c) { assert DIGITS[c as int - '0' as int] == c; }
  }

  /** The productions S, NameStartChar and NameChar of XML 1.0 below 128; from 128 on every
      byte may stand in a name. */
  lemma ClassesAsInXml(c: char)
    ensures IsSpace(c) <==> c as int in [0x20, 0x9, 0xD, 0xA]
    ensures IsStartSymbol(c) <==> c in SMALL || c in CAPITAL || c == ':' || c == '_' || c as int >= 0x80
    ensures IsSymbol(c) <==> c in DIGITS || c == '-' || c == '.' || IsStartSymbol(c)
  {
    hide SMALL, CAPITAL, DIGITS;
    SmallLetters(c);
    CapitalLetters(c);
    Numerals(c);
  }

  // ----- UTF-8

  /** The six bits of a continuation byte. */
  function Continued(c: char): Option<nat>
  {
    if 0x80 <= c as int < 0xC0 then Some(c as int - 0x80) else None
  }

  /** The bits of the continuation bytes, most significant first, below those of the first byte. */
  function Tail(bytes: seq<char>, bits: nat): Option<nat>
  {
    if bytes == [] then Some(bits) else
      match Continued(bytes[0])
      case None => None
      case Some(x) => Tail(bytes[1..], 64 * bits + x)
  }

  /** One character read back from its bytes: the first tells how many follow, and no encoding is
      longer than it need be. */
  function Utf8Read(bytes: seq<char>): Option<nat>
  {
    if bytes == [] then None else
      var b := bytes[0] as int;
      if b < 0x80 then (if |bytes| == 1 then Some(b) else None)
      else if 0xC0 <= b < 0xE0 && |bytes| == 2 then AtLeast(Tail(bytes[1..], b - 0xC0), 0x80)
      else if 0xE0 <= b < 0xF0 && |bytes| == 3 then AtLeast(Tail(bytes[1..], b - 0xE0), 0x800)
      else if 0xF0 <= b < 0xF8 && |bytes| == 4 then AtLeast(Tail(bytes[1..], b - 0xF0), 0x10000)
      else None
  }

  /** Within the characters there are, and not below least. */
  function AtLeast(r: Option<nat>, least: nat): Option<nat>
  {
    if r.Some? && least <= r.value < 0x11_0000 then r else None
  }

  lemma {:induction false} TailTwo(lead: char, x: nat, bits: nat)
    requires x < 64
    ensures Tail([lead, (0x80 + x) as char][1..], bits) == Some(64 * bits + x)
  {
    var c := (0x80 + x) as char;
    assert [lead, c][1..] == [c] && [c][1..] == [];
    assert Tail([c], bits) == Tail([], 64 * bits + x);
  }

  lemma {:induction false} TailThree(lead: char, x: nat, y: nat, bits: nat)
    requires x < 64 && y < 64
    ensures Tail([lead, (0x80 + x) as char, (0x80 + y) as char][1..], bits) == Some(64 * (64 * bits + x) + y)
  {
    var c, d := (0x80 + x) as char, (0x80 + y) as char;
    assert [lead, c, d][1..] == [c, d] && [c, d][1..] == [d];
    TailTwo(c, y, 64 * bits + x);
    assert Tail([c, d], bits) == Tail([d], 64 * bits + x);
  }

  lemma {:induction false} TailFour(lead: char, x: nat, y: nat, z: nat, bits: nat)
    requires x < 64 && y < 64 && z < 64
    ensures Tail([lead, (0x80 + x) as char, (0x80 + y) as char, (0x80 + z) as char][1..], bits)
      == Some(64 * (64 * (64 * bits + x) + y) + z)
  {
    var c, d, e := (0x80 + x) as char, (0x80 + y) as char, (0x80 + z) as char;
    assert [lead, c, d, e][1..] == [c, d, e] && [c, d, e][1..] == [d, e];
    TailThree(c, y, z, 64 * bits + x);
    assert Tail([c, d, e], bits) == Tail([d, e], 64 * bits + x);
  }

  lemma TwoBytes(u: nat)
    requires 0x80 <= u < 0x800
    ensures Utf8Read(Utf8(u)) == Some(u)
  {
    hide Tail;
    TailTwo(Utf8(u)[0], u % 64, u / 64);
  }

  lemma ThreeBytes(u: nat)
    requires 0x800 <= u < 0x10000
    ensures Utf8Read(Utf8(u)) == Some(u)
  {
    hide Tail;
    TailThree(Utf8(u)[0], u / 64 % 64, u % 64, u / 4096);
    assert 64 * (u / 4096) + u / 64 % 64 == u / 64;
  }

  lemma FourBytes(u: nat)
    requires 0x10000 <= u < WORD
    ensures Utf8Read(Utf8(u)) == Some(u) <==> u < 0x11_0000
  {
    hide Tail;
    var top := u / 0x40000 % 16;
    TailFour(Utf8(u)[0], u / 4096 % 64, u / 64 % 64, u % 64, top);
    Quotients(u);
  }

  lemma Quotients(u: nat)
    ensures 64 * (u / 0x40000) + u / 4096 % 64 == u / 4096
    ensures 64 * (u / 4096) + u / 64 % 64 == u / 64
  {
  }

  /** The writer is undone by reading, for every character that there is and no other number. */
  lemma Utf8Reads(u: nat)
    requires u < WORD
    ensures Utf8Read(Utf8(u)) == Some(u) <==> u < 0x11_0000
  {
    if 0x80 <= u < 0x800 {
      TwoBytes(u);
    } else if 0x800 <= u < 0x10000 {
      ThreeBytes(u);
    } else if u >= 0x10000 {
      FourBytes(u);
    }
  }

  // ----- numeric references

  /** c is the digit d, a letter in either case. */
  ghost predicate IsDigitFor(c: char, d: nat)
  {
    d < 16 && (c == "0123456789abcdef"[d] || c == "0123456789ABCDEF"[d])
  }

  /** The digits spell the numbers ds. */
  ghost predicate Spells(digits: seq<char>, ds: seq<nat>, radix: nat)
  {
    |digits| == |ds| && forall i | 0 <= i < |ds| :: ds[i] < radix && IsDigitFor(digits[i], ds[i])
  }

  ghost function ValueOf(ds: seq<nat>, radix: nat): nat
  {
    if ds == [] then 0 else radix * ValueOf(ds[..|ds| - 1], radix) + ds[|ds| - 1]
  }

  /** Every digit is read as its number, and nothing else is a digit. */
  lemma DigitExactly(c: char, radix: nat)
    requires radix == 10 || radix == 16
    ensures DigitIn(radix, c) >= 0 ==> DigitIn(radix, c) < radix && IsDigitFor(c, DigitIn(radix, c))
    ensures forall d: nat | d < radix && IsDigitFor(c, d) :: DigitIn(radix, c) == d
  {
  }

  /** v on 32 bits. */
  function Wrapped(v: nat): (w: nat)
    ensures w < WORD
  {
    v % WORD
  }

  /** One digit more, whether the bits that do not fit are dropped before or after. */
  lemma WrapStep(v: nat, radix: nat, d: nat)
    requires radix == 10 || radix == 16
    ensures (radix * Wrapped(v) + d) % WORD == Wrapped(radix * v + d)
  {
    var q := v / WORD;
    assert v == q * WORD + v % WORD;
    if radix == 10 {
      AddMultiple(10 * (v % WORD) + d, 10 * q);
    } else {
      AddMultiple(16 * (v % WORD) + d, 16 * q);
    }
  }

  lemma AddMultiple(x: nat, k: nat)
    ensures (x + k * WORD) % WORD == x % WORD
  {
  }

  lemma ReadOne(text: seq<char>, p: nat, radix: nat, v: nat)
    requires Terminated(text) && p < |text| && DigitIn(radix, text[p]) >= 0 && (radix == 10 || radix == 16)
    ensures p + 1 < |text|
    ensures ReadDigits(text, p, radix, Wrapped(v)) == ReadDigits(text, p + 1, radix, Wrapped(radix * v + DigitIn(radix, text[p])))
  {
    WrapStep(v, radix, DigitIn(radix, text[p]));
    hide DigitIn, Wrapped;
  }

  lemma ValueSnoc(ds: seq<nat>, radix: nat, k: nat)
    requires k < |ds|
    ensures ValueOf(ds[..k + 1], radix) == radix * ValueOf(ds[..k], radix) + ds[k]
  {
    assert ds[..k + 1][..k] == ds[..k];
  }

  /** The digits are read one by one, on 32-bit words. */
  lemma {:induction false} DigitsRead(text: seq<char>, p: nat, digits: seq<char>, ds: seq<nat>, radix: nat, k: nat)
    requires Terminated(text) && (radix == 10 || radix == 16) && Spells(digits, ds, radix)
    requires Has(text, p, digits) && p + |digits| < |text| && k <= |ds|
    ensures ReadDigits(text, p, radix, 0) == ReadDigits(text, p + k, radix, Wrapped(ValueOf(ds[..k], radix)))
    decreases k
  {
    hide ReadDigits, ValueOf, Wrapped, DigitIn, IsDigitFor, Has;
    if k > 0 {
      DigitsRead(text, p, digits, ds, radix, k - 1);
      HasAt(text, p, digits, k - 1);
      DigitExactly(digits[k - 1], radix);
      ReadOne(text, p + k - 1, radix, ValueOf(ds[..k - 1], radix));
      ValueSnoc(ds, radix, k - 1);
    } else {
      NoDigits(ds, radix);
    }
  }

  lemma NoDigits(ds: seq<nat>, radix: nat)
    ensures Wrapped(ValueOf(ds[..0], radix)) == 0
  {
  }

  /** What announces a numeral of that radix. */
  function Announced(radix: nat): seq<char>
  {
    if radix == 16 then "&#x" else "&#"
  }

  /**
   A numeric reference in any spelling: with a digit at least and a semicolon it is replaced by the UTF-8
   form of its value, taken modulo 2^32, and otherwise it is left as it stands.
   */
  lemma {:induction false} NumericExactly(text: seq<char>, s: nat, digits: seq<char>, ds: seq<nat>, radix: nat)
    requires Terminated(text) && (radix == 10 || radix == 16) && Spells(digits, ds, radix)
    requires Has(text, s, Announced(radix) + digits) && s + |Announced(radix) + digits| < |text|
    requires var c := text[s + |Announced(radix) + digits|]; DigitIn(radix, c) < 0 && !(radix == 10 && digits == [] && c == 'x')
    ensures text[s] == '&'
    ensures var next := s + |Announced(radix) + digits|;
      Reference(text, s) ==
        if text[next] == ';' && digits != [] then Expansion(Utf8(Wrapped(ValueOf(ds, radix))), next + 1)
        else Expansion(text[s..next], next)
  {
    hide Utf8, Wrapped, Has, Spells, ReadDigits, ValueOf;
    var a := Announced(radix);
    HasSplit(text, s, a, digits);
    Announcement(text, s, digits, ds, radix);
    DigitsRead(text, s + |a|, digits, ds, radix, |ds|);
    assert ds[..|ds|] == ds;
    DigitsEnd(text, s + |a| + |digits|, radix, Wrapped(ValueOf(ds, radix)));
    SpellsAll(digits, ds, radix);
  }

  lemma SpellsAll(digits: seq<char>, ds: seq<nat>, radix: nat)
    requires Spells(digits, ds, radix)
    ensures |digits| == |ds|
  {
  }

  lemma DigitsEnd(text: seq<char>, p: nat, radix: nat, v: nat)
    requires Terminated(text) && p < |text| && v < WORD && DigitIn(radix, text[p]) < 0
    ensures ReadDigits(text, p, radix, v) == Digits(text[p] == ';', p, v)
  {
  }

  lemma Announcement(text: seq<char>, s: nat, digits: seq<char>, ds: seq<nat>, radix: nat)
    requires Terminated(text) && (radix == 10 || radix == 16) && Spells(digits, ds, radix)
    requires Has(text, s, Announced(radix) + digits) && s + |Announced(radix) + digits| < |text|
    requires radix == 10 && digits == [] ==> text[s + 2] != 'x'
    ensures text[s] == '&' && text[s + 1] == '#' && (text[s + 2] == 'x' <==> radix == 16)
  {
    var a := Announced(radix);
    HasSplit(text, s, a, digits);
    HasAt(text, s, a, 0);
    HasAt(text, s, a, 1);
    if radix == 16 {
      HasAt(text, s, a, 2);
    } else if digits != [] {
      HasAt(text, s + 2, digits, 0);
    }
  }

  // ----- named references

  /** The names, and what they stand for. */
  const NAMES: seq<(seq<char>, char)> := [("amp;", '&'), ("apos;", '\''), ("gt;", '>'), ("lt;", '<'), ("quot;", '"')]

  /** One of the five names after the ampersand is replaced by its character. */
  lemma {:induction false} NameReplaced(text: seq<char>, s: nat, k: nat)
    requires Terminated(text) && k < 5 && Has(text, s, "&" + NAMES[k].0)
    ensures text[s] == '&' && Reference(text, s) == Expansion([NAMES[k].1], s + |NAMES[k].0| + 1)
  {
    hide Agree;
    var name := NAMES[k].0;
    HasAt(text, s, "&" + name, 0);
    HasAt(text, s, "&" + name, 1);
    HasAt(text, s, "&" + name, 2);
    HasSplit(text, s, "&", name);
    AgreeAll(text, s + 1, name);
  }

  /** And nothing else that begins with an ampersand and no number sign is changed. */
  lemma {:induction false} OthersStand(text: seq<char>, s: nat)
    requires Terminated(text) && s < |text| && text[s] == '&' && text[s + 1] != '#'
    requires forall k | 0 <= k < 5 :: !Has(text, s, "&" + NAMES[k].0)
    ensures var e := Reference(text, s); e.out == text[s..e.next]
  {
    hide Agree;
    var (name, c) := NameFor(text[s + 1], if text[s + 1] == 'a' then text[s + 2] else NUL);
    var n := Agree(text, s + 1, name);
    if n == |name| && n > 0 {
      var k := NameListed(text[s + 1], if text[s + 1] == 'a' then text[s + 2] else NUL);
      Stands(text, s, name);
      assert false;
    }
  }

  lemma NameListed(c: char, d: char) returns (k: nat)
    requires NameFor(c, d).0 != ""
    ensures k < 5 && NAMES[k] == NameFor(c, d)
  {
    k := if c == 'a' then (if d == 'p' then 1 else 0) else if c == 'g' then 2 else if c == 'l' then 3 else 4;
  }

  lemma Stands(text: seq<char>, s: nat, name: seq<char>)
    requires s + 1 + |name| <= |text| && text[s] == '&' && text[s + 1..s + 1 + |name|] == name
    ensures Has(text, s, "&" + name)
  {
    assert text[s..s + 1 + |name|] == [text[s]] + text[s + 1..s + 1 + |name|];
  }

  // ----- character data

  /** A reference in character data gives its replacement, and reading goes on behind it. */
  lemma ReferenceConverted(text: seq<char>, s: nat, end: char, eol: bool)
    requires Terminated(text) && s < |text| && text[s] == '&' && end != '&'
    ensures var e := Reference(text, s); var r := Convert(text, e.next, end, eol, true);
      Convert(text, s, end, eol, true) == Conversion(e.out + r.value, r.stop)
  {
    hide Reference;
  }

  /** What ends character data, and attribute values. */
  predicate Ends(c: char)
  {
    c == '<' || c == '"' || c == '\''
  }

  /** A reference covers no end character, no line end and no NUL. */
  lemma {:induction false} ReferenceWithin(text: seq<char>, s: nat, k: nat)
    requires Terminated(text) && s < |text| && text[s] == '&' && s <= k < Reference(text, s).next
    ensures !Ends(text[k]) && text[k] != NUL && text[k] != CR
  {
    hide Agree;
    if text[s + 1] == '#' {
      var hex := text[s + 2] == 'x';
      var first := if hex then s + 3 else s + 2;
      if first <= k < ReadDigits(text, first, if hex then 16 else 10, 0).next {
        DigitsWithin(text, first, if hex then 16 else 10, 0, k);
      }
    } else {
      var d := if text[s + 1] == 'a' then text[s + 2] else NUL;
      var (name, c) := NameFor(text[s + 1], d);
      var n := Agree(text, s + 1, name);
      if k > s {
        assert text[k] == text[s + 1..s + 1 + n][k - s - 1] == name[k - s - 1];
        NameWithin(text[s + 1], d, k - s - 1);
      }
    }
  }

  lemma NameWithin(c: char, d: char, i: nat)
    requires i < |NameFor(c, d).0|
    ensures !Ends(NameFor(c, d).0[i]) && NameFor(c, d).0[i] != CR
  {
  }

  lemma {:induction false} DigitsWithin(text: seq<char>, p: nat, radix: nat, v: nat, k: nat)
    requires Terminated(text) && p < |text| && v < WORD && (radix == 10 || radix == 16)
    requires p <= k < ReadDigits(text, p, radix, v).next
    ensures DigitIn(radix, text[k]) >= 0
    decreases |text| - p
  {
    var d := DigitIn(radix, text[p]);
    if k > p { DigitsWithin(text, p + 1, radix, (radix * v + d) % WORD, k); }
  }

  /** Reading stops at the first end character or NUL. */
  lemma {:induction false} FirstEnd(text: seq<char>, s: nat, end: char, eol: bool, escapes: bool, k: nat)
    requires Terminated(text) && s < |text| && Ends(end) && s <= k < Convert(text, s, end, eol, escapes).stop
    ensures text[k] != end && text[k] != NUL
    decreases |text| - s
  {
    hide Reference;
    var e := Unit(text, s, eol, escapes);
    if k >= e.next {
      FirstEnd(text, e.next, end, eol, escapes, k);
    } else if escapes && text[s] == '&' {
      ReferenceWithin(text, s, k);
    }
  }

  // ----- line ends

  /** The lines of a text in which a line ends in CR LF, in CR or in LF. */
  function Lines(t: seq<char>): (lines: seq<seq<char>>)
    ensures |lines| >= 1
    decreases |t|
  {
    if t == [] then [[]]
    else if t[0] == CR || t[0] == LF then
      [[]] + Lines(if t[0] == CR && |t| > 1 && t[1] == LF then t[2..] else t[1..])
    else
      var rest := Lines(t[1..]);
      [[t[0]] + rest[0]] + rest[1..]
  }

  /** Without references, converting leaves the lines as they are and ends them all in LF. */
  lemma {:induction false} LinesConverted(text: seq<char>, s: nat, end: char, escapes: bool)
    requires Terminated(text) && s < |text| && Ends(end)
    requires escapes ==> '&' !in text[s..Convert(text, s, end, true, escapes).stop]
    ensures var r := Convert(text, s, end, true, escapes);
      CR !in r.value && Lines(r.value) == Lines(text[s..r.stop])
    decreases |text| - s
  {
    hide Reference;
    var r := Convert(text, s, end, true, escapes);
    if text[s] != end && text[s] != NUL {
      var t := text[s..r.stop];
      assert t[0] == text[s];
      var next := if text[s] == CR && text[s + 1] == LF then s + 2 else s + 1;
      var rest := Convert(text, next, end, true, escapes);
      assert r.stop == rest.stop && next <= r.stop;
      assert t[next - s..] == text[next..r.stop];
      assert forall c | c in text[next..r.stop] :: c in t;
      LinesConverted(text, next, end, escapes);
      LinesCons(if text[s] == CR then LF else text[s], rest.value, r.value);
    }
  }

  lemma {:induction false} LinesCons(c: char, rest: seq<char>, all: seq<char>)
    requires c != CR && all == [c] + rest
    ensures Lines(all) == if c == LF then [[]] + Lines(rest) else [[c] + Lines(rest)[0]] + Lines(rest)[1..]
  {
    assert all[1..] == rest;
  }

  /** A carriage return in the value has come from a reference. */
  lemma {:induction false} ReturnsReferred(text: seq<char>, s: nat, end: char, escapes: bool) returns (p: nat)
    requires Terminated(text) && s < |text| && CR in Convert(text, s, end, true, escapes).value
    ensures escapes && s <= p < |text| && text[p] == '&'
    ensures var e := Reference(text, p); CR in e.out && e.out != text[p..e.next]
    decreases |text| - s
  {
    hide Reference;
    var e := Unit(text, s, true, escapes);
    if CR in e.out {
      p := s;
      ReferenceNoReturn(text, s);
    } else {
      p := ReturnsReferred(text, e.next, end, escapes);
    }
  }

  lemma {:induction false} ReferenceNoReturn(text: seq<char>, s: nat)
    requires Terminated(text) && s < |text| && text[s] == '&'
    ensures CR !in text[s..Reference(text, s).next]
  {
    hide Reference;
    var e := Reference(text, s);
    forall k | s <= k < e.next ensures text[k] != CR { ReferenceWithin(text, s, k); }
  }

  /** Without conversions, the value is the text up to the first end character or NUL. */
  lemma {:induction false} PlainText(text: seq<char>, s: nat, end: char)
    requires Terminated(text) && s < |text|
    ensures var r := Convert(text, s, end, false, false); r.value == text[s..r.stop]
    decreases |text| - s
  {
    if text[s] != end && text[s] != NUL {
      PlainText(text, s + 1, end);
      var r := Convert(text, s, end, false, false);
      assert text[s..r.stop] == [text[s]] + text[s + 1..r.stop];
    }
  }
}
