/**
 The parser against markup as one may write it: any white space where it is allowed,
 either quote, empty tags or not, references in any form.  What a document means is
 said on the markup, under every option; parsing finds exactly that.
 */
module XmlMarkup {
  import opened XmlText
  import opened XmlReferences
  import opened XmlParse
  import opened XmlRoundTrip

  // ----- markup

  /** One attribute as written, with the white space before it. */
  datatype Field = Field(gap: seq<char>, name: seq<char>, left: seq<char>, right: seq<char>, quote: char, raw: seq<char>)

  /** An element or a stretch of character data as written. */
  datatype Markup =
    | Data(raw: seq<char>)
    | Tag(name: seq<char>, fields: seq<Field>, gap: seq<char>, content: Content)

  datatype Content = Empty | Full(inner: seq<Markup>, gap: seq<char>)

  function SpelledField(f: Field): seq<char>
  {
    f.gap + f.name + f.left + ['='] + f.right + [f.quote] + (f.raw + [f.quote])
  }

  function SpelledFields(fs: seq<Field>): seq<char>
  {
    if fs == [] then [] else SpelledField(fs[0]) + SpelledFields(fs[1..])
  }

  function Spelled(m: Markup): seq<char>
    decreases m
  {
    match m
    case Data(raw) => raw
    case Tag(name, fields, gap, Empty) => "<" + name + SpelledFields(fields) + gap + "/>"
    case Tag(name, fields, gap, Full(inner, end)) =>
      "<" + name + SpelledFields(fields) + gap + (">" + SpelledAll(inner) + ("</" + name + end + ">"))
  }

  function SpelledAll(ms: seq<Markup>): seq<char>
    decreases ms
  {
    if ms == [] then [] else Spelled(ms[0]) + SpelledAll(ms[1..])
  }

  // ----- what is well formed

  ghost predicate Blank(s: seq<char>)
  {
    forall i | 0 <= i < |s| :: IsSpace(s[i])
  }

  /** Neither of these characters. */
  ghost predicate Free(s: seq<char>, c: char)
  {
    forall i | 0 <= i < |s| :: s[i] != c && s[i] != NUL
  }

  ghost predicate FieldFormed(f: Field)
  {
    && f.gap != [] && Blank(f.gap) && ValidName(f.name) && Blank(f.left) && Blank(f.right)
    && (f.quote == '"' || f.quote == '\'') && Free(f.raw, f.quote)
  }

  ghost predicate FieldsFormed(fs: seq<Field>)
  {
    forall i | 0 <= i < |fs| :: FieldFormed(fs[i])
  }

  ghost predicate Formed(m: Markup)
    decreases m
  {
    match m
    case Data(raw) => raw != [] && Free(raw, '<')
    case Tag(name, fields, gap, content) =>
      && ValidName(name) && FieldsFormed(fields) && Blank(gap)
      && (content.Full? ==> FormedAll(content.inner) && Blank(content.gap))
  }

  ghost predicate FormedAll(ms: seq<Markup>)
    decreases ms
  {
    ms == [] || (
      && Formed(ms[0])
      && (|ms| > 1 ==> !(ms[0].Data? && ms[1].Data?))
      && FormedAll(ms[1..]))
  }

  // ----- what it means

  /** Character data by itself, up to the character that ends it. */
  function Converted(raw: seq<char>, end: char, o: Options): seq<char>
  {
    Convert(raw + [end, NUL], 0, end, o.eol, o.escapes).value
  }

  function FieldMeaning(f: Field, o: Options): Attr
  {
    Attr(f.name, Converted(f.raw, f.quote, o))
  }

  function FieldsMeaning(fs: seq<Field>, o: Options): seq<Attr>
  {
    if fs == [] then [] else [FieldMeaning(fs[0], o)] + FieldsMeaning(fs[1..], o)
  }

  function TrimLeft(s: seq<char>): seq<char>
  {
    if s != [] && IsSpace(s[0]) then TrimLeft(s[1..]) else s
  }

  /** White space alone between tags is text only if an option says so, and with parse_ws_pcdata_single
      only where it is all that an element holds. */
  ghost predicate Kept(raw: seq<char>, alone: bool, o: Options)
  {
    !Blank(raw) || (!o.trim && if o.wsPcdataSingle then alone else o.wsPcdata)
  }

  ghost function DataMeaning(raw: seq<char>, alone: bool, o: Options): seq<Node>
  {
    if !Kept(raw, alone, o) then []
    else if o.trim then [Text(TrimRight(Converted(TrimLeft(raw), '<', o)))]
    else [Text(Converted(raw, '<', o))]
  }

  ghost function Meaning(m: Markup, alone: bool, o: Options): seq<Node>
    decreases m, 0
  {
    match m
    case Data(raw) => DataMeaning(raw, alone, o)
    case Tag(name, fields, _, Empty) => [Element(name, FieldsMeaning(fields, o), [])]
    case Tag(name, fields, _, Full(inner, _)) =>
      [Element(name, FieldsMeaning(fields, o), MeaningAll(inner, |inner| == 1, o))]
  }

  ghost function MeaningAll(ms: seq<Markup>, alone: bool, o: Options): seq<Node>
    decreases ms, 1
  {
    if ms == [] then [] else Meaning(ms[0], alone, o) + MeaningAll(ms[1..], alone, o)
  }

  // ----- conversion does not look beyond the end

  /** The texts agree from a and from b on, up to the character end, n further on. */
  ghost predicate SameUpTo(t: seq<char>, a: nat, u: seq<char>, b: nat, n: nat, end: char)
  {
    && Terminated(t) && Terminated(u) && a + n + 1 < |t| && b + n + 1 < |u| && Ends(end)
    && t[a + n] == end && u[b + n] == end
    && forall k | a <= k < a + n :: t[k] == u[k - a + b] && t[k] != end && t[k] != NUL
  }

  lemma SameFrom(t: seq<char>, a: nat, u: seq<char>, b: nat, n: nat, end: char, k: nat)
    requires SameUpTo(t, a, u, b, n, end) && k <= n
    ensures SameUpTo(t, a + k, u, b + k, n - k, end)
  {
  }

  lemma {:induction false} SameDigits(t: seq<char>, a: nat, u: seq<char>, b: nat, n: nat, end: char, radix: nat, v: nat)
    requires SameUpTo(t, a, u, b, n, end) && v < WORD && (radix == 10 || radix == 16)
    ensures var r, q := ReadDigits(t, a, radix, v), ReadDigits(u, b, radix, v);
      && r.next - a == q.next - b <= n && r.complete == q.complete && r.value == q.value && (r.complete ==> r.next < a + n)
    decreases n
  {
    if n > 0 {
      if DigitIn(radix, t[a]) >= 0 {
        SameFrom(t, a, u, b, n, end, 1);
        SameDigits(t, a + 1, u, b + 1, n - 1, end, radix, (radix * v + DigitIn(radix, t[a])) % WORD);
      }
    }
  }

  lemma {:induction false} SameAgree(t: seq<char>, a: nat, u: seq<char>, b: nat, n: nat, end: char, name: seq<char>)
    requires SameUpTo(t, a, u, b, n, end) && end !in name
    ensures Agree(t, a, name) == Agree(u, b, name) <= n
    decreases |name|
  {
    if name != [] && n > 0 {
      SameFrom(t, a, u, b, n, end, 1);
      SameAgree(t, a + 1, u, b + 1, n - 1, end, name[1..]);
    }
  }

  lemma SameSlice(t: seq<char>, a: nat, u: seq<char>, b: nat, n: nat, end: char, k: nat)
    requires SameUpTo(t, a, u, b, n, end) && k <= n
    ensures t[a..a + k] == u[b..b + k]
  {
    assert forall i | a <= i < a + k :: t[i] == u[i - a + b];
  }

  lemma {:induction false} SameReference(t: seq<char>, a: nat, u: seq<char>, b: nat, n: nat, end: char)
    requires SameUpTo(t, a, u, b, n, end) && n > 0 && t[a] == '&'
    ensures u[b] == '&'
    ensures var e, f := Reference(t, a), Reference(u, b); e.out == f.out && e.next - a == f.next - b <= n
  {
    assert n > 1 ==> t[a + 1] == u[b + 1];
    assert n > 2 ==> t[a + 2] == u[b + 2];
    if n > 1 && t[a + 1] == '#' {
      SameNumeric(t, a, u, b, n, end);
      hide Numeric;
    } else {
      var c, d := t[a + 1], if t[a + 1] == 'a' then t[a + 2] else NUL;
      NameFree(c, d, end);
      SameNamed(t, a, u, b, n, end, NameFor(c, d).0, NameFor(c, d).1);
      hide Named, NameFor;
    }
  }

  lemma {:induction false} SameNumeric(t: seq<char>, a: nat, u: seq<char>, b: nat, n: nat, end: char)
    requires SameUpTo(t, a, u, b, n, end) && n > 1 && t[a] == u[b] == '&' && t[a + 1] == u[b + 1] == '#'
    ensures var e, f := Numeric(t, a), Numeric(u, b); e.out == f.out && e.next - a == f.next - b <= n
  {
    hide ReadDigits, Utf8;
    assert n > 2 ==> t[a + 2] == u[b + 2];
    var k := if t[a + 2] == 'x' then 3 else 2;
    SameFrom(t, a, u, b, n, end, k);
    SameDigits(t, a + k, u, b + k, n - k, end, if k == 3 then 16 else 10, 0);
    SameSlice(t, a, u, b, n, end, ReadDigits(t, a + k, if k == 3 then 16 else 10, 0).next - a);
    hide SameUpTo;
  }

  lemma NameFree(c: char, d: char, end: char)
    requires Ends(end)
    ensures end !in NameFor(c, d).0
  {
    var name := NameFor(c, d).0;
    forall i | 0 <= i < |name| ensures name[i] != end { NameWithin(c, d, i); }
  }

  lemma {:induction false} SameNamed(t: seq<char>, a: nat, u: seq<char>, b: nat, n: nat, end: char, name: seq<char>, c: char)
    requires SameUpTo(t, a, u, b, n, end) && n > 0 && t[a] == u[b] == '&' && end !in name && NUL !in name
    ensures var e, f := Named(t, a, name, c), Named(u, b, name, c); e.out == f.out && e.next - a == f.next - b <= n
  {
    hide Agree;
    SameFrom(t, a, u, b, n, end, 1);
    SameAgree(t, a + 1, u, b + 1, n - 1, end, name);
    SameSlice(t, a, u, b, n, end, 1 + Agree(t, a + 1, name));
    hide SameUpTo;
  }

  lemma {:induction false} SameUnit(t: seq<char>, a: nat, u: seq<char>, b: nat, n: nat, end: char, eol: bool, escapes: bool)
    requires SameUpTo(t, a, u, b, n, end) && n > 0
    ensures t[a] != NUL && u[b] != NUL
    ensures var e, f := Unit(t, a, eol, escapes), Unit(u, b, eol, escapes); e.out == f.out && e.next - a == f.next - b <= n
  {
    hide Reference;
    assert n > 1 ==> t[a + 1] == u[b + 1];
    if t[a] == '&' { SameReference(t, a, u, b, n, end); }
  }

  /** Character data means the same wherever it stands. */
  lemma {:induction false} ConvertAnywhere(t: seq<char>, a: nat, u: seq<char>, b: nat, n: nat, end: char, eol: bool, escapes: bool)
    requires SameUpTo(t, a, u, b, n, end)
    ensures var r, q := Convert(t, a, end, eol, escapes), Convert(u, b, end, eol, escapes);
      r.value == q.value && r.stop == a + n && q.stop == b + n
    decreases n
  {
    hide Unit;
    if n > 0 {
      SameUnit(t, a, u, b, n, end, eol, escapes);
      var k := Unit(t, a, eol, escapes).next - a;
      SameFrom(t, a, u, b, n, end, k);
      ConvertAnywhere(t, a + k, u, b + k, n - k, end, eol, escapes);
    }
  }

  lemma ConvertedIs(text: seq<char>, s: nat, raw: seq<char>, end: char, o: Options)
    requires Terminated(text) && Has(text, s, raw + [end]) && s + |raw| + 1 < |text| && Free(raw, end) && Ends(end)
    ensures Convert(text, s, end, o.eol, o.escapes) == Conversion(Converted(raw, end, o), s + |raw|)
  {
    var u := raw + [end, NUL];
    assert text[s..s + |raw| + 1] == raw + [end];
    assert forall k | s <= k < s + |raw| :: text[k] == (raw + [end])[k - s] == u[k - s];
    assert text[s + |raw|] == (raw + [end])[|raw|];
    ConvertAnywhere(text, s, u, 0, |raw|, end, o.eol, o.escapes);
  }

  // ----- scanning

  lemma {:induction false} SkipBlank(text: seq<char>, s: nat, gap: seq<char>)
    requires Terminated(text) && Blank(gap) && Has(text, s, gap) && s + |gap| < |text| && !IsSpace(text[s + |gap|])
    ensures SkipSpace(text, s) == s + |gap|
    decreases |gap|
  {
    if gap != [] {
      HasAt(text, s, gap, 0);
      assert gap == gap[..1] + gap[1..];
      HasSplit(text, s, gap[..1], gap[1..]);
      SkipBlank(text, s + 1, gap[1..]);
    }
  }

  lemma NoSpace(c: char)
    requires IsStartSymbol(c) || c == '=' || c == '"' || c == '\'' || c == '>' || c == '/' || c == '<' || c == NUL
    ensures !IsSpace(c)
    ensures c == '=' || c == '"' || c == '\'' || c == '>' || c == '/' || c == '<' || c == NUL ==> !IsSymbol(c) && !IsStartSymbol(c)
  {
  }

  lemma SpaceIsNoSymbol(c: char)
    requires IsSpace(c)
    ensures !IsSymbol(c) && !IsStartSymbol(c) && c != NUL
  {
  }

  // ----- attributes

  /** Where the parts of an attribute stand, s being behind the white space before it. */
  lemma FieldParts(text: seq<char>, s: nat, f: Field)
    requires Has(text, s, SpelledField(f))
    ensures var n := s + |f.gap|; var e := n + |f.name|; var p := e + |f.left|; var q := p + 1 + |f.right|;
      && Has(text, s, f.gap) && Has(text, n, f.name) && Has(text, e, f.left) && Has(text, p, ['=']) && Has(text, p + 1, f.right)
      && Has(text, q, [f.quote]) && Has(text, q + 1, f.raw + [f.quote])
      && s + |SpelledField(f)| == q + 1 + |f.raw| + 1 <= |text|
  {
    hide Has;
    var rest := f.raw + [f.quote];
    var a := f.gap + f.name + f.left + ['='] + f.right + [f.quote];
    HasAt(text, s, SpelledField(f), |SpelledField(f)| - 1);
    HasSplit(text, s, a, rest);
    HasSplit(text, s, f.gap + f.name + f.left + ['='] + f.right, [f.quote]);
    HasSplit(text, s, f.gap + f.name + f.left + ['='], f.right);
    HasParts(text, s, f.gap, f.name, f.left, ['=']);
  }

  /** An attribute is read, from the white space before it to the character behind its quote. */
  lemma RunField(text: seq<char>, endch: char, o: Options, s: nat, stack: seq<Open>, f: Field)
    requires Terminated(text) && |stack| > 1 && FieldFormed(f) && Has(text, s, SpelledField(f))
    requires s + |SpelledField(f)| < |text| && !IsStartSymbol(text[s + |SpelledField(f)|])
    ensures Run(text, endch, o, State(Attributes, s, stack))
      == Run(text, endch, o, State(Attributes, s + |SpelledField(f)|, AddAttr(stack, FieldMeaning(f, o))))
  {
    hide Has, SpelledField, Run, AttrStep, AddAttr, Converted, IsStartSymbol, IsSpace, Blank, Free, SkipSpace, SymbolEnd, ValidName;
    FieldParts(text, s, f);
    var n := s + |f.gap|;
    NameStarts(text, n, f.name);
    NoSpace(text[n]);
    SkipBlank(text, s, f.gap);
    var st := State(Attributes, s, stack);
    FieldStep(text, o, n, stack, f);
    assert Step(text, endch, o, st) == AttrStep(text, o, st.(s := n));
    OneStep(text, endch, o, st);
  }

  lemma OneStep(text: seq<char>, endch: char, o: Options, st: State)
    requires Inv(text, st) && !Final(st.at)
    ensures Run(text, endch, o, st) == Run(text, endch, o, Step(text, endch, o, st))
  {
    hide Step;
  }

  lemma NameStarts(text: seq<char>, s: nat, name: seq<char>)
    requires Has(text, s, name) && ValidName(name)
    ensures s < |text| && IsStartSymbol(text[s]) && |name| > 0
  {
    HasAt(text, s, name, 0);
  }

  /** The places of the sign and of the quotes, s being where the name begins. */
  lemma FieldPlaces(text: seq<char>, n: nat, f: Field)
    requires Terminated(text) && FieldFormed(f) && n >= |f.gap| && Has(text, n - |f.gap|, SpelledField(f))
    requires n - |f.gap| + |SpelledField(f)| < |text|
    ensures var e := n + |f.name|; var p := e + |f.left|; var q := p + 1 + |f.right|; var end := q + 1 + |f.raw|;
      && n < e && IsStartSymbol(text[n]) && SymbolEnd(text, n) == e && text[n..e] == f.name
      && (if IsSpace(text[e]) then SkipSpace(text, e) else e) == p && text[p] == '=' && SkipSpace(text, p + 1) == q
      && text[q] == f.quote && Has(text, q + 1, f.raw + [f.quote]) && text[end] == f.quote
      && end + 1 == n - |f.gap| + |SpelledField(f)|
  {
    hide Blank, Has, SpelledField, IsStartSymbol, IsSymbol, IsSpace, Free, SkipSpace, SymbolEnd, ValidName;
    FieldParts(text, n - |f.gap|, f);
    var e := n + |f.name|;
    var p := e + |f.left|;
    var q := p + 1 + |f.right|;
    HasAt(text, p, ['='], 0);
    HasAt(text, q, [f.quote], 0);
    NoSpace(f.quote);
    NameStarts(text, n, f.name);
    BeforeSign(text, e, f.left);
    NameAt(text, n, f.name);
    SkipBlank(text, p + 1, f.right);
    HasAt(text, q + 1, f.raw + [f.quote], |f.raw|);
    HasIs(text, n, f.name);
  }

  lemma FieldStep(text: seq<char>, o: Options, n: nat, stack: seq<Open>, f: Field)
    requires Terminated(text) && |stack| > 1 && FieldFormed(f)
    requires n >= |f.gap| && Has(text, n - |f.gap|, SpelledField(f))
    requires var end := n - |f.gap| + |SpelledField(f)|; end < |text| && !IsStartSymbol(text[end])
    ensures n < |text| && IsStartSymbol(text[n])
    ensures AttrStep(text, o, State(Attributes, n, stack))
      == State(Attributes, n - |f.gap| + |SpelledField(f)|, AddAttr(stack, FieldMeaning(f, o)))
  {
    hide Blank, Has, SpelledField, AttrStep, AddAttr, Converted, IsStartSymbol, IsSymbol, IsSpace, Free, SkipSpace, SymbolEnd,
         ValidName, Convert;
    FieldPlaces(text, n, f);
    var e := n + |f.name|;
    var p := e + |f.left|;
    var q := p + 1 + |f.right|;
    ConvertedIs(text, q + 1, f.raw, f.quote, o);
    AttrForm(text, o, State(Attributes, n, stack), e, p, q, FieldMeaning(f, o), q + 1 + |f.raw|);
  }

  lemma BeforeSign(text: seq<char>, e: nat, left: seq<char>)
    requires Terminated(text) && Blank(left) && Has(text, e, left) && e + |left| < |text| && text[e + |left|] == '='
    ensures !IsSymbol(text[e]) && (if IsSpace(text[e]) then SkipSpace(text, e) else e) == e + |left|
  {
    NoSpace('=');
    SkipBlank(text, e, left);
    if left != [] {
      HasAt(text, e, left, 0);
      SpaceIsNoSymbol(text[e]);
    }
  }

  lemma HasIs(text: seq<char>, s: nat, part: seq<char>)
    requires Has(text, s, part)
    ensures s + |part| <= |text| && text[s..s + |part|] == part
  {
  }

  /** AttrStep by the places of the sign, the quote and the end. */
  lemma AttrForm(text: seq<char>, o: Options, st: State, e: nat, p: nat, q: nat, a: Attr, end: nat)
    requires Inv(text, st) && st.at == Attributes && IsStartSymbol(text[st.s])
    requires st.s < e <= p < q && SymbolEnd(text, st.s) == e && text[st.s..e] == a.name && q + 1 < |text|
    requires (if IsSpace(text[e]) then SkipSpace(text, e) else e) == p && text[p] == '=' && SkipSpace(text, p + 1) == q
    requires (text[q] == '"' || text[q] == '\'') && Convert(text, q + 1, text[q], o.eol, o.escapes) == Conversion(a.value, end)
    requires end + 1 < |text| && text[end] == text[q] && !IsStartSymbol(text[end + 1])
    ensures AttrStep(text, o, st) == State(Attributes, end + 1, AddAttr(st.stack, a))
  {
    hide Convert, IsStartSymbol, SymbolEnd, SkipSpace, AddAttr, IsSpace;
  }

  /** The stack once the attributes are read. */
  lemma {:induction false} RunFields(text: seq<char>, endch: char, o: Options, s: nat, stack: seq<Open>, fs: seq<Field>)
    requires Terminated(text) && |stack| > 1 && FieldsFormed(fs) && Has(text, s, SpelledFields(fs))
    requires s + |SpelledFields(fs)| < |text| && !IsStartSymbol(text[s + |SpelledFields(fs)|])
    ensures Run(text, endch, o, State(Attributes, s, stack))
      == Run(text, endch, o, State(Attributes, s + |SpelledFields(fs)|, AddAttrs(stack, FieldsMeaning(fs, o))))
    decreases |fs|
  {
    hide Has, SpelledField, Run, IsStartSymbol, IsSymbol, FieldMeaning, FieldFormed;
    if fs != [] {
      var first := SpelledField(fs[0]);
      HasSplit(text, s, first, SpelledFields(fs[1..]));
      if |fs| > 1 { FieldsStart(text, s + |first|, fs[1..]); }
      RunField(text, endch, o, s, stack, fs[0]);
      RunFields(text, endch, o, s + |first|, AddAttr(stack, FieldMeaning(fs[0], o)), fs[1..]);
      assert FieldsMeaning(fs, o)[1..] == FieldsMeaning(fs[1..], o);
    }
  }

  /** Attributes begin with white space. */
  lemma FieldsStart(text: seq<char>, s: nat, fs: seq<Field>)
    requires fs != [] && FieldsFormed(fs) && Has(text, s, SpelledFields(fs))
    ensures s < |text| && IsSpace(text[s]) && !IsStartSymbol(text[s]) && !IsSymbol(text[s])
  {
    hide Has, SpelledField;
    HasSplit(text, s, SpelledField(fs[0]), SpelledFields(fs[1..]));
    FieldParts(text, s, fs[0]);
    HasAt(text, s, fs[0].gap, 0);
    SpaceIsNoSymbol(text[s]);
  }

  // ----- tags

  /** What stands in front of the content of an element. */
  function Opening(name: seq<char>, fs: seq<Field>, gap: seq<char>): seq<char>
  {
    "<" + name + SpelledFields(fs) + gap
  }

  lemma OpeningParts(text: seq<char>, s: nat, name: seq<char>, fs: seq<Field>, gap: seq<char>)
    requires Has(text, s, Opening(name, fs, gap))
    ensures var n := s + 1 + |name|; var g := n + |SpelledFields(fs)|;
      && s < |text| && text[s] == '<' && Has(text, s + 1, name) && Has(text, n, SpelledFields(fs)) && Has(text, g, gap)
      && s + |Opening(name, fs, gap)| == g + |gap| <= |text|
  {
    hide Has, SpelledFields;
    HasParts(text, s, "<", name, SpelledFields(fs), gap);
    HasAt(text, s, "<", 0);
    HasIs(text, s, Opening(name, fs, gap));
  }

  /** From the opening bracket to the slash or bracket that ends the tag, when something stands between. */
  lemma RunOpening(text: seq<char>, endch: char, o: Options, s: nat, stack: seq<Open>, name: seq<char>, fs: seq<Field>, gap: seq<char>)
    requires Terminated(text) && stack != [] && ValidName(name) && FieldsFormed(fs) && Blank(gap)
    requires Has(text, s, Opening(name, fs, gap)) && SpelledFields(fs) + gap != []
    requires var q := s + |Opening(name, fs, gap)|; q < |text| && (text[q] == '/' || text[q] == '>')
    ensures Run(text, endch, o, State(Content, s, stack))
      == Run(text, endch, o, State(Attributes, s + |Opening(name, fs, gap)|, stack + [Open(name, FieldsMeaning(fs, o), [])]))
  {
    hide Has, Opening, SpelledFields, Run, ValidName, FieldsFormed, FieldsMeaning, Blank;
    OpeningParts(text, s, name, fs, gap);
    var n := s + 1 + |name|;
    var g, q := n + |SpelledFields(fs)|, s + |Opening(name, fs, gap)|;
    NoSpace(text[q]);
    GapAhead(text, n, fs, gap);
    RunTagName(text, endch, o, s, stack, name);
    var open := stack + [Open(name, [], [])];
    RunBlank(text, endch, o, n, open);
    RunFields(text, endch, o, n, open, fs);
    AddAttrsIs(stack, name, [], FieldsMeaning(fs, o));
    assert [] + FieldsMeaning(fs, o) == FieldsMeaning(fs, o);
    RunGap(text, endch, o, g, stack + [Open(name, FieldsMeaning(fs, o), [])], gap);
  }

  /** What follows a name or an attribute begins no name. */
  lemma GapAhead(text: seq<char>, n: nat, fs: seq<Field>, gap: seq<char>)
    requires FieldsFormed(fs) && Blank(gap) && Has(text, n, SpelledFields(fs)) && Has(text, n + |SpelledFields(fs)|, gap)
    requires var q := n + |SpelledFields(fs)| + |gap|; q < |text| && (text[q] == '/' || text[q] == '>')
    ensures !IsStartSymbol(text[n + |SpelledFields(fs)|])
    ensures SpelledFields(fs) + gap != [] ==> IsSpace(text[n])
  {
    hide Has, SpelledFields;
    var g := n + |SpelledFields(fs)|;
    NoSpace(text[g + |gap|]);
    if gap != [] {
      HasAt(text, g, gap, 0);
      SpaceIsNoSymbol(text[g]);
    }
    if fs != [] { FieldsStart(text, n, fs); }
    NoFields(fs);
  }

  lemma NoFields(fs: seq<Field>)
    ensures fs == [] ==> SpelledFields(fs) == []
  {
  }

  /** The opening bracket and the name, up to white space. */
  lemma RunTagName(text: seq<char>, endch: char, o: Options, s: nat, stack: seq<Open>, name: seq<char>)
    requires Terminated(text) && stack != [] && ValidName(name) && s < |text| && text[s] == '<' && Has(text, s + 1, name)
    requires var n := s + 1 + |name|; n + 1 < |text| && IsSpace(text[n])
    ensures Run(text, endch, o, State(Content, s, stack))
      == Run(text, endch, o, State(Attributes, s + 1 + |name| + 1, stack + [Open(name, [], [])]))
  {
    hide Has, ValidName, SymbolEnd, AttributesStep, TextStep, EndStep, IsSymbol, IsStartSymbol;
    var n := s + 1 + |name|;
    SpaceIsNoSymbol(text[n]);
    NameAt(text, s + 1, name);
    SpaceNot(text[n]);
    var tag := State(AtTag, s + 1, stack);
    NameStarts(text, s + 1, name);
    assert StartStep(text, endch, tag) == State(Attributes, n + 1, stack + [Open(name, [], [])]);
    OneStep(text, endch, o, State(Content, s, stack));
    OneStep(text, endch, o, tag);
  }

  lemma SpaceNot(c: char)
    requires IsSpace(c)
    ensures c != '>' && c != '/' && c != NUL
  {
  }

  /** White space before the end of a tag. */
  lemma RunGap(text: seq<char>, endch: char, o: Options, s: nat, stack: seq<Open>, gap: seq<char>)
    requires Terminated(text) && |stack| > 1 && Blank(gap) && Has(text, s, gap)
    requires var q := s + |gap|; q < |text| && (text[q] == '/' || text[q] == '>')
    ensures Run(text, endch, o, State(Attributes, s, stack)) == Run(text, endch, o, State(Attributes, s + |gap|, stack))
  {
    hide AttrStep, Has, Blank, IsStartSymbol, IsSpace;
    var q := s + |gap|;
    NoSpace(text[q]);
    SkipBlank(text, s, gap);
    assert SkipSpace(text, q) == q;
    var a, b := State(Attributes, s, stack), State(Attributes, q, stack);
    assert Step(text, endch, o, a) == Step(text, endch, o, b);
    OneStep(text, endch, o, a);
    OneStep(text, endch, o, b);
  }

  /** A tag without anything between its name and its end. */
  lemma RunBare(text: seq<char>, endch: char, o: Options, s: nat, stack: seq<Open>, name: seq<char>)
    requires Terminated(text) && stack != [] && ValidName(name) && Has(text, s, "<" + name)
    requires var n := s + 1 + |name|; n + 1 < |text| && (text[n] == '>' || (text[n] == '/' && text[n + 1] == '>' && n + 2 < |text|))
    ensures var n := s + 1 + |name|;
      Run(text, endch, o, State(Content, s, stack)) == Run(text, endch, o,
        if text[n] == '>' then State(Content, n + 1, stack + [Open(name, [], [])])
        else State(Content, n + 2, AddChild(stack, Element(name, [], []))))
  {
    hide Has, ValidName, SymbolEnd, AttributesStep, TextStep, EndStep, IsSymbol, IsStartSymbol, Pop, AddChild;
    HasSplit(text, s, "<", name);
    HasAt(text, s, "<", 0);
    var n := s + 1 + |name|;
    NoSpace(text[n]);
    NameAt(text, s + 1, name);
    NameStarts(text, s + 1, name);
    PopIs(stack, name, [], []);
    var tag := State(AtTag, s + 1, stack);
    OneStep(text, endch, o, State(Content, s, stack));
    OneStep(text, endch, o, tag);
  }

  /** The end of a tag with attributes or white space in it. */
  lemma RunTagEnd(text: seq<char>, endch: char, o: Options, q: nat, stack: seq<Open>, name: seq<char>, attrs: seq<Attr>)
    requires Terminated(text) && stack != [] && q + 1 < |text|
    requires text[q] == '>' || (text[q] == '/' && text[q + 1] == '>' && q + 2 < |text|)
    ensures Run(text, endch, o, State(Attributes, q, stack + [Open(name, attrs, [])])) == Run(text, endch, o,
        if text[q] == '>' then State(Content, q + 1, stack + [Open(name, attrs, [])])
        else State(Content, q + 2, AddChild(stack, Element(name, attrs, []))))
  {
    hide AttrStep, Pop, AddChild, IsStartSymbol, IsSpace;
    NoSpace(text[q]);
    assert SkipSpace(text, q) == q;
    PopIs(stack, name, attrs, []);
    OneStep(text, endch, o, State(Attributes, q, stack + [Open(name, attrs, [])]));
  }

  /** A whole start tag or empty tag. */
  lemma RunStartTag(text: seq<char>, endch: char, o: Options, s: nat, stack: seq<Open>, name: seq<char>, fs: seq<Field>, gap: seq<char>)
    requires Terminated(text) && stack != [] && ValidName(name) && FieldsFormed(fs) && Blank(gap)
    requires Has(text, s, Opening(name, fs, gap))
    requires var q := s + |Opening(name, fs, gap)|;
      q + 1 < |text| && (text[q] == '>' || (text[q] == '/' && text[q + 1] == '>' && q + 2 < |text|))
    ensures var q, attrs := s + |Opening(name, fs, gap)|, FieldsMeaning(fs, o);
      Run(text, endch, o, State(Content, s, stack)) == Run(text, endch, o,
        if text[q] == '>' then State(Content, q + 1, stack + [Open(name, attrs, [])])
        else State(Content, q + 2, AddChild(stack, Element(name, attrs, []))))
  {
    hide Has, SpelledFields, Run, ValidName, FieldsFormed, Blank, AddChild;
    var q := s + |Opening(name, fs, gap)|;
    if SpelledFields(fs) + gap == [] {
      SomeFields(fs);
      assert Opening(name, fs, gap) == "<" + name;
      RunBare(text, endch, o, s, stack, name);
    } else {
      RunOpening(text, endch, o, s, stack, name, fs, gap);
      RunTagEnd(text, endch, o, q, stack, name, FieldsMeaning(fs, o));
    }
  }

  lemma SomeFields(fs: seq<Field>)
    ensures SpelledFields(fs) == [] <==> fs == []
  {
    if fs != [] { assert |SpelledField(fs[0])| > 0; }
  }

  /** An end tag, with white space before its bracket. */
  lemma RunEndTag(text: seq<char>, endch: char, o: Options, s: nat, below: seq<Open>, name: seq<char>, attrs: seq<Attr>,
                  children: seq<Node>, gap: seq<char>)
    requires Terminated(text) && below != [] && ValidName(name) && Blank(gap) && Has(text, s, "</" + name + gap + ">")
    requires s + |"</" + name + gap + ">"| < |text|
    ensures Run(text, endch, o, State(Content, s, below + [Open(name, attrs, children)]))
      == Run(text, endch, o, State(Content, s + |"</" + name + gap + ">"|, AddChild(below, Element(name, attrs, children))))
  {
    hide Has, ValidName, Blank, EndStep, AttributesStep, TextStep, StartStep, AddChild, IsSymbol, IsStartSymbol, IsSpace;
    HasParts(text, s, "</", name, gap, ">");
    HasAt(text, s, "</", 0);
    HasAt(text, s, "</", 1);
    var stack, e := below + [Open(name, attrs, children)], s + 2 + |name|;
    HasAt(text, e + |gap|, ">", 0);
    NoSpace('/');
    var tag := State(AtTag, s + 1, stack);
    EndTagStep(text, endch, s + 1, below, name, attrs, children, gap);
    OneStep(text, endch, o, State(Content, s, stack));
    OneStep(text, endch, o, tag);
  }

  lemma EndTagStep(text: seq<char>, endch: char, s: nat, below: seq<Open>, name: seq<char>, attrs: seq<Attr>,
                   children: seq<Node>, gap: seq<char>)
    requires Terminated(text) && below != [] && ValidName(name) && s < |text| && text[s] == '/' && Has(text, s + 1, name)
    requires Blank(gap) && Has(text, s + 1 + |name|, gap)
    requires var w := s + 1 + |name| + |gap|; w + 1 < |text| && text[w] == '>'
    ensures EndStep(text, endch, State(AtTag, s, below + [Open(name, attrs, children)]))
      == State(Content, s + 1 + |name| + |gap| + 1, AddChild(below, Element(name, attrs, children)))
  {
    hide Has, ValidName, Blank, SymbolEnd, SkipSpace, Pop, AddChild, IsSymbol, IsStartSymbol, IsSpace;
    var e := s + 1 + |name|;
    NoSpace('>');
    SkipBlank(text, e, gap);
    AfterGap(text, e, gap);
    NameAt(text, s + 1, name);
    PopIs(below, name, attrs, children);
  }

  lemma AfterGap(text: seq<char>, e: nat, gap: seq<char>)
    requires Blank(gap) && Has(text, e, gap) && e + |gap| < |text| && text[e + |gap|] == '>'
    ensures !IsSymbol(text[e])
  {
    NoSpace('>');
    if gap != [] {
      HasAt(text, e, gap, 0);
      SpaceIsNoSymbol(text[e]);
    }
  }

  // ----- character data

  /** The white space at the beginning of character data is what the parser skips. */
  lemma {:induction false} SkipTrim(text: seq<char>, s: nat, raw: seq<char>)
    requires Terminated(text) && Free(raw, '<') && Has(text, s, raw) && s + |raw| < |text|
    requires text[s + |raw|] == '<' || text[s + |raw|] == NUL
    ensures |TrimLeft(raw)| <= |raw|
    ensures SkipSpace(text, s) == s + |raw| - |TrimLeft(raw)| && Has(text, SkipSpace(text, s), TrimLeft(raw))
    ensures TrimLeft(raw) == [] <==> Blank(raw)
    ensures Free(TrimLeft(raw), '<')
    decreases |raw|
  {
    if raw != [] {
      HasAt(text, s, raw, 0);
      if IsSpace(raw[0]) {
        assert raw == raw[..1] + raw[1..];
        HasSplit(text, s, raw[..1], raw[1..]);
        SkipTrim(text, s + 1, raw[1..]);
      }
    }
  }

  /** Character data that is not dropped becomes a text. */
  lemma KeptStep(text: seq<char>, o: Options, s: nat, stack: seq<Open>, raw: seq<char>, alone: bool)
    requires Terminated(text) && |stack| > 1 && raw != [] && Free(raw, '<') && Has(text, s, raw + ['<'])
    requires var p := s + |raw|; p + 1 < |text| && text[p + 1] != NUL
    requires Blank(raw) ==> (alone <==> text[s + |raw| + 1] == '/' && stack[|stack| - 1].children == [])
    ensures s < |text| && text[s] != '<' && text[s] != NUL
    ensures TextStep(text, o, State(Content, s, stack)) ==
      if Kept(raw, alone, o) then State(AtTag, s + |raw| + 1, AddChild(stack, DataMeaning(raw, alone, o)[0]))
      else State(Content, s + |raw|, stack)
  {
    hide Has, Free, SkipSpace, TrimLeft, Converted, Convert, TrimRight, AddChild, IsSpace, Blank;
    HasSplit(text, s, raw, ['<']);
    HasAt(text, s + |raw|, ['<'], 0);
    FreeAt(text, s, raw);
    SkipTrim(text, s, raw);
    var w, tail := SkipSpace(text, s), TrimLeft(raw);
    HasJoin(text, w, tail, ['<']);
    ConvertedIs(text, s, raw, '<', o);
    ConvertedIs(text, w, tail, '<', o);
    if tail != [] { FreeAt(text, w, tail); }
  }

  lemma FreeAt(text: seq<char>, s: nat, raw: seq<char>)
    requires raw != [] && Free(raw, '<') && Has(text, s, raw)
    ensures s < |text| && text[s] != '<' && text[s] != NUL
  {
    HasAt(text, s, raw, 0);
  }

  /** Character data in an element, up to the bracket behind it. */
  lemma RunData(text: seq<char>, endch: char, o: Options, s: nat, stack: seq<Open>, raw: seq<char>, alone: bool)
    requires Terminated(text) && |stack| > 1 && raw != [] && Free(raw, '<') && Has(text, s, raw + ['<'])
    requires var p := s + |raw|; p + 1 < |text| && text[p + 1] != NUL
    requires Blank(raw) ==> (alone <==> text[s + |raw| + 1] == '/' && stack[|stack| - 1].children == [])
    ensures Run(text, endch, o, State(Content, s, stack))
      == Run(text, endch, o, State(Content, s + |raw|, AddChildren(stack, DataMeaning(raw, alone, o))))
  {
    hide Has, Free, Blank, Run, TextStep, AddChild, DataMeaning, Kept;
    var p := s + |raw|;
    KeptStep(text, o, s, stack, raw, alone);
    HasAt(text, s, raw + ['<'], |raw|);
    RunContentStep(text, endch, o, State(Content, s, stack));
    TextsOf(stack, raw, alone, o);
    if Kept(raw, alone, o) {
      RunContentStep(text, endch, o, State(Content, p, AddChild(stack, DataMeaning(raw, alone, o)[0])));
    }
  }

  lemma RunContentStep(text: seq<char>, endch: char, o: Options, st: State)
    requires Inv(text, st) && st.at == Content && text[st.s] != NUL
    ensures Run(text, endch, o, st) == Run(text, endch, o, if text[st.s] == '<' then State(AtTag, st.s + 1, st.stack) else TextStep(text, o, st))
  {
    hide TextStep;
    OneStep(text, endch, o, st);
  }

  lemma TextsOf(stack: seq<Open>, raw: seq<char>, alone: bool, o: Options)
    requires stack != []
    ensures var texts := DataMeaning(raw, alone, o);
      if Kept(raw, alone, o) then |texts| == 1 && AddChildren(stack, texts) == AddChild(stack, texts[0])
      else texts == [] && AddChildren(stack, texts) == stack
  {
    hide Kept, AddChild;
    var texts := DataMeaning(raw, alone, o);
    if texts != [] { assert texts[1..] == []; }
  }

  // ----- elements and their content

  lemma {:induction false} AddChildrenConcat(stack: seq<Open>, a: seq<Node>, b: seq<Node>)
    requires stack != []
    ensures AddChildren(AddChildren(stack, a), b) == AddChildren(stack, a + b)
    decreases |a|
  {
    if a == [] {
      assert [] + b == b;
    } else {
      assert (a + b)[1..] == a[1..] + b;
      AddChildrenConcat(AddChild(stack, a[0]), a[1..], b);
    }
  }

  lemma {:induction false} ChildrenOf(stack: seq<Open>, a: seq<Node>)
    requires stack != []
    ensures var top := AddChildren(stack, a)[|stack| - 1]; top.children == stack[|stack| - 1].children + a
    decreases |a|
  {
    if a == [] {
      assert stack[|stack| - 1].children + a == stack[|stack| - 1].children;
    } else {
      ChildrenOf(AddChild(stack, a[0]), a[1..]);
      var top := stack[|stack| - 1].children;
      assert top + [a[0]] + a[1..] == top + a;
    }
  }

  /** A tag begins with a bracket and a name. */
  lemma TagAt(text: seq<char>, s: nat, m: Markup)
    requires m.Tag? && Formed(m) && Has(text, s, Spelled(m))
    ensures s + 1 < |text| && text[s] == '<' && text[s + 1] != NUL && text[s + 1] != '/'
    ensures |Spelled(m)| > 1
  {
    hide SpelledFields, SpelledAll, FieldsFormed, FormedAll;
    HasAt(text, s, Spelled(m), 0);
    HasAt(text, s, Spelled(m), 1);
    assert Spelled(m)[0] == '<' && Spelled(m)[1] == m.name[0];
  }

  lemma SpelledAllCons(text: seq<char>, s: nat, ms: seq<Markup>)
    requires ms != [] && Has(text, s, SpelledAll(ms))
    ensures Has(text, s, Spelled(ms[0])) && Has(text, s + |Spelled(ms[0])|, SpelledAll(ms[1..]))
    ensures |SpelledAll(ms)| == |Spelled(ms[0])| + |SpelledAll(ms[1..])|
  {
    hide Has, Spelled;
    HasSplit(text, s, Spelled(ms[0]), SpelledAll(ms[1..]));
  }

  lemma NothingSpelled(o: Options, alone: bool)
    ensures SpelledAll([]) == [] && MeaningAll([], alone, o) == []
  {
  }

  lemma TagParts(text: seq<char>, s: nat, m: Markup)
    requires m.Tag? && Has(text, s, Spelled(m))
    ensures var q := s + |Opening(m.name, m.fields, m.gap)|;
      && Has(text, s, Opening(m.name, m.fields, m.gap)) && q + 1 < |text|
      && if m.content.Empty? then text[q] == '/' && text[q + 1] == '>' && s + |Spelled(m)| == q + 2
         else
           var e := q + 1 + |SpelledAll(m.content.inner)|;
           var end := "</" + m.name + m.content.gap + ">";
           && text[q] == '>' && Has(text, q + 1, SpelledAll(m.content.inner)) && Has(text, e, end)
           && text[e] == '<' && e + 1 < |text| && text[e + 1] == '/' && s + |Spelled(m)| == e + |end|
  {
    hide SpelledFields, SpelledAll, Has;
    var start := Opening(m.name, m.fields, m.gap);
    var q := s + |start|;
    if m.content.Empty? {
      HasSplit(text, s, start, "/>");
      HasAt(text, q, "/>", 0);
      HasAt(text, q, "/>", 1);
    } else {
      var inner, end := SpelledAll(m.content.inner), "</" + m.name + m.content.gap + ">";
      HasSplit(text, s, start, ">" + inner + end);
      HasSplit(text, q, ">" + inner, end);
      HasSplit(text, q, ">", inner);
      HasAt(text, q, ">", 0);
      HasAt(text, q + 1 + |inner|, end, 0);
      HasAt(text, q + 1 + |inner|, end, 1);
    }
  }

  /** An element, whatever its content. */
  lemma RunTag(text: seq<char>, endch: char, o: Options, s: nat, stack: seq<Open>, m: Markup, alone: bool)
    requires Terminated(text) && stack != [] && m.Tag? && Formed(m) && Has(text, s, Spelled(m)) && s + |Spelled(m)| < |text|
    ensures Run(text, endch, o, State(Content, s, stack))
      == Run(text, endch, o, State(Content, s + |Spelled(m)|, AddChildren(stack, Meaning(m, alone, o))))
    decreases m, 0
  {
    hide Has, Run, ValidName, FieldsFormed, Blank, SpelledFields, Opening, Spelled, SpelledAll, AddChild, FormedAll, MeaningAll;
    TagParts(text, s, m);
    var q, attrs := s + |Opening(m.name, m.fields, m.gap)|, FieldsMeaning(m.fields, o);
    RunStartTag(text, endch, o, s, stack, m.name, m.fields, m.gap);
    var nodes := Meaning(m, alone, o);
    assert nodes[1..] == [];
    if m.content.Full? {
      var inner, e := m.content.inner, q + 1 + |SpelledAll(m.content.inner)|;
      var open := stack + [Open(m.name, attrs, [])];
      RunContent(text, endch, o, q + 1, open, inner, |inner| == 1);
      var kids := MeaningAll(inner, |inner| == 1, o);
      AddChildrenIs(stack, m.name, attrs, [], kids);
      assert [] + kids == kids;
      RunEndTag(text, endch, o, e, stack, m.name, attrs, kids, m.content.gap);
    }
  }

  /** The content of an element, up to its end tag. */
  lemma RunContent(text: seq<char>, endch: char, o: Options, s: nat, stack: seq<Open>, ms: seq<Markup>, alone: bool)
    requires Terminated(text) && |stack| > 1 && FormedAll(ms) && Has(text, s, SpelledAll(ms))
    requires var e := s + |SpelledAll(ms)|; e + 1 < |text| && text[e] == '<' && text[e + 1] == '/'
    requires |ms| > 1 ==> !alone
    requires |ms| == 1 && ms[0].Data? ==> (alone <==> stack[|stack| - 1].children == [])
    ensures Run(text, endch, o, State(Content, s, stack))
      == Run(text, endch, o, State(Content, s + |SpelledAll(ms)|, AddChildren(stack, MeaningAll(ms, alone, o))))
    decreases ms, 1
  {
    hide Has, Run, Spelled, Formed, Meaning, SpelledAll, MeaningAll, AddChildren;
    NothingSpelled(o, alone);
    if ms == [] {
      NoChildren(stack);
    } else {
      SpelledAllCons(text, s, ms);
      MeaningCons(ms, alone, o);
      var f, first := s + |Spelled(ms[0])|, Meaning(ms[0], alone, o);
      if ms[0].Data? {
        if |ms| > 1 {
          SpelledAllCons(text, f, ms[1..]);
          TagAt(text, f, ms[1]);
        } else {
          assert ms[1..] == [];
        }
        RunDataItem(text, endch, o, s, stack, ms[0], alone);
      } else {
        RunTag(text, endch, o, s, stack, ms[0], alone);
        TagMeans(ms[0], alone, o);
      }
      ChildrenOf(stack, first);
      RunContent(text, endch, o, f, AddChildren(stack, first), ms[1..], alone);
      AddChildrenConcat(stack, first, MeaningAll(ms[1..], alone, o));
    }
  }

  lemma NoChildren(stack: seq<Open>)
    requires stack != []
    ensures AddChildren(stack, []) == stack
  {
  }

  lemma MeaningCons(ms: seq<Markup>, alone: bool, o: Options)
    requires ms != []
    ensures MeaningAll(ms, alone, o) == Meaning(ms[0], alone, o) + MeaningAll(ms[1..], alone, o)
  {
    hide Meaning;
  }

  lemma TagMeans(m: Markup, alone: bool, o: Options)
    requires m.Tag?
    ensures |Meaning(m, alone, o)| == 1 && Meaning(m, alone, o)[0].Element?
  {
  }

  lemma RunDataItem(text: seq<char>, endch: char, o: Options, s: nat, stack: seq<Open>, m: Markup, alone: bool)
    requires Terminated(text) && |stack| > 1 && m.Data? && Formed(m) && Has(text, s, Spelled(m))
    requires var p := s + |Spelled(m)|; p + 1 < |text| && text[p] == '<' && text[p + 1] != NUL
    requires alone <==> text[s + |Spelled(m)| + 1] == '/' && stack[|stack| - 1].children == []
    ensures Run(text, endch, o, State(Content, s, stack))
      == Run(text, endch, o, State(Content, s + |Spelled(m)|, AddChildren(stack, Meaning(m, alone, o))))
  {
    hide Run, AddChildren;
    assert text[s..s + |m.raw| + 1] == m.raw + ['<'];
    RunData(text, endch, o, s, stack, m.raw, alone);
  }

  // ----- documents

  /** An element at least; character data around the elements may be anything. */
  ghost predicate DocumentFormed(ms: seq<Markup>)
  {
    FormedAll(ms) && exists i | 0 <= i < |ms| :: ms[i].Tag?
  }

  ghost function DocumentMeaning(ms: seq<Markup>, o: Options): seq<Node>
  {
    if ms == [] then [] else (if ms[0].Tag? then Meaning(ms[0], false, o) else []) + DocumentMeaning(ms[1..], o)
  }

  /** The next tag is the first there is. */
  lemma {:induction false} TagStartIs(text: seq<char>, s: nat, raw: seq<char>)
    requires Terminated(text) && Free(raw, '<') && Has(text, s, raw) && s + |raw| < |text|
    requires text[s + |raw|] == '<' || text[s + |raw|] == NUL
    ensures TagStart(text, s) == s + |raw|
    decreases |raw|
  {
    if raw != [] {
      HasAt(text, s, raw, 0);
      assert raw == raw[..1] + raw[1..];
      HasSplit(text, s, raw[..1], raw[1..]);
      TagStartIs(text, s + 1, raw[1..]);
    }
  }

  /** Character data around the elements of a document is passed over. */
  lemma RunAround(text: seq<char>, endch: char, o: Options, s: nat, root: Open, raw: seq<char>)
    requires Terminated(text) && !o.fragment && raw != [] && Free(raw, '<') && Has(text, s, raw)
    requires var p := s + |raw|; p < |text| && (text[p] == NUL || text[p] == '<')
    ensures Run(text, endch, o, State(Content, s, [root])) == Run(text, endch, o, State(Content, s + |raw|, [root]))
  {
    hide Has, Blank, Free, IsSpace, Convert, TrimRight, TrimLeft, StartStep, EndStep, AttributesStep, KeepsSpace, SkipSpace, TagStart;
    var st, p := State(Content, s, [root]), s + |raw|;
    FreeAt(text, s, raw);
    SkipTrim(text, s, raw);
    var w, tail := SkipSpace(text, s), TrimLeft(raw);
    TagStartIs(text, w, tail);
    if tail != [] { FreeAt(text, w, tail); }
    OneStep(text, endch, o, st);
    if Step(text, endch, o, st).at == AtTag { OneStep(text, endch, o, State(Content, p, [root])); }
  }

  /** All there is, up to the NUL. */
  lemma {:induction false} RunTopLevel(text: seq<char>, endch: char, o: Options, s: nat, root: Open, ms: seq<Markup>)
    requires Terminated(text) && !o.fragment && FormedAll(ms) && Has(text, s, SpelledAll(ms))
    requires var e := s + |SpelledAll(ms)|; e < |text| && text[e] == NUL
    ensures Run(text, endch, o, State(Content, s, [root]))
      == Run(text, endch, o, State(Content, s + |SpelledAll(ms)|, AddChildren([root], DocumentMeaning(ms, o))))
    decreases |ms|
  {
    hide Has, Run, Spelled, Formed, Meaning, SpelledAll, AddChildren, Blank, Free;
    NothingSpelled(o, false);
    NoChildren([root]);
    if ms != [] {
      SpelledAllCons(text, s, ms);
      var f := s + |Spelled(ms[0])|;
      var first := if ms[0].Tag? then Meaning(ms[0], false, o) else [];
      if ms[0].Tag? {
        RunTag(text, endch, o, s, [root], ms[0], false);
      } else {
        if |ms| > 1 {
          SpelledAllCons(text, f, ms[1..]);
          TagAt(text, f, ms[1]);
        } else {
          assert ms[1..] == [];
        }
        DataFormed(ms[0]);
        RunAround(text, endch, o, s, root, ms[0].raw);
      }
      var root' := AddChildren([root], first)[0];
      assert AddChildren([root], first) == [root'];
      RunTopLevel(text, endch, o, f, root', ms[1..]);
      AddChildrenConcat([root], first, DocumentMeaning(ms[1..], o));
    }
  }

  lemma DataFormed(m: Markup)
    requires m.Data? && Formed(m)
    ensures m.raw != [] && Free(m.raw, '<') && Spelled(m) == m.raw
  {
  }

  lemma {:induction false} HoldsElement(ms: seq<Markup>, o: Options)
    ensures HasElement(DocumentMeaning(ms, o)) <==> exists i | 0 <= i < |ms| :: ms[i].Tag?
    decreases ms
  {
    hide Meaning;
    if ms != [] {
      var first: seq<Node>, rest := if ms[0].Tag? then Meaning(ms[0], false, o) else [], DocumentMeaning(ms[1..], o);
      HoldsElement(ms[1..], o);
      if ms[0].Tag? {
        TagMeans(ms[0], false, o);
        assert (first + rest)[0].Element?;
      } else {
        assert first + rest == rest;
        assert forall i | 0 < i < |ms| :: ms[i] == ms[1..][i - 1];
      }
    }
  }

  /** The whole run. */
  lemma {:induction false} RunMarkup(text: seq<char>, o: Options, s: nat, ms: seq<Markup>)
    requires FormedAll(ms) && !o.fragment && Terminated(text) && Has(text, s, SpelledAll(ms)) && |text| == s + |SpelledAll(ms)| + 1
    ensures Run(text, NUL, o, State(Content, s, [Open([], [], [])]))
      == State(Done, s + |SpelledAll(ms)|, [Open([], [], DocumentMeaning(ms, o))])
  {
    hide Has, SpelledAll, DocumentMeaning, Run, Blank, FormedAll;
    var root, nodes := Open([], [], []), DocumentMeaning(ms, o);
    RunTopLevel(text, NUL, o, s, root, ms);
    AddChildrenIs([], [], [], [], nodes);
    assert [] + [root] == [root] && [] + nodes == nodes;
    var last := State(Content, s + |SpelledAll(ms)|, [Open([], [], nodes)]);
    var done := State(Done, s + |SpelledAll(ms)|, last.stack);
    assert AddChildren([root], nodes) == last.stack;
    assert Step(text, NUL, o, last) == done;
    OneStep(text, NUL, o, last);
    RunDone(text, NUL, o, done);
  }

  const MARK := [0xEF as char, 0xBB as char, 0xBF as char]

  lemma FirstOfTag(ms: seq<Markup>)
    requires FormedAll(ms) && ms != []
    ensures SpelledAll(ms) != [] && (ms[0].Tag? ==> SpelledAll(ms)[0] == '<')
    ensures ms[0].Data? ==> SpelledAll(ms)[0] != '<'
  {
    hide FieldsFormed, SpelledFields;
    if ms[0].Data? { assert ms[0].raw[0] != '<'; }
  }

  /** A byte order mark is part of the character data before the first element, and the parser passes it over. */
  lemma {:induction false} Unmarked(ms: seq<Markup>, o: Options) returns (rest: seq<Markup>)
    requires FormedAll(ms) && MARK <= SpelledAll(ms)
    ensures FormedAll(rest) && SpelledAll(ms) == MARK + SpelledAll(rest) && DocumentMeaning(rest, o) == DocumentMeaning(ms, o)
  {
    hide Meaning;
    var text := SpelledAll(ms);
    assert text[0] == MARK[0] && text[1] == MARK[1] && text[2] == MARK[2];
    FirstOfTag(ms);
    var raw := ms[0].raw;
    assert text == raw + SpelledAll(ms[1..]);
    if |ms| > 1 {
      FirstOfTag(ms[1..]);
      assert text[|raw|] == '<';
    } else {
      assert ms[1..] == [];
    }
    assert raw[..3] == text[..3] == MARK && raw == MARK + raw[3..];
    if |raw| == 3 {
      rest := ms[1..];
    } else {
      rest := [Data(raw[3..])] + ms[1..];
      assert rest[1..] == ms[1..];
    }
  }

  /**
   The parser finds what a document means, however it is written, whatever the options
   for its character data.
   */
  lemma {:induction false} DocumentParsed(ms: seq<Markup>, o: Options)
    requires DocumentFormed(ms) && !o.fragment
    ensures Parse(SpelledAll(ms) + [NUL], o) == Parsed(DocumentMeaning(ms, o))
  {
    hide SpelledAll, DocumentMeaning, Run, Blank, FormedAll;
    var text := SpelledAll(ms) + [NUL];
    assert text[..|text| - 1] == SpelledAll(ms) && text[..|SpelledAll(ms)|] == SpelledAll(ms);
    HoldsElement(ms, o);
    if |text| > 3 && text[..3] == MARK {
      assert MARK <= SpelledAll(ms);
      var rest := Unmarked(ms, o);
      assert text[3..3 + |SpelledAll(rest)|] == SpelledAll(rest);
      RunMarkup(text, o, 3, rest);
    } else {
      RunMarkup(text, o, 0, ms);
    }
  }

  lemma RunDone(text: seq<char>, endch: char, o: Options, st: State)
    requires Inv(text, st) && Final(st.at)
    ensures Run(text, endch, o, st) == st
  {
  }

  // ----- what is not well formed

  /** An end tag of another name. */
  lemma WrongEndTag(text: seq<char>, endch: char, o: Options, s: nat, stack: seq<Open>, name: seq<char>, gap: seq<char>)
    requires Terminated(text) && |stack| > 1 && stack[|stack| - 1].name != name && ValidName(name) && Blank(gap)
    requires Has(text, s, "</" + name + gap + ">") && s + |"</" + name + gap + ">"| < |text|
    ensures Run(text, endch, o, State(Content, s, stack)).at == Failed(EndElementMismatch)
  {
    hide Has, ValidName, Blank, AttributesStep, TextStep, StartStep, SymbolEnd, IsSymbol, IsStartSymbol, IsSpace;
    HasParts(text, s, "</", name, gap, ">");
    HasAt(text, s, "</", 0);
    HasAt(text, s, "</", 1);
    var e := s + 2 + |name|;
    HasAt(text, e + |gap|, ">", 0);
    NoSpace('/');
    AfterGap(text, e, gap);
    NameAt(text, s + 2, name);
    if gap != [] { HasAt(text, e, gap, 0); }
    var tag := State(AtTag, s + 1, stack);
    NotNul(text, e, gap);
    assert EndStep(text, endch, tag).at == Failed(EndElementMismatch);
    hide EndStep, Run;
    OneStep(text, endch, o, State(Content, s, stack));
    OneStep(text, endch, o, tag);
    RunDone(text, endch, o, Step(text, endch, o, tag));
  }

  lemma NotNul(text: seq<char>, e: nat, gap: seq<char>)
    requires Blank(gap) && Has(text, e, gap) && e + |gap| < |text| && text[e + |gap|] == '>'
    ensures text[e] != NUL
  {
    if gap != [] {
      HasAt(text, e, gap, 0);
      SpaceIsNoSymbol(text[e]);
    }
  }

  /** The end of the text while an element is open. */
  lemma Unclosed(text: seq<char>, endch: char, o: Options, s: nat, stack: seq<Open>)
    requires Terminated(text) && |stack| > 1 && s < |text| && text[s] == NUL
    ensures Run(text, endch, o, State(Content, s, stack)).at == Failed(EndElementMismatch)
  {
    var st := State(Content, s, stack);
    OneStep(text, endch, o, st);
    RunDone(text, endch, o, Step(text, endch, o, st));
  }

  // ----- the printer writes markup

  /** How the printer writes a node: one blank before attributes and before the slash, double quotes. */
  ghost function AsField(a: Attr): Field
  {
    Field(" ", a.name, "", "", '"', Escaped(a.value, true))
  }

  ghost function AsFields(attrs: seq<Attr>): seq<Field>
  {
    if attrs == [] then [] else [AsField(attrs[0])] + AsFields(attrs[1..])
  }

  ghost function AsMarkup(node: Node): Markup
    decreases node
  {
    match node
    case Text(value) => Data(Escaped(value, false))
    case Element(name, attrs, children) =>
      if children == [] then Tag(name, AsFields(attrs), " ", Empty)
      else Tag(name, AsFields(attrs), "", Full(AsMarkupAll(children), ""))
  }

  ghost function AsMarkupAll(nodes: seq<Node>): seq<Markup>
    decreases nodes
  {
    if nodes == [] then [] else [AsMarkup(nodes[0])] + AsMarkupAll(nodes[1..])
  }

  /** Printed text holds none of the characters that would end it, nor any control character but those allowed. */
  lemma {:induction false} EscapedSafe(value: seq<char>, attr: bool)
    ensures forall c | c in Escaped(value, attr) :: c != '<' && c != '>' && (attr ==> c != '"')
    ensures forall c | c in Escaped(value, attr) :: c as int >= 32 || c == TAB || (!attr && (c == LF || c == CR))
    decreases |value|
  {
    if value != [] { EscapedSafe(value[1..], attr); }
  }

  /** A character is printed as it stands exactly if it is none of these. */
  lemma EscapedExactly(c: char, attr: bool)
    ensures EscapedChar(c, attr) == [c] <==>
      c !in "<>&" && (attr ==> c != '"') && (c as int >= 32 || c == TAB || (!attr && (c == LF || c == CR)))
  {
  }

  lemma {:induction false} PrintsFields(attrs: seq<Attr>)
    requires NormalAttrs(attrs)
    ensures FieldsFormed(AsFields(attrs)) && SpelledFields(AsFields(attrs)) == PrintAttrs(attrs)
    decreases |attrs|
  {
    if attrs != [] {
      hide Escaped, PrintAttr, ValidName;
      PrintsFields(attrs[1..]);
      var fs := AsFields(attrs);
      assert fs[1..] == AsFields(attrs[1..]);
      PrintsField(attrs[0]);
      assert forall i | 0 < i < |fs| :: fs[i] == fs[1..][i - 1];
    }
  }

  lemma {:induction false} PrintsField(a: Attr)
    requires ValidName(a.name) && Printable(a.value, true)
    ensures FieldFormed(AsField(a)) && SpelledField(AsField(a)) == PrintAttr(a)
  {
    hide Escaped, ValidName;
    EscapedSafe(a.value, true);
    var v := Escaped(a.value, true);
    assert forall i | 0 <= i < |v| :: v[i] in v;
    assert " " + a.name + "" + ['='] + "" + ['"'] + (v + ['"']) == " " + a.name + "=\"" + v + "\"";
  }

  /** What is printed for a node in normal form is well-formed markup of this form. */
  lemma {:induction false} PrintsMarkup(node: Node)
    requires Normal(node)
    ensures Formed(AsMarkup(node)) && Spelled(AsMarkup(node)) == Print(node) && (AsMarkup(node).Data? <==> node.Text?)
    decreases node, 0
  {
    match node
    case Text(value) =>
      EscapedSafe(value, false);
      var v := Escaped(value, false);
      assert forall i | 0 <= i < |v| :: v[i] in v;
      assert |EscapedChar(value[0], false)| > 0;
    case Element(name, attrs, children) =>
      hide SpelledFields, PrintAttrs, FieldsFormed, AsFields, ValidName, SpelledAll, PrintAll, FormedAll, AsMarkupAll;
      PrintsFields(attrs);
      PrintsMarkupAll(children);
      PrintsTag(name, PrintAttrs(attrs), PrintAll(children));
  }

  lemma PrintsTag(name: seq<char>, attrs: seq<char>, children: seq<char>)
    ensures "<" + name + attrs + " " + "/>" == "<" + name + attrs + " />"
    ensures "<" + name + attrs + "" + (">" + children + ("</" + name + "" + ">"))
      == "<" + name + attrs + (">" + children + PrintEnd(name))
  {
    var start := "<" + name + attrs;
    assert start + " " + "/>" == start + " />" && start + "" == start;
    assert PrintEnd(name) == "</" + name + "" + ">";
  }

  lemma {:induction false} PrintsMarkupAll(nodes: seq<Node>)
    requires NormalAll(nodes)
    ensures FormedAll(AsMarkupAll(nodes)) && SpelledAll(AsMarkupAll(nodes)) == PrintAll(nodes) && |AsMarkupAll(nodes)| == |nodes|
    ensures nodes != [] ==> (AsMarkupAll(nodes)[0].Data? <==> nodes[0].Text?)
    decreases nodes, 1
  {
    hide AsMarkup, Normal, Formed, Spelled, Print;
    if nodes != [] {
      PrintsMarkup(nodes[0]);
      PrintsMarkupAll(nodes[1..]);
      var ms := AsMarkupAll(nodes);
      assert ms[1..] == AsMarkupAll(nodes[1..]);
    }
  }
}
