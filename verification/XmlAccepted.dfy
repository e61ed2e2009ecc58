/**
 What the parser accepts: exactly the texts that some well formed markup spells.  From
 a run that ends well the markup is found, tag by tag; the other direction is the
 parser's reading of markup.
 */
module XmlAccepted {
  import opened XmlText
  import opened XmlReferences
  import opened XmlParse
  import opened XmlRoundTrip
  import opened XmlMarkup

  /** A buffer with no NUL but the last. */
  ghost predicate Whole(text: seq<char>)
  {
    Terminated(text) && forall k | 0 <= k < |text| - 1 :: text[k] != NUL
  }

  /** The run of a whole document from st on ends well. */
  ghost predicate Accepts(text: seq<char>, o: Options, st: State)
  {
    Whole(text) && !o.fragment && Inv(text, st) && Run(text, NUL, o, st).at.Done?
  }

  /** The runs from both states end alike. */
  ghost predicate SameRun(text: seq<char>, o: Options, a: State, b: State)
  {
    Inv(text, a) && Inv(text, b) && Run(text, NUL, o, a) == Run(text, NUL, o, b)
  }

  /** The same elements are open. */
  ghost predicate SameNames(a: seq<Open>, b: seq<Open>)
  {
    |a| == |b| && forall i | 0 <= i < |a| :: a[i].name == b[i].name
  }

  lemma Onward(text: seq<char>, o: Options, st: State)
    requires Accepts(text, o, st) && !Final(st.at)
    ensures var r := Step(text, NUL, o, st); !r.at.Failed? && Accepts(text, o, r) && SameRun(text, o, st, r)
  {
    hide Step;
    OneStep(text, NUL, o, st);
    var r := Step(text, NUL, o, st);
    if r.at.Failed? { RunDone(text, NUL, o, r); }
  }

  /** The first place from s on of the character end or the NUL. */
  ghost function Till(text: seq<char>, s: nat, end: char): (e: nat)
    requires Terminated(text) && s < |text|
    ensures s <= e < |text| && (text[e] == end || text[e] == NUL)
    ensures forall k | s <= k < e :: text[k] != end && text[k] != NUL
    decreases |text| - s
  {
    if text[s] == end || text[s] == NUL then s else Till(text, s + 1, end)
  }

  lemma HasSlice(text: seq<char>, s: nat, e: nat)
    requires s <= e <= |text|
    ensures Has(text, s, text[s..e]) && |text[s..e]| == e - s
  {
  }

  lemma FreeTill(text: seq<char>, s: nat, end: char)
    requires Terminated(text) && s < |text|
    ensures Free(text[s..Till(text, s, end)], end)
  {
    hide Till;
  }

  lemma ConvertTill(text: seq<char>, s: nat, end: char, o: Options)
    requires Whole(text) && s < |text| && Ends(end)
    ensures Convert(text, s, end, o.eol, o.escapes).stop == Till(text, s, end)
  {
    hide Convert, Till, Free;
    var e := Till(text, s, end);
    if text[e] == end {
      FreeTill(text, s, end);
      HasSlice(text, s, e);
      assert text[s..e + 1] == text[s..e] + [end];
      HasSlice(text, s, e + 1);
      ConvertedIs(text, s, text[s..e], end, o);
    }
  }

  lemma {:induction false} SkipIs(text: seq<char>, s: nat)
    requires Terminated(text) && s < |text|
    ensures Blank(text[s..SkipSpace(text, s)])
    decreases |text| - s
  {
    if IsSpace(text[s]) {
      SkipIs(text, s + 1);
      var e := SkipSpace(text, s);
      assert text[s..e] == [text[s]] + text[s + 1..e];
    }
  }

  lemma NameFound(text: seq<char>, s: nat)
    requires Terminated(text) && s < |text| && IsStartSymbol(text[s])
    ensures var e := SymbolEnd(text, s); e > s && ValidName(text[s..e])
  {
    hide IsStartSymbol;
    assert IsSymbol(text[s]) by { StartIsSymbol(text[s]); }
  }

  lemma StartIsSymbol(c: char)
    requires IsStartSymbol(c)
    ensures IsSymbol(c)
  {
  }

  // ----- tags

  lemma PopNames(stack: seq<Open>)
    requires |stack| > 1
    ensures SameNames(Pop(stack), stack[..|stack| - 1])
  {
  }

  /** An end tag is that of the element open last. */
  lemma EndFound(text: seq<char>, o: Options, s: nat, stack: seq<Open>) returns (gap: seq<char>, e: nat)
    requires Accepts(text, o, State(AtTag, s + 1, stack)) && text[s] == '<' && text[s + 1] == '/'
    ensures |stack| > 1 && Blank(gap) && s < e < |text|
    ensures Has(text, s, "</" + stack[|stack| - 1].name + gap + ">")
    ensures e == s + |"</" + stack[|stack| - 1].name + gap + ">"|
    ensures SameRun(text, o, State(AtTag, s + 1, stack), State(XmlParse.Content, e, Pop(stack)))
  {
    hide Run, SymbolEnd, SkipSpace, AttributesStep, StartStep, Pop, IsSymbol, IsStartSymbol;
    NoSpace('/');
    var st := State(AtTag, s + 1, stack);
    Onward(text, o, st);
    var n := SymbolEnd(text, s + 2);
    var w := SkipSpace(text, n);
    SkipIs(text, n);
    gap := text[n..w];
    e := w + 1;
    assert text[s..e] == "</" + text[s + 2..n] + gap + ">";
  }

  /** White space before the tag's end or before the next attribute, whether or not one blank is already behind. */
  ghost predicate Before(text: seq<char>, s: nat, n: nat)
  {
    && Terminated(text) && s <= n <= s + 1 && n < |text|
    && if n == s then !IsStartSymbol(text[s]) else IsSpace(text[s])
  }

  lemma SkipFrom(text: seq<char>, s: nat, n: nat)
    requires Before(text, s, n)
    ensures s < |text| && SkipSpace(text, s) == SkipSpace(text, n) && Blank(text[s..SkipSpace(text, s)])
    ensures IsStartSymbol(text[SkipSpace(text, s)]) ==> SkipSpace(text, s) > s
  {
    hide Blank, IsStartSymbol, IsSpace;
    SkipIs(text, s);
  }

  /** The four places of an attribute that is read: behind its name, its sign, its first quote and its second. */
  lemma AttrPlaces(text: seq<char>, o: Options, st: State) returns (e: nat, p: nat, q: nat, end: nat)
    requires Whole(text) && Inv(text, st) && st.at == Attributes && IsStartSymbol(text[st.s])
    requires !AttrStep(text, o, st).at.Failed?
    ensures st.s < e <= p < p + 1 <= q < q + 1 <= end < end + 1 < |text|
    ensures ValidName(text[st.s..e]) && Blank(text[e..p]) && text[p] == '=' && Blank(text[p + 1..q])
    ensures (text[q] == '"' || text[q] == '\'') && Free(text[q + 1..end], text[q]) && text[end] == text[q]
    ensures var r := AttrStep(text, o, st);
      r.at == Attributes && r.s == end + 1 && SameNames(r.stack, st.stack) && !IsStartSymbol(text[end + 1])
  {
    hide SymbolEnd, SkipSpace, Convert, IsStartSymbol, Till, Free, Blank, ValidName;
    NameFound(text, st.s);
    e := SymbolEnd(text, st.s);
    SkipIs(text, e);
    p := SkipSpace(text, e);
    NoSkip(text, e);
    SkipIs(text, p + 1);
    q := SkipSpace(text, p + 1);
    ConvertTill(text, q + 1, text[q], o);
    FreeTill(text, q + 1, text[q]);
    end := Till(text, q + 1, text[q]);
  }

  lemma NoSkip(text: seq<char>, e: nat)
    requires Terminated(text) && e < |text|
    ensures !IsSpace(text[e]) ==> SkipSpace(text, e) == e
  {
  }

  lemma FieldSpelled(text: seq<char>, s: nat, w: nat, b: nat, p: nat, q: nat, end: nat)
    requires s <= w <= b <= p < q < end < |text| && text[p] == '=' && text[end] == text[q]
    ensures text[s..end + 1]
      == SpelledField(Field(text[s..w], text[w..b], text[b..p], text[p + 1..q], text[q], text[q + 1..end]))
  {
    assert text[s..b] == text[s..w] + text[w..b];
    assert text[s..p] == text[s..b] + text[b..p];
    assert text[s..p + 1] == text[s..p] + ['='];
    assert text[s..q] == text[s..p + 1] + text[p + 1..q];
    assert text[s..q + 1] == text[s..q] + [text[q]];
    assert text[q + 1..end + 1] == text[q + 1..end] + [text[q]];
    assert text[s..end + 1] == text[s..q + 1] + text[q + 1..end + 1];
  }

  /** An attribute with the white space before it. */
  lemma FieldFound(text: seq<char>, o: Options, s: nat, n: nat, stack: seq<Open>) returns (f: Field, e: nat, stack': seq<Open>)
    requires |stack| > 1 && Before(text, s, n) && Accepts(text, o, State(Attributes, n, stack))
    requires s < |text| && IsStartSymbol(text[SkipSpace(text, s)])
    ensures FieldFormed(f) && Has(text, s, SpelledField(f)) && e == s + |SpelledField(f)| && n < e < |text|
    ensures !IsStartSymbol(text[e]) && SameNames(stack', stack)
    ensures SameRun(text, o, State(Attributes, n, stack), State(Attributes, e, stack'))
  {
    hide Run, AttrStep, SkipSpace, IsStartSymbol, Free, Blank, ValidName, Before, SpelledField;
    SkipFrom(text, s, n);
    var w, st := SkipSpace(text, s), State(Attributes, n, stack);
    Onward(text, o, st);
    var b, p, q, end := AttrPlaces(text, o, st.(s := w));
    f := Field(text[s..w], text[w..b], text[b..p], text[p + 1..q], text[q], text[q + 1..end]);
    e := end + 1;
    stack' := Step(text, NUL, o, st).stack;
    FieldSpelled(text, s, w, b, p, q, end);
    HasSlice(text, s, e);
  }

  /** The end of a tag: with content to follow, or of an element that is empty. */
  ghost predicate TagEnd(text: seq<char>, q: nat)
  {
    q + 1 < |text| && (text[q] == '>' || (text[q] == '/' && text[q + 1] == '>' && q + 2 < |text|))
  }

  /** Where the run stands behind the end of a tag. */
  ghost function Behind(text: seq<char>, q: nat, stack: seq<Open>): State
    requires TagEnd(text, q) && |stack| > 1
  {
    if text[q] == '>' then State(XmlParse.Content, q + 1, stack) else State(XmlParse.Content, q + 2, Pop(stack))
  }

  /** No more attributes. */
  lemma GapFound(text: seq<char>, o: Options, s: nat, n: nat, stack: seq<Open>) returns (gap: seq<char>, q: nat)
    requires |stack| > 1 && Before(text, s, n) && Accepts(text, o, State(Attributes, n, stack))
    requires s < |text| && !IsStartSymbol(text[SkipSpace(text, s)])
    ensures Blank(gap) && Has(text, s, gap) && q == s + |gap| && TagEnd(text, q)
    ensures SameRun(text, o, State(Attributes, n, stack), Behind(text, q, stack))
  {
    hide Run, AttrStep, SkipSpace, IsStartSymbol, Blank, Before, Pop;
    SkipFrom(text, s, n);
    q := SkipSpace(text, s);
    gap := text[s..q];
    Onward(text, o, State(Attributes, n, stack));
  }

  lemma FieldsCons(f: Field, fs: seq<Field>)
    requires FieldFormed(f) && FieldsFormed(fs)
    ensures FieldsFormed([f] + fs) && SpelledFields([f] + fs) == SpelledField(f) + SpelledFields(fs)
  {
    hide FieldFormed, SpelledField;
    assert ([f] + fs)[1..] == fs;
  }

  /** The rest of a tag from its name on. */
  lemma {:induction false} FieldsFound(text: seq<char>, o: Options, s: nat, n: nat, stack: seq<Open>)
    returns (fs: seq<Field>, gap: seq<char>, q: nat, stack': seq<Open>)
    requires |stack| > 1 && Before(text, s, n) && Accepts(text, o, State(Attributes, n, stack))
    ensures FieldsFormed(fs) && Blank(gap) && Has(text, s, SpelledFields(fs) + gap) && q == s + |SpelledFields(fs) + gap|
    ensures TagEnd(text, q) && SameNames(stack', stack)
    ensures SameRun(text, o, State(Attributes, n, stack), Behind(text, q, stack'))
    decreases |text| - n
  {
    hide Run, Step, IsStartSymbol, Blank, Before, Pop, SkipSpace, FieldFormed, FieldsFormed, SpelledField, SpelledFields, Has, TagEnd, Behind;
    SkipFrom(text, s, n);
    if IsStartSymbol(text[SkipSpace(text, s)]) {
      var f, e, stack1 := FieldFound(text, o, s, n, stack);
      Stands(text, e);
      var rest: seq<Field>;
      rest, gap, q, stack' := FieldsFound(text, o, e, e, stack1);
      FieldsCons(f, rest);
      fs := [f] + rest;
      HasJoin(text, s, SpelledField(f), SpelledFields(rest) + gap);
      assert SpelledField(f) + (SpelledFields(rest) + gap) == SpelledFields(fs) + gap;
    } else {
      gap, q := GapFound(text, o, s, n, stack);
      fs, stack' := [], stack;
      NothingMore();
      assert [] + gap == gap;
    }
  }

  lemma NothingMore()
    ensures FieldsFormed([]) && SpelledFields([]) == []
  {
  }

  lemma Stands(text: seq<char>, e: nat)
    requires Terminated(text) && e < |text| && !IsStartSymbol(text[e])
    ensures Before(text, e, e)
  {
  }

  /** The names of the open elements with one more. */
  lemma NamesPushed(stack: seq<Open>, name: seq<char>, stack': seq<Open>)
    requires SameNames(stack', stack + [Open(name, [], [])])
    ensures |stack'| == |stack| + 1 && stack'[|stack|].name == name && SameNames(stack'[..|stack|], stack)
  {
    var top := stack + [Open(name, [], [])];
    assert stack'[|stack|].name == top[|stack|].name;
    forall i | 0 <= i < |stack| ensures stack'[i].name == stack[i].name {
      assert top[i] == stack[i];
    }
  }

  lemma SameHere(text: seq<char>, o: Options, st: State)
    requires Inv(text, st)
    ensures SameRun(text, o, st, st) && SameNames(st.stack, st.stack)
  {
    hide Run;
  }

  /** A start tag or an empty tag, without its end. */
  lemma OpeningFound(text: seq<char>, o: Options, s: nat, stack: seq<Open>)
    returns (name: seq<char>, fs: seq<Field>, gap: seq<char>, q: nat, stack': seq<Open>)
    requires Accepts(text, o, State(AtTag, s + 1, stack)) && text[s] == '<' && text[s + 1] != '/'
    ensures ValidName(name) && FieldsFormed(fs) && Blank(gap)
    ensures Has(text, s, Opening(name, fs, gap)) && q == s + |Opening(name, fs, gap)|
    ensures SameNames(stack', stack + [Open(name, [], [])]) && TagEnd(text, q)
    ensures SameRun(text, o, State(AtTag, s + 1, stack), Behind(text, q, stack'))
  {
    hide Run, SymbolEnd, AttributesStep, EndStep, Pop, IsSymbol, IsStartSymbol, IsSpace, ValidName, Blank, SpelledFields, FieldsFormed;
    var st := State(AtTag, s + 1, stack);
    Onward(text, o, st);
    NameFound(text, s + 1);
    var e := SymbolEnd(text, s + 1);
    name := text[s + 1..e];
    var pushed := stack + [Open(name, [], [])];
    assert text[s..e] == "<" + name;
    HasSlice(text, s, e);
    if IsSpace(text[e]) {
      SpaceNot(text[e]);
      StandsBehind(text, e);
      fs, gap, q, stack' := FieldsFound(text, o, e, e + 1, pushed);
      HasJoin(text, s, "<" + name, SpelledFields(fs) + gap);
      assert "<" + name + (SpelledFields(fs) + gap) == Opening(name, fs, gap);
    } else {
      fs, gap, q, stack' := [], [], e, pushed;
      NothingMore();
      BlankNothing();
      assert Opening(name, fs, gap) == "<" + name;
    }
  }

  lemma BlankNothing()
    ensures Blank([])
  {
  }

  lemma StandsBehind(text: seq<char>, e: nat)
    requires Terminated(text) && e + 1 < |text| && IsSpace(text[e])
    ensures Before(text, e, e + 1)
  {
  }

  // ----- character data

  /** Whatever becomes of character data, it ends at the next bracket or at the NUL. */
  lemma TextLands(text: seq<char>, o: Options, st: State) returns (p: nat)
    requires Whole(text) && !o.fragment && Inv(text, st) && text[st.s] != NUL && text[st.s] != '<'
    ensures st.s < p < |text| && (text[p] == '<' || text[p] == NUL) && Free(text[st.s..p], '<')
    ensures SameNames(TextStep(text, o, st).stack, st.stack)
    ensures var r := TextStep(text, o, st);
      || r == State(XmlParse.Content, p, r.stack)
      || (text[p] == '<' && r == State(AtTag, p + 1, r.stack))
      || (|st.stack| > 1 && text[p] == '<' && r == State(XmlParse.Content, p + 1, r.stack) && text[p + 1] == NUL)
  {
    hide Convert, SkipSpace, TagStart, TrimRight, TrimLeft, KeepsSpace, IsSpace, Free, Blank, Till;
    FreeTill(text, st.s, '<');
    p := Till(text, st.s, '<');
    var raw := text[st.s..p];
    HasSlice(text, st.s, p);
    SkipTrim(text, st.s, raw);
    var w := SkipSpace(text, st.s);
    TagStartIs(text, w, TrimLeft(raw));
    if TrimLeft(raw) != [] { FreeAt(text, w, TrimLeft(raw)); }
    ConvertTill(text, st.s, '<', o);
    ConvertTill(text, w, '<', o);
    TillFrom(text, st.s, w);
  }

  lemma {:induction false} TillFrom(text: seq<char>, s: nat, w: nat)
    requires Terminated(text) && s < |text| && s <= w <= Till(text, s, '<')
    ensures Till(text, w, '<') == Till(text, s, '<')
    decreases w - s
  {
    if s < w { TillFrom(text, s + 1, w); }
  }

  lemma DataFound(text: seq<char>, o: Options, s: nat, stack: seq<Open>) returns (p: nat, stack': seq<Open>)
    requires Accepts(text, o, State(XmlParse.Content, s, stack)) && text[s] != NUL && text[s] != '<'
    ensures s < p < |text| && (text[p] == '<' || text[p] == NUL) && Free(text[s..p], '<') && SameNames(stack', stack)
    ensures SameRun(text, o, State(XmlParse.Content, s, stack), State(XmlParse.Content, p, stack'))
  {
    hide Run, TextStep, Free;
    var st := State(XmlParse.Content, s, stack);
    Onward(text, o, st);
    p := TextLands(text, o, st);
    stack' := TextStep(text, o, st).stack;
    if TextStep(text, o, st).s == p + 1 && text[p + 1] == NUL { Onward(text, o, TextStep(text, o, st)); }
    if text[p] == '<' { OneStep(text, NUL, o, State(XmlParse.Content, p, stack')); }
  }

  // ----- elements

  lemma FormedCons(m: Markup, ms: seq<Markup>)
    requires Formed(m) && FormedAll(ms) && (ms != [] && m.Data? ==> ms[0].Tag?)
    ensures FormedAll([m] + ms) && SpelledAll([m] + ms) == Spelled(m) + SpelledAll(ms)
  {
    hide Formed, Spelled;
    assert ([m] + ms)[1..] == ms;
  }

  /** What is found behind character data begins with a tag. */
  lemma BehindData(text: seq<char>, p: nat, ms: seq<Markup>)
    requires FormedAll(ms) && Has(text, p, SpelledAll(ms)) && p < |text| && (text[p] == '<' || text[p] == NUL)
    ensures ms != [] ==> ms[0].Tag?
  {
    hide SpelledAll, Has, Free;
    if ms != [] && ms[0].Data? {
      SpelledAllCons(text, p, ms);
      DataFormed(ms[0]);
      FreeAt(text, p, ms[0].raw);
    }
  }

  lemma NamesOf(a: seq<Open>, b: seq<Open>, c: seq<Open>)
    requires SameNames(a, b) && SameNames(b, c)
    ensures SameNames(a, c)
  {
  }

  lemma BracketFound(text: seq<char>, o: Options, s: nat, stack: seq<Open>)
    requires Accepts(text, o, State(XmlParse.Content, s, stack)) && text[s] == '<'
    ensures Accepts(text, o, State(AtTag, s + 1, stack))
    ensures SameRun(text, o, State(XmlParse.Content, s, stack), State(AtTag, s + 1, stack))
  {
    hide Run;
    Onward(text, o, State(XmlParse.Content, s, stack));
  }

  /** The text of an element from that of its parts. */
  lemma TagSpelled(text: seq<char>, s: nat, m: Markup, q: nat)
    requires m.Tag? && Has(text, s, Opening(m.name, m.fields, m.gap)) && q == s + |Opening(m.name, m.fields, m.gap)|
    requires TagEnd(text, q) && (m.content.Empty? <==> text[q] == '/')
    requires m.content.Full? ==>
      var c := q + 1 + |SpelledAll(m.content.inner)|;
      Has(text, q + 1, SpelledAll(m.content.inner)) && Has(text, c, "</" + m.name + m.content.gap + ">")
    ensures Has(text, s, Spelled(m))
    ensures |Spelled(m)| == q - s + if m.content.Empty? then 2
      else 1 + |SpelledAll(m.content.inner)| + |"</" + m.name + m.content.gap + ">"|
  {
    hide Has, SpelledFields, SpelledAll;
    var start := Opening(m.name, m.fields, m.gap);
    if m.content.Empty? {
      HasTwo(text, q);
      HasJoin(text, s, start, "/>");
    } else {
      var inner, end := SpelledAll(m.content.inner), "</" + m.name + m.content.gap + ">";
      HasOne(text, q);
      HasJoin(text, q, ">", inner);
      HasJoin(text, q, ">" + inner, end);
      HasJoin(text, s, start, ">" + inner + end);
    }
  }

  lemma HasOne(text: seq<char>, q: nat)
    requires q < |text| && text[q] == '>'
    ensures Has(text, q, ">")
  {
  }

  lemma HasTwo(text: seq<char>, q: nat)
    requires q + 1 < |text| && text[q] == '/' && text[q + 1] == '>'
    ensures Has(text, q, "/>")
  {
  }

  lemma TagFormed(m: Markup)
    requires m.Tag? && ValidName(m.name) && FieldsFormed(m.fields) && Blank(m.gap)
    requires m.content.Full? ==> FormedAll(m.content.inner) && Blank(m.content.gap)
    ensures Formed(m)
  {
  }

  /** A whole element. */
  lemma {:induction false} TagFound(text: seq<char>, o: Options, s: nat, stack: seq<Open>)
    returns (m: Markup, e: nat, stack': seq<Open>)
    requires Accepts(text, o, State(XmlParse.Content, s, stack)) && text[s] == '<' && text[s + 1] != '/'
    ensures m.Tag? && Formed(m) && Has(text, s, Spelled(m)) && e == s + |Spelled(m)| && s < e < |text|
    ensures SameNames(stack', stack)
    ensures SameRun(text, o, State(XmlParse.Content, s, stack), State(XmlParse.Content, e, stack'))
    decreases |text| - s, 0
  {
    hide Run, Has, ValidName, Blank, FieldsFormed, Opening, SpelledAll, Spelled, FormedAll, Formed, Pop, SameNames;
    BracketFound(text, o, s, stack);
    var name, fs, space, q, open := OpeningFound(text, o, s, stack);
    NamesPushed(stack, name, open);
    OpeningLong(name, fs, space);
    if text[q] == '>' {
      var inner, gap;
      inner, gap, e, stack' := InnerFound(text, o, q + 1, open);
      m := Tag(name, fs, space, Full(inner, gap));
    } else {
      m, e, stack' := Tag(name, fs, space, Empty), q + 2, Pop(open);
      PopNames(open);
    }
    NamesOf(stack', open[..|stack|], stack);
    TagSpelled(text, s, m, q);
    TagFormed(m);
  }

  lemma OpeningLong(name: seq<char>, fs: seq<Field>, gap: seq<char>)
    ensures |Opening(name, fs, gap)| > 0
  {
  }

  /** The content of an element and its end tag. */
  lemma {:induction false} InnerFound(text: seq<char>, o: Options, s: nat, stack: seq<Open>)
    returns (ms: seq<Markup>, gap: seq<char>, e: nat, stack': seq<Open>)
    requires Accepts(text, o, State(XmlParse.Content, s, stack)) && |stack| > 1
    ensures FormedAll(ms) && Blank(gap) && Has(text, s, SpelledAll(ms)) && s < e < |text|
    ensures var c, end := s + |SpelledAll(ms)|, "</" + stack[|stack| - 1].name + gap + ">";
      Has(text, c, end) && e == c + |end|
    ensures SameNames(stack', stack[..|stack| - 1])
    ensures SameRun(text, o, State(XmlParse.Content, s, stack), State(XmlParse.Content, e, stack'))
    decreases |text| - s, 1
  {
    hide Run, Has, Blank, SpelledAll, Spelled, FormedAll, Formed, Pop, SameNames, Step;
    NotAtEnd(text, o, s, stack);
    NothingFormed(text, s);
    if text[s] != '<' {
      var p, stack1 := DataFound(text, o, s, stack);
      SameTop(stack1, stack);
      NotAtEnd(text, o, p, stack1);
      var rest;
      rest, gap, e, stack' := InnerFound(text, o, p, stack1);
      ms := WithData(text, s, p, rest);
      NamesOf(stack', stack1[..|stack| - 1], stack[..|stack| - 1]);
    } else if text[s + 1] == '/' {
      BracketFound(text, o, s, stack);
      gap, e := EndFound(text, o, s, stack);
      ms, stack' := [], Pop(stack);
      PopNames(stack);
    } else {
      var m, p, stack1 := TagFound(text, o, s, stack);
      SameTop(stack1, stack);
      var rest;
      rest, gap, e, stack' := InnerFound(text, o, p, stack1);
      FormedCons(m, rest);
      HasJoin(text, s, Spelled(m), SpelledAll(rest));
      ms := [m] + rest;
      NamesOf(stack', stack1[..|stack| - 1], stack[..|stack| - 1]);
    }
  }

  lemma SameTop(a: seq<Open>, b: seq<Open>)
    requires SameNames(a, b) && |b| > 1
    ensures |a| == |b| && a[|b| - 1].name == b[|b| - 1].name && SameNames(a[..|b| - 1], b[..|b| - 1])
  {
  }

  /** While an element is open, the text has not ended. */
  lemma NotAtEnd(text: seq<char>, o: Options, s: nat, stack: seq<Open>)
    requires Accepts(text, o, State(XmlParse.Content, s, stack)) && |stack| > 1
    ensures text[s] != NUL
  {
    hide Run;
    Onward(text, o, State(XmlParse.Content, s, stack));
  }

  lemma NothingFormed(text: seq<char>, s: nat)
    requires s <= |text|
    ensures FormedAll([]) && SpelledAll([]) == [] && Has(text, s, [])
  {
  }

  /** Character data in front of what is found behind it. */
  lemma WithData(text: seq<char>, s: nat, p: nat, rest: seq<Markup>) returns (ms: seq<Markup>)
    requires s < p < |text| && Free(text[s..p], '<') && (text[p] == '<' || text[p] == NUL)
    requires FormedAll(rest) && Has(text, p, SpelledAll(rest))
    ensures ms == [Data(text[s..p])] + rest && FormedAll(ms) && Has(text, s, SpelledAll(ms))
    ensures |SpelledAll(ms)| == p - s + |SpelledAll(rest)|
  {
    hide Has, Free, SpelledAll, FormedAll;
    var m := Data(text[s..p]);
    BehindData(text, p, rest);
    HasSlice(text, s, p);
    FormedCons(m, rest);
    HasJoin(text, s, text[s..p], SpelledAll(rest));
    ms := [m] + rest;
  }

  // ----- documents

  /** A whole document from s on. */
  lemma {:induction false} TopFound(text: seq<char>, o: Options, s: nat, stack: seq<Open>) returns (ms: seq<Markup>)
    requires Accepts(text, o, State(XmlParse.Content, s, stack)) && |stack| == 1
    ensures FormedAll(ms) && Has(text, s, SpelledAll(ms)) && s + |SpelledAll(ms)| + 1 == |text|
    decreases |text| - s
  {
    hide Run, Has, SpelledAll, Spelled, FormedAll, Formed, SameNames, Free, EndStep, StartStep, TextStep;
    NothingFormed(text, s);
    if text[s] == NUL {
      ms := [];
    } else if text[s] != '<' {
      var p, stack1 := DataFound(text, o, s, stack);
      SizesOf(stack1, stack);
      var rest := TopFound(text, o, p, stack1);
      ms := WithData(text, s, p, rest);
    } else {
      NoEndTag(text, o, s, stack);
      var m, p, stack1 := TagFound(text, o, s, stack);
      SizesOf(stack1, stack);
      var rest := TopFound(text, o, p, stack1);
      FormedCons(m, rest);
      HasJoin(text, s, Spelled(m), SpelledAll(rest));
      ms := [m] + rest;
    }
  }

  lemma SizesOf(a: seq<Open>, b: seq<Open>)
    requires SameNames(a, b)
    ensures |a| == |b|
  {
  }

  /** Outside the elements there is no end tag. */
  lemma NoEndTag(text: seq<char>, o: Options, s: nat, stack: seq<Open>)
    requires Accepts(text, o, State(XmlParse.Content, s, stack)) && |stack| == 1 && text[s] == '<'
    ensures text[s + 1] != '/'
  {
    hide Run;
    BracketFound(text, o, s, stack);
    Onward(text, o, State(AtTag, s + 1, stack));
  }

  /**
   The parser accepts exactly the texts that some well formed markup spells with an
   element in it, and finds what that markup means.
   */
  lemma {:induction false} AcceptedExactly(body: seq<char>, o: Options)
    requires NUL !in body && !o.fragment
    ensures Parse(body + [NUL], o).Parsed? <==> exists ms :: DocumentFormed(ms) && SpelledAll(ms) == body
    ensures forall ms :: DocumentFormed(ms) && SpelledAll(ms) == body ==> Parse(body + [NUL], o) == Parsed(DocumentMeaning(ms, o))
  {
    hide SpelledAll, DocumentMeaning, Run, FormedAll, Parse, DocumentFormed;
    forall ms | DocumentFormed(ms) && SpelledAll(ms) == body
      ensures Parse(body + [NUL], o) == Parsed(DocumentMeaning(ms, o))
    {
      DocumentParsed(ms, o);
    }
    if Parse(body + [NUL], o).Parsed? {
      var ms := MarkupFound(body, o);
    }
  }

  lemma {:induction false} MarkupFound(body: seq<char>, o: Options) returns (ms: seq<Markup>)
    requires NUL !in body && !o.fragment && Parse(body + [NUL], o).Parsed?
    ensures DocumentFormed(ms) && SpelledAll(ms) == body
  {
    hide SpelledAll, DocumentMeaning, Run, FormedAll, Meaning;
    var text := body + [NUL];
    assert text[..|text| - 1] == body;
    var start := if |text| > 3 && text[..3] == MARK then 3 else 0;
    var root := [Open([], [], [])];
    var rest := TopFound(text, o, start, root);
    assert SpelledAll(rest) == text[start..|text| - 1] == body[start..];
    RunMarkup(text, o, start, rest);
    HoldsElement(rest, o);
    if start == 3 {
      assert text[..3] == body[..3] && body == MARK + body[3..];
      ms := Marked(rest);
    } else {
      ms := rest;
    }
  }

  lemma FirstSpelled(ms: seq<Markup>)
    requires FormedAll(ms) && ms != []
    ensures SpelledAll(ms) == Spelled(ms[0]) + SpelledAll(ms[1..]) && Formed(ms[0]) && FormedAll(ms[1..])
    ensures ms[0].Data? && |ms| > 1 ==> ms[1].Tag?
  {
    hide Spelled, Formed;
  }

  /** A byte order mark before some markup is character data. */
  lemma {:induction false} Marked(rest: seq<Markup>) returns (ms: seq<Markup>)
    requires DocumentFormed(rest)
    ensures DocumentFormed(ms) && SpelledAll(ms) == MARK + SpelledAll(rest)
  {
    hide FormedAll, SpelledAll, Free;
    var i :| 0 <= i < |rest| && rest[i].Tag?;
    FirstSpelled(rest);
    if rest[0].Data? {
      MarkFree(rest[0].raw);
      var m := Data(MARK + rest[0].raw);
      FormedCons(m, rest[1..]);
      ms := [m] + rest[1..];
      assert ms[i] == rest[i];
      assert MARK + rest[0].raw + SpelledAll(rest[1..]) == MARK + SpelledAll(rest);
    } else {
      MarkFree([]);
      assert MARK + [] == MARK;
      FormedCons(Data(MARK), rest);
      ms := [Data(MARK)] + rest;
      assert ms[1].Tag?;
    }
  }

  lemma MarkFree(raw: seq<char>)
    requires raw == [] || Free(raw, '<')
    ensures Free(MARK + raw, '<') && Free(MARK, '<')
  {
    var t := MARK + raw;
    forall i | 0 <= i < |t| ensures t[i] != '<' && t[i] != NUL {
      if i >= 3 { assert t[i] == raw[i - 3]; }
    }
  }
}
