/**
 The parser as it runs: one buffer, cut up where it stands.  Names, attribute values
 and character data end in a NUL written over the character behind them, and the
 tree holds their positions.  A string once cut is never written again, and what
 lies ahead of the read position is still the text that was given.
 */
module XmlParseInPlace {
  import opened Frames
  import opened Wrappers
  import opened XmlText
  import opened XmlInPlace
  import opened XmlParse
  import opened XmlPrint
  import opened XmlRoundTrip

  datatype AttrRef = AttrRef(name: nat, value: nat)

  datatype NodeRef =
    | ElementRef(name: nat, attrs: seq<AttrRef>, children: seq<NodeRef>)
    | TextRef(value: nat)

  /** An open node; the document's name is of no account. */
  datatype OpenRef = OpenRef(name: nat, attrs: seq<AttrRef>, children: seq<NodeRef>)

  // ----- what the positions stand for in a buffer with contents t, up to position end

  ghost predicate IsString(t: seq<char>, end: nat, p: nat, v: seq<char>)
  {
    p + |v| < end <= |t| && t[p..p + |v|] == v && t[p + |v|] == NUL
  }

  ghost predicate IsAttr(t: seq<char>, end: nat, r: AttrRef, a: Attr)
  {
    IsString(t, end, r.name, a.name) && IsString(t, end, r.value, a.value)
  }

  ghost predicate IsAttrs(t: seq<char>, end: nat, rs: seq<AttrRef>, attrs: seq<Attr>)
  {
    |rs| == |attrs| && forall i | 0 <= i < |rs| :: IsAttr(t, end, rs[i], attrs[i])
  }

  ghost predicate IsNode(t: seq<char>, end: nat, r: NodeRef, node: Node)
    decreases r
  {
    match r
    case TextRef(value) => node.Text? && IsString(t, end, value, node.value)
    case ElementRef(name, attrs, children) =>
      && node.Element? && IsString(t, end, name, node.name)
      && IsAttrs(t, end, attrs, node.attrs) && IsNodes(t, end, children, node.children)
  }

  ghost predicate IsNodes(t: seq<char>, end: nat, rs: seq<NodeRef>, nodes: seq<Node>)
    decreases rs
  {
    |rs| == |nodes| && forall i | 0 <= i < |rs| :: IsNode(t, end, rs[i], nodes[i])
  }

  ghost predicate IsOpen(t: seq<char>, end: nat, r: OpenRef, o: Open, named: bool)
  {
    && (named ==> IsString(t, end, r.name, o.name) && NUL !in o.name)
    && IsAttrs(t, end, r.attrs, o.attrs) && IsNodes(t, end, r.children, o.children)
  }

  ghost predicate IsStack(t: seq<char>, end: nat, rs: seq<OpenRef>, stack: seq<Open>)
  {
    |rs| == |stack| && forall i | 0 <= i < |rs| :: IsOpen(t, end, rs[i], stack[i], i > 0)
  }

  /** u holds what t holds before end, and may be read up to more. */
  ghost predicate Keeps(t: seq<char>, end: nat, u: seq<char>, more: nat)
  {
    end <= |t| && end <= more <= |u| && t[..end] == u[..end]
  }

  lemma StringKept(t: seq<char>, end: nat, u: seq<char>, more: nat, p: nat, v: seq<char>)
    requires Keeps(t, end, u, more) && IsString(t, end, p, v)
    ensures IsString(u, more, p, v)
  {
    assert forall k | 0 <= k < end :: t[k] == t[..end][k] == u[k];
    assert u[p..p + |v|] == t[p..p + |v|];
  }

  lemma AttrsKept(t: seq<char>, end: nat, u: seq<char>, more: nat, rs: seq<AttrRef>, attrs: seq<Attr>)
    requires Keeps(t, end, u, more) && IsAttrs(t, end, rs, attrs)
    ensures IsAttrs(u, more, rs, attrs)
  {
    hide IsString, Keeps;
    forall i | 0 <= i < |rs| ensures IsAttr(u, more, rs[i], attrs[i]) {
      assert IsAttr(t, end, rs[i], attrs[i]);
      StringKept(t, end, u, more, rs[i].name, attrs[i].name);
      StringKept(t, end, u, more, rs[i].value, attrs[i].value);
    }
  }

  lemma {:induction false} NodeKept(t: seq<char>, end: nat, u: seq<char>, more: nat, r: NodeRef, node: Node)
    requires Keeps(t, end, u, more) && IsNode(t, end, r, node)
    ensures IsNode(u, more, r, node)
    decreases r
  {
    hide IsString, IsAttrs, Keeps;
    match r
    case TextRef(value) =>
      StringKept(t, end, u, more, value, node.value);
    case ElementRef(name, attrs, children) =>
      StringKept(t, end, u, more, name, node.name);
      AttrsKept(t, end, u, more, attrs, node.attrs);
      NodesKept(t, end, u, more, children, node.children);
  }

  lemma {:induction false} NodesKept(t: seq<char>, end: nat, u: seq<char>, more: nat, rs: seq<NodeRef>, nodes: seq<Node>)
    requires Keeps(t, end, u, more) && IsNodes(t, end, rs, nodes)
    ensures IsNodes(u, more, rs, nodes)
    decreases rs
  {
    hide IsNode, Keeps;
    forall i | 0 <= i < |rs| ensures IsNode(u, more, rs[i], nodes[i]) {
      assert IsNode(t, end, rs[i], nodes[i]);
      NodeKept(t, end, u, more, rs[i], nodes[i]);
    }
  }

  lemma StackKept(t: seq<char>, end: nat, u: seq<char>, more: nat, rs: seq<OpenRef>, stack: seq<Open>)
    requires Keeps(t, end, u, more) && IsStack(t, end, rs, stack)
    ensures IsStack(u, more, rs, stack)
  {
    hide IsString, IsAttrs, IsNodes, Keeps;
    forall i | 0 <= i < |rs| ensures IsOpen(u, more, rs[i], stack[i], i > 0) {
      assert IsOpen(t, end, rs[i], stack[i], i > 0);
      if i > 0 { StringKept(t, end, u, more, rs[i].name, stack[i].name); }
      AttrsKept(t, end, u, more, rs[i].attrs, stack[i].attrs);
      NodesKept(t, end, u, more, rs[i].children, stack[i].children);
    }
  }

  // ----- the stack of open nodes

  function AddChildRef(stack: seq<OpenRef>, r: NodeRef): seq<OpenRef>
    requires stack != []
  {
    var top := stack[|stack| - 1];
    stack[|stack| - 1 := top.(children := top.children + [r])]
  }

  function AddAttrRef(stack: seq<OpenRef>, r: AttrRef): seq<OpenRef>
    requires stack != []
  {
    var top := stack[|stack| - 1];
    stack[|stack| - 1 := top.(attrs := top.attrs + [r])]
  }

  function PopRef(stack: seq<OpenRef>): seq<OpenRef>
    requires |stack| > 1
  {
    var top := stack[|stack| - 1];
    AddChildRef(stack[..|stack| - 1], ElementRef(top.name, top.attrs, top.children))
  }

  lemma ChildAdded(t: seq<char>, end: nat, rs: seq<OpenRef>, stack: seq<Open>, r: NodeRef, node: Node)
    requires IsStack(t, end, rs, stack) && stack != [] && IsNode(t, end, r, node)
    ensures IsStack(t, end, AddChildRef(rs, r), AddChild(stack, node))
  {
    hide IsString, IsAttrs, IsNode;
    assert IsOpen(t, end, rs[|rs| - 1], stack[|rs| - 1], |rs| - 1 > 0);
  }

  lemma AttrAdded(t: seq<char>, end: nat, rs: seq<OpenRef>, stack: seq<Open>, r: AttrRef, a: Attr)
    requires IsStack(t, end, rs, stack) && stack != [] && IsAttr(t, end, r, a)
    ensures IsStack(t, end, AddAttrRef(rs, r), AddAttr(stack, a))
  {
    hide IsString, IsAttr, IsNodes;
    assert IsOpen(t, end, rs[|rs| - 1], stack[|rs| - 1], |rs| - 1 > 0);
  }

  lemma Popped(t: seq<char>, end: nat, rs: seq<OpenRef>, stack: seq<Open>)
    requires IsStack(t, end, rs, stack) && |stack| > 1
    ensures |rs| == |stack| && IsStack(t, end, PopRef(rs), Pop(stack))
  {
    hide IsString, IsAttrs, IsNodes;
    var n := |rs| - 1;
    assert IsOpen(t, end, rs[n], stack[n], n > 0);
    assert IsStack(t, end, rs[..n], stack[..n]) by {
      assert forall i | 0 <= i < n :: IsOpen(t, end, rs[i], stack[i], i > 0);
    }
    ChildAdded(t, end, rs[..n], stack[..n], ElementRef(rs[n].name, rs[n].attrs, rs[n].children),
               Element(stack[n].name, stack[n].attrs, stack[n].children));
  }

  lemma Opened(t: seq<char>, end: nat, rs: seq<OpenRef>, stack: seq<Open>, p: nat, name: seq<char>)
    requires IsStack(t, end, rs, stack) && stack != [] && IsString(t, end, p, name) && NUL !in name
    ensures IsStack(t, end, rs + [OpenRef(p, [], [])], stack + [Open(name, [], [])])
  {
    hide IsString;
  }

  // ----- the state of the parser

  /** Up to here the buffer is not written any more: the position itself once the text ends there. */
  ghost function Settled(text: seq<char>, s: nat): nat
    requires s < |text|
  {
    if text[s] == NUL then s + 1 else s
  }

  ghost predicate Tracks(buf: array<char>, text: seq<char>, s: nat, stack: seq<OpenRef>, st: State)
    reads buf
  {
    && Inv(text, st) && st.s == s && |stack| == |st.stack|
    && Ahead(buf, text, s) && IsStack(buf[..], Settled(text, s), stack, st.stack)
  }

  /** The outcome of a step: an error, or the state that st describes. */
  ghost predicate Reaches(buf: array<char>, text: seq<char>, at: Place, s: nat, stack: seq<OpenRef>, st: State)
    reads buf
  {
    at == st.at && (at.Failed? || Tracks(buf, text, s, stack, st))
  }

  /** Settled text stays settled as reading goes on. */
  lemma MovesOn(buf: array<char>, text: seq<char>, end: nat, s: nat, stack: seq<OpenRef>, st: State)
    requires Inv(text, st) && st.s == s && Ahead(buf, text, s) && end <= Settled(text, s)
    requires IsStack(buf[..], end, stack, st.stack)
    ensures Tracks(buf, text, s, stack, st)
  {
    hide IsOpen;
    StackKept(buf[..], end, buf[..], Settled(text, s), stack, st.stack);
  }

  /** PUGI__SKIPWS */
  method SkipWs(buf: array<char>, s: nat, ghost text: seq<char>) returns (e: nat)
    requires s < buf.Length && Ahead(buf, text, s)
    ensures e == SkipSpace(text, s)
  {
    e := s;
    while IsSpace(buf[e])
      invariant s <= e < buf.Length && SkipSpace(text, e) == SkipSpace(text, s)
      decreases buf.Length - e
    {
      e := e + 1;
    }
  }

  /** PUGI__SCANFOR for the start of a tag. */
  method ScanForTag(buf: array<char>, s: nat, ghost text: seq<char>) returns (e: nat)
    requires s < buf.Length && Ahead(buf, text, s)
    ensures e == TagStart(text, s)
  {
    e := s;
    while buf[e] != NUL && buf[e] != '<'
      invariant s <= e < buf.Length && TagStart(text, e) == TagStart(text, s)
      decreases buf.Length - e
    {
      e := e + 1;
    }
  }

  /** PUGI__SCANWHILE_UNROLL over a name, then PUGI__ENDSEG: the name is cut off and ch is what stood behind it. */
  method CutName(buf: array<char>, s: nat, ghost text: seq<char>) returns (e: nat, ch: char)
    requires s < buf.Length && Ahead(buf, text, s)
    modifies buf
    ensures e == SymbolEnd(text, s) && ch == text[e]
    ensures IsString(buf[..], e + 1, s, text[s..e]) && NUL !in text[s..e]
    ensures BeforeUnchanged(buf, s) && Ahead(buf, text, if ch == NUL then e else e + 1)
  {
    e := s;
    while IsSymbol(buf[e])
      invariant s <= e < buf.Length && SymbolEnd(text, e) == SymbolEnd(text, s)
      decreases buf.Length - e
    {
      e := e + 1;
    }
    ch := buf[e];
    assert buf[s..e] == text[s..e];
    buf[e] := NUL;
    assert buf[..][s..e] == text[s..e];
  }

  // ----- tags

  /** LOC_TAG: a start tag. */
  method StartTag(buf: array<char>, s: nat, stack: seq<OpenRef>, endch: char, ghost text: seq<char>, ghost st: State)
    returns (at: Place, s': nat, stack': seq<OpenRef>)
    requires Tracks(buf, text, s, stack, st) && IsStartSymbol(text[s])
    modifies buf
    ensures Reaches(buf, text, at, s', stack', StartStep(text, endch, st))
  {
    hide IsStack, IsString;
    ghost var was := buf[..];
    var e, ch := CutName(buf, s, text);
    stack' := stack + [OpenRef(s, [], [])];
    ghost var open := st.stack + [Open(text[s..e], [], [])];
    assert IsStack(buf[..], e + 1, stack', open) by {
      assert was[..s] == buf[..][..s];
      StackKept(was, s, buf[..], e + 1, stack, st.stack);
      Opened(buf[..], e + 1, stack, st.stack, s, text[s..e]);
    }
    if ch == '>' {
      at, s' := Content, e + 1;
    } else if IsSpace(ch) {
      at, s' := Attributes, e + 1;
    } else if ch == '/' {
      if !EndsWith(buf[e + 1], '>', endch) { return Failed(BadStartElement), e, stack'; }
      at, s' := Content, if buf[e + 1] == '>' then e + 2 else e + 1;
      Popped(buf[..], e + 1, stack', open);
      stack', open := PopRef(stack'), Pop(open);
    } else if ch == NUL && endch == '>' {
      at, s' := Content, e;
    } else {
      return Failed(BadStartElement), e, stack';
    }
    MovesOn(buf, text, e + 1, s', stack', State(at, s', open));
  }

  lemma StringChar(t: seq<char>, end: nat, p: nat, v: seq<char>, k: nat)
    requires IsString(t, end, p, v) && k <= |v|
    ensures p + k < |t| && t[p + k] == (v + [NUL])[k]
  {
    if k < |v| { assert t[p + k] == t[p..p + |v|][k]; }
  }

  /**
   The characters at s against the name v at position name: whether the text has no
   character of its own before its symbols end, and where both stand then.
   */
  method CompareName(buf: array<char>, s: nat, name: nat, ghost v: seq<char>, ghost text: seq<char>)
    returns (same: bool, e: nat, rest: nat)
    requires s < buf.Length && Ahead(buf, text, s) && IsString(buf[..], buf.Length, name, v) && NUL !in v
    ensures same ==> e == SymbolEnd(text, s) && text[s..e] <= v && rest == name + (e - s)
    ensures !same ==> !(text[s..SymbolEnd(text, s)] <= v)
  {
    hide IsString;
    e, rest := s, name;
    while IsSymbol(buf[e])
      invariant s <= e < buf.Length && rest == name + (e - s) && text[s..e] <= v
      invariant SymbolEnd(text, e) == SymbolEnd(text, s)
      decreases buf.Length - e
    {
      StringChar(buf[..], buf.Length, name, v, e - s);
      if buf[e] != buf[rest] {
        assert text[s..SymbolEnd(text, s)][e - s] == text[e];
        return false, e, rest;
      }
      assert text[s..e + 1] == text[s..e] + [text[e]];
      e, rest := e + 1, rest + 1;
    }
    same := true;
  }

  /** What the two characters of the open name behind the part w that was matched tell. */
  lemma MatchedPart(w: seq<char>, v: seq<char>, endch: char)
    requires w <= v && NUL !in v
    ensures (v + [NUL])[|w|] == NUL <==> w == v
    ensures w != v ==> ((v + [NUL])[|w|] == endch && (v + [NUL])[|w| + 1] == NUL <==> v == w + [endch])
  {
    assert v == w + v[|w|..];
    if w != v {
      assert v[|w|] in v && v == w + [v[|w|]] + v[|w| + 1..];
      if |v| > |w| + 1 { assert v[|w| + 1] in v; }
    }
  }

  /** The name of an end tag against that of the open element. */
  method MatchName(buf: array<char>, s: nat, name: nat, endch: char, ghost v: seq<char>, ghost text: seq<char>)
    returns (ok: bool, status: Status, e: nat)
    requires s < buf.Length && Ahead(buf, text, s) && IsString(buf[..], buf.Length, name, v) && NUL !in v
    ensures var w := text[s..SymbolEnd(text, s)];
      && ok == (w == v)
      && (ok ==> e == SymbolEnd(text, s))
      && (!ok ==> status == if text[SymbolEnd(text, s)] == NUL && v == w + [endch] then BadEndElement else EndElementMismatch)
  {
    var same, rest;
    same, e, rest := CompareName(buf, s, name, v, text);
    if !same { return false, EndElementMismatch, e; }
    StringChar(buf[..], buf.Length, name, v, e - s);
    MatchedPart(text[s..e], v, endch);
    if buf[rest] == NUL { return true, EndElementMismatch, e; }
    StringChar(buf[..], buf.Length, name, v, e - s + 1);
    var cut := buf[e] == NUL && buf[rest] == endch && buf[rest + 1] == NUL;
    return false, if cut then BadEndElement else EndElementMismatch, e;
  }

  /** LOC_TAG: an end tag, s standing at the slash. */
  method EndTag(buf: array<char>, s: nat, stack: seq<OpenRef>, endch: char, ghost text: seq<char>, ghost st: State)
    returns (at: Place, s': nat, stack': seq<OpenRef>)
    requires Tracks(buf, text, s, stack, st) && text[s] == '/'
    ensures Reaches(buf, text, at, s', stack', EndStep(text, endch, st))
  {
    hide Pop, PopRef, IsString, IsAttrs, IsNodes, SkipSpace, SymbolEnd;
    if |stack| == 1 { return Failed(EndElementMismatch), s, stack; }
    var top := stack[|stack| - 1];
    ghost var v := st.stack[|stack| - 1].name;
    assert IsOpen(buf[..], s, top, st.stack[|stack| - 1], true);
    StringKept(buf[..], s, buf[..], buf.Length, top.name, v);
    var ok, status, e := MatchName(buf, s + 1, top.name, endch, v, text);
    if !ok { return Failed(status), e, stack; }
    Popped(buf[..], s, stack, st.stack);
    stack' := PopRef(stack);
    hide IsStack;
    s' := SkipWs(buf, e, text);
    if buf[s'] == NUL {
      if endch != '>' { return Failed(BadEndElement), s', stack'; }
    } else {
      if buf[s'] != '>' { return Failed(BadEndElement), s', stack'; }
      s' := s' + 1;
    }
    at := Content;
    MovesOn(buf, text, s, s', stack', State(Content, s', Pop(st.stack)));
  }

  // ----- attributes

  lemma SpaceSkipped(text: seq<char>, e: nat)
    requires Terminated(text) && e < |text| && IsSpace(text[e])
    ensures e + 1 < |text| && SkipSpace(text, e) == SkipSpace(text, e + 1)
  {
  }

  /** The position of the quote after a name that ends at e, if there is one. */
  ghost function Quote(text: seq<char>, e: nat): (q: Option<nat>)
    requires Terminated(text) && e < |text|
    ensures q.Some? ==> e < q.value < |text| - 1 && (text[q.value] == '"' || text[q.value] == '\'')
  {
    var p := if IsSpace(text[e]) then SkipSpace(text, e) else e;
    if text[p] != '=' then None else
    var q := SkipSpace(text, p + 1);
    if text[q] != '"' && text[q] != '\'' then None else Some(q)
  }

  /** The name of an attribute, cut off, and the way to its value. */
  method AttributeName(buf: array<char>, s: nat, ghost text: seq<char>) returns (e: nat, q: Option<nat>)
    requires s < buf.Length && Ahead(buf, text, s)
    modifies buf
    ensures e == SymbolEnd(text, s) && q == Quote(text, e)
    ensures q.Some? ==> e < q.value < |text| && Ahead(buf, text, q.value)
    ensures IsString(buf[..], e + 1, s, text[s..e]) && BeforeUnchanged(buf, s)
  {
    hide IsString, SkipSpace;
    var ch;
    e, ch := CutName(buf, s, text);
    var p := e;
    if IsSpace(ch) {
      SpaceSkipped(text, e);
      p := SkipWs(buf, e + 1, text);
      ch := buf[p];
    }
    if ch != '=' { return e, None; }
    var at := SkipWs(buf, p + 1, text);
    return e, if buf[at] == '"' || buf[at] == '\'' then Some(at) else None;
  }

  /** AttrStep in terms of the quote. */
  lemma AttrStepIs(text: seq<char>, o: Options, st: State)
    requires Inv(text, st) && st.at == Attributes && IsStartSymbol(text[st.s])
    ensures var e := SymbolEnd(text, st.s);
      var q := Quote(text, e);
      if q.None? then AttrStep(text, o, st).at == Failed(BadAttribute) else
      var r := Convert(text, q.value + 1, text[q.value], o.eol, o.escapes);
      if text[r.stop] != text[q.value] || IsStartSymbol(text[r.stop + 1])
      then AttrStep(text, o, st).at == Failed(BadAttribute)
      else AttrStep(text, o, st) == State(Attributes, r.stop + 1, AddAttr(st.stack, Attr(text[st.s..e], r.value)))
  {
    hide Convert, SkipSpace, SymbolEnd;
  }

  /** The value behind the quote at q, and the position behind the closing quote. */
  method AttributeValue(buf: array<char>, q: nat, o: Options, ghost text: seq<char>) returns (next: Option<nat>)
    requires q + 1 < buf.Length && Ahead(buf, text, q) && text[q] != NUL
    modifies buf
    ensures var r := Convert(text, q + 1, text[q], o.eol, o.escapes);
      && next == (if text[r.stop] != text[q] || IsStartSymbol(text[r.stop + 1]) then None else Some(r.stop + 1))
      && (next.Some? ==> IsString(buf[..], r.stop + 1, q + 1, r.value) && Ahead(buf, text, r.stop + 1))
    ensures next.Some? ==> BeforeUnchanged(buf, q + 1)
  {
    hide Convert;
    var ok, last := StrconvAttribute(buf, q + 1, buf[q], o.eol, o.escapes, text);
    if !ok || IsStartSymbol(buf[last]) { return None; }
    return Some(last);
  }

  /** The name was cut first, then the value; both stand, and so does everything before. */
  lemma AttributeStands(was: seq<char>, cut: seq<char>, now: seq<char>, s: nat, e: nat, begin: nat, next: nat,
                        rs: seq<OpenRef>, stack: seq<Open>, a: Attr)
    requires s <= e < begin <= |now| == |cut| == |was| && was[..s] == cut[..s] && cut[..begin] == now[..begin]
    requires IsString(cut, e + 1, s, a.name) && IsString(now, next, begin, a.value)
    requires IsStack(was, s, rs, stack) && rs != []
    ensures |rs| == |stack| && IsStack(now, next, AddAttrRef(rs, AttrRef(s, begin)), AddAttr(stack, a))
  {
    hide IsOpen;
    assert cut[..e + 1] == cut[..begin][..e + 1] == now[..e + 1];
    StringKept(cut, e + 1, now, next, s, a.name);
    assert was[..s] == cut[..begin][..s] == now[..s];
    StackKept(was, s, now, next, rs, stack);
    AttrAdded(now, next, rs, stack, AttrRef(s, begin), a);
  }

  /** One attribute, s standing at its name. */
  method OneAttribute(buf: array<char>, s: nat, stack: seq<OpenRef>, o: Options, ghost text: seq<char>, ghost st: State)
    returns (at: Place, s': nat, stack': seq<OpenRef>)
    requires Tracks(buf, text, s, stack, st) && st.at == Attributes && IsStartSymbol(text[s])
    modifies buf
    ensures Reaches(buf, text, at, s', stack', AttrStep(text, o, st))
  {
    hide IsStack, IsString, Convert, AttrStep, Quote;
    AttrStepIs(text, o, st);
    ghost var was := buf[..];
    var e, quote := AttributeName(buf, s, text);
    if quote.None? { return Failed(BadAttribute), e, stack; }
    var q := quote.value;
    ghost var cut := buf[..];
    var next := AttributeValue(buf, q, o, text);
    if next.None? { return Failed(BadAttribute), q, stack; }
    at, s', stack' := Attributes, next.value, AddAttrRef(stack, AttrRef(s, q + 1));
    ghost var a := Attr(text[s..e], Convert(text, q + 1, text[q], o.eol, o.escapes).value);
    AttributeStands(was, cut, buf[..], s, e, q + 1, s', stack, st.stack, a);
    MovesOn(buf, text, s', s', stack', State(Attributes, s', AddAttr(st.stack, a)));
  }

  /** LOC_ATTRIBUTES: one attribute, or the end of the start tag. */
  method AttributesTurn(buf: array<char>, s: nat, stack: seq<OpenRef>, endch: char, o: Options, ghost text: seq<char>, ghost st: State)
    returns (at: Place, s': nat, stack': seq<OpenRef>)
    requires Tracks(buf, text, s, stack, st) && st.at == Attributes
    modifies buf
    ensures Reaches(buf, text, at, s', stack', AttributesStep(text, endch, o, st))
  {
    hide IsStack, AttrStep, Pop, PopRef, SkipSpace;
    var w := SkipWs(buf, s, text);
    MovesOn(buf, text, Settled(text, s), w, stack, st.(s := w));
    stack' := stack;
    ghost var open := st.stack;
    if IsStartSymbol(buf[w]) {
      at, s', stack' := OneAttribute(buf, w, stack, o, text, st.(s := w));
      return;
    } else if buf[w] == '/' {
      if buf[w + 1] == '>' {
        s' := w + 2;
      } else if buf[w + 1] == NUL && endch == '>' {
        s' := w + 1;
      } else {
        return Failed(BadStartElement), w + 1, stack;
      }
      Popped(buf[..], Settled(text, w), stack, open);
      stack', open := PopRef(stack), Pop(open);
    } else if buf[w] == '>' {
      s' := w + 1;
    } else if buf[w] == NUL && endch == '>' {
      s' := w;
    } else {
      return Failed(BadStartElement), w, stack;
    }
    at := Content;
    MovesOn(buf, text, Settled(text, w), s', stack', State(Content, s', open));
  }

  // ----- character data

  lemma TagStartPastSpace(text: seq<char>, s: nat)
    requires Terminated(text) && s < |text|
    ensures TagStart(text, s) == TagStart(text, SkipSpace(text, s))
    decreases |text| - s
  {
    if IsSpace(text[s]) { TagStartPastSpace(text, s + 1); }
  }

  lemma TopChildren(t: seq<char>, end: nat, rs: seq<OpenRef>, stack: seq<Open>)
    requires IsStack(t, end, rs, stack) && stack != []
    ensures |rs| == |stack| && (rs[|rs| - 1].children == [] <==> stack[|stack| - 1].children == [])
  {
    hide IsString, IsAttrs, IsNode;
    assert IsOpen(t, end, rs[|rs| - 1], stack[|rs| - 1], |rs| - 1 > 0);
  }

  /** A text node: the character data from begin on is converted where it stands. */
  method TextNode(buf: array<char>, s: nat, begin: nat, stack: seq<OpenRef>, o: Options, ghost text: seq<char>, ghost st: State)
    returns (at: Place, s': nat, stack': seq<OpenRef>)
    requires Tracks(buf, text, s, stack, st) && s <= begin < buf.Length && text[s] != NUL
    modifies buf
    ensures var r := Convert(text, begin, '<', o.eol, o.escapes);
      var next := if text[r.stop] == '<' then r.stop + 1 else r.stop;
      var child := Text(if o.trim then TrimRight(r.value) else r.value);
      Reaches(buf, text, at, s', stack', State(if text[next] == NUL then Content else AtTag, next, AddChild(st.stack, child)))
  {
    hide IsStack, Convert, TrimRight;
    ghost var was := buf[..];
    ghost var r := Convert(text, begin, '<', o.eol, o.escapes);
    ghost var value := if o.trim then TrimRight(r.value) else r.value;
    s' := StrconvPcdata(buf, begin, o.trim, o.eol, o.escapes, text);
    at := if buf[s'] == NUL then Content else AtTag;
    stack' := AddChildRef(stack, TextRef(begin));
    ghost var end := Settled(text, s');
    assert was[..s] == buf[..][..s];
    StackKept(was, s, buf[..], end, stack, st.stack);
    assert IsString(buf[..], end, begin, value);
    ChildAdded(buf[..], end, stack, st.stack, TextRef(begin), Text(value));
    MovesOn(buf, text, end, s', stack', State(at, s', AddChild(st.stack, Text(value))));
  }

  /** Character data at the loop head. */
  method TextTurn(buf: array<char>, s: nat, stack: seq<OpenRef>, o: Options, ghost text: seq<char>, ghost st: State)
    returns (at: Place, s': nat, stack': seq<OpenRef>)
    requires Tracks(buf, text, s, stack, st) && text[s] != NUL && text[s] != '<'
    modifies buf
    ensures Reaches(buf, text, at, s', stack', TextStep(text, o, st))
  {
    hide IsStack, IsNodes, Convert, TrimRight, SkipSpace, TagStart;
    var w := SkipWs(buf, s, text);
    if buf[w] == '<' || buf[w] == NUL {
      TopChildren(buf[..], s, stack, st.stack);
      if !((o.wsPcdata || o.wsPcdataSingle) && !o.trim)
        || (o.wsPcdataSingle && (buf[w] != '<' || buf[w + 1] != '/' || stack[|stack| - 1].children != [])) {
        MovesOn(buf, text, s, w, stack, State(Content, w, st.stack));
        return Content, w, stack;
      }
    }
    var begin := if o.trim then w else s;
    if |stack| > 1 || o.fragment {
      at, s', stack' := TextNode(buf, s, begin, stack, o, text, st);
    } else {
      var p := ScanForTag(buf, begin, text);
      TagStartPastSpace(text, s);
      at, s', stack' := if buf[p] == NUL then Content else AtTag, if buf[p] == NUL then p else p + 1, stack;
      MovesOn(buf, text, s, s', stack, State(at, s', st.stack));
    }
  }

  // ----- the whole parse

  /** One turn at a tag, s standing behind '<'. */
  method TagTurn(buf: array<char>, s: nat, stack: seq<OpenRef>, endch: char, o: Options, ghost text: seq<char>, ghost st: State)
    returns (at: Place, s': nat, stack': seq<OpenRef>)
    requires Tracks(buf, text, s, stack, st) && st.at == AtTag
    modifies buf
    ensures Reaches(buf, text, at, s', stack', Step(text, endch, o, st))
  {
    hide IsStack, StartStep, EndStep;
    if IsStartSymbol(buf[s]) {
      at, s', stack' := StartTag(buf, s, stack, endch, text, st);
    } else if buf[s] == '/' {
      at, s', stack' := EndTag(buf, s, stack, endch, text, st);
    } else {
      s', stack' := s, stack;
      at := Failed(if buf[s] == '?' || buf[s] == '!' then NotModelled
                   else if buf[s] == NUL && endch == '?' then BadPi else UnrecognizedTag);
    }
  }

  /** One turn at the loop head. */
  method ContentTurn(buf: array<char>, s: nat, stack: seq<OpenRef>, endch: char, o: Options, ghost text: seq<char>, ghost st: State)
    returns (at: Place, s': nat, stack': seq<OpenRef>)
    requires Tracks(buf, text, s, stack, st) && st.at == Content
    modifies buf
    ensures Reaches(buf, text, at, s', stack', Step(text, endch, o, st))
  {
    hide IsStack, TextStep;
    if buf[s] == NUL {
      at, s', stack' := if |stack| == 1 then Done else Failed(EndElementMismatch), s, stack;
    } else if buf[s] == '<' {
      at, s', stack' := AtTag, s + 1, stack;
      MovesOn(buf, text, s, s', stack, State(AtTag, s', st.stack));
    } else {
      at, s', stack' := TextTurn(buf, s, stack, o, text, st);
    }
  }

  function Turns(at: Place): nat
  {
    if Final(at) then 0 else if at == Content then 1 else 2
  }

  lemma RunUnfold(text: seq<char>, endch: char, o: Options, st: State)
    requires Inv(text, st) && !Final(st.at)
    ensures Run(text, endch, o, st) == Run(text, endch, o, Step(text, endch, o, st))
    ensures var next := Step(text, endch, o, st);
      && next.s <= |text| && (next.at.Done? ==> |next.stack| == 1)
      && (Final(next.at) || next.s > st.s || (next.s == st.s && Turns(next.at) < Turns(st.at)))
  {
    hide TextStep, StartStep, EndStep, AttributesStep;
  }

  lemma Alone(t: seq<char>, end: nat)
    ensures IsStack(t, end, [OpenRef(0, [], [])], [Open([], [], [])])
  {
  }

  /** The finished tree: what the only open node left stands for. */
  lemma Finished(buf: array<char>, text: seq<char>, s: nat, stack: seq<OpenRef>, st: State)
    requires Tracks(buf, text, s, stack, st) && |st.stack| == 1
    ensures IsNodes(buf[..], buf.Length, stack[0].children, st.stack[0].children)
  {
    hide IsString, IsAttrs, IsNode;
    assert IsOpen(buf[..], Settled(text, s), stack[0], st.stack[0], false);
    NodesKept(buf[..], Settled(text, s), buf[..], buf.Length, stack[0].children, st.stack[0].children);
  }

  /** parse_tree: the buffer is cut up as Run says, and the tree that is left stands for Run's. */
  method ParseTree(buf: array<char>, start: nat, endch: char, o: Options) returns (at: Place, children: seq<NodeRef>)
    requires start < buf.Length && buf[buf.Length - 1] == NUL
    modifies buf
    ensures var r := Run(old(buf[..]), endch, o, State(Content, start, [Open([], [], [])]));
      && at == r.at
      && (at.Done? ==> |r.stack| == 1 && IsNodes(buf[..], buf.Length, children, r.stack[0].children))
  {
    hide IsStack, TextStep, StartStep, EndStep, AttributesStep;
    ghost var text := buf[..];
    ghost var st := State(Content, start, [Open([], [], [])]);
    ghost var first := st;
    var s, stack := start, [OpenRef(0, [], [])];
    at := Content;
    assert IsStack(buf[..], Settled(text, s), stack, st.stack) by { Alone(buf[..], Settled(text, s)); }
    while !Final(at)
      invariant Reaches(buf, text, at, s, stack, st) && Inv(text, st)
      invariant Run(text, endch, o, st) == Run(text, endch, o, first)
      invariant at.Done? ==> |st.stack| == 1
      decreases if Final(at) then 0 else 1, buf.Length - st.s, Turns(st.at)
    {
      ghost var next := Step(text, endch, o, st);
      RunUnfold(text, endch, o, st);
      match at {
        case Content => at, s, stack := ContentTurn(buf, s, stack, endch, o, text, st);
        case AtTag => at, s, stack := TagTurn(buf, s, stack, endch, o, text, st);
        case Attributes => at, s, stack := AttributesTurn(buf, s, stack, endch, o, text, st);
      }
      st := next;
    }
    if at.Done? {
      Finished(buf, text, s, stack, st);
      children := stack[0].children;
    } else {
      children := [];
    }
  }

  /** has_element_node_siblings */
  method HasElementRef(children: seq<NodeRef>) returns (found: bool)
    ensures found == exists i | 0 <= i < |children| :: children[i].ElementRef?
  {
    var i := 0;
    while i < |children| && !children[i].ElementRef?
      invariant i <= |children| && forall k | 0 <= k < i :: !children[k].ElementRef?
    {
      i := i + 1;
    }
    return i < |children|;
  }

  lemma SameElements(t: seq<char>, rs: seq<NodeRef>, nodes: seq<Node>)
    requires IsNodes(t, |t|, rs, nodes)
    ensures (exists i | 0 <= i < |rs| :: rs[i].ElementRef?) <==> HasElement(nodes)
  {
    hide IsString, IsAttrs, IsNodes;
    assert |rs| == |nodes| && forall i | 0 <= i < |rs| :: IsNode(t, |t|, rs[i], nodes[i]) by { Each(t, rs, nodes); }
    if i :| 0 <= i < |rs| && rs[i].ElementRef? { assert IsNode(t, |t|, rs[i], nodes[i]) && nodes[i].Element?; }
    if i :| 0 <= i < |nodes| && nodes[i].Element? { assert IsNode(t, |t|, rs[i], nodes[i]); }
  }

  lemma Each(t: seq<char>, rs: seq<NodeRef>, nodes: seq<Node>)
    requires IsNodes(t, |t|, rs, nodes)
    ensures |rs| == |nodes| && forall i | 0 <= i < |rs| :: IsNode(t, |t|, rs[i], nodes[i])
  {
    hide IsNode;
  }

  datatype Outcome = Built(children: seq<NodeRef>) | Refused(status: Status)

  /** The tree built in a buffer with contents t stands for the result r, or the error is r's. */
  ghost predicate StandsFor(t: seq<char>, outcome: Outcome, r: Result)
  {
    match outcome
    case Built(children) => r.Parsed? && IsNodes(t, |t|, children, r.children)
    case Refused(status) => r == Error(status)
  }

  /** xml_parser::parse, the byte order mark skipped and the last character held back. */
  method ParseBuffer(buf: array<char>, o: Options) returns (outcome: Outcome)
    modifies buf
    ensures StandsFor(buf[..], outcome, Parse(old(buf[..]), o))
  {
    hide IsNodes, Run;
    var n := buf.Length;
    if n == 0 {
      assert IsNodes(buf[..], 0, [], []) by { NoNodes(buf[..]); }
      return if o.fragment then Built([]) else Refused(NoDocumentElement);
    }
    var endch := buf[n - 1];
    ghost var was := buf[..];
    buf[n - 1] := NUL;
    assert buf[..] == was[..n - 1] + [NUL];
    var start := if n > 3 && buf[0] == 0xEF as char && buf[1] == 0xBB as char && buf[2] == 0xBF as char then 3 else 0;
    assert n > 3 ==> buf[..][..3] == [buf[0], buf[1], buf[2]];
    var at, children := ParseTree(buf, start, endch, o);
    if at.Failed? { return Refused(at.status); }
    if endch == '<' { return Refused(UnrecognizedTag); }
    ghost var r := Run(was[..n - 1] + [NUL], endch, o, State(Content, start, [Open([], [], [])]));
    SameElements(buf[..], children, r.stack[0].children);
    var found := HasElementRef(children);
    if !o.fragment && !found { return Refused(NoDocumentElement); }
    return Built(children);
  }

  lemma NoNodes(t: seq<char>)
    ensures IsNodes(t, |t|, [], [])
  {
  }

  lemma {:induction false} NormalTerminates(node: Node)
    requires Normal(node)
    ensures Terminates(node)
    decreases node
  {
    match node
    case Text(_) =>
    case Element(_, attrs, children) =>
      forall i | 0 <= i < |attrs| ensures NUL !in attrs[i].value {
        assert Printable(attrs[i].value, true);
      }
      forall i | 0 <= i < |children| ensures Terminates(children[i]) {
        NormalAllAt(children, i);
        NormalTerminates(children[i]);
      }
  }

  /** A fresh buffer with the given characters. */
  method CopyOf(text: seq<char>) returns (buf: array<char>)
    ensures fresh(buf) && buf[..] == text
  {
    buf := new char[|text|](i requires 0 <= i < |text| => text[i]);
  }

  /**
   A document printed by the one loop and parsed in place by the other comes back as the
   same tree, whether the buffer ends with the text or with a NUL behind it.
   */
  method PrintAndParse(nodes: seq<Node>, o: Options, nul: bool) returns (buf: array<char>, children: seq<NodeRef>)
    requires Document(nodes) && Preserving(o)
    ensures IsNodes(buf[..], buf.Length, children, nodes)
  {
    hide *;
    var writer := new Writer();
    AllTerminate(nodes);
    NodeOutput(writer, nodes);
    assert [] + PrintAll(nodes) == PrintAll(nodes);
    buf := CopyOf(writer.text + if nul then [NUL] else []);
    assert !nul ==> buf[..] == PrintAll(nodes);
    RoundTrip(nodes, o);
    var outcome := ParseBuffer(buf, o);
    Agreed(buf[..], outcome, nodes);
    children := outcome.children;
  }

  lemma AllTerminate(nodes: seq<Node>)
    requires Document(nodes)
    ensures forall i | 0 <= i < |nodes| :: Terminates(nodes[i])
  {
    hide Normal, NormalAll, Terminates;
    forall i | 0 <= i < |nodes| ensures Terminates(nodes[i]) {
      NormalAllAt(nodes, i);
      NormalTerminates(nodes[i]);
    }
  }

  lemma Agreed(t: seq<char>, outcome: Outcome, nodes: seq<Node>)
    requires StandsFor(t, outcome, Parsed(nodes))
    ensures outcome.Built? && IsNodes(t, |t|, outcome.children, nodes)
  {
    hide IsNodes;
  }
}
