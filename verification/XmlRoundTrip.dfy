/** Parsing what was printed gives the document back. */
module XmlRoundTrip {
  import opened Sequences
  import opened XmlText
  import opened XmlParse

  /** Line ends and references converted, white space kept: parse_escapes | parse_eol | parse_ws_pcdata. */
  predicate Preserving(o: Options)
  {
    !o.trim && o.eol && o.escapes && o.wsPcdata && !o.wsPcdataSingle
  }

  ghost predicate ValidName(name: seq<char>)
  {
    name != [] && IsStartSymbol(name[0]) && forall i | 0 <= i < |name| :: IsSymbol(name[i])
  }

  ghost predicate NormalAttrs(attrs: seq<Attr>)
  {
    forall i | 0 <= i < |attrs| :: ValidName(attrs[i].name) && Printable(attrs[i].value, true)
  }

  /** Valid names, no NUL, no carriage return in text, no empty text, no two texts side by side. */
  ghost predicate Normal(node: Node)
    decreases node
  {
    match node
    case Text(value) => value != [] && Printable(value, false)
    case Element(name, attrs, children) => ValidName(name) && NormalAttrs(attrs) && NormalAll(children)
  }

  ghost predicate NormalAll(nodes: seq<Node>)
    decreases nodes
  {
    nodes == [] || (
      && Normal(nodes[0])
      && (|nodes| > 1 ==> !(nodes[0].Text? && nodes[1].Text?))
      && NormalAll(nodes[1..]))
  }

  // ----- scanning

  lemma {:induction false} SymbolEndIs(text: seq<char>, s: nat, name: seq<char>)
    requires Terminated(text) && Has(text, s, name) && s + |name| < |text| && !IsSymbol(text[s + |name|])
    requires forall i | 0 <= i < |name| :: IsSymbol(name[i])
    ensures SymbolEnd(text, s) == s + |name|
    decreases |name|
  {
    if name != [] {
      HasAt(text, s, name, 0);
      assert name == name[..1] + name[1..];
      HasSplit(text, s, name[..1], name[1..]);
      SymbolEndIs(text, s + 1, name[1..]);
    }
  }

  lemma NameAt(text: seq<char>, s: nat, name: seq<char>)
    requires Terminated(text) && Has(text, s, name) && ValidName(name)
    requires s + |name| < |text| && !IsSymbol(text[s + |name|])
    ensures SymbolEnd(text, s) == s + |name| && text[s..s + |name|] == name && IsStartSymbol(text[s])
  {
    hide SymbolEnd;
    SymbolEndIs(text, s, name);
    HasAt(text, s, name, 0);
  }

  // ----- attributes

  lemma HasParts(text: seq<char>, s: nat, a: seq<char>, b: seq<char>, c: seq<char>, d: seq<char>)
    requires Has(text, s, a + b + c + d)
    ensures Has(text, s, a) && Has(text, s + |a|, b) && Has(text, s + |a| + |b|, c)
    ensures Has(text, s + |a| + |b| + |c|, d)
  {
    HasSplit(text, s, a + b + c, d);
    HasSplit(text, s, a + b, c);
    HasSplit(text, s, a, b);
  }

  lemma AttrParts(text: seq<char>, s: nat, a: Attr)
    requires Has(text, s, PrintAttr(a))
    ensures Has(text, s + 1, a.name) && s + |PrintAttr(a)| <= |text|
    ensures |PrintAttr(a)| == |a.name| + |Escaped(a.value, true)| + 4
    ensures var n := s + 1 + |a.name|; n + 2 < |text| && text[s] == ' ' && text[n] == '=' && text[n + 1] == '"'
    ensures Has(text, s + |a.name| + 3, Escaped(a.value, true) + ['"'])
  {
    hide Escaped, Has;
    var v := Escaped(a.value, true) + ['"'];
    HasAt(text, s, PrintAttr(a), |PrintAttr(a)| - 1);
    assert PrintAttr(a) == " " + a.name + "=\"" + v;
    HasParts(text, s, " ", a.name, "=\"", v);
    HasAt(text, s, " ", 0);
    HasAt(text, s + 1 + |a.name|, "=\"", 0);
    HasAt(text, s + 1 + |a.name|, "=\"", 1);
    HasAt(text, s + 1 + |a.name| + 2, v, 0);
  }

  lemma AttrStepIs(text: seq<char>, o: Options, st: State, a: Attr, end: nat)
    requires Inv(text, st) && st.at == Attributes && IsStartSymbol(text[st.s]) && Preserving(o)
    requires var n := SymbolEnd(text, st.s);
      && text[st.s..n] == a.name && n + 2 < |text| && text[n] == '=' && text[n + 1] == '"'
      && Convert(text, n + 2, '"', true, true) == Conversion(a.value, end)
    requires text[end] == '"' && end + 1 < |text| && !IsStartSymbol(text[end + 1])
    ensures AttrStep(text, o, st) == State(Attributes, end + 1, AddAttr(st.stack, a))
  {
    hide Convert, IsStartSymbol, SymbolEnd;
  }

  /** One printed attribute is read back, from the blank before it to the character after its quote. */
  lemma RunAttr(text: seq<char>, endch: char, o: Options, s: nat, stack: seq<Open>, a: Attr)
    requires Terminated(text) && Preserving(o) && |stack| > 1
    requires Has(text, s, PrintAttr(a)) && ValidName(a.name) && Printable(a.value, true)
    requires s + |PrintAttr(a)| < |text| && !IsStartSymbol(text[s + |PrintAttr(a)|])
    ensures Run(text, endch, o, State(Attributes, s, stack))
      == Run(text, endch, o, State(Attributes, s + |PrintAttr(a)|, AddAttr(stack, a)))
  {
    hide Has, Escaped, PrintAttr, Convert, ValidName, Printable, AttrStep, SymbolEnd, IsStartSymbol;
    var v := s + |a.name| + 3;
    var end := v + |Escaped(a.value, true)|;
    AttrParts(text, s, a);
    HasSplit(text, v, Escaped(a.value, true), ['"']);
    HasAt(text, end, ['"'], 0);
    Separator('=');
    NameAt(text, s + 1, a.name);
    ConvertEscaped(text, v, a.value, true);
    var st := State(Attributes, s, stack);
    StartIsNoSpace(text[s + 1]);
    assert SkipSpace(text, s) == s + 1;
    AttrStepIs(text, o, st.(s := s + 1), a, end);
    assert Step(text, endch, o, st) == AttrStep(text, o, st.(s := s + 1));
  }

  lemma Separator(c: char)
    requires c == ' ' || c == '=' || c == '>' || c == '/' || c == '<'
    ensures !IsSymbol(c) && !IsStartSymbol(c)
    ensures c == ' ' ==> IsSpace(c)
  {
  }

  lemma StartIsNoSpace(c: char)
    requires IsStartSymbol(c)
    ensures !IsSpace(c) && c != NUL && c != '<' && c != '/' && c != '>'
  {
  }

  /** The stack after the attributes of the node at the cursor have been read. */
  ghost function AddAttrs(stack: seq<Open>, attrs: seq<Attr>): (r: seq<Open>)
    requires stack != []
    ensures |r| == |stack|
    decreases |attrs|
  {
    if attrs == [] then stack else AddAttrs(AddAttr(stack, attrs[0]), attrs[1..])
  }

  lemma {:induction false} AddAttrsIs(below: seq<Open>, name: seq<char>, before: seq<Attr>, attrs: seq<Attr>)
    ensures AddAttrs(below + [Open(name, before, [])], attrs) == below + [Open(name, before + attrs, [])]
    decreases |attrs|
  {
    if attrs == [] {
      assert before + attrs == before;
    } else {
      AddAttrsIs(below, name, before + [attrs[0]], attrs[1..]);
      assert before + [attrs[0]] + attrs[1..] == before + attrs;
      assert AddAttr(below + [Open(name, before, [])], attrs[0]) == below + [Open(name, before + [attrs[0]], [])];
    }
  }

  lemma AttrsStart(attrs: seq<Attr>)
    requires attrs != []
    ensures PrintAttrs(attrs) != [] && PrintAttrs(attrs)[0] == ' '
  {
  }

  /** All printed attributes are read back. */
  lemma {:induction false} RunAttrs(text: seq<char>, endch: char, o: Options, s: nat, stack: seq<Open>, attrs: seq<Attr>)
    requires Terminated(text) && Preserving(o) && |stack| > 1 && NormalAttrs(attrs)
    requires Has(text, s, PrintAttrs(attrs))
    requires s + |PrintAttrs(attrs)| < |text| && !IsStartSymbol(text[s + |PrintAttrs(attrs)|])
    ensures Run(text, endch, o, State(Attributes, s, stack))
      == Run(text, endch, o, State(Attributes, s + |PrintAttrs(attrs)|, AddAttrs(stack, attrs)))
    decreases |attrs|
  {
    hide Has, PrintAttr, Run, IsStartSymbol, IsSymbol;
    if attrs != [] {
      var first := PrintAttr(attrs[0]);
      HasSplit(text, s, first, PrintAttrs(attrs[1..]));
      if |attrs| > 1 {
        AttrsStart(attrs[1..]);
        HasAt(text, s + |first|, PrintAttrs(attrs[1..]), 0);
        Separator(' ');
      }
      RunAttr(text, endch, o, s, stack, attrs[0]);
      RunAttrs(text, endch, o, s + |first|, AddAttr(stack, attrs[0]), attrs[1..]);
    }
  }

  /** A blank before attributes may already have been stepped over. */
  lemma RunBlank(text: seq<char>, endch: char, o: Options, s: nat, stack: seq<Open>)
    requires Terminated(text) && s + 1 < |text| && |stack| > 1 && IsSpace(text[s])
    ensures Run(text, endch, o, State(Attributes, s, stack)) == Run(text, endch, o, State(Attributes, s + 1, stack))
  {
    hide AttrStep;
    var a, b := State(Attributes, s, stack), State(Attributes, s + 1, stack);
    assert SkipSpace(text, s) == SkipSpace(text, s + 1);
    assert Step(text, endch, o, a) == Step(text, endch, o, b);
    assert Run(text, endch, o, a) == Run(text, endch, o, Step(text, endch, o, a));
    assert Run(text, endch, o, b) == Run(text, endch, o, Step(text, endch, o, b));
  }

  /**
   A start tag up to the character after its attributes: a blank (the tag is empty)
   or the closing bracket.
   */
  lemma RunStart(text: seq<char>, endch: char, o: Options, s: nat, stack: seq<Open>, name: seq<char>, attrs: seq<Attr>)
    returns (q: nat)
    requires Terminated(text) && Preserving(o) && stack != [] && ValidName(name) && NormalAttrs(attrs)
    requires Has(text, s, "<" + name + PrintAttrs(attrs))
    requires var q := s + 1 + |name| + |PrintAttrs(attrs)|; q + 1 < |text| && (text[q] == ' ' || text[q] == '>')
    ensures q == s + 1 + |name| + |PrintAttrs(attrs)|
    ensures Run(text, endch, o, State(Content, s, stack))
      == Run(text, endch, o, State(if text[q] == ' ' then Attributes else Content, q + 1, stack + [Open(name, attrs, [])]))
  {
    hide *;
    q := s + 1 + |name| + |PrintAttrs(attrs)|;
    HasSplit(text, s, "<" + name, PrintAttrs(attrs));
    HasSplit(text, s, "<", name);
    HasAt(text, s, "<", 0);
    var n := s + 1 + |name|;
    Separator(text[q]);
    NoAttrs();
    RunName(text, endch, o, s, stack, name, attrs);
    Separator(text[n]);
    var open := stack + [Open(name, [], [])];
    AddAttrsIs(stack, name, [], attrs);
    assert [] + attrs == attrs;
    if attrs != [] || text[q] == ' ' {
      RunBlank(text, endch, o, n, open);
      RunAttrs(text, endch, o, n, open, attrs);
      if text[q] == ' ' {
        RunBlank(text, endch, o, q, stack + [Open(name, attrs, [])]);
      } else {
        RunClose(text, endch, o, q, stack + [Open(name, attrs, [])]);
      }
    }
  }

  lemma NoAttrs()
    ensures PrintAttrs([]) == []
  {
  }

  lemma StartIs(text: seq<char>, endch: char, s: nat, stack: seq<Open>, name: seq<char>, attrs: seq<Attr>)
    requires Terminated(text) && stack != [] && ValidName(name)
    requires s + |name| + 1 < |text| && Has(text, s, name) && Has(text, s + |name|, PrintAttrs(attrs))
    requires var q := s + |name| + |PrintAttrs(attrs)|; q < |text| && (text[q] == ' ' || text[q] == '>')
    ensures IsStartSymbol(text[s]) && (attrs != [] ==> text[s + |name|] == ' ')
    ensures StartStep(text, endch, State(AtTag, s, stack))
      == State(if attrs == [] && text[s + |name|] == '>' then Content else Attributes, s + |name| + 1,
               stack + [Open(name, [], [])])
  {
    hide Has, ValidName, SymbolEnd;
    if attrs != [] {
      AttrsStart(attrs);
      HasAt(text, s + |name|, PrintAttrs(attrs), 0);
    }
    Separator(text[s + |name|]);
    NameAt(text, s, name);
  }

  /** The opening bracket and the name. */
  lemma RunName(text: seq<char>, endch: char, o: Options, s: nat, stack: seq<Open>, name: seq<char>, attrs: seq<Attr>)
    requires Terminated(text) && stack != [] && ValidName(name)
    requires s + 1 + |name| + 1 < |text| && text[s] == '<' && Has(text, s + 1, name)
    requires Has(text, s + 1 + |name|, PrintAttrs(attrs))
    requires var q := s + 1 + |name| + |PrintAttrs(attrs)|; q < |text| && (text[q] == ' ' || text[q] == '>')
    ensures var n := s + 1 + |name|; var open := stack + [Open(name, [], [])];
      && (attrs != [] ==> text[n] == ' ')
      && Run(text, endch, o, State(Content, s, stack))
         == Run(text, endch, o, State(if attrs == [] && text[n] == '>' then Content else Attributes, n + 1, open))
  {
    hide Has, ValidName, PrintAttrs, StartStep, AttributesStep, TextStep, EndStep;
    StartIs(text, endch, s + 1, stack, name, attrs);
    var tag := State(AtTag, s + 1, stack);
    assert Step(text, endch, o, State(Content, s, stack)) == tag;
    assert Step(text, endch, o, tag) == StartStep(text, endch, tag);
    assert Run(text, endch, o, State(Content, s, stack)) == Run(text, endch, o, tag);
    assert Run(text, endch, o, tag) == Run(text, endch, o, StartStep(text, endch, tag));
  }

  lemma RunClose(text: seq<char>, endch: char, o: Options, q: nat, stack: seq<Open>)
    requires Terminated(text) && |stack| > 1 && q + 1 < |text| && text[q] == '>'
    ensures Run(text, endch, o, State(Attributes, q, stack)) == Run(text, endch, o, State(Content, q + 1, stack))
  {
    hide AttrStep;
    assert SkipSpace(text, q) == q;
    assert Step(text, endch, o, State(Attributes, q, stack)) == State(Content, q + 1, stack);
  }

  /** Character data inside an element, or in a fragment, is read back up to the bracket that follows. */
  lemma RunText(text: seq<char>, endch: char, o: Options, s: nat, stack: seq<Open>, value: seq<char>)
    requires Terminated(text) && Preserving(o) && stack != [] && value != [] && Printable(value, false)
    requires |stack| > 1 || o.fragment
    requires Has(text, s, Escaped(value, false) + ['<'])
    requires var p := s + |Escaped(value, false)|; p + 1 < |text| && text[p + 1] != NUL
    ensures Run(text, endch, o, State(Content, s, stack))
      == Run(text, endch, o, State(Content, s + |Escaped(value, false)|, AddChild(stack, Text(value))))
  {
    hide Has, Escaped, Convert, StartStep, EndStep, AttributesStep;
    var p := s + |Escaped(value, false)|;
    ConvertEscaped(text, s, value, false);
    HasSplit(text, s, Escaped(value, false), ['<']);
    HasAt(text, p, ['<'], 0);
    EscapedStart(text, s, value);
    var st := State(Content, s, stack);
    var after := AddChild(stack, Text(value));
    assert TextStep(text, o, st) == State(AtTag, p + 1, after);
    assert Step(text, endch, o, State(Content, p, after)) == State(AtTag, p + 1, after);
    assert Run(text, endch, o, st) == Run(text, endch, o, State(AtTag, p + 1, after));
    assert Run(text, endch, o, State(Content, p, after)) == Run(text, endch, o, State(AtTag, p + 1, after));
  }

  /** Printed text never begins like a tag or the end of the buffer. */
  lemma EscapedStart(text: seq<char>, s: nat, value: seq<char>)
    requires value != [] && Printable(value, false) && Has(text, s, Escaped(value, false))
    ensures s < |text| && text[s] != '<' && text[s] != NUL && |Escaped(value, false)| > 0
  {
    HasAt(text, s, Escaped(value, false), 0);
  }

  // ----- elements

  /** The stack after a list of children has been read at the cursor. */
  ghost function AddChildren(stack: seq<Open>, nodes: seq<Node>): (r: seq<Open>)
    requires stack != []
    ensures |r| == |stack|
    decreases |nodes|
  {
    if nodes == [] then stack else AddChildren(AddChild(stack, nodes[0]), nodes[1..])
  }

  lemma {:induction false} AddChildrenIs(below: seq<Open>, name: seq<char>, attrs: seq<Attr>, before: seq<Node>, nodes: seq<Node>)
    ensures AddChildren(below + [Open(name, attrs, before)], nodes) == below + [Open(name, attrs, before + nodes)]
    decreases |nodes|
  {
    if nodes == [] {
      assert before + nodes == before;
    } else {
      AddChildrenIs(below, name, attrs, before + [nodes[0]], nodes[1..]);
      assert before + [nodes[0]] + nodes[1..] == before + nodes;
      assert AddChild(below + [Open(name, attrs, before)], nodes[0]) == below + [Open(name, attrs, before + [nodes[0]])];
    }
  }

  /** Closing the node at the cursor makes it a child of the one below. */
  lemma PopIs(below: seq<Open>, name: seq<char>, attrs: seq<Attr>, children: seq<Node>)
    requires below != []
    ensures Pop(below + [Open(name, attrs, children)]) == AddChild(below, Element(name, attrs, children))
  {
    var stack := below + [Open(name, attrs, children)];
    assert stack[..|stack| - 1] == below;
  }

  lemma EndIs(text: seq<char>, endch: char, s: nat, below: seq<Open>, name: seq<char>, attrs: seq<Attr>, children: seq<Node>)
    requires Terminated(text) && below != [] && ValidName(name) && s < |text| && text[s] == '/' && Has(text, s + 1, name)
    requires var end := s + 1 + |name|; end < |text| && Closes(text, end, endch)
    ensures EndStep(text, endch, State(AtTag, s, below + [Open(name, attrs, children)]))
      == State(Content, AfterClose(text, s + 1 + |name|), AddChild(below, Element(name, attrs, children)))
  {
    hide Has, ValidName, SymbolEnd, Pop, AddChild;
    var end := s + 1 + |name|;
    Separator('>');
    assert SkipSpace(text, end) == end;
    NulIsNoSymbol();
    NameAt(text, s + 1, name);
    PopIs(below, name, attrs, children);
  }

  /** An end tag; end is its bracket, or the NUL standing for the bracket held back. */
  lemma RunEnd(text: seq<char>, endch: char, o: Options, s: nat, below: seq<Open>, name: seq<char>, attrs: seq<Attr>, children: seq<Node>)
    requires Terminated(text) && below != [] && ValidName(name) && Has(text, s, "</" + name)
    requires var end := s + 2 + |name|; end < |text| && Closes(text, end, endch)
    ensures Run(text, endch, o, State(Content, s, below + [Open(name, attrs, children)]))
      == Run(text, endch, o, State(Content, AfterClose(text, s + 2 + |name|), AddChild(below, Element(name, attrs, children))))
  {
    hide Has, ValidName, EndStep, AttributesStep, TextStep, StartStep, AddChild, Closes, AfterClose;
    HasSplit(text, s, "</", name);
    HasAt(text, s, "</", 0);
    HasAt(text, s, "</", 1);
    Separator('/');
    EndIs(text, endch, s + 1, below, name, attrs, children);
    var stack := below + [Open(name, attrs, children)];
    var tag := State(AtTag, s + 1, stack);
    assert Step(text, endch, o, State(Content, s, stack)) == tag;
    assert Step(text, endch, o, tag) == EndStep(text, endch, tag);
    assert Run(text, endch, o, State(Content, s, stack)) == Run(text, endch, o, tag);
    assert Run(text, endch, o, tag) == Run(text, endch, o, EndStep(text, endch, tag));
  }

  /** At end stands the closing bracket, or the NUL in its place. */
  predicate Closes(text: seq<char>, end: nat, endch: char)
    requires Terminated(text) && end < |text|
  {
    text[end] == '>' || (text[end] == NUL && endch == '>')
  }

  function AfterClose(text: seq<char>, end: nat): (r: nat)
    requires Terminated(text) && end < |text|
    ensures r < |text|
  {
    if text[end] == '>' then end + 1 else end
  }

  lemma NulIsNoSymbol()
    ensures !IsSymbol(NUL) && !IsSpace(NUL) && !IsSpace('>') && !IsSpace('/')
  {
  }

  /** The slash of an empty tag, and its bracket or the NUL standing for it. */
  lemma RunEmpty(text: seq<char>, endch: char, o: Options, s: nat, below: seq<Open>, name: seq<char>, attrs: seq<Attr>)
    requires Terminated(text) && below != [] && s + 1 < |text| && text[s] == '/' && Closes(text, s + 1, endch)
    ensures Run(text, endch, o, State(Attributes, s, below + [Open(name, attrs, [])]))
      == Run(text, endch, o, State(Content, AfterClose(text, s + 1), AddChild(below, Element(name, attrs, []))))
  {
    hide AttrStep, Pop;
    assert SkipSpace(text, s) == s;
    PopIs(below, name, attrs, []);
    var st := State(Attributes, s, below + [Open(name, attrs, [])]);
    assert Step(text, endch, o, st) == State(Content, AfterClose(text, s + 1), Pop(st.stack));
  }

  /** The printed node without its last character. */
  ghost function Body(node: Node): seq<char>
    requires node.Element?
  {
    var start := "<" + node.name + PrintAttrs(node.attrs);
    if node.children == [] then start + " /"
    else start + ">" + PrintAll(node.children) + "</" + node.name
  }

  lemma PrintBody(node: Node)
    requires node.Element?
    ensures Print(node) == Body(node) + ">"
  {
    var start := "<" + node.name + PrintAttrs(node.attrs);
    if node.children == [] {
      assert start + " />" == start + " /" + ">";
    } else {
      var kids := PrintAll(node.children);
      assert start + (">" + kids + ("</" + node.name + ">")) == start + ">" + kids + "</" + node.name + ">";
    }
  }

  lemma BodyParts(text: seq<char>, s: nat, node: Node)
    requires node.Element? && Has(text, s, Body(node))
    ensures var start := "<" + node.name + PrintAttrs(node.attrs); var q := s + |start|;
      && Has(text, s, start) && q + 1 < |text|
      && if node.children == [] then text[q] == ' ' && text[q + 1] == '/' && |Body(node)| == |start| + 2
         else
           var e := q + 1 + |PrintAll(node.children)|;
           && text[q] == '>' && Has(text, q + 1, PrintAll(node.children)) && Has(text, e, "</" + node.name)
           && text[e] == '<' && e + 1 < |text| && text[e + 1] == '/' && s + |Body(node)| == e + 2 + |node.name|
  {
    hide PrintAttrs, PrintAll, Has;
    var start := "<" + node.name + PrintAttrs(node.attrs);
    var q := s + |start|;
    if node.children == [] {
      HasSplit(text, s, start, " /");
      HasAt(text, q, " /", 0);
      HasAt(text, q, " /", 1);
    } else {
      var kids := PrintAll(node.children);
      assert Body(node) == start + ">" + kids + ("</" + node.name);
      HasParts(text, s, start, ">", kids, "</" + node.name);
      HasAt(text, q, ">", 0);
      HasAt(text, q + 1 + |kids|, "</" + node.name, 0);
      HasAt(text, q + 1 + |kids|, "</" + node.name, 1);
    }
  }

  /** An element is read back whole; the text may end with its closing bracket held back. */
  lemma RunElement(text: seq<char>, endch: char, o: Options, s: nat, below: seq<Open>, node: Node)
    requires Terminated(text) && Preserving(o) && below != [] && node.Element? && Normal(node)
    requires Has(text, s, Body(node))
    requires s + |Body(node)| < |text| && Closes(text, s + |Body(node)|, endch)
    ensures Run(text, endch, o, State(Content, s, below))
      == Run(text, endch, o, State(Content, AfterClose(text, s + |Body(node)|), AddChild(below, node)))
    decreases node, 1
  {
    hide Has, PrintAttrs, PrintAll, ValidName, NormalAttrs, NormalAll, Run, Body, Closes, AddChild;
    BodyParts(text, s, node);
    var q := RunStart(text, endch, o, s, below, node.name, node.attrs);
    if node.children == [] {
      RunEmpty(text, endch, o, q + 1, below, node.name, node.attrs);
    } else {
      var e := q + 1 + |PrintAll(node.children)|;
      NulIsNoSymbol();
      RunNodes(text, endch, o, q + 1, below + [Open(node.name, node.attrs, [])], node.children);
      AddChildrenIs(below, node.name, node.attrs, [], node.children);
      assert [] + node.children == node.children;
      RunEnd(text, endch, o, e, below, node.name, node.attrs, node.children);
    }
  }

  lemma NodeStart(node: Node)
    requires node.Element? && Normal(node)
    ensures |Print(node)| > 2 && Print(node)[0] == '<' && Print(node)[1] != NUL
  {
    hide PrintAttrs, PrintAll;
    assert Print(node)[1] == node.name[0];
  }

  lemma PrintAllCons(nodes: seq<Node>)
    requires nodes != []
    ensures PrintAll(nodes) == Print(nodes[0]) + PrintAll(nodes[1..])
  {
  }

  /** After nodes[0] there is an opening bracket, if nodes[0] is text. */
  lemma AfterFirst(text: seq<char>, s: nat, nodes: seq<Node>)
    requires Terminated(text) && NormalAll(nodes) && nodes != [] && Has(text, s, PrintAll(nodes))
    requires var e := s + |PrintAll(nodes)|; e + 1 < |text| && text[e] == '<' && text[e + 1] != NUL
    ensures var f := s + |Print(nodes[0])|;
      && Has(text, s, Print(nodes[0])) && Has(text, f, PrintAll(nodes[1..])) && f + 1 < |text|
      && s + |PrintAll(nodes)| == f + |PrintAll(nodes[1..])|
      && (nodes[0].Text? ==> text[f] == '<' && text[f + 1] != NUL)
  {
    hide Print, Has, PrintAll, Normal;
    PrintAllCons(nodes);
    HasSplit(text, s, Print(nodes[0]), PrintAll(nodes[1..]));
    var f := s + |Print(nodes[0])|;
    if |nodes| == 1 {
      PrintAllNone();
    } else if nodes[0].Text? {
      NodeStart(nodes[1]);
      PrintAllCons(nodes[1..]);
      HasSplit(text, f, Print(nodes[1]), PrintAll(nodes[1..][1..]));
      HasAt(text, f, Print(nodes[1]), 0);
      HasAt(text, f, Print(nodes[1]), 1);
    }
  }

  lemma PrintAllNone()
    ensures PrintAll([]) == []
  {
  }

  /** The children of an element are read back. */
  lemma RunNodes(text: seq<char>, endch: char, o: Options, s: nat, stack: seq<Open>, nodes: seq<Node>)
    requires Terminated(text) && Preserving(o) && |stack| > 1 && NormalAll(nodes)
    requires Has(text, s, PrintAll(nodes))
    requires var e := s + |PrintAll(nodes)|; e + 1 < |text| && text[e] == '<' && text[e + 1] != NUL
    ensures Run(text, endch, o, State(Content, s, stack))
      == Run(text, endch, o, State(Content, s + |PrintAll(nodes)|, AddChildren(stack, nodes)))
    decreases nodes, 0
  {
    hide Has, PrintAll, Run, Normal;
    if nodes == [] {
      PrintAllNone();
    } else {
      AfterFirst(text, s, nodes);
      RunNode(text, endch, o, s, stack, nodes[0]);
      RunNodes(text, endch, o, s + |Print(nodes[0])|, AddChild(stack, nodes[0]), nodes[1..]);
    }
  }

  lemma RunNode(text: seq<char>, endch: char, o: Options, s: nat, stack: seq<Open>, node: Node)
    requires Terminated(text) && Preserving(o) && stack != [] && Normal(node)
    requires node.Text? ==> |stack| > 1 || o.fragment
    requires Has(text, s, Print(node)) && s + |Print(node)| < |text|
    requires var f := s + |Print(node)|; node.Text? ==> f + 1 < |text| && text[f] == '<' && text[f + 1] != NUL
    ensures Run(text, endch, o, State(Content, s, stack))
      == Run(text, endch, o, State(Content, s + |Print(node)|, AddChild(stack, node)))
    decreases node, 2
  {
    hide Has, PrintAll, PrintAttrs, Run, Body;
    var f := s + |Print(node)|;
    match node
    case Text(value) =>
      HasJoin(text, s, Escaped(value, false), ['<']);
      RunText(text, endch, o, s, stack, value);
    case Element(_, _, _) =>
      PrintBody(node);
      HasSplit(text, s, Body(node), ">");
      HasAt(text, s + |Body(node)|, ">", 0);
      RunElement(text, endch, o, s, stack, node);
  }

  lemma HasJoin(text: seq<char>, s: nat, a: seq<char>, b: seq<char>)
    requires Has(text, s, a) && Has(text, s + |a|, b)
    ensures Has(text, s, a + b)
  {
    assert text[s..s + |a + b|] == text[s..s + |a|] + text[s + |a|..s + |a| + |b|];
  }

  // ----- documents

  /** A document node's children: at least one, all of them elements. */
  ghost predicate Document(nodes: seq<Node>)
  {
    nodes != [] && NormalAll(nodes) && forall i | 0 <= i < |nodes| :: nodes[i].Element?
  }

  lemma {:induction false} PrintAllSnoc(nodes: seq<Node>, last: Node)
    ensures PrintAll(nodes + [last]) == PrintAll(nodes) + Print(last)
    decreases |nodes|
  {
    hide Print;
    PrintAllCons(nodes + [last]);
    if nodes == [] {
      assert (nodes + [last])[1..] == [];
    } else {
      assert (nodes + [last])[1..] == nodes[1..] + [last];
      PrintAllSnoc(nodes[1..], last);
      Assoc(Print(nodes[0]), PrintAll(nodes[1..]), Print(last));
    }
  }

  lemma {:induction false} NormalAllAt(nodes: seq<Node>, i: nat)
    requires NormalAll(nodes) && i < |nodes|
    ensures Normal(nodes[i]) && NormalAll(nodes[..i])
    decreases i
  {
    hide Normal;
    if i > 0 {
      NormalAllAt(nodes[1..], i - 1);
      assert nodes[..i][1..] == nodes[1..][..i - 1];
    }
  }

  /** Elements at the top level are read back one after another. */
  lemma {:induction false} RunElements(text: seq<char>, endch: char, o: Options, s: nat, stack: seq<Open>, nodes: seq<Node>)
    requires Terminated(text) && Preserving(o) && stack != [] && NormalAll(nodes)
    requires forall i | 0 <= i < |nodes| :: nodes[i].Element?
    requires Has(text, s, PrintAll(nodes)) && s + |PrintAll(nodes)| < |text|
    ensures Run(text, endch, o, State(Content, s, stack))
      == Run(text, endch, o, State(Content, s + |PrintAll(nodes)|, AddChildren(stack, nodes)))
    decreases |nodes|
  {
    hide Has, PrintAll, Run, Normal, Print;
    if nodes == [] {
      PrintAllNone();
    } else {
      PrintAllCons(nodes);
      HasSplit(text, s, Print(nodes[0]), PrintAll(nodes[1..]));
      RunNode(text, endch, o, s, stack, nodes[0]);
      RunElements(text, endch, o, s + |Print(nodes[0])|, AddChild(stack, nodes[0]), nodes[1..]);
    }
  }

  /** The printed document without its last character. */
  ghost function AllButLast(nodes: seq<Node>): seq<char>
    requires Document(nodes)
  {
    PrintAll(nodes[..|nodes| - 1]) + Body(nodes[|nodes| - 1])
  }

  lemma PrintDocument(nodes: seq<Node>)
    requires Document(nodes)
    ensures PrintAll(nodes) == AllButLast(nodes) + ">"
    ensures |PrintAll(nodes)| > 2 && PrintAll(nodes)[0] == '<'
  {
    hide PrintAll, Print, Body, NormalAll, Normal;
    var n := |nodes| - 1;
    assert nodes == nodes[..n] + [nodes[n]];
    PrintAllSnoc(nodes[..n], nodes[n]);
    PrintBody(nodes[n]);
    Assoc(PrintAll(nodes[..n]), Body(nodes[n]), ">");
    NormalAllAt(nodes, 0);
    NodeStart(nodes[0]);
    PrintAllCons(nodes);
  }

  /** The whole run of the parser on a printed document, with or without its last bracket. */
  lemma RunDocument(text: seq<char>, endch: char, o: Options, nodes: seq<Node>)
    requires Document(nodes) && Preserving(o) && Terminated(text)
    requires Has(text, 0, AllButLast(nodes)) && |AllButLast(nodes)| < |text|
    requires var end := |AllButLast(nodes)|; Closes(text, end, endch) && text[AfterClose(text, end)] == NUL
    ensures var r := Run(text, endch, o, State(Content, 0, [Open([], [], [])]));
      r.at == Done && r.stack == [Open([], [], nodes)]
  {
    hide Has, PrintAll, Body, NormalAll, Normal, AddChild, Closes;
    var n := |nodes| - 1;
    var root := [Open([], [], [])];
    var s := |PrintAll(nodes[..n])|;
    NormalAllAt(nodes, n);
    HasSplit(text, 0, PrintAll(nodes[..n]), Body(nodes[n]));
    RunElements(text, endch, o, 0, root, nodes[..n]);
    RunElement(text, endch, o, s, AddChildren(root, nodes[..n]), nodes[n]);
    AllChildren(nodes);
  }

  lemma AllChildren(nodes: seq<Node>)
    requires nodes != []
    ensures AddChild(AddChildren([Open([], [], [])], nodes[..|nodes| - 1]), nodes[|nodes| - 1]) == [Open([], [], nodes)]
  {
    var n := |nodes| - 1;
    AddChildrenIs([], [], [], [], nodes[..n]);
    assert [] + [Open([], [], [])] == [Open([], [], [])];
    assert [] + nodes[..n] + [nodes[n]] == nodes;
  }

  /**
   Printing a document in normal form and parsing the result gives the same document,
   whether the buffer was copied (and so ends in a NUL) or is parsed in place (and
   loses its last character to the terminator).
   */
  lemma RoundTrip(nodes: seq<Node>, o: Options)
    requires Document(nodes) && Preserving(o)
    ensures Parse(PrintAll(nodes), o) == Parsed(nodes)
    ensures Parse(PrintAll(nodes) + [NUL], o) == Parsed(nodes)
  {
    hide PrintAll, AllButLast, NormalAll, Run;
    var printed, body := PrintAll(nodes), AllButLast(nodes);
    PrintDocument(nodes);
    assert nodes[0].Element?;
    var cut := body + [NUL];
    assert printed[..|printed| - 1] == body;
    assert cut[..|body|] == body;
    RunDocument(cut, '>', o, nodes);
    var whole := printed + [NUL];
    assert whole[..|whole| - 1] == printed;
    assert whole[..|body|] == body && whole[|body|] == '>';
    RunDocument(whole, NUL, o, nodes);
  }
}
