/**
 The XML printer (format_raw) and the parser, for documents of elements, attributes
 and character data.  The parser is the goto program of parse_tree: a state stands
 at the loop head, at LOC_TAG or at LOC_ATTRIBUTES, and the cursor with its
 ancestors is a stack of open nodes whose first entry is the document.
 */
module XmlParse {
  import opened XmlText

  datatype Attr = Attr(name: seq<char>, value: seq<char>)

  datatype Node =
    | Element(name: seq<char>, attrs: seq<Attr>, children: seq<Node>)
    | Text(value: seq<char>)

  // ----- printing

  function PrintAttr(a: Attr): seq<char>
  {
    " " + a.name + "=\"" + Escaped(a.value, true) + "\""
  }

  function PrintAttrs(attrs: seq<Attr>): seq<char>
  {
    if attrs == [] then [] else PrintAttr(attrs[0]) + PrintAttrs(attrs[1..])
  }

  function PrintEnd(name: seq<char>): seq<char> { "</" + name + ">" }

  function Print(node: Node): (r: seq<char>)
    decreases node
  {
    match node
    case Text(value) => Escaped(value, false)
    case Element(name, attrs, children) =>
      "<" + name + PrintAttrs(attrs)
      + if children == [] then " />" else ">" + PrintAll(children) + PrintEnd(name)
  }

  function PrintAll(nodes: seq<Node>): seq<char>
    decreases nodes
  {
    if nodes == [] then [] else Print(nodes[0]) + PrintAll(nodes[1..])
  }

  // ----- parsing

  datatype Options = Options(trim: bool, eol: bool, escapes: bool, wsPcdata: bool, wsPcdataSingle: bool, fragment: bool)

  datatype Status =
    | NoDocumentElement
    | UnrecognizedTag
    | BadPi
    | BadStartElement
    | BadAttribute
    | BadEndElement
    | EndElementMismatch
    | NotModelled           // comments, CDATA, processing instructions, DOCTYPE

  /** An open node; the document has no name. */
  datatype Open = Open(name: seq<char>, attrs: seq<Attr>, children: seq<Node>)

  datatype Place = Content | AtTag | Attributes | Done | Failed(status: Status)

  datatype State = State(at: Place, s: nat, stack: seq<Open>)

  function SkipSpace(text: seq<char>, s: nat): (e: nat)
    requires Terminated(text) && s < |text|
    ensures s <= e < |text| && !IsSpace(text[e])
    decreases |text| - s
  {
    if IsSpace(text[s]) then SkipSpace(text, s + 1) else s
  }

  function SymbolEnd(text: seq<char>, s: nat): (e: nat)
    requires Terminated(text) && s < |text|
    ensures s <= e < |text| && !IsSymbol(text[e])
    ensures forall k | s <= k < e :: IsSymbol(text[k])
    decreases |text| - s
  {
    if IsSymbol(text[s]) then SymbolEnd(text, s + 1) else s
  }

  function TagStart(text: seq<char>, s: nat): (e: nat)
    requires Terminated(text) && s < |text|
    ensures s <= e < |text| && (text[e] == '<' || text[e] == NUL)
    decreases |text| - s
  {
    if text[s] == '<' || text[s] == NUL then s else TagStart(text, s + 1)
  }

  /** The ends of a document whose last character has been replaced by the NUL. */
  predicate EndsWith(c: char, e: char, endch: char)
  {
    c == e || (c == NUL && endch == e)
  }

  function AddChild(stack: seq<Open>, node: Node): (r: seq<Open>)
    requires stack != []
    ensures |r| == |stack|
  {
    var top := stack[|stack| - 1];
    stack[|stack| - 1 := top.(children := top.children + [node])]
  }

  function AddAttr(stack: seq<Open>, a: Attr): (r: seq<Open>)
    requires stack != []
    ensures |r| == |stack|
  {
    var top := stack[|stack| - 1];
    stack[|stack| - 1 := top.(attrs := top.attrs + [a])]
  }

  /** PUGI__POPNODE: the open node is complete. */
  function Pop(stack: seq<Open>): (r: seq<Open>)
    requires |stack| > 1
    ensures |r| == |stack| - 1
  {
    var top := stack[|stack| - 1];
    AddChild(stack[..|stack| - 1], Element(top.name, top.attrs, top.children))
  }

  predicate Inv(text: seq<char>, st: State)
  {
    Terminated(text) && st.s < |text| && st.stack != [] && (st.at == Attributes ==> |st.stack| > 1)
  }

  /** Text that is only white space is kept or dropped according to the options. */
  predicate KeepsSpace(text: seq<char>, w: nat, o: Options, stack: seq<Open>)
    requires Terminated(text) && w < |text| && stack != []
  {
    && (o.wsPcdata || o.wsPcdataSingle) && !o.trim
    && (o.wsPcdataSingle ==> text[w] == '<' && text[w + 1] == '/' && stack[|stack| - 1].children == [])
  }

  /** Character data at the loop head. */
  function TextStep(text: seq<char>, o: Options, st: State): (r: State)
    requires Inv(text, st) && text[st.s] != NUL && text[st.s] != '<'
    ensures Inv(text, r) && r.s > st.s && (r.at == Content || r.at == AtTag)
  {
    var w := SkipSpace(text, st.s);
    if (text[w] == '<' || text[w] == NUL) && !KeepsSpace(text, w, o, st.stack) then
      assert w > st.s;
      State(Content, w, st.stack)
    else if |st.stack| > 1 || o.fragment then
      var r := Convert(text, if o.trim then w else st.s, '<', o.eol, o.escapes);
      var stack := AddChild(st.stack, Text(if o.trim then TrimRight(r.value) else r.value));
      assert r.stop > st.s;
      var next := if text[r.stop] == '<' then r.stop + 1 else r.stop;
      State(if text[next] == NUL then Content else AtTag, next, stack)
    else
      var p := TagStart(text, w);
      assert p > st.s;
      if text[p] == NUL then State(Content, p, st.stack) else State(AtTag, p + 1, st.stack)
  }

  /** LOC_TAG: a start tag. */
  function StartStep(text: seq<char>, endch: char, st: State): (r: State)
    requires Inv(text, st) && IsStartSymbol(text[st.s])
    ensures Inv(text, r) && (r.s > st.s || r.at.Failed?) && !r.at.Done?
  {
    var e := SymbolEnd(text, st.s);
    var stack := st.stack + [Open(text[st.s..e], [], [])];
    assert e > st.s;
    if text[e] == '>' then State(Content, e + 1, stack)
    else if IsSpace(text[e]) then State(Attributes, e + 1, stack)
    else if text[e] == '/' then
      if EndsWith(text[e + 1], '>', endch) then
        State(Content, if text[e + 1] == '>' then e + 2 else e + 1, Pop(stack))
      else State(Failed(BadStartElement), e, stack)
    else if text[e] == NUL && endch == '>' then State(Content, e, stack)
    else State(Failed(BadStartElement), e, stack)
  }

  /** LOC_TAG: an end tag, s standing at the slash. */
  function EndStep(text: seq<char>, endch: char, st: State): (r: State)
    requires Inv(text, st) && text[st.s] == '/'
    ensures Inv(text, r) && (r.s > st.s || r.at.Failed?) && !r.at.Done?
  {
    if |st.stack| == 1 then State(Failed(EndElementMismatch), st.s, st.stack) else
    var name := st.stack[|st.stack| - 1].name;
    var e := SymbolEnd(text, st.s + 1);
    if text[st.s + 1..e] != name then
      State(Failed(if text[e] == NUL && name == text[st.s + 1..e] + [endch] then BadEndElement else EndElementMismatch),
            e, st.stack)
    else
      var w := SkipSpace(text, e);
      if text[w] == '>' then State(Content, w + 1, Pop(st.stack))
      else if text[w] == NUL && endch == '>' then State(Content, w, Pop(st.stack))
      else State(Failed(BadEndElement), w, st.stack)
  }

  /** One attribute, s standing at its name. */
  function AttrStep(text: seq<char>, o: Options, st: State): (r: State)
    requires Inv(text, st) && st.at == Attributes && IsStartSymbol(text[st.s])
    ensures Inv(text, r) && (r.s > st.s || r.at.Failed?) && !r.at.Done?
  {
    var e := SymbolEnd(text, st.s);
    var p := if IsSpace(text[e]) then SkipSpace(text, e) else e;
    if text[p] != '=' then State(Failed(BadAttribute), p, st.stack) else
    var q := SkipSpace(text, p + 1);
    if text[q] != '"' && text[q] != '\'' then State(Failed(BadAttribute), q, st.stack) else
    var r := Convert(text, q + 1, text[q], o.eol, o.escapes);
    if text[r.stop] != text[q] then State(Failed(BadAttribute), q, st.stack) else
    if IsStartSymbol(text[r.stop + 1]) then State(Failed(BadAttribute), r.stop + 1, st.stack) else
    State(Attributes, r.stop + 1, AddAttr(st.stack, Attr(text[st.s..e], r.value)))
  }

  /** LOC_ATTRIBUTES */
  function AttributesStep(text: seq<char>, endch: char, o: Options, st: State): (r: State)
    requires Inv(text, st) && st.at == Attributes
    ensures Inv(text, r)
    ensures r.at.Failed? || r.s > st.s || (r.s == st.s && r.at == Content)
    ensures !r.at.Done?
  {
    var w := SkipSpace(text, st.s);
    if IsStartSymbol(text[w]) then AttrStep(text, o, st.(s := w))
    else if text[w] == '/' then
      if text[w + 1] == '>' then State(Content, w + 2, Pop(st.stack))
      else if text[w + 1] == NUL && endch == '>' then State(Content, w + 1, Pop(st.stack))
      else State(Failed(BadStartElement), w + 1, st.stack)
    else if text[w] == '>' then State(Content, w + 1, st.stack)
    else if text[w] == NUL && endch == '>' then State(Content, w, st.stack)
    else State(Failed(BadStartElement), w, st.stack)
  }

  predicate Final(p: Place) { p.Done? || p.Failed? }

  /** One turn: at the loop head, at a tag, or at attributes. */
  function Step(text: seq<char>, endch: char, o: Options, st: State): (r: State)
    requires Inv(text, st) && !Final(st.at)
    ensures Inv(text, r)
    ensures Final(r.at) || r.s > st.s || (r.s == st.s && r.at == Content && st.at == Attributes)
    ensures r.at.Done? ==> |r.stack| == 1
  {
    match st.at
    case Content =>
      if text[st.s] == NUL then
        State(if |st.stack| == 1 then Done else Failed(EndElementMismatch), st.s, st.stack)
      else if text[st.s] == '<' then State(AtTag, st.s + 1, st.stack)
      else TextStep(text, o, st)
    case AtTag =>
      if IsStartSymbol(text[st.s]) then StartStep(text, endch, st)
      else if text[st.s] == '/' then EndStep(text, endch, st)
      else State(Failed(if text[st.s] == '?' || text[st.s] == '!' then NotModelled
                        else if text[st.s] == NUL && endch == '?' then BadPi
                        else UnrecognizedTag), st.s, st.stack)
    case Attributes => AttributesStep(text, endch, o, st)
  }

  /** parse_tree from st on. */
  function Run(text: seq<char>, endch: char, o: Options, st: State): (r: State)
    requires Inv(text, st)
    ensures Inv(text, r) && Final(r.at)
    decreases |text| - st.s, if Final(st.at) then 0 else if st.at == Content then 1 else 2
  {
    if Final(st.at) then st else Run(text, endch, o, Step(text, endch, o, st))
  }

  datatype Result = Parsed(children: seq<Node>) | Error(status: Status)

  predicate HasElement(nodes: seq<Node>)
  {
    exists i | 0 <= i < |nodes| :: nodes[i].Element?
  }

  /** xml_parser::parse on an empty document: the last character is held back as endch. */
  function Parse(buffer: seq<char>, o: Options): Result
  {
    if |buffer| == 0 then (if o.fragment then Parsed([]) else Error(NoDocumentElement)) else
    var endch := buffer[|buffer| - 1];
    var text := buffer[..|buffer| - 1] + [NUL];
    var start := if |text| > 3 && text[..3] == [0xEF as char, 0xBB as char, 0xBF as char] then 3 else 0;
    var r := Run(text, endch, o, State(Content, start, [Open([], [], [])]));
    if r.at.Failed? then Error(r.at.status)
    else if endch == '<' then Error(UnrecognizedTag)
    else if !o.fragment && !HasElement(r.stack[0].children) then Error(NoDocumentElement)
    else Parsed(r.stack[0].children)
  }
}
