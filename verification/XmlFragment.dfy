/**
 Printing and parsing with parse_fragment, where text may stand at the top level too.
 Two things can be lost: three characters that look like a byte order mark at the
 beginning, and, when the buffer does not end in a NUL, the last character of a text
 at the end.  The tree comes back exactly if neither is there to be lost.
 */
module XmlFragment {
  import opened Sequences
  import opened XmlText
  import opened XmlParse
  import opened XmlRoundTrip

  const MARK: seq<char> := [0xEF as char, 0xBB as char, 0xBF as char]

  ghost predicate Fragment(nodes: seq<Node>, o: Options)
  {
    NormalAll(nodes) && Preserving(o) && o.fragment
  }

  lemma ConvertNul(text: seq<char>, s: nat)
    requires Terminated(text) && s < |text| && text[s] == NUL
    ensures Convert(text, s, '<', true, true) == Conversion([], s)
  {
  }

  /** Character data up to a NUL is one text node, whatever it converts to. */
  lemma TextToNul(text: seq<char>, endch: char, o: Options, s: nat, stack: seq<Open>, value: seq<char>, p: nat)
    requires Terminated(text) && Preserving(o) && o.fragment && stack != []
    requires s < p < |text| && text[s] != '<' && text[s] != NUL && text[p] == NUL
    requires Convert(text, s, '<', true, true) == Conversion(value, p)
    ensures Run(text, endch, o, State(Content, s, stack)) == Run(text, endch, o, State(Content, p, AddChild(stack, Text(value))))
  {
    hide Convert;
    var st := State(Content, s, stack);
    assert TextStep(text, o, st) == State(Content, p, AddChild(stack, Text(value)));
    assert Step(text, endch, o, st) == TextStep(text, o, st);
  }

  /** A text at the end. */
  lemma RunLast(text: seq<char>, endch: char, o: Options, s: nat, stack: seq<Open>, value: seq<char>)
    requires Terminated(text) && Preserving(o) && o.fragment && stack != [] && value != [] && Printable(value, false)
    requires Has(text, s, Escaped(value, false))
    requires var p := s + |Escaped(value, false)|; p < |text| && text[p] == NUL
    ensures Run(text, endch, o, State(Content, s, stack))
      == Run(text, endch, o, State(Content, s + |Escaped(value, false)|, AddChild(stack, Text(value))))
  {
    hide Has, Escaped, Convert, Run;
    var p := s + |Escaped(value, false)|;
    ConvertThrough(text, s, value, false);
    ConvertNul(text, p);
    assert value + [] == value;
    EscapedStart(text, s, value);
    TextToNul(text, endch, o, s, stack, value, p);
  }

  /** All nodes of a fragment up to the final NUL are read back. */
  lemma {:induction false} RunTop(text: seq<char>, endch: char, o: Options, s: nat, stack: seq<Open>, nodes: seq<Node>)
    requires Terminated(text) && stack != [] && Fragment(nodes, o)
    requires Has(text, s, PrintAll(nodes))
    requires var e := s + |PrintAll(nodes)|; e < |text| && text[e] == NUL
    ensures Run(text, endch, o, State(Content, s, stack))
      == Run(text, endch, o, State(Content, s + |PrintAll(nodes)|, AddChildren(stack, nodes)))
    decreases |nodes|
  {
    hide Has, PrintAll, Run, Normal, Print;
    if nodes == [] {
      PrintAllNone();
    } else {
      PrintAllCons(nodes);
      HasSplit(text, s, Print(nodes[0]), PrintAll(nodes[1..]));
      if nodes[0].Text? && |nodes| == 1 {
        PrintAllNone();
        TextPrints(nodes[0]);
        RunLast(text, endch, o, s, stack, nodes[0].value);
      } else {
        if nodes[0].Text? { OpensAfter(text, s + |Print(nodes[0])|, nodes[1..]); }
        RunNode(text, endch, o, s, stack, nodes[0]);
      }
      RunTop(text, endch, o, s + |Print(nodes[0])|, AddChild(stack, nodes[0]), nodes[1..]);
    }
  }

  lemma TextPrints(node: Node)
    requires node.Text? && Normal(node)
    ensures Print(node) == Escaped(node.value, false) && node.value != [] && Printable(node.value, false)
  {
  }

  /** An element begins with a bracket and a name. */
  lemma OpensAfter(text: seq<char>, f: nat, nodes: seq<Node>)
    requires NormalAll(nodes) && nodes != [] && nodes[0].Element? && Has(text, f, PrintAll(nodes))
    ensures f + 1 < |text| && text[f] == '<' && text[f + 1] != NUL
  {
    hide Has, PrintAll, Print, Normal;
    NodeStart(nodes[0]);
    PrintAllCons(nodes);
    HasSplit(text, f, Print(nodes[0]), PrintAll(nodes[1..]));
    HasAt(text, f, Print(nodes[0]), 0);
    HasAt(text, f, Print(nodes[0]), 1);
  }

  /** From position s of the buffer to its end, without the mark. */
  lemma ParseFrom(text: seq<char>, endch: char, o: Options, s: nat, nodes: seq<Node>)
    requires Terminated(text) && Fragment(nodes, o) && Has(text, s, PrintAll(nodes)) && |text| == s + |PrintAll(nodes)| + 1
    ensures Run(text, endch, o, State(Content, s, [Open([], [], [])]))
      == State(Done, s + |PrintAll(nodes)|, [Open([], [], nodes)])
  {
    hide Has, PrintAll, NormalAll;
    var root := [Open([], [], [])];
    RunTop(text, endch, o, s, root, nodes);
    RootChildren(nodes);
  }

  lemma RootChildren(nodes: seq<Node>)
    ensures AddChildren([Open([], [], [])], nodes) == [Open([], [], nodes)]
  {
    AddChildrenIs([], [], [], [], nodes);
    assert [] + [Open([], [], [])] == [Open([], [], [])] && [] + nodes == nodes;
  }

  // ----- a mark at the beginning

  /** What is left of a fragment whose text begins with the mark, once that is gone. */
  ghost function Unmarked(nodes: seq<Node>): seq<Node>
    requires nodes != [] && nodes[0].Text? && |nodes[0].value| >= 3
  {
    if |nodes[0].value| == 3 then nodes[1..] else [Text(nodes[0].value[3..])] + nodes[1..]
  }

  lemma NothingEscaped()
    ensures Escaped([], false) == []
  {
  }

  lemma StartsItself(c: char)
    ensures |EscapedChar(c, false)| > 0
    ensures EscapedChar(c, false)[0] as int >= 128 ==> EscapedChar(c, false) == [c]
  {
  }

  /** A first character beyond ASCII is printed as it is. */
  lemma {:induction false} FirstIsValue(value: seq<char>, tail: seq<char>)
    requires tail == [] || tail[0] == '<'
    requires Escaped(value, false) + tail != [] && (Escaped(value, false) + tail)[0] as int >= 128
    ensures value != [] && value[0] == (Escaped(value, false) + tail)[0]
    ensures Escaped(value, false) == [value[0]] + Escaped(value[1..], false)
  {
    hide Escaped, EscapedChar;
    NothingEscaped();
    assert [] + tail == tail;
    if value != [] {
      StartsItself(value[0]);
      EscapedCons(value, false, tail);
      EscapedCons(value, false, []);
      assert Escaped(value, false) + [] == Escaped(value, false);
      assert Escaped(value[1..], false) + [] == Escaped(value[1..], false);
    }
  }

  lemma {:induction false} PlainPrefix(value: seq<char>, tail: seq<char>, mark: seq<char>)
    requires (tail == [] || tail[0] == '<') && mark <= Escaped(value, false) + tail
    requires forall i | 0 <= i < |mark| :: mark[i] as int >= 128
    ensures mark <= value && Escaped(value, false) == mark + Escaped(value[|mark|..], false)
    decreases |mark|
  {
    hide Escaped;
    if mark == [] {
      assert value[0..] == value && [] + Escaped(value, false) == Escaped(value, false);
    } else {
      FirstIsValue(value, tail);
      var all, rest := Escaped(value, false) + tail, Escaped(value[1..], false) + tail;
      assert all == [value[0]] + rest;
      assert mark[1..] == all[1..|mark|] == rest[..|mark| - 1];
      PlainPrefix(value[1..], tail, mark[1..]);
      assert value == [value[0]] + value[1..] && mark == [mark[0]] + mark[1..];
      assert value[1..][|mark| - 1..] == value[|mark|..];
    }
  }

  /** A fragment whose print begins with the mark begins with a text that does. */
  lemma {:induction false} MarkedFirst(nodes: seq<Node>)
    requires NormalAll(nodes) && MARK <= PrintAll(nodes)
    ensures nodes != [] && nodes[0].Text? && MARK <= nodes[0].value && Unmarked(nodes) != nodes
    ensures NormalAll(Unmarked(nodes)) && PrintAll(nodes) == MARK + PrintAll(Unmarked(nodes))
  {
    hide Print, PrintAll, Normal, Escaped;
    PrintAllNone();
    PrintAllCons(nodes);
    assert PrintAll(nodes)[0] == MARK[0];
    if nodes[0].Element? {
      NodeStart(nodes[0]);
    } else {
      var value, tail := nodes[0].value, PrintAll(nodes[1..]);
      TextPrints(nodes[0]);
      if |nodes| > 1 {
        NodeStart(nodes[1]);
        PrintAllCons(nodes[1..]);
      }
      PlainPrefix(value, tail, MARK);
      UnmarkedPrints(nodes);
    }
  }

  lemma {:induction false} UnmarkedPrints(nodes: seq<Node>)
    requires NormalAll(nodes) && nodes != [] && nodes[0].Text? && MARK <= nodes[0].value
    requires Escaped(nodes[0].value, false) == MARK + Escaped(nodes[0].value[3..], false)
    ensures Unmarked(nodes) != nodes && NormalAll(Unmarked(nodes))
    ensures PrintAll(nodes) == MARK + PrintAll(Unmarked(nodes))
  {
    hide Escaped, PrintAll;
    var value := nodes[0].value;
    PrintAllCons(nodes);
    NothingEscaped();
    var rest := Unmarked(nodes);
    if |value| == 3 {
      assert value[3..] == [];
    } else {
      assert rest[1..] == nodes[1..];
      PrintAllCons(rest);
      assert forall i | 0 <= i < |value[3..]| :: value[3..][i] == value[i + 3];
      assert rest[0] != nodes[0];
    }
  }

  /**
   From a buffer that ends in a NUL, a fragment comes back if and only if its print does
   not begin with the three characters of a byte order mark.
   */
  lemma {:induction false} FragmentRoundTrip(nodes: seq<Node>, o: Options)
    requires Fragment(nodes, o)
    ensures Parse(PrintAll(nodes) + [NUL], o) == Parsed(nodes) <==> !(MARK <= PrintAll(nodes))
  {
    hide PrintAll, NormalAll, Run, Has;
    var p := PrintAll(nodes);
    var text := p + [NUL];
    assert text[..|text| - 1] == p;
    HasSelf(p, [NUL]);
    if MARK <= p {
      MarkedFirst(nodes);
      var rest := Unmarked(nodes);
      assert text[..3] == MARK;
      HasSplit(text, 0, MARK, PrintAll(rest));
      ParseFrom(text, NUL, o, 3, rest);
    } else {
      assert |text| > 3 ==> text[..3] == p[..3];
      ParseFrom(text, NUL, o, 0, nodes);
    }
  }

  lemma HasSelf(a: seq<char>, b: seq<char>)
    ensures Has(a + b, 0, a)
  {
  }

  // ----- a last character held back

  /** What the last text of a fragment becomes without the last printed character. */
  ghost function CutValue(w: seq<char>): seq<char>
    requires w != []
  {
    w[..|w| - 1] + CutChar(w[|w| - 1])
  }

  ghost function CutChar(c: char): seq<char>
  {
    var e := EscapedChar(c, false);
    if IsSpecial(c, false) then e[..|e| - 1] else []
  }

  lemma {:induction false} EscapedSnoc(u: seq<char>, c: char)
    ensures Escaped(u + [c], false) == Escaped(u, false) + EscapedChar(c, false)
    decreases |u|
  {
    hide EscapedChar;
    if u == [] {
      assert u + [c] == [c] && [c][1..] == [];
      assert EscapedChar(c, false) + [] == EscapedChar(c, false) == [] + EscapedChar(c, false);
    } else {
      assert (u + [c])[0] == u[0] && (u + [c])[1..] == u[1..] + [c];
      EscapedSnoc(u[1..], c);
      Assoc(EscapedChar(u[0], false), Escaped(u[1..], false), EscapedChar(c, false));
    }
  }

  /** A named reference without its semicolon is passed over as it stands. */
  lemma {:induction false} CutNamed(text: seq<char>, q: nat, name: seq<char>, c: char)
    requires (name, c) in {("amp;", '&'), ("lt;", '<'), ("gt;", '>')}
    requires Terminated(text) && q + |name| < |text| && text[q + |name|] == NUL
    requires var n := |name| - 1; text[q] == '&' && text[q + 1..q + 1 + n] == name[..n]
    ensures Reference(text, q) == Expansion(text[q..q + |name|], q + |name|)
  {
    hide Agree;
    var n := |name| - 1;
    var part := text[q + 1..q + 1 + n];
    assert part[0] == text[q + 1] == name[0] && part[1] == text[q + 2] == name[1];
    AgreeIs(text, q + 1, name, n);
  }

  lemma {:induction false} CutNumeric(text: seq<char>, q: nat, d: char, e: char)
    requires Terminated(text) && q + 4 < |text| && text[q..q + 4] == ['&', '#', d, e] && text[q + 4] == NUL
    requires IsDigit(d) && IsDigit(e)
    ensures Reference(text, q) == Expansion(text[q..q + 4], q + 4)
  {
    var part := text[q..q + 4];
    assert text[q] == part[0] && text[q + 1] == part[1] && text[q + 2] == part[2] && text[q + 3] == part[3];
    var x, y := DigitIn(10, d), DigitIn(10, e);
    assert ReadDigits(text, q + 4, 10, (10 * x + y) % WORD) == Digits(false, q + 4, (10 * x + y) % WORD);
    assert ReadDigits(text, q + 3, 10, x % WORD) == ReadDigits(text, q + 4, 10, (10 * x + y) % WORD);
    assert ReadDigits(text, q + 2, 10, 0) == ReadDigits(text, q + 3, 10, x % WORD);
  }

  /** What is left of a printed special character is read as it stands. */
  lemma {:induction false} CutReference(text: seq<char>, q: nat, c: char)
    requires Terminated(text) && c != NUL && IsSpecial(c, false) && Has(text, q, CutChar(c))
    requires var p := q + |CutChar(c)|; p < |text| && text[p] == NUL
    ensures text[q] == '&' && Reference(text, q) == Expansion(CutChar(c), q + |CutChar(c)|)
  {
    hide Reference;
    var x := CutChar(c);
    HasAt(text, q, x, 0);
    if c == '&' {
      assert x == "&amp" && text[q + 1..q + 4] == text[q..q + 4][1..] == "amp;"[..3];
      CutNamed(text, q, "amp;", c);
    } else if c == '<' {
      assert x == "&lt" && text[q + 1..q + 3] == text[q..q + 3][1..] == "lt;"[..2];
      CutNamed(text, q, "lt;", c);
    } else if c == '>' {
      assert x == "&gt" && text[q + 1..q + 3] == text[q..q + 3][1..] == "gt;"[..2];
      CutNamed(text, q, "gt;", c);
    } else {
      var d, e := DecimalDigit(c as int / 10), DecimalDigit(c as int % 10);
      assert x == ['&', '#', d, e];
      CutNumeric(text, q, d, e);
    }
  }

  /** The character data that is left of a printed text. */
  lemma {:induction false} CutConverts(text: seq<char>, s: nat, w: seq<char>)
    requires Terminated(text) && w != [] && Printable(w, false)
    requires var cut := Escaped(w[..|w| - 1], false) + CutChar(w[|w| - 1]);
      Has(text, s, cut) && s + |cut| < |text| && text[s + |cut|] == NUL
    ensures Convert(text, s, '<', true, true)
      == Conversion(CutValue(w), s + |Escaped(w[..|w| - 1], false) + CutChar(w[|w| - 1])|)
  {
    hide Escaped, Convert, Has, CutChar;
    var u, c := w[..|w| - 1], w[|w| - 1];
    HasSplit(text, s, Escaped(u, false), CutChar(c));
    ConvertThrough(text, s, u, false);
    CutCharConverts(text, s + |Escaped(u, false)|, c);
  }

  lemma {:induction false} CutCharConverts(text: seq<char>, q: nat, c: char)
    requires Terminated(text) && c != NUL && Has(text, q, CutChar(c))
    requires var p := q + |CutChar(c)|; p < |text| && text[p] == NUL
    ensures Convert(text, q, '<', true, true) == Conversion(CutChar(c), q + |CutChar(c)|)
  {
    hide Reference, Has;
    var p := q + |CutChar(c)|;
    ConvertNul(text, p);
    if IsSpecial(c, false) {
      CutReference(text, q, c);
      assert CutChar(c) + [] == CutChar(c);
    }
  }

  /** The end of a fragment, without the last printed character. */
  ghost function CutNode(node: Node): seq<Node>
  {
    match node
    case Element(_, _, _) => [node]
    case Text(w) => if w == [] || CutValue(w) == [] then [] else [Text(CutValue(w))]
  }

  ghost function CutNodes(nodes: seq<Node>): seq<Node>
    requires nodes != []
  {
    nodes[..|nodes| - 1] + CutNode(nodes[|nodes| - 1])
  }

  lemma {:induction false} RunCutText(text: seq<char>, endch: char, o: Options, s: nat, stack: seq<Open>, node: Node)
    requires Terminated(text) && Preserving(o) && o.fragment && stack != [] && node.Text? && Normal(node)
    requires var cut := Print(node)[..|Print(node)| - 1]; Has(text, s, cut) && s + |cut| < |text| && text[s + |cut|] == NUL
    ensures Run(text, endch, o, State(Content, s, stack))
      == Run(text, endch, o, State(Content, s + |Print(node)| - 1, AddChildren(stack, CutNode(node))))
  {
    hide Escaped, Convert, Has, CutChar, Run;
    var w := node.value;
    var u, c := w[..|w| - 1], w[|w| - 1];
    CutPrinted(w);
    CutConverts(text, s, w);
    var p := s + |Print(node)| - 1;
    if CutValue(w) == [] {
      NothingEscaped();
      assert p == s by { assert u == []; }
    } else {
      CutStarts(text, s, w);
      TextToNul(text, endch, o, s, stack, CutValue(w), p);
      OneChild(stack, Text(CutValue(w)));
    }
  }

  lemma OneChild(stack: seq<Open>, node: Node)
    requires stack != []
    ensures AddChildren(stack, [node]) == AddChild(stack, node)
  {
    assert [node][1..] == [];
  }

  lemma {:induction false} CutPrinted(w: seq<char>)
    requires w != []
    ensures var u, c := w[..|w| - 1], w[|w| - 1]; var e := Escaped(w, false);
      e != [] && e[..|e| - 1] == Escaped(u, false) + CutChar(c) && |e| == |Escaped(u, false)| + |CutChar(c)| + 1
  {
    hide Escaped;
    var u, c := w[..|w| - 1], w[|w| - 1];
    assert w == u + [c];
    EscapedSnoc(u, c);
    if !IsSpecial(c, false) {
      PlainChar(c, false);
      assert Escaped(w, false)[..|Escaped(u, false)|] == Escaped(u, false) + [];
    }
  }

  lemma {:induction false} CutStarts(text: seq<char>, s: nat, w: seq<char>)
    requires Terminated(text) && w != [] && Printable(w, false) && CutValue(w) != []
    requires Has(text, s, Escaped(w[..|w| - 1], false) + CutChar(w[|w| - 1]))
    ensures |Escaped(w[..|w| - 1], false) + CutChar(w[|w| - 1])| > 0
    ensures s < |text| && text[s] != '<' && text[s] != NUL
  {
    hide Escaped, Has;
    var u, c := w[..|w| - 1], w[|w| - 1];
    HasSplit(text, s, Escaped(u, false), CutChar(c));
    NothingEscaped();
    if u != [] {
      EscapedStart(text, s, u);
    } else {
      HasAt(text, s, CutChar(c), 0);
    }
  }

  /** All but the last printed character of a fragment: the last node suffers, if it is a text. */
  lemma {:induction false} RunCut(text: seq<char>, endch: char, o: Options, s: nat, stack: seq<Open>, nodes: seq<Node>)
    requires Terminated(text) && stack != [] && Fragment(nodes, o) && nodes != [] && PrintAll(nodes) != []
    requires nodes[|nodes| - 1].Element? ==> endch == '>'
    requires var cut := PrintAll(nodes)[..|PrintAll(nodes)| - 1]; Has(text, s, cut) && s + |cut| < |text| && text[s + |cut|] == NUL
    ensures Run(text, endch, o, State(Content, s, stack))
      == Run(text, endch, o, State(Content, s + |PrintAll(nodes)| - 1, AddChildren(stack, CutNodes(nodes))))
    decreases |nodes|
  {
    hide Has, PrintAll, Run, Normal, Print, CutNode;
    PrintAllCons(nodes);
    if |nodes| == 1 {
      PrintAllNone();
      assert nodes[1..] == [] && Print(nodes[0]) + [] == Print(nodes[0]);
      assert PrintAll(nodes) == Print(nodes[0]) && [] + CutNode(nodes[0]) == CutNode(nodes[0]);
      RunCutNode(text, endch, o, s, stack, nodes[0]);
    } else {
      var first, rest := Print(nodes[0]), PrintAll(nodes[1..]);
      RestPrints(nodes[1..]);
      assert PrintAll(nodes)[..|PrintAll(nodes)| - 1] == first + rest[..|rest| - 1];
      HasSplit(text, s, first, rest[..|rest| - 1]);
      if nodes[0].Text? { OpensCut(text, s + |first|, nodes[1..]); }
      RunNode(text, endch, o, s, stack, nodes[0]);
      RunCut(text, endch, o, s + |first|, AddChild(stack, nodes[0]), nodes[1..]);
      CutCons(stack, nodes);
    }
  }

  lemma RestPrints(nodes: seq<Node>)
    requires NormalAll(nodes) && nodes != []
    ensures PrintAll(nodes) != []
  {
    hide Print, Normal, PrintAll;
    PrintAllCons(nodes);
    PrintsSome(nodes[0]);
  }

  lemma PrintsSome(node: Node)
    requires Normal(node)
    ensures Print(node) != []
  {
    hide PrintAttrs, PrintAll;
    if node.Text? { assert |EscapedChar(node.value[0], false)| > 0; }
  }

  lemma CutCons(stack: seq<Open>, nodes: seq<Node>)
    requires stack != [] && |nodes| > 1
    ensures AddChildren(AddChild(stack, nodes[0]), CutNodes(nodes[1..])) == AddChildren(stack, CutNodes(nodes))
  {
    hide CutNode;
    var all := CutNodes(nodes);
    assert all[0] == nodes[0] && all[1..] == CutNodes(nodes[1..]);
  }

  lemma {:induction false} OpensCut(text: seq<char>, f: nat, nodes: seq<Node>)
    requires NormalAll(nodes) && nodes != [] && nodes[0].Element? && PrintAll(nodes) != []
    requires Has(text, f, PrintAll(nodes)[..|PrintAll(nodes)| - 1])
    ensures f + 1 < |text| && text[f] == '<' && text[f + 1] != NUL
  {
    hide Has, PrintAll, Print, Normal;
    NodeStart(nodes[0]);
    PrintAllCons(nodes);
    HasAt(text, f, PrintAll(nodes)[..|PrintAll(nodes)| - 1], 0);
    HasAt(text, f, PrintAll(nodes)[..|PrintAll(nodes)| - 1], 1);
  }

  lemma {:induction false} RunCutNode(text: seq<char>, endch: char, o: Options, s: nat, stack: seq<Open>, node: Node)
    requires Terminated(text) && Preserving(o) && o.fragment && stack != [] && Normal(node) && Print(node) != []
    requires node.Element? ==> endch == '>'
    requires var cut := Print(node)[..|Print(node)| - 1]; Has(text, s, cut) && s + |cut| < |text| && text[s + |cut|] == NUL
    ensures Run(text, endch, o, State(Content, s, stack))
      == Run(text, endch, o, State(Content, s + |Print(node)| - 1, AddChildren(stack, CutNode(node))))
  {
    hide Has, Run, Normal, Print, Body, AddChildren;
    if node.Text? {
      RunCutText(text, endch, o, s, stack, node);
    } else {
      PrintBody(node);
      assert Print(node)[..|Print(node)| - 1] == Body(node);
      RunElement(text, endch, o, s, stack, node);
      OneChild(stack, node);
    }
  }

  /** The last character of a cut reference is none that is printed as a reference. */
  lemma {:induction false} CutDiffers(w: seq<char>, v: seq<char>)
    requires w != [] && v != [] && w[|w| - 1] == v[|v| - 1] && |w| <= |v|
    ensures CutValue(w) != v
  {
    var c := w[|w| - 1];
    if IsSpecial(c, false) {
      var x := CutValue(w);
      assert x[|x| - 1] == CutChar(c)[|CutChar(c)| - 1];
    }
  }

  ghost predicate Marked(nodes: seq<Node>)
  {
    nodes != [] && nodes[0].Text? && MARK <= nodes[0].value
  }

  /** Cut short, with or without the mark in front, a fragment that ends in a text is not what it was. */
  lemma {:induction false} CutShort(nodes: seq<Node>, from: seq<Node>)
    requires NormalAll(nodes) && nodes != [] && from != [] && nodes[|nodes| - 1].Text?
    requires from == nodes || (Marked(nodes) && from == Unmarked(nodes))
    ensures CutNodes(from) != nodes
  {
    hide Normal, CutValue;
    NormalAllAt(nodes, |nodes| - 1);
    var w, v := from[|from| - 1], nodes[|nodes| - 1];
    LastText(v);
    if |from| == |nodes| {
      CutDiffers(w.value, v.value);
      assert |CutNodes(from)| == |nodes| ==> CutNodes(from)[|nodes| - 1] == Text(CutValue(w.value));
    }
  }

  lemma LastText(node: Node)
    requires node.Text? && Normal(node)
    ensures node.value != []
  {
  }

  lemma {:induction false} ParseCut(text: seq<char>, endch: char, o: Options, s: nat, nodes: seq<Node>)
    requires Terminated(text) && Fragment(nodes, o) && nodes != [] && PrintAll(nodes) != []
    requires nodes[|nodes| - 1].Element? ==> endch == '>'
    requires Has(text, s, PrintAll(nodes)[..|PrintAll(nodes)| - 1]) && |text| == s + |PrintAll(nodes)|
    ensures Run(text, endch, o, State(Content, s, [Open([], [], [])]))
      == State(Done, s + |PrintAll(nodes)| - 1, [Open([], [], CutNodes(nodes))])
  {
    hide Has, PrintAll, NormalAll, CutNodes;
    RunCut(text, endch, o, s, [Open([], [], [])], nodes);
    RootChildren(CutNodes(nodes));
  }

  /** The last printed character: an element ends in a bracket, a text in no opening one. */
  lemma {:induction false} LastPrinted(nodes: seq<Node>)
    requires NormalAll(nodes) && nodes != []
    ensures PrintAll(nodes) != []
    ensures var c := PrintAll(nodes)[|PrintAll(nodes)| - 1]; c != '<' && (nodes[|nodes| - 1].Element? ==> c == '>')
    decreases |nodes|
  {
    hide PrintAll, Print, Normal;
    RestPrints(nodes);
    PrintAllCons(nodes);
    if |nodes| == 1 {
      assert nodes[1..] == [];
      PrintAllNone();
      assert Print(nodes[0]) + [] == Print(nodes[0]);
      LastOf(nodes[0]);
    } else {
      LastPrinted(nodes[1..]);
    }
  }

  lemma {:induction false} LastOf(node: Node)
    requires Normal(node)
    ensures Print(node) != []
    ensures var c := Print(node)[|Print(node)| - 1]; c != '<' && (node.Element? ==> c == '>')
  {
    hide PrintAll, PrintAttrs, Escaped;
    if node.Element? {
      PrintBody(node);
    } else {
      var w := node.value;
      assert w == w[..|w| - 1] + [w[|w| - 1]];
      EscapedSnoc(w[..|w| - 1], w[|w| - 1]);
      assert |EscapedChar(w[|w| - 1], false)| > 0;
    }
  }

  /**
   From a buffer that ends with the print, whose last character is held back, a fragment
   comes back if and only if it is empty, or ends in an element and does not begin with the mark.
   */
  lemma {:induction false} FragmentHeldBack(nodes: seq<Node>, o: Options)
    requires Fragment(nodes, o)
    ensures Parse(PrintAll(nodes), o) == Parsed(nodes)
      <==> nodes == [] || (nodes[|nodes| - 1].Element? && !(MARK <= PrintAll(nodes)))
  {
    hide PrintAll, NormalAll, Run, Has, CutNodes, Unmarked;
    if nodes == [] {
      PrintAllNone();
    } else {
      LastPrinted(nodes);
      var p := PrintAll(nodes);
      var endch, text := p[|p| - 1], p[..|p| - 1] + [NUL];
      HasSelf(p[..|p| - 1], [NUL]);
      if |p| > 3 && MARK <= p {
        MarkedFirst(nodes);
        assert text[..3] == p[..3] == MARK;
        HeldBackMarked(nodes, o, text);
      } else {
        assert |text| > 3 ==> text[..3] == p[..3];
        ParseCut(text, endch, o, 0, nodes);
        HeldBackPlain(nodes);
      }
    }
  }

  lemma {:induction false} HeldBackPlain(nodes: seq<Node>)
    requires NormalAll(nodes) && nodes != []
    ensures CutNodes(nodes) == nodes <==> nodes[|nodes| - 1].Element?
    ensures MARK <= PrintAll(nodes) && |PrintAll(nodes)| <= 3 ==> nodes[|nodes| - 1].Text?
  {
    hide PrintAll, NormalAll, CutValue;
    if nodes[|nodes| - 1].Text? {
      CutShort(nodes, nodes);
    } else {
      LastPrinted(nodes);
    }
  }

  lemma {:induction false} HeldBackMarked(nodes: seq<Node>, o: Options, text: seq<char>)
    requires Fragment(nodes, o) && MARK <= PrintAll(nodes) && |PrintAll(nodes)| > 3
    requires text == PrintAll(nodes)[..|PrintAll(nodes)| - 1] + [NUL]
    ensures nodes != [] && var r := Run(text, PrintAll(nodes)[|PrintAll(nodes)| - 1], o, State(Content, 3, [Open([], [], [])]));
      r.at == Done && |r.stack| == 1 && r.stack[0].children != nodes
  {
    hide PrintAll, NormalAll, Run, Has, CutNodes;
    MarkedFirst(nodes);
    var p, rest := PrintAll(nodes), Unmarked(nodes);
    PrintAllNone();
    LastPrinted(rest);
    var q := PrintAll(rest);
    assert p[..|p| - 1] == MARK + q[..|q| - 1];
    HasSelf(p[..|p| - 1], [NUL]);
    HasSplit(text, 0, MARK, q[..|q| - 1]);
    ParseCut(text, p[|p| - 1], o, 3, rest);
    CutMarked(nodes);
  }

  lemma {:induction false} CutMarked(nodes: seq<Node>)
    requires NormalAll(nodes) && Marked(nodes) && Unmarked(nodes) != []
    ensures CutNodes(Unmarked(nodes)) != nodes
  {
    hide NormalAll, CutValue;
    var rest := Unmarked(nodes);
    if nodes[|nodes| - 1].Text? {
      CutShort(nodes, rest);
    } else {
      assert CutNodes(rest) == rest;
      assert |rest| == |nodes| ==> rest[0].value != nodes[0].value;
    }
  }
}
