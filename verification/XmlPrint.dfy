/**
 The printer as it runs with format_raw: loops over characters and attributes, and one
 walk over the tree that goes down to a first child, on to a next sibling, or up
 through parents whose end tags it writes.
 */
module XmlPrint {
  import opened Sequences
  import opened XmlText
  import opened XmlParse

  /** xml_buffered_writer: everything written so far. */
  class Writer {
    var text: seq<char>

    constructor ()
      ensures text == []
    {
      text := [];
    }

    method Write(s: seq<char>)
      modifies this
      ensures text == old(text) + s
    {
      text := text + s;
    }
  }

  lemma EscapedNext(value: seq<char>, i: nat, attr: bool, before: seq<char>)
    requires i < |value|
    ensures before + Escaped(value[i..], attr) == before + EscapedChar(value[i], attr) + Escaped(value[i + 1..], attr)
  {
    hide EscapedChar;
    assert value[i..][1..] == value[i + 1..];
  }

  /** Ordinary characters stand for themselves. */
  lemma {:induction false} EscapedFrom(value: seq<char>, i: nat, j: nat, attr: bool)
    requires i <= j <= |value| && forall k | i <= k < j :: !IsSpecial(value[k], attr)
    ensures Escaped(value[i..], attr) == value[i..j] + Escaped(value[j..], attr)
    decreases j - i
  {
    hide Escaped, EscapedChar, IsSpecial;
    if i < j {
      EscapedFrom(value, i + 1, j, attr);
      EscapedNext(value, i, attr, []);
      PlainChar(value[i], attr);
      assert value[i..j] == [value[i]] + value[i + 1..j];
      assert [] + Escaped(value[i..], attr) == Escaped(value[i..], attr) && [] + [value[i]] == [value[i]];
      Assoc([value[i]], value[i + 1..j], Escaped(value[j..], attr));
    } else {
      assert value[i..j] + Escaped(value[j..], attr) == Escaped(value[i..], attr);
    }
  }

  /** The end of the ordinary characters from i on. */
  method SkipUsual(value: seq<char>, i: nat, attr: bool) returns (j: nat)
    requires i <= |value|
    ensures i <= j <= |value| && (j == |value| || IsSpecial(value[j], attr))
    ensures forall k | i <= k < j :: !IsSpecial(value[k], attr)
  {
    j := i;
    while j < |value| && !IsSpecial(value[j], attr)
      invariant i <= j <= |value|
      invariant forall k | i <= k < j :: !IsSpecial(value[k], attr)
    {
      j := j + 1;
    }
  }

  /** text_output_escaped: stretches of ordinary characters as they are, the others as references. */
  method TextOutputEscaped(writer: Writer, value: seq<char>, attr: bool)
    requires NUL !in value
    modifies writer
    ensures writer.text == old(writer.text) + Escaped(value, attr)
  {
    hide Escaped, EscapedChar, IsSpecial;
    ghost var all := writer.text + Escaped(value, attr);
    var i := 0;
    assert value[0..] == value;
    while i < |value|
      invariant i <= |value| && writer.text + Escaped(value[i..], attr) == all
    {
      var j := SkipUsual(value, i, attr);
      EscapedFrom(value, i, j, attr);
      Assoc(writer.text, value[i..j], Escaped(value[j..], attr));
      writer.Write(value[i..j]);
      i := j;
      if i < |value| {
        EscapedNext(value, i, attr, writer.text);
        writer.Write(EscapedChar(value[i], attr));
        i := i + 1;
      }
    }
    assert value[|value|..] == [];
    NothingEscaped(attr);
    assert writer.text + [] == writer.text;
  }

  lemma NothingEscaped(attr: bool)
    ensures Escaped([], attr) == []
  {
  }

  /** The strings of a node hold no NUL: they are NUL-terminated in memory. */
  ghost predicate Terminates(node: Node)
    decreases node
  {
    match node
    case Text(value) => NUL !in value
    case Element(_, attrs, children) =>
      (forall i | 0 <= i < |attrs| :: NUL !in attrs[i].value) && forall i | 0 <= i < |children| :: Terminates(children[i])
  }

  /** node_output_attributes */
  method NodeOutputAttributes(writer: Writer, attrs: seq<Attr>)
    requires forall i | 0 <= i < |attrs| :: NUL !in attrs[i].value
    modifies writer
    ensures writer.text == old(writer.text) + PrintAttrs(attrs)
  {
    ghost var all := writer.text + PrintAttrs(attrs);
    var i := 0;
    assert attrs[0..] == attrs;
    while i < |attrs|
      invariant i <= |attrs| && writer.text + PrintAttrs(attrs[i..]) == all
    {
      ghost var before, rest := writer.text, PrintAttrs(attrs[i + 1..]);
      assert attrs[i..][1..] == attrs[i + 1..];
      writer.Write(" ");
      writer.Write(attrs[i].name);
      writer.Write("=\"");
      TextOutputEscaped(writer, attrs[i].value, true);
      writer.Write("\"");
      AttrWritten(before, attrs[i], rest);
      i := i + 1;
    }
    assert writer.text + [] == writer.text;
  }

  lemma AttrWritten(before: seq<char>, a: Attr, rest: seq<char>)
    ensures before + " " + a.name + "=\"" + Escaped(a.value, true) + "\"" + rest == before + (PrintAttr(a) + rest)
  {
    hide Escaped;
  }

  ghost function StartTag(node: Node): seq<char>
    requires node.Element?
  {
    "<" + node.name + PrintAttrs(node.attrs) + if node.children == [] then " />" else ">"
  }

  lemma StartTagWritten(before: seq<char>, node: Node)
    requires node.Element?
    ensures before + "<" + node.name + PrintAttrs(node.attrs) + (if node.children == [] then " />" else ">")
      == before + StartTag(node)
  {
    hide PrintAttrs;
  }

  /** node_output_start: whether the node has children, and so an end tag to come. */
  method NodeOutputStart(writer: Writer, node: Node) returns (open: bool)
    requires node.Element? && Terminates(node)
    modifies writer
    ensures open == (node.children != [])
    ensures writer.text == old(writer.text) + StartTag(node)
  {
    hide PrintAttrs;
    StartTagWritten(writer.text, node);
    writer.Write("<");
    writer.Write(node.name);
    NodeOutputAttributes(writer, node.attrs);
    open := node.children != [];
    writer.Write(if open then ">" else " />");
  }

  /** node_output_end */
  method NodeOutputEnd(writer: Writer, name: seq<char>)
    modifies writer
    ensures writer.text == old(writer.text) + PrintEnd(name)
  {
    writer.Write("</");
    writer.Write(name);
    writer.Write(">");
    Assoc("</", name, ">");
    Assoc(old(writer.text), "</" + name, ">");
    Assoc(old(writer.text), "</", name);
  }

  // ----- the walk

  /** The root, or a position in a child list and the way to the node that has the list. */
  datatype Way = Root | At(siblings: seq<Node>, index: nat, up: Way)
  {
    ghost predicate Valid()
    {
      At? ==>
        && index < |siblings| && Terminates(siblings[index]) && (forall k | 0 <= k < |siblings| :: Terminates(siblings[k]))
        && up.Valid() && (up.At? ==> up.index < |up.siblings| && up.Node().Element? && siblings == up.Node().children)
    }

    function Node(): Node
      requires At? && index < |siblings|
    {
      siblings[index]
    }
  }

  /** What is still to write once the current node is complete. */
  ghost function Rest(w: Way): seq<char>
    requires w.Valid()
  {
    if w.Root? then [] else
      PrintAll(w.siblings[w.index + 1..]) + if w.up.Root? then [] else PrintEnd(w.up.Node().name) + Rest(w.up)
  }

  /** What is still to write when the current node is to be begun. */
  ghost function Todo(w: Way): seq<char>
    requires w.Valid()
  {
    if w.Root? then [] else Print(w.Node()) + Rest(w)
  }

  ghost function Count(node: Node): nat
    decreases node
  {
    match node
    case Text(_) => 1
    case Element(_, _, children) => 1 + CountAll(children)
  }

  ghost function CountAll(nodes: seq<Node>): nat
    decreases nodes
  {
    if nodes == [] then 0 else Count(nodes[0]) + CountAll(nodes[1..])
  }

  /** The nodes not begun once the current node is complete. */
  ghost function Waiting(w: Way): nat
    requires w.Valid()
  {
    if w.Root? then 0 else CountAll(w.siblings[w.index + 1..]) + Waiting(w.up)
  }

  ghost function Left(w: Way): nat
    requires w.Valid()
  {
    if w.Root? then 0 else Count(w.Node()) + Waiting(w)
  }

  /** Moving to the next sibling: what was to write is that sibling and what comes then. */
  lemma NextSibling(w: Way)
    requires w.Valid() && w.At? && w.index + 1 < |w.siblings|
    ensures var next := w.(index := w.index + 1); next.Valid() && Rest(w) == Todo(next) && Waiting(w) == Left(next)
  {
    hide Print, Count, Terminates;
    var next := w.(index := w.index + 1);
    assert w.siblings[w.index + 1..][1..] == next.siblings[next.index + 1..];
  }

  /** The last of its siblings: the parent's end tag comes, then what follows the parent. */
  lemma Upwards(w: Way)
    requires w.Valid() && w.At? && w.index + 1 == |w.siblings|
    ensures w.up.Valid() && Waiting(w) == Waiting(w.up)
    ensures Rest(w) == if w.up.Root? then [] else PrintEnd(w.up.Node().name) + Rest(w.up)
  {
    hide Terminates;
    assert w.siblings[w.index + 1..] == [];
  }

  /** An element with children: its start tag, its first child, the others, and its end tag. */
  lemma PrintParts(node: Node)
    requires node.Element? && node.children != []
    ensures Print(node) == StartTag(node) + (Print(node.children[0]) + (PrintAll(node.children[1..]) + PrintEnd(node.name)))
    ensures Count(node) == 1 + Count(node.children[0]) + CountAll(node.children[1..])
  {
    hide PrintAttrs, PrintEnd;
    var first, others, end := Print(node.children[0]), PrintAll(node.children[1..]), PrintEnd(node.name);
    assert Print(node) == "<" + node.name + PrintAttrs(node.attrs) + (">" + (first + others) + end);
  }

  /** Going down: the current element is its start tag, its first child, and what comes then. */
  lemma Downwards(w: Way)
    requires w.Valid() && w.At? && w.Node().Element? && w.Node().children != []
    ensures var down := At(w.Node().children, 0, w);
      && down.Valid() && Left(w) == 1 + Left(down)
      && Todo(w) == StartTag(w.Node()) + Todo(down)
  {
    hide StartTag, Print, PrintAll, PrintEnd, Count;
    var node, down := w.Node(), At(w.Node().children, 0, w);
    assert Terminates(node);
    PrintParts(node);
    assert node.children[0 + 1..] == node.children[1..];
    Regroup(StartTag(node), Print(node.children[0]), PrintAll(node.children[1..]), PrintEnd(node.name), Rest(w));
  }

  lemma Regroup(a: seq<char>, b: seq<char>, c: seq<char>, d: seq<char>, e: seq<char>)
    ensures a + (b + (c + d)) + e == a + (b + (c + (d + e)))
  {
  }

  lemma NoChildren(w: Way)
    requires w.Valid() && w.At? && w.Node().Element? && w.Node().children == []
    ensures Todo(w) == StartTag(w.Node()) + Rest(w)
    ensures Waiting(w) < Left(w)
  {
    hide PrintAttrs, PrintEnd, Rest;
  }

  lemma OnlyText(w: Way)
    requires w.Valid() && w.At? && w.Node().Text?
    ensures Todo(w) == Escaped(w.Node().value, false) + Rest(w) && NUL !in w.Node().value
    ensures Waiting(w) < Left(w)
  {
    hide Rest;
    assert Terminates(w.Node());
  }

  /** The inner loop of node_output: on to the next node, closing what is complete. */
  method ToNextNode(writer: Writer, from: Way) returns (w: Way)
    requires from.Valid() && from.At?
    modifies writer
    ensures w.Valid() && old(writer.text) + Rest(from) == writer.text + Todo(w) && Waiting(from) == Left(w)
  {
    hide Rest, Waiting, Print, PrintEnd, Count, Terminates;
    w := from;
    while w.At?
      invariant w.Valid() && old(writer.text) + Rest(from) == writer.text + Rest(w)
      invariant Waiting(from) == Waiting(w)
      decreases w
    {
      if w.index + 1 < |w.siblings| {
        NextSibling(w);
        return w.(index := w.index + 1);
      }
      Upwards(w);
      w := w.up;
      if w.At? {
        Assoc(writer.text, PrintEnd(w.Node().name), Rest(w));
        NodeOutputEnd(writer, w.Node().name);
      } else {
        AtRoot();
      }
    }
    AtRoot();
  }

  lemma AtRoot()
    ensures Rest(Root) == [] && Waiting(Root) == 0 && Todo(Root) == [] && Left(Root) == 0
  {
  }

  lemma Beginning(nodes: seq<Node>)
    requires forall i | 0 <= i < |nodes| :: Terminates(nodes[i])
    ensures var w := if nodes == [] then Root else At(nodes, 0, Root);
      w.Valid() && Todo(w) == PrintAll(nodes)
  {
    hide Print, Terminates;
  }

  /** node_output of a document. */
  method NodeOutput(writer: Writer, nodes: seq<Node>)
    requires forall i | 0 <= i < |nodes| :: Terminates(nodes[i])
    modifies writer
    ensures writer.text == old(writer.text) + PrintAll(nodes)
  {
    hide Todo, Rest, Waiting, Left, Terminates, StartTag, PrintAll, Escaped;
    var w := if nodes == [] then Root else At(nodes, 0, Root);
    ghost var all := writer.text + PrintAll(nodes);
    Beginning(nodes);
    while w.At?
      invariant w.Valid() && writer.text + Todo(w) == all
      decreases Left(w)
    {
      ghost var before := writer.text;
      var node := w.Node();
      var open := false;
      if node.Text? {
        OnlyText(w);
        TextOutputEscaped(writer, node.value, false);
        Assoc(before, Escaped(node.value, false), Rest(w));
      } else {
        open := NodeOutputStart(writer, node);
        if open {
          Downwards(w);
          Assoc(before, StartTag(node), Todo(At(node.children, 0, w)));
        } else {
          NoChildren(w);
          Assoc(before, StartTag(node), Rest(w));
        }
      }
      if open {
        w := At(node.children, 0, w);
      } else {
        w := ToNextNode(writer, w);
      }
    }
    AtRoot();
    assert writer.text + [] == writer.text;
  }
}
