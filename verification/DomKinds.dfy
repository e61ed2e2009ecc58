/** Which kinds of nodes hold which, and that the edits keep it so. */
module DomKinds {
  import opened DomLinks
  import opened Dom

  /** A document holds content and a prolog, an element content, and nothing else holds anything. */
  predicate MayHold(parent: Kind, child: Kind)
  {
    match parent
    case Document => Content(child) || Prolog(child)
    case Element => Content(child)
    case _ => false
  }

  predicate Content(k: Kind) { k.Element? || k.Text? || k.OtherKind? }

  predicate Prolog(k: Kind) { k.Declaration? || k.Doctype? }

  /** Insertion is allowed exactly where the kinds permit it. */
  lemma AllowedExactly(parent: Kind, child: Kind)
    ensures AllowInsertChild(parent, child) <==> MayHold(parent, child)
  {
  }

  /** Every node is of a kind that its parent may hold. */
  ghost predicate WellKept(kids: Kids)
  {
    forall n, c | n in kids && c in kids[n] :: MayHold(n.kind, c.kind)
  }

  lemma InsertedMembers(s: seq<Node>, i: nat, c: Node)
    requires i <= |s|
    ensures forall x | x in InsertAt(s, i, c) :: x in s || x == c
    ensures c in InsertAt(s, i, c) && forall x | x in s :: x in InsertAt(s, i, c)
  {
    var t := InsertAt(s, i, c);
    assert t[i] == c;
    assert s == s[..i] + s[i..];
  }

  lemma RemovedMembers(s: seq<Node>, k: nat)
    requires k < |s|
    ensures forall x | x in RemoveAt(s, k) :: x in s
  {
  }

  /** A move keeps the kinds in order exactly if it is allowed. */
  lemma MovedKept(kids: Kids, p: Node, c: Node, n: Node, i: nat)
    requires p in kids && c in kids[p] && n in kids && i <= |Without(kids, p, c)[n]| && WellKept(kids)
    ensures WellKept(Moved(kids, p, c, n, i)) <==> MayHold(n.kind, c.kind)
  {
    hide InsertAt, RemoveAt, MayHold;
    var ks := Without(kids, p, c);
    RemovedMembers(kids[p], IndexOf(kids[p], c));
    InsertedMembers(ks[n], i, c);
    var moved := Moved(kids, p, c, n, i);
    assert moved[n] == InsertAt(ks[n], i, c);
  }

  /** So does a new child. */
  lemma GrownKept(kids: Kids, c: Node, n: Node, i: nat)
    requires n in kids && i <= |kids[n]| && c !in kids && n != c && WellKept(kids)
    ensures WellKept(Grown(kids, c, n, i)) <==> MayHold(n.kind, c.kind)
  {
    hide InsertAt, MayHold;
    InsertedMembers(kids[n], i, c);
    var grown := Grown(kids, c, n, i);
    assert grown[n] == InsertAt(kids[n], i, c);
  }

  /** A removal keeps them in any case. */
  lemma PrunedKept(kids: Kids, p: Node, c: Node, gone: set<Node>)
    requires p in kids && c in kids[p] && WellKept(kids)
    ensures WellKept(Without(kids, p, c) - gone)
  {
    hide RemoveAt, MayHold;
    RemovedMembers(kids[p], IndexOf(kids[p], c));
  }
}
