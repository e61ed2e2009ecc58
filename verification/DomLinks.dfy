/**
 Child lists in the document tree: next links end in null, and prev links run in a
 circle, the first child's leading to the last one.  The pointers' values are looked at
 as a map, so that what a few writes do to all lists is a matter of maps and sequences.
 */
module DomLinks {

  datatype Kind = Null | Document | Element | Text | Declaration | Doctype | OtherKind(id: nat)

  /** xml_node_struct; content stands for its name, value and attributes. */
  class Node {
    const kind: Kind
    const document: nat
    var content: string
    var parent: Node?
    var firstChild: Node?
    var prevSibling: Node?
    var nextSibling: Node?

    constructor (kind: Kind, document: nat)
      ensures this.kind == kind && this.document == document && content == ""
      ensures parent == null && firstChild == null && prevSibling == null && nextSibling == null
    {
      this.kind, this.document, content := kind, document, "";
      parent, firstChild, prevSibling, nextSibling := null, null, null, null;
    }
  }

  datatype Link = Link(parent: Node?, first: Node?, prev: Node?, next: Node?)

  type Links = map<Node, Link>

  type Kids = map<Node, seq<Node>>

  ghost function LinksOf(nodes: set<Node>): (h: Links)
    reads nodes`parent, nodes`firstChild, nodes`prevSibling, nodes`nextSibling
    ensures h.Keys == nodes
  {
    map n | n in nodes :: Link(n.parent, n.firstChild, n.prevSibling, n.nextSibling)
  }

  lemma FieldsOf(nodes: set<Node>, n: Node)
    requires n in nodes
    ensures LinksOf(nodes)[n] == Link(n.parent, n.firstChild, n.prevSibling, n.nextSibling)
  {
  }

  /** A write to one field, and what it means for the links. */
  method SetParent(n: Node, v: Node?, ghost nodes: set<Node>)
    requires n in nodes
    modifies n`parent
    ensures LinksOf(nodes) == old(LinksOf(nodes))[n := old(LinksOf(nodes))[n].(parent := v)]
  {
    n.parent := v;
  }

  method SetFirst(n: Node, v: Node?, ghost nodes: set<Node>)
    requires n in nodes
    modifies n`firstChild
    ensures LinksOf(nodes) == old(LinksOf(nodes))[n := old(LinksOf(nodes))[n].(first := v)]
  {
    n.firstChild := v;
  }

  method SetPrev(n: Node, v: Node?, ghost nodes: set<Node>)
    requires n in nodes
    modifies n`prevSibling
    ensures LinksOf(nodes) == old(LinksOf(nodes))[n := old(LinksOf(nodes))[n].(prev := v)]
  {
    n.prevSibling := v;
  }

  method SetNext(n: Node, v: Node?, ghost nodes: set<Node>)
    requires n in nodes
    modifies n`nextSibling
    ensures LinksOf(nodes) == old(LinksOf(nodes))[n := old(LinksOf(nodes))[n].(next := v)]
  {
    n.nextSibling := v;
  }

  // ----- one list

  /** The child at i of ks, linked to its neighbours and to its parent n. */
  ghost predicate Linked(h: Links, n: Node, ks: seq<Node>, i: nat)
    requires i < |ks|
  {
    && ks[i] in h && h[ks[i]].parent == n
    && h[ks[i]].next == (if i + 1 < |ks| then ks[i + 1] else null)
    && h[ks[i]].prev == (if i > 0 then ks[i - 1] else ks[|ks| - 1])
  }

  /** The children of n are ks, in this order and without repetition. */
  ghost predicate Listed(h: Links, n: Node, ks: seq<Node>)
  {
    && n in h && h[n].first == (if ks == [] then null else ks[0])
    && (forall x | x in ks :: x in h)
    && (forall i | 0 <= i < |ks| :: Linked(h, n, ks, i))
    && (forall i, j | 0 <= i < j < |ks| :: ks[i] != ks[j])
  }

  /** n is among its parent's children; without a parent it has no next sibling either. */
  ghost predicate Attached(h: Links, kids: Kids, n: Node)
  {
    n in h && if h[n].parent == null then h[n].next == null else h[n].parent in kids && n in kids[h[n].parent]
  }

  /** Every list is in order, and every node that has a parent is in its parent's list. */
  ghost predicate Forest(h: Links, kids: Kids)
  {
    && kids.Keys == h.Keys
    && (forall n | n in h :: Listed(h, n, kids[n]) && Attached(h, kids, n))
  }

  lemma MakeForest(h: Links, kids: Kids)
    requires kids.Keys == h.Keys && forall n | n in h :: Listed(h, n, kids[n]) && Attached(h, kids, n)
    ensures Forest(h, kids)
  {
  }

  // ----- inserting and removing

  function InsertAt<T>(s: seq<T>, i: nat, x: T): (r: seq<T>)
    requires i <= |s|
    ensures |r| == |s| + 1
  {
    s[..i] + [x] + s[i..]
  }

  function RemoveAt<T>(s: seq<T>, i: nat): (r: seq<T>)
    requires i < |s|
    ensures |r| == |s| - 1
  {
    s[..i] + s[i + 1..]
  }

  /** Where x first occurs in s, or the length of s. */
  function IndexOf<T(==)>(s: seq<T>, x: T): (k: nat)
    ensures k <= |s| && (k < |s| ==> s[k] == x) && (x in s ==> k < |s|)
  {
    if s == [] || s[0] == x then 0 else 1 + IndexOf(s[1..], x)
  }

  lemma InsertAtIs<T>(s: seq<T>, i: nat, x: T, k: nat)
    requires i <= |s| && k <= |s|
    ensures InsertAt(s, i, x)[k] == if k < i then s[k] else if k == i then x else s[k - 1]
  {
  }

  lemma RemoveAtIs<T>(s: seq<T>, i: nat, k: nat)
    requires i < |s| && k < |s| - 1
    ensures RemoveAt(s, i)[k] == if k < i then s[k] else s[k + 1]
  {
  }

  /** The links once c has been put at position i of ks, the children of n. */
  ghost function Spliced(h: Links, n: Node, ks: seq<Node>, i: nat, c: Node): Links
    requires i <= |ks| && n in h && c in h && (forall x | x in ks :: x in h)
  {
    var prev := if ks == [] then c else if i == 0 then ks[|ks| - 1] else ks[i - 1];
    var next := if i < |ks| then ks[i] else null;
    var h1 := h[c := Link(n, h[c].first, prev, next)];
    var h2 := if i == 0 then h1[n := h1[n].(first := c)] else h1[ks[i - 1] := h1[ks[i - 1]].(next := c)];
    if ks == [] then h2
    else
      var after := if i < |ks| then ks[i] else ks[0];
      h2[after := h2[after].(prev := c)]
  }

  /** The links once the child at i of ks has been taken out. */
  ghost function Unlinked(h: Links, n: Node, ks: seq<Node>, i: nat): Links
    requires i < |ks| && n in h && (forall x | x in ks :: x in h)
  {
    var c := ks[i];
    var h1 := if i + 1 < |ks| then h[ks[i + 1] := h[ks[i + 1]].(prev := h[c].prev)]
              else h[ks[0] := h[ks[0]].(prev := h[c].prev)];
    var h2 := if i > 0 then h1[ks[i - 1] := h1[ks[i - 1]].(next := h1[c].next)]
              else h1[n := h1[n].(first := h1[c].next)];
    h2[c := Link(null, h2[c].first, null, null)]
  }

  /** Where a list begins and ends. */
  lemma Ends(h: Links, n: Node, ks: seq<Node>)
    requires Listed(h, n, ks)
    ensures ks == [] ==> h[n].first == null
    ensures ks != [] ==> h[n].first == ks[0] && ks[0] in h && ks[|ks| - 1] in h && h[ks[0]].prev == ks[|ks| - 1]
    ensures ks != [] ==> h[ks[|ks| - 1]].next == null
  {
    if ks != [] { assert Linked(h, n, ks, 0) && Linked(h, n, ks, |ks| - 1); }
  }

  /** What surrounds the child at k. */
  lemma Around(h: Links, n: Node, ks: seq<Node>, k: nat)
    requires Listed(h, n, ks) && k < |ks|
    ensures ks[k] in h && h[ks[k]].parent == n && h[n].first == ks[0] && ks[0] in h && ks[|ks| - 1] in h
    ensures h[ks[0]].prev == ks[|ks| - 1]
    ensures h[ks[k]].next == (if k + 1 < |ks| then ks[k + 1] else null) && (k + 1 < |ks| ==> ks[k + 1] in h)
    ensures h[ks[k]].prev == (if k > 0 then ks[k - 1] else ks[|ks| - 1]) && (k > 0 ==> ks[k - 1] in h)
    ensures h[if k > 0 then ks[k - 1] else ks[|ks| - 1]].next == if k > 0 then ks[k] else null
  {
    assert Linked(h, n, ks, k) && Linked(h, n, ks, 0) && Linked(h, n, ks, |ks| - 1);
    assert k > 0 ==> Linked(h, n, ks, k - 1);
  }

  /** A child of n lies in no other list. */
  lemma OneParent(h: Links, kids: Kids, n: Node, m: Node, x: Node)
    requires Forest(h, kids) && n in h && m in h && x in kids[n] && x in kids[m]
    ensures n == m
  {
    ChildOf(h, n, kids[n], x);
    ChildOf(h, m, kids[m], x);
  }

  /** Lists that no changed node belongs to stay in order. */
  lemma ListKept(h: Links, g: Links, n: Node, ks: seq<Node>)
    requires Listed(h, n, ks) && n in g && g[n].first == h[n].first
    requires forall x | x in ks :: x in g && g[x].parent == h[x].parent && g[x].prev == h[x].prev && g[x].next == h[x].next
    ensures Listed(g, n, ks)
  {
    forall i | 0 <= i < |ks| ensures Linked(g, n, ks, i) {
      assert Linked(h, n, ks, i) && ks[i] in ks;
    }
  }

  lemma SplicedList(h: Links, n: Node, ks: seq<Node>, i: nat, c: Node)
    requires Listed(h, n, ks) && i <= |ks| && c in h && c !in ks && c != n && n !in ks
    ensures Listed(Spliced(h, n, ks, i, c), n, InsertAt(ks, i, c))
  {
    var g, ls := Spliced(h, n, ks, i, c), InsertAt(ks, i, c);
    forall k | 0 <= k < |ls| ensures Linked(g, n, ls, k) {
      SplicedAt(h, n, ks, i, c, k);
    }
    forall k, l | 0 <= k < l < |ls| ensures ls[k] != ls[l] {
      InsertAtIs(ks, i, c, k);
      InsertAtIs(ks, i, c, l);
    }
    InsertAtIs(ks, i, c, 0);
  }

  lemma SplicedAt(h: Links, n: Node, ks: seq<Node>, i: nat, c: Node, k: nat)
    requires Listed(h, n, ks) && i <= |ks| && c in h && c !in ks && c != n && n !in ks && k <= |ks|
    ensures Linked(Spliced(h, n, ks, i, c), n, InsertAt(ks, i, c), k)
  {
    InsertAtIs(ks, i, c, k);
    if k < |ks| { InsertAtIs(ks, i, c, k + 1); }
    InsertAtIs(ks, i, c, if k > 0 then k - 1 else |ks|);
    if k != i { assert Linked(h, n, ks, if k < i then k else k - 1); }
  }

  /** Only the new child, its neighbours, the first child and the parent are written. */
  lemma SplicedOthers(h: Links, n: Node, ks: seq<Node>, i: nat, c: Node, x: Node)
    requires Listed(h, n, ks) && i <= |ks| && c in h && c !in ks && c != n && n !in ks && x in h
    ensures var g := Spliced(h, n, ks, i, c); g.Keys == h.Keys
    ensures var g := Spliced(h, n, ks, i, c);
      && (x != n ==> g[x].first == h[x].first) && (x != c ==> g[x].parent == h[x].parent)
      && (x != c && x !in ks ==> g[x].prev == h[x].prev && g[x].next == h[x].next)
    ensures var g := Spliced(h, n, ks, i, c); g[c].parent == n
  {
  }

  lemma ChildOf(h: Links, n: Node, ks: seq<Node>, x: Node)
    requires Listed(h, n, ks) && x in ks
    ensures x in h && h[x].parent == n
  {
    var i :| 0 <= i < |ks| && ks[i] == x;
    assert Linked(h, n, ks, i);
  }

  /** A node without a parent is in no list. */
  lemma NotListed(h: Links, kids: Kids, n: Node, c: Node)
    requires Forest(h, kids) && n in h && c in h && h[c].parent == null
    ensures c !in kids[n] && Listed(h, n, kids[n])
  {
    if c in kids[n] { ChildOf(h, n, kids[n], c); }
  }

  /** Putting a detached node into a list keeps all lists in order. */
  lemma SplicedForest(h: Links, kids: Kids, n: Node, i: nat, c: Node)
    requires Forest(h, kids) && n in h && i <= |kids[n]| && c in h && h[c].parent == null && c != n && n !in kids[n]
    ensures Listed(h, n, kids[n]) && Spliced(h, n, kids[n], i, c).Keys == h.Keys
    ensures Forest(Spliced(h, n, kids[n], i, c), kids[n := InsertAt(kids[n], i, c)])
  {
    var ks := kids[n];
    NotListed(h, kids, n, c);
    var g, kids' := Spliced(h, n, ks, i, c), kids[n := InsertAt(ks, i, c)];
    SplicedOthers(h, n, ks, i, c, c);
    assert kids'.Keys == g.Keys;
    hide *;
    forall m | m in g ensures Listed(g, m, kids'[m]) && Attached(g, kids', m) {
      SplicedEach(h, kids, n, i, c, m);
      SplicedParent(h, kids, n, i, c, m);
    }
    MakeForest(g, kids');
  }

  lemma SplicedEach(h: Links, kids: Kids, n: Node, i: nat, c: Node, m: Node)
    requires Forest(h, kids) && n in h && i <= |kids[n]| && c in h && h[c].parent == null && c != n && n !in kids[n]
    requires Listed(h, n, kids[n]) && m in h
    ensures Listed(Spliced(h, n, kids[n], i, c), m, kids[n := InsertAt(kids[n], i, c)][m])
  {
    var ks := kids[n];
    NotListed(h, kids, n, c);
    hide Spliced;
    if m == n {
      SplicedList(h, n, ks, i, c);
    } else {
      forall x | x in kids[m] ensures x != c && x !in ks && x in h {
        NotListed(h, kids, m, c);
        if x in ks { OneParent(h, kids, n, m, x); }
      }
      SplicedRest(h, n, ks, i, c, m, kids[m]);
    }
  }

  lemma SplicedRest(h: Links, n: Node, ks: seq<Node>, i: nat, c: Node, m: Node, ls: seq<Node>)
    requires Listed(h, n, ks) && i <= |ks| && c in h && c !in ks && c != n && n !in ks
    requires Listed(h, m, ls) && m != n && forall x | x in ls :: x != c && x !in ks
    ensures Listed(Spliced(h, n, ks, i, c), m, ls)
  {
    var g := Spliced(h, n, ks, i, c);
    SplicedOthers(h, n, ks, i, c, m);
    forall x | x in ls ensures x in g && g[x].parent == h[x].parent && g[x].prev == h[x].prev && g[x].next == h[x].next {
      SplicedOthers(h, n, ks, i, c, x);
    }
    hide Spliced;
    ListKept(h, g, m, ls);
  }

  lemma SplicedParent(h: Links, kids: Kids, n: Node, i: nat, c: Node, m: Node)
    requires Forest(h, kids) && n in h && i <= |kids[n]| && c in h && h[c].parent == null && c != n && n !in kids[n]
    requires Listed(h, n, kids[n]) && m in h
    ensures var g, kids' := Spliced(h, n, kids[n], i, c), kids[n := InsertAt(kids[n], i, c)];
      g.Keys == h.Keys && Attached(g, kids', m)
  {
    NotListed(h, kids, n, c);
    SplicedOthers(h, n, kids[n], i, c, m);
    InsertAtHas(kids[n], i, c, m);
    if m in kids[n] { ChildOf(h, n, kids[n], m); }
  }

  lemma InsertAtHas<T>(s: seq<T>, i: nat, x: T, y: T)
    requires i <= |s|
    ensures y in InsertAt(s, i, x) <==> y == x || y in s
  {
    assert s == s[..i] + s[i..];
  }

  lemma RemoveAtHas<T>(s: seq<T>, i: nat, y: T)
    requires i < |s|
    ensures y in s <==> y == s[i] || y in RemoveAt(s, i)
  {
    assert s == s[..i] + [s[i]] + s[i + 1..];
  }

  // ----- taking a child out

  lemma UnlinkedOthers(h: Links, n: Node, ks: seq<Node>, i: nat, x: Node)
    requires Listed(h, n, ks) && i < |ks| && n !in ks && x in h
    ensures var g := Unlinked(h, n, ks, i); g.Keys == h.Keys
    ensures var g := Unlinked(h, n, ks, i);
      && (x != n ==> g[x].first == h[x].first) && (x != ks[i] ==> g[x].parent == h[x].parent)
      && (x !in ks ==> g[x].prev == h[x].prev && g[x].next == h[x].next)
    ensures var g := Unlinked(h, n, ks, i); g[ks[i]] == Link(null, h[ks[i]].first, null, null)
  {
  }

  lemma UnlinkedAt(h: Links, n: Node, ks: seq<Node>, i: nat, k: nat)
    requires Listed(h, n, ks) && i < |ks| && n !in ks && k < |ks| - 1
    ensures Linked(Unlinked(h, n, ks, i), n, RemoveAt(ks, i), k)
  {
    RemoveAtIs(ks, i, k);
    if k + 1 < |ks| - 1 { RemoveAtIs(ks, i, k + 1); }
    RemoveAtIs(ks, i, if k > 0 then k - 1 else |ks| - 2);
    assert Linked(h, n, ks, i) && Linked(h, n, ks, if k < i then k else k + 1);
  }

  lemma UnlinkedList(h: Links, n: Node, ks: seq<Node>, i: nat)
    requires Listed(h, n, ks) && i < |ks| && n !in ks
    ensures Listed(Unlinked(h, n, ks, i), n, RemoveAt(ks, i))
  {
    var g, ls := Unlinked(h, n, ks, i), RemoveAt(ks, i);
    forall k | 0 <= k < |ls| ensures Linked(g, n, ls, k) {
      UnlinkedAt(h, n, ks, i, k);
    }
    forall k, l | 0 <= k < l < |ls| ensures ls[k] != ls[l] {
      RemoveAtIs(ks, i, k);
      RemoveAtIs(ks, i, l);
    }
    forall x | x in ls ensures x in g {
      RemoveAtHas(ks, i, x);
      UnlinkedOthers(h, n, ks, i, x);
    }
    assert Linked(h, n, ks, i);
    if ls != [] { RemoveAtIs(ks, i, 0); }
  }

  lemma UnlinkedRest(h: Links, n: Node, ks: seq<Node>, i: nat, m: Node, ls: seq<Node>)
    requires Listed(h, n, ks) && i < |ks| && n !in ks
    requires Listed(h, m, ls) && m != n && forall x | x in ls :: x !in ks
    ensures Listed(Unlinked(h, n, ks, i), m, ls)
  {
    var g := Unlinked(h, n, ks, i);
    UnlinkedOthers(h, n, ks, i, m);
    forall x | x in ls ensures x in g && g[x].parent == h[x].parent && g[x].prev == h[x].prev && g[x].next == h[x].next {
      UnlinkedOthers(h, n, ks, i, x);
    }
    hide Unlinked;
    ListKept(h, g, m, ls);
  }

  lemma UnlinkedEach(h: Links, kids: Kids, n: Node, i: nat, m: Node)
    requires Forest(h, kids) && n in h && i < |kids[n]| && n !in kids[n] && Listed(h, n, kids[n]) && m in h
    ensures Listed(Unlinked(h, n, kids[n], i), m, kids[n := RemoveAt(kids[n], i)][m])
  {
    var ks := kids[n];
    hide Unlinked;
    if m == n {
      UnlinkedList(h, n, ks, i);
    } else {
      forall x | x in kids[m] ensures x !in ks {
        if x in ks { OneParent(h, kids, n, m, x); }
      }
      UnlinkedRest(h, n, ks, i, m, kids[m]);
    }
  }

  lemma UnlinkedParent(h: Links, kids: Kids, n: Node, i: nat, m: Node)
    requires Forest(h, kids) && n in h && i < |kids[n]| && n !in kids[n] && Listed(h, n, kids[n]) && m in h
    ensures var g, kids' := Unlinked(h, n, kids[n], i), kids[n := RemoveAt(kids[n], i)];
      g.Keys == h.Keys && Attached(g, kids', m)
  {
    UnlinkedOthers(h, n, kids[n], i, m);
    RemoveAtHas(kids[n], i, m);
    if m in kids[n] { ChildOf(h, n, kids[n], m); }
  }

  /** Taking a child out keeps all lists in order, and leaves it without a parent. */
  lemma UnlinkedForest(h: Links, kids: Kids, n: Node, i: nat)
    requires Forest(h, kids) && n in h && i < |kids[n]| && n !in kids[n]
    ensures Listed(h, n, kids[n]) && Unlinked(h, n, kids[n], i).Keys == h.Keys
    ensures Forest(Unlinked(h, n, kids[n], i), kids[n := RemoveAt(kids[n], i)])
  {
    var ks := kids[n];
    assert Listed(h, n, ks);
    var g, kids' := Unlinked(h, n, ks, i), kids[n := RemoveAt(ks, i)];
    UnlinkedOthers(h, n, ks, i, n);
    assert kids'.Keys == g.Keys;
    hide *;
    forall m | m in g ensures Listed(g, m, kids'[m]) && Attached(g, kids', m) {
      UnlinkedEach(h, kids, n, i, m);
      UnlinkedParent(h, kids, n, i, m);
    }
    MakeForest(g, kids');
  }
}
