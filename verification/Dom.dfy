/** Editing the document tree: the six link operations, and moves that cannot make a cycle. */
module Dom {
  import opened DomLinks

  // ----- no node is its own ancestor

  /** Parents rank below their children. */
  ghost predicate Ranked(h: Links, rank: map<Node, nat>)
  {
    rank.Keys == h.Keys &&
    forall n: Node | n in h && h[n].parent != null :: h[n].parent in h && rank[h[n].parent] < rank[n]
  }

  /** n and its ancestors. */
  ghost function Above(h: Links, rank: map<Node, nat>, n: Node): set<Node>
    requires Ranked(h, rank) && n in h
    decreases rank[n]
  {
    {n} + if h[n].parent == null then {} else Above(h, rank, h[n].parent)
  }

  lemma {:induction false} AboveRanks(h: Links, rank: map<Node, nat>, n: Node, x: Node)
    requires Ranked(h, rank) && n in h && x in Above(h, rank, n)
    ensures x in h && (x == n || rank[x] < rank[n])
    decreases rank[n]
  {
    if x != n { AboveRanks(h, rank, h[n].parent, x); }
  }

  /** The ranks once c and what is below it hang under n. */
  ghost function Reranked(h: Links, rank: map<Node, nat>, c: Node, n: Node): (r: map<Node, nat>)
    requires Ranked(h, rank) && n in h
    ensures r.Keys == h.Keys
  {
    map x | x in h :: rank[x] + if c in Above(h, rank, x) then rank[n] + 1 else 0
  }

  /** Moving c under n leaves no node its own ancestor, if n was not at or below c. */
  lemma {:induction false} MovedRanked(h: Links, g: Links, rank: map<Node, nat>, c: Node, n: Node)
    requires Ranked(h, rank) && c in h && n in h && c !in Above(h, rank, n) && g.Keys == h.Keys
    requires g[c].parent == n && forall x | x in h && x != c :: g[x].parent == h[x].parent
    ensures Ranked(g, Reranked(h, rank, c, n))
  {
    var r := Reranked(h, rank, c, n);
    forall x: Node | x in g && g[x].parent != null ensures g[x].parent in g && r[g[x].parent] < r[x] {
      if x != c {
        assert Above(h, rank, x) == {x} + Above(h, rank, h[x].parent);
      } else {
        assert c in Above(h, rank, c);
      }
    }
  }

  // ----- the writes of each operation, one by one

  lemma AppendIs(h: Links, node: Node, ks: seq<Node>, child: Node)
    requires Listed(h, node, ks) && child in h && child != node && child !in ks && h[child].next == null
    ensures var h1 := h[child := h[child].(parent := node)];
      Spliced(h, node, ks, |ks|, child) ==
        if ks == [] then
          var h2 := h1[node := h1[node].(first := child)];
          h2[child := h2[child].(prev := child)]
        else
          var head, tail := ks[0], ks[|ks| - 1];
          var h2 := h1[tail := h1[tail].(next := child)];
          var h3 := h2[child := h2[child].(prev := tail)];
          h3[head := h3[head].(prev := child)]
  {
  }

  lemma PrependIs(h: Links, node: Node, ks: seq<Node>, child: Node)
    requires Listed(h, node, ks) && child in h && child != node && child !in ks
    ensures var h1 := h[child := h[child].(parent := node)];
      var h2 :=
        if ks == [] then h1[child := h1[child].(prev := child)]
        else
          var head, tail := ks[0], ks[|ks| - 1];
          var g := h1[child := h1[child].(prev := tail)];
          g[head := g[head].(prev := child)];
      var h3 := h2[child := h2[child].(next := h[node].first)];
      Spliced(h, node, ks, 0, child) == h3[node := h3[node].(first := child)]
  {
  }

  lemma InsertAfterIs(h: Links, n: Node, ks: seq<Node>, k: nat, child: Node)
    requires Listed(h, n, ks) && k < |ks| && child in h && child != n && child !in ks && n !in ks
    ensures var node, next := ks[k], if k + 1 < |ks| then ks[k + 1] else null;
      var h1 := h[child := h[child].(parent := n)];
      var follower := if k + 1 < |ks| then ks[k + 1] else ks[0];
      var h2 := h1[follower := h1[follower].(prev := child)];
      var h3 := h2[child := h2[child].(next := next)];
      var h4 := h3[child := h3[child].(prev := node)];
      Spliced(h, n, ks, k + 1, child) == h4[node := h4[node].(next := child)]
  {
  }

  lemma InsertBeforeIs(h: Links, n: Node, ks: seq<Node>, k: nat, child: Node)
    requires Listed(h, n, ks) && k < |ks| && child in h && child != n && child !in ks && n !in ks
    ensures var node, prev := ks[k], if k > 0 then ks[k - 1] else ks[|ks| - 1];
      var h1 := h[child := h[child].(parent := n)];
      var h2 := if k > 0 then h1[prev := h1[prev].(next := child)] else h1[n := h1[n].(first := child)];
      var h3 := h2[child := h2[child].(prev := prev)];
      var h4 := h3[child := h3[child].(next := node)];
      Spliced(h, n, ks, k, child) == h4[node := h4[node].(prev := child)]
  {
  }

  lemma RemoveIs(h: Links, n: Node, ks: seq<Node>, k: nat)
    requires Listed(h, n, ks) && k < |ks| && n !in ks
    ensures var node, next := ks[k], if k + 1 < |ks| then ks[k + 1] else null;
      var prev := if k > 0 then ks[k - 1] else ks[|ks| - 1];
      var follower := if k + 1 < |ks| then ks[k + 1] else ks[0];
      var h1 := h[follower := h[follower].(prev := prev)];
      var h2 := if k > 0 then h1[prev := h1[prev].(next := next)] else h1[n := h1[n].(first := next)];
      Unlinked(h, n, ks, k) == h2[node := Link(null, h2[node].first, null, null)]
  {
    Around(h, n, ks, k);
  }

  // ----- the link operations

  /** append_node */
  method AppendNode(child: Node, node: Node, ghost nodes: set<Node>, ghost kids: Kids)
    requires Forest(LinksOf(nodes), kids) && node in nodes && child in nodes && child != node && child.parent == null
    modifies nodes`parent, nodes`firstChild, nodes`prevSibling, nodes`nextSibling
    ensures Listed(old(LinksOf(nodes)), node, kids[node])
    ensures LinksOf(nodes) == Spliced(old(LinksOf(nodes)), node, kids[node], |kids[node]|, child)
  {
    ghost var h, ks := LinksOf(nodes), kids[node];
    NotListed(h, kids, node, child);
    Ends(h, node, ks);
    assert h[child].next == null by { assert Attached(h, kids, child); }
    AppendIs(h, node, ks, child);
    hide *;
    SetParent(child, node, nodes);
    var head := node.firstChild;
    assert LinksOf(nodes)[node].first == head;
    if head != null {
      var tail := head.prevSibling;
      assert LinksOf(nodes)[head].prev == tail;
      SetNext(tail, child, nodes);
      SetPrev(child, tail, nodes);
      SetPrev(head, child, nodes);
    } else {
      SetFirst(node, child, nodes);
      SetPrev(child, child, nodes);
    }
  }

  /** prepend_node */
  method PrependNode(child: Node, node: Node, ghost nodes: set<Node>, ghost kids: Kids)
    requires Forest(LinksOf(nodes), kids) && node in nodes && child in nodes && child != node && child.parent == null
    modifies nodes`parent, nodes`firstChild, nodes`prevSibling, nodes`nextSibling
    ensures Listed(old(LinksOf(nodes)), node, kids[node])
    ensures LinksOf(nodes) == Spliced(old(LinksOf(nodes)), node, kids[node], 0, child)
  {
    ghost var h, ks := LinksOf(nodes), kids[node];
    NotListed(h, kids, node, child);
    Ends(h, node, ks);
    PrependIs(h, node, ks, child);
    hide *;
    SetParent(child, node, nodes);
    var head := node.firstChild;
    assert LinksOf(nodes)[node].first == head;
    if head != null {
      assert LinksOf(nodes)[head].prev == head.prevSibling;
      SetPrev(child, head.prevSibling, nodes);
      SetPrev(head, child, nodes);
    } else {
      SetPrev(child, child, nodes);
    }
    SetNext(child, head, nodes);
    SetFirst(node, child, nodes);
  }

  /** insert_node_after; k is the place after node in its parent's list. */
  method InsertNodeAfter(child: Node, node: Node, ghost k: nat, ghost nodes: set<Node>, ghost kids: Kids)
    requires Forest(LinksOf(nodes), kids) && node in nodes && child in nodes && child.parent == null
    requires node.parent in nodes && child != node.parent && node.parent !in kids[node.parent]
    requires 0 < k <= |kids[node.parent]| && kids[node.parent][k - 1] == node
    modifies nodes`parent, nodes`firstChild, nodes`prevSibling, nodes`nextSibling
    ensures Listed(old(LinksOf(nodes)), old(node.parent), kids[old(node.parent)])
    ensures LinksOf(nodes) == Spliced(old(LinksOf(nodes)), old(node.parent), kids[old(node.parent)], k, child)
  {
    ghost var h, ks := LinksOf(nodes), kids[node.parent];
    NotListed(h, kids, node.parent, child);
    Around(h, node.parent, ks, k - 1);
    InsertAfterIs(h, node.parent, ks, k - 1, child);
    hide *;
    assert h[node].parent == node.parent;
    var parent := node.parent;
    SetParent(child, parent, nodes);
    assert LinksOf(nodes)[node].next == node.nextSibling;
    if node.nextSibling != null {
      SetPrev(node.nextSibling, child, nodes);
    } else {
      assert LinksOf(nodes)[parent].first == parent.firstChild;
      SetPrev(parent.firstChild, child, nodes);
    }
    assert LinksOf(nodes)[node].next == node.nextSibling;
    SetNext(child, node.nextSibling, nodes);
    SetPrev(child, node, nodes);
    SetNext(node, child, nodes);
  }

  /** insert_node_before */
  method InsertNodeBefore(child: Node, node: Node, ghost k: nat, ghost nodes: set<Node>, ghost kids: Kids)
    requires Forest(LinksOf(nodes), kids) && node in nodes && child in nodes && child.parent == null
    requires node.parent in nodes && child != node.parent && node.parent !in kids[node.parent]
    requires k < |kids[node.parent]| && kids[node.parent][k] == node
    modifies nodes`parent, nodes`firstChild, nodes`prevSibling, nodes`nextSibling
    ensures Listed(old(LinksOf(nodes)), old(node.parent), kids[old(node.parent)])
    ensures LinksOf(nodes) == Spliced(old(LinksOf(nodes)), old(node.parent), kids[old(node.parent)], k, child)
  {
    ghost var h, ks := LinksOf(nodes), kids[node.parent];
    NotListed(h, kids, node.parent, child);
    Around(h, node.parent, ks, k);
    InsertBeforeIs(h, node.parent, ks, k, child);
    hide *;
    assert h[node].parent == node.parent;
    var parent := node.parent;
    SetParent(child, parent, nodes);
    var prev := node.prevSibling;
    assert LinksOf(nodes)[node].prev == prev;
    assert LinksOf(nodes)[prev].next == prev.nextSibling;
    if prev.nextSibling != null {
      SetNext(prev, child, nodes);
    } else {
      SetFirst(parent, child, nodes);
    }
    SetPrev(child, prev, nodes);
    SetNext(child, node, nodes);
    SetPrev(node, child, nodes);
  }

  /** remove_node */
  method RemoveNode(node: Node, ghost k: nat, ghost nodes: set<Node>, ghost kids: Kids)
    requires Forest(LinksOf(nodes), kids) && node in nodes && node.parent in nodes && node.parent !in kids[node.parent]
    requires k < |kids[node.parent]| && kids[node.parent][k] == node
    modifies nodes`parent, nodes`firstChild, nodes`prevSibling, nodes`nextSibling
    ensures Listed(old(LinksOf(nodes)), old(node.parent), kids[old(node.parent)])
    ensures LinksOf(nodes) == Unlinked(old(LinksOf(nodes)), old(node.parent), kids[old(node.parent)], k)
  {
    ghost var h, ks := LinksOf(nodes), kids[node.parent];
    assert Listed(h, node.parent, ks);
    Around(h, node.parent, ks, k);
    RemoveIs(h, node.parent, ks, k);
    hide *;
    assert h[node].parent == node.parent;
    var parent := node.parent;
    assert LinksOf(nodes)[node].next == node.nextSibling && LinksOf(nodes)[node].prev == node.prevSibling;
    if node.nextSibling != null {
      SetPrev(node.nextSibling, node.prevSibling, nodes);
    } else {
      assert LinksOf(nodes)[parent].first == parent.firstChild;
      SetPrev(parent.firstChild, node.prevSibling, nodes);
    }
    var prev := node.prevSibling;
    assert LinksOf(nodes)[node].prev == prev && LinksOf(nodes)[node].next == node.nextSibling;
    assert LinksOf(nodes)[prev].next == prev.nextSibling;
    if prev.nextSibling != null {
      SetNext(prev, node.nextSibling, nodes);
    } else {
      SetFirst(parent, node.nextSibling, nodes);
    }
    ClearLinks(node, nodes);
  }

  method ClearLinks(node: Node, ghost nodes: set<Node>)
    requires node in nodes
    modifies node`parent, node`prevSibling, node`nextSibling
    ensures var h := old(LinksOf(nodes)); LinksOf(nodes) == h[node := Link(null, h[node].first, null, null)]
  {
    SetParent(node, null, nodes);
    SetPrev(node, null, nodes);
    SetNext(node, null, nodes);
  }

  // ----- what an edit means for the whole document

  lemma NotOwnChild(h: Links, kids: Kids, rank: map<Node, nat>, n: Node)
    requires Forest(h, kids) && Ranked(h, rank) && n in h
    ensures n !in kids[n]
  {
    assert Listed(h, n, kids[n]);
    if n in kids[n] { ChildOf(h, n, kids[n], n); }
  }

  /** Child lists once the child at k of p has become the one at i of n. */
  ghost function MovedKids(kids: Kids, p: Node, k: nat, n: Node, i: nat): Kids
    requires p in kids && n in kids && k < |kids[p]| && i <= |kids[p := RemoveAt(kids[p], k)][n]|
  {
    var without := kids[p := RemoveAt(kids[p], k)];
    without[n := InsertAt(without[n], i, kids[p][k])]
  }

  /** Taking a node out and putting it in elsewhere, not below itself, keeps a tree. */
  lemma MoveSound(h: Links, kids: Kids, rank: map<Node, nat>, p: Node, k: nat, n: Node, i: nat)
    requires Forest(h, kids) && Ranked(h, rank) && p in h && k < |kids[p]| && n in h && kids[p][k] in h
    requires kids[p][k] !in Above(h, rank, n) && i <= |kids[p := RemoveAt(kids[p], k)][n]|
    ensures Listed(h, p, kids[p]) && p !in kids[p]
    ensures var g, kids' := Unlinked(h, p, kids[p], k), kids[p := RemoveAt(kids[p], k)];
      && g.Keys == h.Keys && Forest(g, kids') && g[kids[p][k]].parent == null && n !in kids'[n] && Listed(g, n, kids'[n])
      && var f := Spliced(g, n, kids'[n], i, kids[p][k]);
      Forest(f, MovedKids(kids, p, k, n, i)) && Ranked(f, Reranked(h, rank, kids[p][k], n)) && f.Keys == h.Keys
      && forall x | x in h :: f[x].parent == if x == kids[p][k] then n else h[x].parent
  {
    var c := kids[p][k];
    NotOwnChild(h, kids, rank, p);
    NotOwnChild(h, kids, rank, n);
    UnlinkedForest(h, kids, p, k);
    var g, kids' := Unlinked(h, p, kids[p], k), kids[p := RemoveAt(kids[p], k)];
    UnlinkedOthers(h, p, kids[p], k, c);
    RemoveAtHas(kids[p], k, n);
    assert n in Above(h, rank, n) && c != n;
    hide Unlinked, Listed, Above, Attached;
    SplicedForest(g, kids', n, i, c);
    var f := Spliced(g, n, kids'[n], i, c);
    SplicedOthers(g, n, kids'[n], i, c, c) by { NotListed(g, kids', n, c); }
    hide Spliced;
    forall x | x in h && x != c ensures f[x].parent == h[x].parent {
      UnlinkedOthers(h, p, kids[p], k, x);
      NotListed(g, kids', n, c);
      SplicedOthers(g, n, kids'[n], i, c, x);
    }
    MovedRanked(h, f, rank, c, n);
  }

  /** allow_insert_child */
  predicate AllowInsertChild(parent: Kind, child: Kind)
  {
    && (parent == Kind.Document || parent == Element)
    && child != Kind.Document && child != Null
    && (parent != Kind.Document ==> child != Declaration && child != Doctype)
  }

  // ----- moves

  /** A move of c under n, on the links and lists alone: c is a child of p, and not at or above n. */
  ghost predicate Movable(h: Links, kids: Kids, rank: map<Node, nat>, p: Node, c: Node, n: Node)
  {
    && Forest(h, kids) && Ranked(h, rank) && p in h && n in h && c in kids[p] && c in h
    && c !in Above(h, rank, n)
  }

  function Without(kids: Kids, p: Node, c: Node): Kids
    requires p in kids && c in kids[p]
  {
    kids[p := RemoveAt(kids[p], IndexOf(kids[p], c))]
  }

  /** The child lists once c has left p for place i among the children of n. */
  function Moved(kids: Kids, p: Node, c: Node, n: Node, i: nat): Kids
    requires p in kids && c in kids[p] && n in kids && i <= |Without(kids, p, c)[n]|
  {
    Without(kids, p, c)[n := InsertAt(Without(kids, p, c)[n], i, c)]
  }

  /** f is h after the move: the lists have changed as they should, no node is its own ancestor,
      and no other node's parent has changed. */
  ghost predicate IsMoved(h: Links, f: Links, kids: Kids, rank: map<Node, nat>, p: Node, c: Node, n: Node, i: nat)
    requires p in kids && c in kids[p] && n in kids && i <= |Without(kids, p, c)[n]|
  {
    && Ranked(h, rank) && n in h && f.Keys == h.Keys
    && Forest(f, Moved(kids, p, c, n, i)) && Ranked(f, Reranked(h, rank, c, n))
    && forall x | x in h :: f[x].parent == if x == c then n else h[x].parent
  }

  lemma MoveFacts(h: Links, kids: Kids, rank: map<Node, nat>, p: Node, c: Node, n: Node, i: nat)
    requires Movable(h, kids, rank, p, c, n) && i <= |Without(kids, p, c)[n]|
    ensures var k, ks := IndexOf(kids[p], c), Without(kids, p, c);
      && h[c].parent == p && Listed(h, p, kids[p]) && p !in kids[p] && c != n
      && var g := Unlinked(h, p, kids[p], k);
      && g.Keys == h.Keys && Forest(g, ks) && g[c].parent == null && n !in ks[n] && Listed(g, n, ks[n])
      && IsMoved(h, Spliced(g, n, ks[n], i, c), kids, rank, p, c, n, i)
  {
    var k := IndexOf(kids[p], c);
    MoveSound(h, kids, rank, p, k, n, i);
    ChildOf(h, p, kids[p], c);
    assert n in Above(h, rank, n);
  }

  /** remove_node, then append_node */
  method MoveLast(c: Node, n: Node, ghost p: Node, ghost ns: set<Node>, ghost kids: Kids, ghost rank: map<Node, nat>)
    requires Movable(LinksOf(ns), kids, rank, p, c, n)
    modifies ns`parent, ns`firstChild, ns`prevSibling, ns`nextSibling
    ensures IsMoved(old(LinksOf(ns)), LinksOf(ns), kids, rank, p, c, n, |Without(kids, p, c)[n]|)
  {
    ghost var h, ks := LinksOf(ns), Without(kids, p, c);
    MoveFacts(h, kids, rank, p, c, n, |ks[n]|);
    assert h[c].parent == c.parent;
    hide *;
    RemoveNode(c, IndexOf(kids[p], c), ns, kids);
    assert LinksOf(ns)[c].parent == c.parent;
    AppendNode(c, n, ns, ks);
  }

  /** remove_node, then prepend_node */
  method MoveFirst(c: Node, n: Node, ghost p: Node, ghost ns: set<Node>, ghost kids: Kids, ghost rank: map<Node, nat>)
    requires Movable(LinksOf(ns), kids, rank, p, c, n)
    modifies ns`parent, ns`firstChild, ns`prevSibling, ns`nextSibling
    ensures IsMoved(old(LinksOf(ns)), LinksOf(ns), kids, rank, p, c, n, 0)
  {
    ghost var h, ks := LinksOf(ns), Without(kids, p, c);
    MoveFacts(h, kids, rank, p, c, n, 0);
    assert h[c].parent == c.parent;
    hide *;
    RemoveNode(c, IndexOf(kids[p], c), ns, kids);
    assert LinksOf(ns)[c].parent == c.parent;
    PrependNode(c, n, ns, ks);
  }

  /** Where m, a child of n, lies once c has left p. */
  function PlaceOf(kids: Kids, p: Node, c: Node, n: Node, m: Node): nat
    requires p in kids && c in kids[p] && n in kids
  {
    IndexOf(Without(kids, p, c)[n], m)
  }

  function PlaceAfter(kids: Kids, p: Node, c: Node, n: Node, m: Node): nat
    requires p in kids && c in kids[p] && n in kids
  {
    PlaceOf(kids, p, c, n, m) + 1
  }

  /** The place next to m, a child of n other than c. */
  lemma Neighbour(h: Links, kids: Kids, rank: map<Node, nat>, p: Node, c: Node, n: Node, m: Node)
    requires Movable(h, kids, rank, p, c, n) && m in kids[n] && m != c
    ensures var ks, k, i := Without(kids, p, c), PlaceOf(kids, p, c, n, m), PlaceAfter(kids, p, c, n, m);
      k < |ks[n]| && ks[n][k] == m && 0 < i <= |ks[n]| && ks[n][i - 1] == m && m in h && h[m].parent == n
    ensures p !in kids[p] && Listed(h, p, kids[p]) && Unlinked(h, p, kids[p], IndexOf(kids[p], c))[m].parent == n
  {
    var i := IndexOf(kids[p], c);
    NotOwnChild(h, kids, rank, p);
    RemoveAtHas(kids[p], i, m);
    assert Listed(h, p, kids[p]) && Listed(h, n, kids[n]);
    ChildOf(h, n, kids[n], m);
    UnlinkedOthers(h, p, kids[p], i, m);
  }

  /** remove_node, then insert_node_after */
  method MoveAfter(c: Node, n: Node, m: Node, ghost p: Node, ghost ns: set<Node>, ghost kids: Kids, ghost rank: map<Node, nat>)
    requires Movable(LinksOf(ns), kids, rank, p, c, n) && m in kids[n] && m != c
    modifies ns`parent, ns`firstChild, ns`prevSibling, ns`nextSibling
    ensures PlaceAfter(kids, p, c, n, m) <= |Without(kids, p, c)[n]|
    ensures IsMoved(old(LinksOf(ns)), LinksOf(ns), kids, rank, p, c, n, PlaceAfter(kids, p, c, n, m))
  {
    ghost var h, ks := LinksOf(ns), Without(kids, p, c);
    Neighbour(h, kids, rank, p, c, n, m);
    ghost var k := PlaceAfter(kids, p, c, n, m);
    MoveFacts(h, kids, rank, p, c, n, k);
    assert h[c].parent == c.parent;
    hide *;
    RemoveNode(c, IndexOf(kids[p], c), ns, kids);
    assert LinksOf(ns)[c].parent == c.parent && LinksOf(ns)[m].parent == m.parent;
    InsertNodeAfter(c, m, k, ns, ks);
  }

  /** remove_node, then insert_node_before */
  method MoveBefore(c: Node, n: Node, m: Node, ghost p: Node, ghost ns: set<Node>, ghost kids: Kids, ghost rank: map<Node, nat>)
    requires Movable(LinksOf(ns), kids, rank, p, c, n) && m in kids[n] && m != c
    modifies ns`parent, ns`firstChild, ns`prevSibling, ns`nextSibling
    ensures PlaceOf(kids, p, c, n, m) <= |Without(kids, p, c)[n]|
    ensures IsMoved(old(LinksOf(ns)), LinksOf(ns), kids, rank, p, c, n, PlaceOf(kids, p, c, n, m))
  {
    ghost var h, ks := LinksOf(ns), Without(kids, p, c);
    Neighbour(h, kids, rank, p, c, n, m);
    ghost var k := PlaceOf(kids, p, c, n, m);
    MoveFacts(h, kids, rank, p, c, n, k);
    assert h[c].parent == c.parent;
    hide *;
    RemoveNode(c, IndexOf(kids[p], c), ns, kids);
    assert LinksOf(ns)[c].parent == c.parent && LinksOf(ns)[m].parent == m.parent;
    InsertNodeBefore(c, m, k, ns, ks);
  }

  // ----- new nodes

  /** f is h after the new node c has become the child at i of n. */
  ghost predicate IsGrown(h: Links, f: Links, kids: Kids, rank: map<Node, nat>, c: Node, n: Node, i: nat)
    requires n in kids && i <= |kids[n]| && n in rank
  {
    && f.Keys == h.Keys + {c}
    && Forest(f, Grown(kids, c, n, i)) && Ranked(f, rank[c := rank[n] + 1])
    && f[c].parent == n && f[c].first == null && forall x | x in h :: f[x].parent == h[x].parent
  }

  function Grown(kids: Kids, c: Node, n: Node, i: nat): Kids
    requires n in kids && i <= |kids[n]|
  {
    kids[c := []][n := InsertAt(kids[n], i, c)]
  }

  /** A node of its own next to a forest. */
  lemma Alone(h: Links, kids: Kids, rank: map<Node, nat>, c: Node, n: Node)
    requires Forest(h, kids) && Ranked(h, rank) && n in h && c !in h
    ensures var g, ks := h[c := Link(null, null, null, null)], kids[c := []];
      Forest(g, ks) && g[c].parent == null && n !in ks[n] && Listed(g, n, ks[n]) && c != n && ks[n] == kids[n]
  {
    var g, ks := h[c := Link(null, null, null, null)], kids[c := []];
    NotOwnChild(h, kids, rank, n);
    assert ks.Keys == g.Keys;
    hide Linked, Listed, Attached;
    forall m | m in g ensures Listed(g, m, ks[m]) && Attached(g, ks, m) {
      AloneEach(h, kids, c, m);
    }
    MakeForest(g, ks);
  }

  lemma AloneEach(h: Links, kids: Kids, c: Node, m: Node)
    requires Forest(h, kids) && c !in h && (m in h || m == c)
    ensures var g, ks := h[c := Link(null, null, null, null)], kids[c := []]; Listed(g, m, ks[m]) && Attached(g, ks, m)
  {
    hide Linked;
    var g := h[c := Link(null, null, null, null)];
    if m != c {
      assert Listed(h, m, kids[m]) && Attached(h, kids, m);
      ListKept(h, g, m, kids[m]);
    }
  }

  lemma GrowFacts(h: Links, kids: Kids, rank: map<Node, nat>, c: Node, n: Node, i: nat)
    requires Forest(h, kids) && Ranked(h, rank) && n in h && c !in h && i <= |kids[n]|
    ensures var g, ks := h[c := Link(null, null, null, null)], kids[c := []];
      && Forest(g, ks) && g[c].parent == null && n !in ks[n] && Listed(g, n, ks[n]) && c != n && ks[n] == kids[n]
      && IsGrown(h, Spliced(g, n, ks[n], i, c), kids, rank, c, n, i)
  {
    var g, ks := h[c := Link(null, null, null, null)], kids[c := []];
    Alone(h, kids, rank, c, n);
    assert n in rank && g.Keys == h.Keys + {c};
    hide *;
    NotListed(g, ks, n, c);
    SplicedForest(g, ks, n, i, c);
    var f := Spliced(g, n, ks[n], i, c);
    SplicedOthers(g, n, ks[n], i, c, c);
    forall x | x in h ensures f[x].parent == h[x].parent {
      SplicedOthers(g, n, ks[n], i, c, x);
    }
    GrownRanked(h, f, rank, c, n);
    GrownIs(h, f, kids, rank, c, n, i);
  }

  lemma GrownRanked(h: Links, f: Links, rank: map<Node, nat>, c: Node, n: Node)
    requires Ranked(h, rank) && n in h && c !in h && f.Keys == h.Keys + {c}
    requires f[c].parent == n && forall x | x in h :: f[x].parent == h[x].parent
    ensures Ranked(f, rank[c := rank[n] + 1])
  {
  }

  lemma GrownIs(h: Links, f: Links, kids: Kids, rank: map<Node, nat>, c: Node, n: Node, i: nat)
    requires n in kids && i <= |kids[n]| && n in rank && f.Keys == h.Keys + {c} && c != n
    requires Forest(f, kids[c := []][n := InsertAt(kids[n], i, c)]) && Ranked(f, rank[c := rank[n] + 1])
    requires f[c].parent == n && f[c].first == null && forall x | x in h :: f[x].parent == h[x].parent
    ensures IsGrown(h, f, kids, rank, c, n, i)
  {
    hide Forest, Ranked, InsertAt;
  }

  /** allocate_node */
  method NewNode(kind: Kind, document: nat, ghost ns: set<Node>) returns (c: Node, ghost all: set<Node>)
    ensures fresh(c) && c.kind == kind && c.document == document && c.content == "" && all == ns + {c}
    ensures LinksOf(all) == old(LinksOf(ns))[c := Link(null, null, null, null)]
  {
    c := new Node(kind, document);
    all := ns + {c};
  }

  /** append_node of a new node c */
  method AttachLast(c: Node, n: Node, ghost h: Links, ghost all: set<Node>, ghost kids: Kids, ghost rank: map<Node, nat>)
    requires Forest(h, kids) && Ranked(h, rank) && n in h && c !in h && LinksOf(all) == h[c := Link(null, null, null, null)]
    modifies all`parent, all`firstChild, all`prevSibling, all`nextSibling
    ensures n in kids && n in rank && IsGrown(h, LinksOf(all), kids, rank, c, n, |kids[n]|)
  {
    GrowFacts(h, kids, rank, c, n, |kids[n]|);
    assert n in rank;
    hide *;
    assert LinksOf(all)[c].parent == c.parent;
    AppendNode(c, n, all, kids[c := []]);
  }

  /** allocate_node, then append_node */
  method NewLast(kind: Kind, n: Node, ghost ns: set<Node>, ghost kids: Kids, ghost rank: map<Node, nat>)
    returns (c: Node, ghost all: set<Node>)
    requires Forest(LinksOf(ns), kids) && Ranked(LinksOf(ns), rank) && n in ns
    modifies ns`parent, ns`firstChild, ns`prevSibling, ns`nextSibling
    ensures fresh(c) && c.kind == kind && c.document == n.document && c.content == "" && all == ns + {c}
    ensures IsGrown(old(LinksOf(ns)), LinksOf(all), kids, rank, c, n, |kids[n]|)
  {
    hide IsGrown, Listed, Attached;
    ghost var h := LinksOf(ns);
    c, all := NewNode(kind, n.document, ns);
    AttachLast(c, n, h, all, kids, rank);
  }

  /** prepend_node of a new node c */
  method AttachFirst(c: Node, n: Node, ghost h: Links, ghost all: set<Node>, ghost kids: Kids, ghost rank: map<Node, nat>)
    requires Forest(h, kids) && Ranked(h, rank) && n in h && c !in h && LinksOf(all) == h[c := Link(null, null, null, null)]
    modifies all`parent, all`firstChild, all`prevSibling, all`nextSibling
    ensures n in kids && n in rank && IsGrown(h, LinksOf(all), kids, rank, c, n, 0)
  {
    GrowFacts(h, kids, rank, c, n, 0);
    assert n in rank;
    hide *;
    assert LinksOf(all)[c].parent == c.parent;
    PrependNode(c, n, all, kids[c := []]);
  }

  /** The place behind x, an element of s. */
  function PlaceBehind<T(==)>(s: seq<T>, x: T): (k: nat)
    requires x in s
    ensures 0 < k <= |s| && s[k - 1] == x
  {
    IndexOf(s, x) + 1
  }

  /** insert_node_after of a new node c */
  method AttachAfter(c: Node, n: Node, m: Node, ghost k: nat, ghost h: Links, ghost all: set<Node>, ghost kids: Kids,
                     ghost rank: map<Node, nat>)
    requires Forest(h, kids) && Ranked(h, rank) && n in h && c !in h && LinksOf(all) == h[c := Link(null, null, null, null)]
    requires m in h && h[m].parent == n && 0 < k <= |kids[n]| && kids[n][k - 1] == m
    modifies all`parent, all`firstChild, all`prevSibling, all`nextSibling
    ensures n in rank && IsGrown(h, LinksOf(all), kids, rank, c, n, k)
  {
    GrowFacts(h, kids, rank, c, n, k);
    assert n in rank;
    hide *;
    assert LinksOf(all)[c].parent == c.parent && LinksOf(all)[m].parent == m.parent;
    InsertNodeAfter(c, m, k, all, kids[c := []]);
  }

  /** insert_node_before of a new node c */
  method AttachBefore(c: Node, n: Node, m: Node, ghost k: nat, ghost h: Links, ghost all: set<Node>, ghost kids: Kids,
                      ghost rank: map<Node, nat>)
    requires Forest(h, kids) && Ranked(h, rank) && n in h && c !in h && LinksOf(all) == h[c := Link(null, null, null, null)]
    requires m in h && h[m].parent == n && k < |kids[n]| && kids[n][k] == m
    modifies all`parent, all`firstChild, all`prevSibling, all`nextSibling
    ensures n in rank && IsGrown(h, LinksOf(all), kids, rank, c, n, k)
  {
    GrowFacts(h, kids, rank, c, n, k);
    assert n in rank;
    hide *;
    assert LinksOf(all)[c].parent == c.parent && LinksOf(all)[m].parent == m.parent;
    InsertNodeBefore(c, m, k, all, kids[c := []]);
  }

  // ----- removal

  /** c and all nodes below it. */
  ghost function Subtree(h: Links, rank: map<Node, nat>, c: Node): set<Node>
    requires Ranked(h, rank)
  {
    set x | x in h && c in Above(h, rank, x)
  }

  /** What is left once the child at k of p is gone with everything below it is still a forest. */
  lemma PruneSound(h: Links, kids: Kids, rank: map<Node, nat>, p: Node, k: nat)
    requires Forest(h, kids) && Ranked(h, rank) && p in h && k < |kids[p]|
    ensures Listed(h, p, kids[p]) && p !in kids[p]
    ensures var g, gone := Unlinked(h, p, kids[p], k), Subtree(h, rank, kids[p][k]);
      Forest(g - gone, kids[p := RemoveAt(kids[p], k)] - gone) && Ranked(g - gone, rank - gone)
  {
    NotOwnChild(h, kids, rank, p);
    UnlinkedForest(h, kids, p, k);
    var c, ks: Kids := kids[p][k], kids[p := RemoveAt(kids[p], k)];
    var g: Links, gone: set<Node> := Unlinked(h, p, kids[p], k), Subtree(h, rank, c);
    UnlinkedOthers(h, p, kids[p], k, c);
    var g': Links, ks': Kids := g - gone, ks - gone;
    assert c in gone by { ChildOf(h, p, kids[p], c); assert c in Above(h, rank, c); }
    hide Unlinked, Listed, Attached, Linked;
    forall m | m in g' ensures Listed(g', m, ks'[m]) && Attached(g', ks', m) && (g'[m].parent != null ==> g'[m].parent in g') {
      PrunedEach(h, kids, rank, p, k, m);
    }
    MakeForest(g', ks');
    forall x | x in g' ensures g'[x].parent == h[x].parent {
      UnlinkedOthers(h, p, kids[p], k, x);
    }
  }

  lemma AboveStep(h: Links, rank: map<Node, nat>, x: Node)
    requires Ranked(h, rank) && x in h
    ensures x in Above(h, rank, x)
    ensures h[x].parent != null ==> h[x].parent in h && Above(h, rank, x) == {x} + Above(h, rank, h[x].parent)
  {
  }

  /** g is h with the child at k of p unlinked, and m is not below that child. */
  ghost predicate Spared(h: Links, kids: Kids, rank: map<Node, nat>, p: Node, k: nat, m: Node)
  {
    && Forest(h, kids) && Ranked(h, rank) && p in h && k < |kids[p]| && Listed(h, p, kids[p]) && p !in kids[p]
    && kids[p][k] in h && m in h && m !in Subtree(h, rank, kids[p][k])
    && var g, ks := Unlinked(h, p, kids[p], k), kids[p := RemoveAt(kids[p], k)];
    g.Keys == h.Keys && Forest(g, ks) && g[kids[p][k]].parent == null
  }

  lemma PrunedEach(h: Links, kids: Kids, rank: map<Node, nat>, p: Node, k: nat, m: Node)
    requires Spared(h, kids, rank, p, k, m)
    ensures var g, gone := Unlinked(h, p, kids[p], k), Subtree(h, rank, kids[p][k]);
      var g', ks' := g - gone, kids[p := RemoveAt(kids[p], k)] - gone;
      Listed(g', m, ks'[m]) && Attached(g', ks', m) && (g'[m].parent != null ==> g'[m].parent in g')
  {
    PrunedList(h, kids, rank, p, k, m);
    PrunedParent(h, kids, rank, p, k, m);
  }

  lemma PrunedList(h: Links, kids: Kids, rank: map<Node, nat>, p: Node, k: nat, m: Node)
    requires Spared(h, kids, rank, p, k, m)
    ensures Listed(Unlinked(h, p, kids[p], k) - Subtree(h, rank, kids[p][k]), m, kids[p := RemoveAt(kids[p], k)][m])
  {
    var c, ks: Kids := kids[p][k], kids[p := RemoveAt(kids[p], k)];
    var g: Links, gone: set<Node> := Unlinked(h, p, kids[p], k), Subtree(h, rank, c);
    var g': Links := g - gone;
    assert Listed(g, m, ks[m]);
    UnlinkedOthers(h, p, kids[p], k, m);
    hide Unlinked, Linked, Above, Forest, Ranked, Attached;
    forall x | x in ks[m] ensures x in g' && g'[x] == g[x] {
      ChildOf(g, m, ks[m], x);
      UnlinkedOthers(h, p, kids[p], k, x);
      AboveStep(h, rank, x);
    }
    hide Listed;
    ListKept(g, g', m, ks[m]);
  }

  lemma PrunedParent(h: Links, kids: Kids, rank: map<Node, nat>, p: Node, k: nat, m: Node)
    requires Spared(h, kids, rank, p, k, m)
    ensures var g, gone := Unlinked(h, p, kids[p], k), Subtree(h, rank, kids[p][k]);
      var g', ks' := g - gone, kids[p := RemoveAt(kids[p], k)] - gone;
      Attached(g', ks', m) && (g'[m].parent != null ==> g'[m].parent in g')
  {
    var c, ks: Kids := kids[p][k], kids[p := RemoveAt(kids[p], k)];
    var g: Links := Unlinked(h, p, kids[p], k);
    assert Attached(g, ks, m);
    UnlinkedOthers(h, p, kids[p], k, m);
    AboveStep(h, rank, c);
    AboveStep(h, rank, m);
    hide Unlinked, Listed, Linked, Above;
  }

  /** f is h without c, a child of n, and without all nodes below it. */
  ghost predicate IsPruned(h: Links, f: Links, left: set<Node>, kids: Kids, rank: map<Node, nat>, n: Node, c: Node)
    requires n in kids && c in kids[n]
  {
    && Ranked(h, rank) && left == h.Keys - Subtree(h, rank, c)
    && Forest(f, Without(kids, n, c) - (h.Keys - left)) && Ranked(f, rank - (h.Keys - left))
    && forall x | x in left :: x in f && x in h && f[x].parent == h[x].parent
  }

  lemma PruneFacts(h: Links, kids: Kids, rank: map<Node, nat>, n: Node, c: Node)
    requires Forest(h, kids) && Ranked(h, rank) && n in h && c in kids[n]
    ensures c in h && h[c].parent == n && Listed(h, n, kids[n]) && n !in kids[n]
    ensures var gone := Subtree(h, rank, c);
      IsPruned(h, Unlinked(h, n, kids[n], IndexOf(kids[n], c)) - gone, h.Keys - gone, kids, rank, n, c)
  {
    var k, gone := IndexOf(kids[n], c), Subtree(h, rank, c);
    PruneSound(h, kids, rank, n, k);
    ChildOf(h, n, kids[n], c);
    assert h.Keys - (h.Keys - gone) == gone;
    assert c in gone by { assert c in Above(h, rank, c); }
    var g := Unlinked(h, n, kids[n], k);
    UnlinkedOthers(h, n, kids[n], k, n);
    hide Unlinked, Forest, Ranked, Subtree, Listed;
    forall x | x in h.Keys - gone ensures x in g - gone && g[x].parent == h[x].parent {
      UnlinkedOthers(h, n, kids[n], k, x);
    }
  }

  lemma LinksOfPart(all: set<Node>, gone: set<Node>)
    ensures LinksOf(all - gone) == LinksOf(all) - gone
  {
  }

  /** remove_node, and what is left. */
  method RemoveTree(c: Node, n: Node, ghost ns: set<Node>, ghost kids: Kids, ghost rank: map<Node, nat>)
    returns (ghost left: set<Node>)
    requires Forest(LinksOf(ns), kids) && Ranked(LinksOf(ns), rank) && n in ns && c in kids[n]
    modifies ns`parent, ns`firstChild, ns`prevSibling, ns`nextSibling
    ensures IsPruned(old(LinksOf(ns)), LinksOf(left), left, kids, rank, n, c)
  {
    ghost var h := LinksOf(ns);
    PruneFacts(h, kids, rank, n, c);
    ghost var gone := Subtree(h, rank, c);
    left := ns - gone;
    hide *;
    assert h[c].parent == c.parent;
    RemoveNode(c, IndexOf(kids[n], c), ns, kids);
    LinksOfPart(ns, gone);
  }

  /** Old nodes keep their parents, and new ones have one. */
  ghost predicate ParentsKept(h: Links, g: Links)
  {
    h.Keys <= g.Keys && forall n: Node | n in g :: if n in h then g[n].parent == h[n].parent else g[n].parent != null
  }

  // ----- documents

  class Document {
    ghost var nodes: set<Node>
    ghost var kids: Kids
    ghost var rank: map<Node, nat>

    /** The nodes form a forest in which only document nodes have no parent. */
    ghost predicate Valid()
      reads this, nodes
    {
      && Forest(LinksOf(nodes), kids) && Ranked(LinksOf(nodes), rank)
      && forall n | n in nodes :: n.parent == null ==> n.kind == Kind.Document
    }

    /** child is parent or one of its ancestors. */
    ghost predicate Encloses(child: Node, parent: Node)
      requires Valid() && parent in nodes
      reads this, nodes
    {
      child in Above(LinksOf(nodes), rank, parent)
    }

    /** allow_move: the climb from the new parent to the root finds out whether child encloses it. */
    method AllowMove(parent: Node, child: Node) returns (ok: bool)
      requires Valid() && parent in nodes && (child.document == parent.document ==> child in nodes)
      ensures ok <==> AllowInsertChild(parent.kind, child.kind) && parent.document == child.document && !Encloses(child, parent)
    {
      if !AllowInsertChild(parent.kind, child.kind) { return false; }
      if parent.document != child.document { return false; }
      ghost var h := LinksOf(nodes);
      hide Forest;
      var cur: Node? := parent;
      while cur != null
        invariant cur != null ==> cur in nodes
        invariant Encloses(child, parent) <==> cur != null && child in Above(h, rank, cur)
        decreases if cur == null then 0 else 1 + rank[cur]
      {
        assert h[cur].parent == cur.parent;
        if cur == child { return false; }
        cur := cur.parent;
      }
      return true;
    }

    /** A node that is not the document itself is a child of its parent. */
    lemma Position(c: Node, n: Node)
      requires Valid() && c in nodes && n in nodes && c.kind != Kind.Document && !Encloses(c, n)
      ensures c.parent != null && Movable(LinksOf(nodes), kids, rank, c.parent, c, n)
      ensures kids.Keys == nodes && c.parent in nodes && c in kids[c.parent]
    {
      hide Listed, Ranked, Above;
      assert Attached(LinksOf(nodes), kids, c);
    }

    /** append_move: the node becomes the last child, unless that would put it below itself. */
    method AppendMove(self: Node, moved: Node) returns (ok: bool)
      requires Valid() && self in nodes && (moved.document == self.document ==> moved in nodes)
      modifies this, nodes`parent, nodes`firstChild, nodes`prevSibling, nodes`nextSibling
      ensures Valid() && nodes == old(nodes)
      ensures ok <==> AllowInsertChild(self.kind, moved.kind) && self.document == moved.document && !old(Encloses(moved, self))
      ensures !ok ==> LinksOf(nodes) == old(LinksOf(nodes)) && kids == old(kids)
      ensures ok ==> old(moved.parent) in old(kids) && moved in old(kids)[old(moved.parent)]
      ensures ok ==> kids == Moved(old(kids), old(moved.parent), moved, self, |Without(old(kids), old(moved.parent), moved)[self]|)
    {
      hide Forest, Ranked, Above, Listed, IsMoved, Movable;
      ok := AllowMove(self, moved);
      if !ok { return; }
      Position(moved, self);
      ghost var h, p := LinksOf(nodes), moved.parent;
      MoveLast(moved, self, p, nodes, kids, rank);
      Adopt(h, p, moved, self, |Without(kids, p, moved)[self]|);
    }

    /** prepend_move: the same to the front. */
    method PrependMove(self: Node, moved: Node) returns (ok: bool)
      requires Valid() && self in nodes && (moved.document == self.document ==> moved in nodes)
      modifies this, nodes`parent, nodes`firstChild, nodes`prevSibling, nodes`nextSibling
      ensures Valid() && nodes == old(nodes)
      ensures ok <==> AllowInsertChild(self.kind, moved.kind) && self.document == moved.document && !old(Encloses(moved, self))
      ensures !ok ==> LinksOf(nodes) == old(LinksOf(nodes)) && kids == old(kids)
      ensures ok ==> old(moved.parent) in old(kids) && moved in old(kids)[old(moved.parent)]
      ensures ok ==> kids == Moved(old(kids), old(moved.parent), moved, self, 0)
    {
      hide Forest, Ranked, Above, Listed, IsMoved, Movable;
      ok := AllowMove(self, moved);
      if !ok { return; }
      Position(moved, self);
      ghost var h, p := LinksOf(nodes), moved.parent;
      MoveFirst(moved, self, p, nodes, kids, rank);
      Adopt(h, p, moved, self, 0);
    }

    /** insert_move_after: the node comes to lie after node, a child of self. */
    method InsertMoveAfter(self: Node, moved: Node, node: Node) returns (ok: bool)
      requires Valid() && self in nodes && (moved.document == self.document ==> moved in nodes) && node in nodes
      modifies this, nodes`parent, nodes`firstChild, nodes`prevSibling, nodes`nextSibling
      ensures Valid() && nodes == old(nodes)
      ensures ok <==> AllowInsertChild(self.kind, moved.kind) && self.document == moved.document && !old(Encloses(moved, self))
                      && old(node.parent) == self && moved != node
      ensures !ok ==> LinksOf(nodes) == old(LinksOf(nodes)) && kids == old(kids)
      ensures ok ==> old(moved.parent) in old(kids) && moved in old(kids)[old(moved.parent)]
      ensures ok ==> PlaceAfter(old(kids), old(moved.parent), moved, self, node) <= |Without(old(kids), old(moved.parent), moved)[self]|
      ensures ok ==>
        kids == Moved(old(kids), old(moved.parent), moved, self, PlaceAfter(old(kids), old(moved.parent), moved, self, node))
    {
      hide Forest, Ranked, Above, Listed, IsMoved, Movable;
      ok := AllowMove(self, moved);
      if !ok || node.parent != self || moved == node { return false; }
      Position(moved, self);
      ChildHere(node, self);
      ghost var h, p := LinksOf(nodes), moved.parent;
      MoveAfter(moved, self, node, p, nodes, kids, rank);
      Adopt(h, p, moved, self, PlaceAfter(kids, p, moved, self, node));
    }

    /** insert_move_before: the same, before node. */
    method InsertMoveBefore(self: Node, moved: Node, node: Node) returns (ok: bool)
      requires Valid() && self in nodes && (moved.document == self.document ==> moved in nodes) && node in nodes
      modifies this, nodes`parent, nodes`firstChild, nodes`prevSibling, nodes`nextSibling
      ensures Valid() && nodes == old(nodes)
      ensures ok <==> AllowInsertChild(self.kind, moved.kind) && self.document == moved.document && !old(Encloses(moved, self))
                      && old(node.parent) == self && moved != node
      ensures !ok ==> LinksOf(nodes) == old(LinksOf(nodes)) && kids == old(kids)
      ensures ok ==> old(moved.parent) in old(kids) && moved in old(kids)[old(moved.parent)]
      ensures ok ==> PlaceOf(old(kids), old(moved.parent), moved, self, node) <= |Without(old(kids), old(moved.parent), moved)[self]|
      ensures ok ==>
        kids == Moved(old(kids), old(moved.parent), moved, self, PlaceOf(old(kids), old(moved.parent), moved, self, node))
    {
      hide Forest, Ranked, Above, Listed, IsMoved, Movable;
      ok := AllowMove(self, moved);
      if !ok || node.parent != self || moved == node { return false; }
      Position(moved, self);
      ChildHere(node, self);
      ghost var h, p := LinksOf(nodes), moved.parent;
      MoveBefore(moved, self, node, p, nodes, kids, rank);
      Adopt(h, p, moved, self, PlaceOf(kids, p, moved, self, node));
    }

    lemma ChildHere(m: Node, n: Node)
      requires Valid() && m in nodes && m.parent == n
      ensures n in nodes && m in kids[n] && kids.Keys == nodes
    {
      assert Attached(LinksOf(nodes), kids, m);
    }

    /** The ghost state after a move. */
    ghost method Adopt(h: Links, p: Node, c: Node, n: Node, i: nat)
      requires p in kids && c in kids[p] && n in kids && i <= |Without(kids, p, c)[n]|
      requires IsMoved(h, LinksOf(nodes), kids, rank, p, c, n, i)
      requires forall x: Node | x in h && h[x].parent == null :: x.kind == Kind.Document
      modifies this
      ensures Valid() && nodes == old(nodes) && kids == Moved(old(kids), p, c, n, i)
    {
      hide Forest, Ranked, Above, Without, Moved, Reranked;
      kids := Moved(kids, p, c, n, i);
      rank := Reranked(h, rank, c, n);
    }

    /** append_child with a node type: a new last child, where such a child is allowed. */
    method AppendChild(self: Node, kind: Kind) returns (c: Node?)
      requires Valid() && self in nodes
      modifies this, nodes`parent, nodes`firstChild, nodes`prevSibling, nodes`nextSibling
      ensures Valid() && (c == null <==> !AllowInsertChild(self.kind, kind))
      ensures c == null ==> nodes == old(nodes) && LinksOf(nodes) == old(LinksOf(nodes)) && kids == old(kids)
      ensures c != null ==> fresh(c) && c.kind == kind && nodes == old(nodes) + {c}
      ensures c != null ==> self in old(kids) && kids == Grown(old(kids), c, self, |old(kids)[self]|)
    {
      hide Forest, Ranked, Listed, IsGrown;
      if !AllowInsertChild(self.kind, kind) { return null; }
      InKids(self);
      ghost var h, all := LinksOf(nodes), nodes;
      var n: Node;
      n, all := NewNode(kind, self.document, nodes);
      AttachLast(n, self, h, all, kids, rank);
      Grow(h, all, n, self, |kids[self]|);
      c := n;
    }

    /** prepend_child */
    method PrependChild(self: Node, kind: Kind) returns (c: Node?)
      requires Valid() && self in nodes
      modifies this, nodes`parent, nodes`firstChild, nodes`prevSibling, nodes`nextSibling
      ensures Valid() && (c == null <==> !AllowInsertChild(self.kind, kind))
      ensures c == null ==> nodes == old(nodes) && LinksOf(nodes) == old(LinksOf(nodes)) && kids == old(kids)
      ensures c != null ==> fresh(c) && c.kind == kind && nodes == old(nodes) + {c}
      ensures c != null ==> self in old(kids) && kids == Grown(old(kids), c, self, 0)
    {
      hide Forest, Ranked, Listed, IsGrown;
      if !AllowInsertChild(self.kind, kind) { return null; }
      InKids(self);
      ghost var h, all := LinksOf(nodes), nodes;
      var n: Node;
      n, all := NewNode(kind, self.document, nodes);
      AttachFirst(n, self, h, all, kids, rank);
      Grow(h, all, n, self, 0);
      c := n;
    }

    /** insert_child_after */
    method InsertChildAfter(self: Node, kind: Kind, node: Node) returns (c: Node?)
      requires Valid() && self in nodes && node in nodes
      modifies this, nodes`parent, nodes`firstChild, nodes`prevSibling, nodes`nextSibling
      ensures Valid() && (c == null <==> !(AllowInsertChild(self.kind, kind) && old(node.parent) == self))
      ensures c == null ==> nodes == old(nodes) && LinksOf(nodes) == old(LinksOf(nodes)) && kids == old(kids)
      ensures c != null ==> fresh(c) && c.kind == kind && nodes == old(nodes) + {c}
      ensures c != null ==> self in old(kids) && node in old(kids)[self]
      ensures c != null ==> kids == Grown(old(kids), c, self, PlaceBehind(old(kids)[self], node))
    {
      hide Forest, Ranked, Listed, Linked, Attached, Above, IsGrown, PlaceBehind, InsertAt;
      if !AllowInsertChild(self.kind, kind) || node.parent != self { return null; }
      ChildHere(node, self);
      InKids(self);
      ghost var h, all := LinksOf(nodes), nodes;
      ghost var k := PlaceBehind(kids[self], node);
      assert h[node].parent == self && 0 < k <= |kids[self]| && kids[self][k - 1] == node;
      var n: Node;
      n, all := NewNode(kind, self.document, nodes);
      AttachAfter(n, self, node, k, h, all, kids, rank);
      Grow(h, all, n, self, k);
      c := n;
    }

    /** insert_child_before */
    method InsertChildBefore(self: Node, kind: Kind, node: Node) returns (c: Node?)
      requires Valid() && self in nodes && node in nodes
      modifies this, nodes`parent, nodes`firstChild, nodes`prevSibling, nodes`nextSibling
      ensures Valid() && (c == null <==> !(AllowInsertChild(self.kind, kind) && old(node.parent) == self))
      ensures c == null ==> nodes == old(nodes) && LinksOf(nodes) == old(LinksOf(nodes)) && kids == old(kids)
      ensures c != null ==> fresh(c) && c.kind == kind && nodes == old(nodes) + {c}
      ensures c != null ==> self in old(kids) && node in old(kids)[self]
      ensures c != null ==> kids == Grown(old(kids), c, self, IndexOf(old(kids)[self], node))
    {
      hide Forest, Ranked, Listed, IsGrown;
      if !AllowInsertChild(self.kind, kind) || node.parent != self { return null; }
      ChildHere(node, self);
      InKids(self);
      ghost var h, all := LinksOf(nodes), nodes;
      ghost var k := IndexOf(kids[self], node);
      assert h[node].parent == self;
      var n: Node;
      n, all := NewNode(kind, self.document, nodes);
      AttachBefore(n, self, node, k, h, all, kids, rank);
      Grow(h, all, n, self, k);
      c := n;
    }

    lemma InKids(n: Node)
      requires Valid() && n in nodes
      ensures n in kids && n in rank
    {
    }

    /** The ghost state once a new node is in its place. */
    ghost method Grow(h: Links, all: set<Node>, c: Node, n: Node, i: nat)
      requires n in kids && n in rank && i <= |kids[n]| && IsGrown(h, LinksOf(all), kids, rank, c, n, i)
      requires forall x: Node | x in h && h[x].parent == null :: x.kind == Kind.Document
      modifies this
      ensures Valid() && nodes == all && kids == Grown(old(kids), c, n, i)
    {
      hide Forest, Ranked, Grown;
      nodes := all;
      kids := Grown(kids, c, n, i);
      rank := rank[c := rank[n] + 1];
    }

    /** remove_child: the node leaves the document with everything below it. */
    method RemoveChild(self: Node, node: Node) returns (ok: bool)
      requires Valid() && self in nodes && node in nodes
      modifies this, nodes`parent, nodes`firstChild, nodes`prevSibling, nodes`nextSibling
      ensures Valid() && (ok <==> old(node.parent) == self)
      ensures !ok ==> nodes == old(nodes) && LinksOf(nodes) == old(LinksOf(nodes)) && kids == old(kids)
      ensures ok ==> self in old(kids) && node in old(kids)[self]
      ensures ok ==> nodes == set x | x in old(nodes) && !old(Encloses(node, x))
      ensures ok ==> kids == Without(old(kids), self, node) - (old(nodes) - nodes)
    {
      hide Forest, Ranked, Listed, Above;
      if node.parent != self { return false; }
      ChildHere(node, self);
      ghost var h := LinksOf(nodes);
      ghost var left := RemoveTree(node, self, nodes, kids, rank);
      Shrink(h, left, self, node);
      return true;
    }

    /** The ghost state after a removal. */
    ghost method Shrink(h: Links, left: set<Node>, n: Node, c: Node)
      requires n in kids && c in kids[n] && IsPruned(h, LinksOf(left), left, kids, rank, n, c)
      requires forall x: Node | x in h && h[x].parent == null :: x.kind == Kind.Document
      modifies this
      ensures Valid() && nodes == left && kids == Without(old(kids), n, c) - (h.Keys - left)
    {
      hide Forest, Ranked, Without;
      nodes, kids, rank := left, Without(kids, n, c) - (h.Keys - left), rank - (h.Keys - left);
    }

    /** The ghost state after new nodes have been put in below old ones. */
    ghost method Renew(h: Links, all: set<Node>, k: Kids, r: map<Node, nat>)
      requires Forest(LinksOf(all), k) && Ranked(LinksOf(all), r) && ParentsKept(h, LinksOf(all))
      requires forall x: Node | x in h && h[x].parent == null :: x.kind == Kind.Document
      modifies this
      ensures Valid() && nodes == all && kids == k
    {
      hide Forest, Ranked;
      nodes, kids, rank := all, k, r;
    }
  }
}
