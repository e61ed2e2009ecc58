/**
 A document tree as the traversals see it.  A node is the path of child indices that
 leads to it from the document; parent, first_child, next_sibling and the cyclic
 prev_sibling_c are the steps the source takes along its pointers.
 */
module XmlTree {

  datatype Tree = Tree(kids: seq<Tree>)

  type Path = seq<nat>

  datatype Pointer = Null | Ptr(path: Path)

  /** The subtree at p, if p leads to a node. */
  ghost predicate In(t: Tree, p: Path)
    decreases |p|
  {
    p == [] || (p[0] < |t.kids| && In(t.kids[p[0]], p[1..]))
  }

  function Sub(t: Tree, p: Path): Tree
    requires In(t, p)
    decreases |p|
  {
    if p == [] then t else Sub(t.kids[p[0]], p[1..])
  }

  function Arity(t: Tree, p: Path): nat
    requires In(t, p)
  {
    |Sub(t, p).kids|
  }

  /** q + [i] is a node exactly if i is a child index of q. */
  lemma {:induction false} InChild(t: Tree, q: Path, i: nat)
    requires In(t, q)
    ensures In(t, q + [i]) <==> i < Arity(t, q)
    ensures i < Arity(t, q) ==> Sub(t, q + [i]) == Sub(t, q).kids[i]
    decreases |q|
  {
    if q == [] {
      assert (q + [i])[1..] == [];
    } else {
      assert (q + [i])[1..] == q[1..] + [i];
      InChild(t.kids[q[0]], q[1..], i);
    }
  }

  lemma {:induction false} InPrefix(t: Tree, p: Path, n: nat)
    requires In(t, p) && n <= |p|
    ensures In(t, p[..n])
    decreases n
  {
    if n > 0 {
      InPrefix(t.kids[p[0]], p[1..], n - 1);
      assert p[..n][1..] == p[1..][..n - 1];
    }
  }

  function Up(p: Path): Path
    requires p != []
  {
    p[..|p| - 1]
  }

  function Last(p: Path): nat
    requires p != []
  {
    p[|p| - 1]
  }

  /** A node other than the document is one of the children of its parent. */
  lemma IsChild(t: Tree, p: Path)
    requires In(t, p) && p != []
    ensures p == Up(p) + [Last(p)] && In(t, Up(p)) && Last(p) < Arity(t, Up(p))
  {
    InPrefix(t, p, |p| - 1);
    InChild(t, Up(p), Last(p));
  }

  // ----- the pointers

  function Parent(p: Path): Pointer
  {
    if p == [] then Null else Ptr(Up(p))
  }

  function FirstChild(t: Tree, p: Path): Pointer
    requires In(t, p)
  {
    if Arity(t, p) == 0 then Null else Ptr(p + [0])
  }

  function NextSibling(t: Tree, p: Path): Pointer
    requires In(t, p)
  {
    if p == [] then Null
    else
      IsChild(t, p);
      if Last(p) + 1 < Arity(t, Up(p)) then Ptr(Up(p) + [Last(p) + 1]) else Null
  }

  /** Cyclic: the first child leads to the last, the document to itself. */
  function PrevSiblingC(t: Tree, p: Path): Path
    requires In(t, p)
  {
    if p == [] then p
    else
      IsChild(t, p);
      Up(p) + [if Last(p) == 0 then Arity(t, Up(p)) - 1 else Last(p) - 1]
  }

  lemma ChildPath(q: Path, i: nat)
    ensures Up(q + [i]) == q && Last(q + [i]) == i
  {
  }

  lemma FirstChildIn(t: Tree, p: Path)
    requires In(t, p)
    ensures FirstChild(t, p).Ptr? ==> In(t, FirstChild(t, p).path)
  {
    InChild(t, p, 0);
  }

  /** prev_sibling_c leads to a node; that node has no next sibling exactly if p has no previous one. */
  lemma PrevSiblingIn(t: Tree, p: Path)
    requires In(t, p)
    ensures In(t, PrevSiblingC(t, p))
    ensures NextSibling(t, PrevSiblingC(t, p)).Null? <==> (p == [] || Last(p) == 0)
  {
    hide In;
    if p != [] {
      IsChild(t, p);
      var i := if Last(p) == 0 then Arity(t, Up(p)) - 1 else Last(p) - 1;
      InChild(t, Up(p), i);
      ChildPath(Up(p), i);
    }
  }

  // ----- document order

  /** a comes before b in document order: an ancestor first, else by the first branch that differs. */
  predicate Before(a: Path, b: Path)
    decreases |a|
  {
    b != [] && (a == [] || a[0] < b[0] || (a[0] == b[0] && Before(a[1..], b[1..])))
  }

  lemma {:induction false} BeforeIrreflexive(a: Path)
    ensures !Before(a, a)
    decreases |a|
  {
    if a != [] { BeforeIrreflexive(a[1..]); }
  }

  lemma {:induction false} BeforeTransitive(a: Path, b: Path, c: Path)
    requires Before(a, b) && Before(b, c)
    ensures Before(a, c)
    decreases |a|
  {
    if a != [] && a[0] == b[0] == c[0] { BeforeTransitive(a[1..], b[1..], c[1..]); }
  }

  lemma {:induction false} BeforeTotal(a: Path, b: Path)
    ensures a == b || Before(a, b) || Before(b, a)
    decreases |a|
  {
    if a != [] && b != [] && a[0] == b[0] {
      BeforeTotal(a[1..], b[1..]);
      assert a == [a[0]] + a[1..] && b == [b[0]] + b[1..];
    }
  }

  /** A common prefix does not matter. */
  lemma {:induction false} BeforeAfterPrefix(q: Path, a: Path, b: Path)
    ensures Before(q + a, q + b) <==> Before(a, b)
    decreases |q|
  {
    if q == [] {
      assert q + a == a && q + b == b;
    } else {
      assert (q + a)[1..] == q[1..] + a && (q + b)[1..] == q[1..] + b;
      BeforeAfterPrefix(q[1..], a, b);
    }
  }

  // ----- lists of nodes

  /** Children i to n of p with their descendants, in document order. */
  ghost function Forest(t: Tree, p: Path, i: nat, n: nat): seq<Path>
    requires In(t, p) && i <= n <= Arity(t, p)
    decreases Sub(t, p), 0, n - i
  {
    if i == n then [] else
      InChild(t, p, i);
      Preorder(t, p + [i]) + Forest(t, p, i + 1, n)
  }

  /** p and its descendants in document order. */
  ghost function Preorder(t: Tree, p: Path): seq<Path>
    requires In(t, p)
    decreases Sub(t, p), 1
  {
    [p] + Forest(t, p, 0, Arity(t, p))
  }

  /** Children below n with their descendants, in reverse document order. */
  ghost function ForestBack(t: Tree, p: Path, n: nat): seq<Path>
    requires In(t, p) && n <= Arity(t, p)
    decreases Sub(t, p), 0, n
  {
    if n == 0 then [] else
      InChild(t, p, n - 1);
      Postorder(t, p + [n - 1]) + ForestBack(t, p, n - 1)
  }

  /** p and its descendants in reverse document order. */
  ghost function Postorder(t: Tree, p: Path): seq<Path>
    requires In(t, p)
    decreases Sub(t, p), 1
  {
    ForestBack(t, p, Arity(t, p)) + [p]
  }

  /** Everything after the subtree of p, in document order. */
  ghost function Following(t: Tree, p: Path): seq<Path>
    requires In(t, p)
    decreases |p|
  {
    if p == [] then [] else
      IsChild(t, p);
      Forest(t, Up(p), Last(p) + 1, Arity(t, Up(p))) + Following(t, Up(p))
  }

  /** Everything before p that is not an ancestor, in reverse document order. */
  ghost function Preceding(t: Tree, p: Path): seq<Path>
    requires In(t, p)
    decreases |p|
  {
    if p == [] then [] else
      IsChild(t, p);
      ForestBack(t, Up(p), Last(p)) + Preceding(t, Up(p))
  }

  /** The ancestors, innermost first: reverse document order. */
  ghost function Ancestors(p: Path): seq<Path>
    decreases |p|
  {
    if p == [] then [] else [Up(p)] + Ancestors(Up(p))
  }

  ghost function Descendants(t: Tree, p: Path): seq<Path>
    requires In(t, p)
  {
    Forest(t, p, 0, Arity(t, p))
  }

  /** All nodes of the document. */
  ghost function Document(t: Tree): seq<Path> { Preorder(t, []) }
}
