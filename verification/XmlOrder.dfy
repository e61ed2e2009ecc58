/** node_is_before: document order decided by climbing from both nodes. */
module XmlOrder {
  import opened XmlTree
  import opened XmlAxes

  /** Document order is the order of the document's node list. */
  lemma OrderIsListOrder(t: Tree, a: Path, b: Path)
    requires In(t, a) && In(t, b)
    ensures Before(a, b) <==> exists i, j | 0 <= i < j < |Document(t)| :: Document(t)[i] == a && Document(t)[j] == b
  {
    var all := Document(t);
    PreorderAscending(t, []);
    PreorderMembers(t, [], a);
    PreorderMembers(t, [], b);
    var i :| 0 <= i < |all| && all[i] == a;
    var j :| 0 <= j < |all| && all[j] == b;
    BeforeIrreflexive(a);
    if i > j && Before(a, b) { BeforeTransitive(a, b, a); }
  }

  /** The ancestor of p that is k levels up. */
  function Raised(p: Path, k: nat): Pointer
  {
    if k <= |p| then Ptr(p[..|p| - k]) else Null
  }

  function ParentOf(x: Pointer): Pointer
    requires x.Ptr?
  {
    Parent(x.path)
  }

  lemma RaiseOnce(p: Path, k: nat)
    requires k <= |p|
    ensures ParentOf(Raised(p, k)) == Raised(p, k + 1)
  {
    if k < |p| { assert p[..|p| - k][..|p| - k - 1] == p[..|p| - k - 1]; }
  }

  /** The child k of u, or nothing past the last one. */
  ghost function Kid(t: Tree, u: Path, k: nat): Pointer
    requires In(t, u)
  {
    if k < Arity(t, u) then Ptr(u + [k]) else Null
  }

  lemma NextKid(t: Tree, u: Path, k: nat)
    requires In(t, u) && k < Arity(t, u)
    ensures In(t, u + [k]) && NextSibling(t, u + [k]) == Kid(t, u, k + 1)
  {
    InChild(t, u, k);
    ChildPath(u, k);
  }

  lemma SameKid(u: Path, i: nat, j: nat)
    ensures u + [i] == u + [j] <==> i == j
  {
    ChildPath(u, i);
    ChildPath(u, j);
  }

  /** Which of two different children of u comes first: both sibling chains are walked at once. */
  method NodeIsBeforeSibling(t: Tree, ln: Path, rn: Path, ghost u: Path, ghost i: nat, ghost j: nat) returns (r: bool)
    requires In(t, u) && i < Arity(t, u) && j < Arity(t, u) && i != j
    requires ln == u + [i] && rn == u + [j]
    ensures r == (i < j)
  {
    hide In, Sub, NextSibling;
    var ls, rs := Ptr(ln), Ptr(rn);
    ghost var k := 0;
    while ls.Ptr? && rs.Ptr?
      invariant ls == Kid(t, u, i + k) && rs == Kid(t, u, j + k)
      invariant i < j ==> i + k <= j
      invariant j < i ==> j + k <= i
      decreases Arity(t, u) - k
    {
      SameKid(u, i + k, j);
      SameKid(u, j + k, i);
      if ls.path == rn { return true; }
      if rs.path == ln { return false; }
      NextKid(t, u, i + k);
      NextKid(t, u, j + k);
      ls := NextSibling(t, ls.path);
      rs := NextSibling(t, rs.path);
      k := k + 1;
    }
    return rs.Null?;
  }

  /** Two nodes of one depth part at position m: there their order is decided. */
  lemma PartAt(a: Path, b: Path, m: nat)
    requires m < |a| && m < |b| && a[..m] == b[..m] && a[m] != b[m]
    ensures Before(a, b) <==> a[m] < b[m]
  {
    var u := a[..m];
    assert u < a && u < b;
    if a[m] < b[m] {
      Branches(u, a, b);
    } else {
      Branches(u, b, a);
      BeforeIrreflexive(a);
      if Before(a, b) { BeforeTransitive(a, b, a); }
    }
  }

  /** Climbs from two different nodes of one depth to the children of their common ancestor. */
  method DecideAtSiblings(t: Tree, left: Path, right: Path, ghost a: Path, ghost b: Path) returns (r: bool)
    requires In(t, a) && In(t, b) && left <= a && right <= b && |left| == |right| && left != right
    ensures r == Before(a, b)
  {
    var ln, rn := left, right;
    while Parent(ln) != Parent(rn)
      invariant ln <= a && rn <= b && |ln| == |rn| && ln != rn
      decreases |ln|
    {
      assert Up(ln) <= a by { assert Up(ln) == a[..|ln| - 1]; }
      assert Up(rn) <= b by { assert Up(rn) == b[..|rn| - 1]; }
      ln, rn := Up(ln), Up(rn);
    }
    ghost var m := |ln| - 1;
    assert ln == a[..m + 1] && rn == b[..m + 1];
    assert a[..m] == Up(ln) == Up(rn) == b[..m];
    InPrefix(t, a, m + 1);
    InPrefix(t, b, m + 1);
    IsChild(t, ln);
    IsChild(t, rn);
    PartAt(a, b, m);
    r := NodeIsBeforeSibling(t, ln, rn, Up(ln), a[m], b[m]);
  }

  /** The depth of the shallower of two nodes. */
  function Least(a: Path, b: Path): nat { if |a| <= |b| then |a| else |b| }

  /**
   Climbs from both nodes at once until their parents are the same or one climb has
   left the tree; for nodes of different depths it is always the latter.
   */
  method Lockstep(ln: Path, rn: Path) returns (lp: Pointer, rp: Pointer, ghost k: nat)
    requires ln != rn
    ensures lp == Raised(ln, k) && rp == Raised(rn, k)
    ensures |ln| == |rn| ==> lp.Ptr? && rp.Ptr? && lp != rp
    ensures |ln| != |rn| ==> k == Least(ln, rn) + 1
  {
    lp, rp := Ptr(ln), Ptr(rn);
    k := 0;
    assert ln[..|ln|] == ln && rn[..|rn|] == rn;
    while lp.Ptr? && rp.Ptr? && ParentOf(lp) != ParentOf(rp)
      invariant lp == Raised(ln, k) && rp == Raised(rn, k) && k <= Least(ln, rn) + 1
      invariant |ln| == |rn| ==> lp.Ptr? && rp.Ptr? && lp != rp
      decreases |ln| + 1 - k
    {
      RaiseOnce(ln, k);
      RaiseOnce(rn, k);
      lp, rp := ParentOf(lp), ParentOf(rp);
      k := k + 1;
    }
    if lp.Ptr? && rp.Ptr? {
      RaiseOnce(ln, k);
      RaiseOnce(rn, k);
      SameDepth(ln, rn, k);
    }
  }

  /** Equal parents are at equal depths. */
  lemma SameDepth(a: Path, b: Path, k: nat)
    requires k <= |a| && k <= |b| && a != b && Raised(a, k + 1) == Raised(b, k + 1)
    requires |a| == |b| ==> Raised(a, k) != Raised(b, k)
    ensures |a| == |b|
  {
    if k + 1 <= |a| && k + 1 <= |b| {
      assert |a[..|a| - k - 1]| == |b[..|b| - k - 1]|;
    }
  }

  /** Climbs with p out of the tree and with node along: the height difference is taken off. */
  method Normalize(node: Path, start: Pointer, ghost k: nat) returns (n: Path)
    requires 1 <= k <= |node| + 1 && start == Raised(node, k)
    ensures n == node[..k - 1]
  {
    var p := start;
    ghost var i := k;
    n := node;
    assert node[..|node|] == node;
    while p.Ptr?
      invariant k <= i <= |node| + 1 && p == Raised(node, i) && n == node[..|node| - (i - k)]
      decreases |node| + 1 - i
    {
      RaiseOnce(node, i);
      p := ParentOf(p);
      assert node[..|node| - (i - k)][..|node| - (i - k) - 1] == node[..|node| - (i - k) - 1];
      n := Up(n);
      i := i + 1;
    }
  }

  /** node_is_before, for two different nodes of one document. */
  method NodeIsBefore(t: Tree, left: Path, right: Path) returns (r: bool)
    requires In(t, left) && In(t, right) && left != right
    ensures r == Before(left, right)
  {
    hide Before, In;
    var lp, rp;
    ghost var k;
    lp, rp, k := Lockstep(left, right);
    if lp.Ptr? && rp.Ptr? {
      r := DecideAtSiblings(t, lp.path, rp.path, left, right);
      return;
    }
    var leftHigher := lp.Null?;
    var ln := Normalize(left, lp, k);
    var rn := Normalize(right, rp, k);
    if ln == rn {
      HigherFirst(left, right, k - 1);
      return leftHigher;
    }
    r := DecideAtSiblings(t, ln, rn, left, right);
  }

  /** When one node is above the other, it comes first. */
  lemma HigherFirst(a: Path, b: Path, m: nat)
    requires |a| != |b| && m == Least(a, b) && a[..m] == b[..m]
    ensures Before(a, b) <==> |a| == m
  {
    if |a| == m {
      assert a[..m] == a;
      PrefixBefore(a, b);
    } else {
      assert b[..m] == b;
      PrefixNotAfter(b, a);
    }
  }
}
