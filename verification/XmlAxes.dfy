/** What the XPath axes contain, in which order, and that five of them partition the document. */
module XmlAxes {
  import opened XmlTree

  // ----- membership

  /** q lies strictly below p, in the branch of child k. */
  predicate Under(p: Path, k: nat, q: Path)
  {
    |q| > |p| && p <= q && q[|p|] == k
  }

  lemma UnderChild(p: Path, k: nat, q: Path)
    ensures p + [k] <= q <==> Under(p, k, q)
  {
    if p + [k] <= q {
      assert (p + [k])[..|p|] == p && q[..|p|] == q[..|p| + 1][..|p|];
      assert q[|p|] == q[..|p| + 1][|p|];
    }
  }

  lemma PrefixCases(p: Path, q: Path)
    ensures p <= q <==> p < q || p == q
  {
    if p <= q && |p| == |q| { assert p == q[..|p|] == q; }
  }

  lemma BranchExists(t: Tree, p: Path, q: Path)
    requires In(t, q) && p < q
    ensures In(t, p) && q[|p|] < Arity(t, p)
  {
    InPrefix(t, q, |p|);
    InPrefix(t, q, |p| + 1);
    assert q[..|p|] == p && q[..|p| + 1] == p + [q[|p|]];
    InChild(t, p, q[|p|]);
  }

  lemma {:induction false} ForestMembers(t: Tree, p: Path, i: nat, n: nat, q: Path)
    requires In(t, p) && i <= n <= Arity(t, p)
    ensures q in Forest(t, p, i, n) <==> In(t, q) && p < q && i <= q[|p|] < n
    decreases Sub(t, p), 0, n - i
  {
    if i < n {
      InChild(t, p, i);
      PreorderMembers(t, p + [i], q);
      ForestMembers(t, p, i + 1, n, q);
      UnderChild(p, i, q);
    }
  }

  lemma {:induction false} PreorderMembers(t: Tree, p: Path, q: Path)
    requires In(t, p)
    ensures q in Preorder(t, p) <==> In(t, q) && p <= q
    decreases Sub(t, p), 1
  {
    PrefixCases(p, q);
    ForestMembers(t, p, 0, Arity(t, p), q);
    if In(t, q) && p < q {
      BranchExists(t, p, q);
    }
  }

  /** Where q stands relative to the child l of u. */
  lemma {:induction false} Compare(u: Path, l: nat, q: Path)
    ensures u <= q ==> (Before(u + [l], q) && !(u + [l] <= q) <==> u < q && q[|u|] > l)
    ensures u <= q ==> (Before(q, u + [l]) && !(q <= u + [l]) <==> u < q && q[|u|] < l)
    ensures !(u <= q) ==> (Before(u + [l], q) <==> Before(u, q))
    ensures !(u <= q) ==> (Before(q, u + [l]) && !(q <= u + [l]) <==> Before(q, u) && !(q <= u))
    decreases |u|
  {
    if u == [] {
      assert u + [l] == [l];
      if q != [] { assert Before([l], q) <==> l < q[0] || (l == q[0] && q[1..] != []); }
    } else if q != [] {
      assert (u + [l])[1..] == u[1..] + [l];
      Compare(u[1..], l, q[1..]);
      Tails(u, q);
      Tails(u + [l], q);
      Tails(q, u + [l]);
      Tails(q, u);
    }
  }

  lemma Tails(a: Path, b: Path)
    requires a != [] && b != []
    ensures a <= b <==> a[0] == b[0] && a[1..] <= b[1..]
  {
    assert a == [a[0]] + a[1..] && b == [b[0]] + b[1..];
  }

  /** The following axis: after p in document order, and not a descendant. */
  lemma {:induction false} FollowingMembers(t: Tree, p: Path, q: Path)
    requires In(t, p)
    ensures q in Following(t, p) <==> In(t, q) && Before(p, q) && !(p <= q)
    decreases |p|
  {
    if p == [] {
    } else {
      IsChild(t, p);
      var u, l := Up(p), Last(p);
      ForestMembers(t, u, l + 1, Arity(t, u), q);
      FollowingMembers(t, u, q);
      Compare(u, l, q);
      if In(t, q) && u < q { BranchExists(t, u, q); }
    }
  }

  lemma {:induction false} ForestBackMembers(t: Tree, p: Path, n: nat, q: Path)
    requires In(t, p) && n <= Arity(t, p)
    ensures q in ForestBack(t, p, n) <==> In(t, q) && p < q && q[|p|] < n
    decreases Sub(t, p), 0, n
  {
    if n > 0 {
      InChild(t, p, n - 1);
      PostorderMembers(t, p + [n - 1], q);
      ForestBackMembers(t, p, n - 1, q);
      UnderChild(p, n - 1, q);
    }
  }

  lemma {:induction false} PostorderMembers(t: Tree, p: Path, q: Path)
    requires In(t, p)
    ensures q in Postorder(t, p) <==> In(t, q) && p <= q
    decreases Sub(t, p), 1
  {
    PrefixCases(p, q);
    ForestBackMembers(t, p, Arity(t, p), q);
    if In(t, q) && p < q {
      BranchExists(t, p, q);
    }
  }

  /** Nothing at or below u comes before u. */
  lemma {:induction false} PrefixNotAfter(u: Path, q: Path)
    ensures u <= q ==> !Before(q, u)
    decreases |u|
  {
    if u <= q && u != [] {
      Tails(u, q);
      PrefixNotAfter(u[1..], q[1..]);
    }
  }

  lemma {:induction false} PrefixBefore(a: Path, b: Path)
    requires a < b
    ensures Before(a, b)
    decreases |a|
  {
    if a != [] {
      Tails(a, b);
      PrefixBefore(a[1..], b[1..]);
    }
  }

  /** The preceding axis: before p in document order, and not an ancestor. */
  lemma {:induction false} PrecedingMembers(t: Tree, p: Path, q: Path)
    requires In(t, p)
    ensures q in Preceding(t, p) <==> In(t, q) && Before(q, p) && !(q <= p)
    decreases |p|
  {
    if p == [] {
    } else {
      IsChild(t, p);
      var u, l := Up(p), Last(p);
      if In(t, q) && u < q { BranchExists(t, u, q); }
      PrefixNotAfter(u, q);
      ForestBackMembers(t, u, l, q);
      PrecedingMembers(t, u, q);
      Compare(u, l, q);
    }
  }

  lemma {:induction false} AncestorMembers(p: Path, q: Path)
    ensures q in Ancestors(p) <==> q < p
    decreases |p|
  {
    if p != [] {
      AncestorMembers(Up(p), q);
      PrefixCases(q, Up(p));
      assert q < p <==> q <= Up(p) by {
        if q < p { assert q == p[..|q|] == Up(p)[..|q|]; }
        if q <= Up(p) { assert q == Up(p)[..|q|] == p[..|q|]; }
      }
    }
  }

  /** 1 if x holds, else 0. */
  function Count(x: bool): nat { if x then 1 else 0 }

  /**
   Every node of the document is on exactly one of the axes self, ancestor, descendant,
   preceding and following of p, and these contain nothing else.
   */
  lemma AxesPartition(t: Tree, p: Path, q: Path)
    requires In(t, p)
    ensures Count(q == p) + Count(q in Ancestors(p)) + Count(q in Descendants(t, p))
      + Count(q in Preceding(t, p)) + Count(q in Following(t, p)) == Count(q in Document(t))
  {
    PreorderMembers(t, [], q);
    AncestorMembers(p, q);
    ForestMembers(t, p, 0, Arity(t, p), q);
    PrecedingMembers(t, p, q);
    FollowingMembers(t, p, q);
    BeforeTotal(p, q);
    BeforeIrreflexive(p);
    if p < q { PrefixBefore(p, q); }
    if q < p { PrefixBefore(q, p); }
    if Before(p, q) && Before(q, p) { BeforeTransitive(p, q, p); }
    if In(t, q) && p < q { BranchExists(t, p, q); }
    if q < p { InPrefix(t, p, |q|); assert q == p[..|q|]; }
  }

  // ----- order

  /** In document order, without repetition. */
  ghost predicate Ascending(s: seq<Path>)
  {
    forall i, j | 0 <= i < j < |s| :: Before(s[i], s[j])
  }

  /** In reverse document order, without repetition. */
  ghost predicate Descending(s: seq<Path>)
  {
    forall i, j | 0 <= i < j < |s| :: Before(s[j], s[i])
  }

  lemma AscendingConcat(a: seq<Path>, b: seq<Path>)
    requires Ascending(a) && Ascending(b) && forall x, y | x in a && y in b :: Before(x, y)
    ensures Ascending(a + b)
  {
  }

  lemma DescendingConcat(a: seq<Path>, b: seq<Path>)
    requires Descending(a) && Descending(b) && forall x, y | x in a && y in b :: Before(y, x)
    ensures Descending(a + b)
  {
  }

  lemma Branches(p: Path, x: Path, y: Path)
    requires p < x && p < y && x[|p|] < y[|p|]
    ensures Before(x, y)
  {
    BeforeAfterPrefix(p, x[|p|..], y[|p|..]);
    assert p + x[|p|..] == x && p + y[|p|..] == y;
  }

  lemma {:induction false} Beyond(u: Path, x: Path, y: Path)
    requires u <= x && Before(u, y) && !(u <= y)
    ensures Before(x, y)
    decreases |u|
  {
    if u != [] {
      Tails(u, x);
      Tails(u, y);
      if u[0] == y[0] { Beyond(u[1..], x[1..], y[1..]); }
    }
  }

  lemma {:induction false} ForestAscending(t: Tree, p: Path, i: nat, n: nat)
    requires In(t, p) && i <= n <= Arity(t, p)
    ensures Ascending(Forest(t, p, i, n))
    decreases Sub(t, p), 0, n - i
  {
    if i < n {
      InChild(t, p, i);
      PreorderAscending(t, p + [i]);
      ForestAscending(t, p, i + 1, n);
      forall x, y | x in Preorder(t, p + [i]) && y in Forest(t, p, i + 1, n) ensures Before(x, y) {
        PreorderMembers(t, p + [i], x);
        UnderChild(p, i, x);
        ForestMembers(t, p, i + 1, n, y);
        Branches(p, x, y);
      }
      AscendingConcat(Preorder(t, p + [i]), Forest(t, p, i + 1, n));
    }
  }

  lemma {:induction false} PreorderAscending(t: Tree, p: Path)
    requires In(t, p)
    ensures Ascending(Preorder(t, p))
    decreases Sub(t, p), 1
  {
    var kids := Forest(t, p, 0, Arity(t, p));
    ForestAscending(t, p, 0, Arity(t, p));
    forall y | y in kids ensures Before(p, y) {
      ForestMembers(t, p, 0, Arity(t, p), y);
      PrefixBefore(p, y);
    }
    AscendingConcat([p], kids);
  }

  lemma {:induction false} FollowingAscending(t: Tree, p: Path)
    requires In(t, p)
    ensures Ascending(Following(t, p))
    decreases |p|
  {
    if p != [] {
      IsChild(t, p);
      var u := Up(p);
      var near := Forest(t, u, Last(p) + 1, Arity(t, u));
      ForestAscending(t, u, Last(p) + 1, Arity(t, u));
      FollowingAscending(t, u);
      forall x, y | x in near && y in Following(t, u) ensures Before(x, y) {
        ForestMembers(t, u, Last(p) + 1, Arity(t, u), x);
        FollowingMembers(t, u, y);
        Beyond(u, x, y);
      }
      AscendingConcat(near, Following(t, u));
    }
  }

  lemma {:induction false} ForestBackDescending(t: Tree, p: Path, n: nat)
    requires In(t, p) && n <= Arity(t, p)
    ensures Descending(ForestBack(t, p, n))
    decreases Sub(t, p), 0, n
  {
    if n > 0 {
      InChild(t, p, n - 1);
      PostorderDescending(t, p + [n - 1]);
      ForestBackDescending(t, p, n - 1);
      forall x, y | x in Postorder(t, p + [n - 1]) && y in ForestBack(t, p, n - 1) ensures Before(y, x) {
        PostorderMembers(t, p + [n - 1], x);
        UnderChild(p, n - 1, x);
        ForestBackMembers(t, p, n - 1, y);
        Branches(p, y, x);
      }
      DescendingConcat(Postorder(t, p + [n - 1]), ForestBack(t, p, n - 1));
    }
  }

  lemma {:induction false} PostorderDescending(t: Tree, p: Path)
    requires In(t, p)
    ensures Descending(Postorder(t, p))
    decreases Sub(t, p), 1
  {
    var kids := ForestBack(t, p, Arity(t, p));
    ForestBackDescending(t, p, Arity(t, p));
    forall x | x in kids ensures Before(p, x) {
      ForestBackMembers(t, p, Arity(t, p), x);
      PrefixBefore(p, x);
    }
    DescendingConcat(kids, [p]);
  }

  lemma {:induction false} PrecedingDescending(t: Tree, p: Path)
    requires In(t, p)
    ensures Descending(Preceding(t, p))
    decreases |p|
  {
    if p != [] {
      IsChild(t, p);
      var u := Up(p);
      var near := ForestBack(t, u, Last(p));
      ForestBackDescending(t, u, Last(p));
      PrecedingDescending(t, u);
      forall x, y | x in near && y in Preceding(t, u) ensures Before(y, x) {
        ForestBackMembers(t, u, Last(p), x);
        PrecedingMembers(t, u, y);
        PrefixBefore(u, x);
        BeforeTransitive(y, u, x);
      }
      DescendingConcat(near, Preceding(t, u));
    }
  }

  lemma {:induction false} AncestorsDescending(p: Path)
    ensures Descending(Ancestors(p))
    decreases |p|
  {
    if p != [] {
      AncestorsDescending(Up(p));
      forall y | y in Ancestors(Up(p)) ensures Before(y, Up(p)) {
        AncestorMembers(Up(p), y);
        PrefixBefore(y, Up(p));
      }
      DescendingConcat([Up(p)], Ancestors(Up(p)));
    }
  }
}
