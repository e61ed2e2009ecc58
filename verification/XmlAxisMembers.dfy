/** Which nodes an axis holds, for every axis, by where they stand in the tree. */
module XmlAxisMembers {
  import opened XmlTree
  import opened XmlAxes
  import opened XmlWalk

  /** q and n have the same parent. */
  predicate Siblings(n: Path, q: Path)
  {
    n != [] && q != [] && Up(n) == Up(q)
  }

  /** Where a node q on an axis of n stands. */
  predicate OnAxis(axis: Axis, n: Path, q: Path)
  {
    match axis
    case SelfAxis => q == n
    case ParentAxis => q < n && |n| == |q| + 1
    case Ancestor => q < n
    case AncestorOrSelf => q <= n
    case Child => n < q && |q| == |n| + 1
    case Descendant => n < q
    case DescendantOrSelf => n <= q
    case FollowingSibling => Siblings(n, q) && Last(n) < Last(q)
    case PrecedingSibling => Siblings(n, q) && Last(q) < Last(n)
    case FollowingAxis => Before(n, q) && !(n <= q)
    case PrecedingAxis => Before(q, n) && !(q <= n)
  }

  lemma {:induction false} ChildrenMembers(t: Tree, p: Path, i: nat, q: Path)
    requires In(t, p) && i <= Arity(t, p)
    ensures q in ChildrenFrom(t, p, i) <==> |q| == |p| + 1 && p < q && i <= q[|p|] < Arity(t, p)
    decreases Arity(t, p) - i
  {
    if i < Arity(t, p) {
      ChildrenMembers(t, p, i + 1, q);
      UnderChild(p, i, q);
      PrefixCases(p + [i], q);
    }
  }

  lemma {:induction false} ChildrenBelowMembers(p: Path, i: nat, q: Path)
    ensures q in ChildrenBelow(p, i) <==> |q| == |p| + 1 && p < q && q[|p|] < i
    decreases i
  {
    if i > 0 {
      ChildrenBelowMembers(p, i - 1, q);
      UnderChild(p, i - 1, q);
      PrefixCases(p + [i - 1], q);
    }
  }

  /** A node one step below p, written as a child. */
  lemma OneBelow(t: Tree, p: Path, q: Path)
    requires In(t, p)
    ensures |q| == |p| + 1 && p < q <==> q != [] && Up(q) == p
    ensures q != [] && Up(q) == p ==> q[|p|] == Last(q) && (In(t, q) <==> Last(q) < Arity(t, p))
  {
    if q != [] {
      assert q == Up(q) + [Last(q)];
      if Up(q) == p { InChild(t, p, Last(q)); }
    }
  }

  lemma {:induction false} SiblingMembers(t: Tree, n: Path, q: Path)
    requires In(t, n)
    ensures q in AxisNodes(t, FollowingSibling, n) <==> In(t, q) && OnAxis(FollowingSibling, n, q)
    ensures q in AxisNodes(t, PrecedingSibling, n) <==> In(t, q) && OnAxis(PrecedingSibling, n, q)
  {
    hide In, Sub, ChildrenFrom, ChildrenBelow;
    if n != [] {
      IsChild(t, n);
      ChildrenMembers(t, Up(n), Last(n) + 1, q);
      ChildrenBelowMembers(Up(n), Last(n), q);
      OneBelow(t, Up(n), q);
    }
  }

  lemma {:induction false} UpwardMembers(t: Tree, n: Path, q: Path)
    requires In(t, n)
    ensures q < n ==> In(t, q)
    ensures q in AxisNodes(t, ParentAxis, n) <==> OnAxis(ParentAxis, n, q)
    ensures q in AxisNodes(t, Ancestor, n) <==> OnAxis(Ancestor, n, q)
    ensures q in AxisNodes(t, AncestorOrSelf, n) <==> OnAxis(AncestorOrSelf, n, q)
  {
    hide In, Ancestors;
    AncestorMembers(n, q);
    PrefixCases(q, n);
    if q < n {
      InPrefix(t, n, |q|);
      assert q == n[..|q|];
    }
  }

  lemma {:induction false} DownwardMembers(t: Tree, n: Path, q: Path)
    requires In(t, n)
    ensures q in AxisNodes(t, Child, n) <==> In(t, q) && OnAxis(Child, n, q)
    ensures q in AxisNodes(t, Descendant, n) <==> In(t, q) && OnAxis(Descendant, n, q)
    ensures q in AxisNodes(t, DescendantOrSelf, n) <==> In(t, q) && OnAxis(DescendantOrSelf, n, q)
  {
    hide In, Sub, Preorder, Forest, ChildrenFrom;
    PreorderMembers(t, n, q);
    ForestMembers(t, n, 0, Arity(t, n), q);
    ChildrenMembers(t, n, 0, q);
    OneBelow(t, n, q);
    if In(t, q) && n < q { BranchExists(t, n, q); }
  }

  /** Every axis of every node of any document holds exactly the nodes that stand so. */
  lemma {:induction false} AxisMembers(t: Tree, axis: Axis, n: Path, q: Path)
    requires In(t, n)
    ensures q in AxisNodes(t, axis, n) <==> In(t, q) && OnAxis(axis, n, q)
  {
    SiblingMembers(t, n, q);
    UpwardMembers(t, n, q);
    DownwardMembers(t, n, q);
    FollowingMembers(t, n, q);
    PrecedingMembers(t, n, q);
    PrefixCases(q, n);
    hide In, Ancestors, Preorder, Forest, ChildrenFrom, ChildrenBelow, Following, Preceding, Descendants, Before, Up, Last;
  }
}
