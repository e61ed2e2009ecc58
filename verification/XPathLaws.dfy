/**
 What XPath expressions mean, by laws that do not follow how they are evaluated: where
 the nodes on an axis stand, which items a predicate keeps, that = is symmetric, and
 what translate does to each character.
 */
module XPathLaws {
  import opened XmlTree
  import opened XmlAxes
  import opened XmlAxisMembers
  import opened XmlWalk
  import opened XPath
  import opened XPathOptimize
  import opened XPathSound
  import opened XPathFetch

  // ----- steps

  /** From a node, a step without predicates selects the nodes of its axis that pass the test. */
  lemma {:induction false} StepSelects(v: Env, axis: Axis, test: Test, p: Path, c: Context, z: Item)
    requires In(v.tree, p) && c.item == NodeItem(p)
    ensures z in Items(Eval(v, StepHere(NodeAxis(axis), test, []), c))
      <==> z.NodeItem? && In(v.tree, z.path) && OnAxis(axis, p, z.path) && v.passes(test, z.path)
  {
    hide AxisNodes, NodesOn, In, OnAxis;
    NodesOnMembers(v, axis, test, p, z);
    if z.NodeItem? { AxisMembers(v.tree, axis, p, z.path); }
  }

  /** Where a node q on an axis of the attribute i of p stands: an attribute comes after its
      element and before the element's children, and has no descendants. */
  predicate OnAttributeAxis(axis: Axis, p: Path, i: nat, q: Path)
  {
    match axis
    case ParentAxis => q == p
    case Ancestor => q <= p
    case AncestorOrSelf => q <= p
    case FollowingAxis => ItemBefore(AttrItem(p, i), NodeItem(q))
    case PrecedingAxis => ItemBefore(NodeItem(q), AttrItem(p, i)) && !(q <= p)
    case _ => false
  }

  /** The axes of an attribute: the nodes that stand so, and the attribute itself for node(). */
  lemma {:induction false} AttributeFill(v: Env, axis: Axis, test: Test, p: Path, i: nat, z: Item)
    requires In(v.tree, p) && i < |v.attrs(p)|
    ensures z in Fill(v, NodeAxis(axis), test, AttrItem(p, i)) <==>
      || (z.NodeItem? && In(v.tree, z.path) && OnAttributeAxis(axis, p, i, z.path) && v.passes(test, z.path))
      || (z == AttrItem(p, i) && axis in {SelfAxis, AncestorOrSelf, DescendantOrSelf}
          && test == AnyNode && v.visible(v.attrs(p)[i].0))
  {
    hide NodesOn, AxisNodes, In, Before;
    NodesOnMembers(v, AncestorOrSelf, test, p, z);
    NodesOnMembers(v, Descendant, test, p, z);
    NodesOnMembers(v, FollowingAxis, test, p, z);
    NodesOnMembers(v, SelfAxis, test, p, z);
    NodesOnMembers(v, PrecedingAxis, test, p, z);
    if z.NodeItem? {
      var q := z.path;
      AxisMembers(v.tree, AncestorOrSelf, p, q);
      AxisMembers(v.tree, Descendant, p, q);
      AxisMembers(v.tree, FollowingAxis, p, q);
      AxisMembers(v.tree, SelfAxis, p, q);
      AxisMembers(v.tree, PrecedingAxis, p, q);
      Placed(p, q);
    }
  }

  lemma {:induction false} Placed(p: Path, q: Path)
    ensures p < q ==> Before(p, q)
    ensures p <= q <==> p < q || p == q
    ensures !Before(p, p)
  {
    PrefixCases(p, q);
    BeforeIrreflexive(p);
    if p < q { PrefixBefore(p, q); }
  }

  /** The attributes that a step selects from a node. */
  lemma {:induction false} AttributesSelected(v: Env, test: Test, p: Path, i: nat, z: Item)
    ensures z in AttrItems(v, test, p, i)
      <==> z.AttrItem? && z.path == p && i <= z.index < |v.attrs(p)| && AttrPasses(v, test, v.attrs(p)[z.index].0)
    decreases |v.attrs(p)| - i
  {
    hide AttrPasses;
    if i < |v.attrs(p)| { AttributesSelected(v, test, p, i + 1, z); }
  }

  // ----- predicates

  /** A value counts as true, by section 4.3 of XPath 1.0. */
  ghost predicate True(x: Value)
  {
    match x
    case Bool(b) => b
    case Num(Fin(r)) => r < 0.0 || r > 0.0
    case Num(n) => !n.NaN?
    case Str(s) => |s| > 0
    case Nodes(items) => exists y :: y in items
  }

  /** The predicate e lets the item at index j of ns pass: a number by its position, anything else by its truth. */
  ghost predicate Lets(v: Env, ns: seq<Item>, e: Expr, j: nat)
    requires j < |ns|
  {
    var x := Eval(v, e, Context(ns[j], j + 1, |ns|));
    if x.Num? then x.n == Fin((j + 1) as real) else True(x)
  }

  /** A predicate keeps exactly the items it lets pass. */
  lemma {:induction false} PredicateKeeps(v: Env, ns: seq<Item>, i: nat, e: Expr, j: nat)
    requires i <= |ns| && j < |ns| && Once(ns) && WellFormed(e)
    ensures ns[j] in Keep(v, ns, i, e) <==> i <= j && Lets(v, ns, e, j)
    decreases |ns| - i
  {
    hide Eval;
    if i < |ns| {
      Typed(v, e, Context(ns[i], i + 1, |ns|));
      TypedBool(v, e, Context(ns[i], i + 1, |ns|));
      PredicateKeeps(v, ns, i + 1, e, j);
    }
  }

  lemma TypedBool(v: Env, e: Expr, c: Context)
    requires WellFormed(e)
    ensures TypeOf(e) == TBool ==> Eval(v, e, c).Bool?
  {
    hide EqualValues, FillAndApply, Apply, TranslateText, ApplyTable, HasAttribute;
  }

  /** [k] keeps the k-th item, however the predicate is classified. */
  lemma {:induction false} NumberPicks(v: Env, ns: seq<Item>, k: nat, kind: PredKind)
    ensures Apply(v, ns, Pred(NumConst(Fin(k as real)), kind)) == if 1 <= k <= |ns| then [ns[k - 1]] else []
  {
    var e := NumConst(Fin(k as real));
    hide Keep;
    if ns != [] { ConstantSound(v, ns, e); }
  }

  /** [last()] keeps the last item. */
  lemma {:induction false} LastPicks(v: Env, ns: seq<Item>, kind: PredKind)
    ensures Apply(v, ns, Pred(Expr.Last, kind)) == if ns == [] then [] else [ns[|ns| - 1]]
  {
    hide Keep;
    if ns != [] { ConstantSound(v, ns, Expr.Last); }
  }

  /** A filter takes the items of its base in document order and keeps what its predicate lets pass. */
  lemma {:induction false} FilterKeeps(v: Env, base: Expr, e: Expr, c: Context, j: nat)
    requires WellFormed(e)
    requires var ns := v.sorted(Items(Eval(v, base, c))); j < |ns| && Once(ns)
    ensures var ns := v.sorted(Items(Eval(v, base, c)));
      ns[j] in Items(Eval(v, Filter(base, Pred(e, Default)), c)) <==> Lets(v, ns, e, j)
  {
    hide Lets, Keep, Once;
    PredicateKeeps(v, v.sorted(Items(Eval(v, base, c))), 0, e, j);
  }

  /** A step counts positions along its axis: outwards from the context node, so the reverse axes count backwards. */
  lemma {:induction false} StepKeeps(v: Env, axis: StepAxis, test: Test, e: Expr, c: Context, j: nat)
    requires WellFormed(e) && !(axis == AttributeAxis && test.NameTest?)
    requires var ns := Fill(v, axis, test, c.item); j < |ns| && Once(ns)
    ensures var ns := Fill(v, axis, test, c.item);
      ns[j] in Items(Eval(v, StepHere(axis, test, [Pred(e, Default)]), c)) <==> Lets(v, ns, e, j)
  {
    hide Lets, Keep, Once, Fill;
    var ns := Fill(v, axis, test, c.item);
    var preds := [Pred(e, Default)];
    assert preds[1..] == [];
    assert ApplyAll(v, ns, preds) == Apply(v, ns, preds[0]);
    PredicateKeeps(v, ns, 0, e, j);
  }

  lemma PathIs(v: Env, base: Expr, axis: Axis, test: Test, c: Context)
    ensures Items(Eval(v, Step(base, NodeAxis(axis), test, []), c))
      == SelectFrom(v, NodeAxis(axis), test, [], Items(Eval(v, base, c)))
  {
    hide SelectFrom;
  }

  /** A path selects what stands on the axis from some node that its base selects. */
  lemma {:induction false} PathSelects(v: Env, base: Expr, axis: Axis, test: Test, c: Context, z: Item)
    requires forall x <- Items(Eval(v, base, c)) :: x.NodeItem? && In(v.tree, x.path)
    ensures z in Items(Eval(v, Step(base, NodeAxis(axis), test, []), c)) <==>
      z.NodeItem? && In(v.tree, z.path) && v.passes(test, z.path)
      && exists p :: NodeItem(p) in Items(Eval(v, base, c)) && OnAxis(axis, p, z.path)
  {
    hide AxisNodes, NodesOn, In, OnAxis, Eval;
    var s := Items(Eval(v, base, c));
    PathIs(v, base, axis, test, c);
    forall x | x in s
      ensures z in FillAndApply(v, NodeAxis(axis), test, [], x)
        <==> z.NodeItem? && In(v.tree, z.path) && OnAxis(axis, x.path, z.path) && v.passes(test, z.path)
    {
      NodesOnMembers(v, axis, test, x.path, z);
      if z.NodeItem? { AxisMembers(v.tree, axis, x.path, z.path); }
    }
    if z.NodeItem? {
      if p :| NodeItem(p) in s && OnAxis(axis, p, z.path) { assert NodeItem(p) in s; }
    }
    if z in SelectFrom(v, NodeAxis(axis), test, [], s) {
      var x :| x in s && z in FillAndApply(v, NodeAxis(axis), test, [], x);
      assert NodeItem(x.path) in s;
    }
  }

  // ----- equality

  /** The number of a value that is not a node set, by section 4.4 of XPath 1.0. */
  ghost predicate NumberIs(v: Env, x: Value, n: Number)
  {
    match x
    case Num(m) => n == m
    case Str(s) => n == v.toNumber(s)
    case Bool(b) => n == Fin(if b then 1.0 else 0.0)
    case Nodes(_) => false
  }

  lemma {:induction false} TrueIs(x: Value)
    ensures ToBool(x) <==> True(x)
  {
    if x.Nodes? && x.items != {} { var y :| y in x.items; }
  }

  /** = by the types of its sides, as section 3.4 of XPath 1.0 has it: with a truth value on one side
      as truth values, otherwise for a node set by some node of it, otherwise with a number on one
      side as numbers, otherwise as strings. */
  lemma {:induction false} EqualMeans(v: Env, a: Value, b: Value)
    ensures a.Bool? ==> (EqualValues(v, a, b) <==> (a.b <==> True(b)))
    ensures a.Nodes? && b.Nodes? ==> (EqualValues(v, a, b)
      <==> exists x, y :: x in a.items && y in b.items && v.stringValue(x) == v.stringValue(y))
    ensures a.Nodes? && b.Str? ==> (EqualValues(v, a, b) <==> exists x :: x in a.items && v.stringValue(x) == b.s)
    ensures a.Nodes? && b.Num? ==> (EqualValues(v, a, b)
      <==> b.n != NaN && exists x :: x in a.items && v.toNumber(v.stringValue(x)) == b.n)
    ensures a.Num? && b.Str? ==> (EqualValues(v, a, b) <==> a.n != NaN && NumberIs(v, b, a.n))
    ensures a.Num? && b.Num? ==> (EqualValues(v, a, b) <==> a.n != NaN && NumberIs(v, b, a.n))
    ensures a.Str? && b.Str? ==> (EqualValues(v, a, b) <==> a.s == b.s)
  {
    TrueIs(b);
  }

  lemma {:induction false} EqualSymmetric(v: Env, a: Value, b: Value)
    ensures EqualValues(v, a, b) <==> EqualValues(v, b, a)
  {
    if a.Nodes? && b.Nodes? {
      if x, y :| x in a.items && y in b.items && v.stringValue(x) == v.stringValue(y) {
        assert v.stringValue(y) == v.stringValue(x);
      }
      if y, x :| y in b.items && x in a.items && v.stringValue(y) == v.stringValue(x) {
        assert v.stringValue(x) == v.stringValue(y);
      }
    }
  }

  // ----- translate

  /** Each character by itself. */
  lemma {:induction false} TranslateConcat(a: string, b: string, from: string, to: string)
    ensures TranslateText(a + b, from, to) == TranslateText(a, from, to) + TranslateText(b, from, to)
    decreases |a|
  {
    if a == [] {
      assert a + b == b;
    } else {
      assert (a + b)[1..] == a[1..] + b;
      TranslateConcat(a[1..], b, from, to);
    }
  }

  /** A character that from does not hold stays; the first place in from decides about any other, by
      the character at the same place in to or, if there is none, by dropping it. */
  lemma {:induction false} TranslateChar(c: char, from: string, to: string, k: nat)
    requires k < |from| ==> from[k] == c && c !in from[..k]
    requires k >= |from| ==> c !in from
    ensures TranslateText([c], from, to) == if k >= |from| then [c] else if k < |to| then [to[k]] else []
  {
    FindIs(from, c, k);
    assert [c][1..] == [];
  }

  lemma {:induction false} FindIs(s: string, c: char, k: nat)
    requires k < |s| ==> s[k] == c && c !in s[..k]
    requires k >= |s| ==> c !in s
    ensures Find(s, c) == if k < |s| then k else |s|
    decreases |s|
  {
    if s != [] && s[0] != c {
      if k < |s| {
        assert k > 0 && s[1..][..k - 1] == s[..k][1..];
        assert forall x | x in s[1..][..k - 1] :: x in s[..k];
      }
      FindIs(s[1..], c, if k < |s| then k - 1 else k);
    }
  }
}
