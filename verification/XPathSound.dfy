/** Optimizing an expression changes neither its value nor the node set it selects. */
module XPathSound {
  import opened XmlTree
  import opened XmlAxes
  import opened XmlAxisMembers
  import opened XmlWalk
  import opened XPath
  import opened XPathOptimize

  // ----- independence of position and size

  /** The value of an expression has the form its type announces. */
  lemma Typed(v: Env, e: Expr, c: Context)
    requires WellFormed(e)
    ensures TypeOf(e) == TNum ==> Eval(v, e, c).Num?
    ensures TypeOf(e) == TStr ==> Eval(v, e, c).Str?
    ensures TypeOf(e) == TNodes ==> Eval(v, e, c).Nodes?
  {
    hide EqualValues, FillAndApply, Apply, TranslateText, ApplyTable, HasAttribute;
  }

  /** A node set never depends on the context position or size, whatever its parts say. */
  lemma {:induction false} NodeSetFixed(v: Env, e: Expr, c: Context, d: Context)
    requires WellFormed(e) && TypeOf(e) == TNodes && c.item == d.item
    ensures Eval(v, e, c) == Eval(v, e, d)
    decreases e
  {
    hide FillAndApply, Apply;
    match e
    case Union(l, r) => NodeSetFixed(v, l, c, d); NodeSetFixed(v, r, c, d);
    case Filter(base, pred) => NodeSetFixed(v, base, c, d);
    case Step(base, _, _, _) => NodeSetFixed(v, base, c, d);
    case _ =>
  }

  /** is_posinv_expr is right: such an expression evaluates independently of position and size. */
  lemma {:induction false} PosInvFixed(v: Env, e: Expr, c: Context, d: Context)
    requires WellFormed(e) && PosInvExpr(e) && c.item == d.item
    ensures Eval(v, e, c) == Eval(v, e, d)
    decreases e, 0
  {
    hide FillAndApply, Apply, EqualValues, TranslateText, ApplyTable, HasAttribute;
    match e
    case Equal(l, r) => PosInvFixed(v, l, c, d); PosInvFixed(v, r, c, d);
    case Op(_, _, args) => PosInvFixedAll(v, args, c, d);
    case Translate(s, from, to) => PosInvFixed(v, s, c, d); PosInvFixed(v, from, c, d); PosInvFixed(v, to, c, d);
    case TranslateTable(s, _) => PosInvFixed(v, s, c, d);
    case CompareAttribute(_, value) => PosInvFixed(v, value, c, d);
    case Union(l, r) => NodeSetFixed(v, e, c, d);
    case Filter(_, _) => NodeSetFixed(v, e, c, d);
    case Step(_, _, _, _) => NodeSetFixed(v, e, c, d);
    case _ =>
  }

  lemma {:induction false} PosInvFixedAll(v: Env, es: seq<Expr>, c: Context, d: Context)
    requires WellFormedAll(es) && PosInvAll(es) && c.item == d.item
    ensures EvalAll(v, es, c) == EvalAll(v, es, d)
    decreases es, 0
  {
    hide Eval;
    if es != [] { PosInvFixed(v, es[0], c, d); PosInvFixedAll(v, es[1..], c, d); }
  }

  // ----- predicates

  /** e and f have the same value in every context. */
  ghost predicate Same(v: Env, e: Expr, f: Expr)
  {
    TypeOf(e) == TypeOf(f) && forall c :: Eval(v, e, c) == Eval(v, f, c)
  }

  lemma {:induction false} KeepSame(v: Env, ns: seq<Item>, i: nat, e: Expr, f: Expr)
    requires i <= |ns| && Same(v, e, f)
    ensures Keep(v, ns, i, e) == Keep(v, ns, i, f)
    decreases |ns| - i
  {
    hide Eval;
    if i < |ns| { KeepSame(v, ns, i + 1, e, f); }
  }

  /** [position() = r] keeps what [r] keeps. */
  lemma {:induction false} KeepPosition(v: Env, ns: seq<Item>, i: nat, r: Expr)
    requires i <= |ns| && WellFormed(r) && TypeOf(r) == TNum
    ensures Keep(v, ns, i, Equal(Position, r)) == Keep(v, ns, i, r)
    decreases |ns| - i
  {
    if i < |ns| {
      var c := Context(ns[i], i + 1, |ns|);
      Typed(v, r, c);
      PositionEquals(v, r, c);
      hide Eval;
      KeepPosition(v, ns, i + 1, r);
    }
  }

  lemma PositionEquals(v: Env, r: Expr, c: Context)
    requires Eval(v, r, c).Num?
    ensures Eval(v, Equal(Position, r), c) == Bool(NumEq(Eval(v, r, c).n, Fin(c.position as real)))
  {
    assert Eval(v, Position, c) == Num(Fin(c.position as real));
  }

  /** When the number is the same throughout, the general predicate picks by index. */
  lemma {:induction false} KeepConstant(v: Env, ns: seq<Item>, i: nat, e: Expr, n: Number)
    requires i <= |ns| && TypeOf(e) == TNum
    requires forall j | i <= j < |ns| :: Eval(v, e, Context(ns[j], j + 1, |ns|)) == Num(n)
    ensures Keep(v, ns, i, e) == if n.Fin? && (i + 1) as real <= n.value then Pick(ns, n) else []
    decreases |ns| - i
  {
    hide Eval, Pick;
    if i < |ns| {
      KeepConstant(v, ns, i + 1, e, n);
      PickAt(ns, i, n);
      assert Eval(v, e, Context(ns[i], i + 1, |ns|)) == Num(n);
    } else {
      PickPast(ns, n);
    }
  }

  lemma PickPast(ns: seq<Item>, n: Number)
    ensures n.Fin? && |ns| as real < n.value ==> Pick(ns, n) == []
  {
  }

  lemma PickAt(ns: seq<Item>, i: nat, n: Number)
    requires i < |ns|
    ensures n == Fin((i + 1) as real) ==> Pick(ns, n) == [ns[i]]
    ensures n.Fin? && (i + 1) as real < n.value < (i + 2) as real ==> Pick(ns, n) == []
  {
    if n == Fin((i + 1) as real) {
      FloorIs(n.value, i + 1);
    } else if n.Fin? && (i + 1) as real < n.value < (i + 2) as real {
      FloorIs(n.value, i + 1);
    }
  }

  lemma FloorIs(x: real, k: int)
    requires k as real <= x < (k + 1) as real
    ensures x.Floor == k
  {
  }

  lemma {:induction false} ConstantSound(v: Env, ns: seq<Item>, e: Expr)
    requires ns != [] && TypeOf(e) == TNum && (e.NumConst? || e.Variable? || e.Last?)
    ensures Keep(v, ns, 0, e) == Pick(ns, ToNum(v, Eval(v, e, Context(NoItem, 1, |ns|))))
  {
    var n := ToNum(v, Eval(v, e, Context(NoItem, 1, |ns|)));
    KeepConstant(v, ns, 0, e, n);
    if !(n.Fin? && 1.0 <= n.value) {
      assert Pick(ns, n) == [];
    }
  }

  /** However a predicate is classified, it keeps the same items of a list. */
  lemma {:induction false} ApplySound(v: Env, ns: seq<Item>, e: Expr, f: Expr)
    requires WellFormed(f) && Same(v, e, f)
    ensures Apply(v, ns, ClassifyPred(f)) == Apply(v, ns, Pred(e, Default))
  {
    hide Eval, Keep, Pick, PosInvExpr;
    if ns != [] {
      KeepSame(v, ns, 0, e, f);
      if f.Equal? && f.left == Position && TypeOf(f.right) == TNum {
        KeepPosition(v, ns, 0, f.right);
      }
      var g := DropPosition(f);
      if TypeOf(g) == TNum && (g.NumConst? || g.Variable? || g.Last?) {
        ConstantSound(v, ns, g);
      }
    }
  }

  // ----- filters

  ghost predicate Holds(v: Env, e: Expr, x: Item)
  {
    ToBool(Eval(v, e, Context(x, 1, 1)))
  }

  /** A position-independent predicate looks at each item by itself. */
  lemma {:induction false} KeepMembers(v: Env, ns: seq<Item>, i: nat, e: Expr, x: Item)
    requires i <= |ns| && WellFormed(e) && TypeOf(e) != TNum && PosInvExpr(e)
    ensures x in Keep(v, ns, i, e) <==> x in ns[i..] && Holds(v, e, x)
    decreases |ns| - i
  {
    hide Eval;
    if i < |ns| {
      PosInvFixed(v, e, Context(ns[i], i + 1, |ns|), Context(ns[i], 1, 1));
      KeepMembers(v, ns, i + 1, e, x);
      assert ns[i..] == [ns[i]] + ns[i + 1..];
    }
  }

  ghost predicate GoodPosInv(p: Pred)
  {
    WellFormed(p.expr) && (p.kind == PosInv ==> TypeOf(p.expr) != TNum && PosInvExpr(p.expr))
  }

  lemma {:induction false} ApplyMembers(v: Env, ns: seq<Item>, p: Pred, x: Item)
    requires GoodPosInv(p) && p.kind == PosInv
    ensures x in Apply(v, ns, p) <==> x in ns && Holds(v, p.expr, x)
  {
    hide Eval, Keep;
    if ns != [] {
      KeepMembers(v, ns, 0, p.expr, x);
      assert ns[0..] == ns;
    }
  }

  /** Leaving out the sort before a position-independent filter does not change the set. */
  lemma {:induction false} FilterOrder(v: Env, s: set<Item>, p: Pred)
    requires ValidEnv(v) && GoodPosInv(p) && p.kind == PosInv
    ensures SetOf(Apply(v, v.listed(s), p)) == SetOf(Apply(v, v.sorted(s), p))
  {
    hide Apply;
    forall x ensures x in Apply(v, v.listed(s), p) <==> x in Apply(v, v.sorted(s), p) {
      ApplyMembers(v, v.listed(s), p, x);
      ApplyMembers(v, v.sorted(s), p, x);
    }
  }

  lemma ClassifyGood(f: Expr)
    requires WellFormed(f)
    ensures GoodPosInv(ClassifyPred(f))
  {
    hide PosInvExpr;
  }

  // ----- steps

  ghost predicate AllGood(ps: seq<Pred>)
  {
    forall i | 0 <= i < |ps| :: GoodPosInv(ps[i])
  }

  ghost predicate HoldAll(v: Env, ps: seq<Pred>, x: Item)
  {
    forall i | 0 <= i < |ps| :: Holds(v, ps[i].expr, x)
  }

  /** Position-independent predicates together look at each item by itself. */
  lemma {:induction false} ApplyAllMembers(v: Env, ns: seq<Item>, ps: seq<Pred>, x: Item)
    requires AllGood(ps) && PosInvPreds(ps)
    ensures x in ApplyAll(v, ns, ps) <==> x in ns && HoldAll(v, ps, x)
    decreases |ps|
  {
    hide Apply, Holds, GoodPosInv;
    if ps != [] {
      ApplyMembers(v, ns, ps[0], x);
      ApplyAllMembers(v, Apply(v, ns, ps[0]), ps[1..], x);
      assert HoldAll(v, ps, x) <==> Holds(v, ps[0].expr, x) && HoldAll(v, ps[1..], x) by {
        if HoldAll(v, ps, x) { assert forall i | 0 <= i < |ps[1..]| :: ps[1..][i] == ps[i + 1]; }
        if Holds(v, ps[0].expr, x) && HoldAll(v, ps[1..], x) {
          forall i | 0 <= i < |ps| ensures Holds(v, ps[i].expr, x) {
            if i > 0 { assert ps[i] == ps[1..][i - 1]; }
          }
        }
      }
    }
  }

  lemma {:induction false} StepMembers(v: Env, axis: Axis, test: Test, ps: seq<Pred>, x: Item, z: Item)
    requires AllGood(ps) && PosInvPreds(ps)
    ensures z in FillAndApply(v, NodeAxis(axis), test, ps, x)
      <==> z in Fill(v, NodeAxis(axis), test, x) && HoldAll(v, ps, z)
  {
    hide Fill, ApplyAll, HoldAll;
    ApplyAllMembers(v, Fill(v, NodeAxis(axis), test, x), ps, z);
  }

  lemma {:induction false} NodeItemsMembers(ps: seq<Path>, z: Item)
    ensures z in NodeItems(ps) <==> z.NodeItem? && z.path in ps
    decreases |ps|
  {
    if ps != [] {
      NodeItemsMembers(ps[1..], z);
      assert ps == [ps[0]] + ps[1..];
    }
  }

  lemma {:induction false} PassingMembers(s: seq<Path>, test: Path -> bool, p: Path)
    ensures p in Passing(s, test) <==> p in s && test(p)
    decreases |s|
  {
    if s != [] {
      PassingMembers(s[1..], test, p);
      assert s == [s[0]] + s[1..];
    }
  }

  lemma {:induction false} NodesOnMembers(v: Env, axis: Axis, test: Test, p: Path, z: Item)
    ensures z in NodesOn(v, axis, test, p)
      <==> In(v.tree, p) && z.NodeItem? && z.path in AxisNodes(v.tree, axis, p) && v.passes(test, z.path)
  {
    hide AxisNodes;
    if In(v.tree, p) {
      var f := q => v.passes(test, q);
      NodeItemsMembers(Passing(AxisNodes(v.tree, axis, p), f), z);
      if z.NodeItem? { PassingMembers(AxisNodes(v.tree, axis, p), f, z.path); }
    }
  }

  /** A node below p is on the axis of some node at or below p exactly if it is on the merged axis of p. */
  lemma {:induction false} MergedAxisNodes(t: Tree, axis: Axis, p: Path, q: Path)
    requires In(t, p) && Merges(NodeAxis(axis))
    ensures (exists m :: In(t, m) && p <= m && q in AxisNodes(t, axis, m))
      <==> q in AxisNodes(t, MergedAxis(NodeAxis(axis)).axis, p)
  {
    hide AxisNodes;
    AxisMembers(t, MergedAxis(NodeAxis(axis)).axis, p, q);
    if m :| In(t, m) && p <= m && q in AxisNodes(t, axis, m) {
      AxisMembers(t, axis, m, q);
      PrefixTransitive(p, m, q);
    }
    if q in AxisNodes(t, MergedAxis(NodeAxis(axis)).axis, p) {
      var m := if axis == Child then Up(q) else if axis == Descendant then p else q;
      if axis == Child { IsChild(t, q); PrefixCases(p, m); assert m == q[..|q| - 1]; }
      AxisMembers(t, axis, m, q);
    }
  }

  lemma PrefixTransitive(a: Path, b: Path, c: Path)
    requires a <= b
    ensures b <= c ==> a <= c
    ensures b < c ==> a < c
  {
    if b <= c { assert c[..|a|] == c[..|b|][..|a|] == b[..|a|] == a; }
  }

  /** x is selected from y by descendant-or-self::node(). */
  ghost predicate SelectedAnywhere(v: Env, x: Item, y: Item)
  {
    x in FillAndApply(v, NodeAxis(DescendantOrSelf), AnyNode, [], y)
  }

  lemma {:induction false} SelectedIs(v: Env, x: Item, y: Item)
    requires ValidEnv(v)
    ensures SelectedAnywhere(v, x, y) <==>
      match y
      case NoItem => false
      case NodeItem(p) => In(v.tree, p) && x.NodeItem? && In(v.tree, x.path) && p <= x.path
      case AttrItem(p, i) => x == y && i < |v.attrs(p)| && AttrPasses(v, AnyNode, v.attrs(p)[i].0)
  {
    hide AxisNodes, NodesOn;
    StepMembers(v, DescendantOrSelf, AnyNode, [], y, x);
    if y.NodeItem? {
      NodesOnMembers(v, DescendantOrSelf, AnyNode, y.path, x);
      if In(v.tree, y.path) && x.NodeItem? {
        AxisMembers(v.tree, DescendantOrSelf, y.path, x.path);
      }
    }
  }

  /** From one context item, the merged step selects what the two steps select. */
  lemma {:induction false} MergeFrom(v: Env, axis: Axis, test: Test, ps: seq<Pred>, y: Item, z: Item)
    requires ValidEnv(v) && AllGood(ps) && PosInvPreds(ps) && Merges(NodeAxis(axis))
    ensures (exists x :: SelectedAnywhere(v, x, y) && z in FillAndApply(v, NodeAxis(axis), test, ps, x))
      <==> z in FillAndApply(v, MergedAxis(NodeAxis(axis)), test, ps, y)
  {
    hide FillAndApply, SelectedAnywhere, HoldAll, AllGood;
    var merged := MergedAxis(NodeAxis(axis)).axis;
    StepMembers(v, merged, test, ps, y, z);
    if x :| SelectedAnywhere(v, x, y) && z in FillAndApply(v, NodeAxis(axis), test, ps, x) {
      StepMembers(v, axis, test, ps, x, z);
      SelectedIs(v, x, y);
      FillMergesDown(v, axis, test, x, y, z);
    }
    if z in FillAndApply(v, MergedAxis(NodeAxis(axis)), test, ps, y) {
      var x := FillMergesUp(v, axis, test, y, z);
      StepMembers(v, axis, test, ps, x, z);
    }
  }

  lemma {:induction false} FillMergesDown(v: Env, axis: Axis, test: Test, x: Item, y: Item, z: Item)
    requires ValidEnv(v) && Merges(NodeAxis(axis)) && SelectedAnywhere(v, x, y)
    requires z in Fill(v, NodeAxis(axis), test, x)
    ensures z in Fill(v, MergedAxis(NodeAxis(axis)), test, y)
  {
    hide SelectedAnywhere, AxisNodes, NodesOn;
    SelectedIs(v, x, y);
    if y.NodeItem? {
      var p, merged := y.path, MergedAxis(NodeAxis(axis)).axis;
      NodesOnMembers(v, axis, test, x.path, z);
      NodesOnMembers(v, merged, test, p, z);
      MergedAxisNodes(v.tree, axis, p, z.path);
    }
  }

  lemma {:induction false} FillMergesUp(v: Env, axis: Axis, test: Test, y: Item, z: Item) returns (x: Item)
    requires ValidEnv(v) && Merges(NodeAxis(axis)) && z in Fill(v, MergedAxis(NodeAxis(axis)), test, y)
    ensures SelectedAnywhere(v, x, y) && z in Fill(v, NodeAxis(axis), test, x)
  {
    hide SelectedAnywhere, AxisNodes, NodesOn;
    if y.NodeItem? {
      var p, merged := y.path, MergedAxis(NodeAxis(axis)).axis;
      NodesOnMembers(v, merged, test, p, z);
      MergedAxisNodes(v.tree, axis, p, z.path);
      var m :| In(v.tree, m) && p <= m && z.path in AxisNodes(v.tree, axis, m);
      x := NodeItem(m);
      NodesOnMembers(v, axis, test, m, z);
      SelectedIs(v, x, y);
    } else {
      x := y;
      SelectedIs(v, x, y);
    }
  }

  /** The merged step selects the same set, whatever its base selects. */
  lemma {:induction false} MergeSound(v: Env, base: Expr, axis: StepAxis, test: Test, ps: seq<Pred>, c: Context)
    requires ValidEnv(v) && WellFormed(base) && TypeOf(base) == TNodes && AllGood(ps)
    ensures Eval(v, MergeStep(base, axis, test, ps), c) == Eval(v, Step(base, axis, test, ps), c)
  {
    hide FillAndApply, AllGood, Merges;
    if Merges(axis) && Anywhere(base) && PosInvPreds(ps) {
      MergesNode(axis);
      if base.Step? {
        var s := Items(Eval(v, base.base, c));
        MergeSets(v, axis.axis, test, ps, s);
      } else {
        MergeHere(v, axis.axis, test, ps, c.item);
      }
    }
  }

  lemma MergesNode(axis: StepAxis)
    requires Merges(axis)
    ensures axis.NodeAxis?
  {
  }

  /** z is selected from some item of s. */
  ghost predicate Selects(v: Env, axis: StepAxis, test: Test, ps: seq<Pred>, s: set<Item>, z: Item)
  {
    exists x :: x in s && z in FillAndApply(v, axis, test, ps, x)
  }

  lemma {:induction false} SelectMembers(v: Env, axis: StepAxis, test: Test, ps: seq<Pred>, s: set<Item>, z: Item)
    ensures z in SelectFrom(v, axis, test, ps, s) <==> Selects(v, axis, test, ps, s, z)
  {
    hide FillAndApply;
  }

  /** Both steps from the items of s, against the merged step from them. */
  lemma {:induction false} MergeSets(v: Env, axis: Axis, test: Test, ps: seq<Pred>, s: set<Item>)
    requires ValidEnv(v) && AllGood(ps) && PosInvPreds(ps) && Merges(NodeAxis(axis))
    ensures SelectFrom(v, NodeAxis(axis), test, ps, SelectFrom(v, NodeAxis(DescendantOrSelf), AnyNode, [], s))
      == SelectFrom(v, MergedAxis(NodeAxis(axis)), test, ps, s)
  {
    hide FillAndApply, SelectFrom, AllGood, Merges, MergedAxis;
    var t := SelectFrom(v, NodeAxis(DescendantOrSelf), AnyNode, [], s);
    forall z ensures z in SelectFrom(v, NodeAxis(axis), test, ps, t)
      <==> z in SelectFrom(v, MergedAxis(NodeAxis(axis)), test, ps, s) {
      SelectMembers(v, NodeAxis(axis), test, ps, t, z);
      SelectMembers(v, MergedAxis(NodeAxis(axis)), test, ps, s, z);
      if x :| x in t && z in FillAndApply(v, NodeAxis(axis), test, ps, x) {
        SelectMembers(v, NodeAxis(DescendantOrSelf), AnyNode, [], s, x);
        var y :| y in s && SelectedAnywhere(v, x, y);
        MergeFrom(v, axis, test, ps, y, z);
      }
      if y :| y in s && z in FillAndApply(v, MergedAxis(NodeAxis(axis)), test, ps, y) {
        MergeFrom(v, axis, test, ps, y, z);
        var x :| SelectedAnywhere(v, x, y) && z in FillAndApply(v, NodeAxis(axis), test, ps, x);
        SelectMembers(v, NodeAxis(DescendantOrSelf), AnyNode, [], s, x);
      }
    }
  }

  /** The same from the context item. */
  lemma {:induction false} MergeHere(v: Env, axis: Axis, test: Test, ps: seq<Pred>, y: Item)
    requires ValidEnv(v) && AllGood(ps) && PosInvPreds(ps) && Merges(NodeAxis(axis))
    ensures SelectFrom(v, NodeAxis(axis), test, ps, SetOf(FillAndApply(v, NodeAxis(DescendantOrSelf), AnyNode, [], y)))
      == SetOf(FillAndApply(v, MergedAxis(NodeAxis(axis)), test, ps, y))
  {
    hide FillAndApply, SelectFrom, AllGood, Merges, MergedAxis;
    var t := SetOf(FillAndApply(v, NodeAxis(DescendantOrSelf), AnyNode, [], y));
    forall z ensures z in SelectFrom(v, NodeAxis(axis), test, ps, t)
      <==> z in FillAndApply(v, MergedAxis(NodeAxis(axis)), test, ps, y) {
      SelectMembers(v, NodeAxis(axis), test, ps, t, z);
      MergeFrom(v, axis, test, ps, y, z);
      if x :| x in t && z in FillAndApply(v, NodeAxis(axis), test, ps, x) {
        assert SelectedAnywhere(v, x, y);
      }
      if x :| SelectedAnywhere(v, x, y) && z in FillAndApply(v, NodeAxis(axis), test, ps, x) {
        assert x in t;
      }
    }
  }

  /** Stopping at the first item before [1] gives what [1] gives. */
  lemma {:induction false} OnceSound(v: Env, all: seq<Item>, p: Pred)
    requires p == Pred(NumConst(Fin(1.0)), ConstantOne)
    ensures ApplyAll(v, FirstOf(all), [p]) == ApplyAll(v, all, [p])
  {
    assert [p][1..] == [];
    if all != [] {
      assert Eval(v, p.expr, Context(NoItem, 1, |all|)) == Num(Fin(1.0));
      assert Eval(v, p.expr, Context(NoItem, 1, 1)) == Num(Fin(1.0));
      PickAt(all, 0, Fin(1.0));
      PickAt([all[0]], 0, Fin(1.0));
      assert Apply(v, all, p) == [all[0]] && Apply(v, [all[0]], p) == [all[0]];
    }
  }

  lemma {:induction false} FillSound(v: Env, axis: StepAxis, test: Test, ps: seq<Pred>, x: Item)
    requires FreshPreds(ps)
    requires forall ns :: ApplyAll(v, ns, OptimizePreds(ps)) == ApplyAll(v, ns, ps)
    ensures FillAndApply(v, axis, test, OptimizePreds(ps), x) == FillAndApply(v, axis, test, ps, x)
  {
    hide Fill, Apply, ApplyAll, Eval;
    var qs := OptimizePreds(ps);
    var all := Fill(v, axis, test, x);
    assert FillsOnce(axis, test, ps) ==> axis == AttributeAxis && test.NameTest?;
    if |qs| == 1 && qs[0].kind == ConstantOne {
      ConstantOneIs(ps);
      OnceSound(v, all, qs[0]);
      assert qs == [qs[0]];
    }
  }

  lemma ConstantOneIs(ps: seq<Pred>)
    requires |ps| == 1 && OptimizePreds(ps)[0].kind == ConstantOne
    ensures OptimizePreds(ps)[0] == Pred(NumConst(Fin(1.0)), ConstantOne)
  {
    hide Optimize, PosInvExpr;
  }

  // ----- @name = value

  lemma {:induction false} AttrItemsFirst(v: Env, p: Path, name: string, i: nat)
    requires i <= |v.attrs(p)|
    ensures var all := AttrItems(v, NameTest(name), p, i); var r := FindAttr(v, p, name, i);
      if r < |v.attrs(p)| && v.visible(name) then all != [] && all[0] == AttrItem(p, r) else all == []
    decreases |v.attrs(p)| - i
  {
    if i < |v.attrs(p)| { AttrItemsFirst(v, p, name, i + 1); }
  }

  lemma {:induction false} CompareSound(v: Env, name: string, x: Item, s: string)
    requires ValidEnv(v)
    ensures EqualValues(v, Nodes(SetOf(FillAndApply(v, AttributeAxis, NameTest(name), [], x))), Str(s))
      <==> x.NodeItem? && HasAttribute(v, x.path, name, s)
  {
    var all := Fill(v, AttributeAxis, NameTest(name), x);
    assert FillAndApply(v, AttributeAxis, NameTest(name), [], x) == FirstOf(all);
    if x.NodeItem? {
      AttrItemsFirst(v, x.path, name, 0);
      var r := FindAttr(v, x.path, name, 0);
      if r < |v.attrs(x.path)| && v.visible(name) {
        assert SetOf(FirstOf(all)) == {AttrItem(x.path, r)};
        assert v.stringValue(AttrItem(x.path, r)) == v.attrs(x.path)[r].1;
      } else {
        assert SetOf(FirstOf(all)) == {};
      }
    } else {
      assert SetOf(FirstOf(all)) == {};
    }
  }

  // ----- translate

  ghost predicate NulFree(s: string)
  {
    forall i | 0 <= i < |s| :: s[i] as int != 0
  }

  /** The code translate assigns to c, 0 when it leaves c alone and 128 when it drops c. */
  function CodeOf(from: string, to: string, c: char): nat
  {
    var i := Find(from, c);
    if i == |from| then 0 else if i < |to| then to[i] as int else 128
  }

  lemma {:induction false} FillTableAt(codes: seq<nat>, from: string, to: string, c: nat)
    requires |codes| == 128 && (forall i | 0 <= i < 128 :: codes[i] <= 128) && c < 128
    requires Ascii(from) && Ascii(to) && NulFree(from) && NulFree(to)
    ensures FillTable(codes, from, to)[c] == if codes[c] != 0 then codes[c] else CodeOf(from, to, c as char)
    decreases |from|
  {
    if from != [] {
      var code := if to == [] || to[0] as int == 0 then 128 else to[0] as int;
      var fc := from[0] as int;
      var codes' := if codes[fc] == 0 then codes[fc := code] else codes;
      var to' := if to == [] then to else to[1..];
      FillTableAt(codes', from[1..], to', c);
    }
  }

  /** translate_table with a generated table is translate. */
  lemma {:induction false} TableSound(s: string, from: string, to: string)
    requires GenerateTable(from, to).Table? && NulFree(from) && NulFree(to)
    ensures ApplyTable(s, GenerateTable(from, to).codes) == TranslateText(s, from, to)
    decreases |s|
  {
    if s != [] {
      TableSound(s[1..], from, to);
      CharSound(from, to, s[0]);
    }
  }

  lemma {:induction false} CharSound(from: string, to: string, c: char)
    requires GenerateTable(from, to).Table? && NulFree(from) && NulFree(to)
    ensures var table := GenerateTable(from, to).codes; var i := Find(from, c);
      (if c as int >= 128 then [c] else if table[c as int] as int == 128 then [] else [table[c as int]])
      == (if i == |from| then [c] else if i < |to| then [to[i]] else [])
  {
    hide FillTable;
    var used := if |to| <= |from| then to else to[..|from|];
    FindIn(from, c);
    if c as int < 128 {
      FillTableAt(seq(128, _ => 0), from, used, c as int);
    }
  }

  lemma {:induction false} FindIn(s: string, c: char)
    ensures Find(s, c) < |s| ==> s[Find(s, c)] == c
    decreases |s|
  {
    if s != [] { FindIn(s[1..], c); }
  }

  // ----- every rewrite together

  /** The optimizer never makes a string constant out of anything else. */
  lemma {:induction false} KeepsConstant(e: Expr)
    requires Optimize(e).StrConst?
    ensures Optimize(e) == e
  {
    hide GenerateTable, Merges, Anywhere, PosInvPreds;
  }

  lemma {:induction false} TranslateSound(v: Env, s: Expr, from: Expr, to: Expr, c: Context)
    requires Fresh(from) && Fresh(to)
    requires Eval(v, Optimize(s), c) == Eval(v, s, c)
    requires Eval(v, Optimize(from), c) == Eval(v, from, c) && Eval(v, Optimize(to), c) == Eval(v, to, c)
    ensures Eval(v, Optimize(Translate(s, from, to)), c) == Eval(v, Translate(s, from, to), c)
  {
    hide TranslateText, ApplyTable, GenerateTable, EqualValues, HasAttribute, FillAndApply, Apply, Merges, Anywhere;
    if Optimize(from).StrConst? && Optimize(to).StrConst? {
      KeepsConstant(from);
      KeepsConstant(to);
      if GenerateTable(from.s, to.s).Table? {
        TableLength(from.s, to.s);
        TableSound(ToString(v, Eval(v, s, c)), from.s, to.s);
      }
    }
  }

  lemma TableLength(from: string, to: string)
    requires GenerateTable(from, to).Table?
    ensures |GenerateTable(from, to).codes| == 128
  {
  }

  /** @name against a string. */
  lemma {:induction false} AttributeSound(v: Env, f: Expr, g: Expr, c: Context)
    requires ValidEnv(v)
    requires f.StepHere? && f.axis == AttributeAxis && f.test.NameTest? && f.preds == []
    requires g.StrConst? || (g.Variable? && g.vtype == TStr)
    ensures Eval(v, CompareAttribute(f.test.name, g), c) == Bool(EqualValues(v, Eval(v, f, c), Eval(v, g, c)))
  {
    hide EqualValues, HasAttribute, FillAndApply;
    var s := ToString(v, Eval(v, g, c));
    assert Eval(v, g, c) == Str(s);
    CompareSound(v, f.test.name, c.item, s);
    assert f.test == NameTest(f.test.name);
    assert Eval(v, f, c) == Nodes(SetOf(FillAndApply(v, AttributeAxis, f.test, [], c.item)));
  }

  lemma {:induction false} EqualSound(v: Env, l: Expr, r: Expr, c: Context)
    requires ValidEnv(v)
    requires Eval(v, Optimize(l), c) == Eval(v, l, c) && Eval(v, Optimize(r), c) == Eval(v, r, c)
    ensures Eval(v, Optimize(Equal(l, r)), c) == Eval(v, Equal(l, r), c)
  {
    var f, g := Optimize(l), Optimize(r);
    EvalEqual(v, l, r, c);
    EvalEqual(v, f, g, c);
    OptimizeEqual(l, r);
    hide *;
    if Optimize(Equal(l, r)) != Equal(f, g) {
      AttributeSound(v, f, g, c);
    }
  }

  lemma EvalEqual(v: Env, l: Expr, r: Expr, c: Context)
    ensures Eval(v, Equal(l, r), c) == Bool(EqualValues(v, Eval(v, l, c), Eval(v, r, c)))
  {
    hide EqualValues;
  }

  lemma OptimizeEqual(l: Expr, r: Expr)
    ensures var f, g := Optimize(l), Optimize(r); var e := Optimize(Equal(l, r));
      || e == Equal(f, g)
      || (&& f.StepHere? && f.axis == AttributeAxis && f.test.NameTest? && f.preds == []
          && (g.StrConst? || (g.Variable? && g.vtype == TStr)) && e == CompareAttribute(f.test.name, g))
  {
  }

  /** Predicates keep the same items of every list. */
  ghost predicate SameSelection(v: Env, ps: seq<Pred>, qs: seq<Pred>)
  {
    forall ns :: ApplyAll(v, ns, ps) == ApplyAll(v, ns, qs)
  }

  /** Optimizing an expression never changes its value, in any document and context. */
  lemma {:induction false} Sound(v: Env, e: Expr, c: Context)
    requires ValidEnv(v) && WellFormed(e) && Fresh(e)
    ensures Eval(v, Optimize(e), c) == Eval(v, e, c)
    decreases e, 1
  {
    hide EqualValues, HasAttribute, FillAndApply, Apply, Merges, Anywhere, ApplyTable, TranslateText, GenerateTable,
      SelectFrom, PosInvExpr, Classify, ClassifyPred;
    match e
    case Equal(l, r) => Sound(v, l, c); Sound(v, r, c); EqualSound(v, l, r, c);
    case Op(_, _, args) => SoundAll(v, args, c);
    case Translate(s, from, to) => Sound(v, s, c); Sound(v, from, c); Sound(v, to, c); TranslateSound(v, s, from, to, c);
    case Union(l, r) => Sound(v, l, c); Sound(v, r, c);
    case Filter(base, pred) => Sound(v, base, c); FilterSound(v, base, pred, c);
    case StepHere(axis, test, preds) => PredsSound(v, preds); FillSound(v, axis, test, preds, c.item);
    case Step(base, axis, test, preds) => Sound(v, base, c); PredsSound(v, preds); StepSound(v, base, axis, test, preds, c);
    case _ =>
  }

  lemma {:induction false} SoundAll(v: Env, es: seq<Expr>, c: Context)
    requires ValidEnv(v) && WellFormedAll(es) && FreshAll(es)
    ensures EvalAll(v, OptimizeAll(es), c) == EvalAll(v, es, c)
    decreases es, 0
  {
    hide Eval, Optimize, WellFormed, Fresh;
    if es != [] { Sound(v, es[0], c); SoundAll(v, es[1..], c); }
  }

  /** An optimized predicate keeps the same items of every list. */
  lemma {:induction false} PredSound(v: Env, p: Pred, ns: seq<Item>)
    requires ValidEnv(v) && WellFormedPred(p) && FreshPred(p)
    ensures Apply(v, ns, OptimizePred(p)) == Apply(v, ns, p)
    decreases p, 0
  {
    hide Eval, Optimize, WellFormed, Fresh, Apply, ClassifyPred;
    OptimizeShape(p.expr);
    forall c ensures Eval(v, p.expr, c) == Eval(v, Optimize(p.expr), c) { Sound(v, p.expr, c); }
    ApplySound(v, ns, p.expr, Optimize(p.expr));
    assert p == Pred(p.expr, Default);
  }

  lemma {:induction false} PredsSound(v: Env, ps: seq<Pred>)
    requires ValidEnv(v) && WellFormedPreds(ps) && FreshPreds(ps)
    ensures SameSelection(v, OptimizePreds(ps), ps) && AllGood(OptimizePreds(ps))
    decreases ps, 0
  {
    hide Eval, Optimize, OptimizePred, WellFormed, Fresh, Apply, GoodPosInv;
    if ps != [] {
      var qs := OptimizePreds(ps);
      assert qs[0] == OptimizePred(ps[0]) && qs[1..] == OptimizePreds(ps[1..]);
      PredsSound(v, ps[1..]);
      PredGood(ps[0]);
      forall i | 0 <= i < |qs| ensures GoodPosInv(qs[i]) {
        if i > 0 { assert qs[i] == qs[1..][i - 1]; }
      }
      forall ns ensures ApplyAll(v, ns, qs) == ApplyAll(v, ns, ps) {
        PredSound(v, ps[0], ns);
      }
    }
  }

  lemma {:induction false} PredGood(p: Pred)
    requires WellFormedPred(p)
    ensures GoodPosInv(OptimizePred(p))
  {
    hide Optimize, WellFormed, ClassifyPred, GoodPosInv;
    OptimizeShape(p.expr);
    ClassifyGood(Optimize(p.expr));
  }

  lemma {:induction false} FilterSound(v: Env, base: Expr, pred: Pred, c: Context)
    requires ValidEnv(v) && WellFormedPred(pred) && FreshPred(pred)
    requires Eval(v, Optimize(base), c) == Eval(v, base, c)
    ensures Eval(v, Optimize(Filter(base, pred)), c) == Eval(v, Filter(base, pred), c)
    decreases pred, 1
  {
    hide Apply, OptimizePred, WellFormed, Fresh, GoodPosInv;
    var s := Items(Eval(v, base, c));
    var q := OptimizePred(pred);
    PredGood(pred);
    PredSound(v, pred, v.sorted(s));
    if q.kind == PosInv { FilterOrder(v, s, q); }
    assert Optimize(Filter(base, pred)) == Filter(Optimize(base), q);
    hide Optimize;
  }

  lemma {:induction false} StepSound(v: Env, base: Expr, axis: StepAxis, test: Test, ps: seq<Pred>, c: Context)
    requires ValidEnv(v) && WellFormed(base) && TypeOf(base) == TNodes && FreshPreds(ps)
    requires Eval(v, Optimize(base), c) == Eval(v, base, c)
    requires SameSelection(v, OptimizePreds(ps), ps) && AllGood(OptimizePreds(ps))
    ensures Eval(v, Optimize(Step(base, axis, test, ps)), c) == Eval(v, Step(base, axis, test, ps), c)
  {
    hide FillAndApply, MergeStep, WellFormed, Fresh, FreshPreds, AllGood, OptimizePreds;
    var qs, b := OptimizePreds(ps), Optimize(base);
    OptimizeShape(base);
    assert Optimize(Step(base, axis, test, ps)) == MergeStep(b, axis, test, qs);
    hide Optimize;
    MergeSound(v, b, axis, test, qs, c);
    var s := Items(Eval(v, base, c));
    forall x ensures FillAndApply(v, axis, test, qs, x) == FillAndApply(v, axis, test, ps, x) {
      FillSound(v, axis, test, ps, x);
    }
    assert SelectFrom(v, axis, test, qs, s) == SelectFrom(v, axis, test, ps, s);
  }
}
