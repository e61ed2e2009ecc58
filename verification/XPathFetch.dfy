/**
 eval_node_set as it runs: node sets are lists with a tag for the order they are in, a
 caller may ask for any node or the first one only, and steps and predicates stop as
 soon as that is found.  Whatever is asked for, the list serves for the set that the
 expression stands for, and its tag tells the truth.
 */
module XPathFetch {
  import opened XmlTree
  import opened XmlAxes
  import opened XmlAxisMembers
  import opened XmlWalk
  import opened XPath
  import opened XPathOptimize
  import opened XPathSound

  /** nodeset_eval_all, nodeset_eval_any, nodeset_eval_first */
  datatype Mode = Whole | AnyOne | FirstOne

  datatype Order = Sorted | Reverse | Unsorted

  datatype Fetched = Fetched(items: seq<Item>, order: Order)

  // ----- document order on nodes and attributes

  function Owner(x: Item): Path
  {
    match x
    case NoItem => []
    case NodeItem(p) => p
    case AttrItem(p, _) => p
  }

  /** An element comes before its attributes, and these in their own order. */
  function Rank(x: Item): int
  {
    match x
    case NoItem => -1
    case NodeItem(_) => 0
    case AttrItem(_, i) => i + 1
  }

  predicate ItemBefore(x: Item, y: Item)
  {
    Before(Owner(x), Owner(y)) || (Owner(x) == Owner(y) && Rank(x) < Rank(y))
  }

  predicate AtOrBefore(x: Item, y: Item) { x == y || ItemBefore(x, y) }

  lemma {:induction false} ItemOrder(x: Item, y: Item)
    ensures x == y || ItemBefore(x, y) || ItemBefore(y, x)
    ensures !(ItemBefore(x, y) && AtOrBefore(y, x))
  {
    BeforeTotal(Owner(x), Owner(y));
    BeforeIrreflexive(Owner(x));
    if Before(Owner(x), Owner(y)) && Before(Owner(y), Owner(x)) { BeforeTransitive(Owner(x), Owner(y), Owner(x)); }
  }

  ghost predicate Asc(s: seq<Item>)
  {
    forall i, j | 0 <= i < j < |s| :: ItemBefore(s[i], s[j])
  }

  ghost predicate Desc(s: seq<Item>)
  {
    forall i, j | 0 <= i < j < |s| :: ItemBefore(s[j], s[i])
  }

  ghost predicate Once(s: seq<Item>)
  {
    forall i, j | 0 <= i < j < |s| :: s[i] != s[j]
  }

  lemma {:induction false} OrderedOnce(s: seq<Item>)
    requires Asc(s) || Desc(s)
    ensures Once(s)
  {
    hide ItemBefore;
    forall i, j | 0 <= i < j < |s| ensures s[i] != s[j] {
      ItemOrder(s[i], s[j]);
      ItemOrder(s[j], s[i]);
    }
  }

  /** The tag is right, and nothing is listed twice. */
  ghost predicate Truthful(f: Fetched)
  {
    (f.order == Sorted ==> Asc(f.items)) && (f.order == Reverse ==> Desc(f.items)) && Once(f.items)
  }

  /** What the order and the absence of duplicates of b say about a, a part of b. */
  ghost predicate Part(a: seq<Item>, b: seq<Item>)
  {
    && (Asc(b) ==> Asc(a)) && (Desc(b) ==> Desc(a)) && (Once(b) ==> Once(a)) && |a| <= |b|
    && forall x | x in a :: x in b
  }

  lemma PartThen(a: seq<Item>, b: seq<Item>, c: seq<Item>)
    requires Part(a, b) && Part(b, c)
    ensures Part(a, c)
  {
    hide Asc, Desc, Once;
  }

  lemma PartCons(x: Item, a: seq<Item>, b: seq<Item>)
    requires Part(a, b)
    ensures Part([x] + a, [x] + b) && Part(a, [x] + b)
  {
    hide Asc, Desc, Once;
    TailOrder(x, b);
    ConsOrder(x, a, b);
  }

  lemma TailOrder(x: Item, b: seq<Item>)
    ensures (Asc([x] + b) ==> Asc(b)) && (Desc([x] + b) ==> Desc(b)) && (Once([x] + b) ==> Once(b))
  {
    hide ItemBefore;
    var c := [x] + b;
    assert forall i | 0 <= i < |b| :: b[i] == c[i + 1];
  }

  lemma ConsOrder(x: Item, a: seq<Item>, b: seq<Item>)
    requires forall y | y in a :: y in b
    ensures Asc([x] + b) && Asc(a) ==> Asc([x] + a)
    ensures Desc([x] + b) && Desc(a) ==> Desc([x] + a)
    ensures Once([x] + b) && Once(a) ==> Once([x] + a)
  {
    hide ItemBefore;
    var c, d := [x] + a, [x] + b;
    forall j | 0 < j < |c|
      ensures Asc(d) ==> ItemBefore(x, c[j])
      ensures Desc(d) ==> ItemBefore(c[j], x)
      ensures Once(d) ==> x != c[j]
    {
      assert c[j] in a;
      var k :| 0 <= k < |b| && b[k] == c[j];
      assert d[0] == x && d[k + 1] == c[j];
    }
  }

  lemma FirstPart(s: seq<Item>)
    ensures Part(FirstOf(s), s)
  {
    hide ItemBefore;
  }

  // ----- predicates, stopping early

  /** apply_predicate with once: it ends with the first item kept; picking by index keeps at most one. */
  ghost function ApplyOnce(v: Env, ns: seq<Item>, pred: Pred, once: bool): seq<Item>
  {
    if once then FirstOf(Apply(v, ns, pred)) else Apply(v, ns, pred)
  }

  /** apply_predicates: only the last one may end early. */
  ghost function ApplyAllOnce(v: Env, ns: seq<Item>, preds: seq<Pred>, once: bool): seq<Item>
    decreases |preds|
  {
    if preds == [] then ns
    else if |preds| == 1 then ApplyOnce(v, ns, preds[0], once)
    else ApplyAllOnce(v, Apply(v, ns, preds[0]), preds[1..], once)
  }

  lemma {:induction false} ApplyAllOnceIs(v: Env, ns: seq<Item>, preds: seq<Pred>, once: bool)
    ensures ApplyAllOnce(v, ns, preds, once)
      == if once && preds != [] then FirstOf(ApplyAll(v, ns, preds)) else ApplyAll(v, ns, preds)
    decreases |preds|
  {
    hide Apply, FirstOf;
    if |preds| == 1 {
      assert preds[1..] == [];
      assert ApplyAll(v, Apply(v, ns, preds[0]), []) == Apply(v, ns, preds[0]);
    } else if preds != [] {
      ApplyAllOnceIs(v, Apply(v, ns, preds[0]), preds[1..], once);
    }
  }

  lemma {:induction false} KeepPart(v: Env, ns: seq<Item>, i: nat, e: Expr)
    requires i <= |ns|
    ensures Part(Keep(v, ns, i, e), ns[i..])
    decreases |ns| - i
  {
    hide Eval, Part, NumEq;
    if i < |ns| {
      KeepPart(v, ns, i + 1, e);
      PartCons(ns[i], Keep(v, ns, i + 1, e), ns[i + 1..]);
      assert ns[i..] == [ns[i]] + ns[i + 1..];
      assert [] + Keep(v, ns, i + 1, e) == Keep(v, ns, i + 1, e);
    } else {
      NonePart(ns[i..]);
    }
  }

  lemma NonePart(s: seq<Item>)
    ensures Part([], s)
  {
  }

  lemma PickPart(ns: seq<Item>, n: Number)
    ensures Part(Pick(ns, n), ns)
  {
    hide ItemBefore;
  }

  lemma {:induction false} ApplyPart(v: Env, ns: seq<Item>, p: Pred)
    ensures Part(Apply(v, ns, p), ns)
  {
    hide Eval, Keep, Pick, Part;
    NonePart(ns);
    if ns != [] {
      PickPart(ns, ToNum(v, Eval(v, p.expr, Context(NoItem, 1, |ns|))));
      KeepPart(v, ns, 0, p.expr);
      assert ns[0..] == ns;
    }
  }

  lemma {:induction false} ApplyAllPart(v: Env, ns: seq<Item>, ps: seq<Pred>)
    ensures Part(ApplyAll(v, ns, ps), ns)
    decreases |ps|
  {
    hide Apply, Part;
    if ps == [] {
      Itself(ns);
    } else {
      ApplyPart(v, ns, ps[0]);
      ApplyAllPart(v, Apply(v, ns, ps[0]), ps[1..]);
      PartThen(ApplyAll(v, ns, ps), Apply(v, ns, ps[0]), ns);
    }
  }

  lemma Itself(s: seq<Item>)
    ensures Part(s, s)
  {
  }

  // ----- the order of an axis

  function AxisOrder(axis: StepAxis): Order
  {
    if axis in {NodeAxis(Ancestor), NodeAxis(AncestorOrSelf), NodeAxis(PrecedingAxis), NodeAxis(PrecedingSibling)}
    then Reverse else Sorted
  }

  lemma {:induction false} ChildrenAscending(t: Tree, p: Path, i: nat)
    requires In(t, p) && i <= Arity(t, p)
    ensures Ascending(ChildrenFrom(t, p, i))
    decreases Arity(t, p) - i
  {
    if i < Arity(t, p) {
      ChildrenAscending(t, p, i + 1);
      forall y | y in ChildrenFrom(t, p, i + 1) ensures Before(p + [i], y) {
        ChildrenMembers(t, p, i + 1, y);
        Branches(p, p + [i], y);
      }
      AscendingConcat([p + [i]], ChildrenFrom(t, p, i + 1));
    }
  }

  lemma {:induction false} ChildrenDescending(p: Path, i: nat)
    ensures Descending(ChildrenBelow(p, i))
    ensures forall y | y in ChildrenBelow(p, i) :: p < y && y[|p|] < i
    decreases i
  {
    if i > 0 {
      ChildrenDescending(p, i - 1);
      var rest, last := ChildrenBelow(p, i - 1), p + [i - 1];
      forall y | y in rest ensures Before(y, last) {
        Branches(p, y, last);
      }
      DescendingConcat([last], rest);
    }
  }

  lemma {:induction false} AxisAscending(t: Tree, axis: Axis, n: Path)
    requires In(t, n) && AxisOrder(NodeAxis(axis)) == Sorted
    ensures Ascending(AxisNodes(t, axis, n))
  {
    hide Before;
    match axis
    case Child => ChildrenAscending(t, n, 0);
    case Descendant => ForestAscending(t, n, 0, Arity(t, n));
    case DescendantOrSelf => PreorderAscending(t, n);
    case FollowingAxis => FollowingAscending(t, n);
    case FollowingSibling => if n != [] { IsChild(t, n); ChildrenAscending(t, Up(n), XmlTree.Last(n) + 1); }
    case _ =>
  }

  lemma {:induction false} AxisDescending(t: Tree, axis: Axis, n: Path)
    requires In(t, n) && AxisOrder(NodeAxis(axis)) == Reverse
    ensures Descending(AxisNodes(t, axis, n))
  {
    hide Before;
    match axis
    case Ancestor => AncestorsDescending(n);
    case AncestorOrSelf =>
      AncestorsDescending(n);
      forall y | y in Ancestors(n) ensures Before(y, n) {
        AncestorMembers(n, y);
        PrefixBefore(y, n);
      }
      DescendingConcat([n], Ancestors(n));
    case PrecedingAxis => PrecedingDescending(t, n);
    case PrecedingSibling => if n != [] { ChildrenDescending(Up(n), XmlTree.Last(n)); }
    case _ =>
  }

  lemma {:induction false} PassingOrder(s: seq<Path>, test: Path -> bool)
    ensures Ascending(s) ==> Ascending(Passing(s, test))
    ensures Descending(s) ==> Descending(Passing(s, test))
    decreases |s|
  {
    hide Before;
    if s != [] {
      PassingOrder(s[1..], test);
      assert forall i | 0 <= i < |s| - 1 :: s[1..][i] == s[i + 1];
      forall y | y in Passing(s[1..], test) ensures y in s[1..] { PassingMembers(s[1..], test, y); }
      if Ascending(s) { AscendingConcat([s[0]], Passing(s[1..], test)); }
      if Descending(s) { DescendingConcat([s[0]], Passing(s[1..], test)); }
    }
  }

  lemma {:induction false} NodeItemsAt(ps: seq<Path>)
    ensures |NodeItems(ps)| == |ps| && forall i | 0 <= i < |ps| :: NodeItems(ps)[i] == NodeItem(ps[i])
    decreases |ps|
  {
    if ps != [] { NodeItemsAt(ps[1..]); }
  }

  lemma {:induction false} NodesOnOrder(v: Env, axis: Axis, test: Test, p: Path)
    ensures AxisOrder(NodeAxis(axis)) == Sorted ==> Asc(NodesOn(v, axis, test, p))
    ensures AxisOrder(NodeAxis(axis)) == Reverse ==> Desc(NodesOn(v, axis, test, p))
  {
    hide AxisNodes, Before, Passing, NodeItems;
    if In(v.tree, p) {
      var f := q => v.passes(test, q);
      var nodes := AxisNodes(v.tree, axis, p);
      PassingOrder(nodes, f);
      NodeItemsAt(Passing(nodes, f));
      if AxisOrder(NodeAxis(axis)) == Sorted { AxisAscending(v.tree, axis, p); } else { AxisDescending(v.tree, axis, p); }
    }
  }

  lemma {:induction false} AttrItemsOrder(v: Env, test: Test, p: Path, i: nat)
    ensures Asc(AttrItems(v, test, p, i))
    ensures forall x | x in AttrItems(v, test, p, i) :: x.AttrItem? && x.path == p && x.index >= i
    decreases |v.attrs(p)| - i
  {
    hide Before;
    if i < |v.attrs(p)| {
      AttrItemsOrder(v, test, p, i + 1);
      var rest := AttrItems(v, test, p, i + 1);
      forall j | 0 <= j < |rest| ensures ItemBefore(AttrItem(p, i), rest[j]) {
        assert rest[j] in rest;
      }
    }
  }

  lemma {:induction false} AncestorsBefore(v: Env, test: Test, p: Path, i: nat, y: Item)
    requires y in NodesOn(v, AncestorOrSelf, test, p)
    ensures ItemBefore(y, AttrItem(p, i))
  {
    NodesOnMembers(v, AncestorOrSelf, test, p, y);
    if y.path != p {
      AncestorMembers(p, y.path);
      PrefixBefore(y.path, p);
    }
  }

  lemma {:induction false} DescendantsBefore(v: Env, test: Test, p: Path, x: Item, y: Item)
    requires x in NodesOn(v, Descendant, test, p) && y in NodesOn(v, FollowingAxis, test, p)
    ensures ItemBefore(x, y)
  {
    NodesOnMembers(v, Descendant, test, p, x);
    NodesOnMembers(v, FollowingAxis, test, p, y);
    ForestMembers(v.tree, p, 0, Arity(v.tree, p), x.path);
    FollowingMembers(v.tree, p, y.path);
    Beyond(p, x.path, y.path);
  }

  lemma AscConcat(a: seq<Item>, b: seq<Item>)
    requires forall x, y | x in a && y in b :: ItemBefore(x, y)
    ensures Asc(a) && Asc(b) ==> Asc(a + b)
  {
    hide ItemBefore;
  }

  lemma DescConcat(a: seq<Item>, b: seq<Item>)
    requires forall x, y | x in a && y in b :: ItemBefore(y, x)
    ensures Desc(a) && Desc(b) ==> Desc(a + b)
  {
    hide ItemBefore;
  }

  /** step_fill leaves the items of an axis in the order the axis is said to have. */
  lemma {:induction false} FillOrder(v: Env, axis: StepAxis, test: Test, x: Item)
    ensures AxisOrder(axis) == Sorted ==> Asc(Fill(v, axis, test, x))
    ensures AxisOrder(axis) == Reverse ==> Desc(Fill(v, axis, test, x))
  {
    hide NodesOn, AttrItems, ItemBefore;
    match x
    case NoItem =>
    case NodeItem(p) =>
      if axis.NodeAxis? { NodesOnOrder(v, axis.axis, test, p); } else { AttrItemsOrder(v, test, p, 0); }
    case AttrItem(p, i) => if axis.NodeAxis? { AttrFillOrder(v, axis.axis, test, p, i); }
  }

  lemma {:induction false} AttrFillOrder(v: Env, axis: Axis, test: Test, p: Path, i: nat)
    ensures AxisOrder(NodeAxis(axis)) == Sorted ==> Asc(Fill(v, NodeAxis(axis), test, AttrItem(p, i)))
    ensures AxisOrder(NodeAxis(axis)) == Reverse ==> Desc(Fill(v, NodeAxis(axis), test, AttrItem(p, i)))
  {
    hide NodesOn, ItemBefore;
    match axis
    case Ancestor => NodesOnOrder(v, AncestorOrSelf, test, p);
    case AncestorOrSelf =>
      NodesOnOrder(v, AncestorOrSelf, test, p);
      var above := NodesOn(v, AncestorOrSelf, test, p);
      forall y | y in above ensures ItemBefore(y, AttrItem(p, i)) { AncestorsBefore(v, test, p, i, y); }
      DescConcat([AttrItem(p, i)], above);
      assert [] + above == above;
    case FollowingAxis =>
      NodesOnOrder(v, Descendant, test, p);
      NodesOnOrder(v, FollowingAxis, test, p);
      var a, b := NodesOn(v, Descendant, test, p), NodesOn(v, FollowingAxis, test, p);
      forall x, y | x in a && y in b ensures ItemBefore(x, y) { DescendantsBefore(v, test, p, x, y); }
      AscConcat(a, b);
    case ParentAxis => NodesOnOrder(v, SelfAxis, test, p);
    case PrecedingAxis => NodesOnOrder(v, PrecedingAxis, test, p);
    case _ =>
  }

  // ----- the evaluator

  /** eval_once */
  predicate EvalOnce(o: Order, m: Mode)
  {
    if o == Sorted then m != Whole else m == AnyOne
  }

  /** What step_do adds for the context item x to a set in the given order so far. */
  ghost function Kept(v: Env, axis: StepAxis, test: Test, ps: seq<Pred>, m: Mode, o: Order, x: Item): seq<Item>
  {
    var all := Fill(v, axis, test, x);
    var once := FillsOnce(axis, test, ps) || (ps == [] && EvalOnce(AxisOrder(axis), m));
    ApplyAllOnce(v, if once then FirstOf(all) else all, ps, EvalOnce(o, m))
  }

  /** The loop of step_do over the first k items of its base, whose order is o. */
  ghost function StepFrom(v: Env, axis: StepAxis, test: Test, ps: seq<Pred>, m: Mode, s: seq<Item>, o: Order, k: nat): Fetched
    requires k <= |s|
    decreases k
  {
    if k == 0 then Fetched([], if axis == NodeAxis(SelfAxis) then o else AxisOrder(axis)) else
    var f := StepFrom(v, axis, test, ps, m, s, o, k - 1);
    var order := if axis != NodeAxis(SelfAxis) && f.items != [] then Unsorted else f.order;
    Fetched(f.items + Kept(v, axis, test, ps, m, order, s[k - 1]), order)
  }

  /** Axes on which different items never meet in one node. */
  predicate Separate(axis: StepAxis)
  {
    axis == AttributeAxis || axis == NodeAxis(Child) || axis == NodeAxis(SelfAxis)
  }

  /** The end of step_do: duplicates go where there may be some; what order that leaves is not said. */
  ghost function Deduplicated(v: Env, axis: StepAxis, f: Fetched): Fetched
  {
    if !Separate(axis) && f.order == Unsorted then Fetched(v.listed(SetOf(f.items)), Unsorted) else f
  }

  /** eval_node_set */
  ghost function Fetch(v: Env, vars: string -> Fetched, e: Expr, c: Context, m: Mode): Fetched
    decreases e
  {
    match e
    case Variable(name, _) => vars(name)
    case Root => Fetched(if c.item == NoItem then [] else [NodeItem([])], Sorted)
    case Union(l, r) =>
      Fetched(v.listed(SetOf(Fetch(v, vars, l, c, m).items) + SetOf(Fetch(v, vars, r, c, m).items)), Unsorted)
    case Filter(base, pred) =>
      var f := Fetch(v, vars, base, c, if pred.kind == ConstantOne then FirstOne else Whole);
      var g := if pred.kind == PosInv then f else Fetched(v.sorted(SetOf(f.items)), Sorted);
      Fetched(ApplyOnce(v, g.items, pred, EvalOnce(g.order, m)), g.order)
    case StepHere(axis, test, preds) =>
      Fetched(Kept(v, axis, test, preds, m, AxisOrder(axis), c.item), AxisOrder(axis))
    case Step(base, axis, test, preds) =>
      var s := Fetch(v, vars, base, c, Whole);
      Deduplicated(v, axis, StepFrom(v, axis, test, preds, m, s.items, s.order, |s.items|))
    case _ => Fetched([], Unsorted)
  }

  // ----- what is asked of it

  /** Sorting is by document order, deduplication leaves no duplicate, and variables are tagged truthfully. */
  ghost predicate Ordered(v: Env, vars: string -> Fetched)
  {
    && ValidEnv(v)
    && (forall s: set<Item> :: Asc(v.sorted(s)) && Once(v.listed(s)))
    && (forall s: set<Item> :: s != {} ==> v.sorted(s) != [] && v.first(s) == v.sorted(s)[0])
    && (forall name :: Truthful(vars(name)) && SetOf(vars(name).items) == v.nodesVar(name))
  }

  /** An item that answers for x: x itself, any, or one that is not after x. */
  ghost predicate Found(m: Mode, items: seq<Item>, x: Item)
  {
    exists y :: y in items && (m == Whole ==> y == x) && (m == FirstOne ==> AtOrBefore(y, x))
  }

  /** items answers the question m about the set full: all of it, any item of it, or a part that has the first one. */
  ghost predicate Serves(m: Mode, items: seq<Item>, full: set<Item>)
  {
    (forall y | y in items :: y in full) && (forall x | x in full :: Found(m, items, x))
  }

  /** A predicate is classified as the optimizer may classify it. */
  ghost predicate GoodKind(p: Pred)
  {
    GoodPosInv(p) && (p.kind == ConstantOne ==> p.expr == NumConst(Fin(1.0)))
  }

  ghost predicate GoodKinds(ps: seq<Pred>)
  {
    forall i | 0 <= i < |ps| :: GoodKind(ps[i])
  }

  /** So are all predicates that a node set is filtered with on its way. */
  ghost predicate Classified(e: Expr)
    decreases e
  {
    match e
    case Variable(_, vtype) => vtype == TNodes
    case Union(l, r) => Classified(l) && Classified(r)
    case Filter(base, pred) => Classified(base) && GoodKind(pred)
    case StepHere(_, _, preds) => GoodKinds(preds)
    case Step(base, _, _, preds) => Classified(base) && GoodKinds(preds)
    case _ => TypeOf(e) == TNodes
  }

  // ----- steps

  /** Either everything, or only the first item where that is enough. */
  ghost predicate Enough(m: Mode, kept: seq<Item>, all: seq<Item>)
  {
    kept == all || (kept == FirstOf(all) && (m == AnyOne || (m == FirstOne && Asc(all))))
  }

  lemma EnoughServes(m: Mode, kept: seq<Item>, all: seq<Item>)
    requires Enough(m, kept, all)
    ensures Serves(m, kept, SetOf(all)) && Part(kept, all)
  {
    hide ItemBefore;
    FirstPart(all);
    Itself(all);
    forall x | x in SetOf(all) ensures Found(m, kept, x) {
      if kept == all {
        assert x in kept && AtOrBefore(x, x);
      } else {
        assert all[0] in kept && (m == FirstOne ==> AtOrBefore(all[0], x));
      }
    }
  }

  /** An order that step_do may be in when it comes to a further item. */
  predicate Possible(axis: StepAxis, o: Order)
  {
    o == Unsorted || o == AxisOrder(axis) || axis == NodeAxis(SelfAxis)
  }

  lemma {:induction false} SelfFill(v: Env, test: Test, x: Item)
    ensures |Fill(v, NodeAxis(SelfAxis), test, x)| <= 1
    ensures forall y | y in Fill(v, NodeAxis(SelfAxis), test, x) :: y == x
  {
    if x.NodeItem? && In(v.tree, x.path) {
      var f := q => v.passes(test, q);
      assert AxisNodes(v.tree, SelfAxis, x.path) == [x.path] && [x.path][1..] == [];
      assert Passing([x.path], f) == if f(x.path) then [x.path] else [];
      assert NodeItems([x.path]) == [NodeItem(x.path)];
    }
  }

  lemma ShortAsc(s: seq<Item>)
    requires |s| <= 1
    ensures Asc(s) && Desc(s) && FirstOf(s) == s
  {
  }

  /** What is kept for one context item is enough of what the step selects from it. */
  lemma {:induction false} KeptEnough(v: Env, axis: StepAxis, test: Test, ps: seq<Pred>, m: Mode, o: Order, x: Item)
    requires Possible(axis, o)
    ensures Enough(m, Kept(v, axis, test, ps, m, o, x), FillAndApply(v, axis, test, ps, x))
    ensures Part(FillAndApply(v, axis, test, ps, x), Fill(v, axis, test, x))
  {
    hide Fill, ApplyAll, ApplyAllOnce, Asc, Desc, Part;
    var all := Fill(v, axis, test, x);
    var some := if FillsOnce(axis, test, ps) then FirstOf(all) else all;
    FillOrder(v, axis, test, x);
    FirstPart(all);
    Itself(all);
    ApplyAllPart(v, some, ps);
    PartThen(ApplyAll(v, some, ps), some, all);
    ApplyAllOnceIs(v, some, ps, EvalOnce(o, m));
    if axis == NodeAxis(SelfAxis) {
      SelfFill(v, test, x);
      PartOrder(ApplyAll(v, some, ps), all);
      ShortAsc(ApplyAll(v, some, ps));
    }
    if ps == [] {
      ApplyAllOnceIs(v, FirstOf(all), ps, EvalOnce(o, m));
      ApplyNone(v, some);
      ApplyNone(v, FirstOf(all));
      ShortFirst(all);
    }
    PartOrder(ApplyAll(v, some, ps), all);
  }

  lemma ShortFirst(s: seq<Item>)
    ensures FirstOf(FirstOf(s)) == FirstOf(s)
  {
  }

  lemma {:induction false} ApplyNone(v: Env, ns: seq<Item>)
    ensures ApplyAll(v, ns, []) == ns
  {
  }

  lemma PartOrder(a: seq<Item>, b: seq<Item>)
    requires Part(a, b)
    ensures (Asc(b) ==> Asc(a)) && (Desc(b) ==> Desc(a)) && (Once(b) ==> Once(a)) && |a| <= |b|
    ensures forall x | x in a :: x in b
  {
    hide Asc, Desc, Once;
  }

  lemma {:induction false} OrderPossible(v: Env, axis: StepAxis, test: Test, ps: seq<Pred>, m: Mode, s: seq<Item>, o: Order, k: nat)
    requires k <= |s|
    ensures Possible(axis, StepFrom(v, axis, test, ps, m, s, o, k).order)
    decreases k
  {
    hide Kept, AxisOrder;
    if k > 0 { OrderPossible(v, axis, test, ps, m, s, o, k - 1); }
  }

  lemma FoundIn(m: Mode, a: seq<Item>, b: seq<Item>, x: Item)
    requires Found(m, a, x) && forall y | y in a :: y in b
    ensures Found(m, b, x)
  {
    hide AtOrBefore;
    var y :| y in a && (m == Whole ==> y == x) && (m == FirstOne ==> AtOrBefore(y, x));
    assert y in b;
  }

  lemma ServesBoth(m: Mode, a: seq<Item>, s: set<Item>, b: seq<Item>, t: set<Item>)
    requires Serves(m, a, s) && Serves(m, b, t)
    ensures Serves(m, a + b, s + t)
  {
    hide Found;
    forall x | x in s + t ensures Found(m, a + b, x) {
      if x in s { FoundIn(m, a, a + b, x); } else { FoundIn(m, b, a + b, x); }
    }
  }

  lemma {:induction false} SelectMore(v: Env, axis: StepAxis, test: Test, ps: seq<Pred>, s: seq<Item>, k: nat)
    requires k < |s|
    ensures SelectFrom(v, axis, test, ps, SetOf(s[..k + 1]))
      == SelectFrom(v, axis, test, ps, SetOf(s[..k])) + SetOf(FillAndApply(v, axis, test, ps, s[k]))
  {
    hide FillAndApply, SelectFrom;
    assert s[..k + 1] == s[..k] + [s[k]];
    forall z ensures z in SelectFrom(v, axis, test, ps, SetOf(s[..k + 1]))
      <==> z in SelectFrom(v, axis, test, ps, SetOf(s[..k])) + SetOf(FillAndApply(v, axis, test, ps, s[k])) {
      SelectMembers(v, axis, test, ps, SetOf(s[..k + 1]), z);
      SelectMembers(v, axis, test, ps, SetOf(s[..k]), z);
    }
  }

  /** The loop of step_do serves for what the step selects from the items it has come to. */
  lemma {:induction false} StepServes(v: Env, axis: StepAxis, test: Test, ps: seq<Pred>, m: Mode, s: seq<Item>, o: Order, k: nat)
    requires k <= |s|
    ensures Serves(m, StepFrom(v, axis, test, ps, m, s, o, k).items, SelectFrom(v, axis, test, ps, SetOf(s[..k])))
    decreases k
  {
    hide Kept, FillAndApply, Serves, SelectFrom, Enough, Part, AxisOrder;
    if k == 0 {
      NoneServes(v, axis, test, ps, m);
      assert SetOf(s[..0]) == {};
    } else {
      StepServes(v, axis, test, ps, m, s, o, k - 1);
      OrderPossible(v, axis, test, ps, m, s, o, k);
      SelectMore(v, axis, test, ps, s, k - 1);
      var f, g := StepFrom(v, axis, test, ps, m, s, o, k - 1), StepFrom(v, axis, test, ps, m, s, o, k);
      KeptEnough(v, axis, test, ps, m, g.order, s[k - 1]);
      var all := FillAndApply(v, axis, test, ps, s[k - 1]);
      EnoughServes(m, Kept(v, axis, test, ps, m, g.order, s[k - 1]), all);
      ServesBoth(m, f.items, SelectFrom(v, axis, test, ps, SetOf(s[..k - 1])),
                 Kept(v, axis, test, ps, m, g.order, s[k - 1]), SetOf(all));
    }
  }

  lemma {:induction false} NoneServes(v: Env, axis: StepAxis, test: Test, ps: seq<Pred>, m: Mode)
    ensures Serves(m, [], SelectFrom(v, axis, test, ps, {}))
  {
    hide FillAndApply;
  }

  /** What is kept for one item is a part of what step_fill finds from it. */
  lemma {:induction false} KeptPart(v: Env, axis: StepAxis, test: Test, ps: seq<Pred>, m: Mode, o: Order, x: Item)
    requires Possible(axis, o)
    ensures Part(Kept(v, axis, test, ps, m, o, x), Fill(v, axis, test, x))
    ensures AxisOrder(axis) == Sorted ==> Asc(Kept(v, axis, test, ps, m, o, x))
    ensures AxisOrder(axis) == Reverse ==> Desc(Kept(v, axis, test, ps, m, o, x))
    ensures Once(Kept(v, axis, test, ps, m, o, x))
  {
    hide Kept, Fill, FillAndApply, Asc, Desc, Once, Part, Enough;
    KeptEnough(v, axis, test, ps, m, o, x);
    var kept, all := Kept(v, axis, test, ps, m, o, x), FillAndApply(v, axis, test, ps, x);
    EnoughServes(m, kept, all);
    PartThen(kept, all, Fill(v, axis, test, x));
    PartOrder(kept, Fill(v, axis, test, x));
    FillOrder(v, axis, test, x);
    OrderedOnce(Fill(v, axis, test, x));
  }

  /** Where a node kept by the loop came from. */
  lemma {:induction false} StepSource(v: Env, axis: StepAxis, test: Test, ps: seq<Pred>, m: Mode, s: seq<Item>, o: Order, k: nat, y: Item)
    requires k <= |s| && y in StepFrom(v, axis, test, ps, m, s, o, k).items
    ensures exists x :: x in s[..k] && y in Fill(v, axis, test, x)
    decreases k
  {
    hide Kept, Fill, Part, AxisOrder;
    var f, g := StepFrom(v, axis, test, ps, m, s, o, k - 1), StepFrom(v, axis, test, ps, m, s, o, k);
    assert s[..k] == s[..k - 1] + [s[k - 1]];
    if y in f.items {
      StepSource(v, axis, test, ps, m, s, o, k - 1, y);
      var x :| x in s[..k - 1] && y in Fill(v, axis, test, x);
      assert x in s[..k];
    } else {
      OrderPossible(v, axis, test, ps, m, s, o, k);
      KeptPart(v, axis, test, ps, m, g.order, s[k - 1]);
      PartOrder(Kept(v, axis, test, ps, m, g.order, s[k - 1]), Fill(v, axis, test, s[k - 1]));
      assert s[k - 1] in s[..k];
    }
  }

  /** On a separate axis, a node is reached from one item only. */
  lemma {:induction false} OneSource(v: Env, axis: StepAxis, test: Test, x: Item, z: Item, y: Item)
    requires Separate(axis) && y in Fill(v, axis, test, x) && y in Fill(v, axis, test, z)
    ensures x == z
  {
    hide NodesOn, AttrItems;
    if axis == NodeAxis(SelfAxis) {
      SelfFill(v, test, x);
      SelfFill(v, test, z);
    } else {
      assert x.NodeItem? && z.NodeItem?;
      if axis == AttributeAxis {
        AttrItemsOrder(v, test, x.path, 0);
        AttrItemsOrder(v, test, z.path, 0);
      } else {
        NodesOnMembers(v, Child, test, x.path, y);
        NodesOnMembers(v, Child, test, z.path, y);
        ChildrenMembers(v.tree, x.path, 0, y.path);
        ChildrenMembers(v.tree, z.path, 0, y.path);
      }
    }
  }

  /** So without duplicates in the base there are none in the result. */
  lemma {:induction false} StepOnce(v: Env, axis: StepAxis, test: Test, ps: seq<Pred>, m: Mode, s: seq<Item>, o: Order, k: nat)
    requires k <= |s| && Once(s) && Separate(axis)
    ensures Once(StepFrom(v, axis, test, ps, m, s, o, k).items)
    decreases k
  {
    hide Kept, Fill, Part, AxisOrder, Asc, Desc;
    if k > 0 {
      StepOnce(v, axis, test, ps, m, s, o, k - 1);
      var f, g := StepFrom(v, axis, test, ps, m, s, o, k - 1), StepFrom(v, axis, test, ps, m, s, o, k);
      OrderPossible(v, axis, test, ps, m, s, o, k);
      var kept := Kept(v, axis, test, ps, m, g.order, s[k - 1]);
      KeptPart(v, axis, test, ps, m, g.order, s[k - 1]);
      PartOrder(kept, Fill(v, axis, test, s[k - 1]));
      forall y | y in f.items ensures y !in kept {
        StepSource(v, axis, test, ps, m, s, o, k - 1, y);
        var x :| x in s[..k - 1] && y in Fill(v, axis, test, x);
        var i :| 0 <= i < k - 1 && s[..k - 1][i] == x;
        assert s[i] != s[k - 1];
        if y in Fill(v, axis, test, s[k - 1]) { OneSource(v, axis, test, x, s[k - 1], y); }
      }
      OnceConcat(f.items, kept);
    }
  }

  lemma OnceConcat(a: seq<Item>, b: seq<Item>)
    requires Once(a) && Once(b) && forall y :: !(y in a && y in b)
    ensures Once(a + b)
  {
    forall i, j | 0 <= i < j < |a + b| ensures (a + b)[i] != (a + b)[j] {
      if i < |a| <= j { assert a[i] in a && b[j - |a|] in b; }
    }
  }

  /** The tag of the loop's result is right; on the self axis it is that of the base. */
  lemma {:induction false} StepOrder(v: Env, axis: StepAxis, test: Test, ps: seq<Pred>, m: Mode, s: seq<Item>, o: Order, k: nat)
    requires k <= |s| && Truthful(Fetched(s, o))
    ensures var f := StepFrom(v, axis, test, ps, m, s, o, k);
      (f.order == Sorted ==> Asc(f.items)) && (f.order == Reverse ==> Desc(f.items))
    decreases k
  {
    hide Kept, Fill, Part, AxisOrder, Asc, Desc, Once, ItemBefore;
    NoOrder();
    if k > 0 {
      StepOrder(v, axis, test, ps, m, s, o, k - 1);
      var f, g := StepFrom(v, axis, test, ps, m, s, o, k - 1), StepFrom(v, axis, test, ps, m, s, o, k);
      OrderPossible(v, axis, test, ps, m, s, o, k);
      var kept := Kept(v, axis, test, ps, m, g.order, s[k - 1]);
      KeptPart(v, axis, test, ps, m, g.order, s[k - 1]);
      if axis == NodeAxis(SelfAxis) {
        SelfOrder(v, test, ps, m, s, o, k);
      } else if f.items == [] {
        assert [] + kept == kept;
      }
    }
  }

  lemma {:induction false} SelfTag(v: Env, test: Test, ps: seq<Pred>, m: Mode, s: seq<Item>, o: Order, k: nat)
    requires k <= |s|
    ensures StepFrom(v, NodeAxis(SelfAxis), test, ps, m, s, o, k).order == o
    decreases k
  {
    hide Kept;
    if k > 0 { SelfTag(v, test, ps, m, s, o, k - 1); }
  }

  lemma {:induction false} SelfOrder(v: Env, test: Test, ps: seq<Pred>, m: Mode, s: seq<Item>, o: Order, k: nat)
    requires 0 < k <= |s| && Truthful(Fetched(s, o))
    requires var f := StepFrom(v, NodeAxis(SelfAxis), test, ps, m, s, o, k - 1);
      (f.order == Sorted ==> Asc(f.items)) && (f.order == Reverse ==> Desc(f.items))
    ensures var g := StepFrom(v, NodeAxis(SelfAxis), test, ps, m, s, o, k);
      (g.order == Sorted ==> Asc(g.items)) && (g.order == Reverse ==> Desc(g.items))
  {
    hide Kept, Fill, Part, ItemBefore;
    var self := NodeAxis(SelfAxis);
    SelfTag(v, test, ps, m, s, o, k - 1);
    SelfTag(v, test, ps, m, s, o, k);
    var f := StepFrom(v, self, test, ps, m, s, o, k - 1);
    var kept := Kept(v, self, test, ps, m, o, s[k - 1]);
    KeptPart(v, self, test, ps, m, o, s[k - 1]);
    SelfFill(v, test, s[k - 1]);
    PartOrder(kept, Fill(v, self, test, s[k - 1]));
    ShortAsc(kept);
    forall x, y | x in f.items && y in kept
      ensures (o == Sorted ==> ItemBefore(x, y)) && (o == Reverse ==> ItemBefore(y, x))
    {
      StepSource(v, self, test, ps, m, s, o, k - 1, x);
      var z :| z in s[..k - 1] && x in Fill(v, self, test, z);
      SelfFill(v, test, z);
      var i :| 0 <= i < k - 1 && s[..k - 1][i] == z;
      assert s[i] == x && y == s[k - 1];
    }
    if o == Sorted { AscConcat(f.items, kept); }
    if o == Reverse { DescConcat(f.items, kept); }
  }

  lemma NoOrder()
    ensures Asc([]) && Desc([])
  {
  }

  /** step_do: what it leaves serves for what the step selects from the base, and is tagged truthfully. */
  lemma {:induction false} StepFetched(v: Env, vars: string -> Fetched, axis: StepAxis, test: Test, ps: seq<Pred>, m: Mode, base: Fetched)
    requires Ordered(v, vars) && Truthful(base)
    ensures var f := Deduplicated(v, axis, StepFrom(v, axis, test, ps, m, base.items, base.order, |base.items|));
      Truthful(f) && Serves(m, f.items, SelectFrom(v, axis, test, ps, SetOf(base.items)))
  {
    hide StepFrom, SelectFrom, Asc, Desc, ItemBefore;
    var s, o := base.items, base.order;
    var f := StepFrom(v, axis, test, ps, m, s, o, |s|);
    assert s[..|s|] == s;
    StepServes(v, axis, test, ps, m, s, o, |s|);
    StepOrder(v, axis, test, ps, m, s, o, |s|);
    if Separate(axis) {
      StepOnce(v, axis, test, ps, m, s, o, |s|);
    } else if f.order != Unsorted {
      OrderedOnce(f.items);
    } else {
      SameServes(m, f.items, v.listed(SetOf(f.items)), SelectFrom(v, axis, test, ps, SetOf(s)));
    }
  }

  lemma SameServes(m: Mode, a: seq<Item>, b: seq<Item>, full: set<Item>)
    requires Serves(m, a, full) && forall x :: x in a <==> x in b
    ensures Serves(m, b, full)
  {
    hide Found;
    forall x | x in full ensures Found(m, b, x) {
      FoundIn(m, a, b, x);
    }
  }

  // ----- filters

  /** Filtering a list with once, where once is allowed. */
  lemma {:induction false} ApplyServes(v: Env, f: Fetched, pred: Pred, m: Mode)
    requires Truthful(f)
    ensures var g := Fetched(ApplyOnce(v, f.items, pred, EvalOnce(f.order, m)), f.order);
      Truthful(g) && Serves(m, g.items, SetOf(Apply(v, f.items, pred)))
  {
    hide Apply, Asc, Desc, Part;
    var all := Apply(v, f.items, pred);
    ApplyPart(v, f.items, pred);
    PartOrder(all, f.items);
    var kept := ApplyOnce(v, f.items, pred, EvalOnce(f.order, m));
    EnoughServes(m, kept, all);
    PartOrder(kept, all);
  }

  lemma Both(x: Item, y: Item)
    requires AtOrBefore(x, y) && AtOrBefore(y, x)
    ensures x == y
  {
    hide ItemBefore;
    ItemOrder(x, y);
    ItemOrder(y, x);
  }

  lemma AtOrBeforeSome(a: seq<Item>, full: set<Item>, x: Item) returns (y: Item)
    requires Serves(FirstOne, a, full) && x in full
    ensures y in a && AtOrBefore(y, x)
  {
    hide AtOrBefore;
    assert Found(FirstOne, a, x);
    y :| y in a && AtOrBefore(y, x);
  }

  lemma Within(m: Mode, a: seq<Item>, full: set<Item>)
    requires Serves(m, a, full)
    ensures forall y | y in a :: y in full
  {
    hide AtOrBefore;
  }

  /** Two sorted lists of which one is a part of the other that has its first item begin alike. */
  lemma {:induction false} SameFirst(a: seq<Item>, b: seq<Item>)
    requires Asc(a) && Asc(b) && Serves(FirstOne, a, SetOf(b))
    ensures FirstOf(a) == FirstOf(b)
  {
    hide Asc, AtOrBefore, Serves;
    Within(FirstOne, a, SetOf(b));
    if b == [] {
      assert a != [] ==> a[0] in a;
    } else {
      var y := AtOrBeforeSome(a, SetOf(b), b[0]);
      LeastIs(b, y);
      Both(y, b[0]);
      LeastIs(a, y);
      assert a[0] in a;
      assert a[0] in SetOf(b);
      LeastIs(b, a[0]);
      Both(a[0], b[0]);
    }
  }

  lemma LeastIs(s: seq<Item>, y: Item)
    requires Asc(s) && y in s
    ensures s != [] && AtOrBefore(s[0], y)
  {
    hide ItemBefore;
  }

  lemma {:induction false} OneIsFirst(v: Env, ns: seq<Item>, p: Pred)
    requires p.kind == ConstantOne && p.expr == NumConst(Fin(1.0))
    ensures Apply(v, ns, p) == FirstOf(ns)
  {
    if ns != [] {
      assert Eval(v, p.expr, Context(NoItem, 1, |ns|)) == Num(Fin(1.0));
      PickAt(ns, 0, Fin(1.0));
    }
  }

  /** ast_filter, whose base need only be asked for its first node when the predicate is [1]. */
  lemma {:induction false} FilterFetched(v: Env, vars: string -> Fetched, f: Fetched, s: set<Item>, pred: Pred, m: Mode)
    requires Ordered(v, vars) && GoodKind(pred) && Truthful(f)
    requires Serves(if pred.kind == ConstantOne then FirstOne else Whole, f.items, s)
    ensures var g := if pred.kind == PosInv then f else Fetched(v.sorted(SetOf(f.items)), Sorted);
      var r := Fetched(ApplyOnce(v, g.items, pred, EvalOnce(g.order, m)), g.order);
      Truthful(r) && Serves(m, r.items, SetOf(Apply(v, if pred.kind == PosInv then v.listed(s) else v.sorted(s), pred)))
  {
    hide Apply, ApplyOnce, GoodPosInv, Asc, Desc, ItemBefore, AtOrBefore;
    var g := if pred.kind == PosInv then f else Fetched(v.sorted(SetOf(f.items)), Sorted);
    if pred.kind != PosInv { OrderedOnce(g.items); }
    ApplyServes(v, g, pred, m);
    if pred.kind == PosInv {
      WholeIs(f.items, s);
      SameFilter(v, f.items, v.listed(s), pred);
    } else if pred.kind == ConstantOne {
      assert SetOf(v.sorted(s)) == s;
      SameServes(FirstOne, f.items, g.items, s);
      SameFirst(g.items, v.sorted(s));
      OneIsFirst(v, g.items, pred);
      OneIsFirst(v, v.sorted(s), pred);
    } else {
      WholeIs(f.items, s);
    }
  }

  lemma WholeIs(a: seq<Item>, s: set<Item>)
    requires Serves(Whole, a, s)
    ensures SetOf(a) == s
  {
    hide AtOrBefore;
    assert forall x | x in s :: Found(Whole, a, x);
  }

  /** A position-independent filter keeps the same items whatever order they come in. */
  lemma {:induction false} SameFilter(v: Env, a: seq<Item>, b: seq<Item>, p: Pred)
    requires GoodPosInv(p) && p.kind == PosInv && forall x :: x in a <==> x in b
    ensures SetOf(Apply(v, a, p)) == SetOf(Apply(v, b, p))
  {
    hide Apply, GoodPosInv;
    forall x ensures x in Apply(v, a, p) <==> x in Apply(v, b, p) {
      ApplyMembers(v, a, p, x);
      ApplyMembers(v, b, p, x);
    }
  }

  // ----- the theorem

  /**
   eval_node_set, in any mode, serves for the set the expression stands for, and the
   order it claims for its list is the one the list is in.
   */
  lemma {:induction false} FetchServes(v: Env, vars: string -> Fetched, e: Expr, c: Context, m: Mode)
    requires Ordered(v, vars) && Classified(e)
    ensures Truthful(Fetch(v, vars, e, c, m)) && Serves(m, Fetch(v, vars, e, c, m).items, Items(Eval(v, e, c)))
    decreases e
  {
    hide Truthful, Serves, GoodKind, GoodKinds, Kept, StepFrom, Deduplicated, FillAndApply, Apply, ApplyOnce, SelectFrom, Ordered;
    match e
    case Variable(name, _) => VariableFetched(v, vars, name, m);
    case Root => RootFetched(c, m);
    case Union(l, r) =>
      FetchServes(v, vars, l, c, m);
      FetchServes(v, vars, r, c, m);
      UnionFetched(v, vars, m, Fetch(v, vars, l, c, m).items, Items(Eval(v, l, c)), Fetch(v, vars, r, c, m).items, Items(Eval(v, r, c)));
    case Filter(base, pred) =>
      var inner := if pred.kind == ConstantOne then FirstOne else Whole;
      FetchServes(v, vars, base, c, inner);
      FilterFetched(v, vars, Fetch(v, vars, base, c, inner), Items(Eval(v, base, c)), pred, m);
    case StepHere(axis, test, preds) => HereFetched(v, axis, test, preds, m, c.item);
    case Step(base, axis, test, preds) =>
      FetchServes(v, vars, base, c, Whole);
      var s := Fetch(v, vars, base, c, Whole);
      WholeIs(s.items, Items(Eval(v, base, c)));
      StepFetched(v, vars, axis, test, preds, m, s);
    case _ => NothingFetched(m);
  }

  lemma VariableFetched(v: Env, vars: string -> Fetched, name: string, m: Mode)
    requires Ordered(v, vars)
    ensures Truthful(vars(name)) && Serves(m, vars(name).items, v.nodesVar(name))
  {
    hide Truthful;
    ServesItself(m, vars(name).items);
  }

  lemma ServesItself(m: Mode, s: seq<Item>)
    ensures Serves(m, s, SetOf(s))
  {
    EnoughServes(m, s, s);
  }

  lemma RootFetched(c: Context, m: Mode)
    ensures var f := Fetched(if c.item == NoItem then [] else [NodeItem([])], Sorted);
      Truthful(f) && Serves(m, f.items, if c.item == NoItem then {} else {NodeItem([])})
  {
    ServesItself(m, [NodeItem([])]);
    ServesItself(m, []);
    assert SetOf([NodeItem([])]) == {NodeItem([])} && SetOf([]) == {};
  }

  lemma NothingFetched(m: Mode)
    ensures Truthful(Fetched([], Unsorted)) && Serves(m, [], {})
  {
  }

  lemma UnionFetched(v: Env, vars: string -> Fetched, m: Mode, a: seq<Item>, s: set<Item>, b: seq<Item>, t: set<Item>)
    requires Ordered(v, vars) && Serves(m, a, s) && Serves(m, b, t)
    ensures var f := Fetched(v.listed(SetOf(a) + SetOf(b)), Unsorted);
      Truthful(f) && Serves(m, f.items, s + t)
  {
    hide Serves, Asc, Desc;
    ServesBoth(m, a, s, b, t);
    SameServes(m, a + b, v.listed(SetOf(a) + SetOf(b)), s + t);
  }

  lemma {:induction false} HereFetched(v: Env, axis: StepAxis, test: Test, ps: seq<Pred>, m: Mode, x: Item)
    ensures var f := Fetched(Kept(v, axis, test, ps, m, AxisOrder(axis), x), AxisOrder(axis));
      Truthful(f) && Serves(m, f.items, SetOf(FillAndApply(v, axis, test, ps, x)))
  {
    hide Kept, FillAndApply, Fill, Enough, Serves, Part, Asc, Desc, Once;
    KeptEnough(v, axis, test, ps, m, AxisOrder(axis), x);
    KeptPart(v, axis, test, ps, m, AxisOrder(axis), x);
    EnoughServes(m, Kept(v, axis, test, ps, m, AxisOrder(axis), x), FillAndApply(v, axis, test, ps, x));
  }

  // ----- what callers make of it

  /** xpath_first */
  ghost function FirstFetched(v: Env, f: Fetched): Item
    requires f.items != [] && v.sorted(SetOf(f.items)) != []
  {
    if f.order == Sorted then f.items[0]
    else if f.order == Reverse then f.items[|f.items| - 1]
    else v.sorted(SetOf(f.items))[0]
  }

  lemma {:induction false} FirstFetchedIs(v: Env, vars: string -> Fetched, f: Fetched)
    requires Ordered(v, vars) && Truthful(f) && f.items != []
    ensures v.sorted(SetOf(f.items)) != [] && FirstFetched(v, f) == v.sorted(SetOf(f.items))[0]
  {
    hide Asc, Desc, AtOrBefore, Serves, Once;
    assert f.items[0] in SetOf(f.items);
    var s := v.sorted(SetOf(f.items));
    if f.order == Sorted {
      ServesItself(FirstOne, f.items);
      SameServes(FirstOne, f.items, s, SetOf(f.items));
      SameFirst(s, f.items);
    } else if f.order == Reverse {
      var last := f.items[|f.items| - 1];
      assert last in f.items && last in s;
      assert s[0] in s;
      assert s[0] in SetOf(f.items);
      LeastIs(s, last);
      LastIs(f.items, s[0]);
      Both(s[0], last);
    }
  }

  lemma LastIs(s: seq<Item>, y: Item)
    requires Desc(s) && y in s
    ensures s != [] && AtOrBefore(s[|s| - 1], y)
  {
    hide ItemBefore;
  }

  /** Asked for all nodes, the evaluator finds the set, without duplicates. */
  lemma {:induction false} WholeFetched(v: Env, vars: string -> Fetched, e: Expr, c: Context)
    requires Ordered(v, vars) && Classified(e)
    ensures SetOf(Fetch(v, vars, e, c, Whole).items) == Items(Eval(v, e, c)) && Once(Fetch(v, vars, e, c, Whole).items)
  {
    hide Eval, Fetch, Ordered, Classified;
    FetchServes(v, vars, e, c, Whole);
    WholeIs(Fetch(v, vars, e, c, Whole).items, Items(Eval(v, e, c)));
  }

  /** Asked for any node, it finds one exactly if there is one: eval_boolean. */
  lemma {:induction false} AnyFetched(v: Env, vars: string -> Fetched, e: Expr, c: Context)
    requires Ordered(v, vars) && Classified(e) && Eval(v, e, c).Nodes?
    ensures Fetch(v, vars, e, c, AnyOne).items != [] <==> ToBool(Eval(v, e, c))
  {
    hide Eval, Fetch, Ordered, Classified;
    FetchServes(v, vars, e, c, AnyOne);
    var f := Fetch(v, vars, e, c, AnyOne);
    if f.items != [] {
      assert f.items[0] in Items(Eval(v, e, c));
    } else {
      assert forall x | x in Items(Eval(v, e, c)) :: Found(AnyOne, f.items, x);
    }
  }

  /** Asked for the first node, it finds nothing exactly if there is nothing. */
  lemma {:induction false} FirstNone(v: Env, vars: string -> Fetched, e: Expr, c: Context)
    requires Ordered(v, vars) && Classified(e)
    ensures Fetch(v, vars, e, c, FirstOne).items == [] <==> Items(Eval(v, e, c)) == {}
  {
    hide Eval, Fetch, Ordered, Classified, AtOrBefore;
    FetchServes(v, vars, e, c, FirstOne);
    var f := Fetch(v, vars, e, c, FirstOne);
    if f.items != [] {
      assert f.items[0] in Items(Eval(v, e, c));
    } else {
      assert forall x | x in Items(Eval(v, e, c)) :: Found(FirstOne, f.items, x);
    }
  }

  /** And otherwise it finds the first node of the whole set, whose string value is the set's: eval_string. */
  lemma {:induction false} FirstOneFetched(v: Env, vars: string -> Fetched, e: Expr, c: Context)
    requires Ordered(v, vars) && Classified(e) && Eval(v, e, c).Nodes? && Fetch(v, vars, e, c, FirstOne).items != []
    ensures var f := Fetch(v, vars, e, c, FirstOne);
      && v.sorted(SetOf(f.items)) != [] && FirstFetched(v, f) == v.first(Items(Eval(v, e, c)))
      && ToString(v, Eval(v, e, c)) == v.stringValue(FirstFetched(v, f))
  {
    hide Eval, Fetch, Classified, AtOrBefore, Asc, Serves, FirstFetched, Truthful;
    FetchServes(v, vars, e, c, FirstOne);
    var f, s := Fetch(v, vars, e, c, FirstOne), Items(Eval(v, e, c));
    Within(FirstOne, f.items, s);
    assert f.items[0] in s;
    FirstFetchedIs(v, vars, f);
    var a, b := v.sorted(SetOf(f.items)), v.sorted(s);
    assert SetOf(b) == s;
    SameServes(FirstOne, f.items, a, s);
    SameFirst(a, b);
  }

  // ----- with the optimizer

  lemma {:induction false} FreshClassified(e: Expr)
    requires WellFormed(e) && Fresh(e) && TypeOf(e) == TNodes
    ensures Classified(e)
    decreases e
  {
    hide GoodPosInv;
    match e
    case Union(l, r) => FreshClassified(l); FreshClassified(r);
    case Filter(base, pred) => FreshClassified(base); FreshKind(pred);
    case StepHere(_, _, preds) => FreshKinds(preds);
    case Step(base, _, _, preds) => FreshClassified(base); FreshKinds(preds);
    case _ =>
  }

  lemma FreshKind(p: Pred)
    requires WellFormedPred(p) && FreshPred(p)
    ensures GoodKind(p)
  {
    hide WellFormed, Fresh;
  }

  lemma {:induction false} FreshKinds(ps: seq<Pred>)
    requires WellFormedPreds(ps) && FreshPreds(ps)
    ensures GoodKinds(ps)
    decreases ps
  {
    hide WellFormed, Fresh, GoodKind;
    if ps != [] {
      FreshKind(ps[0]);
      FreshKinds(ps[1..]);
      forall i | 0 <= i < |ps| ensures GoodKind(ps[i]) {
        if i > 0 { assert ps[i] == ps[1..][i - 1]; }
      }
    }
  }

  lemma {:induction false} OptimizedKind(p: Pred)
    requires WellFormedPred(p) && FreshPred(p)
    ensures GoodKind(OptimizePred(p))
  {
    hide WellFormed, Fresh, GoodPosInv, Optimize, PosInvExpr;
    PredGood(p);
  }

  lemma {:induction false} OptimizedKinds(ps: seq<Pred>)
    requires WellFormedPreds(ps) && FreshPreds(ps)
    ensures GoodKinds(OptimizePreds(ps))
    decreases ps
  {
    hide WellFormed, Fresh, GoodKind, OptimizePred;
    if ps != [] {
      var qs := OptimizePreds(ps);
      OptimizedKind(ps[0]);
      OptimizedKinds(ps[1..]);
      forall i | 0 <= i < |qs| ensures GoodKind(qs[i]) {
        if i > 0 { assert qs[i] == qs[1..][i - 1]; }
      }
    }
  }

  lemma {:induction false} OptimizedClassified(e: Expr)
    requires WellFormed(e) && Fresh(e) && TypeOf(e) == TNodes
    ensures Classified(Optimize(e))
    decreases e
  {
    hide GoodKind, GoodKinds, OptimizePreds, OptimizePred, Merges, PosInvPreds;
    match e
    case Union(l, r) => OptimizedClassified(l); OptimizedClassified(r);
    case Filter(base, pred) => OptimizedClassified(base); OptimizedKind(pred);
    case StepHere(_, _, preds) => OptimizedKinds(preds);
    case Step(base, axis, test, preds) =>
      OptimizedClassified(base);
      OptimizedKinds(preds);
      MergeClassified(Optimize(base), axis, test, OptimizePreds(preds));
    case _ =>
  }

  lemma {:induction false} MergeClassified(base: Expr, axis: StepAxis, test: Test, ps: seq<Pred>)
    requires Classified(base) && GoodKinds(ps)
    ensures Classified(MergeStep(base, axis, test, ps))
  {
    hide GoodKinds;
  }

  /** Optimizing changes neither the nodes the evaluator finds, nor whether it finds any, nor the first one. */
  lemma {:induction false} OptimizedFetch(v: Env, vars: string -> Fetched, e: Expr, c: Context)
    requires Ordered(v, vars) && WellFormed(e) && Fresh(e) && TypeOf(e) == TNodes
    ensures SetOf(Fetch(v, vars, Optimize(e), c, Whole).items) == SetOf(Fetch(v, vars, e, c, Whole).items)
    ensures Fetch(v, vars, Optimize(e), c, AnyOne).items == [] <==> Fetch(v, vars, e, c, AnyOne).items == []
    ensures var f, g := Fetch(v, vars, Optimize(e), c, FirstOne), Fetch(v, vars, e, c, FirstOne);
      && (f.items == [] <==> g.items == [])
      && (f.items != [] ==> v.sorted(SetOf(f.items)) != [] && v.sorted(SetOf(g.items)) != []
                            && FirstFetched(v, f) == FirstFetched(v, g))
  {
    hide Eval, Fetch, Classified, Optimize, WellFormed, Fresh, FirstFetched, Asc, ItemBefore, ToBool, ToString;
    Sound(v, e, c);
    FreshClassified(e);
    OptimizedClassified(e);
    NodesTyped(v, e, c);
    WholeFetched(v, vars, e, c);
    WholeFetched(v, vars, Optimize(e), c);
    AnyFetched(v, vars, e, c);
    AnyFetched(v, vars, Optimize(e), c);
    FirstNone(v, vars, e, c);
    FirstNone(v, vars, Optimize(e), c);
    if Fetch(v, vars, e, c, FirstOne).items != [] {
      FirstOneFetched(v, vars, e, c);
      FirstOneFetched(v, vars, Optimize(e), c);
    }
  }

  lemma NodesTyped(v: Env, e: Expr, c: Context)
    requires WellFormed(e) && TypeOf(e) == TNodes
    ensures Eval(v, e, c).Nodes?
  {
    hide Eval;
    Typed(v, e, c);
  }
}
