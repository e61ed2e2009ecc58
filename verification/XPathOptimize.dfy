/** The expression rewriter, and that it changes no value. */
module XPathOptimize {
  import opened XmlTree
  import opened XmlAxes
  import opened XmlWalk
  import opened XPath

  // ----- what the parser builds

  ghost predicate WellFormed(e: Expr)
    decreases e, 0
  {
    match e
    case Equal(l, r) => WellFormed(l) && WellFormed(r)
    case Op(_, rtype, args) => rtype != TNodes && WellFormedAll(args)
    case Translate(s, from, to) => WellFormed(s) && WellFormed(from) && WellFormed(to)
    case TranslateTable(s, table) => WellFormed(s)
    case CompareAttribute(_, value) => WellFormed(value) && PosInvExpr(value)
    case Id(arg) => WellFormed(arg)
    case Union(l, r) => WellFormed(l) && WellFormed(r) && TypeOf(l) == TNodes && TypeOf(r) == TNodes
    case Filter(base, pred) => WellFormed(base) && TypeOf(base) == TNodes && WellFormedPred(pred)
    case StepHere(_, _, preds) => WellFormedPreds(preds)
    case Step(base, _, _, preds) => WellFormed(base) && TypeOf(base) == TNodes && WellFormedPreds(preds)
    case _ => true
  }

  ghost predicate WellFormedAll(es: seq<Expr>)
    decreases es, 0
  {
    es == [] || (WellFormed(es[0]) && WellFormedAll(es[1..]))
  }

  ghost predicate WellFormedPreds(ps: seq<Pred>)
    decreases ps, 0
  {
    ps == [] || (WellFormedPred(ps[0]) && WellFormedPreds(ps[1..]))
  }

  ghost predicate WellFormedPred(p: Pred)
    decreases p, 0
  {
    WellFormed(p.expr)
  }

  /** Nothing has been optimized yet. */
  ghost predicate Fresh(e: Expr)
    decreases e, 0
  {
    match e
    case StrConst(s) => forall i | 0 <= i < |s| :: s[i] as int != 0
    case Equal(l, r) => Fresh(l) && Fresh(r)
    case Op(_, _, args) => FreshAll(args)
    case Translate(s, from, to) => Fresh(s) && Fresh(from) && Fresh(to)
    case TranslateTable(_, _) => false
    case CompareAttribute(_, _) => false
    case Id(arg) => Fresh(arg)
    case Union(l, r) => Fresh(l) && Fresh(r)
    case Filter(base, pred) => Fresh(base) && FreshPred(pred)
    case StepHere(_, _, preds) => FreshPreds(preds)
    case Step(base, _, _, preds) => Fresh(base) && FreshPreds(preds)
    case _ => true
  }

  ghost predicate FreshAll(es: seq<Expr>)
    decreases es, 0
  {
    es == [] || (Fresh(es[0]) && FreshAll(es[1..]))
  }

  ghost predicate FreshPreds(ps: seq<Pred>)
    decreases ps, 0
  {
    ps == [] || (FreshPred(ps[0]) && FreshPreds(ps[1..]))
  }

  ghost predicate FreshPred(p: Pred)
    decreases p, 0
  {
    Fresh(p.expr) && p.kind == Default
  }

  // ----- the rewriter

  /** is_posinv_expr */
  predicate PosInvExpr(e: Expr)
    decreases e, 0
  {
    match e
    case Position => false
    case Last => false
    case Equal(l, r) => PosInvExpr(l) && PosInvExpr(r)
    case Op(_, _, args) => PosInvAll(args)
    case Translate(s, from, to) => PosInvExpr(s) && PosInvExpr(from) && PosInvExpr(to)
    case TranslateTable(s, _) => PosInvExpr(s)
    case CompareAttribute(_, value) => PosInvExpr(value)
    case Id(arg) => PosInvExpr(arg)
    case Union(l, r) => PosInvExpr(l) && PosInvExpr(r)
    case _ => true
  }

  predicate PosInvAll(es: seq<Expr>)
    decreases es, 0
  {
    es == [] || (PosInvExpr(es[0]) && PosInvAll(es[1..]))
  }

  /** is_posinv_step */
  predicate PosInvPreds(ps: seq<Pred>)
  {
    forall i | 0 <= i < |ps| :: ps[i].kind == PosInv
  }

  /** [position() = e] becomes [e] when e is a number. */
  function DropPosition(e: Expr): Expr
  {
    if e.Equal? && e.left == Position && TypeOf(e.right) == TNum then e.right else e
  }

  /** How a predicate is to be applied. */
  function Classify(e: Expr): PredKind
  {
    if e == NumConst(Fin(1.0)) then ConstantOne
    else if TypeOf(e) == TNum && (e.NumConst? || e.Variable? || e.Last?) then Constant
    else if TypeOf(e) != TNum && PosInvExpr(e) then PosInv
    else Default
  }

  function ClassifyPred(e: Expr): Pred
  {
    Pred(DropPosition(e), Classify(DropPosition(e)))
  }

  /** The axis that descendant-or-self::node() followed by axis amounts to, if there is one. */
  function MergedAxis(axis: StepAxis): (r: StepAxis)
  {
    if axis == NodeAxis(Child) || axis == NodeAxis(Descendant) then NodeAxis(Descendant) else NodeAxis(DescendantOrSelf)
  }

  predicate Merges(axis: StepAxis)
  {
    axis == NodeAxis(Child) || axis == NodeAxis(SelfAxis) || axis == NodeAxis(Descendant) || axis == NodeAxis(DescendantOrSelf)
  }

  /** descendant-or-self::node() without predicates. */
  predicate Anywhere(e: Expr)
  {
    (e.Step? || e.StepHere?) && e.axis == NodeAxis(DescendantOrSelf) && e.test == AnyNode && e.preds == []
  }

  /** A step whose base is descendant-or-self::node() takes over that step's base. */
  function MergeStep(base: Expr, axis: StepAxis, test: Test, preds: seq<Pred>): Expr
  {
    if Merges(axis) && Anywhere(base) && PosInvPreds(preds) then
      if base.Step? then Step(base.base, MergedAxis(axis), test, preds) else StepHere(MergedAxis(axis), test, preds)
    else Step(base, axis, test, preds)
  }

  datatype MaybeTable = NoTable | Table(codes: seq<char>)

  /** The codes for the characters of from; a character not in from keeps the code 0. */
  function FillTable(codes: seq<nat>, from: string, to: string): (r: seq<nat>)
    requires |codes| == 128 && forall i | 0 <= i < 128 :: codes[i] <= 128
    requires forall i | 0 <= i < |from| :: from[i] as int < 128
    requires forall i | 0 <= i < |to| :: to[i] as int < 128
    ensures |r| == 128 && forall i | 0 <= i < 128 :: r[i] <= 128
    decreases |from|
  {
    if from == [] then codes
    else
      var code := if to == [] || to[0] as int == 0 then 128 else to[0] as int;
      var fc := from[0] as int;
      FillTable(if codes[fc] == 0 then codes[fc := code] else codes, from[1..], if to == [] then to else to[1..])
  }

  predicate Ascii(s: string)
  {
    forall i | 0 <= i < |s| :: s[i] as int < 128
  }

  /** translate_table_generate: no table when a character that would be looked at is not ASCII. */
  function GenerateTable(from: string, to: string): MaybeTable
  {
    var used := if |to| <= |from| then to else to[..|from|];
    if Ascii(from) && Ascii(used) then
      var codes := FillTable(seq(128, _ => 0), from, used);
      Table(seq(128, i requires 0 <= i < 128 => if codes[i] == 0 then i as char else codes[i] as char))
    else NoTable
  }

  function Optimize(e: Expr): Expr
    decreases e, 0
  {
    match e
    case Equal(l, r) =>
      var l', r' := Optimize(l), Optimize(r);
      if l'.StepHere? && l'.axis == AttributeAxis && l'.test.NameTest? && l'.preds == []
         && (r'.StrConst? || (r'.Variable? && r'.vtype == TStr))
      then CompareAttribute(l'.test.name, r') else Equal(l', r')
    case Op(id, rtype, args) => Op(id, rtype, OptimizeAll(args))
    case Translate(s, from, to) =>
      var s', from', to' := Optimize(s), Optimize(from), Optimize(to);
      if from'.StrConst? && to'.StrConst? then
        match GenerateTable(from'.s, to'.s)
        case Table(codes) => TranslateTable(s', codes)
        case NoTable => Translate(s', from', to')
      else Translate(s', from', to')
    case TranslateTable(s, table) => TranslateTable(Optimize(s), table)
    case CompareAttribute(name, value) => CompareAttribute(name, Optimize(value))
    case Id(arg) => Id(Optimize(arg))
    case Union(l, r) => Union(Optimize(l), Optimize(r))
    case Filter(base, pred) => Filter(Optimize(base), OptimizePred(pred))
    case StepHere(axis, test, preds) => StepHere(axis, test, OptimizePreds(preds))
    case Step(base, axis, test, preds) => MergeStep(Optimize(base), axis, test, OptimizePreds(preds))
    case _ => e
  }

  function OptimizeAll(es: seq<Expr>): seq<Expr>
    decreases es, 0
  {
    if es == [] then [] else [Optimize(es[0])] + OptimizeAll(es[1..])
  }

  function OptimizePreds(ps: seq<Pred>): (r: seq<Pred>)
    ensures |r| == |ps|
    decreases ps, 0
  {
    if ps == [] then [] else [OptimizePred(ps[0])] + OptimizePreds(ps[1..])
  }

  function OptimizePred(p: Pred): Pred
    decreases p, 0
  {
    ClassifyPred(Optimize(p.expr))
  }

  // ----- shape

  lemma {:induction false} OptimizeShape(e: Expr)
    requires WellFormed(e)
    ensures WellFormed(Optimize(e)) && TypeOf(Optimize(e)) == TypeOf(e)
    decreases e, 0
  {
    hide GenerateTable, PosInvPreds, Classify, DropPosition, Merges;
    match e
    case Equal(l, r) => OptimizeShape(l); OptimizeShape(r);
    case Op(_, _, args) => OptimizeShapeAll(args);
    case Translate(s, from, to) => OptimizeShape(s); OptimizeShape(from); OptimizeShape(to);
    case TranslateTable(s, _) => OptimizeShape(s);
    case CompareAttribute(_, value) => OptimizeShape(value); OptimizePosInv(value);
    case Id(arg) => OptimizeShape(arg);
    case Union(l, r) => OptimizeShape(l); OptimizeShape(r);
    case Filter(base, pred) => OptimizeShape(base); OptimizeShapePred(pred);
    case StepHere(_, _, preds) => OptimizeShapePreds(preds);
    case Step(base, _, _, preds) => OptimizeShape(base); OptimizeShapePreds(preds);
    case _ =>
  }

  lemma {:induction false} OptimizeShapeAll(es: seq<Expr>)
    requires WellFormedAll(es)
    ensures WellFormedAll(OptimizeAll(es))
    decreases es, 0
  {
    if es != [] { OptimizeShape(es[0]); OptimizeShapeAll(es[1..]); }
  }

  lemma {:induction false} OptimizeShapePreds(ps: seq<Pred>)
    requires WellFormedPreds(ps)
    ensures WellFormedPreds(OptimizePreds(ps))
    decreases ps, 0
  {
    if ps != [] { OptimizeShapePred(ps[0]); OptimizeShapePreds(ps[1..]); }
  }

  lemma {:induction false} OptimizeShapePred(p: Pred)
    requires WellFormedPred(p)
    ensures WellFormedPred(OptimizePred(p))
    decreases p, 0
  {
    OptimizeShape(p.expr);
  }

  /** Optimizing keeps an expression free of position() and last(). */
  lemma {:induction false} OptimizePosInv(e: Expr)
    requires PosInvExpr(e)
    ensures PosInvExpr(Optimize(e))
    decreases e, 0
  {
    match e
    case Equal(l, r) => OptimizePosInv(l); OptimizePosInv(r);
    case Op(_, _, args) => OptimizePosInvAll(args);
    case Translate(s, from, to) => OptimizePosInv(s); OptimizePosInv(from); OptimizePosInv(to);
    case TranslateTable(s, _) => OptimizePosInv(s);
    case CompareAttribute(_, value) => OptimizePosInv(value);
    case Id(arg) => OptimizePosInv(arg);
    case Union(l, r) => OptimizePosInv(l); OptimizePosInv(r);
    case _ =>
  }

  lemma {:induction false} OptimizePosInvAll(es: seq<Expr>)
    requires PosInvAll(es)
    ensures PosInvAll(OptimizeAll(es))
    decreases es, 0
  {
    if es != [] { OptimizePosInv(es[0]); OptimizePosInvAll(es[1..]); }
  }
}
