/**
 XPath expressions as the evaluator sees them, and their values.  The functions that
 the optimizer does not single out are arbitrary functions of the context node and
 of their arguments' values; numbers keep NaN and the infinities but not rounding.
 Node sets are compared as sets, so the order in which a step leaves its results,
 which the evaluator tracks separately, does not matter.
 */
module XPath {
  import opened XmlTree
  import opened XmlAxes
  import opened XmlWalk

  datatype Number = NaN | PosInf | NegInf | Fin(value: real)

  /** == on doubles. */
  predicate NumEq(a: Number, b: Number) { a == b && a != NaN }

  datatype Item = NoItem | NodeItem(path: Path) | AttrItem(path: Path, index: nat)

  datatype Type = TBool | TNum | TStr | TNodes

  datatype Value = Bool(b: bool) | Num(n: Number) | Str(s: string) | Nodes(items: set<Item>)

  /** A node test; only node() is singled out. */
  datatype Test = AnyNode | NameTest(name: string) | OtherTest(id: nat)

  datatype StepAxis = NodeAxis(axis: Axis) | AttributeAxis

  /** predicate_t: how a predicate is applied. */
  datatype PredKind = Default | PosInv | Constant | ConstantOne

  datatype Pred = Pred(expr: Expr, kind: PredKind)

  datatype Expr =
    | NumConst(n: Number)
    | StrConst(s: string)
    | Variable(name: string, vtype: Type)
    | Position
    | Last
    | Equal(left: Expr, right: Expr)
    | Op(id: nat, rtype: Type, args: seq<Expr>)
    | Translate(str: Expr, from: Expr, to: Expr)
    | TranslateTable(str: Expr, table: seq<char>)
    | CompareAttribute(name: string, value: Expr)
    | Id(arg: Expr)
    | Root
    | Union(left: Expr, right: Expr)
    | Filter(base: Expr, pred: Pred)
    | StepHere(axis: StepAxis, test: Test, preds: seq<Pred>)
    | Step(base: Expr, axis: StepAxis, test: Test, preds: seq<Pred>)

  /** rettype */
  function TypeOf(e: Expr): Type
  {
    match e
    case NumConst(_) => TNum
    case StrConst(_) => TStr
    case Variable(_, vtype) => vtype
    case Position => TNum
    case Last => TNum
    case Equal(_, _) => TBool
    case Op(_, rtype, _) => rtype
    case Translate(_, _, _) => TStr
    case TranslateTable(_, _) => TStr
    case CompareAttribute(_, _) => TBool
    case _ => TNodes
  }

  /** The document, the variables and the functions of an evaluation. */
  datatype Env = Env(
    tree: Tree,
    passes: (Test, Path) -> bool,                       // step_push for a node
    attrs: Path -> seq<(string, string)>,               // names and values
    visible: string -> bool,                            // is_xpath_attribute
    passesAttr: (nat, string) -> bool,                  // step_push for an attribute, the other tests
    stringValue: Item -> string,
    first: set<Item> -> Item,                           // first in document order
    toNumber: string -> Number,
    sorted: set<Item> -> seq<Item>,                     // in document order
    listed: set<Item> -> seq<Item>,                     // in whatever order a step left it
    boolVar: string -> bool, numVar: string -> Number, strVar: string -> string, nodesVar: string -> set<Item>,
    boolOp: (nat, Item, seq<Value>) -> bool,
    numOp: (nat, Item, seq<Value>) -> Number,
    strOp: (nat, Item, seq<Value>) -> string)

  /** Both enumerations of a node set list its items, and only them; node()
      passes every node; the string value of an attribute is its value. */
  ghost predicate ValidEnv(v: Env)
  {
    && (forall s: set<Item>, x :: (x in v.sorted(s) <==> x in s) && (x in v.listed(s) <==> x in s))
    && (forall p :: v.passes(AnyNode, p))
    && (forall p, i | 0 <= i < |v.attrs(p)| :: v.stringValue(AttrItem(p, i)) == v.attrs(p)[i].1)
  }

  datatype Context = Context(item: Item, position: nat, size: nat)

  // ----- conversions and equality

  function ToBool(x: Value): bool
  {
    match x
    case Bool(b) => b
    case Num(n) => n != NaN && n != Fin(0.0)
    case Str(s) => s != ""
    case Nodes(items) => items != {}
  }

  function ToString(v: Env, x: Value): string
  {
    match x
    case Str(s) => s
    case Nodes(items) => if items == {} then "" else v.stringValue(v.first(items))
    case Bool(b) => if b then "true" else "false"
    case Num(_) => v.strOp(0, NoItem, [x])              // convert_number_to_string
  }

  function ToNum(v: Env, x: Value): Number
  {
    match x
    case Num(n) => n
    case Bool(b) => Fin(if b then 1.0 else 0.0)
    case _ => v.toNumber(ToString(v, x))
  }

  /** compare_eq with equal_to */
  ghost predicate EqualValues(v: Env, a: Value, b: Value)
  {
    if a.Bool? || b.Bool? then ToBool(a) == ToBool(b)
    else if a.Nodes? && b.Nodes? then exists x, y | x in a.items && y in b.items :: v.stringValue(x) == v.stringValue(y)
    else if a.Nodes? then EqualSome(v, b, a.items)
    else if b.Nodes? then EqualSome(v, a, b.items)
    else if a.Num? || b.Num? then NumEq(ToNum(v, a), ToNum(v, b))
    else a == b
  }

  ghost predicate EqualSome(v: Env, a: Value, items: set<Item>)
  {
    exists x | x in items ::
      if a.Num? then NumEq(a.n, v.toNumber(v.stringValue(x))) else Str(v.stringValue(x)) == a
  }

  // ----- translate

  /** Where c first occurs in s, or the length of s. */
  function Find(s: string, c: char): (i: nat)
    ensures i <= |s|
  {
    if s == [] || s[0] == c then 0 else 1 + Find(s[1..], c)
  }

  /** translate: each character found in from is replaced by its partner in to, or dropped. */
  function TranslateText(s: string, from: string, to: string): string
  {
    if s == [] then []
    else
      var i := Find(from, s[0]);
      (if i == |from| then [s[0]] else if i < |to| then [to[i]] else []) + TranslateText(s[1..], from, to)
  }

  /** translate_table: codes from 0 to 127 as they stand, 128 drops the character. */
  function ApplyTable(s: string, table: seq<char>): string
    requires |table| == 128
  {
    if s == [] then []
    else
      (if s[0] as int >= 128 then [s[0]]
       else if table[s[0] as int] as int == 128 then [] else [table[s[0] as int]])
      + ApplyTable(s[1..], table)
  }

  // ----- steps

  ghost function NodeItems(paths: seq<Path>): seq<Item>
  {
    if paths == [] then [] else [NodeItem(paths[0])] + NodeItems(paths[1..])
  }

  predicate AttrPasses(v: Env, test: Test, name: string)
  {
    v.visible(name) && match test
                       case AnyNode => true
                       case NameTest(n) => n == name
                       case OtherTest(id) => v.passesAttr(id, name)
  }

  /** The attributes of p from index i on that pass the test. */
  ghost function AttrItems(v: Env, test: Test, p: Path, i: nat): seq<Item>
    decreases |v.attrs(p)| - i
  {
    if i >= |v.attrs(p)| then []
    else (if AttrPasses(v, test, v.attrs(p)[i].0) then [AttrItem(p, i)] else []) + AttrItems(v, test, p, i + 1)
  }

  ghost function NodesOn(v: Env, axis: Axis, test: Test, p: Path): seq<Item>
  {
    if In(v.tree, p) then NodeItems(Passing(AxisNodes(v.tree, axis, p), q => v.passes(test, q))) else []
  }

  /** step_fill: the items of an axis from one context item, in axis order. */
  ghost function Fill(v: Env, axis: StepAxis, test: Test, x: Item): seq<Item>
  {
    match x
    case NoItem => []
    case NodeItem(p) =>
      (match axis
       case AttributeAxis => AttrItems(v, test, p, 0)
       case NodeAxis(a) => NodesOn(v, a, test, p))
    case AttrItem(p, i) =>
      var self := if test == AnyNode && i < |v.attrs(p)| && AttrPasses(v, test, v.attrs(p)[i].0) then [x] else [];
      match axis
      case AttributeAxis => []
      case NodeAxis(Ancestor) => NodesOn(v, AncestorOrSelf, test, p)
      case NodeAxis(AncestorOrSelf) => self + NodesOn(v, AncestorOrSelf, test, p)
      case NodeAxis(DescendantOrSelf) => self
      case NodeAxis(SelfAxis) => self
      case NodeAxis(FollowingAxis) => NodesOn(v, Descendant, test, p) + NodesOn(v, FollowingAxis, test, p)
      case NodeAxis(ParentAxis) => NodesOn(v, SelfAxis, test, p)
      case NodeAxis(PrecedingAxis) => NodesOn(v, PrecedingAxis, test, p)
      case NodeAxis(_) => []
  }

  /** The first item is enough for attribute::name and for a single predicate [1]. */
  predicate FillsOnce(axis: StepAxis, test: Test, preds: seq<Pred>)
  {
    (axis == AttributeAxis && test.NameTest?) || (|preds| == 1 && preds[0].kind == ConstantOne)
  }

  function FirstOf(s: seq<Item>): seq<Item>
  {
    if s == [] then [] else [s[0]]
  }

  // ----- evaluation

  ghost function Eval(v: Env, e: Expr, c: Context): Value
    decreases e, 0
  {
    match e
    case NumConst(n) => Num(n)
    case StrConst(s) => Str(s)
    case Variable(name, vtype) =>
      (match vtype
       case TBool => Bool(v.boolVar(name))
       case TNum => Num(v.numVar(name))
       case TStr => Str(v.strVar(name))
       case TNodes => Nodes(v.nodesVar(name)))
    case Position => Num(Fin(c.position as real))
    case Last => Num(Fin(c.size as real))
    case Equal(l, r) => Bool(EqualValues(v, Eval(v, l, c), Eval(v, r, c)))
    case Op(id, rtype, args) =>
      var xs := EvalAll(v, args, c);
      (match rtype
       case TBool => Bool(v.boolOp(id, c.item, xs))
       case TNum => Num(v.numOp(id, c.item, xs))
       case _ => Str(v.strOp(id, c.item, xs)))
    case Translate(s, from, to) =>
      Str(TranslateText(ToString(v, Eval(v, s, c)), ToString(v, Eval(v, from, c)), ToString(v, Eval(v, to, c))))
    case TranslateTable(s, table) =>
      Str(if |table| == 128 then ApplyTable(ToString(v, Eval(v, s, c)), table) else "")
    case CompareAttribute(name, value) =>
      Bool(c.item.NodeItem? && HasAttribute(v, c.item.path, name, ToString(v, Eval(v, value, c))))
    case Id(_) => Nodes({})
    case Root => Nodes(if c.item == NoItem then {} else {NodeItem([])})
    case Union(l, r) => Nodes(Items(Eval(v, l, c)) + Items(Eval(v, r, c)))
    case Filter(base, pred) =>
      var s := Items(Eval(v, base, c));
      Nodes(SetOf(Apply(v, if pred.kind == PosInv then v.listed(s) else v.sorted(s), pred)))
    case StepHere(axis, test, preds) =>
      Nodes(SetOf(FillAndApply(v, axis, test, preds, c.item)))
    case Step(base, axis, test, preds) =>
      Nodes(SelectFrom(v, axis, test, preds, Items(Eval(v, base, c))))
  }

  function SetOf(s: seq<Item>): set<Item> { set x | x in s }

  ghost function Items(x: Value): set<Item>
  {
    if x.Nodes? then x.items else {}
  }

  ghost function EvalAll(v: Env, es: seq<Expr>, c: Context): seq<Value>
    decreases es, 0
  {
    if es == [] then [] else [Eval(v, es[0], c)] + EvalAll(v, es[1..], c)
  }

  /** The attribute looked up by name has that value. */
  ghost predicate HasAttribute(v: Env, p: Path, name: string, value: string)
  {
    var i := FindAttr(v, p, name, 0);
    i < |v.attrs(p)| && v.attrs(p)[i].1 == value && v.visible(v.attrs(p)[i].0)
  }

  /** xml_node::attribute: the first attribute of that name. */
  function FindAttr(v: Env, p: Path, name: string, i: nat): (r: nat)
    decreases |v.attrs(p)| - i
    ensures r < |v.attrs(p)| ==> v.attrs(p)[r].0 == name
  {
    if i >= |v.attrs(p)| || v.attrs(p)[i].0 == name then i else FindAttr(v, p, name, i + 1)
  }

  ghost function FillAndApply(v: Env, axis: StepAxis, test: Test, preds: seq<Pred>, x: Item): seq<Item>
    decreases preds, 1
  {
    var all := Fill(v, axis, test, x);
    ApplyAll(v, if FillsOnce(axis, test, preds) then FirstOf(all) else all, preds)
  }

  /** What a step selects from all the items of its base. */
  ghost function SelectFrom(v: Env, axis: StepAxis, test: Test, preds: seq<Pred>, s: set<Item>): set<Item>
    decreases preds, 2
  {
    set x, y | x in s && y in FillAndApply(v, axis, test, preds, x) :: y
  }

  /** apply_predicates */
  ghost function ApplyAll(v: Env, ns: seq<Item>, preds: seq<Pred>): seq<Item>
    decreases preds, 0
  {
    if preds == [] then ns else ApplyAll(v, Apply(v, ns, preds[0]), preds[1..])
  }

  /** apply_predicate: by constant index, by number or by truth. */
  ghost function Apply(v: Env, ns: seq<Item>, pred: Pred): seq<Item>
    decreases pred, 0
  {
    if ns == [] then []
    else if pred.kind == Constant || pred.kind == ConstantOne then
      Pick(ns, ToNum(v, Eval(v, pred.expr, Context(NoItem, 1, |ns|))))
    else
      Keep(v, ns, 0, pred.expr)
  }

  /** apply_predicate_number_const: the item at that index, if the number is one. */
  ghost function Pick(ns: seq<Item>, n: Number): seq<Item>
  {
    if n.Fin? && 1.0 <= n.value <= |ns| as real && n.value == n.value.Floor as real
    then [ns[n.value.Floor - 1]] else []
  }

  /** apply_predicate_number and apply_predicate_boolean from index i on. */
  ghost function Keep(v: Env, ns: seq<Item>, i: nat, e: Expr): seq<Item>
    requires i <= |ns|
    decreases e, 1, |ns| - i
  {
    if i == |ns| then []
    else
      var x := Eval(v, e, Context(ns[i], i + 1, |ns|));
      var kept := if TypeOf(e) == TNum then NumEq(ToNum(v, x), Fin((i + 1) as real)) else ToBool(x);
      (if kept then [ns[i]] else []) + Keep(v, ns, i + 1, e)
  }
}
