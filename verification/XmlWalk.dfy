/**
 step_fill for a node: the iterative walks over the pointers, each of which pushes
 the nodes of its axis, in the axis order, that pass the node test.
 */
module XmlWalk {
  import opened Sequences
  import opened XmlTree
  import opened XmlAxes

  datatype Axis =
    | Ancestor
    | AncestorOrSelf
    | Child
    | Descendant
    | DescendantOrSelf
    | FollowingAxis
    | FollowingSibling
    | ParentAxis
    | PrecedingAxis
    | PrecedingSibling
    | SelfAxis

  /** Children from index i on, in document order. */
  ghost function ChildrenFrom(t: Tree, p: Path, i: nat): seq<Path>
    requires In(t, p) && i <= Arity(t, p)
    decreases Arity(t, p) - i
  {
    if i == Arity(t, p) then [] else [p + [i]] + ChildrenFrom(t, p, i + 1)
  }

  /** Children below index i, in reverse document order. */
  ghost function ChildrenBelow(p: Path, i: nat): seq<Path>
  {
    if i == 0 then [] else [p + [i - 1]] + ChildrenBelow(p, i - 1)
  }

  /** The nodes of an axis, in the order in which XPath numbers them. */
  ghost function AxisNodes(t: Tree, axis: Axis, n: Path): seq<Path>
    requires In(t, n)
  {
    match axis
    case Ancestor => Ancestors(n)
    case AncestorOrSelf => [n] + Ancestors(n)
    case Child => ChildrenFrom(t, n, 0)
    case Descendant => Descendants(t, n)
    case DescendantOrSelf => Preorder(t, n)
    case FollowingAxis => Following(t, n)
    case FollowingSibling =>
      if n == [] then [] else IsChild(t, n); ChildrenFrom(t, Up(n), Last(n) + 1)
    case ParentAxis => if n == [] then [] else [Up(n)]
    case PrecedingAxis => Preceding(t, n)
    case PrecedingSibling => if n == [] then [] else ChildrenBelow(Up(n), Last(n))
    case SelfAxis => [n]
  }

  /** The nodes that pass the node test. */
  ghost function Passing(s: seq<Path>, test: Path -> bool): seq<Path>
  {
    if s == [] then []
    else (if test(s[0]) then [s[0]] else []) + Passing(s[1..], test)
  }

  lemma {:induction false} PassingConcat(a: seq<Path>, b: seq<Path>, test: Path -> bool)
    ensures Passing(a + b, test) == Passing(a, test) + Passing(b, test)
    decreases |a|
  {
    if a == [] {
      assert a + b == b;
    } else {
      assert (a + b)[1..] == a[1..] + b;
      PassingConcat(a[1..], b, test);
    }
  }

  /** What step_fill leaves: all of them, or with once just the first. */
  ghost function Pushed(s: seq<Path>, test: Path -> bool, once: bool): seq<Path>
  {
    var all := Passing(s, test);
    if once && all != [] then [all[0]] else all
  }

  /** Some of the nodes are pushed, rest is to come; with once, none was found so far. */
  ghost predicate Pending(out: seq<Path>, rest: seq<Path>, all: seq<Path>, test: Path -> bool, once: bool)
  {
    Passing(all, test) == out + Passing(rest, test) && (once ==> out == [])
  }

  /** step_push, and whether the walk ends here. */
  method StepPush(out: seq<Path>, p: Path, test: Path -> bool, once: bool, ghost rest: seq<Path>, ghost all: seq<Path>)
    returns (out': seq<Path>, stop: bool)
    requires Pending(out, [p] + rest, all, test, once)
    ensures stop ==> out' == Pushed(all, test, once)
    ensures !stop ==> Pending(out', rest, all, test, once)
  {
    assert ([p] + rest)[1..] == rest;
    if test(p) {
      out' := out + [p];
      stop := once;
      assert out + ([p] + Passing(rest, test)) == out' + Passing(rest, test);
    } else {
      out' := out;
      stop := false;
      assert [] + Passing(rest, test) == Passing(rest, test);
    }
  }

  lemma PendingEnd(out: seq<Path>, all: seq<Path>, test: Path -> bool, once: bool)
    requires Pending(out, [], all, test, once)
    ensures out == Pushed(all, test, once)
  {
    assert out + [] == out;
  }

  lemma PendingStart(all: seq<Path>, test: Path -> bool, once: bool)
    ensures Pending([], all, all, test, once)
  {
  }

  // ----- climbing

  /** What follows p's subtree inside the subtree of its ancestor at depth d. */
  ghost function RestIn(t: Tree, d: nat, p: Path): seq<Path>
    requires In(t, p)
    decreases |p|
  {
    if |p| <= d then [] else
      IsChild(t, p);
      Forest(t, Up(p), Last(p) + 1, Arity(t, Up(p))) + RestIn(t, d, Up(p))
  }

  lemma {:induction false} RestIsFollowing(t: Tree, p: Path)
    requires In(t, p)
    ensures RestIn(t, 0, p) == Following(t, p)
    decreases |p|
  {
    if p != [] {
      IsChild(t, p);
      RestIsFollowing(t, Up(p));
    }
  }

  /** p, its descendants and what follows them. */
  ghost function From(t: Tree, d: nat, p: Path): seq<Path>
    requires In(t, p)
  {
    Preorder(t, p) + RestIn(t, d, p)
  }

  lemma PreorderUnfold(t: Tree, p: Path)
    requires In(t, p)
    ensures Arity(t, p) == 0 ==> Preorder(t, p) == [p]
    ensures Arity(t, p) > 0 ==> In(t, p + [0]) && Preorder(t, p) == [p] + (Preorder(t, p + [0]) + Forest(t, p, 1, Arity(t, p)))
    ensures Preorder(t, p)[1..] == Descendants(t, p)
  {
    if Arity(t, p) > 0 {
      InChild(t, p, 0);
    }
  }

  /** After p comes its first child, if there is one, else what follows it. */
  lemma {:induction false} FromUnfold(t: Tree, d: nat, p: Path)
    requires In(t, p) && d <= |p|
    ensures FirstChild(t, p).Ptr? ==> In(t, p + [0]) && From(t, d, p) == [p] + From(t, d, p + [0])
    ensures FirstChild(t, p).Null? ==> From(t, d, p) == [p] + RestIn(t, d, p)
  {
    hide Preorder, Forest;
    PreorderUnfold(t, p);
    if Arity(t, p) > 0 {
      ChildPath(p, 0);
      var kid, kids, rest := Preorder(t, p + [0]), Forest(t, p, 1, Arity(t, p)), RestIn(t, d, p);
      Assoc([p], kid + kids, rest);
      Assoc(kid, kids, rest);
    }
  }

  /** What follows p is its next sibling and what follows that, else what follows its parent. */
  lemma {:induction false} RestUnfold(t: Tree, d: nat, p: Path)
    requires In(t, p) && d < |p|
    ensures In(t, Up(p))
    ensures NextSibling(t, p).Ptr? ==>
      In(t, NextSibling(t, p).path) && |NextSibling(t, p).path| == |p| && RestIn(t, d, p) == From(t, d, NextSibling(t, p).path)
    ensures NextSibling(t, p).Null? ==> RestIn(t, d, p) == RestIn(t, d, Up(p))
  {
    hide Preorder;
    IsChild(t, p);
    var u, i, n := Up(p), Last(p) + 1, Arity(t, Up(p));
    if i < n {
      InChild(t, u, i);
      ChildPath(u, i);
      Assoc(Preorder(t, u + [i]), Forest(t, u, i + 1, n), RestIn(t, d, u));
    } else {
      assert Forest(t, u, i, n) == [];
    }
  }

  /** Climbs from cur until there is a next sibling; stops with Null at depth d. */
  method Climb(t: Tree, d: nat, start: Path) returns (next: Pointer)
    requires In(t, start) && d <= |start|
    ensures next.Null? ==> RestIn(t, d, start) == []
    ensures next.Ptr? ==> In(t, next.path) && d < |next.path| && RestIn(t, d, start) == From(t, d, next.path)
  {
    var cur := start;
    while true
      invariant In(t, cur) && d <= |cur| && RestIn(t, d, cur) == RestIn(t, d, start)
      decreases |cur|
    {
      if |cur| == d { return Null; }
      RestUnfold(t, d, cur);
      var sibling := NextSibling(t, cur);
      if sibling.Ptr? { return sibling; }
      cur := Up(cur);
    }
  }

  /** The forward walk from first on, up to depth d. */
  method WalkForward(t: Tree, d: nat, first: Pointer, out0: seq<Path>, test: Path -> bool, once: bool, ghost all: seq<Path>)
    returns (out: seq<Path>)
    requires first.Ptr? ==> In(t, first.path) && d < |first.path|
    requires Pending(out0, if first.Ptr? then From(t, d, first.path) else [], all, test, once)
    ensures out == Pushed(all, test, once)
  {
    hide Pending, Pushed, From, RestIn;
    out := out0;
    var cur := first;
    while cur.Ptr?
      invariant cur.Ptr? ==> In(t, cur.path) && d < |cur.path|
      invariant Pending(out, if cur.Ptr? then From(t, d, cur.path) else [], all, test, once)
      decreases cur.Ptr?, if cur.Ptr? then |From(t, d, cur.path)| else 0
    {
      var p := cur.path;
      FromUnfold(t, d, p);
      var child := FirstChild(t, p);
      ghost var rest := if child.Ptr? then From(t, d, child.path) else RestIn(t, d, p);
      var stop;
      out, stop := StepPush(out, p, test, once, rest, all);
      if stop { return; }
      if child.Ptr? {
        cur := child;
      } else {
        cur := Climb(t, d, p);
      }
    }
    PendingEnd(out, all, test, once);
  }

  /** The descendants are what the forward walk from the first child meets. */
  lemma {:induction false} BelowIs(t: Tree, n: Path)
    requires In(t, n)
    ensures var first := FirstChild(t, n);
      && (first.Ptr? ==> In(t, first.path) && |n| < |first.path|)
      && Descendants(t, n) == if first.Ptr? then From(t, |n|, first.path) else []
    ensures Preorder(t, n) == [n] + Descendants(t, n)
  {
    hide Preorder, Forest;
    PreorderUnfold(t, n);
    FromUnfold(t, |n|, n);
    FirstChildIn(t, n);
    ChildPath(n, 0);
    assert From(t, |n|, n) == Preorder(t, n);
    assert Preorder(t, n)[..1] == [n] by { PreorderHead(t, n); }
  }

  lemma PreorderHead(t: Tree, n: Path)
    requires In(t, n)
    ensures |Preorder(t, n)| > 0 && Preorder(t, n)[0] == n
  {
  }

  method DescendantWalk(t: Tree, n: Path, orSelf: bool, test: Path -> bool, once: bool) returns (out: seq<Path>)
    requires In(t, n)
    ensures out == Pushed(AxisNodes(t, if orSelf then DescendantOrSelf else Descendant, n), test, once)
  {
    hide Pending, Pushed, From, Preorder, Descendants;
    ghost var all := AxisNodes(t, if orSelf then DescendantOrSelf else Descendant, n);
    PendingStart(all, test, once);
    BelowIs(t, n);
    out := [];
    if orSelf {
      var stop;
      out, stop := StepPush(out, n, test, once, Descendants(t, n), all);
      if stop { return; }
    }
    out := WalkForward(t, |n|, FirstChild(t, n), out, test, once, all);
  }

  method FollowingWalk(t: Tree, n: Path, test: Path -> bool, once: bool) returns (out: seq<Path>)
    requires In(t, n)
    ensures out == Pushed(AxisNodes(t, FollowingAxis, n), test, once)
  {
    ghost var all := Following(t, n);
    PendingStart(all, test, once);
    RestIsFollowing(t, n);
    var first := Climb(t, 0, n);
    out := WalkForward(t, 0, first, [], test, once, all);
  }

  // ----- backwards

  /**
   What is left of the preceding axis of n once p and its subtree are dealt with:
   earlier siblings, then the parent (unless it is an ancestor of n), and so on.
   */
  ghost function Earlier(t: Tree, n: Path, p: Path): seq<Path>
    requires In(t, p)
    decreases |p|
  {
    if p == [] then [] else
      IsChild(t, p);
      ForestBack(t, Up(p), Last(p)) + ((if Up(p) <= n then [] else [Up(p)]) + Earlier(t, n, Up(p)))
  }

  lemma {:induction false} EarlierIsPreceding(t: Tree, n: Path, p: Path)
    requires In(t, p) && p <= n
    ensures Earlier(t, n, p) == Preceding(t, p)
    decreases |p|
  {
    if p != [] {
      IsChild(t, p);
      assert Up(p) == n[..|p| - 1];
      EarlierIsPreceding(t, n, Up(p));
      assert [] + Earlier(t, n, Up(p)) == Earlier(t, n, Up(p));
    }
  }

  /** p's subtree backwards and then what is left. */
  ghost function FromBack(t: Tree, n: Path, p: Path): seq<Path>
    requires In(t, p)
  {
    Postorder(t, p) + Earlier(t, n, p)
  }

  lemma PostorderUnfold(t: Tree, p: Path)
    requires In(t, p)
    ensures Arity(t, p) == 0 ==> Postorder(t, p) == [p]
    ensures var k := Arity(t, p);
      k > 0 ==> In(t, p + [k - 1]) && Postorder(t, p) == Postorder(t, p + [k - 1]) + ForestBack(t, p, k - 1) + [p]
  {
    if Arity(t, p) > 0 {
      InChild(t, p, Arity(t, p) - 1);
    }
  }

  /** A node's last child comes first; a leaf is pushed itself. */
  lemma {:induction false} FromBackUnfold(t: Tree, n: Path, p: Path)
    requires In(t, p) && !(p <= n)
    ensures Arity(t, p) == 0 ==> FromBack(t, n, p) == [p] + Earlier(t, n, p)
    ensures var k := Arity(t, p);
      k > 0 ==> In(t, p + [k - 1]) && FromBack(t, n, p) == FromBack(t, n, p + [k - 1])
  {
    hide Postorder, ForestBack, Earlier, Sub;
    PostorderUnfold(t, p);
    var k := Arity(t, p);
    if k > 0 {
      EarlierOfLast(t, n, p);
      var kid, kids, rest := Postorder(t, p + [k - 1]), ForestBack(t, p, k - 1), Earlier(t, n, p);
      Assoc(kid + kids, [p], rest);
      Assoc(kid, kids, [p] + rest);
    }
  }

  lemma {:induction false} EarlierOfLast(t: Tree, n: Path, p: Path)
    requires In(t, p) && !(p <= n) && Arity(t, p) > 0
    ensures var k := Arity(t, p);
      In(t, p + [k - 1]) && Earlier(t, n, p + [k - 1]) == ForestBack(t, p, k - 1) + ([p] + Earlier(t, n, p))
  {
    hide ForestBack;
    InChild(t, p, Arity(t, p) - 1);
    ChildPath(p, Arity(t, p) - 1);
  }

  /** What is left after p begins with its previous sibling, else it concerns the parent. */
  lemma {:induction false} EarlierUnfold(t: Tree, n: Path, p: Path)
    requires In(t, p) && p != []
    ensures In(t, Up(p))
    ensures Last(p) > 0 ==> In(t, Up(p) + [Last(p) - 1]) && Earlier(t, n, p) == FromBack(t, n, Up(p) + [Last(p) - 1])
    ensures Last(p) == 0 ==> Earlier(t, n, p) == (if Up(p) <= n then [] else [Up(p)]) + Earlier(t, n, Up(p))
  {
    hide Postorder;
    IsChild(t, p);
    var u, i := Up(p), Last(p);
    var rest := (if u <= n then [] else [u]) + Earlier(t, n, u);
    if i > 0 {
      InChild(t, u, i - 1);
      ChildPath(u, i - 1);
      Assoc(Postorder(t, u + [i - 1]), ForestBack(t, u, i - 1), rest);
    } else {
      assert ForestBack(t, u, 0) == [] && [] + rest == rest;
    }
  }

  /** node_is_ancestor: climbs from node until it meets parent or leaves the tree. */
  method NodeIsAncestor(parent: Path, node: Path) returns (r: bool)
    ensures r == (parent <= node)
  {
    var cur := Ptr(node);
    while cur.Ptr? && cur.path != parent
      invariant cur.Ptr? ==> cur.path <= node && (parent <= node <==> parent <= cur.path)
      invariant cur.Null? ==> !(parent <= node)
      decreases cur.Ptr?, if cur.Ptr? then |cur.path| else 0
    {
      PrefixCases(parent, cur.path);
      cur := Parent(cur.path);
    }
    r := cur.Ptr?;
  }

  /** p comes before n and is not an ancestor of it. */
  predicate Left(p: Path, n: Path)
  {
    Before(p, n) && !(p <= n)
  }

  /** Going to the previous sibling or up from a node left of n, or above it, stays there. */
  lemma StaysLeft(t: Tree, p: Path, n: Path)
    requires p != [] && (p <= n || Left(p, n))
    ensures Up(p) <= n || Left(Up(p), n)
    ensures Last(p) > 0 ==> Left(Up(p) + [Last(p) - 1], n)
  {
    var u, l := Up(p), Last(p);
    assert p == u + [l];
    if p <= n {
      assert u == n[..|u|];
    }
    PrefixCases(u, n);
    PrefixNotAfter(u + [l], n);
    Compare(u, l, n);
    if l > 0 { Compare(u, l - 1, n); }
  }

  lemma LastChildLeft(p: Path, k: nat, n: Path)
    requires Left(p, n)
    ensures Left(p + [k], n)
  {
    Compare(p, k, n);
  }

  /**
   Climbs from cur until there is a previous sibling, pushing the nodes left behind
   that are not ancestors of n; stop tells that the walk is over.
   */
  method ClimbBack(t: Tree, n: Path, start: Path, out0: seq<Path>, test: Path -> bool, once: bool, ghost all: seq<Path>)
    returns (next: Path, out: seq<Path>, stop: bool)
    requires In(t, start) && (start <= n || Left(start, n)) && Pending(out0, Earlier(t, n, start), all, test, once)
    ensures stop ==> out == Pushed(all, test, once)
    ensures !stop ==> In(t, next) && Left(next, n) && Pending(out, FromBack(t, n, next), all, test, once)
    ensures !stop ==> |FromBack(t, n, next)| <= |Earlier(t, n, start)|
  {
    hide Pending, Pushed, FromBack, Earlier, Left;
    out, stop, next := out0, false, start;
    var cur := start;
    while true
      invariant In(t, cur) && (cur <= n || Left(cur, n)) && Pending(out, Earlier(t, n, cur), all, test, once)
      invariant |Earlier(t, n, cur)| <= |Earlier(t, n, start)|
      decreases |cur|
    {
      PrevSiblingIn(t, cur);
      if cur == [] {
        EarlierRoot(t, n);
        PendingEnd(out, all, test, once);
        return next, out, true;
      }
      EarlierUnfold(t, n, cur);
      StaysLeft(t, cur, n);
      if NextSibling(t, PrevSiblingC(t, cur)).Ptr? {
        return PrevSiblingC(t, cur), out, false;
      }
      cur := Up(cur);
      var ancestor := NodeIsAncestor(cur, n);
      if ancestor {
        assert [] + Earlier(t, n, cur) == Earlier(t, n, cur);
      } else {
        out, stop := StepPush(out, cur, test, once, Earlier(t, n, cur), all);
        if stop { return; }
      }
    }
  }

  lemma EarlierRoot(t: Tree, n: Path)
    ensures Earlier(t, n, []) == []
  {
  }

  /** The preceding axis: subtrees backwards, ancestors left out. */
  method PrecedingWalk(t: Tree, n: Path, test: Path -> bool, once: bool) returns (out: seq<Path>)
    requires In(t, n)
    ensures out == Pushed(AxisNodes(t, PrecedingAxis, n), test, once)
  {
    hide Pending, Pushed, FromBack, Earlier, Left, Postorder;
    ghost var all := Preceding(t, n);
    PendingStart(all, test, once);
    EarlierIsPreceding(t, n, n);
    var cur, stop;
    cur, out, stop := ClimbBack(t, n, n, [], test, once, all);
    while !stop
      invariant stop ==> out == Pushed(all, test, once)
      invariant !stop ==> In(t, cur) && Left(cur, n) && Pending(out, FromBack(t, n, cur), all, test, once)
      decreases !stop, if stop then 0 else |FromBack(t, n, cur)|, if stop then Tree([]) else Sub(t, cur)
    {
      LeftIsNoPrefix(cur, n);
      FromBackUnfold(t, n, cur);
      var child := FirstChild(t, cur);
      if child.Ptr? {
        FirstChildIn(t, cur);
        ChildPath(cur, 0);
        LastChildLeft(cur, Arity(t, cur) - 1, n);
        InChild(t, cur, Arity(t, cur) - 1);
        cur := PrevSiblingC(t, child.path);
      } else {
        out, stop := StepPush(out, cur, test, once, Earlier(t, n, cur), all);
        if !stop {
          cur, out, stop := ClimbBack(t, n, cur, out, test, once, all);
        }
      }
    }
  }

  lemma LeftIsNoPrefix(p: Path, n: Path)
    requires Left(p, n)
    ensures !(p <= n)
  {
  }

  // ----- the short axes

  method ChildWalk(t: Tree, p: Path, first: Pointer, ghost i: nat, test: Path -> bool, once: bool) returns (out: seq<Path>)
    requires In(t, p) && i <= Arity(t, p)
    requires first == if i < Arity(t, p) then Ptr(p + [i]) else Null
    ensures out == Pushed(ChildrenFrom(t, p, i), test, once)
  {
    hide Pending, Pushed;
    ghost var all := ChildrenFrom(t, p, i);
    ghost var k := i;
    PendingStart(all, test, once);
    out := [];
    var c := first;
    while c.Ptr?
      invariant i <= k <= Arity(t, p) && c == if k < Arity(t, p) then Ptr(p + [k]) else Null
      invariant Pending(out, ChildrenFrom(t, p, k), all, test, once)
      decreases Arity(t, p) - k
    {
      InChild(t, p, k);
      ChildPath(p, k);
      var stop;
      out, stop := StepPush(out, c.path, test, once, ChildrenFrom(t, p, k + 1), all);
      if stop { return; }
      c := NextSibling(t, c.path);
      k := k + 1;
    }
    PendingEnd(out, all, test, once);
  }

  /** The pointers of child i of u. */
  lemma SiblingOf(t: Tree, u: Path, i: nat)
    requires In(t, u) && i < Arity(t, u)
    ensures In(t, u + [i])
    ensures PrevSiblingC(t, u + [i]) == u + [if i == 0 then Arity(t, u) - 1 else i - 1]
    ensures NextSibling(t, u + [i]).Ptr? <==> i + 1 < Arity(t, u)
  {
    hide Sub;
    InChild(t, u, i);
    ChildPath(u, i);
  }

  /** The loop runs until it has come round to the last child, which has no next sibling. */
  method PrecedingSiblingWalk(t: Tree, n: Path, test: Path -> bool, once: bool) returns (out: seq<Path>)
    requires In(t, n)
    ensures out == Pushed(AxisNodes(t, PrecedingSibling, n), test, once)
  {
    hide Pending, Pushed, NextSibling, PrevSiblingC, Sub;
    ghost var all := AxisNodes(t, PrecedingSibling, n);
    PendingStart(all, test, once);
    out := [];
    if n == [] {
      PrevSiblingIn(t, n);
      PendingEnd(out, all, test, once);
      return;
    }
    IsChild(t, n);
    ghost var u, k: nat := Up(n), Last(n);
    SiblingOf(t, u, k);
    var c := PrevSiblingC(t, n);
    SiblingOf(t, u, if k == 0 then Arity(t, u) - 1 else k - 1);
    while NextSibling(t, c).Ptr?
      invariant k < Arity(t, u) && c == u + [if k == 0 then Arity(t, u) - 1 else k - 1]
      invariant In(t, c) && (NextSibling(t, c).Ptr? <==> k > 0)
      invariant Pending(out, ChildrenBelow(u, k), all, test, once)
      decreases k
    {
      var stop;
      out, stop := StepPush(out, c, test, once, ChildrenBelow(u, k - 1), all);
      if stop { return; }
      SiblingOf(t, u, k - 1);
      c := PrevSiblingC(t, c);
      k := k - 1;
      SiblingOf(t, u, if k == 0 then Arity(t, u) - 1 else k - 1);
    }
    PendingEnd(out, all, test, once);
  }

  method AncestorWalk(n: Path, orSelf: bool, test: Path -> bool, once: bool) returns (out: seq<Path>)
    ensures out == Pushed(if orSelf then [n] + Ancestors(n) else Ancestors(n), test, once)
  {
    hide Pending, Pushed;
    ghost var all := if orSelf then [n] + Ancestors(n) else Ancestors(n);
    PendingStart(all, test, once);
    out := [];
    var stop;
    if orSelf {
      out, stop := StepPush(out, n, test, once, Ancestors(n), all);
      if stop { return; }
    }
    var p := n;
    while p != []
      invariant Pending(out, Ancestors(p), all, test, once)
      decreases |p|
    {
      out, stop := StepPush(out, Up(p), test, once, Ancestors(Up(p)), all);
      if stop { return; }
      p := Up(p);
    }
    PendingEnd(out, all, test, once);
  }

  lemma PushedOne(p: Path, test: Path -> bool, once: bool)
    ensures Pushed([p], test, once) == if test(p) then [p] else []
    ensures Pushed([], test, once) == []
  {
    assert Passing([p], test) == (if test(p) then [p] else []) + Passing([], test);
  }

  /** step_fill: for every axis, exactly its nodes that pass the test, in its order. */
  method StepFill(t: Tree, axis: Axis, n: Path, test: Path -> bool, once: bool) returns (out: seq<Path>)
    requires In(t, n)
    ensures out == Pushed(AxisNodes(t, axis, n), test, once)
  {
    hide Pushed;
    PushedOne(n, test, once);
    match axis
    case Ancestor => out := AncestorWalk(n, false, test, once);
    case AncestorOrSelf => out := AncestorWalk(n, true, test, once);
    case Child =>
      out := ChildWalk(t, n, FirstChild(t, n), 0, test, once);
    case Descendant => out := DescendantWalk(t, n, false, test, once);
    case DescendantOrSelf => out := DescendantWalk(t, n, true, test, once);
    case FollowingAxis => out := FollowingWalk(t, n, test, once);
    case FollowingSibling =>
      if n == [] {
        out := [];
      } else {
        IsChild(t, n);
        out := ChildWalk(t, Up(n), NextSibling(t, n), Last(n) + 1, test, once);
      }
    case ParentAxis =>
      out := [];
      if n != [] {
        PushedOne(Up(n), test, once);
        out := if test(Up(n)) then [Up(n)] else [];
      }
    case PrecedingAxis => out := PrecedingWalk(t, n, test, once);
    case PrecedingSibling => out := PrecedingSiblingWalk(t, n, test, once);
    case SelfAxis => out := if test(n) then [n] else [];
  }
}
