/**
 Copying a subtree without recursion, possibly into itself: the copy has the shape that
 the source had before the place for the copy was made.
 */
module DomCopy {
  import opened DomLinks
  import opened Dom

  /** The tree before anything is copied: sn is to be copied to dn, a node without children. */
  datatype Source = Source(h: Links, kids: Kids, rank: map<Node, nat>, sn: Node, dn: Node)

  /** The child lists at present, the copies made so far, and how many children of each copied node have been passed. */
  datatype Copying = Copying(kids: Kids, image: map<Node, Node>, pos: map<Node, nat>)

  ghost predicate Good(s: Source)
  {
    && Forest(s.h, s.kids) && Ranked(s.h, s.rank) && s.sn in s.h && s.dn in s.h && s.sn != s.dn && s.kids[s.dn] == []
  }

  /** The copies of the nodes of xs, leaving out dn, which is no part of the source. */
  function Copies(image: map<Node, Node>, xs: seq<Node>, dn: Node): seq<Node>
  {
    if xs == [] then []
    else
      var x := xs[|xs| - 1];
      Copies(image, xs[..|xs| - 1], dn) + if x != dn && x in image then [image[x]] else []
  }

  /** The first pos[x] children of x have been copied below the copy of x. */
  ghost predicate Copied(s: Source, t: Copying, x: Node)
  {
    && x in t.image && x in s.kids && x in t.pos && t.pos[x] <= |s.kids[x]| && t.image[x] in t.kids
    && (forall i | 0 <= i < t.pos[x] && s.kids[x][i] != s.dn :: s.kids[x][i] in t.image)
    && t.kids[t.image[x]] == Copies(t.image, s.kids[x][..t.pos[x]], s.dn)
  }

  /** x is one of its parent's children that have been passed. */
  ghost predicate Passed(s: Source, t: Copying, x: Node)
  {
    && x in s.h && s.h[x].parent in t.image && s.h[x].parent in t.pos && s.h[x].parent in s.kids
    && t.pos[s.h[x].parent] <= |s.kids[s.h[x].parent]| && x in s.kids[s.h[x].parent][..t.pos[s.h[x].parent]]
  }

  /** x lies at or below sn, and unless it is sn, its copy is a new node. */
  ghost predicate Imaged(s: Source, t: Copying, x: Node)
    requires Good(s)
  {
    && x in t.image && x in s.h && s.sn in Above(s.h, s.rank, x)
    && (x != s.sn ==> t.image[x] !in s.h && Passed(s, t, x))
  }

  /** The copies are new nodes, one for each node copied, dn being the copy of sn; nothing else has changed. */
  ghost predicate Images(s: Source, t: Copying)
    requires Good(s)
  {
    && t.image.Keys <= s.h.Keys && t.pos.Keys == t.image.Keys
    && s.sn in t.image && t.image[s.sn] == s.dn && s.dn !in t.image
    && (forall x | x in t.image :: Imaged(s, t, x))
    && (forall x, y | x in t.image && y in t.image && t.image[x] == t.image[y] :: x == y)
    && (forall n | n in s.h && n != s.dn :: n in t.kids && t.kids[n] == s.kids[n])
  }

  /** The last child passed of x's parent is x. */
  ghost predicate OnWay(s: Source, t: Copying, x: Node)
  {
    && x in s.h && s.h[x].parent in t.pos && s.h[x].parent in s.kids
    && 0 < t.pos[s.h[x].parent] <= |s.kids[s.h[x].parent]| && s.kids[s.h[x].parent][t.pos[s.h[x].parent] - 1] == x
  }

  /** Every node copied that is not at or above p is finished; those that are lie on the way to p. */
  ghost predicate Way(s: Source, t: Copying, p: Node)
    requires Good(s) && p in s.h
  {
    && t.image.Keys <= s.h.Keys && t.pos.Keys == t.image.Keys
    && forall x | x in t.image ::
      if x in Above(s.h, s.rank, p) then x == s.sn || OnWay(s, t, x) else x in s.kids && t.pos[x] == |s.kids[x]|
  }

  /** The traversal is at the children of p. */
  ghost predicate Walk(s: Source, t: Copying, p: Node)
  {
    Good(s) && Images(s, t) && p in t.image && Way(s, t, p) && forall x | x in t.image :: Copied(s, t, x)
  }

  // ----- copies of lists

  lemma {:induction false} CopiesKept(image: map<Node, Node>, xs: seq<Node>, dn: Node, x: Node, c: Node)
    requires x !in xs
    ensures Copies(image[x := c], xs, dn) == Copies(image, xs, dn)
    decreases |xs|
  {
    if xs != [] {
      assert xs[|xs| - 1] in xs;
      CopiesKept(image, xs[..|xs| - 1], dn, x, c);
    }
  }

  lemma CopiesNext(image: map<Node, Node>, xs: seq<Node>, dn: Node, k: nat)
    requires k < |xs|
    ensures Copies(image, xs[..k + 1], dn) ==
      Copies(image, xs[..k], dn) + if xs[k] != dn && xs[k] in image then [image[xs[k]]] else []
  {
    assert xs[..k + 1][..k] == xs[..k];
  }

  lemma {:induction false} CopiesHas(image: map<Node, Node>, xs: seq<Node>, dn: Node, x: Node)
    requires x in xs && x != dn && x in image
    ensures image[x] in Copies(image, xs, dn)
    decreases |xs|
  {
    if x != xs[|xs| - 1] { CopiesHas(image, xs[..|xs| - 1], dn, x); }
  }

  // ----- the steps of the traversal

  function Begun(s: Source): Copying
  {
    Copying(s.kids, map[s.sn := s.dn], map[s.sn := 0])
  }

  lemma WalkStart(s: Source)
    requires Good(s)
    ensures Walk(s, Begun(s), s.sn)
  {
    hide Images, Way, Copied, Good;
    StartImages(s);
    StartWay(s);
    StartCopied(s);
  }

  lemma StartImages(s: Source)
    requires Good(s)
    ensures Images(s, Begun(s))
  {
    hide Passed, Listed, Attached;
    AboveStep(s.h, s.rank, s.sn);
    assert s.kids.Keys == s.h.Keys;
    hide Forest, Ranked, Above;
  }

  lemma StartWay(s: Source)
    requires Good(s)
    ensures Way(s, Begun(s), s.sn)
  {
    hide OnWay, Forest;
    AboveStep(s.h, s.rank, s.sn);
  }

  lemma StartCopied(s: Source)
    requires Good(s)
    ensures Copied(s, Begun(s), s.sn)
  {
    hide Listed, Attached, Ranked;
    assert s.kids[s.sn][..0] == [];
  }

  lemma Later<T>(xs: seq<T>, k: nat)
    requires k < |xs| && forall i, j | 0 <= i < j < |xs| :: xs[i] != xs[j]
    ensures xs[k] !in xs[..k]
  {
    forall i | 0 <= i < k ensures xs[..k][i] != xs[k] { assert xs[..k][i] == xs[i]; }
  }

  /** p's next child. */
  ghost predicate AtChild(s: Source, t: Copying, p: Node, sit: Node)
  {
    p in t.pos && p in s.kids && t.pos[p] < |s.kids[p]| && s.kids[p][t.pos[p]] == sit
  }

  /** It has not been copied before. */
  lemma NotAgain(s: Source, t: Copying, p: Node, sit: Node)
    requires Walk(s, t, p) && AtChild(s, t, p, sit)
    ensures sit in s.h && s.h[sit].parent == p && sit !in t.image && sit !in s.kids[p][..t.pos[p]]
  {
    hide Copied, Way;
    assert Listed(s.h, p, s.kids[p]);
    ChildOf(s.h, p, s.kids[p], sit);
    AboveRanks(s.h, s.rank, p, s.sn);
    Later(s.kids[p], t.pos[p]);
    assert sit != s.sn;
    assert sit in t.image ==> Passed(s, t, sit);
  }

  /** The next child's copy c becomes the last child of its parent's copy. */
  function WithCopy(t: Copying, p: Node, sit: Node, c: Node): Copying
    requires p in t.image && t.image[p] in t.kids && p in t.pos
  {
    Copying(Grown(t.kids, c, t.image[p], |t.kids[t.image[p]]|), t.image[sit := c], t.pos[p := t.pos[p] + 1][sit := 0])
  }

  ghost predicate CanCopy(s: Source, t: Copying, p: Node, sit: Node, c: Node)
  {
    && Walk(s, t, p) && AtChild(s, t, p, sit) && sit != s.dn && t.image[p] in t.kids
    && c !in s.h && c !in t.kids && (forall x | x in t.image :: t.image[x] != c)
  }

  /** t' is t with c as the copy of sit, the next child of p. */
  ghost predicate Stepped(s: Source, t: Copying, t': Copying, p: Node, sit: Node, c: Node)
  {
    && sit in s.h && s.h[sit].parent == p && sit in s.kids && p in s.kids && sit !in t.image && sit != s.sn && sit != s.dn && p != sit
    && p in t.image && p in t.pos && t.image[p] in t.kids && c != t.image[p] && c !in t.kids && c !in s.h
    && AtChild(s, t, p, sit)
    && t'.kids.Keys == t.kids.Keys + {c} && t'.kids[c] == [] && t'.kids[t.image[p]] == t.kids[t.image[p]] + [c]
    && (forall n | n in t.kids && n != t.image[p] :: t'.kids[n] == t.kids[n])
    && t'.image == t.image[sit := c] && t'.pos == t.pos[p := t.pos[p] + 1][sit := 0]
  }

  lemma StepIs(s: Source, t: Copying, p: Node, sit: Node, c: Node)
    requires CanCopy(s, t, p, sit, c)
    ensures Stepped(s, t, WithCopy(t, p, sit, c), p, sit, c)
  {
    NotAgain(s, t, p, sit);
    InKids(s, t, p, sit);
    ImageIn(s, t, p, sit, c);
    hide *;
    GrownLast(t.kids, c, t.image[p]);
    MakeStep(s, t, p, sit, c);
  }

  lemma ImageIn(s: Source, t: Copying, p: Node, sit: Node, c: Node)
    requires CanCopy(s, t, p, sit, c)
    ensures p in t.image && p in t.pos && p in s.kids && t.image[p] in t.kids && t.image[p] != c && c !in t.kids && c !in s.h
    ensures AtChild(s, t, p, sit) && sit != s.dn
  {
    hide Images, Way, Good, Copied;
  }

  lemma GrownLast(kids: Kids, c: Node, q: Node)
    requires q in kids && c != q
    ensures var ks := Grown(kids, c, q, |kids[q]|);
      && ks.Keys == kids.Keys + {c} && ks[c] == [] && ks[q] == kids[q] + [c]
      && forall n | n in kids && n != q && n != c :: ks[n] == kids[n]
  {
    assert InsertAt(kids[q], |kids[q]|, c) == kids[q] + [c];
  }

  lemma MakeStep(s: Source, t: Copying, p: Node, sit: Node, c: Node)
    requires sit in s.h && s.h[sit].parent == p && sit in s.kids && p in s.kids && sit !in t.image && sit != s.sn && sit != s.dn
    requires p != sit && p in t.image && p in t.pos && t.image[p] in t.kids && c != t.image[p] && c !in t.kids && c !in s.h
    requires AtChild(s, t, p, sit)
    requires var ks := Grown(t.kids, c, t.image[p], |t.kids[t.image[p]]|);
      && ks.Keys == t.kids.Keys + {c} && ks[c] == [] && ks[t.image[p]] == t.kids[t.image[p]] + [c]
      && forall n | n in t.kids && n != t.image[p] && n != c :: ks[n] == t.kids[n]
    ensures Stepped(s, t, WithCopy(t, p, sit, c), p, sit, c)
  {
    hide Grown, AtChild;
  }

  lemma InKids(s: Source, t: Copying, p: Node, sit: Node)
    requires Walk(s, t, p) && AtChild(s, t, p, sit)
    ensures sit in s.kids && p != sit && sit != s.sn
  {
    NotAgain(s, t, p, sit);
    hide Copied, Way;
  }

  lemma CopyStep(s: Source, t: Copying, p: Node, sit: Node, c: Node)
    requires CanCopy(s, t, p, sit, c)
    ensures Walk(s, WithCopy(t, p, sit, c), sit)
  {
    var t' := WithCopy(t, p, sit, c);
    StepIs(s, t, p, sit, c);
    hide WithCopy, Images, Way, Copied, Stepped, Good;
    CopyImages(s, t, t', p, sit, c);
    CopyWay(s, t, t', p, sit, c);
    Injective(s, t, p);
    forall x | x in t'.image ensures Copied(s, t', x) {
      StepHas(s, t, t', p, sit, c, x);
      CopyEach(s, t, t', p, sit, c, x);
    }
    StepHas(s, t, t', p, sit, c, sit);
  }

  lemma StepHas(s: Source, t: Copying, t': Copying, p: Node, sit: Node, c: Node, x: Node)
    requires Stepped(s, t, t', p, sit, c)
    ensures x in t'.image <==> x in t.image || x == sit
  {
  }

  lemma Injective(s: Source, t: Copying, p: Node)
    requires Walk(s, t, p)
    ensures forall x | x in t.image && x != p :: t.image[x] != t.image[p]
  {
    hide Copied, Way, Good;
  }

  lemma CopyEach(s: Source, t: Copying, t': Copying, p: Node, sit: Node, c: Node, x: Node)
    requires Stepped(s, t, t', p, sit, c) && (x == sit || Copied(s, t, x))
    requires x in t.image && x != p ==> t.image[x] != t.image[p]
    ensures Copied(s, t', x)
  {
    if x == sit {
      assert s.kids[sit][..0] == [];
    } else {
      NotYetThere(s, t, x, sit);
      CopiesKept(t.image, s.kids[x][..t.pos[x]], s.dn, sit, c);
      if x == p { CopiesNext(t'.image, s.kids[p], s.dn, t.pos[p]); }
    }
  }

  lemma NotYetThere(s: Source, t: Copying, x: Node, sit: Node)
    requires Copied(s, t, x) && sit !in t.image && sit != s.dn
    ensures sit !in s.kids[x][..t.pos[x]]
  {
    forall i | 0 <= i < t.pos[x] ensures s.kids[x][..t.pos[x]][i] != sit {
      assert s.kids[x][..t.pos[x]][i] == s.kids[x][i];
    }
  }

  lemma CopyImages(s: Source, t: Copying, t': Copying, p: Node, sit: Node, c: Node)
    requires CanCopy(s, t, p, sit, c) && Stepped(s, t, t', p, sit, c)
    ensures Good(s) && Images(s, t')
  {
    hide Way, Copied, Forest, Ranked, Above, AtChild, Imaged;
    assert t.pos.Keys == t.image.Keys && t.image.Keys <= s.h.Keys && p in t.image;
    forall x | x in t'.image ensures Imaged(s, t', x) {
      CopyImaged(s, t, t', p, sit, c, x);
    }
    CopyRest(s, t, t', p, sit, c);
    CopyInjective(s, t, t', p, sit, c);
  }

  lemma CopyInjective(s: Source, t: Copying, t': Copying, p: Node, sit: Node, c: Node)
    requires CanCopy(s, t, p, sit, c) && Stepped(s, t, t', p, sit, c)
    ensures forall x, y | x in t'.image && y in t'.image && t'.image[x] == t'.image[y] :: x == y
  {
    hide Way, Copied, Forest, Ranked, Above, AtChild, Imaged, Good;
  }

  lemma CopyImaged(s: Source, t: Copying, t': Copying, p: Node, sit: Node, c: Node, x: Node)
    requires Good(s) && Imaged(s, t, p) && Stepped(s, t, t', p, sit, c) && t.pos.Keys == t.image.Keys
    requires x == sit || Imaged(s, t, x)
    ensures Imaged(s, t', x)
  {
    hide Forest;
    AboveStep(s.h, s.rank, sit);
    hide Passed, AtChild, Above, Ranked;
    if x != s.sn { CopyPassed(s, t, t', p, sit, c, x); }
  }

  lemma CopyRest(s: Source, t: Copying, t': Copying, p: Node, sit: Node, c: Node)
    requires CanCopy(s, t, p, sit, c) && Stepped(s, t, t', p, sit, c)
    ensures forall n | n in s.h && n != s.dn :: n in t'.kids && t'.kids[n] == s.kids[n]
  {
    hide Way, Copied, Forest, Ranked, Above, AtChild, Passed;
    assert Imaged(s, t, p);
  }

  lemma CopyPassed(s: Source, t: Copying, t': Copying, p: Node, sit: Node, c: Node, x: Node)
    requires Stepped(s, t, t', p, sit, c) && (x == sit || (Passed(s, t, x) && t.pos.Keys == t.image.Keys))
    ensures Passed(s, t', x)
  {
    assert s.kids[p][..t.pos[p] + 1] == s.kids[p][..t.pos[p]] + [sit];
  }

  lemma CopyWay(s: Source, t: Copying, t': Copying, p: Node, sit: Node, c: Node)
    requires CanCopy(s, t, p, sit, c) && Stepped(s, t, t', p, sit, c)
    ensures Good(s) && sit in s.h && Way(s, t', sit)
  {
    hide Copied, Images, Forest, Above;
    AboveStep(s.h, s.rank, sit);
    assert t'.image.Keys <= s.h.Keys && t'.pos.Keys == t'.image.Keys;
    forall x | x in t'.image
      ensures if x in Above(s.h, s.rank, sit) then x == s.sn || OnWay(s, t', x) else x in s.kids && t'.pos[x] == |s.kids[x]| {
      CopyWayAt(s, t, t', p, sit, c, x);
    }
  }

  lemma CopyWayAt(s: Source, t: Copying, t': Copying, p: Node, sit: Node, c: Node, x: Node)
    requires Good(s) && p in s.h && Way(s, t, p) && Stepped(s, t, t', p, sit, c) && (x in t.image || x == sit) && x in s.h
    ensures if x in Above(s.h, s.rank, sit) then x == s.sn || OnWay(s, t', x)
            else x in t'.pos && x in s.kids && t'.pos[x] == |s.kids[x]|
  {
    hide Forest;
    AboveStep(s.h, s.rank, sit);
    AboveStep(s.h, s.rank, p);
    if x != sit {
      if x in Above(s.h, s.rank, p) {
        AboveRanks(s.h, s.rank, p, x);
        hide Above, Way;
      }
    }
  }

  // ----- leaving nodes, and the node that is no part of the source

  /** p's last child passed. */
  ghost predicate AfterChild(s: Source, t: Copying, p: Node, sit: Node)
  {
    p in t.pos && p in s.kids && 0 < t.pos[p] <= |s.kids[p]| && s.kids[p][t.pos[p] - 1] == sit
  }

  /** dn is passed without being copied. */
  lemma SkipStep(s: Source, t: Copying, p: Node)
    requires Walk(s, t, p) && AtChild(s, t, p, s.dn)
    ensures var t' := t.(pos := t.pos[p := t.pos[p] + 1]); Walk(s, t', p) && AfterChild(s, t', p, s.dn)
  {
    var t' := t.(pos := t.pos[p := t.pos[p] + 1]);
    hide Way, Images, Copied, Good;
    SkipImages(s, t, p);
    SkipWay(s, t, p);
    forall x | x in t'.image ensures Copied(s, t', x) {
      SkipEach(s, t, p, x);
    }
  }

  lemma SkipEach(s: Source, t: Copying, p: Node, x: Node)
    requires Copied(s, t, x) && AtChild(s, t, p, s.dn)
    ensures Copied(s, t.(pos := t.pos[p := t.pos[p] + 1]), x)
  {
    if x == p { CopiesNext(t.image, s.kids[p], s.dn, t.pos[p]); }
  }

  lemma SkipImages(s: Source, t: Copying, p: Node)
    requires Good(s) && Images(s, t) && p in t.image && AtChild(s, t, p, s.dn)
    ensures Images(s, t.(pos := t.pos[p := t.pos[p] + 1]))
  {
    hide Above, Forest, Ranked, Imaged;
    var t' := t.(pos := t.pos[p := t.pos[p] + 1]);
    forall x | x in t'.image ensures Imaged(s, t', x) {
      SkipImaged(s, t, p, x);
    }
  }

  lemma SkipImaged(s: Source, t: Copying, p: Node, x: Node)
    requires Good(s) && Imaged(s, t, x) && AtChild(s, t, p, s.dn)
    ensures Imaged(s, t.(pos := t.pos[p := t.pos[p] + 1]), x)
  {
    hide Above, Forest, Ranked;
    Prefix(s.kids[p], t.pos[p], x);
  }

  lemma Prefix<T>(xs: seq<T>, k: nat, x: T)
    requires k < |xs|
    ensures x in xs[..k] ==> x in xs[..k + 1]
  {
    assert xs[..k + 1] == xs[..k] + [xs[k]];
  }

  lemma SkipWay(s: Source, t: Copying, p: Node)
    requires Good(s) && p in s.h && Way(s, t, p) && p in t.image && AtChild(s, t, p, s.dn)
    ensures Way(s, t.(pos := t.pos[p := t.pos[p] + 1]), p)
  {
    hide Forest;
    var t' := t.(pos := t.pos[p := t.pos[p] + 1]);
    AboveStep(s.h, s.rank, p);
    forall x | x in t'.image
      ensures if x in Above(s.h, s.rank, p) then x == s.sn || OnWay(s, t', x) else x in s.kids && t'.pos[x] == |s.kids[x]| {
      if x in Above(s.h, s.rank, p) { AboveRanks(s.h, s.rank, p, x); }
    }
  }

  /** A node whose children have all been passed is left for its parent. */
  lemma LeaveStep(s: Source, t: Copying, p: Node)
    requires Walk(s, t, p) && p in s.kids && p in t.pos && t.pos[p] == |s.kids[p]| && p != s.sn
    ensures p in s.h && s.h[p].parent != null && Walk(s, t, s.h[p].parent) && AfterChild(s, t, s.h[p].parent, p)
  {
    hide Copied;
    assert Imaged(s, t, p);
    AboveStep(s.h, s.rank, p);
    assert OnWay(s, t, p);
    hide Images, Forest, Above, Imaged, OnWay;
  }

  /** Back at sn, with all its children passed, every node copied is finished. */
  lemma Finish(s: Source, t: Copying)
    requires Walk(s, t, s.sn) && s.sn in s.kids && s.sn in t.pos && t.pos[s.sn] == |s.kids[s.sn]|
    ensures IsCopy(s, t)
  {
    forall x | x in t.image ensures x in t.pos && x in s.kids && t.pos[x] == |s.kids[x]| && Copied(s, t, x) {
      FinishEach(s, t, x);
    }
    hide Walk, Copied, Way, Imaged, Good;
    forall x | x in t.image
      ensures x in s.kids && t.image[x] in t.kids && t.kids[t.image[x]] == Copies(t.image, s.kids[x], s.dn)
        && forall y | y in s.kids[x] && y != s.dn :: y in t.image {
      FullyCopied(s, t, x);
    }
    FinishNew(s, t);
  }

  lemma FinishEach(s: Source, t: Copying, x: Node)
    requires Walk(s, t, s.sn) && s.sn in s.kids && s.sn in t.pos && t.pos[s.sn] == |s.kids[s.sn]| && x in t.image
    ensures x in t.pos && x in s.kids && t.pos[x] == |s.kids[x]| && Copied(s, t, x)
  {
    hide Copied, Passed, Forest;
    assert Imaged(s, t, x);
    if x in Above(s.h, s.rank, s.sn) && x != s.sn {
      AboveRanks(s.h, s.rank, s.sn, x);
      AboveRanks(s.h, s.rank, x, s.sn);
    }
  }

  lemma FullyCopied(s: Source, t: Copying, x: Node)
    requires Copied(s, t, x) && t.pos[x] == |s.kids[x]|
    ensures t.kids[t.image[x]] == Copies(t.image, s.kids[x], s.dn)
    ensures forall y | y in s.kids[x] && y != s.dn :: y in t.image
  {
    assert s.kids[x][..|s.kids[x]|] == s.kids[x];
  }

  lemma FinishNew(s: Source, t: Copying)
    requires Walk(s, t, s.sn)
    ensures s.sn in t.image && t.image[s.sn] == s.dn && s.dn !in t.image && t.image.Keys <= s.h.Keys
    ensures forall x | x in t.image && x != s.sn :: t.image[x] !in s.h
    ensures forall x, y | x in t.image && y in t.image && t.image[x] == t.image[y] :: x == y
    ensures forall n | n in s.h && n != s.dn :: n in t.kids && t.kids[n] == s.kids[n]
  {
    hide Copied, Passed, Way, Above, Forest, Ranked;
    forall x | x in t.image && x != s.sn ensures t.image[x] !in s.h { assert Imaged(s, t, x); }
  }

  /** The nodes copied, sn and all below it but dn, correspond one to one to the copies, dn and new
      nodes below it, child by child and in order; the source's own lists are as before. */
  ghost predicate IsCopy(s: Source, t: Copying)
  {
    && s.sn in t.image && t.image[s.sn] == s.dn && s.dn !in t.image && t.image.Keys <= s.h.Keys
    && (forall x | x in t.image && x != s.sn :: t.image[x] !in s.h)
    && (forall x, y | x in t.image && y in t.image && t.image[x] == t.image[y] :: x == y)
    && (forall x | x in t.image :: x in s.kids && t.image[x] in t.kids
         && t.kids[t.image[x]] == Copies(t.image, s.kids[x], s.dn)
         && forall y | y in s.kids[x] && y != s.dn :: y in t.image)
    && (forall n | n in s.h && n != s.dn :: n in s.kids && n in t.kids && t.kids[n] == s.kids[n])
  }

  // ----- reading the links

  /** g, the links at present, agrees with the lists kept in t. */
  ghost predicate Tracks(s: Source, t: Copying, g: Links, rank: map<Node, nat>)
  {
    && Good(s) && Forest(g, t.kids) && Ranked(g, rank) && s.h.Keys <= g.Keys
    && ParentsKept(s.h, g)
    && (forall x | x in t.image :: t.image[x] in g)
  }

  lemma ReadNext(s: Source, t: Copying, g: Links, rank: map<Node, nat>, p: Node, sit: Node)
    requires Walk(s, t, p) && Tracks(s, t, g, rank) && AfterChild(s, t, p, sit)
    ensures sit in g && g[sit].parent == p && p in t.image && p in t.pos && p in s.kids
    ensures g[sit].next == if t.pos[p] < |s.kids[p]| then s.kids[p][t.pos[p]] else null
    ensures g[sit].next != null ==> AtChild(s, t, p, g[sit].next)
    ensures g[sit].next == null ==> t.pos[p] == |s.kids[p]|
  {
    hide *;
    SourceList(s, t, g, rank, p);
    NextInList(s, t, g, p, sit);
  }

  /** A node of the source still has the children it had, linked as they were. */
  lemma SourceList(s: Source, t: Copying, g: Links, rank: map<Node, nat>, p: Node)
    requires Walk(s, t, p) && Tracks(s, t, g, rank)
    ensures p in t.image && p in t.pos && p in s.kids && p in g && Listed(g, p, s.kids[p])
  {
    hide Copied, Way, Imaged, Ranked, Attached, Listed;
    assert p != s.dn && t.kids[p] == s.kids[p];
  }

  lemma NextInList(s: Source, t: Copying, g: Links, p: Node, sit: Node)
    requires p in t.pos && p in s.kids && Listed(g, p, s.kids[p]) && AfterChild(s, t, p, sit)
    ensures sit in g && g[sit].parent == p
    ensures g[sit].next == if t.pos[p] < |s.kids[p]| then s.kids[p][t.pos[p]] else null
    ensures g[sit].next != null ==> AtChild(s, t, p, g[sit].next)
    ensures g[sit].next == null ==> t.pos[p] == |s.kids[p]|
  {
    Around(g, p, s.kids[p], t.pos[p] - 1);
    hide Listed;
  }

  lemma ReadFirst(s: Source, t: Copying, g: Links, rank: map<Node, nat>, sit: Node)
    requires Walk(s, t, sit) && Tracks(s, t, g, rank) && sit in t.pos && t.pos[sit] == 0
    ensures sit in g && sit in s.kids && g[sit].first == if s.kids[sit] == [] then null else s.kids[sit][0]
    ensures g[sit].first != null ==> AtChild(s, t, sit, g[sit].first)
  {
    hide Copied, Way, Imaged, Ranked, Attached;
    assert t.kids[sit] == s.kids[sit];
    assert Listed(g, sit, t.kids[sit]);
    Ends(g, sit, t.kids[sit]);
  }

  lemma ReadUp(s: Source, t: Copying, g: Links, rank: map<Node, nat>, p: Node)
    requires Walk(s, t, p) && Tracks(s, t, g, rank) && p != s.sn
    ensures p in s.h && s.h[p].parent != null && s.h[p].parent in t.image
    ensures t.image[p] in g && g[t.image[p]].parent == t.image[s.h[p].parent]
  {
    hide Way, Ranked, Attached, Above;
    assert Imaged(s, t, p);
    var q: Node := s.h[p].parent;
    assert Copied(s, t, q);
    CopiesHas(t.image, s.kids[q][..t.pos[q]], s.dn, p);
    assert Listed(g, t.image[q], t.kids[t.image[q]]);
    ChildOf(g, t.image[q], t.kids[t.image[q]], t.image[p]);
  }

  lemma NotRoot(s: Source, t: Copying, p: Node, sit: Node)
    requires Walk(s, t, p) && AtChild(s, t, p, sit)
    ensures sit != s.sn && p in t.image && sit in s.h
  {
    NotAgain(s, t, p, sit);
    hide Copied, Way, Imaged, Good;
  }

  ghost predicate AllPassed(s: Source, t: Copying)
  {
    Walk(s, t, s.sn) && s.sn in s.kids && s.sn in t.pos && t.pos[s.sn] == |s.kids[s.sn]|
  }

  /** Where the traversal stands: done, back at sn, or before sit, the next child of p. */
  ghost predicate Stands(s: Source, t: Copying, p: Node, sit: Node?, dit: Node?)
  {
    if sit == null || sit == s.sn then AllPassed(s, t)
    else Walk(s, t, p) && AtChild(s, t, p, sit) && p in t.image && dit == t.image[p]
  }

  /** The inner loop of node_copy_tree: on to the next sibling, or up until there is one. */
  method Ascend(sit: Node, dit: Node, sn: Node, ghost p: Node, ghost s: Source, ghost t: Copying, ghost rank: map<Node, nat>,
                ghost all: set<Node>)
    returns (nextSit: Node, nextDit: Node?, ghost nextP: Node)
    requires sn == s.sn && p in t.image && dit == t.image[p]
    requires Walk(s, t, p) && Tracks(s, t, LinksOf(all), rank) && AfterChild(s, t, p, sit)
    ensures Stands(s, t, nextP, nextSit, nextDit)
  {
    hide Walk, Tracks, AtChild, AfterChild, AllPassed;
    nextSit, nextDit, nextP := sit, dit, p;
    ghost var g := LinksOf(all);
    TrackedRank(s, t, g, rank, p);
    while true
      invariant Walk(s, t, nextP) && AfterChild(s, t, nextP, nextSit) && nextP in t.image && nextDit == t.image[nextP]
      invariant nextP in s.rank
      decreases s.rank[nextP]
    {
      ReadNext(s, t, g, rank, nextP, nextSit);
      assert g[nextSit].next == nextSit.nextSibling && g[nextSit].parent == nextSit.parent;
      if nextSit.nextSibling != null {
        NotRoot(s, t, nextP, nextSit.nextSibling);
        nextSit := nextSit.nextSibling;
        return;
      }
      AtEnd(s, t, g, rank, nextP, nextSit);
      nextSit := nextSit.parent;
      assert g[nextDit].parent == nextDit.parent;
      nextDit := nextDit.parent;
      if nextSit == sn { return; }
      nextP := s.h[nextP].parent;
    }
  }

  lemma TrackedRank(s: Source, t: Copying, g: Links, rank: map<Node, nat>, p: Node)
    requires Walk(s, t, p) && Tracks(s, t, g, rank)
    ensures p in s.rank && p in t.image && t.image[p] in g
  {
    hide Copied, Way, Imaged, Forest;
  }

  /** After the last child of p: all is done if p is sn, and otherwise p itself has been passed. */
  lemma AtEnd(s: Source, t: Copying, g: Links, rank: map<Node, nat>, p: Node, sit: Node)
    requires Walk(s, t, p) && Tracks(s, t, g, rank) && AfterChild(s, t, p, sit) && sit in g && g[sit].next == null
    ensures g[sit].parent == p && p in t.image && t.image[p] in g && p in s.rank && p in s.h
    ensures p == s.sn ==> AllPassed(s, t)
    ensures p != s.sn ==> s.h[p].parent != null && s.h[p].parent in t.image && g[t.image[p]].parent == t.image[s.h[p].parent]
    ensures p != s.sn ==> Walk(s, t, s.h[p].parent) && AfterChild(s, t, s.h[p].parent, p)
    ensures p != s.sn ==> s.h[p].parent in s.rank && s.rank[s.h[p].parent] < s.rank[p]
  {
    ReadNext(s, t, g, rank, p, sit);
    TrackedRank(s, t, g, rank, p);
    if p != s.sn {
      ReadUp(s, t, g, rank, p);
      LeaveStep(s, t, p);
      assert Good(s) by { hide Images, Copied, Way; }
    }
    hide Walk, Tracks, Forest;
  }

  lemma CanCopyHere(s: Source, t: Copying, g: Links, rank: map<Node, nat>, p: Node, sit: Node, c: Node)
    requires Walk(s, t, p) && Tracks(s, t, g, rank) && AtChild(s, t, p, sit) && sit != s.dn && c !in g
    ensures CanCopy(s, t, p, sit, c) && t.kids.Keys == g.Keys
  {
    hide Way, Imaged, Good;
    assert Copied(s, t, p);
  }

  lemma TracksGrown(s: Source, t: Copying, g: Links, rank: map<Node, nat>, p: Node, sit: Node, c: Node, f: Links)
    requires CanCopy(s, t, p, sit, c) && Tracks(s, t, g, rank) && t.image[p] in rank && t.kids.Keys == g.Keys
    requires IsGrown(g, f, t.kids, rank, c, t.image[p], |t.kids[t.image[p]]|)
    ensures Tracks(s, WithCopy(t, p, sit, c), f, rank[c := rank[t.image[p]] + 1])
  {
    hide Forest, Ranked, Good, Walk, Grown;
  }

  /** allocate a copy of sit as the last child of dit */
  method CopyOne(sit: Node, dit: Node, ghost p: Node, ghost s: Source, ghost t: Copying, ghost rank: map<Node, nat>,
                 ghost all: set<Node>)
    returns (copy: Node, ghost t': Copying, ghost rank': map<Node, nat>, ghost all': set<Node>)
    requires Walk(s, t, p) && Tracks(s, t, LinksOf(all), rank) && AtChild(s, t, p, sit) && sit != s.dn
    requires p in t.image && dit == t.image[p] && sit in all
    modifies all`parent, all`firstChild, all`prevSibling, all`nextSibling
    ensures fresh(copy) && all' == all + {copy} && copy.kind == sit.kind && copy.content == sit.content
    ensures Walk(s, t', sit) && Tracks(s, t', LinksOf(all'), rank') && Extends(t, t', sit, copy)
  {
    hide *;
    ghost var g := LinksOf(all);
    TracksForest(s, t, g, rank, p);
    copy, all' := NewLast(sit.kind, dit, all, t.kids, rank);
    copy.content := sit.content;
    t', rank' := CopyDone(s, t, g, rank, p, sit, copy, LinksOf(all'));
  }

  /** The copy of sit is new; nothing else has been copied. */
  ghost predicate Extends(t: Copying, t': Copying, sit: Node, c: Node)
  {
    sit !in t.image && t'.image == t.image[sit := c] && sit in t'.pos && t'.pos[sit] == 0
  }

  lemma TracksForest(s: Source, t: Copying, g: Links, rank: map<Node, nat>, p: Node)
    requires Walk(s, t, p) && Tracks(s, t, g, rank)
    ensures Forest(g, t.kids) && Ranked(g, rank) && t.kids.Keys == g.Keys
    ensures p in t.image && p in t.pos && t.image[p] in g && t.image[p] in rank && t.image[p] in t.kids
  {
    TrackedRank(s, t, g, rank, p);
    hide Walk, Good, Attached, Listed;
    WalkPos(s, t, p);
  }

  lemma WalkPos(s: Source, t: Copying, p: Node)
    requires Walk(s, t, p)
    ensures p in t.pos
  {
    hide Good, Way, Imaged, Copied;
  }

  lemma CopyDone(s: Source, t: Copying, g: Links, rank: map<Node, nat>, p: Node, sit: Node, c: Node, f: Links)
    returns (t': Copying, rank': map<Node, nat>)
    requires Walk(s, t, p) && Tracks(s, t, g, rank) && AtChild(s, t, p, sit) && sit != s.dn && c !in g
    requires p in t.image && p in t.pos && t.image[p] in rank && t.image[p] in t.kids
    requires IsGrown(g, f, t.kids, rank, c, t.image[p], |t.kids[t.image[p]]|)
    ensures Walk(s, t', sit) && Tracks(s, t', f, rank') && Extends(t, t', sit, c)
  {
    hide *;
    CanCopyHere(s, t, g, rank, p, sit, c);
    NotAgain(s, t, p, sit);
    t', rank' := WithCopy(t, p, sit, c), rank[c := rank[t.image[p]] + 1];
    CopyStep(s, t, p, sit, c);
    TracksGrown(s, t, g, rank, p, sit, c, f);
    WithCopyExtends(t, p, sit, c);
  }

  lemma WithCopyExtends(t: Copying, p: Node, sit: Node, c: Node)
    requires p in t.image && t.image[p] in t.kids && p in t.pos && sit !in t.image
    ensures Extends(t, WithCopy(t, p, sit, c), sit, c)
  {
  }

  // ----- node_copy_tree

  ghost predicate SameContents(t: Copying)
    reads t.image.Keys`content, t.image.Values`content
  {
    forall x | x in t.image :: t.image[x].kind == x.kind && t.image[x].content == x.content
  }

  /** How far the traversal still has to go: nodes to copy, and dn to be passed. */
  ghost function ToCopy(s: Source, t: Copying): int
  {
    |s.h.Keys| - |t.image.Keys|
  }

  ghost function DnAhead(s: Source, t: Copying): nat
  {
    if Passed(s, t, s.dn) then 0 else 1
  }

  lemma CopiedOne(s: Source, t: Copying, t': Copying, sit: Node, c: Node)
    requires Extends(t, t', sit, c)
    ensures ToCopy(s, t') < ToCopy(s, t)
  {
    assert t'.image.Keys == t.image.Keys + {sit};
  }

  lemma ToCopyBound(s: Source, t: Copying, p: Node)
    requires Walk(s, t, p)
    ensures ToCopy(s, t) >= 0
  {
    hide Good, Way, Imaged, Copied;
    assert t.image.Keys <= s.h.Keys;
    Smaller(t.image.Keys, s.h.Keys);
  }

  lemma Smaller<T>(a: set<T>, b: set<T>)
    requires a <= b
    ensures |a| <= |b|
  {
    assert b == a + (b - a);
  }

  lemma Extended(t: Copying, t': Copying, sit: Node, c: Node)
    requires Extends(t, t', sit, c) && SameContents(t) && c.kind == sit.kind && c.content == sit.content
    ensures SameContents(t') && sit in t'.pos && t'.pos[sit] == 0 && sit !in t.image && t'.image == t.image[sit := c]
  {
  }

  lemma Beginning(s: Source, g: Links, rank: map<Node, nat>)
    requires Good(s) && g == s.h && rank == s.rank
    ensures Walk(s, Begun(s), s.sn) && Tracks(s, Begun(s), g, rank) && Begun(s).image == map[s.sn := s.dn]
    ensures s.sn in Begun(s).pos && Begun(s).pos[s.sn] == 0 && s.sn in s.kids
    ensures s.kids[s.sn] == [] ==> AllPassed(s, Begun(s))
  {
    WalkStart(s);
    hide Walk;
  }

  lemma SkipFacts(s: Source, t: Copying, g: Links, rank: map<Node, nat>, p: Node) returns (t': Copying)
    requires Walk(s, t, p) && Tracks(s, t, g, rank) && AtChild(s, t, p, s.dn) && SameContents(t)
    ensures Walk(s, t', p) && Tracks(s, t', g, rank) && AfterChild(s, t', p, s.dn) && SameContents(t')
    ensures t'.image == t.image && ToCopy(s, t') == ToCopy(s, t) && DnAhead(s, t') < DnAhead(s, t)
  {
    hide Walk, Good, Forest, Ranked, Passed, AtChild, AfterChild;
    SkipStep(s, t, p);
    NotAgain(s, t, p, s.dn);
    TrackedRank(s, t, g, rank, p);
    WalkPos(s, t, p);
    SkipPassed(s, t, p);
    t' := t.(pos := t.pos[p := t.pos[p] + 1]);
  }

  lemma SkipPassed(s: Source, t: Copying, p: Node)
    requires AtChild(s, t, p, s.dn) && s.dn in s.h && s.h[s.dn].parent == p && p in t.image && s.dn !in s.kids[p][..t.pos[p]]
    ensures !Passed(s, t, s.dn)
    ensures Passed(s, t.(pos := t.pos[p := t.pos[p] + 1]), s.dn)
  {
    assert s.kids[p][..t.pos[p] + 1] == s.kids[p][..t.pos[p]] + [s.dn];
  }

  /** A node of the source is copied; then its children are next if it has any. */
  method Visit(sit: Node, dit: Node, ghost p: Node, ghost s: Source, ghost t: Copying, ghost rank: map<Node, nat>,
               ghost all: set<Node>)
    returns (copy: Node, descend: bool, ghost t': Copying, ghost rank': map<Node, nat>, ghost all': set<Node>)
    requires Walk(s, t, p) && Tracks(s, t, LinksOf(all), rank) && AtChild(s, t, p, sit) && sit != s.dn && SameContents(t)
    requires p in t.image && dit == t.image[p] && sit in all && sit in s.h && s.h[sit].parent == p && sit != s.sn
    modifies all`parent, all`firstChild, all`prevSibling, all`nextSibling
    ensures fresh(copy) && all' == all + {copy} && Tracks(s, t', LinksOf(all'), rank') && SameContents(t')
    ensures ToCopy(s, t') < ToCopy(s, t)
    ensures descend ==> Stands(s, t', sit, sit.firstChild, copy)
    ensures !descend ==> Walk(s, t', p) && AfterChild(s, t', p, sit) && p in t'.image && dit == t'.image[p]
  {
    hide *;
    copy, t', rank', all' := CopyOne(sit, dit, p, s, t, rank, all);
    Extended(t, t', sit, copy);
    CopiedOne(s, t, t', sit, copy);
    ReadFirst(s, t', LinksOf(all'), rank', sit);
    LeafPassed(s, t', LinksOf(all'), rank', p, sit);
    FieldsOf(all', sit);
    descend := sit.firstChild != null;
    if descend { MakeStands(s, t', sit, sit.firstChild, copy); }
  }

  /** node_copy_tree: afterwards the nodes below dn correspond to those below sn as they were, with
      the same kinds and contents, although dn may itself lie below sn. */
  method CopyTree(dn: Node, sn: Node, ghost ns: set<Node>, ghost s: Source)
    returns (ghost all: set<Node>, ghost t: Copying, ghost rank: map<Node, nat>)
    requires s.h == LinksOf(ns) && Good(s) && s.sn == sn && s.dn == dn && dn.kind == sn.kind && sn in ns && dn in ns
    modifies ns`parent, ns`firstChild, ns`prevSibling, ns`nextSibling, dn`content
    ensures ns <= all && fresh(all - ns)
    ensures Forest(LinksOf(all), t.kids) && Ranked(LinksOf(all), rank)
    ensures IsCopy(s, t) && SameContents(t) && ParentsKept(s.h, LinksOf(all))
  {
    hide *;
    var dit: Node?, sit: Node?;
    ghost var p: Node := sn;
    all, rank := ns, s.rank;
    sit, dit, t := BeginCopy(dn, sn, ns, s);
    while sit != null && sit != sn
      invariant ns <= all && fresh(all - ns)
      invariant Tracks(s, t, LinksOf(all), rank) && SameContents(t) && Stands(s, t, p, sit, dit)
      decreases ToCopy(s, t), DnAhead(s, t)
    {
      StandsAt(s, t, LinksOf(all), rank, p, sit, dit);
      if sit != dn {
        var copy, descend;
        copy, descend, t, rank, all := Visit(sit, dit, p, s, t, rank, all);
        if descend {
          p, dit, sit := sit, copy, sit.firstChild;
          continue;
        }
      } else {
        t := SkipFacts(s, t, LinksOf(all), rank, p);
      }
      sit, dit, p := Ascend(sit, dit, sn, p, s, t, rank, all);
    }
    Done(s, t, LinksOf(all), rank, p, sit, dit);
  }

  /** The part of node_copy_tree before its loop. */
  method BeginCopy(dn: Node, sn: Node, ghost ns: set<Node>, ghost s: Source) returns (sit: Node?, dit: Node?, ghost t: Copying)
    requires s.h == LinksOf(ns) && Good(s) && s.sn == sn && s.dn == dn && dn.kind == sn.kind && sn in ns && dn in ns
    modifies dn`content
    ensures Tracks(s, t, LinksOf(ns), s.rank) && SameContents(t) && Stands(s, t, sn, sit, dit)
  {
    hide *;
    Beginning(s, s.h, s.rank);
    t := Begun(s);
    dn.content := sn.content;
    BeginningContents(t, sn, dn);
    dit, sit := dn, sn.firstChild;
    ReadFirst(s, t, LinksOf(ns), s.rank, sn);
    FieldsOf(ns, sn);
    MakeStands(s, t, sn, sit, dit);
  }

  lemma BeginningContents(t: Copying, sn: Node, dn: Node)
    requires t.image == map[sn := dn] && dn.kind == sn.kind && dn.content == sn.content
    ensures SameContents(t)
  {
  }

  lemma MakeStands(s: Source, t: Copying, p: Node, sit: Node?, dit: Node?)
    requires Walk(s, t, p) && p in t.image && dit == t.image[p]
    requires sit == null ==> AllPassed(s, t)
    requires sit != null ==> AtChild(s, t, p, sit)
    ensures Stands(s, t, p, sit, dit)
  {
    hide Walk, AllPassed;
    if sit != null { NotRoot(s, t, p, sit); }
  }

  lemma StandsAt(s: Source, t: Copying, g: Links, rank: map<Node, nat>, p: Node, sit: Node, dit: Node?)
    requires Stands(s, t, p, sit, dit) && sit != s.sn && Tracks(s, t, g, rank)
    ensures Walk(s, t, p) && AtChild(s, t, p, sit) && p in t.image && dit == t.image[p] && sit in g && ToCopy(s, t) >= 0
    ensures sit in s.h && s.h[sit].parent == p
  {
    hide Walk, AllPassed, Good, Forest, Ranked;
    NotRoot(s, t, p, sit);
    NotAgain(s, t, p, sit);
    ToCopyBound(s, t, p);
  }

  /** A copied node without children has been passed at once. */
  lemma LeafPassed(s: Source, t: Copying, g: Links, rank: map<Node, nat>, p: Node, sit: Node)
    requires Walk(s, t, sit) && Tracks(s, t, g, rank) && sit in t.pos && t.pos[sit] == 0 && sit in s.h && s.h[sit].parent == p
    requires sit != s.sn
    ensures sit in s.kids && (s.kids[sit] == [] ==> Walk(s, t, p) && AfterChild(s, t, p, sit))
  {
    hide *;
    SourceList(s, t, g, rank, sit);
    if s.kids[sit] == [] { LeaveStep(s, t, sit); }
  }

  lemma Done(s: Source, t: Copying, g: Links, rank: map<Node, nat>, p: Node, sit: Node?, dit: Node?)
    requires Stands(s, t, p, sit, dit) && (sit == null || sit == s.sn) && Tracks(s, t, g, rank)
    ensures IsCopy(s, t) && Forest(g, t.kids) && Ranked(g, rank) && ParentsKept(s.h, g)
  {
    hide Walk, Good, Forest, Ranked, IsCopy, ParentsKept;
    Finish(s, t);
  }

  // ----- append_copy

  /** The copies of xs, in order. */
  function CopyOf(image: map<Node, Node>, xs: seq<Node>): (r: seq<Node>)
    requires forall x | x in xs :: x in image
    ensures |r| == |xs| && forall i | 0 <= i < |xs| :: r[i] == image[xs[i]]
  {
    if xs == [] then [] else CopyOf(image, xs[..|xs| - 1]) + [image[xs[|xs| - 1]]]
  }

  lemma {:induction false} CopiesAre(image: map<Node, Node>, xs: seq<Node>, dn: Node)
    requires dn !in xs && forall x | x in xs :: x in image
    ensures Copies(image, xs, dn) == CopyOf(image, xs)
    decreases |xs|
  {
    if xs != [] {
      assert xs[|xs| - 1] in xs;
      CopiesAre(image, xs[..|xs| - 1], dn);
    }
  }

  /** n and the nodes below it are a copy of proto and the nodes that were below it before. */
  ghost predicate CopyOfTree(before: Kids, after: Kids, image: map<Node, Node>, proto: Node, n: Node)
  {
    && proto in image && image[proto] == n
    && (forall x, y | x in image && y in image && image[x] == image[y] :: x == y)
    && forall x | x in image :: SameChildren(before, after, image, x)
  }

  ghost predicate SameChildren(before: Kids, after: Kids, image: map<Node, Node>, x: Node)
  {
    && x in image && x in before && image[x] in after && image[x] !in before
    && (forall y | y in before[x] :: y in image) && after[image[x]] == CopyOf(image, before[x])
  }

  /** A copy of the grown tree leaves its new node out, so it is a copy of the tree before. */
  lemma CopyBefore(before: Kids, s: Source, t: Copying, n: Node, i: nat)
    requires IsCopy(s, t) && n in before && i <= |before[n]| && s.dn !in before && s.sn in before
    requires s.kids == Grown(before, s.dn, n, i) && s.kids.Keys == s.h.Keys
    requires forall m, x | m in before && x in before[m] :: x in before
    ensures CopyOfTree(before, t.kids, t.image, s.sn, s.dn)
  {
    forall x | x in t.image ensures SameChildren(before, t.kids, t.image, x) {
      CopyBeforeAt(before, s, t, n, i, x);
    }
  }

  lemma CopyBeforeAt(before: Kids, s: Source, t: Copying, n: Node, i: nat, x: Node)
    requires IsCopy(s, t) && n in before && i <= |before[n]| && s.dn !in before && x in t.image
    requires s.kids == Grown(before, s.dn, n, i) && s.kids.Keys == s.h.Keys
    requires forall m, y | m in before && y in before[m] :: y in before
    ensures SameChildren(before, t.kids, t.image, x)
  {
    assert x in before && s.kids[x] == if x == n then InsertAt(before[n], i, s.dn) else before[x];
    forall y | y in before[x] ensures y in t.image && y != s.dn {
      if x == n { InsertAtHas(before[n], i, s.dn, y); }
      assert y in s.kids[x] && y in before;
    }
    if x == n { CopiesSkip(t.image, before[n], i, s.dn); }
    CopiesAre(t.image, before[x], s.dn);
  }

  lemma CopiesSkip(image: map<Node, Node>, xs: seq<Node>, i: nat, dn: Node)
    requires i <= |xs|
    ensures Copies(image, InsertAt(xs, i, dn), dn) == Copies(image, xs, dn)
  {
    CopiesConcat(image, xs[..i] + [dn], xs[i..], dn);
    CopiesConcat(image, xs[..i], [dn], dn);
    CopiesConcat(image, xs[..i], xs[i..], dn);
    assert xs == xs[..i] + xs[i..];
    assert Copies(image, [dn], dn) == [] by { assert [dn][..0] == []; }
  }

  lemma {:induction false} CopiesConcat(image: map<Node, Node>, xs: seq<Node>, ys: seq<Node>, dn: Node)
    ensures Copies(image, xs + ys, dn) == Copies(image, xs, dn) + Copies(image, ys, dn)
    decreases |ys|
  {
    if ys == [] {
      assert xs + ys == xs;
    } else {
      CopiesConcat(image, xs, ys[..|ys| - 1], dn);
      assert (xs + ys)[..|xs + ys| - 1] == xs + ys[..|ys| - 1];
    }
  }

  /** The state before node_copy_tree is called: a new node c, the last child of n, and nothing else new. */
  lemma SourceGood(h: Links, f: Links, kids: Kids, rank: map<Node, nat>, c: Node, n: Node, i: nat, proto: Node)
    requires Forest(h, kids) && Ranked(h, rank) && n in h && i <= |kids[n]| && proto in h && c !in h
    requires n in kids && n in rank && IsGrown(h, f, kids, rank, c, n, i)
    ensures var s := Source(f, Grown(kids, c, n, i), rank[c := rank[n] + 1], proto, c);
      Good(s) && s.kids.Keys == f.Keys && ParentsKept(h, f) && (forall m, x | m in kids && x in kids[m] :: x in kids)
  {
    forall m, x | m in kids && x in kids[m] ensures x in kids {
      assert Listed(h, m, kids[m]);
    }
    hide Forest, Ranked, Listed, Attached;
    SourceKeys(h, f, kids, rank, c, n, i);
  }

  lemma SourceKeys(h: Links, f: Links, kids: Kids, rank: map<Node, nat>, c: Node, n: Node, i: nat)
    requires n in kids && n in rank && i <= |kids[n]| && c != n && IsGrown(h, f, kids, rank, c, n, i)
    ensures Grown(kids, c, n, i).Keys == f.Keys && Grown(kids, c, n, i)[c] == []
  {
    hide Listed, Attached, Ranked;
  }

  lemma ForestKeys(h: Links, kids: Kids, rank: map<Node, nat>)
    requires Forest(h, kids) && Ranked(h, rank)
    ensures kids.Keys == h.Keys && rank.Keys == h.Keys
  {
  }

  lemma ParentsThrough(h: Links, f: Links, g: Links)
    requires ParentsKept(h, f) && ParentsKept(f, g)
    ensures ParentsKept(h, g)
  {
  }

  /** The new node in its place, then node_copy_tree. */
  method CopyLast(self: Node, proto: Node, ghost ns: set<Node>, ghost kids: Kids, ghost rank: map<Node, nat>)
    returns (c: Node, ghost all: set<Node>, ghost t: Copying, ghost rank': map<Node, nat>)
    requires Forest(LinksOf(ns), kids) && Ranked(LinksOf(ns), rank) && self in ns && proto in ns
    modifies ns`parent, ns`firstChild, ns`prevSibling, ns`nextSibling
    ensures fresh(c) && c.kind == proto.kind && ns <= all && fresh(all - ns)
    ensures Forest(LinksOf(all), t.kids) && Ranked(LinksOf(all), rank') && ParentsKept(old(LinksOf(ns)), LinksOf(all))
    ensures CopyOfTree(kids, t.kids, t.image, proto, c) && SameContents(t)
    ensures self in kids && OthersKept(kids, t.kids, self, c)
  {
    hide *;
    ghost var h := LinksOf(ns);
    ForestKeys(h, kids, rank);
    ghost var all1;
    c, all1 := NewLast(proto.kind, self, ns, kids, rank);
    ghost var f, i := LinksOf(all1), |kids[self]|;
    SourceGood(h, f, kids, rank, c, self, i, proto);
    ghost var s := Source(f, Grown(kids, c, self, i), rank[c := rank[self] + 1], proto, c);
    all, t, rank' := CopyTree(c, proto, all1, s);
    ParentsThrough(h, f, LinksOf(all));
    CopyBefore(kids, s, t, self, i);
    LastKept(kids, s, t, self);
  }

  /** Every list but self's is as before, and self's has one more child at the end. */
  ghost predicate OthersKept(before: Kids, after: Kids, n: Node, c: Node)
    requires n in before
  {
    forall m | m in before :: m in after && after[m] == if m == n then before[n] + [c] else before[m]
  }

  lemma LastKept(before: Kids, s: Source, t: Copying, n: Node)
    requires IsCopy(s, t) && n in before && s.dn !in before && s.kids == Grown(before, s.dn, n, |before[n]|) && s.kids.Keys == s.h.Keys
    ensures OthersKept(before, t.kids, n, s.dn)
  {
    assert InsertAt(before[n], |before[n]|, s.dn) == before[n] + [s.dn];
  }

  /** append_copy: a new last child of self that is a copy of proto as it was before, even if self lies
      below proto; all other child lists stay as they were. */
  method AppendCopy(doc: Document, self: Node, proto: Node) returns (c: Node?, ghost t: Copying)
    requires doc.Valid() && self in doc.nodes && proto in doc.nodes
    modifies doc, doc.nodes`parent, doc.nodes`firstChild, doc.nodes`prevSibling, doc.nodes`nextSibling
    ensures doc.Valid() && (c == null <==> !AllowInsertChild(self.kind, proto.kind))
    ensures c == null ==>
      doc.nodes == old(doc.nodes) && LinksOf(doc.nodes) == old(LinksOf(doc.nodes)) && doc.kids == old(doc.kids)
    ensures c != null ==> fresh(c) && CopyOfTree(old(doc.kids), doc.kids, t.image, proto, c) && SameContents(t)
    ensures c != null ==> self in old(doc.kids) && OthersKept(old(doc.kids), doc.kids, self, c)
  {
    hide Forest, Ranked, CopyOfTree, OthersKept, SameContents;
    c, t := null, Copying(map[], map[], map[]);
    if !AllowInsertChild(self.kind, proto.kind) { return; }
    ghost var all: set<Node>, rank: map<Node, nat>;
    ghost var h := LinksOf(doc.nodes);
    var n;
    n, all, t, rank := CopyLast(self, proto, doc.nodes, doc.kids, doc.rank);
    doc.Renew(h, all, t.kids, rank);
    c := n;
  }
}
