/** Sequences under a strict total order: what the sorting code in NodeSort is proved against. */
module SortOrder {

  /** A strict order in which any two different elements are comparable. */
  ghost predicate StrictTotal<T(!new)>(less: (T, T) -> bool)
  {
    && (forall x :: !less(x, x))
    && (forall x, y, z | less(x, y) && less(y, z) :: less(x, z))
    && (forall x, y | x != y :: less(x, y) || less(y, x))
  }

  lemma Total<T(!new)>(less: (T, T) -> bool, x: T, y: T)
    requires StrictTotal(less)
    ensures !less(x, y) && x != y ==> less(y, x)
    ensures less(x, y) ==> !less(y, x) && x != y
  {
  }

  lemma Transitive<T(!new)>(less: (T, T) -> bool, x: T, y: T, z: T)
    requires StrictTotal(less) && !less(y, x) && !less(z, y)
    ensures !less(z, x)
  {
  }

  /** No element comes after a greater one. */
  ghost predicate Sorted<T>(less: (T, T) -> bool, s: seq<T>)
  {
    forall i, j | 0 <= i < j < |s| :: !less(s[j], s[i])
  }

  /** No element of s is greater than one of t. */
  ghost predicate Below<T>(less: (T, T) -> bool, s: seq<T>, t: seq<T>)
  {
    forall i, j | 0 <= i < |s| && 0 <= j < |t| :: !less(t[j], s[i])
  }

  lemma SortedJoin<T>(less: (T, T) -> bool, s: seq<T>, t: seq<T>)
    requires Sorted(less, s) && Sorted(less, t) && Below(less, s, t)
    ensures Sorted(less, s + t)
  {
  }

  // ----- rearranging part of a sequence

  function SwapAt<T>(s: seq<T>, i: nat, j: nat): (r: seq<T>)
    requires i < |s| && j < |s|
    ensures |r| == |s| && r[i] == s[j] && r[j] == s[i]
    ensures forall k | 0 <= k < |s| && k != i && k != j :: r[k] == s[k]
  {
    s[i := s[j]][j := s[i]]
  }

  /** r is s with the elements from b to e rearranged. */
  ghost predicate Rearranged<T>(s: seq<T>, r: seq<T>, b: nat, e: nat)
  {
    && b <= e <= |s| == |r|
    && r[..b] == s[..b] && r[e..] == s[e..]
    && multiset(r[b..e]) == multiset(s[b..e])
  }

  lemma SwapRearranges<T>(s: seq<T>, i: nat, j: nat, b: nat, e: nat)
    requires b <= i < e <= |s| && b <= j < e
    ensures Rearranged(s, SwapAt(s, i, j), b, e)
  {
    var r := SwapAt(s, i, j);
    assert r[b..e] == s[b..e][i - b := s[j]][j - b := s[i]];
  }

  lemma RearrangedThen<T>(s: seq<T>, r: seq<T>, q: seq<T>, b: nat, e: nat)
    requires Rearranged(s, r, b, e) && Rearranged(r, q, b, e)
    ensures Rearranged(s, q, b, e)
  {
  }

  lemma RearrangedSame<T>(s: seq<T>, b: nat, e: nat)
    requires b <= e <= |s|
    ensures Rearranged(s, s, b, e)
  {
  }

  /** Rearranging a part rearranges the whole. */
  lemma RearrangedWider<T>(s: seq<T>, r: seq<T>, c: nat, d: nat, b: nat, e: nat)
    requires Rearranged(s, r, c, d) && b <= c && d <= e <= |s|
    ensures Rearranged(s, r, b, e)
  {
    assert s[b..e] == s[..c][b..] + s[c..d] + s[d..][..e - d];
    assert r[b..e] == r[..c][b..] + r[c..d] + r[d..][..e - d];
    assert s[..b] == s[..c][..b] && r[..b] == r[..c][..b];
    assert s[e..] == s[d..][e - d..] && r[e..] == r[d..][e - d..];
  }

  /** What holds against every element still does after a rearrangement. */
  lemma BelowKept<T>(less: (T, T) -> bool, s: seq<T>, t: seq<T>, s': seq<T>, t': seq<T>)
    requires Below(less, s, t) && multiset(s) == multiset(s') && multiset(t) == multiset(t')
    ensures Below(less, s', t')
  {
    forall i, j | 0 <= i < |s'| && 0 <= j < |t'| ensures !less(t'[j], s'[i]) {
      assert s'[i] in multiset(s) && t'[j] in multiset(t);
      var k, l :| 0 <= k < |s| && 0 <= l < |t| && s[k] == s'[i] && t[l] == t'[j];
    }
  }

  lemma Slice<T>(s: seq<T>, b: nat, e: nat, i: nat, j: nat)
    requires b <= i <= j <= e <= |s|
    ensures s[b..e][i - b..j - b] == s[i..j]
  {
    var t := s[b..e];
    forall k | 0 <= k < j - i ensures t[i - b..j - b][k] == s[i..j][k] {
      assert t[i - b..j - b][k] == t[i - b + k] == s[i + k];
    }
  }

  lemma RearrangedBefore<T>(s: seq<T>, r: seq<T>, b: nat, e: nat, c: nat, d: nat)
    requires Rearranged(s, r, b, e) && c <= d <= |s| && (d <= b || e <= c)
    ensures r[c..d] == s[c..d]
  {
    if d <= b {
      assert r[c..d] == r[..b][c..d] && s[c..d] == s[..b][c..d];
    } else {
      Slice(r, e, |r|, c, d);
      Slice(s, e, |s|, c, d);
      assert r[e..|r|] == s[e..|s|];
    }
  }

  // ----- a sort in progress

  /** s[b..e] is still to be sorted; what lies before and after it in s[from..to] is in its place. */
  ghost predicate Narrowed<T>(less: (T, T) -> bool, s: seq<T>, from: nat, b: nat, e: nat, to: nat)
  {
    && from <= b <= e <= to <= |s|
    && Sorted(less, s[from..b]) && Sorted(less, s[e..to])
    && Below(less, s[from..b], s[b..e]) && Below(less, s[b..e], s[e..to]) && Below(less, s[from..b], s[e..to])
  }

  lemma NarrowedKept<T>(less: (T, T) -> bool, s: seq<T>, r: seq<T>, from: nat, b: nat, e: nat, to: nat)
    requires Narrowed(less, s, from, b, e, to) && Rearranged(s, r, b, e)
    ensures Narrowed(less, r, from, b, e, to)
  {
    RearrangedBefore(s, r, b, e, from, b);
    RearrangedBefore(s, r, b, e, e, to);
    hide Sorted, Below;
    BelowKept(less, s[from..b], s[b..e], r[from..b], r[b..e]);
    BelowKept(less, s[b..e], s[e..to], r[b..e], r[e..to]);
  }

  /** s[b..p], s[p..q] and s[q..e] follow each other, and the middle one needs no sorting. */
  ghost predicate Parted<T>(less: (T, T) -> bool, s: seq<T>, b: nat, p: nat, q: nat, e: nat)
  {
    && b <= p <= q <= e <= |s| && Sorted(less, s[p..q])
    && Below(less, s[b..p], s[p..q]) && Below(less, s[p..q], s[q..e]) && Below(less, s[b..p], s[q..e])
  }

  lemma PartedKept<T>(less: (T, T) -> bool, s: seq<T>, r: seq<T>, b: nat, p: nat, q: nat, e: nat, c: nat, d: nat)
    requires Parted(less, s, b, p, q, e) && Rearranged(s, r, c, d) && ((c == b && d == p) || (c == q && d == e))
    ensures Parted(less, r, b, p, q, e)
  {
    RearrangedBefore(s, r, c, d, p, q);
    if c == b && d == p { RearrangedBefore(s, r, c, d, q, e); } else { RearrangedBefore(s, r, c, d, b, p); }
    hide Sorted, Below;
    BelowKept(less, s[b..p], s[p..q], r[b..p], r[p..q]);
    BelowKept(less, s[p..q], s[q..e], r[p..q], r[q..e]);
    BelowKept(less, s[b..p], s[q..e], r[b..p], r[q..e]);
  }

  lemma BelowPart<T>(less: (T, T) -> bool, s: seq<T>, t: seq<T>, i: nat, j: nat, k: nat, l: nat)
    requires Below(less, s, t) && i <= j <= |s| && k <= l <= |t|
    ensures Below(less, s[i..j], t[k..l])
  {
  }

  lemma BelowJoin<T>(less: (T, T) -> bool, s: seq<T>, t: seq<T>, u: seq<T>)
    ensures Below(less, s, t) && Below(less, s, u) ==> Below(less, s, t + u)
    ensures Below(less, t, s) && Below(less, u, s) ==> Below(less, t + u, s)
  {
  }

  /** Once the right part is sorted, only the left one remains. */
  lemma CloseRight<T>(less: (T, T) -> bool, s: seq<T>, from: nat, b: nat, p: nat, q: nat, e: nat, to: nat)
    requires Narrowed(less, s, from, b, e, to) && Parted(less, s, b, p, q, e) && Sorted(less, s[q..e])
    ensures Narrowed(less, s, from, b, p, to)
  {
    hide Sorted, Below;
    var a, l, m, r, z, all := s[from..b], s[b..p], s[p..q], s[q..e], s[e..to], s[b..e];
    Slice(s, b, e, b, p);
    Slice(s, b, e, p, q);
    Slice(s, b, e, q, e);
    assert s[p..to] == m + r + z && z == z[0..|z|] && a == a[0..|a|];
    BelowPart(less, a, all, 0, |a|, 0, p - b);
    BelowPart(less, a, all, 0, |a|, p - b, q - b);
    BelowPart(less, a, all, 0, |a|, q - b, e - b);
    BelowPart(less, all, z, 0, p - b, 0, |z|);
    BelowPart(less, all, z, p - b, q - b, 0, |z|);
    BelowPart(less, all, z, q - b, e - b, 0, |z|);
    BelowJoin(less, z, m, r);
    SortedJoin(less, m, r);
    SortedJoin(less, m + r, z);
    BelowJoin(less, l, m, r);
    BelowJoin(less, l, m + r, z);
    BelowJoin(less, a, m, r);
    BelowJoin(less, a, m + r, z);
  }

  /** Once the left part is sorted, only the right one remains. */
  lemma CloseLeft<T>(less: (T, T) -> bool, s: seq<T>, from: nat, b: nat, p: nat, q: nat, e: nat, to: nat)
    requires Narrowed(less, s, from, b, e, to) && Parted(less, s, b, p, q, e) && Sorted(less, s[b..p])
    ensures Narrowed(less, s, from, q, e, to)
  {
    hide Sorted, Below;
    var a, l, m, r, z, all := s[from..b], s[b..p], s[p..q], s[q..e], s[e..to], s[b..e];
    Slice(s, b, e, b, p);
    Slice(s, b, e, p, q);
    Slice(s, b, e, q, e);
    assert s[from..q] == a + l + m && z == z[0..|z|] && a == a[0..|a|];
    BelowPart(less, a, all, 0, |a|, 0, p - b);
    BelowPart(less, a, all, 0, |a|, p - b, q - b);
    BelowPart(less, a, all, 0, |a|, q - b, e - b);
    BelowPart(less, all, z, 0, p - b, 0, |z|);
    BelowPart(less, all, z, p - b, q - b, 0, |z|);
    BelowPart(less, all, z, q - b, e - b, 0, |z|);
    SortedJoin(less, a, l);
    BelowJoin(less, m, a, l);
    SortedJoin(less, a + l, m);
    BelowJoin(less, r, a, l);
    BelowJoin(less, r, a + l, m);
    BelowJoin(less, z, a, l);
    BelowJoin(less, z, a + l, m);
  }

  lemma NarrowedSorted<T>(less: (T, T) -> bool, s: seq<T>, from: nat, b: nat, e: nat, to: nat)
    requires Narrowed(less, s, from, b, e, to) && Sorted(less, s[b..e])
    ensures Sorted(less, s[from..to])
  {
    hide Sorted, Below;
    var a, m, z := s[from..b], s[b..e], s[e..to];
    assert s[from..to] == a + m + z;
    SortedJoin(less, a, m);
    BelowJoin(less, z, a, m);
    SortedJoin(less, a + m, z);
  }

  /** 2 to the power d. */
  function Pow2(d: nat): nat
  {
    if d == 0 then 1 else 2 * Pow2(d - 1)
  }

  // ----- inserting

  /** The element at it moved to h, the ones from there on moving up. */
  function Inserted<T>(s: seq<T>, h: nat, it: nat): (r: seq<T>)
    requires h <= it < |s|
    ensures |r| == |s|
  {
    s[..h] + [s[it]] + s[h..it] + s[it + 1..]
  }

  lemma InsertedAt<T>(s: seq<T>, h: nat, it: nat, k: nat)
    requires h <= it < |s| && k < |s|
    ensures Inserted(s, h, it)[k] == if h < k <= it then s[k - 1] else if k == h then s[it] else s[k]
  {
  }

  /** t is s with the elements from hole up to it moved up by one. */
  ghost predicate Shifted<T>(s: seq<T>, t: seq<T>, hole: nat, it: nat)
  {
    && hole <= it < |s| == |t|
    && t[..hole + 1] == s[..hole + 1] && t[hole + 1..it + 1] == s[hole..it] && t[it + 1..] == s[it + 1..]
  }

  lemma ShiftedStart<T>(s: seq<T>, it: nat)
    requires it < |s|
    ensures Shifted(s, s, it, it)
  {
  }

  lemma ShiftOne<T>(s: seq<T>, t: seq<T>, hole: nat, it: nat)
    requires Shifted(s, t, hole, it) && 0 < hole
    ensures t[hole - 1] == s[hole - 1] && Shifted(s, t[hole := t[hole - 1]], hole - 1, it)
  {
    var r := t[hole := t[hole - 1]];
    assert t[hole - 1] == t[..hole + 1][hole - 1] == s[hole - 1];
    assert r[hole..it + 1] == [s[hole - 1]] + t[hole + 1..it + 1];
    assert s[hole - 1..it] == [s[hole - 1]] + s[hole..it];
    assert r[..hole] == t[..hole + 1][..hole] && s[..hole] == s[..hole + 1][..hole];
  }

  lemma ShiftedFilled<T>(s: seq<T>, t: seq<T>, hole: nat, it: nat)
    requires Shifted(s, t, hole, it)
    ensures t[hole := s[it]] == Inserted(s, hole, it)
  {
    var r := t[hole := s[it]];
    assert r == r[..hole] + [r[hole]] + r[hole + 1..it + 1] + r[it + 1..];
    assert r[..hole] == t[..hole + 1][..hole] && s[..hole] == s[..hole + 1][..hole];
  }

  lemma InsertedRearranges<T>(s: seq<T>, b: nat, h: nat, it: nat)
    requires b <= h <= it < |s|
    ensures Rearranged(s, Inserted(s, h, it), b, it + 1)
  {
    var r := Inserted(s, h, it);
    assert s[b..it + 1] == s[b..h] + s[h..it] + [s[it]];
    assert r[b..it + 1] == s[b..h] + [s[it]] + s[h..it];
  }

  lemma InsertedSorted<T(!new)>(less: (T, T) -> bool, s: seq<T>, b: nat, h: nat, it: nat)
    requires StrictTotal(less) && b <= h <= it < |s| && Sorted(less, s[b..it])
    requires h > b ==> !less(s[it], s[h - 1])
    requires forall k | h <= k < it :: !less(s[k], s[it])
    ensures Sorted(less, Inserted(s, h, it)[b..it + 1])
  {
    var r := Inserted(s, h, it);
    forall i, j | b <= i < j < it + 1 ensures !less(r[j], r[i]) {
      InsertedPair(less, s, b, h, it, i, j);
    }
    var t := r[b..it + 1];
    forall i, j | 0 <= i < j < |t| ensures !less(t[j], t[i]) {
      assert t[i] == r[b + i] && t[j] == r[b + j];
    }
  }

  lemma InsertedPair<T(!new)>(less: (T, T) -> bool, s: seq<T>, b: nat, h: nat, it: nat, i: nat, j: nat)
    requires StrictTotal(less) && b <= h <= it < |s| && Sorted(less, s[b..it]) && b <= i < j <= it
    requires h > b ==> !less(s[it], s[h - 1])
    requires forall k | h <= k < it :: !less(s[k], s[it])
    ensures !less(Inserted(s, h, it)[j], Inserted(s, h, it)[i])
  {
    hide StrictTotal;
    var t := s[b..it];
    assert forall k | b <= k < it :: t[k - b] == s[k];
    InsertedAt(s, h, it, i);
    InsertedAt(s, h, it, j);
    if j == h {
      if i < h - 1 { assert !less(t[h - 1 - b], t[i - b]); }
      if i < h - 1 { Transitive(less, s[i], s[h - 1], s[it]); }
    } else if i != h {
      var i', j' := if i > h then i - 1 else i, if j > h then j - 1 else j;
      assert i' < j' ==> !less(t[j' - b], t[i' - b]);
    }
  }

  // ----- removing duplicates

  /** s without the elements equal to their predecessor. */
  function Merged<T(==)>(s: seq<T>): (r: seq<T>)
    ensures s != [] ==> r != [] && r[|r| - 1] == s[|s| - 1]
  {
    if |s| <= 1 then s
    else
      var r := Merged(s[..|s| - 1]);
      if s[|s| - 1] == s[|s| - 2] then r else r + [s[|s| - 1]]
  }

  /** In a sorted sequence that leaves every element exactly once. */
  lemma {:induction false} MergedOnce<T(!new)>(less: (T, T) -> bool, s: seq<T>)
    requires StrictTotal(less) && Sorted(less, s)
    ensures forall x :: x in Merged(s) <==> x in s
    ensures forall i, j | 0 <= i < j < |Merged(s)| :: less(Merged(s)[i], Merged(s)[j])
    decreases |s|
  {
    hide StrictTotal;
    if |s| > 1 {
      var t, x := s[..|s| - 1], s[|s| - 1];
      MergedOnce(less, t);
      var r := Merged(t);
      assert s == t + [x];
      if x == t[|t| - 1] {
        assert x in t && Merged(s) == r;
      } else {
        assert Merged(s) == r + [x];
        hide Merged, Sorted;
        forall i | 0 <= i < |r| ensures less(r[i], x) {
          assert r[i] in t;
          LastGreatest(less, s, r[i]);
        }
      }
    }
  }

  lemma LastGreatest<T(!new)>(less: (T, T) -> bool, s: seq<T>, y: T)
    requires StrictTotal(less) && Sorted(less, s) && |s| > 1 && s[|s| - 1] != s[|s| - 2] && y in s[..|s| - 1]
    ensures less(y, s[|s| - 1])
  {
    var n := |s| - 1;
    var k :| 0 <= k < n && s[k] == y;
    Total(less, s[n], s[n - 1]);
    Total(less, s[n], y);
    assert !less(s[n], s[k]) && !less(s[n], s[n - 1]) && (k < n - 1 ==> !less(s[n - 1], s[k]));
  }
}
