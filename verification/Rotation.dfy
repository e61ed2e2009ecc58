/** The block exchange that getopt permutes its arguments with. */
module Rotation {

  /** The two adjacent blocks s[b..m] and s[m..t] change places; everything keeps its order. */
  function Rotated<T>(s: seq<T>, b: nat, m: nat, t: nat): seq<T>
    requires b <= m <= t <= |s|
  {
    s[..b] + s[m..t] + s[b..m] + s[t..]
  }

  /** The blocks of len elements at i and at j, swapped element by element. */
  predicate Swapped<T(==)>(s: seq<T>, r: seq<T>, i: nat, j: nat, len: nat)
    requires i + len <= j && j + len <= |s|
  {
    r == s[..i] + s[j..j + len] + s[i + len..j] + s[i..i + len] + s[j + len..]
  }

  method SwapBlocks<T(==)>(a: array<T>, i: nat, j: nat, len: nat)
    requires i + len <= j && j + len <= a.Length
    modifies a
    ensures Swapped(old(a[..]), a[..], i, j, len)
  {
    hide Swapped;
    ghost var s := a[..];
    var k := 0;
    while k < len
      invariant k <= len
      invariant forall x | 0 <= x < a.Length ::
        a[x] == s[if Within(x, i, k) then x + (j - i) else if Within(x, j, k) then x - (j - i) else x]
    {
      hide Within;
      var x, y := a[i + k], a[j + k];
      WithinStep(i, j, k, len);
      a[i + k], a[j + k] := y, x;
      k := k + 1;
    }
    Pieces(s, a[..], i, j, len);
  }

  predicate Within(x: int, i: int, len: int)
  {
    i <= x < i + len
  }

  lemma WithinStep(i: nat, j: nat, k: nat, len: nat)
    requires k < len && i + len <= j
    ensures !Within(i + k, i, k) && !Within(i + k, j, k) && !Within(j + k, i, k) && !Within(j + k, j, k)
    ensures forall x :: Within(x, i, k + 1) <==> Within(x, i, k) || x == i + k
    ensures forall x :: Within(x, j, k + 1) <==> Within(x, j, k) || x == j + k
    ensures !Within(j + k, i, k + 1) && Within(i + k, i, k + 1) && Within(j + k, j, k + 1)
  {
  }

  lemma Pieces<T>(s: seq<T>, r: seq<T>, i: nat, j: nat, len: nat)
    requires i + len <= j && j + len <= |s| == |r|
    requires forall x | 0 <= x < |r| :: r[x] == s[if Within(x, i, len) then x + (j - i) else if Within(x, j, len) then x - (j - i) else x]
    ensures Swapped(s, r, i, j, len)
  {
    assert r[..i] == s[..i] && r[i..i + len] == s[j..j + len] && r[i + len..j] == s[i + len..j];
    assert r[j..j + len] == s[i..i + len] && r[j + len..] == s[j + len..];
    assert r == r[..i] + r[i..i + len] + r[i + len..j] + r[j..j + len] + r[j + len..];
  }

  /** When the second block is the longer one, its tail goes to its place. */
  lemma ShrinkTop<T>(s: seq<T>, r: seq<T>, b: nat, m: nat, t: nat)
    requires b <= m <= t <= |s| && m - b <= t - m && Swapped(s, r, b, t - (m - b), m - b)
    ensures |r| == |s| && Rotated(r, b, m, t - (m - b)) == Rotated(s, b, m, t)
  {
    var u := t - (m - b);
    assert s[m..t] == s[m..u] + s[u..t];
    assert r[..b] == s[..b] && r[b..m] == s[u..t] && r[m..u] == s[m..u] && r[u..] == s[b..m] + s[t..];
  }

  /** Otherwise the second block goes to its place. */
  lemma ShrinkBottom<T>(s: seq<T>, r: seq<T>, b: nat, m: nat, t: nat)
    requires b <= m <= t <= |s| && t - m <= m - b && Swapped(s, r, b, m, t - m)
    ensures |r| == |s| && Rotated(r, b + (t - m), m, t) == Rotated(s, b, m, t)
  {
    var u := b + (t - m);
    assert s[b..m] == s[b..u] + s[u..m];
    assert r[..u] == s[..b] + s[m..t] && r[u..m] == s[u..m] && r[m..t] == s[b..u] && r[t..] == s[t..];
  }

  lemma NothingLeft<T>(s: seq<T>, b: nat, m: nat, t: nat)
    requires b <= m <= t <= |s| && (b == m || m == t)
    ensures Rotated(s, b, m, t) == s
  {
  }

  /** exchange: it ends, and what it has done is the rotation. */
  method Exchange<T(==)>(a: array<T>, first: nat, last: nat, optind: nat)
    requires first <= last <= optind <= a.Length
    modifies a
    ensures a[..] == Rotated(old(a[..]), first, last, optind)
  {
    hide Rotated, Swapped;
    var bottom, middle, top := first, last, optind;
    while top > middle && middle > bottom
      invariant first <= bottom <= middle <= top <= optind
      invariant Rotated(a[..], bottom, middle, top) == Rotated(old(a[..]), first, last, optind)
      decreases top - bottom
    {
      ghost var s := a[..];
      if top - middle > middle - bottom {
        SwapBlocks(a, bottom, top - (middle - bottom), middle - bottom);
        ShrinkTop(s, a[..], bottom, middle, top);
        top := top - (middle - bottom);
      } else {
        SwapBlocks(a, bottom, middle, top - middle);
        ShrinkBottom(s, a[..], bottom, middle, top);
        bottom := bottom + (top - middle);
      }
    }
    NothingLeft(a[..], bottom, middle, top);
  }
}
