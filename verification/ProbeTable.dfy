/**
 The hash table keyed by node addresses: open addressing with triangular probing in a
 power-of-two number of buckets.  The hash is an arbitrary function.
 */
module ProbeTable {
  import Indices

  // ----- triangular probing

  /** How far probe p lies from the first bucket. */
  function Triangle(p: nat): nat
  {
    if p == 0 then 0 else Triangle(p - 1) + p
  }

  function Probe(h: nat, p: nat, cap: nat): (b: nat)
    requires cap > 0
    ensures b < cap
  {
    (h + Triangle(p)) % cap
  }

  /** n is a power of two. */
  predicate Power2(n: nat)
  {
    n == 1 || (n > 1 && n % 2 == 0 && Power2(n / 2))
  }

  lemma {:induction false} TriangleIs(p: nat)
    ensures 2 * Triangle(p) == p * (p + 1)
  {
    if p > 0 {
      TriangleIs(p - 1);
      assert p * (p + 1) == (p - 1) * p + 2 * p;
    }
  }

  lemma OddTimesOdd(a: int, b: int)
    requires a % 2 == 1 && b % 2 == 1
    ensures (a * b) % 2 == 1
  {
    var x, y := a / 2, b / 2;
    assert a * b == 2 * (2 * x * y + x + y) + 1;
  }

  /** A power of two that divides a product with an odd factor divides the other factor. */
  lemma {:induction false} OddFactor(n: nat, a: nat, b: nat, m: int) returns (q: int)
    requires Power2(n) && a % 2 == 1 && a * b == m * n
    ensures b == q * n
    decreases n
  {
    if n == 1 {
      q := b;
    } else {
      var half := n / 2;
      assert n == 2 * half;
      assert a * b == 2 * (m * half);
      if b % 2 == 1 { OddTimesOdd(a, b); }
      var c := b / 2;
      assert b == 2 * c;
      assert 2 * (a * c) == 2 * (m * half);
      q := OddFactor(half, a, c, m);
      assert b == q * n;
    }
  }

  lemma Factors(i: nat, j: nat)
    requires i < j
    ensures 2 * (Triangle(j) - Triangle(i)) == (j - i) * (i + j + 1)
  {
    TriangleIs(i);
    TriangleIs(j);
    assert (j - i) * (i + j + 1) == j * (j + 1) - i * (i + 1);
  }

  lemma SameRemainder(x: nat, y: nat, n: nat) returns (m: int)
    requires n > 0 && x % n == y % n
    ensures y - x == m * n
  {
    m := y / n - x / n;
  }

  lemma MultipleAtLeast(x: nat, q: int, n: nat)
    requires x == q * n && 0 < x
    ensures x >= n
  {
    assert q <= 0 ==> q * n <= 0;
    assert q >= 1 ==> q * n >= n;
  }

  /** A product of an odd and an even factor, both less than 2 * cap, is no multiple of 2 * cap. */
  lemma {:induction false} NoFactors(a: nat, b: nat, cap: nat, m: int)
    requires Power2(cap) && a % 2 == 1 && a * b == m * (2 * cap) && 0 < b
    ensures b >= 2 * cap
  {
    assert Power2(2 * cap);
    var q := OddFactor(2 * cap, a, b, m);
    MultipleAtLeast(b, q, 2 * cap);
  }

  /** Two probes of one round never meet in the same bucket. */
  lemma {:induction false} ProbesDiffer(h: nat, i: nat, j: nat, cap: nat)
    requires Power2(cap) && i < j < cap
    ensures Probe(h, i, cap) != Probe(h, j, cap)
  {
    if Probe(h, i, cap) == Probe(h, j, cap) {
      var m := SameRemainder(h + Triangle(i), h + Triangle(j), cap);
      Factors(i, j);
      hide *;
      Doubled(i, j, Triangle(j) - Triangle(i), m, cap);
    }
  }

  lemma {:induction false} Doubled(i: nat, j: nat, d: int, m: int, cap: nat)
    requires Power2(cap) && i < j < cap && 2 * d == (j - i) * (i + j + 1)
    ensures d != m * cap
  {
    hide Power2;
    if d == m * cap {
      var a, b := j - i, i + j + 1;
      assert a * b == m * (2 * cap);
      if a % 2 == 1 {
        NoFactors(a, b, cap, m);
      } else {
        OtherParity(i, j);
        assert b * a == m * (2 * cap);
        NoFactors(b, a, cap, m);
      }
    }
  }

  lemma OtherParity(i: nat, j: nat)
    requires i < j && (j - i) % 2 != 1
    ensures (i + j + 1) % 2 == 1
  {
  }

  /** The first n probes, in order. */
  function Probes(h: nat, n: nat, cap: nat): (s: seq<nat>)
    requires cap > 0
    ensures |s| == n && forall p | 0 <= p < n :: s[p] == Probe(h, p, cap)
  {
    if n == 0 then [] else Probes(h, n - 1, cap) + [Probe(h, n - 1, cap)]
  }

  /** A full round of probes visits every bucket. */
  lemma {:induction false} ProbesCover(h: nat, cap: nat, b: nat) returns (p: nat)
    requires Power2(cap) && b < cap
    ensures p < cap && Probe(h, p, cap) == b
  {
    var s := Probes(h, cap, cap);
    forall i, j | 0 <= i < j < |s| ensures s[i] != s[j] { ProbesDiffer(h, i, j, cap); }
    Indices.Pigeonhole(s, cap);
    assert b in s;
    p :| 0 <= p < |s| && s[p] == b;
  }

  // ----- the table's contents

  datatype Slot<K, V> = Empty | Item(key: K, value: V)

  /** key lies at probe p of its round, or would if it were there: no earlier bucket is empty or holds it. */
  ghost predicate Reaches<K, V>(slots: seq<Slot<K, V>>, h: nat, key: K, p: nat)
  {
    p < |slots| && forall q | 0 <= q < p ::
      slots[Probe(h, q, |slots|)].Item? && slots[Probe(h, q, |slots|)].key != key
  }

  /** Every key is where looking for it leads. */
  ghost predicate Placed<K, V>(slots: seq<Slot<K, V>>, hash: K -> nat)
  {
    forall b | 0 <= b < |slots| && slots[b].Item? ::
      exists p :: Reaches(slots, hash(slots[b].key), slots[b].key, p) && Probe(hash(slots[b].key), p, |slots|) == b
  }

  function Occupied<K, V>(slots: seq<Slot<K, V>>): (n: nat)
    ensures n <= |slots|
  {
    if slots == [] then 0 else Occupied(slots[..|slots| - 1]) + if slots[|slots| - 1].Item? then 1 else 0
  }

  /** The table stands for the map m. */
  ghost predicate Holds<K(!new), V>(slots: seq<Slot<K, V>>, m: map<K, V>)
  {
    && (forall b | 0 <= b < |slots| && slots[b].Item? :: slots[b].key in m && m[slots[b].key] == slots[b].value)
    && (forall key | key in m :: exists b :: 0 <= b < |slots| && slots[b].Item? && slots[b].key == key)
  }

  /** A table that is not full has an empty bucket. */
  lemma {:induction false} EmptySlot<K, V>(slots: seq<Slot<K, V>>) returns (b: nat)
    requires Occupied(slots) < |slots|
    ensures b < |slots| && slots[b].Empty?
    decreases |slots|
  {
    var last := |slots| - 1;
    if slots[last].Empty? {
      b := last;
    } else {
      b := EmptySlot(slots[..last]);
    }
  }

  lemma {:induction false} OccupiedMore<K, V>(slots: seq<Slot<K, V>>, b: nat, s: Slot<K, V>)
    requires b < |slots| && s.Item?
    ensures Occupied(slots[b := s]) == Occupied(slots) + if slots[b].Empty? then 1 else 0
    decreases |slots|
  {
    var last := |slots| - 1;
    if b == last {
      assert slots[b := s][..last] == slots[..last];
    } else {
      OccupiedMore(slots[..last], b, s);
      assert slots[b := s][..last] == slots[..last][b := s];
    }
  }

  /** Where a key is found, it is nowhere else. */
  lemma OnlyThere<K, V>(slots: seq<Slot<K, V>>, hash: K -> nat, key: K, p: nat, b: nat)
    requires Placed(slots, hash) && Reaches(slots, hash(key), key, p)
    requires b < |slots| && slots[b].Item? && slots[b].key == key
    ensures var c := Probe(hash(key), p, |slots|); slots[c].Item? && (slots[c].key == key ==> c == b)
  {
    var r: nat :| Reaches(slots, hash(key), key, r) && Probe(hash(key), r, |slots|) == b;
    hide Placed, Probe;
    assert !(r < p) && (p < r ==> slots[Probe(hash(key), p, |slots|)].Item?);
  }

  /** An empty bucket on a key's way means that the key is not in the table. */
  lemma NotThere<K, V>(slots: seq<Slot<K, V>>, hash: K -> nat, key: K, p: nat, b: nat)
    requires Placed(slots, hash) && Reaches(slots, hash(key), key, p) && slots[Probe(hash(key), p, |slots|)].Empty?
    requires b < |slots| && slots[b].Item?
    ensures slots[b].key != key
  {
    if slots[b].key == key { OnlyThere(slots, hash, key, p, b); }
  }

  /** Filling the empty bucket that a key's probes lead to keeps every key findable. */
  lemma PlacedMore<K, V>(slots: seq<Slot<K, V>>, hash: K -> nat, key: K, value: V, p: nat)
    requires Placed(slots, hash) && Reaches(slots, hash(key), key, p) && slots[Probe(hash(key), p, |slots|)].Empty?
    ensures Placed(slots[Probe(hash(key), p, |slots|) := Item(key, value)], hash)
  {
    var c := Probe(hash(key), p, |slots|);
    var r := slots[c := Item(key, value)];
    forall b | 0 <= b < |r| && r[b].Item?
      ensures exists q :: Reaches(r, hash(r[b].key), r[b].key, q) && Probe(hash(r[b].key), q, |r|) == b {
      if b == c {
        StillReaches(slots, hash, key, p, c, Item(key, value));
        assert Reaches(r, hash(r[b].key), r[b].key, p);
      } else {
        var q :| Reaches(slots, hash(slots[b].key), slots[b].key, q) && Probe(hash(slots[b].key), q, |slots|) == b;
        StillReaches(slots, hash, slots[b].key, q, c, Item(key, value));
      }
    }
  }

  lemma StillReaches<K, V>(slots: seq<Slot<K, V>>, hash: K -> nat, key: K, p: nat, c: nat, s: Slot<K, V>)
    requires Reaches(slots, hash(key), key, p) && c < |slots| && slots[c].Empty?
    ensures Reaches(slots[c := s], hash(key), key, p)
  {
  }

  /** So does replacing a value. */
  lemma PlacedSame<K, V>(slots: seq<Slot<K, V>>, hash: K -> nat, c: nat, value: V)
    requires Placed(slots, hash) && c < |slots| && slots[c].Item?
    ensures Placed(slots[c := Item(slots[c].key, value)], hash)
  {
    var r := slots[c := Item(slots[c].key, value)];
    forall b | 0 <= b < |r| && r[b].Item?
      ensures exists q :: Reaches(r, hash(r[b].key), r[b].key, q) && Probe(hash(r[b].key), q, |r|) == b {
      var q :| Reaches(slots, hash(slots[b].key), slots[b].key, q) && Probe(hash(slots[b].key), q, |slots|) == b;
      assert Reaches(r, hash(r[b].key), r[b].key, q);
    }
  }

  class Table<K(==,!new), V(0)> {
    const hash: K -> nat
    var items: array<Slot<K, V>>
    var count: nat
    ghost var contents: map<K, V>

    /** Load stays within three quarters of the capacity, which is zero or a power of two from 32 on. */
    ghost predicate Valid()
      reads this, items
    {
      && (items.Length == 0 || (items.Length >= 32 && Power2(items.Length)))
      && count == Occupied(items[..]) && count <= items.Length - items.Length / 4
      && Placed(items[..], hash) && Holds(items[..], contents)
    }

    constructor (hash: K -> nat)
      ensures Valid() && contents == map[] && items.Length == 0 && this.hash == hash && fresh(items)
    {
      this.hash := hash;
      items := new Slot<K, V>[0];
      count := 0;
      contents := map[];
    }

    /** The probing that find and insert share: the bucket that holds key, or the empty one its probes end at. */
    method Search(key: K) returns (b: nat, ghost p: nat)
      requires Placed(items[..], hash) && Power2(items.Length) && Occupied(items[..]) < items.Length
      ensures b < items.Length && (items[b].Empty? || items[b].key == key)
      ensures Reaches(items[..], hash(key), key, p) && b == Probe(hash(key), p, items.Length)
    {
      hide Placed, Power2;
      var cap := items.Length;
      ghost var s := items[..];
      ghost var h := hash(key);
      ghost var e := EmptySlot(s);
      ghost var last := ProbesCover(h, cap, e);
      p := 0;
      b := hash(key) % cap;
      assert b == Probe(h, 0, cap);
      var probe := 0;
      while probe < cap
        invariant probe == p <= last && b == Probe(h, p, cap) && Reaches(s, h, key, p)
      {
        if items[b].Empty? || items[b].key == key { return; }
        assert s[Probe(h, p, cap)] == items[b];
        assert p < last;
        NextProbe(h, p, cap);
        b := (b + probe + 1) % cap;
        probe := probe + 1;
        p := p + 1;
      }
    }

    /** find: the bucket that holds key, or -1 exactly if the map does not have it. */
    method Find(key: K) returns (found: int)
      requires Valid()
      ensures -1 <= found < items.Length
      ensures found == -1 <==> key !in contents
      ensures found >= 0 ==> items[found] == Item(key, contents[key])
    {
      hide Placed, Power2, Reaches, Occupied;
      if items.Length == 0 { return -1; }
      ghost var p;
      var b: nat;
      b, p := Search(key);
      if items[b].Empty? {
        Missing(p, key);
        return -1;
      }
      return b;
    }

    lemma Missing(p: nat, key: K)
      requires Valid() && Reaches(items[..], hash(key), key, p) && items[..][Probe(hash(key), p, items.Length)].Empty?
      ensures key !in contents
    {
      hide Reaches, Placed, Occupied, Power2;
      if key in contents {
        var b :| 0 <= b < items.Length && items[..][b].Item? && items[..][b].key == key;
        NotThere(items[..], hash, key, p, b);
      }
    }

    /** insert, with the value stored through the pointer that it returns. */
    method Insert(key: K, value: V)
      requires Valid() && count < items.Length - items.Length / 4
      modifies this, items
      ensures Valid() && contents == old(contents)[key := value] && items == old(items)
      ensures count == old(count) + if key in old(contents) then 0 else 1
    {
      hide Placed, Power2, Reaches, Occupied;
      ghost var p;
      var b: nat;
      b, p := Search(key);
      ghost var s := items[..];
      OccupiedMore(s, b, Item(key, value));
      if items[b].Empty? {
        Missing(p, key);
        PlacedMore(s, hash, key, value, p);
        count := count + 1;
      } else {
        PlacedSame(s, hash, b, value);
      }
      HoldsMore(s, hash, contents, b, p, key, value);
      items[b] := Item(key, value);
      assert items[..] == s[b := Item(key, value)];
      contents := contents[key := value];
    }

    constructor Sized(hash: K -> nat, capacity: nat)
      requires capacity >= 32 && Power2(capacity)
      ensures Valid() && contents == map[] && items.Length == capacity && count == 0 && this.hash == hash && fresh(items)
    {
      this.hash := hash;
      items := new Slot<K, V>[capacity](_ => Empty);
      count := 0;
      contents := map[];
      new;
      EmptyHolds(items[..], hash);
    }

    /** rehash: the capacity doubles, the map stays. */
    method Rehash()
      requires Valid()
      modifies this
      ensures Valid() && contents == old(contents) && count == old(count)
      ensures items.Length == (if old(items.Length) == 0 then 32 else 2 * old(items.Length)) && fresh(items)
    {
      hide Placed, Occupied;
      var capacity := if items.Length == 0 then 32 else 2 * items.Length;
      PowersFrom(items.Length);
      hide Power2;
      var rt := new Table<K, V>.Sized(hash, capacity);
      ghost var s := items[..];
      var i := 0;
      while i < items.Length
        invariant i <= items.Length && items[..] == s && count == Occupied(s) && fresh(rt) && fresh(rt.items)
        invariant rt.Valid() && rt.hash == hash && rt.items.Length == capacity
        invariant HoldsPart(s, i, contents, rt.contents) && rt.count == Occupied(s[..i])
        invariant unchanged(this)
      {
        PartNext(s, hash, i, contents, rt.contents);
        OccupiedSoFar(s, i);
        assert s[i] == items[i];
        if items[i].Item? {
          rt.Insert(items[i].key, items[i].value);
        }
        i := i + 1;
      }
      PartAll(s, contents, rt.contents);
      assert s[..i] == s;
      items := rt.items;
    }

    /** reserve: afterwards sixteen more keys fit; memory says whether a larger table could be had. */
    method Reserve(memory: bool) returns (ok: bool)
      requires Valid()
      modifies this
      ensures Valid() && contents == old(contents)
      ensures ok ==> count + 16 < items.Length - items.Length / 4
      ensures !ok <==> !memory && old(count) + 16 >= old(items.Length) - old(items.Length) / 4
    {
      if count + 16 >= items.Length - items.Length / 4 {
        if !memory { return false; }
        Rehash();
      }
      ok := true;
    }
  }

  lemma PowersFrom(n: nat)
    requires n == 0 || Power2(n)
    ensures Power2(if n == 0 then 32 else 2 * n)
  {
    assert Power2(1) && Power2(2) && Power2(4) && Power2(8) && Power2(16) && Power2(32);
  }

  /** No key lies in two buckets. */
  lemma KeysOnce<K, V>(slots: seq<Slot<K, V>>, hash: K -> nat, b: nat, c: nat)
    requires Placed(slots, hash) && b < |slots| && c < |slots| && slots[b].Item? && slots[c].Item?
    requires slots[b].key == slots[c].key
    ensures b == c
  {
    var key := slots[b].key;
    var r: nat :| Reaches(slots, hash(key), key, r) && Probe(hash(key), r, |slots|) == b;
    OnlyThere(slots, hash, key, r, c);
  }

  lemma {:induction false} OccupiedSoFar<K, V>(slots: seq<Slot<K, V>>, i: nat)
    requires i <= |slots|
    ensures Occupied(slots[..i]) <= Occupied(slots)
    ensures i < |slots| ==> Occupied(slots[..i + 1]) == Occupied(slots[..i]) + if slots[i].Item? then 1 else 0
    ensures i < |slots| && slots[i].Item? ==> Occupied(slots[..i]) < Occupied(slots)
    decreases |slots| - i
  {
    if i < |slots| {
      assert slots[..i + 1][..i] == slots[..i];
      OccupiedSoFar(slots, i + 1);
    } else {
      assert slots[..i] == slots;
    }
  }

  /** m stands for the first i buckets of a table that stands for all. */
  ghost predicate HoldsPart<K(!new), V>(slots: seq<Slot<K, V>>, i: nat, all: map<K, V>, m: map<K, V>)
  {
    && (forall b | 0 <= b < |slots| && b < i && slots[b].Item? :: slots[b].key in m)
    && (forall k | k in m :: k in all && m[k] == all[k])
    && (forall k | k in m :: exists b :: 0 <= b < |slots| && b < i && slots[b].Item? && slots[b].key == k)
  }

  lemma PartNext<K(!new), V>(slots: seq<Slot<K, V>>, hash: K -> nat, i: nat, all: map<K, V>, m: map<K, V>)
    requires Placed(slots, hash) && Holds(slots, all) && HoldsPart(slots, i, all, m) && i < |slots|
    ensures slots[i].Empty? ==> HoldsPart(slots, i + 1, all, m)
    ensures slots[i].Item? ==> slots[i].key !in m && HoldsPart(slots, i + 1, all, m[slots[i].key := slots[i].value])
  {
    hide Placed;
    if slots[i].Item? {
      var key := slots[i].key;
      if key in m {
        var b :| 0 <= b < i && slots[b].Item? && slots[b].key == key;
        KeysOnce(slots, hash, b, i);
      }
      var m' := m[key := slots[i].value];
      forall k | k in m' ensures exists b :: 0 <= b < |slots| && b < i + 1 && slots[b].Item? && slots[b].key == k {
        if k == key {
          assert slots[i].key == k;
        } else {
          var b :| 0 <= b < i && slots[b].Item? && slots[b].key == k;
        }
      }
    }
  }

  lemma PartAll<K(!new), V>(slots: seq<Slot<K, V>>, all: map<K, V>, m: map<K, V>)
    requires Holds(slots, all) && HoldsPart(slots, |slots|, all, m)
    ensures m == all
  {
    forall k | k in all ensures k in m {
      var b :| 0 <= b < |slots| && slots[b].Item? && slots[b].key == k;
    }
  }

  lemma EmptyHolds<K(!new), V>(slots: seq<Slot<K, V>>, hash: K -> nat)
    requires forall b | 0 <= b < |slots| :: slots[b].Empty?
    ensures Occupied(slots) == 0 && Placed(slots, hash) && Holds(slots, map[])
  {
    NoneOccupied(slots);
  }

  lemma NoneOccupied<K, V>(slots: seq<Slot<K, V>>)
    requires forall b | 0 <= b < |slots| :: slots[b].Empty?
    ensures Occupied(slots) == 0
    decreases |slots|
  {
    if slots != [] { NoneOccupied(slots[..|slots| - 1]); }
  }

  lemma NextProbe(h: nat, p: nat, cap: nat)
    requires cap > 0
    ensures Probe(h, p + 1, cap) == (Probe(h, p, cap) + p + 1) % cap
  {
    var x := h + Triangle(p);
    assert x == (x / cap) * cap + x % cap;
    RemainderStep(x, p + 1, cap);
  }

  lemma RemainderStep(x: nat, y: nat, n: nat)
    requires n > 0
    ensures (x % n + y) % n == (x + y) % n
  {
    Multiple(x % n + y, x / n, n);
    assert (x / n) * n + x % n == x;
  }

  lemma {:induction false} Multiple(x: nat, k: nat, n: nat)
    requires n > 0
    ensures (k * n + x) % n == x % n
    decreases k
  {
    if k > 0 {
      Multiple(x, k - 1, n);
      OneMore((k - 1) * n + x, n);
      assert k * n + x == (k - 1) * n + x + n;
    }
  }

  lemma OneMore(x: nat, n: nat)
    requires n > 0
    ensures (x + n) % n == x % n
  {
    var q, r := x / n, x % n;
    Quotient(x + n, q + 1, r, n);
  }

  lemma Quotient(x: int, q: int, r: int, n: nat)
    requires n > 0 && x == q * n + r && 0 <= r < n
    ensures x % n == r
  {
    var d := x / n - q;
    assert d * n == r - x % n;
    AtLeast(d, n);
  }

  lemma AtLeast(d: int, n: nat)
    ensures d > 0 ==> d * n >= n
    ensures d < 0 ==> d * n + n <= 0
  {
  }

  lemma HoldsMore<K(!new), V>(slots: seq<Slot<K, V>>, hash: K -> nat, m: map<K, V>, b: nat, p: nat, key: K, value: V)
    requires Placed(slots, hash) && Holds(slots, m) && Reaches(slots, hash(key), key, p) && b == Probe(hash(key), p, |slots|)
    requires slots[b].Empty? || slots[b].key == key
    ensures Holds(slots[b := Item(key, value)], m[key := value])
  {
    hide Reaches, Placed;
    var r := slots[b := Item(key, value)];
    forall c | 0 <= c < |r| && r[c].Item? ensures r[c].key in m[key := value] && m[key := value][r[c].key] == r[c].value
    {
      if c != b {
        if slots[b].Empty? {
          NotThere(slots, hash, key, p, c);
        } else if slots[c].key == key {
          OnlyThere(slots, hash, key, p, c);
        }
      }
    }
    var m' := m[key := value];
    forall k | k in m' ensures exists c :: 0 <= c < |r| && r[c].Item? && r[c].key == k {
      if k == key {
        assert r[b].key == k;
      } else {
        var c :| 0 <= c < |slots| && slots[c].Item? && slots[c].key == k;
        assert r[c].Item? && r[c].key == k;
      }
    }
  }
}
