/**
 Sorting node sets in place: three-way quicksort that falls back to insertion for
 small parts, and removal of duplicates from a sorted set.  The order is a parameter.
 */
module NodeSort {
  import opened SortOrder

  /** Two elements within a part change places. */
  method Swap<T>(a: array<T>, i: nat, j: nat, ghost first: seq<T>, ghost b: nat, ghost e: nat)
    requires b <= i < e <= a.Length && b <= j < e && Rearranged(first, a[..], b, e)
    modifies a
    ensures a[..] == SwapAt(old(a[..]), i, j) && Rearranged(first, a[..], b, e)
  {
    SwapRearranges(a[..], i, j, b, e);
    RearrangedThen(first, a[..], SwapAt(a[..], i, j), b, e);
    hide Rearranged;
    var x := a[i];
    a[i] := a[j];
    a[j] := x;
    assert a[..] == SwapAt(old(a[..]), i, j);
  }

  // ----- partition

  /** The pivot v fills s[p..q]; less elements lie in s[l..p] and greater ones in s[q..g]. */
  ghost predicate Zones<T>(less: (T, T) -> bool, s: seq<T>, v: T, l: nat, p: nat, q: nat, g: nat)
  {
    && l <= p < q <= g <= |s|
    && (forall k | l <= k < p :: less(s[k], v))
    && (forall k | p <= k < q :: s[k] == v)
    && (forall k | q <= k < g :: less(v, s[k]))
  }

  lemma GrowRight<T>(less: (T, T) -> bool, s: seq<T>, v: T, l: nat, p: nat, q: nat, g: nat)
    requires Zones(less, s, v, l, p, q, g) && g < |s|
    ensures less(v, s[g]) ==> Zones(less, s, v, l, p, q, g + 1)
    ensures s[g] == v ==> Zones(less, SwapAt(s, g, q), v, l, p, q + 1, g + 1)
  {
  }

  lemma GrowLeft<T>(less: (T, T) -> bool, s: seq<T>, v: T, l: nat, p: nat, q: nat, g: nat)
    requires Zones(less, s, v, l, p, q, g) && 0 < l
    ensures less(s[l - 1], v) ==> Zones(less, s, v, l - 1, p, q, g)
    ensures s[l - 1] == v ==> Zones(less, SwapAt(s, l - 1, p - 1), v, l - 1, p - 1, q, g)
  {
  }

  lemma MoveLeft<T>(less: (T, T) -> bool, s: seq<T>, v: T, l: nat, p: nat, q: nat, g: nat)
    requires Zones(less, s, v, l, p, q, g) && 0 < l && less(v, s[l - 1])
    ensures Zones(less, SwapAt(SwapAt(s, l - 1, p - 1), p - 1, q - 1), v, l - 1, p - 1, q - 1, g)
  {
  }

  lemma MoveRight<T>(less: (T, T) -> bool, s: seq<T>, v: T, l: nat, p: nat, q: nat, g: nat)
    requires Zones(less, s, v, l, p, q, g) && g < |s| && less(s[g], v)
    ensures Zones(less, SwapAt(if q != g then SwapAt(s, p, q) else s, g, p), v, l, p + 1, q + 1, g + 1)
  {
  }

  lemma MoveBoth<T>(less: (T, T) -> bool, s: seq<T>, v: T, l: nat, p: nat, q: nat, g: nat)
    requires Zones(less, s, v, l, p, q, g) && g < |s| && 0 < l && less(s[g], v) && less(v, s[l - 1])
    ensures Zones(less, SwapAt(s, g, l - 1), v, l - 1, p, q, g + 1)
  {
  }

  lemma SwapSelf<T>(s: seq<T>, i: nat)
    requires i < |s|
    ensures SwapAt(s, i, i) == s
  {
  }

  /** From the right: elements equal to the pivot join it, until one is found that belongs to the left. */
  method ScanRight<T(==)>(a: array<T>, less: (T, T) -> bool, ghost v: T, l: nat, p: nat, eqend: nat, gtbeg: nat,
                          begin: nat, end: nat)
    returns (q: nat, g: nat)
    requires Zones(less, a[..], v, l, p, eqend, gtbeg) && begin <= l && gtbeg <= end <= a.Length
    modifies a
    ensures Rearranged(old(a[..]), a[..], begin, end)
    ensures Zones(less, a[..], v, l, p, q, g) && gtbeg <= g <= end && (g < end ==> !less(v, a[g]) && a[g] != v)
  {
    q, g := eqend, gtbeg;
    ghost var s := a[..];
    RearrangedSame(s, begin, end);
    while g != end
      invariant gtbeg <= g <= end && Zones(less, a[..], v, l, p, q, g)
      invariant Rearranged(s, a[..], begin, end)
    {
      ghost var t := a[..];
      assert t[g] == a[g] && t[p] == v == a[p];
      GrowRight(less, t, v, l, p, q, g);
      hide Rearranged, Zones, SwapAt;
      if !less(a[p], a[g]) {
        if a[g] != a[p] { return; }
        Swap(a, g, q, s, begin, end);
        q := q + 1;
      }
      g := g + 1;
    }
  }

  /** The element before l, equal to the pivot, joins it. */
  method JoinLeft<T>(a: array<T>, less: (T, T) -> bool, ghost v: T, l: nat, p: nat, ghost q: nat, ghost g: nat,
                     ghost first: seq<T>, ghost begin: nat, ghost end: nat)
    requires Zones(less, a[..], v, l, p, q, g) && Rearranged(first, a[..], begin, end)
    requires begin < l && g <= end <= a.Length && a[..][l - 1] == v
    modifies a
    ensures Rearranged(first, a[..], begin, end) && Zones(less, a[..], v, l - 1, p - 1, q, g)
    ensures g < end ==> a[..][g] == old(a[..])[g]
  {
    GrowLeft(less, a[..], v, l, p, q, g);
    Swap(a, l - 1, p - 1, first, begin, end);
  }

  /** From the left, the same for elements that belong to the right. */
  method ScanLeft<T(==)>(a: array<T>, less: (T, T) -> bool, ghost v: T, ltend: nat, eqbeg: nat, q: nat, g: nat,
                         begin: nat, end: nat)
    returns (l: nat, p: nat)
    requires Zones(less, a[..], v, ltend, eqbeg, q, g) && begin <= ltend && g <= end <= a.Length
    modifies a
    ensures Rearranged(old(a[..]), a[..], begin, end)
    ensures Zones(less, a[..], v, l, p, q, g) && begin <= l <= ltend
    ensures l > begin ==> !less(a[..][l - 1], v) && a[..][l - 1] != v
    ensures g < end ==> a[..][g] == old(a[..])[g]
  {
    l, p := ltend, eqbeg;
    ghost var s := a[..];
    RearrangedSame(s, begin, end);
    while l != begin
      invariant begin <= l <= ltend && Zones(less, a[..], v, l, p, q, g)
      invariant Rearranged(s, a[..], begin, end)
      invariant g < end ==> a[..][g] == s[g]
    {
      ghost var t := a[..];
      assert t[l - 1] == a[l - 1] && t[p] == v == a[p];
      GrowLeft(less, t, v, l, p, q, g);
      assert l <= p < q <= g;
      hide Rearranged, Zones;
      if !less(a[l - 1], a[p]) {
        if a[p] != a[l - 1] { return; }
        JoinLeft(a, less, v, l, p, q, g, s, begin, end);
        p := p - 1;
      }
      l := l - 1;
    }
  }

  /** Nothing is left to scan on the right: the pivot's range moves left by one, past a greater element. */
  method ShiftLeft<T>(a: array<T>, less: (T, T) -> bool, ghost v: T, ltend: nat, eqbeg: nat, eqend: nat, ghost g: nat,
                      ghost begin: nat, ghost end: nat)
    returns (l: nat, p: nat, q: nat)
    requires Zones(less, a[..], v, ltend, eqbeg, eqend, g) && begin < ltend && g <= end <= a.Length
    requires less(v, a[..][ltend - 1])
    modifies a
    ensures Rearranged(old(a[..]), a[..], begin, end)
    ensures l == ltend - 1 && Zones(less, a[..], v, l, p, q, g)
  {
    ghost var s := a[..];
    RearrangedSame(s, begin, end);
    MoveLeft(less, s, v, ltend, eqbeg, eqend, g);
    l, p, q := ltend - 1, eqbeg - 1, eqend - 1;
    if l != p {
      Swap(a, l, p, s, begin, end);
    } else {
      SwapSelf(s, p);
    }
    Swap(a, p, q, s, begin, end);
  }

  /** Nothing is left to scan on the left: the pivot's range moves right by one, past a less element. */
  method ShiftRight<T>(a: array<T>, less: (T, T) -> bool, ghost v: T, ghost l: nat, eqbeg: nat, eqend: nat, gtbeg: nat,
                       ghost begin: nat, ghost end: nat)
    returns (p: nat, q: nat, g: nat)
    requires Zones(less, a[..], v, l, eqbeg, eqend, gtbeg) && begin <= l && gtbeg < end <= a.Length
    requires less(a[..][gtbeg], v)
    modifies a
    ensures Rearranged(old(a[..]), a[..], begin, end)
    ensures g == gtbeg + 1 && Zones(less, a[..], v, l, p, q, g)
  {
    ghost var s := a[..];
    RearrangedSame(s, begin, end);
    MoveRight(less, s, v, l, eqbeg, eqend, gtbeg);
    p, q, g := eqbeg, eqend, gtbeg;
    if q != g {
      Swap(a, p, q, s, begin, end);
    }
    q := q + 1;
    Swap(a, g, p, s, begin, end);
    g, p := g + 1, p + 1;
  }

  /** Room for a stray element: the pivot's range moves by one, or two strays change places. */
  method MakeRoom<T>(a: array<T>, less: (T, T) -> bool, ghost v: T, ltend: nat, eqbeg: nat, eqend: nat, gtbeg: nat,
                     begin: nat, end: nat)
    returns (l: nat, p: nat, q: nat, g: nat)
    requires Zones(less, a[..], v, ltend, eqbeg, eqend, gtbeg) && begin <= ltend && gtbeg <= end <= a.Length
    requires !(gtbeg == end && ltend == begin)
    requires gtbeg < end ==> less(a[..][gtbeg], v)
    requires ltend > begin ==> less(v, a[..][ltend - 1])
    modifies a
    ensures Rearranged(old(a[..]), a[..], begin, end)
    ensures Zones(less, a[..], v, l, p, q, g) && begin <= l <= ltend && gtbeg <= g <= end
    ensures l < ltend || gtbeg < g
  {
    l, p, q, g := ltend, eqbeg, eqend, gtbeg;
    if g == end {
      l, p, q := ShiftLeft(a, less, v, l, p, q, g, begin, end);
    } else if l == begin {
      p, q, g := ShiftRight(a, less, v, l, p, q, g, begin, end);
    } else {
      RearrangedSame(a[..], begin, end);
      MoveBoth(less, a[..], v, l, p, q, g);
      l := l - 1;
      Swap(a, g, l, a[..], begin, end);
      g := g + 1;
    }
  }

  /** partition: the pivot's range is not empty, everything before it is less and everything after it greater. */
  method Partition<T(==,!new)>(a: array<T>, begin: nat, middle: nat, end: nat, less: (T, T) -> bool)
    returns (eqbeg: nat, eqend: nat)
    requires begin <= middle < end <= a.Length && StrictTotal(less)
    modifies a
    ensures Rearranged(old(a[..]), a[..], begin, end)
    ensures end <= a.Length && Zones(less, a[..], old(a[middle]), begin, eqbeg, eqend, end)
  {
    hide StrictTotal, Rearranged;
    ghost var v := a[middle];
    eqbeg, eqend := middle, middle + 1;
    while eqbeg != begin && a[eqbeg - 1] == a[eqbeg]
      invariant begin <= eqbeg <= middle && forall k | eqbeg <= k < eqend :: a[k] == v
    {
      eqbeg := eqbeg - 1;
    }
    while eqend != end && a[eqend] == a[eqbeg]
      invariant middle < eqend <= end && forall k | eqbeg <= k < eqend :: a[k] == v
    {
      eqend := eqend + 1;
    }
    var ltend: nat, gtbeg: nat := eqbeg, eqend;
    RearrangedSame(a[..], begin, end);
    ghost var first := a[..];
    while true
      invariant Zones(less, a[..], v, ltend, eqbeg, eqend, gtbeg) && begin <= ltend && gtbeg <= end
      invariant Rearranged(first, a[..], begin, end)
      decreases ltend - begin + (end - gtbeg)
    {
      ghost var s := a[..];
      eqend, gtbeg := ScanRight(a, less, v, ltend, eqbeg, eqend, gtbeg, begin, end);
      RearrangedThen(first, s, a[..], begin, end);
      s := a[..];
      assert gtbeg < end ==> s[gtbeg] == a[gtbeg];
      ltend, eqbeg := ScanLeft(a, less, v, ltend, eqbeg, eqend, gtbeg, begin, end);
      RearrangedThen(first, s, a[..], begin, end);
      if gtbeg == end && ltend == begin { return; }
      if gtbeg < end {
        assert a[gtbeg] == a[..][gtbeg] == s[gtbeg];
        Total(less, v, a[gtbeg]);
      }
      if ltend > begin { Total(less, a[..][ltend - 1], v); }
      s := a[..];
      ltend, eqbeg, eqend, gtbeg := MakeRoom(a, less, v, ltend, eqbeg, eqend, gtbeg, begin, end);
      RearrangedThen(first, s, a[..], begin, end);
    }
  }

  // ----- median

  method Median3<T>(a: array<T>, first: nat, middle: nat, last: nat, less: (T, T) -> bool, ghost begin: nat, ghost end: nat)
    requires begin <= first < end <= a.Length && begin <= middle < end && begin <= last < end
    modifies a
    ensures Rearranged(old(a[..]), a[..], begin, end)
  {
    ghost var s := a[..];
    RearrangedSame(s, begin, end);
    hide Rearranged, SwapAt;
    if less(a[middle], a[first]) { Swap(a, middle, first, s, begin, end); }
    if less(a[last], a[middle]) { Swap(a, last, middle, s, begin, end); }
    if less(a[middle], a[first]) { Swap(a, middle, first, s, begin, end); }
  }

  /** median: of three elements, or of nine in a long part; it only rearranges. */
  method Median<T>(a: array<T>, first: nat, middle: nat, last: nat, less: (T, T) -> bool)
    requires first <= middle <= last < a.Length && middle == first + (last - first + 1) / 2
    modifies a
    ensures Rearranged(old(a[..]), a[..], first, last + 1)
  {
    ghost var s := a[..];
    if last - first <= 40 {
      Median3(a, first, middle, last, less, first, last + 1);
    } else {
      var step := (last - first + 1) / 8;
      hide Rearranged;
      Median3(a, first, first + step, first + 2 * step, less, first, last + 1);
      ghost var r := a[..];
      Median3(a, middle - step, middle, middle + step, less, first, last + 1);
      RearrangedThen(s, r, a[..], first, last + 1);
      r := a[..];
      Median3(a, last - 2 * step, last - step, last, less, first, last + 1);
      RearrangedThen(s, r, a[..], first, last + 1);
      r := a[..];
      Median3(a, first + step, middle, last - step, less, first, last + 1);
      RearrangedThen(s, r, a[..], first, last + 1);
    }
  }

  // ----- insertion sort

  /** copy_backwards */
  method CopyBackwards<T>(a: array<T>, begin: nat, end: nat)
    requires begin <= end < a.Length
    modifies a
    ensures Shifted(old(a[..]), a[..], begin, end)
  {
    hide Shifted;
    ghost var s := a[..];
    ShiftedStart(s, end);
    var hole := end;
    while hole != begin
      invariant begin <= hole <= end && Shifted(s, a[..], hole, end)
    {
      ShiftOne(s, a[..], hole, end);
      a[hole] := a[hole - 1];
      hole := hole - 1;
    }
  }

  /** The hole moves down from it as long as the element there is less than the one before. */
  method MoveHole<T(!new)>(a: array<T>, ghost begin: nat, it: nat, less: (T, T) -> bool) returns (hole: nat)
    requires StrictTotal(less) && begin < it < a.Length && !less(a[..][it], a[..][begin])
    modifies a
    ensures begin < hole <= it && Shifted(old(a[..]), a[..], hole, it) && !less(old(a[..])[it], old(a[..])[hole - 1])
    ensures forall k | hole <= k < it :: !less(old(a[..])[k], old(a[..])[it])
  {
    hide StrictTotal, Shifted;
    ghost var s := a[..];
    ShiftedStart(s, it);
    var val := a[it];
    hole := it;
    while true
      invariant begin < hole <= it && Shifted(s, a[..], hole, it)
      invariant forall k | hole <= k < it :: !less(s[k], s[it])
      decreases hole
    {
      ShiftOne(s, a[..], hole, it);
      var x := a[hole - 1];
      assert x == s[hole - 1];
      if !less(val, x) { return; }
      Total(less, val, x);
      a[hole] := x;
      hole := hole - 1;
    }
  }

  /** The element at it moves to where it belongs in the sorted a[begin..it]. */
  method Insert<T(!new)>(a: array<T>, begin: nat, it: nat, less: (T, T) -> bool)
    requires StrictTotal(less) && begin < it < a.Length && Sorted(less, a[begin..it])
    modifies a
    ensures Rearranged(old(a[..]), a[..], begin, it + 1) && Sorted(less, a[begin..it + 1])
  {
    hide StrictTotal, Sorted, Shifted, Inserted;
    ghost var s := a[..];
    assert s[begin..it] == a[begin..it];
    var val, front, hole := a[it], a[begin], begin;
    assert val == s[it] && front == s[begin];
    if less(val, front) {
      FrontLess(less, s, begin, it);
      CopyBackwards(a, begin, it);
    } else {
      hole := MoveHole(a, begin, it, less);
    }
    InsertedRearranges(s, begin, hole, it);
    InsertedSorted(less, s, begin, hole, it);
    ShiftedFilled(s, a[..], hole, it);
    hide Rearranged;
    a[hole] := val;
    assert a[begin..it + 1] == a[..][begin..it + 1];
  }

  lemma FrontLess<T(!new)>(less: (T, T) -> bool, s: seq<T>, begin: nat, it: nat)
    requires StrictTotal(less) && begin < it < |s| && Sorted(less, s[begin..it]) && less(s[it], s[begin])
    ensures forall k | begin <= k < it :: !less(s[k], s[it])
  {
    hide StrictTotal;
    var t := s[begin..it];
    forall k | begin <= k < it ensures !less(s[k], s[it]) {
      Total(less, s[it], s[begin]);
      assert t[k - begin] == s[k] && t[0] == s[begin];
      if k > begin { Transitive(less, s[it], s[begin], s[k]); }
    }
  }

  method InsertionSort<T(!new)>(a: array<T>, begin: nat, end: nat, less: (T, T) -> bool)
    requires StrictTotal(less) && begin < end <= a.Length
    modifies a
    ensures Rearranged(old(a[..]), a[..], begin, end) && Sorted(less, a[begin..end])
  {
    ghost var s := a[..];
    RearrangedSame(s, begin, end);
    hide StrictTotal, Rearranged;
    var it := begin + 1;
    while it != end
      invariant begin < it <= end && Rearranged(s, a[..], begin, end) && Sorted(less, a[begin..it])
    {
      ghost var r := a[..];
      Insert(a, begin, it, less);
      RearrangedWider(r, a[..], begin, it + 1, begin, end);
      RearrangedThen(s, r, a[..], begin, end);
      it := it + 1;
    }
  }

  // ----- sort

  lemma ZonesPart<T(!new)>(less: (T, T) -> bool, s: seq<T>, v: T, b: nat, p: nat, q: nat, e: nat)
    requires StrictTotal(less) && Zones(less, s, v, b, p, q, e)
    ensures Parted(less, s, b, p, q, e)
  {
    hide StrictTotal;
    forall i, j | b <= i < q && p <= j < e && !(q <= i && j < p) ensures !less(s[j], s[i]) {
      Total(less, s[i], v);
      Total(less, v, s[j]);
      Total(less, s[j], s[i]);
      Transitive(less, s[i], v, s[j]);
    }
  }

  /** One round: the part is rearranged around a pivot's range that is not empty. */
  method Divide<T(==,!new)>(a: array<T>, begin: nat, end: nat, less: (T, T) -> bool) returns (eqbeg: nat, eqend: nat)
    requires begin < end <= a.Length && StrictTotal(less)
    modifies a
    ensures Rearranged(old(a[..]), a[..], begin, end) && Parted(less, a[..], begin, eqbeg, eqend, end) && eqbeg < eqend
  {
    hide StrictTotal, Rearranged, Parted;
    ghost var s := a[..];
    var middle := begin + (end - begin) / 2;
    Median(a, begin, middle, end - 1, less);
    ghost var r := a[..];
    eqbeg, eqend := Partition(a, begin, middle, end, less);
    RearrangedThen(s, r, a[..], begin, end);
    ZonesPart(less, a[..], r[middle], begin, eqbeg, eqend, end);
  }

  function Size(from: int, to: int): int { to - from }

  /** sort: a sorted rearrangement.  The recursion is on the smaller side of the pivot's range, so
      its depth is at most the binary logarithm of the number of elements. */
  method Sort<T(==,!new)>(a: array<T>, from: nat, to: nat, less: (T, T) -> bool) returns (ghost depth: nat)
    requires from <= to <= a.Length && StrictTotal(less)
    modifies a
    ensures Rearranged(old(a[..]), a[..], from, to) && Sorted(less, a[..][from..to])
    ensures depth == 0 || Pow2(depth) <= to - from
    decreases Size(from, to), 1
  {
    hide StrictTotal, Rearranged, Narrowed, Parted, Sorted;
    var begin, end := from, to;
    depth := 0;
    ghost var s := a[..];
    RearrangedSame(s, from, to);
    NarrowedStart(less, s, from, to);
    while end - begin > 32
      invariant from <= begin <= end <= to && Rearranged(s, a[..], from, to)
      invariant Narrowed(less, a[..], from, begin, end, to)
      invariant depth == 0 || Pow2(depth) <= to - from
    {
      ghost var d: nat;
      begin, end, d := Round(a, s, from, begin, end, to, less);
      if d > depth { depth := d; }
    }
    ghost var r := a[..];
    if begin != end {
      InsertionSort(a, begin, end, less);
      assert a[begin..end] == a[..][begin..end];
    } else {
      RearrangedSame(r, begin, end);
      SortedEmpty(less, r, begin);
    }
    NarrowedKept(less, r, a[..], from, begin, end, to);
    NarrowedSorted(less, a[..], from, begin, end, to);
    RearrangedWider(r, a[..], begin, end, from, to);
    RearrangedThen(s, r, a[..], from, to);
  }

  /** One round of the loop of sort, with the recursive call on the smaller side. */
  method Round<T(==,!new)>(a: array<T>, ghost s: seq<T>, ghost from: nat, begin: nat, end: nat, ghost to: nat,
                           less: (T, T) -> bool)
    returns (b: nat, e: nat, ghost depth: nat)
    requires from <= begin && end <= to <= a.Length && end - begin > 32 && StrictTotal(less)
    requires Rearranged(s, a[..], from, to) && Narrowed(less, a[..], from, begin, end, to)
    modifies a
    ensures begin <= b <= e <= end && e - b < end - begin
    ensures Rearranged(s, a[..], from, to) && Narrowed(less, a[..], from, b, e, to)
    ensures 0 < depth && Pow2(depth) <= end - begin
    decreases Size(begin, end), 0
  {
    hide StrictTotal, Rearranged, Narrowed, Sorted, Pow2;
    ghost var r := a[..];
    var eqbeg, eqend := Divide(a, begin, end, less);
    assert begin <= eqbeg < eqend <= end;
    hide Parted;
    NarrowedKept(less, r, a[..], from, begin, end, to);
    RearrangedWider(r, a[..], begin, end, from, to);
    RearrangedThen(s, r, a[..], from, to);
    r := a[..];
    ghost var d: nat;
    if eqbeg - begin > end - eqend {
      d := Sort(a, eqend, end, less);
      PartedKept(less, r, a[..], begin, eqbeg, eqend, end, eqend, end);
      Within(less, r, a[..], s, from, begin, end, to, eqend, end);
      CloseRight(less, a[..], from, begin, eqbeg, eqend, end, to);
      Deeper(d, end - eqend, end - begin);
      b, e := begin, eqbeg;
    } else {
      d := Sort(a, begin, eqbeg, less);
      PartedKept(less, r, a[..], begin, eqbeg, eqend, end, begin, eqbeg);
      Within(less, r, a[..], s, from, begin, end, to, begin, eqbeg);
      CloseLeft(less, a[..], from, begin, eqbeg, eqend, end, to);
      Deeper(d, eqbeg - begin, end - begin);
      b, e := eqend, end;
    }
    depth := d + 1;
  }

  /** Rearranging c..d only changes what is still to be sorted. */
  lemma Within<T>(less: (T, T) -> bool, r: seq<T>, q: seq<T>, s: seq<T>,
                  from: nat, begin: nat, end: nat, to: nat, c: nat, d: nat)
    requires Narrowed(less, r, from, begin, end, to) && Rearranged(s, r, from, to)
    requires Rearranged(r, q, c, d) && begin <= c && d <= end
    ensures Narrowed(less, q, from, begin, end, to) && Rearranged(s, q, from, to)
  {
    RearrangedWider(r, q, c, d, begin, end);
    NarrowedKept(less, r, q, from, begin, end, to);
    RearrangedWider(r, q, c, d, from, to);
    RearrangedThen(s, r, q, from, to);
  }

  lemma Deeper(d: nat, m: nat, n: nat)
    requires (d == 0 || Pow2(d) <= m) && 2 * m < n && n > 32
    ensures Pow2(d + 1) <= n
  {
    assert Pow2(d + 1) == 2 * Pow2(d);
  }

  lemma NarrowedStart<T>(less: (T, T) -> bool, s: seq<T>, from: nat, to: nat)
    requires from <= to <= |s|
    ensures Narrowed(less, s, from, from, to, to)
  {
  }

  lemma SortedEmpty<T>(less: (T, T) -> bool, s: seq<T>, b: nat)
    requires b <= |s|
    ensures Sorted(less, s[b..b])
  {
  }

  // ----- duplicates

  /** Up to begin nothing has been merged away. */
  method SkipHead<T(==)>(a: array<T>, first: nat, end: nat) returns (begin: nat)
    requires first <= end <= a.Length
    ensures first <= begin <= end && Merged(a[first..begin]) == a[first..begin]
    ensures begin < end ==> Merged(a[first..begin + 1]) == a[first..begin + 1]
    ensures begin == end ==> first == end
  {
    begin := first;
    while end - begin > 1 && a[begin] != a[begin + 1]
      invariant first <= begin <= end && Merged(a[first..begin]) == a[first..begin]
      invariant begin < end ==> Merged(a[first..begin + 1]) == a[first..begin + 1]
      invariant begin == end ==> first == end
    {
      MergedNext(a[..], first, begin + 1);
      assert a[first..begin + 2] == a[..][first..begin + 2] == a[first..begin + 1] + [a[begin + 1]];
      assert a[first..begin + 1] == a[..][first..begin + 1];
      begin := begin + 1;
    }
  }

  /** In t, s[first..begin] has been merged into the part up to write, and the rest is as it was. */
  ghost predicate Merging<T>(s: seq<T>, t: seq<T>, first: nat, write: nat, begin: nat)
  {
    && first <= write < begin <= |s| == |t|
    && t[..first] == s[..first] && t[begin..] == s[begin..] && t[first..write + 1] == Merged(s[first..begin])
  }

  lemma MergeStep<T>(s: seq<T>, t: seq<T>, first: nat, write: nat, begin: nat)
    requires Merging(s, t, first, write, begin) && begin < |s|
    ensures t[begin] == t[write] ==> Merging(s, t, first, write, begin + 1)
    ensures t[begin] != t[write] ==> Merging(s, t[write + 1 := t[begin]], first, write + 1, begin + 1)
  {
    MergedNext(s, first, begin);
    var part := s[first..begin];
    assert part[|part| - 1] == s[begin - 1];
    assert t[write] == t[first..write + 1][write - first];
    hide Merged;
    assert t[begin] == t[begin..][0] == s[begin..][0] == s[begin];
    assert t[begin + 1..] == t[begin..][1..] && s[begin + 1..] == s[begin..][1..];
    var r := t[write + 1 := t[begin]];
    assert r[begin + 1..] == t[begin + 1..] && r[..first] == t[..first];
    assert r[first..write + 2] == t[first..write + 1] + [t[begin]];
  }

  /** unique: runs of equal elements shrink to one; the result's end is returned. */
  method Unique<T(==)>(a: array<T>, first: nat, end: nat) returns (last: nat)
    requires first <= end <= a.Length
    modifies a
    ensures first <= last <= end && a[..first] == old(a[..first]) && a[end..] == old(a[end..])
    ensures a[first..last] == Merged(old(a[first..end]))
  {
    ghost var s := a[..];
    var begin := SkipHead(a, first, end);
    if begin == end { return begin; }
    MergingStart(s, first, begin);
    assert s[first..begin + 1] == a[first..begin + 1];
    hide Merging, Merged;
    last := MergeTail(a, s, first, begin, end);
    MergingEnd(s, a[..], first, last - 1, end);
    assert a[first..last] == a[..][first..last] && s[first..end] == old(a[first..end]);
  }

  /** The merging loop of unique; write is the last element written. */
  method MergeTail<T(==)>(a: array<T>, ghost s: seq<T>, ghost first: nat, from: nat, end: nat) returns (last: nat)
    requires first <= from < end <= a.Length && Merging(s, a[..], first, from, from + 1)
    modifies a
    ensures 0 < last && Merging(s, a[..], first, last - 1, end)
  {
    hide Merging, Merged;
    var write: nat, begin: nat := from, from + 1;
    while begin != end
      invariant write < begin <= end && Merging(s, a[..], first, write, begin)
    {
      ghost var t := a[..];
      MergingSize(s, t, first, write, begin);
      MergeStep(s, t, first, write, begin);
      var x, y := a[begin], a[write];
      assert t[begin] == x && t[write] == y;
      if x != y {
        a[write + 1] := x;
        assert a[..] == t[write + 1 := x];
        write := write + 1;
      }
      begin := begin + 1;
    }
    return write + 1;
  }

  lemma MergingSize<T>(s: seq<T>, t: seq<T>, first: nat, write: nat, begin: nat)
    requires Merging(s, t, first, write, begin)
    ensures |s| == |t|
  {
  }

  lemma MergingStart<T>(s: seq<T>, first: nat, write: nat)
    requires first <= write < |s|
    ensures Merged(s[first..write + 1]) == s[first..write + 1] ==> Merging(s, s, first, write, write + 1)
  {
  }

  lemma MergingEnd<T>(s: seq<T>, t: seq<T>, first: nat, write: nat, end: nat)
    requires Merging(s, t, first, write, end)
    ensures first <= write < end && t[..first] == s[..first] && t[end..] == s[end..]
    ensures t[first..write + 1] == Merged(s[first..end])
  {
  }

  lemma MergedNext<T>(s: seq<T>, first: nat, k: nat)
    requires first < k < |s|
    ensures Merged(s[first..k + 1]) == if s[k] == s[k - 1] then Merged(s[first..k]) else Merged(s[first..k]) + [s[k]]
  {
    assert s[first..k + 1][..k - first] == s[first..k];
  }

  /** remove_duplicates on an unsorted set: every element is left exactly once. */
  method RemoveDuplicates<T(==,!new)>(a: array<T>, end: nat, less: (T, T) -> bool) returns (last: nat)
    requires end <= a.Length && StrictTotal(less)
    modifies a
    ensures last <= end
    ensures forall x :: x in a[..last] <==> x in old(a[..end])
    ensures forall i, j | 0 <= i < j < last :: a[i] != a[j]
  {
    ghost var s := a[..];
    ghost var depth := Sort(a, 0, end, less);
    ghost var r := a[..];
    assert multiset(r[0..end]) == multiset(s[0..end]) && s[0..end] == old(a[..end]);
    last := Unique(a, 0, end);
    assert a[0..last] == a[..last] == Merged(r[0..end]);
    MergedOnce(less, r[0..end]);
    SameElements(r[0..end], s[0..end]);
    forall i, j | 0 <= i < j < last ensures a[i] != a[j] {
      assert a[..last][i] == a[i] && a[..last][j] == a[j];
      Total(less, a[i], a[j]);
    }
  }

  lemma SameElements<T>(s: seq<T>, r: seq<T>)
    requires multiset(s) == multiset(r)
    ensures forall x :: x in s <==> x in r
  {
    forall x ensures x in s <==> x in r {
      assert x in s <==> x in multiset(s);
      assert x in r <==> x in multiset(r);
    }
  }
}
