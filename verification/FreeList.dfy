/**
 The free list that a chunk keeps inside its own free blocks: the first byte of a
 free block holds the index of the next one.  Everything here is about the values of
 those bytes, so that the allocator's methods need no heap reasoning about lists.
 */
module FreeList {
  import opened Indices

  /** A chunk's contents: the first byte of every block, the first free block and their number. */
  datatype Pool<Id> = Pool(id: Id, heads: seq<nat>, first: nat, avail: nat)

  /** A block's address: the chunk's memory and the block's index in it. */
  datatype Block<Id> = Block(id: Id, index: nat)

  /** The indices met by following n stealth bytes from first. */
  function Links(heads: seq<nat>, first: nat, n: nat): seq<nat>
    decreases n
  {
    if n == 0 then [] else [first] + if first < |heads| then Links(heads, heads[first], n - 1) else []
  }

  function Free<Id>(p: Pool<Id>): seq<nat>
  {
    Links(p.heads, p.first, p.avail)
  }

  /** The free list of a chunk of n blocks has no repetition, stays in range and has the stated length. */
  predicate Good<Id>(p: Pool<Id>, n: nat)
  {
    && |p.heads| == n && p.avail <= n
    && |Free(p)| == p.avail && Distinct(Free(p)) && Below(Free(p), n)
  }

  /** Every chunk is good, and no two share memory. */
  predicate GoodPools<Id(==)>(ps: seq<Pool<Id>>, n: nat)
  {
    && (forall k | 0 <= k < |ps| :: Good(ps[k], n))
    && (forall k, l | 0 <= k < l < |ps| :: ps[k].id != ps[l].id)
  }

  // ----- taking, giving and starting

  /** Chunk::Allocate */
  function Take<Id>(p: Pool<Id>): Pool<Id>
    requires p.avail > 0 && p.first < |p.heads|
  {
    Pool(p.id, p.heads, p.heads[p.first], p.avail - 1)
  }

  /** Chunk::Deallocate */
  function Give<Id>(p: Pool<Id>, i: nat): Pool<Id>
    requires i < |p.heads|
  {
    Pool(p.id, p.heads[i := p.first], i, p.avail + 1)
  }

  /** The numbers from k up to but not including n. */
  function Count(k: nat, n: nat): (s: seq<nat>)
    ensures |s| == if k < n then n - k else 0
    ensures forall i | 0 <= i < |s| :: s[i] == k + i
    decreases n - k
  {
    if k >= n then [] else [k] + Count(k + 1, n)
  }

  /** Chunk::Reset */
  function Start<Id>(id: Id, n: nat): Pool<Id>
  {
    Pool(id, Count(1, n + 1), 0, n)
  }

  /** Allocating takes the head of the free list. */
  lemma {:induction false} TakeGood<Id>(p: Pool<Id>, n: nat)
    requires Good(p, n) && p.avail > 0
    ensures p.first < n && Good(Take(p), n) && Free(p) == [p.first] + Free(Take(p))
  {
    assert Free(p)[0] == p.first;
    var t := Free(Take(p));
    assert forall i | 0 <= i < |t| :: t[i] == Free(p)[i + 1];
  }

  /** A write outside the list does not change it. */
  lemma {:induction false} LinksUpdate(heads: seq<nat>, first: nat, n: nat, i: nat, x: nat)
    requires i < |heads| && i !in Links(heads, first, n)
    ensures Links(heads[i := x], first, n) == Links(heads, first, n)
    decreases n
  {
    if n > 0 && first < |heads| {
      NotInTail(first, Links(heads, heads[first], n - 1), i);
      LinksUpdate(heads, heads[first], n - 1, i, x);
    }
  }

  lemma NotInTail(x: nat, t: seq<nat>, i: nat)
    requires i !in [x] + t
    ensures i != x && i !in t
  {
    assert x == ([x] + t)[0] && forall k | 0 <= k < |t| :: t[k] == ([x] + t)[k + 1];
  }

  /** Deallocating puts the block in front of the free list. */
  lemma {:induction false} GiveGood<Id>(p: Pool<Id>, n: nat, i: nat)
    requires Good(p, n) && i < n && i !in Free(p)
    ensures Good(Give(p, i), n) && Free(Give(p, i)) == [i] + Free(p)
  {
    LinksUpdate(p.heads, p.first, p.avail, i, p.first);
    Pigeonhole([i] + Free(p), n);
  }

  lemma {:induction false} StartLinks(n: nat, k: nat)
    requires k <= n
    ensures Links(Count(1, n + 1), k, n - k) == Count(k, n)
    decreases n - k
  {
    if k < n { StartLinks(n, k + 1); }
  }

  /** A new chunk has every block in its free list. */
  lemma {:induction false} StartGood<Id>(id: Id, n: nat)
    ensures Good(Start(id, n), n) && Free(Start(id, n)) == Count(0, n)
  {
    StartLinks(n, 0);
  }

  // ----- outstanding blocks

  /** The blocks handed out and not given back: those in no free list. */
  ghost function Live<Id>(ps: seq<Pool<Id>>, n: nat): set<Block<Id>>
  {
    set k: nat, i: nat | k < |ps| && i < n && i !in Free(ps[k]) :: Block(ps[k].id, i)
  }

  /** Membership, for chunks that share no memory. */
  lemma LiveAt<Id>(ps: seq<Pool<Id>>, n: nat, k: nat, i: nat)
    requires GoodPools(ps, n) && k < |ps|
    ensures Block(ps[k].id, i) in Live(ps, n) <==> i < n && i !in Free(ps[k])
  {
  }

  /** b is outstanding once one chunk's contents are q. */
  ghost predicate LiveIf<Id>(ps: seq<Pool<Id>>, n: nat, q: Pool<Id>, b: Block<Id>)
  {
    if b.id == q.id then b.index < n && b.index !in Free(q) else b in Live(ps, n)
  }

  /** Membership after one chunk has changed. */
  lemma Changed<Id>(ps: seq<Pool<Id>>, n: nat, k: nat, q: Pool<Id>, b: Block<Id>)
    requires GoodPools(ps, n) && k < |ps| && q.id == ps[k].id
    ensures b in Live(ps[k := q], n) <==> LiveIf(ps, n, q, b)
  {
    hide Free, Good;
    var qs := ps[k := q];
    if b.id == q.id {
      if b.index < n && b.index !in Free(q) { assert qs[k] == q; }
    } else if b in Live(ps, n) {
      var l: nat, i: nat :| l < |ps| && i < n && i !in Free(ps[l]) && b == Block(ps[l].id, i);
      assert qs[l] == ps[l];
    }
  }

  /** Taking a block makes it outstanding, and it was not so before. */
  lemma TakeLive<Id>(ps: seq<Pool<Id>>, n: nat, k: nat)
    requires GoodPools(ps, n) && k < |ps| && ps[k].avail > 0
    ensures ps[k].first < |ps[k].heads| && ps[k].avail <= n && GoodPools(ps[k := Take(ps[k])], n)
    ensures Block(ps[k].id, ps[k].first) !in Live(ps, n)
    ensures Live(ps[k := Take(ps[k])], n) == Live(ps, n) + {Block(ps[k].id, ps[k].first)}
  {
    hide Free;
    var p := ps[k];
    TakeGood(p, n);
    var q, b := Take(p), Block(p.id, p.first);
    HeadOnce(Free(p), p.first, Free(q));
    hide Good;
    LiveAt(ps, n, k, p.first);
    forall c ensures c in Live(ps[k := q], n) <==> c in Live(ps, n) + {b} {
      Changed(ps, n, k, q, c);
      if c.id == p.id { LiveAt(ps, n, k, c.index); }
    }
    assert Live(ps[k := q], n) == Live(ps, n) + {b};
  }

  lemma HeadOnce(s: seq<nat>, x: nat, t: seq<nat>)
    requires s == [x] + t && Distinct(s)
    ensures x !in t && forall y: nat :: y in s <==> y == x || y in t
  {
    assert s[0] == x && forall j | 0 <= j < |t| :: s[j + 1] == t[j];
  }

  /** Giving a block back makes it, and only it, no longer outstanding. */
  lemma GiveLive<Id>(ps: seq<Pool<Id>>, n: nat, k: nat, i: nat)
    requires GoodPools(ps, n) && k < |ps| && Block(ps[k].id, i) in Live(ps, n)
    ensures i < |ps[k].heads| && ps[k].avail < n && GoodPools(ps[k := Give(ps[k], i)], n)
    ensures Live(ps[k := Give(ps[k], i)], n) == Live(ps, n) - {Block(ps[k].id, i)}
  {
    hide Free;
    LiveAt(ps, n, k, i);
    var p := ps[k];
    var q, b := Give(p, i), Block(p.id, i);
    GiveGood(p, n, i);
    assert GoodPools(ps[k := q], n);
    hide Good;
    forall c ensures c in Live(ps[k := q], n) <==> c in Live(ps, n) - {b} {
      Changed(ps, n, k, q, c);
      if c.id == p.id { LiveAt(ps, n, k, c.index); }
    }
    assert Live(ps[k := q], n) == Live(ps, n) - {b};
  }

  /** A chunk once the first byte of block i is x. */
  function Written<Id>(p: Pool<Id>, i: nat, x: nat): Pool<Id>
    requires i < |p.heads|
  {
    p.(heads := p.heads[i := x])
  }

  /** What a client writes into a block it holds does not touch the free list, though that lives in the same bytes. */
  lemma WriteLive<Id>(ps: seq<Pool<Id>>, n: nat, k: nat, i: nat, x: nat)
    requires GoodPools(ps, n) && k < |ps| && Block(ps[k].id, i) in Live(ps, n)
    ensures i < |ps[k].heads| && GoodPools(ps[k := Written(ps[k], i, x)], n)
    ensures Live(ps[k := Written(ps[k], i, x)], n) == Live(ps, n)
  {
    LiveAt(ps, n, k, i);
    var p := ps[k];
    LinksUpdate(p.heads, p.first, p.avail, i, x);
    var q := Written(p, i, x);
    assert Good(q, n) && Free(q) == Free(p);
    hide Good, Free;
    assert GoodPools(ps[k := q], n);
    forall c ensures c in Live(ps[k := q], n) <==> c in Live(ps, n) {
      Changed(ps, n, k, q, c);
      if c.id == p.id { LiveAt(ps, n, k, c.index); }
    }
  }

  /** A chunk with nothing handed out contributes no outstanding block. */
  lemma NoneLive<Id>(ps: seq<Pool<Id>>, n: nat, k: nat, i: nat)
    requires GoodPools(ps, n) && k < |ps| && ps[k].avail == n
    ensures Block(ps[k].id, i) !in Live(ps, n)
  {
    LiveAt(ps, n, k, i);
    Pigeonhole(Free(ps[k]), n);
  }

  /** A new chunk at the end changes nothing. */
  lemma AddLive<Id>(ps: seq<Pool<Id>>, n: nat, id: Id)
    requires GoodPools(ps, n) && forall k | 0 <= k < |ps| :: ps[k].id != id
    ensures GoodPools(ps + [Start(id, n)], n) && Live(ps + [Start(id, n)], n) == Live(ps, n)
  {
    hide Free, Good;
    StartGood(id, n);
    var qs := ps + [Start(id, n)];
    forall c ensures c in Live(qs, n) <==> c in Live(ps, n) {
      if c in Live(qs, n) {
        if c.id == id { NoneLive(qs, n, |ps|, c.index); }
      }
      if c in Live(ps, n) {
        var k: nat, i: nat :| k < |ps| && i < n && i !in Free(ps[k]) && c == Block(ps[k].id, i);
        assert qs[k] == ps[k];
      }
    }
  }

  /** The list without entry e, whose place the last entry takes. */
  function Dropped<T>(s: seq<T>, e: nat): seq<T>
    requires e < |s|
  {
    s[e := s[|s| - 1]][..|s| - 1]
  }

  /** Releasing an empty chunk changes nothing. */
  lemma DropLive<Id>(ps: seq<Pool<Id>>, n: nat, e: nat)
    requires GoodPools(ps, n) && e < |ps| && ps[e].avail == n
    ensures GoodPools(Dropped(ps, e), n) && Live(Dropped(ps, e), n) == Live(ps, n)
  {
    hide Free, Good;
    var qs := Dropped(ps, e);
    var last := |ps| - 1;
    assert forall k | 0 <= k < last :: qs[k] == if k == e then ps[last] else ps[k];
    forall c ensures c in Live(qs, n) <==> c in Live(ps, n) {
      if c in Live(ps, n) {
        var k: nat, i: nat :| k < |ps| && i < n && i !in Free(ps[k]) && c == Block(ps[k].id, i);
        NoneLive(ps, n, e, i);
        assert k != e && qs[if k == last then e else k] == ps[k];
      }
    }
  }

  // ----- how many are outstanding

  /** The sum over the chunks of the blocks not available. */
  function Used<Id>(ps: seq<Pool<Id>>, n: nat): int
  {
    if ps == [] then 0 else n - ps[0].avail + Used(ps[1..], n)
  }

  /** What is outstanding in a list of chunks is outstanding in its first or in the others. */
  lemma LiveSplit<Id>(ps: seq<Pool<Id>>, n: nat)
    requires ps != []
    ensures Live(ps, n) == LiveIn(ps[0], n) + Live(ps[1..], n)
  {
    hide Free;
    forall c | c in Live(ps, n) ensures c in LiveIn(ps[0], n) + Live(ps[1..], n) {
      var k: nat, i: nat :| k < |ps| && i < n && i !in Free(ps[k]) && c == Block(ps[k].id, i);
      if k > 0 { assert ps[k] == ps[1..][k - 1]; }
    }
    forall c | c in Live(ps[1..], n) ensures c in Live(ps, n) {
      var k: nat, i: nat :| k < |ps[1..]| && i < n && i !in Free(ps[1..][k]) && c == Block(ps[1..][k].id, i);
      assert ps[k + 1] == ps[1..][k];
    }
  }

  /** Chunks share no block. */
  lemma LiveApart<Id>(ps: seq<Pool<Id>>, n: nat)
    requires GoodPools(ps, n) && ps != []
    ensures LiveIn(ps[0], n) !! Live(ps[1..], n)
  {
    hide Free, Good;
  }

  /** The number of outstanding blocks is the number not available, summed over the chunks. */
  lemma {:induction false} LiveSize<Id>(ps: seq<Pool<Id>>, n: nat)
    requires GoodPools(ps, n)
    ensures |Live(ps, n)| == Used(ps, n)
  {
    hide Free, Good, Live, LiveIn;
    if ps == [] {
      NothingLive(ps, n);
    } else {
      LiveSize(ps[1..], n);
      LiveInSize(ps[0], n);
      LiveApart(ps, n);
      LiveSplit(ps, n);
    }
  }

  lemma NothingLive<Id>(ps: seq<Pool<Id>>, n: nat)
    requires ps == []
    ensures Live(ps, n) == {}
  {
  }

  /** The outstanding blocks of one chunk below index m. */
  ghost function LiveIn<Id>(p: Pool<Id>, m: nat): set<Block<Id>>
  {
    set i: nat | i < m && i !in Free(p) :: Block(p.id, i)
  }

  lemma {:induction false} LiveInSize<Id>(p: Pool<Id>, n: nat)
    requires Good(p, n)
    ensures |LiveIn(p, n)| == n - p.avail
  {
    hide Free;
    ElementsSize(Free(p));
    LiveInCount(p, n);
    assert Elements(Free(p)) == set x | x in Free(p) && x < n;
  }

  lemma {:induction false} LiveInCount<Id>(p: Pool<Id>, m: nat)
    ensures |LiveIn(p, m)| + |set x | x in Free(p) && x < m| == m
  {
    hide Free;
    if m > 0 {
      LiveInCount(p, m - 1);
      var before := set x | x in Free(p) && x < m - 1;
      var after := set x | x in Free(p) && x < m;
      if m - 1 in Free(p) {
        assert after == before + {m - 1};
        assert LiveIn(p, m) == LiveIn(p, m - 1);
      } else {
        assert after == before;
        assert LiveIn(p, m) == LiveIn(p, m - 1) + {Block(p.id, m - 1)};
      }
    } else {
      assert (set x | x in Free(p) && x < 0) == {};
    }
  }
}
