/**
 The small-object allocator for one block size: chunks of equally many blocks, three
 cursors into the vector of chunks, and at most one chunk with nothing handed out.

 A chunk's memory is a matrix with a row for each block; pointers to chunks are
 indices into the vector, -1 for NULL, and the address of a block is its chunk's
 memory together with its row.
 */
module SmallObject {
  import opened Wrappers
  import opened Bytes
  import opened FreeList
  import opened Indices

  type Memory = array2<Byte>

  datatype Chunk = Chunk(data: Memory, first: Byte, avail: Byte)

  // ----- chunks

  ghost function Heads(data: Memory): (r: seq<nat>)
    requires data.Length1 > 0
    reads data
    ensures |r| == data.Length0 && forall i | 0 <= i < |r| :: r[i] == data[i, 0]
  {
    seq(data.Length0, i requires 0 <= i < data.Length0 reads data => data[i, 0])
  }

  ghost function Contents(c: Chunk): Pool<Memory>
    requires c.data.Length1 > 0
    reads c.data
  {
    Pool(c.data, Heads(c.data), c.first, c.avail)
  }

  /** Chunk::Reset: every block goes into the free list, in order. */
  method Reset(data: Memory) returns (c: Chunk)
    requires data.Length1 > 0 && 0 < data.Length0 < 256
    modifies data
    ensures c.data == data && Contents(c) == Start(data, data.Length0)
  {
    var i := 0;
    while i < data.Length0
      invariant i <= data.Length0
      invariant forall k | 0 <= k < i :: data[k, 0] == k + 1
    {
      data[i, 0] := i + 1;
      i := i + 1;
    }
    c := Chunk(data, 0, data.Length0);
    assert Heads(data) == Count(1, data.Length0 + 1);
  }

  /** Chunk::Allocate on a chunk that is not filled. */
  method TakeBlock(c: Chunk) returns (p: Block<Memory>, d: Chunk)
    requires c.data.Length1 > 0 && c.avail > 0 && c.first < c.data.Length0
    ensures p == Block(c.data, c.first)
    ensures d.data == c.data && Contents(d) == Take(Contents(c))
  {
    p := Block(c.data, c.first);
    d := Chunk(c.data, c.data[c.first, 0], c.avail - 1);
  }

  /** Chunk::Deallocate; the first byte of the block is the only one written. */
  method GiveBlock(c: Chunk, p: Block<Memory>) returns (d: Chunk)
    requires c.data.Length1 > 0 && c.avail < 255 && p.id == c.data && p.index < c.data.Length0 < 256
    modifies c.data
    ensures d.data == c.data && Contents(d) == Give(old(Contents(c)), p.index)
    ensures forall i, j | 0 <= i < c.data.Length0 && 0 <= j < c.data.Length1 && !(i == p.index && j == 0) ::
      c.data[i, j] == old(c.data[i, j])
  {
    c.data[p.index, 0] := c.first;
    d := Chunk(c.data, p.index, c.avail + 1);
    assert Heads(c.data) == old(Heads(c.data))[p.index := c.first];
  }

  /** Chunk::IsCorrupt with checkIndexes: it reports exactly the chunks whose free list is broken. */
  method IsCorrupt(c: Chunk) returns (corrupt: bool)
    requires c.data.Length1 > 0 && 0 < c.data.Length0 < 256
    ensures corrupt <==> !Good(Contents(c), c.data.Length0)
  {
    hide Links, Heads, Distinct, Below, Walked;
    var n := c.data.Length0;
    if n < c.avail { return true; }
    if c.avail == 0 {
      FilledIsGood(Contents(c));
      return false;
    }
    var index: nat := c.first;
    ghost var heads, seen: seq<nat> := Heads(c.data), [];
    ghost var list := Free(Contents(c));
    WalkStart(heads, index, c.avail, n);
    if n <= index { return true; }
    var found: set<nat> := {index};
    var cc := 1;
    while cc < c.avail
      invariant 1 <= cc <= c.avail && index < n && |seen| == cc - 1
      invariant Walked(heads, list, seen, index, c.avail - |seen|, n)
      invariant forall x :: x in found <==> x in seen + [index]
    {
      WalkOn(heads, list, seen, index, c.avail - |seen|, n);
      seen := seen + [index];
      index := c.data[index, 0];
      if n <= index || index in found { return true; }
      found := found + {index};
      cc := cc + 1;
    }
    WalkEnd(heads, list, seen, index, n);
    corrupt := false;
  }

  /** The walk along the free list has seen some indices and is at index, m from the end. */
  ghost predicate Walked(heads: seq<nat>, list: seq<nat>, seen: seq<nat>, index: nat, m: nat, n: nat)
  {
    list == seen + Links(heads, index, m) && Distinct(seen + [index]) && Below(seen + [index], n)
  }

  lemma WalkStart(heads: seq<nat>, index: nat, m: nat, n: nat)
    requires m > 0
    ensures index < n ==> Walked(heads, Links(heads, index, m), [], index, m, n)
    ensures index >= n ==> !Below(Links(heads, index, m), n)
  {
    Unfold(heads, index, m);
  }

  lemma WalkOn(heads: seq<nat>, list: seq<nat>, seen: seq<nat>, index: nat, m: nat, n: nat)
    requires Walked(heads, list, seen, index, m, n) && m > 1 && index < |heads|
    ensures var next := heads[index];
      if next < n && next !in seen + [index] then Walked(heads, list, seen + [index], next, m - 1, n)
      else !(Distinct(list) && Below(list, n))
  {
    hide Links;
    var next := heads[index];
    Unfold(heads, index, m);
    Unfold(heads, next, m - 1);
    var s, t := seen + [index], Links(heads, next, m - 1);
    assert list == s + t;
    assert list[|s|] == next && forall i | 0 <= i < |s| :: list[i] == s[i];
  }

  lemma WalkEnd(heads: seq<nat>, list: seq<nat>, seen: seq<nat>, index: nat, n: nat)
    requires Walked(heads, list, seen, index, 1, n)
    ensures |list| == |seen| + 1 && Distinct(list) && Below(list, n)
  {
    Unfold(heads, index, 1);
  }

  lemma FilledIsGood<Id>(p: Pool<Id>)
    requires p.avail == 0
    ensures Good(p, |p.heads|)
  {
  }

  lemma Unfold(heads: seq<nat>, first: nat, n: nat)
    requires n > 0
    ensures n == 1 ==> Links(heads, first, n) == [first]
    ensures first < |heads| ==> Links(heads, first, n) == [first] + Links(heads, heads[first], n - 1)
    ensures |Links(heads, first, n)| > 0 && Links(heads, first, n)[0] == first
  {
    assert n == 1 && first < |heads| ==> Links(heads, heads[first], n - 1) == [];
  }

  // ----- the allocator

  ghost predicate Shaped(chunks: seq<Chunk>, n: nat, blockSize: nat)
  {
    0 < blockSize && forall k | 0 <= k < |chunks| :: chunks[k].data.Length0 == n && chunks[k].data.Length1 == blockSize
  }

  /** The contents of all chunks. */
  ghost function PoolsOf(chunks: seq<Chunk>, n: nat, blockSize: nat): (ps: seq<Pool<Memory>>)
    requires Shaped(chunks, n, blockSize)
    reads set k | 0 <= k < |chunks| :: chunks[k].data
    ensures |ps| == |chunks| && forall k | 0 <= k < |ps| :: ps[k] == Contents(chunks[k])
  {
    if chunks == [] then [] else
      var last := |chunks| - 1;
      PoolsOf(chunks[..last], n, blockSize) + [Contents(chunks[last])]
  }

  /** The class invariant on the cursors: NULL exactly when there is no chunk, otherwise in range;
      at most one chunk has every block available, and emptyChunk_ names exactly that one. */
  predicate Cursors(chunks: seq<Chunk>, n: nat, alloc: int, dealloc: int, empty: int)
  {
    && (if chunks == [] then alloc == -1 && dealloc == -1 else 0 <= alloc < |chunks| && 0 <= dealloc < |chunks|)
    && -1 <= empty < |chunks|
    && forall k | 0 <= k < |chunks| :: chunks[k].avail == n <==> k == empty
  }

  class FixedAllocator {
    const blockSize: nat
    const numBlocks: nat
    var chunks: seq<Chunk>
    var allocChunk: int
    var deallocChunk: int
    var emptyChunk: int
    /** How many chunks the vector has room for. */
    var capacity: nat
    /** The vector has moved its chunks since the cursors were set, so that they point to where the chunks were. */
    var stale: bool

    ghost function Memories(): set<object>
      reads this`chunks
    {
      set k | 0 <= k < |chunks| :: chunks[k].data
    }

    /** Shapes and free lists are in order. */
    ghost predicate Sound()
      reads this`chunks, Memories()
    {
      && 8 <= numBlocks < 256
      && Shaped(chunks, numBlocks, blockSize)
      && GoodPools(Pools(), numBlocks)
    }

    ghost function Pools(): seq<Pool<Memory>>
      requires Shaped(chunks, numBlocks, blockSize)
      reads this`chunks, Memories()
    {
      PoolsOf(chunks, numBlocks, blockSize)
    }

    ghost predicate Valid()
      reads this, Memories()
    {
      Sound() && Current() && Cursors(chunks, numBlocks, allocChunk, deallocChunk, emptyChunk)
    }

    /** No chunk has moved away from under the cursors. */
    predicate Current()
      reads this
    {
      !stale && |chunks| <= capacity
    }

    /** The blocks handed out and not yet given back. */
    ghost function Outstanding(): set<Block<Memory>>
      requires Sound()
      reads this`chunks, Memories()
    {
      Live(Pools(), numBlocks)
    }

    /** FixedAllocator::Initialize */
    constructor (size: nat, pageSize: nat)
      requires 0 < size <= pageSize
      ensures Valid() && chunks == [] && capacity == 0 && Outstanding() == {}
      ensures blockSize == size && numBlocks == if pageSize / size > 255 then 255 else if pageSize / size < 8 then 8 else pageSize / size
    {
      blockSize := size;
      var n := pageSize / size;
      numBlocks := if n > 255 then 255 else if n < 8 then 8 else n;
      chunks, allocChunk, deallocChunk, emptyChunk := [], -1, -1, -1;
      capacity, stale := 0, false;
    }

    /** The capacity that reserve is asked for when the vector is full. */
    function Doubled(size: nat): (n: nat)
      ensures n > size
    {
      2 * if size == 0 then 4 else size
    }

    /** A chunk with all its blocks in its free list. */
    method AddChunk()
      requires Sound()
      modifies this`chunks
      ensures fresh(Memories() - old(Memories()))
      ensures Sound() && Outstanding() == old(Outstanding())
      ensures |chunks| == old(|chunks|) + 1 && chunks[..old(|chunks|)] == old(chunks) && chunks[old(|chunks|)].avail == numBlocks
    {
      hide GoodPools, Live, Free, Good, PoolsOf, Count;
      ghost var before := Pools();
      var data := new Byte[numBlocks, blockSize];
      var c := Reset(data);
      chunks := chunks + [c];
      assert forall k | 0 <= k < |before| :: before[k].id == chunks[k].data;
      AddLive(before, numBlocks, data);
      assert Pools() == before + [Start(data, numBlocks)];
    }

    /** MakeNewChunk; grow says whether a full vector can grow, room whether the memory of a chunk can
        be had.  A vector that grows moves its chunks, and if then the memory is not to be had, the
        cursors are left behind. */
    method MakeNewChunk(grow: bool, room: bool) returns (ok: bool)
      requires Valid() && emptyChunk == -1
      modifies this
      ensures fresh(Memories() - old(Memories()))
      ensures Sound() && Outstanding() == old(Outstanding()) && emptyChunk == -1 && |chunks| <= capacity
      ensures ok <==> room && (old(|chunks|) < old(capacity) || grow)
      ensures capacity == if grow && old(|chunks|) == old(capacity) then Doubled(old(capacity)) else old(capacity)
      ensures ok ==>
        |chunks| == old(|chunks|) + 1 && chunks[..old(|chunks|)] == old(chunks) && chunks[old(|chunks|)].avail == numBlocks
      ensures ok ==> allocChunk == |chunks| - 1 && deallocChunk == 0 && !stale
      ensures !ok ==> chunks == old(chunks) && allocChunk == old(allocChunk) && deallocChunk == old(deallocChunk)
      ensures !ok ==> (stale <==> grow && 0 < |chunks| == old(capacity))
    {
      hide GoodPools, Live, PoolsOf;
      if |chunks| == capacity {
        if !grow { return false; }
        capacity := Doubled(|chunks|);
        stale := chunks != [];
      }
      if !room { return false; }
      AddChunk();
      allocChunk := |chunks| - 1;
      deallocChunk := 0;
      stale := false;
      ok := true;
    }

    predicate AllFilled(cs: seq<Chunk>)
    {
      forall k | 0 <= k < |cs| :: cs[k].avail == 0
    }

    /** The chunk that Allocate turns to: the current one while it has a block, an old one that has,
        or a new one only if none has. */
    predicate Found(before: seq<Chunk>, current: int, after: seq<Chunk>, chosen: int)
    {
      && 0 <= chosen < |after| && before <= after && |after| <= |before| + 1
      && (|after| > |before| <==> AllFilled(before))
      && (|after| > |before| ==> chosen == |before| && after[chosen].avail == numBlocks)
      && (0 <= current < |before| && before[current].avail > 0 ==> chosen == current)
    }

    method FirstRoom() returns (i: nat)
      ensures i <= |chunks| && (forall k | 0 <= k < i :: chunks[k].avail == 0) && (i < |chunks| ==> chunks[i].avail > 0)
    {
      i := 0;
      while i < |chunks| && chunks[i].avail == 0
        invariant i <= |chunks|
        invariant forall k | 0 <= k < i :: chunks[k].avail == 0
      {
        i := i + 1;
      }
    }

    /** The first part of Allocate: allocChunk_ comes to name a chunk with an available block. */
    method FindRoom(grow: bool, room: bool) returns (ok: bool)
      requires Valid()
      modifies this
      ensures fresh(Memories() - old(Memories()))
      ensures Sound() && Outstanding() == old(Outstanding()) && |chunks| <= capacity
      ensures !ok <==> AllFilled(old(chunks)) && !(room && (old(|chunks|) < old(capacity) || grow))
      ensures capacity == if AllFilled(old(chunks)) && grow && old(|chunks|) == old(capacity) then Doubled(old(capacity)) else old(capacity)
      ensures !ok ==> chunks == old(chunks) && Cursors(chunks, numBlocks, allocChunk, deallocChunk, emptyChunk)
      ensures stale <==> !ok && grow && 0 < old(|chunks|) == old(capacity)
      ensures ok ==> 0 <= allocChunk < |chunks| && chunks[allocChunk].avail > 0 && 0 <= deallocChunk < |chunks|
      ensures ok ==> -1 <= emptyChunk < |chunks| && emptyChunk != allocChunk
      ensures ok ==> forall k | 0 <= k < |chunks| && k != allocChunk :: chunks[k].avail == numBlocks <==> k == emptyChunk
      ensures ok ==> Found(old(chunks), old(allocChunk), chunks, allocChunk)
      ensures ok ==> deallocChunk == if |chunks| == old(|chunks|) then old(deallocChunk) else 0
      ensures ok ==> emptyChunk == if old(emptyChunk) == allocChunk then -1 else old(emptyChunk)
    {
      hide GoodPools, Live, Free, PoolsOf, Contents, Doubled;
      ok := true;
      if allocChunk == -1 || chunks[allocChunk].avail == 0 {
        if emptyChunk != -1 {
          allocChunk := emptyChunk;
          emptyChunk := -1;
        } else {
          var i := FirstRoom();
          if i < |chunks| {
            allocChunk := i;
          } else {
            ok := MakeNewChunk(grow, room);
          }
        }
      } else if allocChunk == emptyChunk {
        emptyChunk := -1;
      }
    }

    /** One block fewer in chunk k. */
    predicate Taken(before: seq<Chunk>, after: seq<Chunk>, k: int)
    {
      && |after| == |before| && 0 <= k < |after| && after[k].avail + 1 == before[k].avail
      && (forall l | 0 <= l < |after| :: after[l].data == before[l].data && (l != k ==> after[l] == before[l]))
    }

    lemma AvailBound(k: nat)
      requires Sound() && k < |chunks|
      ensures chunks[k].avail <= numBlocks
    {
      hide Free;
      assert Good(Pools()[k], numBlocks);
    }

    /** Chunk::Allocate on the chunk that has been found. */
    method TakeFrom(a: nat) returns (p: Block<Memory>)
      requires Sound() && a < |chunks| && chunks[a].avail > 0
      modifies this`chunks
      ensures Sound() && Memories() == old(Memories()) && Taken(old(chunks), chunks, a) && p.id == chunks[a].data
      ensures chunks[a].avail < numBlocks
      ensures p !in old(Outstanding()) && Outstanding() == old(Outstanding()) + {p}
    {
      hide GoodPools, Live, Free, Good, PoolsOf, Heads;
      ghost var ps := Pools();
      AvailBound(a);
      TakeLive(ps, numBlocks, a);
      var d;
      p, d := TakeBlock(chunks[a]);
      chunks := chunks[a := d];
      assert Pools() == ps[a := Take(ps[a])];
      assert forall l | 0 <= l < |chunks| :: chunks[l].data == old(chunks)[l].data;
    }

    /** Allocate.  The block returned was not outstanding before, and nothing that was outstanding is
        written.  The cursors are left behind exactly when a full vector of filled chunks has grown
        and the memory for a chunk is not to be had. */
    method Allocate(grow: bool, room: bool) returns (p: Option<Block<Memory>>)
      requires Valid()
      modifies this
      ensures Sound() && fresh(Memories() - old(Memories()))
      ensures Valid() <==> !(p.None? && grow && 0 < old(|chunks|) == old(capacity))
      ensures p.None? <==> AllFilled(old(chunks)) && !(room && (old(|chunks|) < old(capacity) || grow))
      ensures capacity == if AllFilled(old(chunks)) && grow && old(|chunks|) == old(capacity) then Doubled(old(capacity)) else old(capacity)
      ensures p.Some? ==> p.value !in old(Outstanding()) && Outstanding() == old(Outstanding()) + {p.value}
      ensures p.None? ==> Outstanding() == old(Outstanding()) && chunks == old(chunks)
      ensures p.Some? ==> 0 <= allocChunk < |chunks| && chunks[allocChunk].data == p.value.id && chunks[allocChunk].avail < numBlocks
      ensures p.Some? ==> exists found ::
        Found(old(chunks), old(allocChunk), found, allocChunk) && Taken(found, chunks, allocChunk)
      ensures p.Some? ==> deallocChunk == if |chunks| == old(|chunks|) then old(deallocChunk) else 0
      ensures p.Some? ==> emptyChunk == if old(emptyChunk) == allocChunk then -1 else old(emptyChunk)
    {
      hide GoodPools, Live, PoolsOf, Outstanding, Found, AllFilled, Doubled;
      var ok := FindRoom(grow, room);
      if !ok { return None; }
      ghost var found := chunks;
      assert Found(old(chunks), old(allocChunk), found, allocChunk);
      var block := TakeFrom(allocChunk);
      p := Some(block);
    }

    /** VicinityFind: the chunk that owns p, searching both ways from deallocChunk_; -1 if there is none. */
    method VicinityFind(p: Block<Memory>) returns (found: int)
      requires Cursors(chunks, numBlocks, allocChunk, deallocChunk, emptyChunk)
      ensures -1 <= found < |chunks|
      ensures found >= 0 ==> chunks[found].data == p.id
      ensures found == -1 ==> forall k | 0 <= k < |chunks| :: chunks[k].data != p.id
    {
      if chunks == [] { return -1; }
      var lo, hi := deallocChunk, deallocChunk + 1;
      if hi == |chunks| { hi := -1; }
      while lo >= 0 || hi >= 0
        invariant -1 <= lo <= deallocChunk && (hi == -1 || deallocChunk < hi < |chunks|)
        invariant forall k | lo < k <= deallocChunk :: chunks[k].data != p.id
        invariant forall k | deallocChunk < k < (if hi == -1 then |chunks| else hi) :: chunks[k].data != p.id
        decreases lo + if hi == -1 then 0 else |chunks| - hi
      {
        if lo >= 0 {
          if chunks[lo].data == p.id { return lo; }
          lo := lo - 1;
        }
        if hi >= 0 {
          if chunks[hi].data == p.id { return hi; }
          hi := hi + 1;
          if hi == |chunks| { hi := -1; }
        }
      }
      return -1;
    }

    /** Release of the empty chunk e: unless it is last, the last chunk takes its place. */
    method Release(e: nat)
      requires Sound() && e < |chunks| && chunks[e].avail == numBlocks
      modifies this`chunks
      ensures chunks == Dropped(old(chunks), e)
      ensures Sound() && Outstanding() == old(Outstanding()) && Memories() <= old(Memories())
    {
      hide GoodPools, Live, Free, Good, PoolsOf, Heads;
      var last := |chunks| - 1;
      ghost var ps := Pools();
      DropLive(ps, numBlocks, e);
      assert Dropped(chunks, e) == chunks[e := chunks[last]][..last];
      if last != e {
        chunks := chunks[e := chunks[last]][last := chunks[e]];
      }
      chunks := chunks[..last];
      assert chunks == Dropped(old(chunks), e);
      assert Pools() == Dropped(ps, e);
    }

    /** The end of DoDeallocate when a second chunk has become empty: one of the two is released. */
    method ReleaseOne()
      requires Sound() && Current()
      requires 0 <= allocChunk < |chunks| && 0 <= deallocChunk < |chunks| && 0 <= emptyChunk < |chunks|
      requires emptyChunk != deallocChunk
      requires forall k | 0 <= k < |chunks| :: chunks[k].avail == numBlocks <==> k == emptyChunk || k == deallocChunk
      modifies this
      ensures Valid() && Outstanding() == old(Outstanding()) && Memories() <= old(Memories())
      ensures |chunks| == old(|chunks|) - 1 && deallocChunk == emptyChunk
    {
      hide GoodPools, Live, Free, Good, PoolsOf, Contents;
      var last := |chunks| - 1;
      if last == deallocChunk {
        deallocChunk := emptyChunk;
        Release(last);
      } else {
        Release(emptyChunk);
      }
      if allocChunk == last || chunks[allocChunk].avail == 0 {
        allocChunk := deallocChunk;
      }
      emptyChunk := deallocChunk;
    }

    lemma Apart(k: nat, l: nat)
      requires Sound() && k < |chunks| && l < |chunks| && k != l
      ensures chunks[k].data != chunks[l].data
    {
      assert Pools()[k].id == chunks[k].data && Pools()[l].id == chunks[l].data;
    }

    /** Chunk::Deallocate on chunk k of the vector. */
    method GiveBack(k: nat, p: Block<Memory>)
      requires Sound() && k < |chunks| && chunks[k].data == p.id && p in Outstanding()
      modifies this`chunks, p.id
      ensures Sound() && Memories() <= old(Memories())
      ensures Outstanding() == old(Outstanding()) - {p}
      ensures |chunks| == old(|chunks|) && chunks[k].data == p.id && chunks[k].avail == old(chunks[k].avail) + 1 <= numBlocks
      ensures forall l | 0 <= l < |chunks| && l != k :: chunks[l] == old(chunks[l])
      ensures forall i, j | 0 <= i < p.id.Length0 && 0 <= j < p.id.Length1 && !(i == p.index && j == 0) ::
        p.id[i, j] == old(p.id[i, j])
    {
      hide GoodPools, Live, Free, Good, PoolsOf, Heads;
      ghost var ps := Pools();
      GiveLive(ps, numBlocks, k, p.index);
      forall l | 0 <= l < |chunks| && l != k ensures chunks[l].data != p.id { Apart(k, l); }
      var d := GiveBlock(chunks[k], p);
      assert forall l | 0 <= l < |chunks| && l != k :: Contents(chunks[l]) == ps[l];
      chunks := chunks[k := d];
      assert forall l | 0 <= l < |chunks| :: chunks[l].data == old(chunks[l].data) && old(chunks[l].data) in old(Memories());
      assert Pools() == ps[k := Give(ps[k], p.index)];
    }

    /** Deallocate of an outstanding block, or of one that is none of this allocator's.  Exactly
        that block stops being outstanding, and only its first byte is written. */
    method Deallocate(p: Block<Memory>, hint: int) returns (owned: bool)
      requires Valid() && chunks != []
      requires p.id in Memories() ==> p in Outstanding()
      requires hint == -1 || (0 <= hint < |chunks| && chunks[hint].data == p.id)
      modifies this, p.id
      ensures Valid() && Memories() <= old(Memories())
      ensures owned <==> p in old(Outstanding())
      ensures Outstanding() == old(Outstanding()) - {p}
      ensures forall i, j | 0 <= i < p.id.Length0 && 0 <= j < p.id.Length1 && !(owned && i == p.index && j == 0) ::
        p.id[i, j] == old(p.id[i, j])
      ensures !owned ==> chunks == old(chunks)
      ensures owned && old(emptyChunk) == -1 ==> |chunks| == old(|chunks|)
      ensures owned && |chunks| == old(|chunks|) ==>
        && Taken(chunks, old(chunks), deallocChunk) && chunks[deallocChunk].data == p.id && allocChunk == old(allocChunk)
        && emptyChunk == if chunks[deallocChunk].avail == numBlocks then deallocChunk else old(emptyChunk)
      ensures |chunks| != old(|chunks|) ==> |chunks| == old(|chunks|) - 1 && deallocChunk == emptyChunk != -1
    {
      hide GoodPools, Live, Free, Good, PoolsOf, Contents, Sound, Outstanding;
      var found := hint;
      if hint == -1 {
        found := VicinityFind(p);
      }
      if found == -1 {
        NotLive(p);
        return false;
      }
      deallocChunk := found;
      GiveBack(found, p);
      if chunks[found].avail == numBlocks {
        if emptyChunk != -1 {
          ReleaseOne();
        } else {
          emptyChunk := deallocChunk;
        }
      }
      owned := true;
    }

    /** A client's write into a block it holds.  The free lists and what is outstanding stay as they are. */
    method WriteByte(p: Block<Memory>, j: nat, x: Byte)
      requires Valid() && p in Outstanding() && j < blockSize
      modifies p.id
      ensures Valid() && Outstanding() == old(Outstanding())
      ensures p.index < p.id.Length0 && j < p.id.Length1
      ensures forall i, l | 0 <= i < p.id.Length0 && 0 <= l < p.id.Length1 ::
        p.id[i, l] == if i == p.index && l == j then x else old(p.id[i, l])
    {
      hide GoodPools, Free, Good, PoolsOf, Heads;
      ghost var ps := Pools();
      ghost var k := OwnerOf(p);
      hide Live;
      WriteLive(ps, numBlocks, k, p.index, x);
      forall l | 0 <= l < |chunks| && l != k ensures chunks[l].data != p.id { Apart(k, l); }
      ghost var heads := Heads(p.id);
      p.id[p.index, j] := x;
      assert Heads(p.id) == if j == 0 then heads[p.index := x] else heads;
      assert forall l | 0 <= l < |chunks| && l != k :: Contents(chunks[l]) == ps[l];
      assert Pools() == if j == 0 then ps[k := Written(ps[k], p.index, x)] else ps;
    }

    /** The chunk that an outstanding block belongs to. */
    lemma OwnerOf(p: Block<Memory>) returns (k: nat)
      requires Sound() && p in Outstanding()
      ensures k < |chunks| && chunks[k].data == p.id && p.index < numBlocks
    {
      hide Free, GoodPools;
      k :| k < |Pools()| && Pools()[k].id == p.id;
    }

    lemma NotLive(p: Block<Memory>)
      requires Sound() && forall k | 0 <= k < |chunks| :: chunks[k].data != p.id
      ensures p !in Outstanding()
    {
      hide Free, GoodPools;
    }

    /** Outstanding blocks, counted by what the chunks have left. */
    lemma OutstandingCount()
      requires Sound()
      ensures |Outstanding()| == Used(Pools(), numBlocks)
    {
      LiveSize(Pools(), numBlocks);
    }

    /** TrimEmptyChunk.  It gives back the empty chunk and nothing else, but a cursor that names the
        last chunk is left dangling when the empty chunk is another one; otherwise all is well. */
    method TrimEmptyChunk() returns (trimmed: bool)
      requires Valid()
      modifies this
      ensures trimmed <==> old(emptyChunk) != -1
      ensures Sound() && Outstanding() == old(Outstanding()) && Memories() <= old(Memories()) && emptyChunk == -1
      ensures |chunks| == old(|chunks|) - if trimmed then 1 else 0
      ensures Valid() <==>
        var last := old(|chunks|) - 1;
        !trimmed || old(emptyChunk) == last || (old(allocChunk) != last && old(deallocChunk) != last)
    {
      hide GoodPools, Live, Free, Good, PoolsOf, Contents;
      if emptyChunk == -1 { return false; }
      var last := |chunks| - 1;
      Release(emptyChunk);
      if chunks == [] {
        allocChunk, deallocChunk := -1, -1;
      } else {
        if deallocChunk == emptyChunk { deallocChunk := 0; }
        if allocChunk == emptyChunk { allocChunk := |chunks| - 1; }
      }
      emptyChunk := -1;
      trimmed := true;
    }

    /** TrimChunkList.  Giving back the room that the vector does not use moves the chunks, and
        the cursors are left behind unless there are none. */
    method TrimChunkList() returns (trimmed: bool)
      requires Valid()
      modifies this`capacity, this`stale
      ensures trimmed <==> |chunks| != old(capacity)
      ensures capacity == |chunks| && Sound()
      ensures Valid() <==> !trimmed || chunks == []
    {
      hide GoodPools, PoolsOf;
      if |chunks| == capacity { return false; }
      capacity := |chunks|;
      stale := chunks != [];
      trimmed := true;
    }
  }
}
