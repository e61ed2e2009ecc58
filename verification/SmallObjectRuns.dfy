/**
 Runs of the small-object allocator: any client that takes blocks, writes into the
 blocks it holds and gives them back, and the runs that leave a cursor dangling.
 */
module SmallObjectRuns {
  import opened Wrappers
  import opened Bytes
  import opened FreeList
  import opened SmallObject

  /** What a client may ask: a block, a write at offset j of the block it holds k-th, or to give that
      block back.  What memory is to be had for a block is not the client's choice. */
  datatype Request = Get(grow: bool, room: bool) | Put(k: nat, j: nat, x: Byte) | GiveUp(k: nat)

  /** What the client has written into each block it holds, oldest first, since it got it. */
  type Known = seq<map<nat, Byte>>

  function Noted(known: Known, k: nat, j: nat, x: Byte): Known
    requires k < |known|
  {
    var block: map<nat, Byte> := known[k];
    var more: map<nat, Byte> := block[j := x];
    known[k := more]
  }

  /** After one more request; ok says whether it was granted. */
  function After(known: Known, r: Request, ok: bool): Known
  {
    if !ok then known else
      match r
      case Get(_, _) => known + [map[]]
      case Put(k, j, x) => if k < |known| then Noted(known, k, j, x) else known
      case GiveUp(k) => if k < |known| then known[..k] + known[k + 1..] else known
  }

  function Replay(requests: seq<Request>, granted: seq<bool>): Known
    requires |requests| == |granted|
  {
    if requests == [] then [] else
      var n := |requests| - 1;
      After(Replay(requests[..n], granted[..n]), requests[n], granted[n])
  }

  /** The blocks held are the outstanding ones, each once, and hold what has been written into them. */
  ghost predicate Holds(a: FixedAllocator, held: seq<Block<Memory>>, known: Known)
    reads a, a.Memories(), set i | 0 <= i < |held| :: held[i].id
  {
    && a.Sound() && |held| == |known|
    && (forall b | b in held :: b in a.Outstanding()) && (forall b | b in a.Outstanding() :: b in held)
    && (forall i, l | 0 <= i < l < |held| :: held[i] != held[l])
    && forall i | 0 <= i < |held| :: Stands(a.blockSize, held[i], known[i])
  }

  ghost predicate Stands(size: nat, b: Block<Memory>, known: map<nat, Byte>)
    reads b.id
  {
    && b.index < b.id.Length0 && b.id.Length1 == size
    && forall j | j in known :: j < size && b.id[b.index, j] == known[j]
  }

  lemma Placed(a: FixedAllocator, b: Block<Memory>)
    requires a.Sound() && b in a.Outstanding()
    ensures a.chunks != [] && b.id in a.Memories() && b.index < b.id.Length0 && b.id.Length1 == a.blockSize
  {
    var k := a.OwnerOf(b);
  }

  /** The request leaves the cursors dangling: a full vector of filled chunks grows, and no chunk comes of it. */
  predicate Strands(a: FixedAllocator, r: Request)
    reads a
  {
    r == Get(true, false) && a.AllFilled(a.chunks) && 0 < |a.chunks| == a.capacity
  }

  /** One request. */
  method Handle(a: FixedAllocator, held: seq<Block<Memory>>, ghost known: Known, r: Request)
    returns (now: seq<Block<Memory>>, ok: bool)
    requires a.Valid() && Holds(a, held, known)
    modifies a, a.Memories()
    ensures Holds(a, now, After(known, r, ok)) && fresh(a.Memories() - old(a.Memories()))
    ensures a.Valid() <==> !old(Strands(a, r))
    ensures ok <==>
      match r
      case Get(grow, room) => old(!a.AllFilled(a.chunks) || (room && (|a.chunks| < a.capacity || grow)))
      case Put(k, j, _) => k < |held| && j < a.blockSize
      case GiveUp(k) => k < |held|
  {
    hide FixedAllocator.Valid, FixedAllocator.AllFilled;
    now, ok := held, false;
    match r
    case Get(grow, room) =>
      now, ok := HandleGet(a, held, known, grow, room);
    case Put(k, j, x) =>
      if k < |held| && j < a.blockSize {
        HandlePut(a, held, known, k, j, x);
        ok := true;
      }
    case GiveUp(k) =>
      if k < |held| {
        now := HandleGiveUp(a, held, known, k);
        ok := true;
      }
  }

  method HandleGet(a: FixedAllocator, held: seq<Block<Memory>>, ghost known: Known, grow: bool, room: bool)
    returns (now: seq<Block<Memory>>, ok: bool)
    requires a.Valid() && Holds(a, held, known)
    modifies a
    ensures Holds(a, now, if ok then known + [map[]] else known) && fresh(a.Memories() - old(a.Memories()))
    ensures a.Valid() <==> !old(Strands(a, Get(grow, room)))
    ensures ok <==> old(!a.AllFilled(a.chunks) || (room && (|a.chunks| < a.capacity || grow)))
  {
    hide FixedAllocator.Outstanding, FixedAllocator.Sound, FixedAllocator.AllFilled;
    var p := a.Allocate(grow, room);
    if p.None? { return held, false; }
    Placed(a, p.value);
    return held + [p.value], true;
  }

  method HandlePut(a: FixedAllocator, held: seq<Block<Memory>>, ghost known: Known, k: nat, j: nat, x: Byte)
    requires a.Valid() && Holds(a, held, known) && k < |held| && j < a.blockSize
    modifies a.Memories()
    ensures a.Valid() && Holds(a, held, Noted(known, k, j, x))
  {
    hide FixedAllocator.Outstanding, FixedAllocator.Sound;
    Placed(a, held[k]);
    a.WriteByte(held[k], j, x);
  }

  method HandleGiveUp(a: FixedAllocator, held: seq<Block<Memory>>, ghost known: Known, k: nat)
    returns (now: seq<Block<Memory>>)
    requires a.Valid() && Holds(a, held, known) && k < |held|
    modifies a, a.Memories()
    ensures a.Valid() && Holds(a, now, known[..k] + known[k + 1..]) && a.Memories() <= old(a.Memories())
  {
    hide FixedAllocator.Outstanding, FixedAllocator.Sound, FixedAllocator.Current, FixedAllocator.AllFilled, Cursors;
    Placed(a, held[k]);
    var _ := a.Deallocate(held[k], -1);
    now := held[..k] + held[k + 1..];
    Without(held, k);
  }

  lemma Without<T>(s: seq<T>, k: nat)
    requires k < |s| && forall i, l | 0 <= i < l < |s| :: s[i] != s[l]
    ensures (forall x | x in s[..k] + s[k + 1..] :: x in s && x != s[k])
    ensures forall x | x in s :: x in s[..k] + s[k + 1..] || x == s[k]
  {
    assert s == s[..k] + [s[k]] + s[k + 1..];
  }

  /**
   Any run: whatever a client asks for, it is never given a block that it holds, and what it has
   written into a block is there as long as it holds it, although the free lists use the same memory.
   The run stops where a request leaves the cursors dangling, and only there.
   */
  method Serve(a: FixedAllocator, requests: seq<Request>)
    returns (held: seq<Block<Memory>>, granted: seq<bool>, wrong: bool)
    requires a.Valid() && a.Outstanding() == {}
    modifies a, a.Memories()
    ensures |granted| <= |requests| && Holds(a, held, Replay(requests[..|granted|], granted))
    ensures !wrong ==> a.Valid() && |granted| == |requests|
    ensures wrong ==> !a.Valid() && granted != [] && requests[|granted| - 1] == Get(true, false) && !granted[|granted| - 1]
  {
    hide FixedAllocator.Valid, FixedAllocator.Outstanding, FixedAllocator.AllFilled, Holds;
    held, granted, wrong := [], [], false;
    Nothing(a);
    for n := 0 to |requests|
      invariant |granted| == n && a.Valid() && Holds(a, held, Replay(requests[..n], granted))
      invariant fresh(a.Memories() - old(a.Memories()))
    {
      var ok;
      var strands := Strands(a, requests[n]);
      held, ok := Handle(a, held, Replay(requests[..n], granted), requests[n]);
      assert requests[..n + 1][..n] == requests[..n] && (granted + [ok])[..n] == granted;
      granted := granted + [ok];
      if strands { return held, granted, true; }
    }
    assert requests[..|requests|] == requests;
  }

  lemma Nothing(a: FixedAllocator)
    requires a.Valid() && a.Outstanding() == {}
    ensures Holds(a, [], Replay([], []))
  {
  }

  // ----- a dangling cursor

  /** All blocks of the first chunk taken. */
  method FillChunk(a: FixedAllocator) returns (held: seq<Block<Memory>>)
    requires a.Valid() && a.chunks == [] && a.numBlocks == 8
    modifies a
    ensures a.Valid() && |a.chunks| == 1 && a.chunks[0].avail == 0 && a.emptyChunk == -1 && fresh(a.Memories())
    ensures |held| == 8 && (forall i, l | 0 <= i < l < 8 :: held[i] != held[l])
    ensures forall i | 0 <= i < 8 :: held[i] in a.Outstanding() && held[i].id == a.chunks[0].data
  {
    hide FixedAllocator.Outstanding, FixedAllocator.Sound;
    held := [];
    for i := 0 to 8
      invariant a.Valid() && |held| == i && fresh(a.Memories()) && a.emptyChunk == -1
      invariant if i == 0 then a.chunks == [] else |a.chunks| == 1 && a.allocChunk == 0 && a.chunks[0].avail == 8 - i
      invariant forall l, m | 0 <= l < m < i :: held[l] != held[m]
      invariant forall l | 0 <= l < i :: held[l] in a.Outstanding() && held[l].id == a.chunks[0].data
    {
      var p := a.Allocate(true, true);
      held := held + [p.value];
    }
  }

  /** A run from a new allocator after which TrimEmptyChunk breaks the class invariant. */
  method DanglingCursor() returns (a: FixedAllocator)
    ensures fresh(a) && !a.Valid()
  {
    hide FixedAllocator.Outstanding, FixedAllocator.Sound;
    a := new FixedAllocator(1, 8);
    var held := FillChunk(a);
    var p := a.Allocate(true, true);
    assert |a.chunks| == 2 && a.allocChunk == 1 && a.chunks[0].avail == 0 && a.chunks[1].avail == 7;
    for i := 0 to 8
      invariant a.Valid() && fresh(a.Memories()) && |a.chunks| == 2 && a.allocChunk == 1
      invariant a.chunks[0].avail == i && a.chunks[1].avail == 7 && a.emptyChunk == if i < 8 then -1 else 0
      invariant forall l | i <= l < 8 :: held[l] in a.Outstanding() && held[l].id == a.chunks[0].data
    {
      a.Apart(0, 1);
      var _ := a.Deallocate(held[i], -1);
    }
    var _ := a.TrimEmptyChunk();
  }

  /** With eight filled chunks in a vector for eight, an allocation that has no memory for a ninth
      moves the chunks away from under the cursors. */
  method GrownInVain() returns (a: FixedAllocator)
    ensures fresh(a) && !a.Valid()
  {
    hide FixedAllocator.Outstanding, FixedAllocator.Sound;
    a := new FixedAllocator(1, 8);
    for i := 0 to 64
      invariant a.Valid() && fresh(a.Memories()) && a.emptyChunk == -1 && a.numBlocks == 8
      invariant |a.chunks| == (i + 7) / 8 && a.allocChunk == |a.chunks| - 1 && a.capacity == if i == 0 then 0 else 8
      invariant forall k | 0 <= k < |a.chunks| :: a.chunks[k].avail == if k < a.allocChunk then 0 else 8 * |a.chunks| - i
    {
      var _ := a.Allocate(true, true);
    }
    var _ := a.Allocate(true, false);
  }

  /** Trimming the vector of a single chunk does the same. */
  method TrimmedAway() returns (a: FixedAllocator)
    ensures fresh(a) && !a.Valid()
  {
    hide FixedAllocator.Outstanding, FixedAllocator.Sound;
    a := new FixedAllocator(1, 8);
    var _ := a.Allocate(true, true);
    var _ := a.TrimChunkList();
  }
}
