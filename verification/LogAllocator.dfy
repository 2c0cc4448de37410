/**
 Log_allocator: a bump allocator over aligned chunks. A chunk counts its live blocks, plus one
 while it is current, and goes to the free list when the count reaches zero; the next field
 of a free chunk is the link of that list.
 */
module LogAllocator {
  import opened FiniteSets
  import opened Powers

  type Address = nat

  const HEADER: nat := 24  // next, max and nb come before data

  /** struct Chunk; its data begins HEADER bytes after its address. */
  datatype Chunk = Chunk(next: Address, max: Address, nb: int)

  // ---------------------------------------------------------------- finding the chunk of an address

  /** The chunk that p lies in: p rounded down to a multiple of chunkSize */
  function ChunkOf(p: Address, chunkSize: nat): (c: Address)
    requires chunkSize > 0
    ensures c <= p < c + chunkSize
  {
    if p < chunkSize then 0 else chunkSize + ChunkOf(p - chunkSize, chunkSize)
  }

  /** c is a multiple of chunkSize */
  predicate Aligned(c: Address, chunkSize: nat)
    requires chunkSize > 0
  {
    ChunkOf(c, chunkSize) == c
  }

  /** Two chunks at different addresses do not overlap. */
  lemma {:induction false} ChunksApart(c: Address, d: Address, chunkSize: nat)
    requires chunkSize > 0 && Aligned(c, chunkSize) && Aligned(d, chunkSize) && c < d
    ensures c + chunkSize <= d
  {
    if c >= chunkSize { ChunksApart(c - chunkSize, d - chunkSize, chunkSize); }
  }

  /** An address inside the chunk at c belongs to it. */
  lemma {:induction false} InChunk(p: Address, chunkSize: nat, c: Address)
    requires chunkSize > 0 && Aligned(c, chunkSize) && c <= p < c + chunkSize
    ensures ChunkOf(p, chunkSize) == c
  {
    if c >= chunkSize { InChunk(p - chunkSize, chunkSize, c - chunkSize); }
  }

  /** p & ~m, bit by bit */
  function AndNot(p: nat, m: nat): nat {
    if p == 0 then 0 else 2 * AndNot(p / 2, m / 2) + if p % 2 == 1 && m % 2 == 0 then 1 else 0
  }

  /** (Chunk *) ((long) p & ~((long) chunk_size - 1)) */
  function Masked(p: Address, chunkSize: nat): Address
    requires chunkSize > 0
  {
    AndNot(p, chunkSize - 1)
  }

  ghost predicate IsPower(n: nat) {
    exists k :: Pow2(k) == n
  }

  lemma {:induction false} ChunkOfOne(p: Address)
    ensures ChunkOf(p, 1) == p && AndNot(p, 0) == p
  {
    if p > 0 {
      ChunkOfOne(p - 1);
      ChunkOfOne(p / 2);
    }
  }

  lemma {:induction false} ChunkOfTwice(p: Address, chunkSize: nat)
    requires chunkSize > 0
    ensures ChunkOf(p, 2 * chunkSize) == 2 * ChunkOf(p / 2, chunkSize)
  {
    if p >= 2 * chunkSize {
      ChunkOfTwice(p - 2 * chunkSize, chunkSize);
      assert (p - 2 * chunkSize) / 2 == p / 2 - chunkSize;
    }
  }

  lemma {:induction false} PowerMasks(p: Address, k: nat)
    ensures Masked(p, Pow2(k)) == ChunkOf(p, Pow2(k))
  {
    if k == 0 {
      ChunkOfOne(p);
    } else {
      PowerMasks(p / 2, k - 1);
      ChunkOfTwice(p, Pow2(k - 1));
      assert (2 * Pow2(k - 1) - 1) / 2 == Pow2(k - 1) - 1;
    }
  }

  /** A mask below 2^k leaves the bits from the k-th on. */
  lemma {:induction false} MaskKeepsTop(p: nat, m: nat, k: nat)
    requires m < Pow2(k) <= p
    ensures AndNot(p, m) >= Pow2(k)
  {
    if k == 0 { ChunkOfOne(p); } else { MaskKeepsTop(p / 2, m / 2, k - 1); }
  }

  /** With any other size, the mask misses the first chunk from the next power of two on. */
  lemma OtherSizeMisses(chunkSize: nat) returns (from: Address)
    requires chunkSize > 0 && !IsPower(chunkSize)
    ensures chunkSize < from <= 2 * chunkSize - 2
    ensures forall p :: from <= p < 2 * chunkSize ==> ChunkOf(p, chunkSize) == chunkSize < Masked(p, chunkSize)
  {
    var k := Log2(chunkSize);
    Log2Range(chunkSize);
    assert Pow2(k) != chunkSize;
    from := Pow2(k + 1);
    forall p | from <= p < 2 * chunkSize ensures ChunkOf(p, chunkSize) == chunkSize < Masked(p, chunkSize) {
      MaskKeepsTop(p, chunkSize - 1, k + 1);
    }
  }

  /** The mask finds the chunk of every address exactly if the chunk size is a power of two. */
  lemma MaskFindsIff(chunkSize: nat)
    requires chunkSize > 0
    ensures IsPower(chunkSize) <==> forall p :: Masked(p, chunkSize) == ChunkOf(p, chunkSize)
  {
    hide AndNot, ChunkOf;
    if IsPower(chunkSize) {
      var k :| Pow2(k) == chunkSize;
      forall p ensures Masked(p, chunkSize) == ChunkOf(p, chunkSize) { PowerMasks(p, k); }
    } else {
      var from := OtherSizeMisses(chunkSize);
      assert Masked(from, chunkSize) != ChunkOf(from, chunkSize);
    }
  }

  lemma MaskHalf(p: nat, m: nat)
    requires p > 0
    ensures AndNot(p, m) == 2 * AndNot(p / 2, m / 2) + if p % 2 == 1 && m % 2 == 0 then 1 else 0
  {
  }

  lemma MaskTwo(p: nat, m: nat)
    requires p >= 2 && m % 4 == 3
    ensures AndNot(p, m) == 4 * AndNot(p / 4, m / 4)
  {
    hide AndNot;
    MaskHalf(p, m);
    MaskHalf(p / 2, m / 2);
  }

  lemma MaskFour(p: nat, m: nat)
    requires p >= 8 && m % 16 == 15
    ensures AndNot(p, m) == 16 * AndNot(p / 16, m / 16)
  {
    hide AndNot;
    MaskTwo(p, m);
    MaskTwo(p / 4, m / 4);
  }

  /** Three pages are a legal chunk size, and the mask takes 0x4018 out of the chunk at 0x3000. */
  lemma ThreePages()
    ensures ChunkOf(0x4018, 0x3000) == 0x3000 && Masked(0x4018, 0x3000) == 0x4000
  {
    assert AndNot(2, 1) == 2 && AndNot(4, 2) == 4;
    hide AndNot;
    MaskFour(0x4018, 0x2FFF);
    MaskFour(0x401, 0x2FF);
    MaskFour(0x40, 0x2F);
  }

  // ---------------------------------------------------------------- blocks

  /** The live blocks of the chunk at address c. */
  ghost function Blocks(live: map<Address, nat>, chunkSize: nat, c: Address): set<Address>
    requires chunkSize > 0
  {
    set p | p in live && ChunkOf(p, chunkSize) == c
  }

  lemma BlocksWith(live: map<Address, nat>, chunkSize: nat, p: Address, sz: nat, c: Address)
    requires chunkSize > 0 && p !in live
    ensures |Blocks(live[p := sz], chunkSize, c)| == |Blocks(live, chunkSize, c)| + if ChunkOf(p, chunkSize) == c then 1 else 0
  {
    assert Blocks(live[p := sz], chunkSize, c) ==
      Blocks(live, chunkSize, c) + if ChunkOf(p, chunkSize) == c then {p} else {};
  }

  lemma BlocksWithout(live: map<Address, nat>, chunkSize: nat, p: Address, c: Address)
    requires chunkSize > 0 && p in live
    ensures |Blocks(live - {p}, chunkSize, c)| == |Blocks(live, chunkSize, c)| - if ChunkOf(p, chunkSize) == c then 1 else 0
  {
    assert Blocks(live - {p}, chunkSize, c) ==
      Blocks(live, chunkSize, c) - if ChunkOf(p, chunkSize) == c then {p} else {};
  }

  lemma BlocksResized(live: map<Address, nat>, chunkSize: nat, p: Address, sz: nat, c: Address)
    requires chunkSize > 0 && p in live
    ensures Blocks(live[p := sz], chunkSize, c) == Blocks(live, chunkSize, c)
  {
  }

  /** Live blocks do not overlap. */
  ghost predicate Disjoint(live: map<Address, nat>) {
    forall p, r :: p in live && r in live && p != r ==> p + live[p] <= r || r + live[r] <= p
  }

  // ---------------------------------------------------------------- the heap

  datatype Heap = Heap(chunks: map<Address, Chunk>, cur: Address, freeChunks: Address, frontier: Address)

  /** Block p lies in the data area of its chunk, and before the free area if that chunk is current. */
  ghost predicate Placed(h: Heap, chunkSize: nat, p: Address, sz: nat)
    requires chunkSize > 0
  {
    var c := ChunkOf(p, chunkSize);
    && sz > 0 && c in h.chunks && c + HEADER <= p && p + sz <= c + chunkSize
    && (c == h.cur ==> p + sz <= h.chunks[c].next)
  }

  /** A chunk in use: its reference count, and its free area. */
  ghost predicate InUse(h: Heap, chunkSize: nat, live: map<Address, nat>, c: Address)
    requires chunkSize > 0 && c in h.chunks
  {
    && h.chunks[c].nb == |Blocks(live, chunkSize, c)| + (if c == h.cur then 1 else 0)
    && (h.chunks[c].nb > 0 ==> h.chunks[c].max == c + chunkSize && c + HEADER <= h.chunks[c].next <= h.chunks[c].max)
  }

  ghost predicate AllInUse(h: Heap, chunkSize: nat, live: map<Address, nat>) {
    && chunkSize > HEADER && h.cur in h.chunks && Aligned(h.frontier, chunkSize) && h.frontier > 0
    && (forall c :: c in h.chunks ==> 0 < c < h.frontier && Aligned(c, chunkSize) && InUse(h, chunkSize, live, c))
  }

  ghost predicate AllPlaced(h: Heap, chunkSize: nat, live: map<Address, nat>)
    requires chunkSize > 0
  {
    forall p :: p in live ==> Placed(h, chunkSize, p, live[p])
  }

  /** The free list runs through free, linked by the next fields, and holds exactly the unused chunks. */
  ghost predicate FreeList(h: Heap, free: seq<Address>) {
    && h.freeChunks == (if free == [] then 0 else free[0])
    && (forall i, j :: 0 <= i < j < |free| ==> free[i] != free[j])
    && (forall i :: 0 <= i < |free| ==> Unused(h, free[i]) && free[i] > 0)
    && (forall i :: 0 <= i < |free| ==> NextFree(h, free, i))
    && (forall c :: Unused(h, c) ==> c in free)
  }

  ghost predicate NextFree(h: Heap, free: seq<Address>, i: nat)
    requires i < |free|
  {
    free[i] in h.chunks && h.chunks[free[i]].next == if i + 1 < |free| then free[i + 1] else 0
  }

  ghost predicate Unused(h: Heap, c: Address) {
    c in h.chunks && h.chunks[c].nb == 0
  }

  ghost predicate Valid(h: Heap, chunkSize: nat, live: map<Address, nat>, free: seq<Address>) {
    AllInUse(h, chunkSize, live) && AllPlaced(h, chunkSize, live) && Disjoint(live) && FreeList(h, free)
  }

  /** Steps that leave the unused chunks alone keep the free list. */
  lemma FreeListKept(h: Heap, g: Heap, free: seq<Address>)
    requires FreeList(h, free) && g.freeChunks == h.freeChunks
    requires forall c :: Unused(h, c) ==> Unused(g, c) && g.chunks[c] == h.chunks[c]
    requires forall c :: Unused(g, c) ==> Unused(h, c)
    ensures FreeList(g, free)
  {
    forall i | 0 <= i < |free| ensures Unused(g, free[i]) && g.chunks[free[i]] == h.chunks[free[i]] && NextFree(g, free, i) {
      assert Unused(h, free[i]) && NextFree(h, free, i);
    }
  }

  /** The steps below can follow the pointers they follow. */
  lemma Reachable(h: Heap, chunkSize: nat, live: map<Address, nat>, free: seq<Address>)
    requires Valid(h, chunkSize, live, free)
    ensures WellFormed(h)
    ensures h.chunks[h.cur].nb >= 1 && (h.chunks[h.cur].nb == 1 <==> Blocks(live, chunkSize, h.cur) == {})
  {
  }

  predicate WellFormed(h: Heap) {
    h.cur in h.chunks && (h.freeChunks != 0 ==> h.freeChunks in h.chunks)
  }

  // ---------------------------------------------------------------- the steps

  /** There is space in the current chunk. */
  predicate Room(h: Heap, sz: nat)
    requires h.cur in h.chunks
  {
    h.chunks[h.cur].next + sz < h.chunks[h.cur].max
  }

  /** Takes sz bytes from the current chunk. */
  function Bump(h: Heap, sz: nat): Heap
    requires h.cur in h.chunks
  {
    var k := h.chunks[h.cur];
    h.(chunks := h.chunks[h.cur := k.(next := k.next + sz, nb := k.nb + 1)])
  }

  /** alloc_chunk: a chunk from the free list, or a new one. */
  function AllocChunk(h: Heap, chunkSize: nat): Heap
    requires h.freeChunks != 0 ==> h.freeChunks in h.chunks
  {
    var c := if h.freeChunks != 0 then h.freeChunks else h.frontier;
    Heap(h.chunks[c := Chunk(c + HEADER, c + chunkSize, 1)], c,
         if h.freeChunks != 0 then h.chunks[c].next else 0,
         if h.freeChunks != 0 then h.frontier else h.frontier + chunkSize)
  }

  /** The current chunk is full: reuse it if it holds no block, or else take another. */
  function Renew(h: Heap, chunkSize: nat): Heap
    requires WellFormed(h)
  {
    var k := h.chunks[h.cur];
    if k.nb == 1 then h.(chunks := h.chunks[h.cur := k.(next := h.cur + HEADER)])
    else AllocChunk(h.(chunks := h.chunks[h.cur := k.(nb := k.nb - 1)]), chunkSize)
  }

  /** The free list after Renew */
  function FreeAfterRenew(h: Heap, free: seq<Address>): seq<Address>
    requires h.cur in h.chunks
  {
    if h.chunks[h.cur].nb == 1 || free == [] then free else free[1..]
  }

  /** A new block lies after every block of the current chunk, and outside every other chunk. */
  lemma BumpApart(h: Heap, chunkSize: nat, live: map<Address, nat>, free: seq<Address>, sz: nat, r: Address)
    requires Valid(h, chunkSize, live, free) && sz > 0 && Room(h, sz) && r in live
    ensures var p := h.chunks[h.cur].next; r + live[r] <= p || p + sz <= r
  {
    hide ChunkOf, Aligned;
    var p, c, d := h.chunks[h.cur].next, h.cur, ChunkOf(r, chunkSize);
    assert Placed(h, chunkSize, r, live[r]);
    assert InUse(h, chunkSize, live, c);
    if c < d { ChunksApart(c, d, chunkSize); }
    if d < c { ChunksApart(d, c, chunkSize); }
  }

  lemma BumpValid(h: Heap, chunkSize: nat, live: map<Address, nat>, free: seq<Address>, sz: nat)
    requires Valid(h, chunkSize, live, free) && sz > 0 && Room(h, sz)
    ensures h.chunks[h.cur].next !in live
    ensures Valid(Bump(h, sz), chunkSize, live[h.chunks[h.cur].next := sz], free)
  {
    hide ChunkOf, Aligned, FreeList, Blocks;
    var p, g := h.chunks[h.cur].next, Bump(h, sz);
    var live' := live[p := sz];
    assert InUse(h, chunkSize, live, h.cur);
    forall r | r in live ensures r + live[r] <= p || p + sz <= r {
      BumpApart(h, chunkSize, live, free, sz, r);
    }
    assert p !in live;
    assert Disjoint(live');
    hide Disjoint;
    InChunk(p, chunkSize, h.cur);
    forall c | c in g.chunks ensures InUse(g, chunkSize, live', c) {
      BlocksWith(live, chunkSize, p, sz, c);
      assert InUse(h, chunkSize, live, c);
    }
    hide InUse;
    forall r | r in live' ensures Placed(g, chunkSize, r, live'[r]) {
      if r != p { assert Placed(h, chunkSize, r, live[r]); }
    }
    hide Placed;
    FreeListKept(h, g, free);
  }

  /** A full current chunk without blocks starts over. */
  lemma ReuseValid(h: Heap, chunkSize: nat, live: map<Address, nat>, free: seq<Address>)
    requires Valid(h, chunkSize, live, free) && h.chunks[h.cur].nb == 1
    ensures WellFormed(h)
    ensures Valid(Renew(h, chunkSize), chunkSize, live, free)
  {
    Reachable(h, chunkSize, live, free);
    hide ChunkOf, Aligned, FreeList, Disjoint;
    var g := Renew(h, chunkSize);
    assert AllInUse(g, chunkSize, live) by {
      forall c | c in g.chunks ensures InUse(g, chunkSize, live, c) { assert InUse(h, chunkSize, live, c); }
    }
    hide AllInUse;
    assert AllPlaced(g, chunkSize, live) by {
      forall r | r in live ensures Placed(g, chunkSize, r, live[r]) {
        assert Placed(h, chunkSize, r, live[r]);
        assert r !in Blocks(live, chunkSize, h.cur);
      }
    }
    hide AllPlaced;
    FreeListKept(h, g, free);
  }

  /** A chunk that is unused or not yet taken holds no block. */
  lemma NoBlocks(h: Heap, chunkSize: nat, live: map<Address, nat>, free: seq<Address>, c: Address)
    requires Valid(h, chunkSize, live, free) && c != h.cur
    requires c in h.chunks ==> Unused(h, c)
    ensures Blocks(live, chunkSize, c) == {}
  {
  }

  /** Taking the first unused chunk takes the head off the free list. */
  lemma FreeListPopped(h: Heap, g: Heap, free: seq<Address>)
    requires FreeList(h, free) && WellFormed(h)
    requires g.freeChunks == if h.freeChunks != 0 then h.chunks[h.freeChunks].next else 0
    requires forall c :: Unused(h, c) && c != h.freeChunks ==> Unused(g, c) && g.chunks[c] == h.chunks[c]
    requires forall c :: Unused(g, c) ==> Unused(h, c) && c != h.freeChunks
    ensures FreeList(g, if free == [] then [] else free[1..])
  {
    if free != [] {
      assert Unused(h, free[0]) && NextFree(h, free, 0);
      forall i | 0 <= i < |free[1..]| ensures Unused(g, free[1..][i]) && NextFree(g, free[1..], i) {
        assert Unused(h, free[i + 1]) && NextFree(h, free, i + 1);
      }
    }
  }

  /** From h to g another chunk, unused or new, has become current. */
  ghost predicate Moved(h: Heap, g: Heap, chunkSize: nat)
    requires chunkSize > 0 && h.cur in h.chunks
  {
    && g.cur != h.cur && (g.cur in h.chunks ==> Unused(h, g.cur))
    && 0 < g.cur < g.frontier && h.frontier <= g.frontier && Aligned(g.cur, chunkSize) && Aligned(g.frontier, chunkSize)
    && g.chunks.Keys == h.chunks.Keys + {g.cur}
    && g.chunks[g.cur] == Chunk(g.cur + HEADER, g.cur + chunkSize, 1)
    && g.chunks[h.cur] == h.chunks[h.cur].(nb := h.chunks[h.cur].nb - 1)
    && (forall c :: c in h.chunks && c != h.cur && c != g.cur ==> g.chunks[c] == h.chunks[c])
  }

  lemma MovedKeeps(h: Heap, g: Heap, chunkSize: nat, live: map<Address, nat>, free: seq<Address>)
    requires Valid(h, chunkSize, live, free) && Moved(h, g, chunkSize)
    ensures AllInUse(g, chunkSize, live) && AllPlaced(g, chunkSize, live)
  {
    hide ChunkOf, Aligned, Disjoint, FreeList;
    NoBlocks(h, chunkSize, live, free, g.cur);
    assert AllInUse(g, chunkSize, live) by {
      forall c | c in g.chunks ensures InUse(g, chunkSize, live, c) {
        if c != g.cur { assert InUse(h, chunkSize, live, c); }
      }
    }
    hide AllInUse, InUse;
    assert AllPlaced(g, chunkSize, live) by {
      forall r | r in live ensures Placed(g, chunkSize, r, live[r]) {
        assert Placed(h, chunkSize, r, live[r]);
        assert r !in Blocks(live, chunkSize, g.cur);
      }
    }
  }

  /** A full current chunk with blocks gives way to an unused chunk or a new one. */
  lemma TakeValid(h: Heap, chunkSize: nat, live: map<Address, nat>, free: seq<Address>)
    requires Valid(h, chunkSize, live, free) && h.chunks[h.cur].nb > 1
    ensures WellFormed(h)
    ensures Valid(Renew(h, chunkSize), chunkSize, live, FreeAfterRenew(h, free))
  {
    RenewMoves(h, chunkSize, live, free);
    hide AllInUse, AllPlaced, Disjoint, FreeList, Aligned;
    var g := Renew(h, chunkSize);
    MovedKeeps(h, g, chunkSize, live, free);
    FreeListPopped(h, g, free);
  }

  lemma RenewMoves(h: Heap, chunkSize: nat, live: map<Address, nat>, free: seq<Address>)
    requires Valid(h, chunkSize, live, free) && h.chunks[h.cur].nb > 1
    ensures WellFormed(h) && Moved(h, Renew(h, chunkSize), chunkSize)
  {
    hide InUse, AllPlaced, Disjoint, NextFree;
    Reachable(h, chunkSize, live, free);
    assert Aligned(h.frontier + chunkSize, chunkSize);
    hide ChunkOf, Aligned;
  }

  /** Renewing keeps the heap valid and leaves the current chunk empty. */
  lemma RenewValid(h: Heap, chunkSize: nat, live: map<Address, nat>, free: seq<Address>)
    requires Valid(h, chunkSize, live, free)
    ensures WellFormed(h)
    ensures Valid(Renew(h, chunkSize), chunkSize, live, FreeAfterRenew(h, free))
    ensures var g := Renew(h, chunkSize);
            g.chunks[g.cur].next == g.cur + HEADER && g.chunks[g.cur].max == g.cur + chunkSize
  {
    Reachable(h, chunkSize, live, free);
    assert InUse(h, chunkSize, live, h.cur);
    if h.chunks[h.cur].nb == 1 {
      ReuseValid(h, chunkSize, live, free);
    } else {
      TakeValid(h, chunkSize, live, free);
    }
  }

  /** malloc's loop after n full passes, none of which found room */
  function Passes(h: Heap, chunkSize: nat, live: map<Address, nat>, free: seq<Address>, n: nat): (g: Heap)
    requires Valid(h, chunkSize, live, free)
    ensures exists free' :: Valid(g, chunkSize, live, free')
    decreases n
  {
    if n == 0 then h else
      RenewValid(h, chunkSize, live, free);
      Passes(Renew(h, chunkSize), chunkSize, live, FreeAfterRenew(h, free), n - 1)
  }

  /**
   malloc's loop ends on some pass exactly when a fresh chunk has room, and then by the second
   pass; otherwise no pass ever finds room, however often the loop goes round.
   */
  lemma MallocEndsIff(h: Heap, chunkSize: nat, live: map<Address, nat>, free: seq<Address>, sz: nat)
    requires Valid(h, chunkSize, live, free) && sz > 0
    ensures HEADER + sz < chunkSize ==> Room(h, sz) || Room(Passes(h, chunkSize, live, free, 1), sz)
    ensures (exists n :: Room(Passes(h, chunkSize, live, free, n), sz)) <==> HEADER + sz < chunkSize
  {
    RenewValid(h, chunkSize, live, free);
    assert Passes(h, chunkSize, live, free, 1) == Passes(Renew(h, chunkSize), chunkSize, live, FreeAfterRenew(h, free), 0);
    assert HEADER + sz < chunkSize ==> Room(Passes(h, chunkSize, live, free, 1), sz);
    if n: nat :| Room(Passes(h, chunkSize, live, free, n), sz) {
      var g := Passes(h, chunkSize, live, free, n);
      var free' :| Valid(g, chunkSize, live, free');
      assert InUse(g, chunkSize, live, g.cur);
    }
  }

  // ---------------------------------------------------------------- free and realloc

  /** pc with its count lowered, and its free area moved back if block p was the last before it */
  function Dropped(h: Heap, pc: Address, p: Address, sz: nat): Chunk
    requires pc in h.chunks
  {
    var k := h.chunks[pc];
    Chunk(if pc == h.cur && p + sz == k.next then p else k.next, k.max, k.nb - 1)
  }

  function Release(h: Heap, pc: Address, p: Address, sz: nat): Heap
    requires pc in h.chunks
  {
    var k := Dropped(h, pc, p, sz);
    if k.nb == 0 then h.(chunks := h.chunks[pc := k.(next := h.freeChunks)], freeChunks := pc)
    else h.(chunks := h.chunks[pc := k])
  }

  function FreeAfterRelease(h: Heap, pc: Address, free: seq<Address>): seq<Address>
    requires pc in h.chunks
  {
    if h.chunks[pc].nb == 1 then [pc] + free else free
  }

  /** The chunk of a live block is in use, and counts more than the block if it is current. */
  lemma Counted(h: Heap, chunkSize: nat, live: map<Address, nat>, free: seq<Address>, p: Address)
    requires Valid(h, chunkSize, live, free) && p in live
    ensures var c := ChunkOf(p, chunkSize);
            c in h.chunks && h.chunks[c].nb >= (if c == h.cur then 2 else 1) && p + live[p] <= c + chunkSize
  {
    hide ChunkOf;
    var c := ChunkOf(p, chunkSize);
    assert Placed(h, chunkSize, p, live[p]);
    assert InUse(h, chunkSize, live, c);
    assert p in Blocks(live, chunkSize, c);
    SubsetSize({p}, Blocks(live, chunkSize, c));
  }

  lemma FreeListPushed(h: Heap, g: Heap, free: seq<Address>, c: Address)
    requires FreeList(h, free) && c > 0 && c in h.chunks && !Unused(h, c)
    requires g.freeChunks == c && Unused(g, c) && g.chunks[c].next == h.freeChunks
    requires forall d :: d != c && Unused(h, d) ==> Unused(g, d) && g.chunks[d] == h.chunks[d]
    requires forall d :: d != c && Unused(g, d) ==> Unused(h, d)
    ensures FreeList(g, [c] + free)
  {
    var free' := [c] + free;
    forall i | 0 <= i < |free'| ensures Unused(g, free'[i]) && free'[i] > 0 && NextFree(g, free', i) && (i > 0 ==> free'[i] != c) {
      if i > 0 { assert free'[i] == free[i - 1] && Unused(h, free[i - 1]) && NextFree(h, free, i - 1); }
    }
  }

  lemma ReleaseInUseAt(h: Heap, chunkSize: nat, live: map<Address, nat>, free: seq<Address>, p: Address, c: Address)
    requires Valid(h, chunkSize, live, free) && p in live && c in h.chunks && ChunkOf(p, chunkSize) in h.chunks
    ensures InUse(Release(h, ChunkOf(p, chunkSize), p, live[p]), chunkSize, live - {p}, c)
  {
    hide ChunkOf, Aligned, FreeList, Disjoint, Blocks;
    assert Placed(h, chunkSize, p, live[p]);
    assert InUse(h, chunkSize, live, c) && InUse(h, chunkSize, live, ChunkOf(p, chunkSize));
    hide AllInUse, AllPlaced;
    BlocksWithout(live, chunkSize, p, c);
  }

  lemma ReleaseInUse(h: Heap, chunkSize: nat, live: map<Address, nat>, free: seq<Address>, p: Address)
    requires Valid(h, chunkSize, live, free) && p in live
    ensures var pc := ChunkOf(p, chunkSize);
            pc in h.chunks && AllInUse(Release(h, pc, p, live[p]), chunkSize, live - {p})
  {
    hide ChunkOf, Aligned, FreeList, Disjoint, InUse, AllPlaced;
    Counted(h, chunkSize, live, free, p);
    var g := Release(h, ChunkOf(p, chunkSize), p, live[p]);
    forall c | c in g.chunks ensures InUse(g, chunkSize, live - {p}, c) {
      ReleaseInUseAt(h, chunkSize, live, free, p, c);
    }
  }

  lemma ReleasePlaced(h: Heap, chunkSize: nat, live: map<Address, nat>, free: seq<Address>, p: Address)
    requires Valid(h, chunkSize, live, free) && p in live
    ensures var pc := ChunkOf(p, chunkSize);
            pc in h.chunks && AllPlaced(Release(h, pc, p, live[p]), chunkSize, live - {p}) && Disjoint(live - {p})
  {
    hide ChunkOf, Aligned, FreeList;
    Counted(h, chunkSize, live, free, p);
    hide AllInUse;
    var g := Release(h, ChunkOf(p, chunkSize), p, live[p]);
    forall r | r in live - {p} ensures Placed(g, chunkSize, r, live[r]) { assert Placed(h, chunkSize, r, live[r]); }
  }

  /** Freeing a live block: the chunk it empties is never the current one. */
  lemma ReleaseValid(h: Heap, chunkSize: nat, live: map<Address, nat>, free: seq<Address>, p: Address)
    requires Valid(h, chunkSize, live, free) && p in live
    ensures var pc := ChunkOf(p, chunkSize);
            && pc in h.chunks && (h.chunks[pc].nb == 1 ==> pc != h.cur)
            && Valid(Release(h, pc, p, live[p]), chunkSize, live - {p}, FreeAfterRelease(h, pc, free))
  {
    hide ChunkOf, Aligned, FreeList, AllPlaced, Disjoint, InUse;
    Counted(h, chunkSize, live, free, p);
    ReleaseInUse(h, chunkSize, live, free, p);
    ReleasePlaced(h, chunkSize, live, free, p);
    var pc := ChunkOf(p, chunkSize);
    assert pc > 0;
    hide AllInUse;
    var g := Release(h, pc, p, live[p]);
    if h.chunks[pc].nb == 1 { FreeListPushed(h, g, free, pc); } else { FreeListKept(h, g, free); }
  }

  /** Freeing the block that malloc has just taken gives back its space: the heap is as it was before. */
  lemma MallocThenFree(h: Heap, chunkSize: nat, live: map<Address, nat>, free: seq<Address>, sz: nat)
    requires Valid(h, chunkSize, live, free) && sz > 0 && Room(h, sz)
    ensures var p := h.chunks[h.cur].next;
            ChunkOf(p, chunkSize) == h.cur && Release(Bump(h, sz), h.cur, p, sz) == h
  {
    hide ChunkOf, Aligned, FreeList, AllPlaced, Disjoint;
    var p := h.chunks[h.cur].next;
    Reachable(h, chunkSize, live, free);
    assert InUse(h, chunkSize, live, h.cur);
    InChunk(p, chunkSize, h.cur);
    assert Release(Bump(h, sz), h.cur, p, sz).chunks == h.chunks;
  }

  /** Taking any other chunk for that of the block leaves a wrong count, whatever becomes of the free list. */
  lemma WrongChunk(h: Heap, chunkSize: nat, live: map<Address, nat>, free: seq<Address>, p: Address, pc: Address, free': seq<Address>)
    requires Valid(h, chunkSize, live, free) && p in live && pc in h.chunks
    ensures pc != ChunkOf(p, chunkSize) ==> !Valid(Release(h, pc, p, live[p]), chunkSize, live - {p}, free')
  {
    hide ChunkOf, Aligned, FreeList, Disjoint, Blocks;
    var c, g := ChunkOf(p, chunkSize), Release(h, pc, p, live[p]);
    Counted(h, chunkSize, live, free, p);
    BlocksWithout(live, chunkSize, p, c);
    assert InUse(h, chunkSize, live, c);
    if pc != c {
      assert !InUse(g, chunkSize, live - {p}, c);
    }
  }

  /**
   With a chunk size that is not a power of two, two calls of malloc on a new allocator give a block
   whose masked address is no chunk at all.
   */
  lemma FreeGoesAstray(chunkSize: nat)
    requires chunkSize > HEADER + 2 && !IsPower(chunkSize)
    ensures var h0 := AllocChunk(Heap(map[], 0, 0, chunkSize), chunkSize);
            var sz := chunkSize - HEADER - 2;
            var h1 := Bump(h0, sz);
            var p := h1.chunks[h1.cur].next;
            && Room(h0, sz) && Room(h1, 1)
            && Valid(Bump(h1, 1), chunkSize, map[chunkSize + HEADER := sz, p := 1], [])
            && Masked(p, chunkSize) !in Bump(h1, 1).chunks
  {
    hide Valid, ChunkOf, AndNot;
    var h0 := AllocChunk(Heap(map[], 0, 0, chunkSize), chunkSize);
    var sz, q := chunkSize - HEADER - 2, chunkSize + HEADER;
    var h1 := Bump(h0, sz);
    FirstChunkValid(chunkSize);
    BumpValid(h0, chunkSize, map[], [], sz);
    var live := map[q := sz];
    assert map[][q := sz] == live;
    BumpValid(h1, chunkSize, live, [], 1);
    assert live[q + sz := 1] == map[q := sz, q + sz := 1];
    var from := OtherSizeMisses(chunkSize);
  }

  /** The block is the last of the current chunk, and there is space for its new size. */
  predicate Resizable(h: Heap, pc: Address, p: Address, osz: nat, nsz: nat)
    requires h.cur in h.chunks
  {
    pc == h.cur && p + osz == h.chunks[h.cur].next && h.chunks[h.cur].next + (nsz - osz) < h.chunks[h.cur].max
  }

  function Resize(h: Heap, p: Address, nsz: nat): Heap
    requires h.cur in h.chunks
  {
    h.(chunks := h.chunks[h.cur := h.chunks[h.cur].(next := p + nsz)])
  }

  /** Whatever size the chunks have, a last block before the free area of the current chunk lies in that chunk. */
  lemma LastIsCurrent(h: Heap, chunkSize: nat, live: map<Address, nat>, free: seq<Address>, p: Address, nsz: nat)
    requires Valid(h, chunkSize, live, free) && p in live && Resizable(h, Masked(p, chunkSize), p, live[p], nsz)
    ensures Resizable(h, ChunkOf(p, chunkSize), p, live[p], nsz)
  {
    hide ChunkOf, Aligned, FreeList, AndNot;
    var d := ChunkOf(p, chunkSize);
    assert Placed(h, chunkSize, p, live[p]) && InUse(h, chunkSize, live, h.cur);
    if h.cur < d { ChunksApart(h.cur, d, chunkSize); }
    if d < h.cur { ChunksApart(d, h.cur, chunkSize); }
  }

  lemma ResizeInUse(h: Heap, chunkSize: nat, live: map<Address, nat>, free: seq<Address>, p: Address, nsz: nat)
    requires Valid(h, chunkSize, live, free) && p in live && nsz > 0 && Resizable(h, ChunkOf(p, chunkSize), p, live[p], nsz)
    ensures AllInUse(Resize(h, p, nsz), chunkSize, live[p := nsz])
  {
    hide ChunkOf, Aligned, FreeList, Disjoint;
    var g := Resize(h, p, nsz);
    assert Placed(h, chunkSize, p, live[p]);
    forall c | c in g.chunks ensures InUse(g, chunkSize, live[p := nsz], c) {
      BlocksResized(live, chunkSize, p, nsz, c);
      assert InUse(h, chunkSize, live, c);
    }
  }

  /** The resized block stays clear of the others. */
  lemma ResizeApart(h: Heap, chunkSize: nat, live: map<Address, nat>, free: seq<Address>, p: Address, nsz: nat, r: Address)
    requires Valid(h, chunkSize, live, free) && p in live && nsz > 0 && Resizable(h, ChunkOf(p, chunkSize), p, live[p], nsz)
    requires r in live && r != p
    ensures r + live[r] <= p || p + nsz <= r
    ensures Placed(Resize(h, p, nsz), chunkSize, r, live[r])
  {
    hide ChunkOf, Aligned, FreeList;
    var d := ChunkOf(r, chunkSize);
    assert InUse(h, chunkSize, live, h.cur);
    assert Placed(h, chunkSize, r, live[r]) && Placed(h, chunkSize, p, live[p]);
    if h.cur < d { ChunksApart(h.cur, d, chunkSize); }
    if d < h.cur { ChunksApart(d, h.cur, chunkSize); }
  }

  lemma ResizeValid(h: Heap, chunkSize: nat, live: map<Address, nat>, free: seq<Address>, p: Address, nsz: nat)
    requires Valid(h, chunkSize, live, free) && p in live && nsz > 0 && Resizable(h, ChunkOf(p, chunkSize), p, live[p], nsz)
    ensures Valid(Resize(h, p, nsz), chunkSize, live[p := nsz], free)
  {
    hide ChunkOf, Aligned, FreeList;
    ResizeInUse(h, chunkSize, live, free, p, nsz);
    var g, live' := Resize(h, p, nsz), live[p := nsz];
    assert Placed(g, chunkSize, p, nsz) by {
      assert Placed(h, chunkSize, p, live[p]) && InUse(h, chunkSize, live, h.cur);
    }
    Counted(h, chunkSize, live, free, p);
    hide AllInUse, Placed;
    forall r | r in live && r != p ensures (r + live[r] <= p || p + nsz <= r) && Placed(g, chunkSize, r, live[r]) {
      ResizeApart(h, chunkSize, live, free, p, nsz, r);
    }
    assert Disjoint(live');
    hide Disjoint;
    assert AllPlaced(g, chunkSize, live');
    hide AllPlaced;
    FreeListKept(h, g, free);
  }

  /** The free list holds a chunk exactly when no live block and no current chunk needs it. */
  lemma FreeExactly(h: Heap, chunkSize: nat, live: map<Address, nat>, free: seq<Address>, c: Address)
    requires Valid(h, chunkSize, live, free) && c in h.chunks
    ensures c in free <==> c != h.cur && Blocks(live, chunkSize, c) == {}
  {
    hide ChunkOf, Aligned, Blocks;
    assert InUse(h, chunkSize, live, c);
    assert c in free <==> Unused(h, c);
  }

  lemma FirstChunkValid(chunkSize: nat)
    requires chunkSize > HEADER
    ensures Valid(AllocChunk(Heap(map[], 0, 0, chunkSize), chunkSize), chunkSize, map[], [])
  {
  }

  // ---------------------------------------------------------------- the allocator

  class LogAllocator {
    const chunkSize: nat
    var chunks: map<Address, Chunk>  // the chunk headers in memory
    var cur: Address
    var freeChunks: Address
    var frontier: Address            // where the next new chunk goes
    ghost var live: map<Address, nat>
    ghost var free: seq<Address>

    ghost function State(): Heap
      reads this
    {
      Heap(chunks, cur, freeChunks, frontier)
    }

    ghost predicate Ok()
      reads this
    {
      chunkSize > HEADER && WellFormed(State()) && Valid(State(), chunkSize, live, free)
    }

    constructor (chunkSize: nat)
      requires chunkSize > HEADER
      ensures Ok() && live == map[] && this.chunkSize == chunkSize && freeChunks == 0
      ensures chunks == map[cur := Chunk(cur + 24, cur + chunkSize, 1)]
    {
      this.chunkSize := chunkSize;
      chunks, cur, freeChunks, frontier := map[], 0, 0, chunkSize;
      live, free := map[], [];
      new;
      FirstChunkValid(chunkSize);
      cur := TakeChunk();
    }

    /** alloc_chunk */
    method TakeChunk() returns (c: Address)
      requires freeChunks != 0 ==> freeChunks in chunks
      modifies this`chunks, this`freeChunks, this`frontier
      ensures Heap(chunks, c, freeChunks, frontier) == AllocChunk(old(State()), chunkSize)
      ensures if old(freeChunks) != 0 then c == old(freeChunks) && freeChunks == old(chunks)[c].next && frontier == old(frontier)
              else c == old(frontier) && frontier == c + chunkSize
    {
      if freeChunks != 0 {
        c := freeChunks;
        freeChunks := chunks[c].next;
      } else {
        c := frontier;
        frontier := frontier + chunkSize;
      }
      chunks := chunks[c := Chunk(c + HEADER, c + chunkSize, 1)];
    }

    /** One pass of malloc's loop that finds the current chunk full. */
    method RenewChunk()
      requires Ok()
      modifies this
      ensures Ok() && live == old(live)
      ensures WellFormed(old(State())) && State() == Renew(old(State()), chunkSize)
      ensures chunks[cur].next == cur + HEADER && chunks[cur].max == cur + chunkSize
      ensures if old(chunks)[old(cur)].nb == 1 then cur == old(cur) else cur != old(cur)
      ensures old(chunks)[old(cur)].nb > 1 && old(freeChunks) != 0 ==> cur == old(freeChunks) && frontier == old(frontier)
    {
      hide Valid;
      RenewValid(State(), chunkSize, live, free);
      ghost var h := State();
      if chunks[cur].nb == 1 {
        chunks := chunks[cur := chunks[cur].(next := cur + HEADER)];
      } else {
        Reachable(h, chunkSize, live, free);
        RenewMoves(h, chunkSize, live, free);
        chunks := chunks[cur := chunks[cur].(nb := chunks[cur].nb - 1)];
        cur := TakeChunk();
      }
      free := FreeAfterRenew(h, free);
      Reachable(State(), chunkSize, live, free);
    }

    /** malloc: a block of sz bytes, found on the first or second pass. */
    method Malloc(sz: nat) returns (p: Address, ghost passes: nat)
      requires Ok() && sz > 0 && HEADER + sz < chunkSize
      modifies this
      ensures Ok() && p !in old(live) && live == old(live)[p := sz]
      ensures passes <= 1 && (passes == 0 <==> old(cur in chunks && Room(State(), sz)))
      ensures State() == Bump(if passes == 0 then old(State()) else Renew(old(State()), chunkSize), sz)
      ensures cur in chunks && chunks[cur].next == p + sz
      ensures p == if passes == 0 then old(chunks)[cur].next else cur + HEADER
    {
      hide Valid;
      passes := 0;
      while chunks[cur].next + sz >= chunks[cur].max
        invariant Ok() && cur in chunks && live == old(live) && passes <= 1
        invariant passes == 0 ==> State() == old(State())
        invariant passes == 1 ==> State() == Renew(old(State()), chunkSize)
        invariant passes == 1 ==> Room(State(), sz) && !old(Room(State(), sz))
        decreases 1 - passes
      {
        RenewChunk();
        passes := passes + 1;
      }
      p := TakeBlock(sz);
    }

    method TakeBlock(sz: nat) returns (p: Address)
      requires Ok() && sz > 0 && Room(State(), sz)
      modifies this`chunks, this`live
      ensures Ok() && p == old(chunks[cur].next) && p !in old(live) && live == old(live)[p := sz]
      ensures State() == Bump(old(State()), sz)
    {
      hide Valid;
      BumpValid(State(), chunkSize, live, free, sz);
      p := chunks[cur].next;
      chunks := chunks[cur := chunks[cur].(next := p + sz, nb := chunks[cur].nb + 1)];
      live := live[p := sz];
    }

    method FreeChunk(pc: Address)
      requires pc in chunks
      modifies this`chunks, this`freeChunks
      ensures chunks == old(chunks[pc := chunks[pc].(next := freeChunks)]) && freeChunks == pc
    {
      chunks := chunks[pc := chunks[pc].(next := freeChunks)];
      freeChunks := pc;
    }

    /**
     free, where the mask finds the chunk of the block: for every block if chunkSize is a power of two
     (MaskFindsIff). Otherwise no valid heap would be left (WrongChunk, FreeGoesAstray).
     */
    method Free(p: Address, sz: nat)
      requires Ok() && p in live && live[p] == sz && Masked(p, chunkSize) == ChunkOf(p, chunkSize)
      modifies this
      ensures Ok() && live == old(live) - {p}
      ensures ChunkOf(p, chunkSize) in old(chunks) && State() == Release(old(State()), ChunkOf(p, chunkSize), p, sz)
      ensures chunks.Keys == old(chunks.Keys) && cur == old(cur) && frontier == old(frontier)
      ensures forall c :: c in chunks && chunks[c].nb > 0 ==>
                chunks[c].next == if c == cur && c == ChunkOf(p, chunkSize) && p + sz == old(chunks)[c].next then p else old(chunks)[c].next
    {
      hide Valid, ChunkOf, Masked;
      ReleaseValid(State(), chunkSize, live, free, p);
      ghost var h := State();
      var pc := Masked(p, chunkSize);
      if pc == cur && p + sz == chunks[cur].next {
        chunks := chunks[cur := chunks[cur].(next := chunks[cur].next - sz)];
      }
      chunks := chunks[pc := chunks[pc].(nb := chunks[pc].nb - 1)];
      if chunks[pc].nb == 0 {
        assert pc != cur;
        FreeChunk(pc);
      }
      live, free := live - {p}, FreeAfterRelease(h, pc, free);
      assert State() == Release(h, pc, p, sz);
      Reachable(State(), chunkSize, live, free);
    }

    /**
     realloc: succeeds exactly on a last block of the current chunk with space for the new size, which
     the mask finds; where it does not, nothing changes.
     */
    method Realloc(p: Address, osz: nat, nsz: nat) returns (done: bool)
      requires Ok() && p in live && live[p] == osz && nsz > 0
      modifies this`chunks, this`live
      ensures Ok() && live == (if done then old(live)[p := nsz] else old(live))
      ensures done <==> old(cur in chunks && Masked(p, chunkSize) == cur && p + osz == chunks[cur].next && p + nsz < chunks[cur].max)
      ensures cur in chunks && (done ==> chunks[cur].next == p + nsz)
      ensures State() == if done then Resize(old(State()), p, nsz) else old(State())
    {
      hide Valid, ChunkOf, Masked;
      done := false;
      if Masked(p, chunkSize) == cur && p + osz == chunks[cur].next {
        var diff := nsz - osz;
        if chunks[cur].next + diff < chunks[cur].max {
          LastIsCurrent(State(), chunkSize, live, free, p, nsz);
          ResizeValid(State(), chunkSize, live, free, p, nsz);
          chunks := chunks[cur := chunks[cur].(next := chunks[cur].next + diff)];
          live := live[p := nsz];
          done := true;
        }
      }
    }
  }
}
