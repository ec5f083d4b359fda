/**
 The block allocator of skylu/base/shampool.hpp: a header and equal blocks in one region of shared
 memory, addressed by their offset from its start, free blocks linked through their `next` words.

 `T` is what a block's node holds; `next` and `data` are the words and nodes of the blocks, by number.
 */
module ShamPool {
  import RingIndex
  import opened Wrappers

  const INVALID_POINTER: nat := 0xFFFF_FFFF_FFFF_FFFF
  const NODE_OFFSET: nat := 8

  datatype Region<T> = Region(
    maxSize: nat, maxNode: nat, allocSize: nat, allocNode: nat, nodeSize: nat, blockSize: nat, freeList: nat,
    next: seq<nat>, data: seq<T>)

  /* ---------- sizes ---------- */

  /** `(n + (unit - 1)) & ~(unit - 1)` for a unit that is a power of two. */
  function RoundUp(n: nat, unit: nat): (r: nat)
    requires unit > 0
  {
    (n + unit - 1) / unit * unit
  }

  function HeaderSize(protect: bool): nat {
    if protect then 4096 else 64
  }

  function BlockSize(protect: bool, nodeSize: nat): (b: nat)
    ensures b >= nodeSize + NODE_OFFSET
  {
    if protect then
      AtLeast(nodeSize + NODE_OFFSET + 4096, 4096);
      RoundUp(nodeSize + NODE_OFFSET + 4096, 4096)
    else
      AtLeast(nodeSize + NODE_OFFSET, 8);
      RoundUp(nodeSize + NODE_OFFSET, 8)
  }

  lemma AtLeast(n: nat, unit: nat)
    requires unit > 0
    ensures RoundUp(n, unit) >= n
  {
    var q, r := (n + unit - 1) / unit, (n + unit - 1) % unit;
    assert n + unit - 1 == unit * q + r;
    assert RoundUp(n, unit) == unit * q;
  }

  /** `n` blocks of one size. */
  function Blocks(n: nat, size: nat): nat {
    if n == 0 then 0 else Blocks(n - 1, size) + size
  }

  lemma {:induction false} BlocksIs(n: nat, size: nat)
    ensures Blocks(n, size) == n * size
  {
    if n == 0 {
    } else {
      BlocksIs(n - 1, size);
      RingIndex.Distribute(size, n, 1);
    }
  }

  function AllocSize(protect: bool, maxNode: nat, nodeSize: nat): nat {
    HeaderSize(protect) + Blocks(maxNode, BlockSize(protect, nodeSize))
  }

  /* ---------- the operations ---------- */

  /** `Init` on fresh memory. */
  function Init<T>(protect: bool, maxNode: nat, nodeSize: nat, blank: T): Region<T> {
    Region(AllocSize(protect, maxNode, nodeSize), maxNode, HeaderSize(protect), 0, nodeSize,
           BlockSize(protect, nodeSize),
           INVALID_POINTER, seq(maxNode, _ => 0), seq(maxNode, _ => blank))
  }

  predicate CheckHeader<T>(protect: bool, maxNode: nat, nodeSize: nat, r: Region<T>) {
    && r.nodeSize == nodeSize && r.blockSize == BlockSize(protect, nodeSize) && r.maxNode == maxNode
    && r.maxSize == AllocSize(protect, maxNode, nodeSize)
    && HeaderSize(protect) + Blocks(r.allocNode, r.blockSize) == r.allocSize && r.allocSize <= r.maxSize
  }

  /** The offset of block `k`. */
  function Offset(protect: bool, blockSize: nat, k: nat): nat {
    HeaderSize(protect) + Blocks(k, blockSize)
  }

  predicate IsValidBlock<T>(protect: bool, r: Region<T>, off: int) {
    && off >= HeaderSize(protect) && off + r.blockSize <= r.allocSize
    && Aligned(protect, r.blockSize, off)
  }

  /** The number of the block at a valid offset. */
  function Number(protect: bool, blockSize: nat, off: int): int
    requires blockSize > 0
  {
    (off - HeaderSize(protect)) / blockSize
  }

  function BlockAt<T>(protect: bool, r: Region<T>, off: int): int
    requires r.blockSize > 0
  {
    Number(protect, r.blockSize, off)
  }

  predicate Aligned(protect: bool, blockSize: nat, off: int) {
    blockSize > 0 && off % blockSize == HeaderSize(protect) % blockSize
  }

  predicate IsUsedBlock<T>(protect: bool, r: Region<T>, off: int) {
    && IsValidBlock(protect, r, off)
    && 0 <= BlockAt(protect, r, off) < |r.next| && r.next[BlockAt(protect, r, off)] == 0
  }

  /** The block that `Alloc` hands out: the first free one, else a new one from the end. */
  function AllocBlock<T>(protect: bool, r: Region<T>): Option<nat> {
    if r.freeList == INVALID_POINTER then
      if r.allocSize + r.blockSize <= r.maxSize && r.blockSize > 0 then Some(r.allocSize) else None
    else if IsValidBlock(protect, r, r.freeList) then Some(r.freeList)
    else None
  }

  /** The region after `Alloc`, with the node of the block zeroed. */
  function Alloc<T>(protect: bool, r: Region<T>, blank: T): Region<T> {
    var b := AllocBlock(protect, r);
    if b == None then r
    else
      var k := BlockAt(protect, r, b.value);
      if k < 0 || k >= |r.next| || k >= |r.data| then r
      else
        var r1 := if r.freeList == INVALID_POINTER
          then r.(allocSize := r.allocSize + r.blockSize, allocNode := r.allocNode + 1)
          else r.(freeList := r.next[k]);
        r1.(next := r.next[k := 0], data := r.data[k := blank])
  }

  /** `Free` of any pointer to a node, and whether it is accepted. */
  predicate Freeable<T>(protect: bool, r: Region<T>, node: int) {
    IsUsedBlock(protect, r, node - NODE_OFFSET)
  }

  function Free<T>(protect: bool, r: Region<T>, node: int): Region<T> {
    var off := node - NODE_OFFSET;
    if Freeable(protect, r, node) then
      r.(next := r.next[BlockAt(protect, r, off) := r.freeList], freeList := off)
    else r
  }

  /* ---------- what every reachable region keeps ---------- */

  /** Where the free list goes from its element `i`. */
  function Link<T>(protect: bool, r: Region<T>, free: seq<nat>, i: nat): nat {
    if i < |free| then Offset(protect, r.blockSize, free[i]) else INVALID_POINTER
  }

  /** The header is in order, and the blocks below `allocSize` are either live, with a zero `next`, or on the
      free list `free`, each exactly once. */
  ghost predicate Inv<T>(protect: bool, r: Region<T>, free: seq<nat>) {
    && CheckHeader(protect, r.maxNode, r.nodeSize, r) && r.maxSize < INVALID_POINTER
    && |r.next| == r.maxNode && |r.data| == r.maxNode && r.allocNode <= r.maxNode
    && Chain(protect, r, free)
  }

  ghost predicate Chain<T>(protect: bool, r: Region<T>, free: seq<nat>) {
    && r.allocNode <= |r.next|
    && r.freeList == Link(protect, r, free, 0)
    && (forall i :: 0 <= i < |free| ==> free[i] < r.allocNode)
    && (forall i :: 0 < i <= |free| ==> r.next[free[i - 1]] == Link(protect, r, free, i))
    && Distinct(free)
    && (forall k :: 0 <= k < r.allocNode && k !in free ==> r.next[k] == 0)
  }

  /** The blocks in use. */
  function Live<T>(r: Region<T>): (s: set<nat>)
  {
    set k: nat | k < r.allocNode && k < |r.next| && r.next[k] == 0
  }

  lemma Positive(protect: bool, nodeSize: nat)
    ensures BlockSize(protect, nodeSize) > 0 && HeaderSize(protect) > 0
  {
  }

  lemma StepsFrom(h: nat, b: nat, n: nat, off: int)
    requires b > 0 && off >= h && off + b <= h + n * b && off % b == h % b
    ensures 0 <= (off - h) / b < n && off == h + (off - h) / b * b
  {
    var q, q', m := off / b, h / b, h % b;
    assert off == b * q + m && h == b * q' + m;
    StepsBetween(h, b, off, q, q', m);
    RingIndex.Unique(off - h, b, q - q', 0);
    InRange(b, q - q', n);
  }

  lemma StepsBetween(h: nat, b: nat, off: int, q: int, q': int, m: int)
    requires off == b * q + m && h == b * q' + m
    ensures off - h == b * (q - q') == (q - q') * b
  {
    RingIndex.Distribute(b, q, q');
  }

  lemma InRange(b: nat, k: int, n: nat)
    requires b > 0 && b * k >= 0 && b * k + b <= n * b
    ensures 0 <= k < n
  {
    RingIndex.AtLeastOnce(b, k);
    RingIndex.Distribute(b, n, k);
    RingIndex.AtLeastOnce(b, n - k);
    assert n * b == b * n;
  }

  /** The valid offsets are exactly those of the blocks below `allocSize`. */
  lemma ValidExactly<T>(protect: bool, r: Region<T>, off: int)
    requires CheckHeader(protect, r.maxNode, r.nodeSize, r)
    ensures IsValidBlock(protect, r, off)
       <==> exists k: nat :: k < r.allocNode && off == Offset(protect, r.blockSize, k)
    ensures IsValidBlock(protect, r, off) ==>
      0 <= BlockAt(protect, r, off) < r.allocNode && off == Offset(protect, r.blockSize, BlockAt(protect, r, off))
  {
    hide BlockSize;
    hide HeaderSize;
    hide AllocSize;
    hide Blocks;
    if IsValidBlock(protect, r, off) {
      BlocksIs(r.allocNode, r.blockSize);
      StepsFrom(HeaderSize(protect), r.blockSize, r.allocNode, off);
      BlocksIs(BlockAt(protect, r, off), r.blockSize);
      assert off == Offset(protect, r.blockSize, BlockAt(protect, r, off));
    }
    hide IsValidBlock;
    if k: nat :| k < r.allocNode && off == Offset(protect, r.blockSize, k) {
      OffsetValid(protect, r, k);
    }
  }

  lemma OffsetValid<T>(protect: bool, r: Region<T>, k: nat)
    requires CheckHeader(protect, r.maxNode, r.nodeSize, r) && k < r.allocNode
    ensures IsValidBlock(protect, r, Offset(protect, r.blockSize, k))
        && BlockAt(protect, r, Offset(protect, r.blockSize, k)) == k
  {
    Positive(protect, r.nodeSize);
    BlocksIs(k, r.blockSize);
    BlocksIs(r.allocNode, r.blockSize);
    hide Blocks;
    hide BlockSize;
    hide HeaderSize;
    hide AllocSize;
    var h, b := HeaderSize(protect), r.blockSize;
    var q', m := h / b, h % b;
    assert h == b * q' + m;
    RingIndex.Distribute(b, q', 0 - k);
    assert h + k * b == b * (q' + k) + m;
    RingIndex.Unique(h + k * b, b, q' + k, m);
    RingIndex.Unique(k * b, b, k, 0);
    RingIndex.Distribute(b, r.allocNode, k);
    RingIndex.AtLeastOnce(b, r.allocNode - k);
    assert r.allocNode * b == b * r.allocNode && k * b == b * k;
  }

  lemma OffsetFacts<T>(protect: bool, r: Region<T>, k: nat)
    requires CheckHeader(protect, r.maxNode, r.nodeSize, r) && r.maxSize < INVALID_POINTER && k < r.allocNode
    ensures 0 < Offset(protect, r.blockSize, k) < INVALID_POINTER && r.blockSize > 0
    ensures IsValidBlock(protect, r, Offset(protect, r.blockSize, k))
        && BlockAt(protect, r, Offset(protect, r.blockSize, k)) == k
  {
    OffsetValid(protect, r, k);
  }

  lemma InitInv<T>(protect: bool, maxNode: nat, nodeSize: nat, blank: T)
    requires AllocSize(protect, maxNode, nodeSize) < INVALID_POINTER
    ensures Inv(protect, Init(protect, maxNode, nodeSize, blank), [])
  {
    hide BlockSize;
  }

  /** There is room for one more block exactly while fewer than `maxNode` have been handed out. */
  lemma RoomExactly<T>(protect: bool, r: Region<T>)
    requires CheckHeader(protect, r.maxNode, r.nodeSize, r)
    ensures r.blockSize > 0 && (r.allocSize + r.blockSize <= r.maxSize <==> r.allocNode < r.maxNode)
    ensures BlockAt(protect, r, r.allocSize) == r.allocNode && r.allocSize == Offset(protect, r.blockSize, r.allocNode)
  {
    Positive(protect, r.nodeSize);
    BlocksIs(r.allocNode, r.blockSize);
    BlocksIs(r.maxNode, r.blockSize);
    hide Blocks;
    hide BlockSize;
    hide HeaderSize;
    Room(r.blockSize, r.allocNode, r.maxNode);
  }

  lemma Room(b: nat, n: nat, m: nat)
    requires b > 0
    ensures n * b + b <= m * b <==> n < m
    ensures n * b / b == n
  {
    RingIndex.Distribute(b, m, n);
    RingIndex.AtLeastOnce(b, m - n);
    RingIndex.Unique(n * b, b, n, 0);
    assert n * b == b * n && m * b == b * m;
  }

  /** The free list after `Alloc`. */
  function FreeAfterAlloc(free: seq<nat>): seq<nat> {
    if free == [] then [] else free[1..]
  }

  /** The block that `Alloc` takes. */
  function Taken<T>(r: Region<T>, free: seq<nat>): nat {
    if free == [] then r.allocNode else free[0]
  }

  predicate Exhausted<T>(r: Region<T>, free: seq<nat>) {
    free == [] && r.allocNode == r.maxNode
  }

  lemma FreeListHead<T>(protect: bool, r: Region<T>, free: seq<nat>)
    requires Inv(protect, r, free)
    ensures r.freeList == INVALID_POINTER <==> free == []
    ensures free != [] ==> free[0] < r.allocNode && r.freeList == Offset(protect, r.blockSize, free[0])
  {
    hide CheckHeader;
    hide Offset;
    if free != [] {
      OffsetFacts(protect, r, free[0]);
    }
  }

  /** `Alloc` hands out the head of the free list, else the next new block, unless all are in use. */
  lemma AllocTakes<T>(protect: bool, r: Region<T>, free: seq<nat>)
    requires Inv(protect, r, free)
    ensures !Exhausted(r, free) ==>
      AllocBlock(protect, r) == Some(Offset(protect, r.blockSize, Taken(r, free)))
      && r.blockSize > 0 && BlockAt(protect, r, Offset(protect, r.blockSize, Taken(r, free)))
           == Taken(r, free) < r.maxNode
    ensures Exhausted(r, free) ==> AllocBlock(protect, r) == None
  {
    FreeListHead(protect, r, free);
    RoomExactly(protect, r);
    if free != [] {
      OffsetFacts(protect, r, free[0]);
    }
    hide Chain;
    hide IsValidBlock;
    hide Offset;
    hide BlockAt;
    hide BlockSize;
  }

  lemma AllocIs<T>(protect: bool, r: Region<T>, free: seq<nat>, blank: T)
    requires Inv(protect, r, free)
    ensures var k, r' := Taken(r, free), Alloc(protect, r, blank);
      && |r.next| == |r.data| == r.maxNode && r.allocNode <= r.maxNode
      && if Exhausted(r, free) then r' == r
         else
           && k < r.maxNode
           && r' == if free == [] then r.(allocSize := r.allocSize + r.blockSize, allocNode := k + 1,
                                         next := r.next[k := 0], data := r.data[k := blank])
                    else r.(freeList := r.next[k], next := r.next[k := 0], data := r.data[k := blank])
  {
    AllocTakes(protect, r, free);
    FreeListHead(protect, r, free);
    hide Chain;
    hide IsValidBlock;
    hide Offset;
    hide BlockAt;
    hide CheckHeader;
  }

  lemma HeaderGrows<T>(protect: bool, r: Region<T>, r': Region<T>)
    requires CheckHeader(protect, r.maxNode, r.nodeSize, r) && r.allocSize + r.blockSize <= r.maxSize
    requires r'.maxSize == r.maxSize && r'.maxNode == r.maxNode && r'.nodeSize == r.nodeSize
        && r'.blockSize == r.blockSize
    requires r'.allocSize == r.allocSize + r.blockSize && r'.allocNode == r.allocNode + 1
    ensures CheckHeader(protect, r'.maxNode, r'.nodeSize, r')
  {
    hide HeaderSize;
    hide BlockSize;
    hide AllocSize;
  }

  lemma InvParts<T>(protect: bool, r: Region<T>, free: seq<nat>)
    requires Inv(protect, r, free)
    ensures CheckHeader(protect, r.maxNode, r.nodeSize, r) && r.maxSize < INVALID_POINTER
    ensures |r.next| == r.maxNode && |r.data| == r.maxNode && r.allocNode <= r.maxNode
    ensures Chain(protect, r, free)
  {
  }

  lemma InvWhole<T>(protect: bool, r: Region<T>, free: seq<nat>)
    requires CheckHeader(protect, r.maxNode, r.nodeSize, r) && r.maxSize < INVALID_POINTER
    requires |r.next| == r.maxNode && |r.data| == r.maxNode && r.allocNode <= r.maxNode
    requires Chain(protect, r, free)
    ensures Inv(protect, r, free)
  {
  }

  lemma AllocInv<T>(protect: bool, r: Region<T>, free: seq<nat>, blank: T)
    requires Inv(protect, r, free)
    ensures Inv(protect, Alloc(protect, r, blank), FreeAfterAlloc(free))
  {
    hide *;
    var r' := Alloc(protect, r, blank);
    InvParts(protect, r, free);
    AllocIs(protect, r, free, blank);
    AllocChain(protect, r, free, blank);
    RoomExactly(protect, r);
    ExhaustedIs(r, free);
    if Exhausted(r, free) {
    } else if free == [] {
      HeaderGrows(protect, r, r');
    } else {
      SameHeader(protect, r, r');
    }
    InvWhole(protect, r', FreeAfterAlloc(free));
  }

  lemma ExhaustedIs<T>(r: Region<T>, free: seq<nat>)
    ensures Exhausted(r, free) <==> free == [] && r.allocNode == r.maxNode
    ensures Taken(r, free) == if free == [] then r.allocNode else free[0]
    ensures FreeAfterAlloc(free) == if free == [] then [] else free[1..]
  {
  }

  lemma AllocChain<T>(protect: bool, r: Region<T>, free: seq<nat>, blank: T)
    requires Inv(protect, r, free)
    ensures Chain(protect, Alloc(protect, r, blank), FreeAfterAlloc(free))
  {
    hide *;
    InvParts(protect, r, free);
    AllocIs(protect, r, free, blank);
    FreeListHead(protect, r, free);
    ExhaustedIs(r, free);
    if Exhausted(r, free) {
    } else if free == [] {
      NewLast(protect, r, Alloc(protect, r, blank));
    } else {
      HeadTaken(protect, r, Alloc(protect, r, blank), free);
    }
  }

  lemma NewLast<T>(protect: bool, r: Region<T>, r': Region<T>)
    requires Chain(protect, r, []) && r.allocNode < |r.next| && r'.allocNode == r.allocNode + 1
    requires r'.freeList == r.freeList && r'.next == r.next[r.allocNode := 0] && r'.blockSize == r.blockSize
    ensures Chain(protect, r', [])
  {
    hide Offset;
  }

  lemma HeadTaken<T>(protect: bool, r: Region<T>, r': Region<T>, free: seq<nat>)
    requires free != [] && Chain(protect, r, free) && free[0] < |r.next| && r'.allocNode == r.allocNode
    requires r'.freeList == r.next[free[0]] && r'.next == r.next[free[0] := 0] && r'.blockSize == r.blockSize
    ensures Chain(protect, r', free[1..])
  {
    hide Offset;
    var rest := free[1..];
    forall i | 0 <= i < |rest|
      ensures rest[i] < r'.allocNode && r'.next[rest[i]] == Link(protect, r', rest, i + 1)
    {
      assert r.next[free[i + 1]] == Link(protect, r, free, i + 2);
    }
    assert r.next[free[0]] == Link(protect, r, free, 1);
  }

  /* ---------- freeing ---------- */

  /** The pointer to the node of block `k`. */
  function NodeOf<T>(protect: bool, r: Region<T>, k: nat): nat {
    Offset(protect, r.blockSize, k) + NODE_OFFSET
  }

  /** `Free` accepts exactly the nodes of live blocks: no other pointer, and none twice. */
  lemma FreeableExactly<T>(protect: bool, r: Region<T>, free: seq<nat>, node: int)
    requires Inv(protect, r, free)
    ensures Freeable(protect, r, node) <==> exists k :: k in Live(r) && node == NodeOf(protect, r, k)
    ensures Freeable(protect, r, node) ==> r.blockSize > 0
    ensures Freeable(protect, r, node) ==>
      var k := BlockAt(protect, r, node - NODE_OFFSET); k in Live(r) && node == NodeOf(protect, r, k)
  {
    hide *;
    InvParts(protect, r, free);
    var off := node - NODE_OFFSET;
    FreeableIs(protect, r, node);
    ValidExactly(protect, r, off);
    if Freeable(protect, r, node) {
      ValidNonempty(protect, r, off);
      NodeIs(protect, r, BlockAt(protect, r, off));
      LiveIs(r, BlockAt(protect, r, off));
    } else if k :| k in Live(r) && node == NodeOf(protect, r, k) {
      LiveIs(r, k);
      NodeIs(protect, r, k);
      OffsetFacts(protect, r, k);
    }
  }

  lemma FreeableIs<T>(protect: bool, r: Region<T>, node: int)
    ensures Freeable(protect, r, node) <==>
      var off := node - NODE_OFFSET;
      && IsValidBlock(protect, r, off) && r.blockSize > 0
      && 0 <= BlockAt(protect, r, off) < |r.next| && r.next[BlockAt(protect, r, off)] == 0
  {
    hide BlockAt;
  }

  lemma NodeIs<T>(protect: bool, r: Region<T>, k: nat)
    ensures NodeOf(protect, r, k) == Offset(protect, r.blockSize, k) + NODE_OFFSET
  {
  }

  lemma LiveIs<T>(r: Region<T>, k: nat)
    ensures k in Live(r) <==> k < r.allocNode && k < |r.next| && r.next[k] == 0
  {
  }

  lemma ValidNonempty<T>(protect: bool, r: Region<T>, off: int)
    requires IsValidBlock(protect, r, off)
    ensures r.blockSize > 0
  {
  }

  lemma FreeInv<T>(protect: bool, r: Region<T>, free: seq<nat>, k: nat)
    requires Inv(protect, r, free) && k in Live(r)
    ensures Freeable(protect, r, NodeOf(protect, r, k))
    ensures Free(protect, r, NodeOf(protect, r, k))
           == r.(next := r.next[k := r.freeList], freeList := Offset(protect, r.blockSize, k))
    ensures Inv(protect, Free(protect, r, NodeOf(protect, r, k)), [k] + free)
  {
    hide *;
    InvParts(protect, r, free);
    LiveIs(r, k);
    OffsetFacts(protect, r, k);
    var node := NodeOf(protect, r, k);
    NodeIs(protect, r, k);
    FreeableIs(protect, r, node);
    FreeIs(protect, r, node);
    NotFree(protect, r, free, k);
    FreeChain(protect, r, free, k);
    SameHeader(protect, r, Free(protect, r, node));
    InvWhole(protect, Free(protect, r, node), [k] + free);
  }

  lemma SameHeader<T>(protect: bool, r: Region<T>, r': Region<T>)
    requires CheckHeader(protect, r.maxNode, r.nodeSize, r)
    requires r'.maxSize == r.maxSize && r'.maxNode == r.maxNode && r'.allocSize == r.allocSize
    requires r'.allocNode == r.allocNode && r'.nodeSize == r.nodeSize && r'.blockSize == r.blockSize
    ensures CheckHeader(protect, r'.maxNode, r'.nodeSize, r')
  {
  }

  lemma NotFree<T>(protect: bool, r: Region<T>, free: seq<nat>, k: nat)
    requires Inv(protect, r, free) && k in Live(r)
    ensures k !in free
  {
    hide Offset;
    if k in free {
      var i :| 0 <= i < |free| && free[i] == k;
      LinkNotZero(protect, r, free, i + 1);
    }
  }

  lemma LinkNotZero<T>(protect: bool, r: Region<T>, free: seq<nat>, i: nat)
    requires Inv(protect, r, free)
    ensures Link(protect, r, free, i) != 0
  {
    hide CheckHeader;
    if i < |free| {
      OffsetFacts(protect, r, free[i]);
    }
  }

  lemma FreeChain<T>(protect: bool, r: Region<T>, free: seq<nat>, k: nat)
    requires Chain(protect, r, free) && k !in free && k < r.allocNode
    ensures Chain(protect, r.(next := r.next[k := r.freeList], freeList := Offset(protect, r.blockSize, k)), [k] + free)
  {
    hide Offset;
    var r' := r.(next := r.next[k := r.freeList], freeList := Offset(protect, r.blockSize, k));
    var free' := [k] + free;
    forall i | 0 <= i < |free'|
      ensures free'[i] < r'.allocNode && r'.next[free'[i]] == Link(protect, r', free', i + 1)
    {
      if i > 0 {
        assert free'[i] == free[i - 1] && r.next[free[i - 1]] == Link(protect, r, free, i);
      }
    }
  }

  /* ---------- counting ---------- */

  function SetOf(free: seq<nat>): set<nat> {
    set k | k in free
  }

  lemma {:induction false} DistinctSize(free: seq<nat>)
    requires Distinct(free)
    ensures |SetOf(free)| == |free|
  {
    if free == [] {
    } else {
      DistinctSize(free[1..]);
      assert SetOf(free) == {free[0]} + SetOf(free[1..]);
    }
  }

  function Below(n: nat): (s: set<nat>)
    ensures forall k: nat :: k in s <==> k < n
  {
    if n == 0 then {} else Below(n - 1) + {n - 1}
  }

  lemma {:induction false} BelowSize(n: nat)
    ensures |Below(n)| == n
  {
    if n == 0 {
    } else {
      BelowSize(n - 1);
    }
  }

  /** Every block handed out is either live or free, and none is both. */
  lemma LiveOrFree<T>(protect: bool, r: Region<T>, free: seq<nat>)
    requires Inv(protect, r, free)
    ensures Live(r) !! SetOf(free) && Live(r) + SetOf(free) == Below(r.allocNode)
    ensures |Live(r)| + |free| == r.allocNode
  {
    InvParts(protect, r, free);
    forall k | k in Live(r)
      ensures k !in free
    {
      NotFree(protect, r, free, k);
    }
    hide Offset;
    DistinctSize(free);
    BelowSize(r.allocNode);
  }

  /** `Alloc` never hands out a live block; it fails exactly when `maxNode` blocks are live. */
  lemma AllocExactly<T>(protect: bool, r: Region<T>, free: seq<nat>, blank: T)
    requires Inv(protect, r, free)
    ensures AllocBlock(protect, r) == None <==> |Live(r)| == r.maxNode
    ensures |Live(r)| == r.maxNode ==> Alloc(protect, r, blank) == r
    ensures var k := Taken(r, free);
      |Live(r)| < r.maxNode ==>
        && AllocBlock(protect, r) == Some(Offset(protect, r.blockSize, k)) && k !in Live(r)
        && Live(Alloc(protect, r, blank)) == Live(r) + {k}
        && (forall i :: 0 <= i < r.maxNode && i != k ==>
              |Alloc(protect, r, blank).data| == |r.data| == r.maxNode && Alloc(protect, r, blank).data[i] == r.data[i])
  {
    hide *;
    InvParts(protect, r, free);
    LiveOrFree(protect, r, free);
    AllocTakes(protect, r, free);
    AllocIs(protect, r, free, blank);
    ExhaustedIs(r, free);
    var k := Taken(r, free);
    assert Exhausted(r, free) <==> |Live(r)| == r.maxNode;
    LiveIs(r, k);
    if !Exhausted(r, free) {
      if free != [] {
        InSet(free, 0);
      }
      LiveGrows(r, Alloc(protect, r, blank), k);
    }
  }

  lemma InSet(free: seq<nat>, i: nat)
    requires i < |free|
    ensures free[i] in SetOf(free)
  {
  }

  lemma LiveGrows<T>(r: Region<T>, r': Region<T>, k: nat)
    requires k < |r.next| && r'.next == r.next[k := 0] && k !in Live(r)
    requires (r'.allocNode == r.allocNode && k < r.allocNode) || (k == r.allocNode && r'.allocNode == k + 1)
    ensures Live(r') == Live(r) + {k}
  {
  }

  /** `Free` of a live block takes exactly that block out of use. */
  lemma FreeShrinks<T>(protect: bool, r: Region<T>, free: seq<nat>, k: nat)
    requires Inv(protect, r, free) && k in Live(r)
    ensures Live(Free(protect, r, NodeOf(protect, r, k))) == Live(r) - {k}
    ensures Free(protect, r, NodeOf(protect, r, k)).data == r.data
  {
    hide Offset;
    LinkNotZero(protect, r, free, 0);
    FreeInv(protect, r, free, k);
    InvParts(protect, r, free);
    hide Free;
    hide Freeable;
    hide CheckHeader;
  }

  /* ---------- the iterator ---------- */

  /** `GetNextUsedBlock`: the first live block from block `k` on. */
  function NextUsed<T>(r: Region<T>, k: nat): (n: nat)
    ensures k <= n
    ensures forall i :: k <= i < n ==> i !in Live(r)
    ensures n < r.allocNode && n < |r.next| ==> n in Live(r)
    decreases r.allocNode - k
  {
    if k < r.allocNode && k < |r.next| && r.next[k] != 0 then NextUsed(r, k + 1) else k
  }

  /** The blocks that the iterator visits from block `k` on. */
  function Visited<T>(r: Region<T>, k: nat): seq<nat>
    decreases r.allocNode - k
  {
    var n := NextUsed(r, k);
    if n < r.allocNode then [n] + Visited(r, n + 1) else []
  }

  /** The iterator visits each live block once, in the order of their offsets, and nothing else. */
  lemma {:induction false} VisitsLive<T>(r: Region<T>, k: nat)
    requires r.allocNode <= |r.next|
    ensures forall i :: i in Visited(r, k) <==> i in Live(r) && k <= i
    ensures forall i, j :: 0 <= i < j < |Visited(r, k)| ==> Visited(r, k)[i] < Visited(r, k)[j]
    decreases r.allocNode - k
  {
    var n := NextUsed(r, k);
    if n < r.allocNode {
      VisitsLive(r, n + 1);
      var rest := Visited(r, n + 1);
      assert forall i :: i in Visited(r, k) <==> i == n || i in rest;
      forall j | 0 < j < |Visited(r, k)|
        ensures n < Visited(r, k)[j]
      {
        assert Visited(r, k)[j] == rest[j - 1] && rest[j - 1] in rest;
      }
    }
  }

  /* ---------- whole runs ---------- */

  datatype Event = Alloced | Freed(node: int)

  function Step<T>(protect: bool, r: Region<T>, v: Event, blank: T): Region<T> {
    match v
    case Alloced => Alloc(protect, r, blank)
    case Freed(node) => Free(protect, r, node)
  }

  function NextFree<T>(protect: bool, r: Region<T>, free: seq<nat>, v: Event): seq<nat> {
    match v
    case Alloced => FreeAfterAlloc(free)
    case Freed(node) =>
      if Freeable(protect, r, node) && r.blockSize > 0 && BlockAt(protect, r, node - NODE_OFFSET) >= 0
      then [BlockAt(protect, r, node - NODE_OFFSET)] + free else free
  }

  lemma StepInv<T>(protect: bool, r: Region<T>, free: seq<nat>, v: Event, blank: T)
    requires Inv(protect, r, free)
    ensures Inv(protect, Step(protect, r, v, blank), NextFree(protect, r, free, v))
  {
    hide Inv;
    hide Freeable;
    match v
    case Alloced => AllocInv(protect, r, free, blank);
    case Freed(node) =>
      FreeableExactly(protect, r, free, node);
      if Freeable(protect, r, node) {
        var k := BlockAt(protect, r, node - NODE_OFFSET);
        FreeInv(protect, r, free, k);
      }
  }

  /** The region after a run of `Alloc`s and of `Free`s of any pointers whatever, and its free list. */
  function Run<T>(protect: bool, maxNode: nat, nodeSize: nat, blank: T, events: seq<Event>): Region<T> {
    if events == [] then Init(protect, maxNode, nodeSize, blank)
    else Step(protect, Run(protect, maxNode, nodeSize, blank, events[..|events| - 1]), events[|events| - 1], blank)
  }

  function RunFree<T>(protect: bool, maxNode: nat, nodeSize: nat, blank: T, events: seq<Event>): seq<nat> {
    if events == [] then []
    else
      var before := events[..|events| - 1];
      NextFree(protect, Run(protect, maxNode, nodeSize, blank, before),
               RunFree(protect, maxNode, nodeSize, blank, before), events[|events| - 1])
  }

  lemma {:induction false} RunInv<T>(protect: bool, maxNode: nat, nodeSize: nat, blank: T, events: seq<Event>)
    requires AllocSize(protect, maxNode, nodeSize) < INVALID_POINTER
    ensures var r, free := Run(protect, maxNode, nodeSize, blank, events),
        RunFree(protect, maxNode, nodeSize, blank, events);
      Inv(protect, r, free) && r.maxNode == maxNode && r.nodeSize == nodeSize
  {
    hide Inv;
    hide NextFree;
    if events == [] {
      InitInv(protect, maxNode, nodeSize, blank);
    } else {
      var before, v := events[..|events| - 1], events[|events| - 1];
      RunInv(protect, maxNode, nodeSize, blank, before);
      StepInv(protect, Run(protect, maxNode, nodeSize, blank, before),
              RunFree(protect, maxNode, nodeSize, blank, before), v, blank);
      SameSizes(protect, Run(protect, maxNode, nodeSize, blank, before), v, blank);
    }
  }

  lemma SameSizes<T>(protect: bool, r: Region<T>, v: Event, blank: T)
    ensures Step(protect, r, v, blank).maxNode == r.maxNode && Step(protect, r, v, blank).nodeSize == r.nodeSize
  {
    hide IsValidBlock;
    hide BlockAt;
    hide AllocBlock;
    hide Freeable;
  }

  /** After any run, the header passes its check, each block handed out is live or on the free list, exactly
      once, and an attaching process is let in exactly when it expects the same sizes. */
  lemma PoolIsSound<T>(protect: bool, maxNode: nat, nodeSize: nat, blank: T, events: seq<Event>, maxNode': nat,
      nodeSize': nat)
    requires AllocSize(protect, maxNode, nodeSize) < INVALID_POINTER
    ensures var r, free := Run(protect, maxNode, nodeSize, blank, events),
        RunFree(protect, maxNode, nodeSize, blank, events);
      && (CheckHeader(protect, maxNode', nodeSize', r) <==> maxNode' == maxNode && nodeSize' == nodeSize)
      && Live(r) !! SetOf(free) && Live(r) + SetOf(free) == Below(r.allocNode)
           && |Live(r)| + |free| == r.allocNode <= maxNode
  {
    hide *;
    var r, free := Run(protect, maxNode, nodeSize, blank, events), RunFree(protect, maxNode, nodeSize, blank, events);
    RunInv(protect, maxNode, nodeSize, blank, events);
    InvParts(protect, r, free);
    LiveOrFree(protect, r, free);
    HeaderSizes(protect, maxNode', nodeSize', r);
  }

  lemma HeaderSizes<T>(protect: bool, maxNode: nat, nodeSize: nat, r: Region<T>)
    ensures CheckHeader(protect, maxNode, nodeSize, r) ==> maxNode == r.maxNode && nodeSize == r.nodeSize
  {
  }

  /* ---------- in figures ---------- */

  /** The sizes: a header of 64 bytes, or of a page if blocks are fenced; a node behind a word of 8 bytes, the block
      rounded up to words, or to pages with one more page for the fence. */
  lemma SizesInFigures(protect: bool, maxNode: nat, nodeSize: nat)
    ensures HeaderSize(protect) == (if protect then 4096 else 64) && NODE_OFFSET == 8
    ensures INVALID_POINTER == 0xFFFF_FFFF_FFFF_FFFF
    ensures var b := BlockSize(protect, nodeSize);
      if protect then b % 4096 == 0 && nodeSize + 8 + 4096 <= b < nodeSize + 8 + 8192
      else b % 8 == 0 && nodeSize + 8 <= b < nodeSize + 8 + 8
    ensures AllocSize(protect, maxNode, nodeSize)
         == (if protect then 4096 else 64) + maxNode * BlockSize(protect, nodeSize)
  {
    BlocksIs(maxNode, BlockSize(protect, nodeSize));
    RoundUpIs(nodeSize + 8 + 4096, 4096);
    RoundUpIs(nodeSize + 8, 8);
    hide RoundUp;
    hide Blocks;
  }

  lemma RoundUpIs(n: nat, unit: nat)
    requires unit > 0
    ensures RoundUp(n, unit) % unit == 0 && n <= RoundUp(n, unit) < n + unit
  {
    var q, rest := (n + unit - 1) / unit, (n + unit - 1) % unit;
    assert n + unit - 1 == unit * q + rest;
    assert RoundUp(n, unit) == unit * q;
    RingIndex.Unique(unit * q, unit, q, 0);
  }

  /** The pointer to the node of block `k`. */
  lemma NodeInFigures<T>(protect: bool, r: Region<T>, k: nat)
    ensures NodeOf(protect, r, k) == (if protect then 4096 else 64) + k * r.blockSize + 8
  {
    BlocksIs(k, r.blockSize);
  }

  /** The header of a new pool, and its blocks. */
  lemma InitExactly<T>(protect: bool, maxNode: nat, nodeSize: nat, blank: T)
    ensures var r := Init(protect, maxNode, nodeSize, blank);
      && r.allocSize == (if protect then 4096 else 64) && r.allocNode == 0 && r.maxNode == maxNode
      && r.nodeSize == nodeSize && r.blockSize == BlockSize(protect, nodeSize) && r.freeList == 0xFFFF_FFFF_FFFF_FFFF
      && r.maxSize == r.allocSize + maxNode * r.blockSize && |r.next| == |r.data| == maxNode
      && forall i :: 0 <= i < maxNode ==> r.next[i] == 0 && r.data[i] == blank
  {
    SizesInFigures(protect, maxNode, nodeSize);
    hide BlockSize;
    hide AllocSize;
  }

  /** What `Alloc` hands out and writes: the head of the free list if there is one; else the next new block, if not
      all have been handed out; the block's word and node are zeroed, and no other. */
  lemma AllocWrites<T>(protect: bool, r: Region<T>, free: seq<nat>, blank: T)
    requires Inv(protect, r, free)
    ensures r.maxNode == |r.next| == |r.data|
    ensures r.freeList == 0xFFFF_FFFF_FFFF_FFFF && r.allocNode == r.maxNode ==>
      AllocBlock(protect, r) == None && Alloc(protect, r, blank) == r
    ensures var k := r.allocNode;
      r.freeList == 0xFFFF_FFFF_FFFF_FFFF && k != r.maxNode ==>
        && AllocBlock(protect, r) == Some(r.allocSize) && k < r.maxNode
        && Alloc(protect, r, blank) == r.(allocSize := r.allocSize + r.blockSize, allocNode := k + 1,
             next := r.next[k := 0], data := r.data[k := blank])
    ensures r.freeList != 0xFFFF_FFFF_FFFF_FFFF ==>
      && free != [] && free[0] < r.maxNode && AllocBlock(protect, r) == Some(r.freeList)
      && r.freeList == (if protect then 4096 else 64) + free[0] * r.blockSize
      && Alloc(protect, r, blank)
         == r.(freeList := r.next[free[0]], next := r.next[free[0] := 0], data := r.data[free[0] := blank])
  {
    InvParts(protect, r, free);
    AllocIs(protect, r, free, blank);
    AllocTakes(protect, r, free);
    FreeListHead(protect, r, free);
    RoomExactly(protect, r);
    NodeInFigures(protect, r, if free == [] then 0 else free[0]);
    hide Inv;
    hide Chain;
    hide CheckHeader;
    hide Alloc;
    hide AllocBlock;
    hide BlockAt;
    hide Offset;
  }

  /** What `Free` accepts and writes: the node of a block handed out whose word is zero; the block becomes the head of
      the free list, and no node changes. */
  lemma FreeWrites<T>(protect: bool, r: Region<T>, free: seq<nat>, k: nat)
    requires Inv(protect, r, free) && k < r.allocNode
    ensures r.allocNode <= |r.next|
    ensures var node := (if protect then 4096 else 64) + k * r.blockSize + 8;
      && (Freeable(protect, r, node) <==> r.next[k] == 0)
      && Free(protect, r, node)
         == if r.next[k] == 0 then r.(next := r.next[k := r.freeList], freeList := node - 8) else r
  {
    InvParts(protect, r, free);
    NodeInFigures(protect, r, k);
    NodeIs(protect, r, k);
    OffsetFacts(protect, r, k);
    LiveIs(r, k);
    if k in Live(r) {
      FreeInv(protect, r, free, k);
    } else {
      FreeableIs(protect, r, NodeOf(protect, r, k));
      FreeIs(protect, r, NodeOf(protect, r, k));
    }
    hide *;
  }

  /** The block freed last is handed out first. */
  lemma LastFreedFirst<T>(protect: bool, r: Region<T>, free: seq<nat>, node: nat)
    requires Inv(protect, r, free) && Freeable(protect, r, node)
    ensures node >= 8 && AllocBlock(protect, Free(protect, r, node)) == Some(node - 8)
  {
    FreeableExactly(protect, r, free, node);
    var k := BlockAt(protect, r, node - NODE_OFFSET);
    FreeInv(protect, r, free, k);
    AllocTakes(protect, Free(protect, r, node), [k] + free);
    NodeIs(protect, r, k);
    hide Inv;
    hide Free;
    hide Freeable;
    hide AllocBlock;
    hide BlockAt;
  }

  /* ---------- the pool, in place ---------- */

  class ShammemPool<T> {
    const protect: bool
    const blank: T
    const next: array<nat>
    const data: array<T>
    var maxSize: nat
    var maxNode: nat
    var allocSize: nat
    var allocNode: nat
    var nodeSize: nat
    var blockSize: nat
    var freeList: nat

    ghost function Contents(): Region<T>
      reads this, next, data
    {
      Region(maxSize, maxNode, allocSize, allocNode, nodeSize, blockSize, freeList, next[..], data[..])
    }

    /** The words and the nodes of the blocks are different memory. */
    ghost predicate Apart() {
      (next as object) != (data as object)
    }

    constructor (protect: bool, maxNode: nat, nodeSize: nat, blank: T)
      ensures this.protect == protect && this.blank == blank && fresh(next) && fresh(data)
      ensures Contents() == Init(protect, maxNode, nodeSize, blank) && Apart()
      ensures this.maxNode == maxNode == next.Length == data.Length && this.nodeSize == nodeSize && allocNode == 0
      ensures allocSize == (if protect then 4096 else 64) && freeList == 0xFFFF_FFFF_FFFF_FFFF
      ensures forall i :: 0 <= i < maxNode ==> next[i] == 0 && data[i] == blank
    {
      this.protect, this.blank := protect, blank;
      this.maxSize := AllocSize(protect, maxNode, nodeSize);
      this.maxNode := maxNode;
      allocSize := HeaderSize(protect);
      allocNode := 0;
      this.nodeSize := nodeSize;
      blockSize := BlockSize(protect, nodeSize);
      freeList := INVALID_POINTER;
      next := new nat[maxNode](_ => 0);
      data := new T[maxNode](_ => blank);
      new;
      assert next[..] == Init(protect, maxNode, nodeSize, blank).next;
      assert data[..] == Init(protect, maxNode, nodeSize, blank).data;
    }

    method IsValid(block: int) returns (valid: bool)
      ensures valid <==> IsValidBlock(protect, Contents(), block)
    {
      hide Aligned;
      if block < HeaderSize(protect) {
        return false;
      }
      if block + blockSize > allocSize {
        return false;
      }
      return Aligned(protect, blockSize, block);
    }

    /** The part of `Alloc` that changes the header. */
    method TakeBlock(ghost free: seq<nat>) returns (block: Option<nat>)
      requires Inv(protect, Contents(), free)
      modifies this
      ensures block == AllocBlock(protect, old(Contents()))
      ensures block == None <==> Exhausted(old(Contents()), free)
      ensures block == None ==> Contents() == old(Contents())
      ensures block != None ==>
        var r := old(Contents());
        && Taken(r, free) < |r.next|
        && Contents() == if free == [] then r.(allocSize := r.allocSize + r.blockSize, allocNode := r.allocNode + 1)
                         else r.(freeList := r.next[Taken(r, free)])
    {
      hide Number;
      hide IsValidBlock;
      hide CheckHeader;
      hide Chain;
      hide Inv;
      hide Offset;
      hide AllocBlock;
      hide BlockAt;
      hide BlockSize;
      hide HeaderSize;
      hide AllocSize;
      ghost var r := Contents();
      InvParts(protect, r, free);
      AllocTakes(protect, r, free);
      FreeListHead(protect, r, free);
      RoomExactly(protect, r);
      if freeList == INVALID_POINTER {
        if allocSize + blockSize > maxSize {
          return None;
        }
        block := Some(allocSize);
        allocSize := allocSize + blockSize;
        allocNode := allocNode + 1;
      } else {
        block := Some(freeList);
        HeadBlock(protect, r, free);
        freeList := next[Number(protect, blockSize, freeList)];
      }
    }

    /** The result is the pointer to the node, or none. */
    method AllocNode(ghost free: seq<nat>) returns (node: Option<nat>)
      requires Apart() && Inv(protect, Contents(), free)
      modifies this, next, data
      ensures Contents() == Alloc(protect, old(Contents()), blank)
      ensures node == if AllocBlock(protect, old(Contents())) == None then None
                      else Some(AllocBlock(protect, old(Contents())).value + NODE_OFFSET)
      ensures old(freeList) == 0xFFFF_FFFF_FFFF_FFFF && old(allocNode) == maxNode ==>
        node == None && Contents() == old(Contents())
      ensures old(freeList) == 0xFFFF_FFFF_FFFF_FFFF && old(allocNode) != maxNode ==>
        && node == Some(old(allocSize) + 8) && allocSize == old(allocSize) + blockSize && freeList == old(freeList)
        && allocNode == old(allocNode) + 1 <= next.Length && data.Length == next.Length
        && next[..] == old(next[..])[old(allocNode) := 0] && data[..] == old(data[..])[old(allocNode) := blank]
      ensures old(freeList) != 0xFFFF_FFFF_FFFF_FFFF ==>
        && node == Some(old(freeList) + 8) && allocSize == old(allocSize) && allocNode == old(allocNode)
        && free != [] && free[0] < next.Length == data.Length && freeList == old(next[..])[free[0]]
        && next[..] == old(next[..])[free[0] := 0] && data[..] == old(data[..])[free[0] := blank]
    {
      hide Number;
      hide IsValidBlock;
      hide CheckHeader;
      hide Chain;
      hide Inv;
      hide Offset;
      hide Alloc;
      hide AllocBlock;
      hide Exhausted;
      hide BlockAt;
      hide BlockSize;
      hide HeaderSize;
      hide AllocSize;
      ghost var r := Contents();
      InvParts(protect, r, free);
      AllocIs(protect, r, free, blank);
      AllocTakes(protect, r, free);
      AllocWrites(protect, r, free, blank);
      var block := TakeBlock(free);
      if block == None {
        return None;
      }
      BlockIs(protect, r, block.value);
      var k := Number(protect, blockSize, block.value);
      data[k] := blank;
      next[k] := 0;
      assert next[..] == r.next[k := 0] && data[..] == r.data[k := blank];
      node := Some(block.value + NODE_OFFSET);
    }

    method FreeNode(node: int, ghost free: seq<nat>) returns (ok: bool)
      requires Apart() && Inv(protect, Contents(), free)
      modifies this, next
      ensures Contents() == Free(protect, old(Contents()), node)
      ensures ok == Freeable(protect, old(Contents()), node)
      ensures ok ==> freeList == node - 8 && data[..] == old(data[..])
      ensures ok ==>
        exists k: nat ::
          k < allocNode <= next.Length && next[..] == old(next[..])[k := old(freeList)]
          && old(next[..])[k] == 0 && node == NodeOf(protect, Contents(), k)
      ensures !ok ==> Contents() == old(Contents())
      ensures maxSize == old(maxSize) && maxNode == old(maxNode) && allocSize == old(allocSize)
        && allocNode == old(allocNode) && nodeSize == old(nodeSize) && blockSize == old(blockSize)
    {
      hide Number;
      hide IsValidBlock;
      hide CheckHeader;
      hide Chain;
      hide Inv;
      hide Offset;
      hide Free;
      hide Freeable;
      ghost var r := Contents();
      InvParts(protect, r, free);
      FreeableExactly(protect, r, free, node);
      FreeableIs(protect, r, node);
      ValidExactly(protect, r, node - NODE_OFFSET);
      FreeIs(protect, r, node);
      var block := node - NODE_OFFSET;
      ok := IsValid(block);
      if ok {
        ValidNonempty(protect, r, block);
        BlockIs(protect, r, block);
        var k := Number(protect, blockSize, block);
        ok := next[k] == 0;
        if ok {
          next[k] := freeList;
          assert next[..] == r.next[k := r.freeList];
          freeList := block;
        }
      }
    }

    /** The next live block after `block`, or the first one. */
    method GetNextUsedBlock(block: Option<nat>, ghost free: seq<nat>, ghost k: nat) returns (used: Option<nat>)
      requires Inv(protect, Contents(), free)
      requires if block == None then k == 0
               else 0 < k <= allocNode && block.value == Offset(protect, blockSize, k - 1)
      ensures var n := NextUsed(Contents(), k);
        used == if n < allocNode then Some(Offset(protect, blockSize, n)) else None
    {
      hide Number;
      hide IsValidBlock;
      hide CheckHeader;
      hide Chain;
      hide Inv;
      hide Offset;
      hide NextUsed;
      ghost var r := Contents();
      InvParts(protect, r, free);
      ghost var j := k;
      FirstOffset(protect, r);
      var at := HeaderSize(protect);
      if block != None {
        StepOffset(protect, blockSize, k - 1);
        at := block.value + blockSize;
      }
      while true
        invariant j <= allocNode && at == Offset(protect, blockSize, j)
        invariant NextUsed(r, j) == NextUsed(r, k)
        decreases allocNode - j
      {
        NextUsedStep(r, j);
        ValidAt(protect, r, j);
        var valid := IsValid(at);
        if !valid {
          return None;
        }
        BlockIs(protect, r, at);
        if next[Number(protect, blockSize, at)] == 0 {
          return Some(at);
        }
        StepOffset(protect, blockSize, j);
        at := at + blockSize;
        j := j + 1;
      }
    }
  }

  lemma HeadBlock<T>(protect: bool, r: Region<T>, free: seq<nat>)
    requires Inv(protect, r, free) && free != []
    ensures r.blockSize > 0 && r.freeList == Offset(protect, r.blockSize, free[0])
    ensures Number(protect, r.blockSize, r.freeList) == free[0] < |r.next|
  {
    FreeListHead(protect, r, free);
    OffsetFacts(protect, r, free[0]);
  }

  lemma BlockIs<T>(protect: bool, r: Region<T>, off: int)
    requires r.blockSize > 0
    ensures BlockAt(protect, r, off) == Number(protect, r.blockSize, off)
  {
    hide Number;
  }

  lemma FreeIs<T>(protect: bool, r: Region<T>, node: int)
    ensures Free(protect, r, node) ==
      if Freeable(protect, r, node)
      then r.(next := r.next[BlockAt(protect, r, node - NODE_OFFSET) := r.freeList], freeList := node - NODE_OFFSET)
      else r
  {
  }

  lemma FirstOffset<T>(protect: bool, r: Region<T>)
    ensures Offset(protect, r.blockSize, 0) == HeaderSize(protect)
  {
  }

  lemma StepOffset(protect: bool, b: nat, k: nat)
    ensures Offset(protect, b, k + 1) == Offset(protect, b, k) + b
  {
  }

  lemma NextUsedStep<T>(r: Region<T>, k: nat)
    requires r.allocNode <= |r.next|
    ensures NextUsed(r, k) == if k < r.allocNode && r.next[k] != 0 then NextUsed(r, k + 1) else k
  {
  }

  /** The iterator's offset is a block until it reaches the last one. */
  lemma ValidAt<T>(protect: bool, r: Region<T>, j: nat)
    requires CheckHeader(protect, r.maxNode, r.nodeSize, r) && j <= r.allocNode
    ensures r.blockSize > 0
    ensures IsValidBlock(protect, r, Offset(protect, r.blockSize, j)) <==> j < r.allocNode
    ensures j < r.allocNode ==> BlockAt(protect, r, Offset(protect, r.blockSize, j)) == j
  {
    RoomExactly(protect, r);
    hide BlockSize;
    hide HeaderSize;
    hide AllocSize;
    if j < r.allocNode {
      OffsetValid(protect, r, j);
    }
  }
}
