/**
 The map in shared memory of skylu/base/shamhash.hpp: keys and values live in the nodes of a
 `ShamPool` region, and each process keeps an index from keys to nodes, which it rebuilds from the
 region when it attaches.
 */
module ShamHash {
  import opened ShamPool
  import opened Wrappers

  datatype HashNode<K, V> = HashNode(key: K, value: V)

  /** `index` is `m_map`, with the pointer to the node in place of the one to its value. */
  datatype Table<K, V> = Table(region: Region<HashNode<K, V>>, index: map<K, nat>)

  /** The template argument, the zeroed node and `sizeof(HashNode)`. */
  datatype Config<K, V> = Config(protect: bool, blank: HashNode<K, V>, maxNode: nat, nodeSize: nat)

  function BlockOf<K, V>(c: Config<K, V>, r: Region<HashNode<K, V>>, node: nat): int {
    if r.blockSize > 0 then BlockAt(c.protect, r, node - NODE_OFFSET) else 0
  }

  /* ---------- the operations ---------- */

  function Create<K, V>(c: Config<K, V>): Table<K, V> {
    Table(Init(c.protect, c.maxNode, c.nodeSize, c.blank), map[])
  }

  function Get<K(==), V>(c: Config<K, V>, t: Table<K, V>, key: K): Option<V> {
    if key in t.index then
      var k := BlockOf(c, t.region, t.index[key]);
      if 0 <= k < |t.region.data| then Some(t.region.data[k].value) else None
    else None
  }

  /** `insert` succeeds, and the table after it. */
  predicate Inserts<K(==), V>(c: Config<K, V>, t: Table<K, V>, key: K) {
    key !in t.index && AllocBlock(c.protect, t.region) != None
  }

  function Insert<K(==), V>(c: Config<K, V>, t: Table<K, V>, key: K, value: V): Table<K, V> {
    if !Inserts(c, t, key) then t
    else
      var node := AllocBlock(c.protect, t.region).value + NODE_OFFSET;
      var r := Alloc(c.protect, t.region, c.blank);
      var k := BlockOf(c, r, node);
      if 0 <= k < |r.data| then Table(r.(data := r.data[k := HashNode(key, value)]), t.index[key := node]) else t
  }

  predicate Erases<K(==), V>(c: Config<K, V>, t: Table<K, V>, key: K) {
    key in t.index && Freeable(c.protect, t.region, t.index[key])
  }

  function Erase<K(==), V>(c: Config<K, V>, t: Table<K, V>, key: K): Table<K, V> {
    if Erases(c, t, key) then Table(Free(c.protect, t.region, t.index[key]), t.index - {key}) else t
  }

  /** The index made of the nodes of the blocks `ks`, or nothing if a key comes twice. */
  function Rebuild<K(==), V>(c: Config<K, V>, r: Region<HashNode<K, V>>, ks: seq<nat>, index: map<K, nat>)
    : Option<map<K, nat>>
    decreases |ks|
  {
    if ks == [] then Some(index)
    else if ks[0] >= |r.data| || r.data[ks[0]].key in index then None
    else Rebuild(c, r, ks[1..], index[r.data[ks[0]].key := NodeOf(c.protect, r, ks[0])])
  }

  /** `init` with `check_header`, by a process that has no index yet. */
  function Attach<K(==), V>(c: Config<K, V>, r: Region<HashNode<K, V>>): Option<Table<K, V>> {
    if !CheckHeader(c.protect, c.maxNode, c.nodeSize, r) then None
    else
      match Rebuild(c, r, Visited(r, 0), map[])
      case None => None
      case Some(index) => Some(Table(r, index))
  }

  /* ---------- what the table stands for ---------- */

  /** The index points to the node of each live block by its key, and to nothing else. */
  ghost predicate Indexed<K, V>(c: Config<K, V>, t: Table<K, V>) {
    && (forall k :: k in Live(t.region) ==>
          k < |t.region.data| && t.region.data[k].key in t.index
          && t.index[t.region.data[k].key] == NodeOf(c.protect, t.region, k))
    && (forall key :: key in t.index ==>
          var k := BlockOf(c, t.region, t.index[key]);
          k in Live(t.region) && k < |t.region.data| && t.region.data[k].key == key
          && t.index[key] == NodeOf(c.protect, t.region, k))
  }

  ghost predicate TableInv<K, V>(c: Config<K, V>, t: Table<K, V>, free: seq<nat>) {
    && Inv(c.protect, t.region, free) && t.region.maxNode == c.maxNode && t.region.nodeSize == c.nodeSize
    && Indexed(c, t)
  }

  /** The map that the table stands for. */
  ghost function Contents<K, V>(c: Config<K, V>, t: Table<K, V>): map<K, V>
    requires Indexed(c, t)
  {
    map key | key in t.index :: t.region.data[BlockOf(c, t.region, t.index[key])].value
  }

  lemma GetIsLookup<K, V>(c: Config<K, V>, t: Table<K, V>, key: K)
    requires Indexed(c, t)
    ensures Get(c, t, key) == if key in Contents(c, t) then Some(Contents(c, t)[key]) else None
  {
  }

  lemma {:induction false} SameSize<K>(keys: set<K>, blocks: set<nat>, at: map<K, nat>)
    requires keys <= at.Keys
    requires forall key :: key in keys ==> at[key] in blocks
    requires forall key, key' :: key in keys && key' in keys && at[key] == at[key'] ==> key == key'
    requires forall k :: k in blocks ==> exists key :: key in keys && at[key] == k
    ensures |keys| == |blocks|
  {
    if keys == {} {
      assert blocks == {};
    } else {
      var key :| key in keys;
      SameSize(keys - {key}, blocks - {at[key]}, at);
    }
  }

  lemma Parts<K, V>(c: Config<K, V>, t: Table<K, V>, free: seq<nat>)
    requires TableInv(c, t, free)
    ensures Inv(c.protect, t.region, free) && t.region.maxNode == c.maxNode && t.region.nodeSize == c.nodeSize
    ensures Indexed(c, t)
  {
  }

  /** The pointer to the node of a block leads back to the block. */
  lemma NodeToBlock<K, V>(c: Config<K, V>, r: Region<HashNode<K, V>>, free: seq<nat>, k: nat)
    requires Inv(c.protect, r, free) && k < r.allocNode
    ensures r.blockSize > 0 && BlockOf(c, r, NodeOf(c.protect, r, k)) == k
  {
    InvParts(c.protect, r, free);
    OffsetFacts(c.protect, r, k);
    hide Inv;
    hide BlockAt;
    hide Offset;
  }

  lemma LiveBelow<K, V>(r: Region<HashNode<K, V>>, k: nat)
    requires k in Live(r)
    ensures k < r.allocNode && k < |r.next|
  {
  }

  /** The map has as many entries as there are live blocks. */
  lemma SizeIsLive<K, V>(c: Config<K, V>, t: Table<K, V>, free: seq<nat>)
    requires TableInv(c, t, free)
    ensures |Contents(c, t)| == |Live(t.region)|
  {
    hide Live;
    hide BlockOf;
    hide NodeOf;
    hide Inv;
    var at := map key | key in t.index :: BlockOf(c, t.region, t.index[key]) as nat;
    assert Contents(c, t).Keys == t.index.Keys;
    forall k | k in Live(t.region)
      ensures exists key :: key in t.index.Keys && at[key] == k
    {
      LiveBelow(t.region, k);
      NodeToBlock(c, t.region, free, k);
      assert at[t.region.data[k].key] == k;
    }
    SameSize(t.index.Keys, Live(t.region), at);
  }

  /* ---------- insertion ---------- */

  lemma InsertIs<K, V>(c: Config<K, V>, t: Table<K, V>, free: seq<nat>, key: K, value: V)
    requires TableInv(c, t, free)
    ensures Inserts(c, t, key) <==> key !in t.index && |Live(t.region)| < c.maxNode
    ensures var k, r := Taken(t.region, free), Alloc(c.protect, t.region, c.blank);
      Inserts(c, t, key) ==>
        && k < |r.data| && k !in Live(t.region) && Live(r) == Live(t.region) + {k}
        && r.maxNode == t.region.maxNode && r.nodeSize == t.region.nodeSize && r.blockSize == t.region.blockSize
        && r.data == t.region.data[k := c.blank] && k < |t.region.data|
        && Insert(c, t, key, value) ==
             Table(r.(data := r.data[k := HashNode(key, value)]), t.index[key := NodeOf(c.protect, t.region, k)])
  {
    hide *;
    Parts(c, t, free);
    InvParts(c.protect, t.region, free);
    LiveOrFree(c.protect, t.region, free);
    AllocExactly(c.protect, t.region, free, c.blank);
    InsertsIs(c, t, key);
    if Inserts(c, t, key) {
      AllocIs(c.protect, t.region, free, c.blank);
      ExhaustedIs(t.region, free);
      AllocatedBlock(c, t.region, free);
      InsertUnfolds(c, t, key, value);
    }
  }

  /** The pointer handed out leads to the block taken, in the region before and after. */
  lemma AllocatedBlock<K, V>(c: Config<K, V>, r: Region<HashNode<K, V>>, free: seq<nat>)
    requires Inv(c.protect, r, free) && AllocBlock(c.protect, r) != None
    ensures var node, k := AllocBlock(c.protect, r).value + NODE_OFFSET, Taken(r, free);
      && Alloc(c.protect, r, c.blank).blockSize == r.blockSize
      && BlockOf(c, Alloc(c.protect, r, c.blank), node) == k < r.maxNode && node == NodeOf(c.protect, r, k)
  {
    hide *;
    AllocatedNode(c, r, free);
    AllocIs(c.protect, r, free, c.blank);
    BlockIs(c.protect, r, AllocBlock(c.protect, r).value);
    BlockOfIs(c, Alloc(c.protect, r, c.blank), AllocBlock(c.protect, r).value + NODE_OFFSET);
  }

  lemma BlockOfIs<K, V>(c: Config<K, V>, r: Region<HashNode<K, V>>, node: nat)
    requires r.blockSize > 0
    ensures BlockOf(c, r, node) == Number(c.protect, r.blockSize, node - NODE_OFFSET)
  {
    hide Number;
  }

  lemma InsertsIs<K, V>(c: Config<K, V>, t: Table<K, V>, key: K)
    ensures Inserts(c, t, key) <==> key !in t.index && AllocBlock(c.protect, t.region) != None
  {
  }

  lemma InsertUnfolds<K, V>(c: Config<K, V>, t: Table<K, V>, key: K, value: V)
    requires Inserts(c, t, key)
    ensures var node, r := AllocBlock(c.protect, t.region).value + NODE_OFFSET, Alloc(c.protect, t.region, c.blank);
      var k := BlockOf(c, r, node);
      0 <= k < |r.data| ==>
        Insert(c, t, key, value) == Table(r.(data := r.data[k := HashNode(key, value)]), t.index[key := node])
  {
    hide Alloc;
    hide AllocBlock;
    hide BlockOf;
  }

  lemma SameBlocks<K, V>(c: Config<K, V>, r: Region<HashNode<K, V>>, r': Region<HashNode<K, V>>, node: nat, k: nat)
    requires r.blockSize == r'.blockSize
    ensures BlockOf(c, r, node) == BlockOf(c, r', node) && NodeOf(c.protect, r, k) == NodeOf(c.protect, r', k)
  {
    hide Number;
    hide Offset;
  }

  lemma IndexedInsert<K, V>(c: Config<K, V>, t: Table<K, V>, t': Table<K, V>, k: nat, key: K, value: V)
    requires Indexed(c, t) && key !in t.index && k !in Live(t.region) && k < |t.region.data|
    requires t'.region.blockSize == t.region.blockSize && Live(t'.region) == Live(t.region) + {k}
    requires t'.region.data == t.region.data[k := HashNode(key, value)]
    requires t'.index == t.index[key := NodeOf(c.protect, t.region, k)]
    requires BlockOf(c, t'.region, NodeOf(c.protect, t'.region, k)) == k
    ensures Indexed(c, t') && Contents(c, t') == Contents(c, t)[key := value]
  {
    hide Live;
    hide BlockOf;
    hide NodeOf;
    SameBlocks(c, t.region, t'.region, 0, k);
    forall key' | key' in t.index
      ensures BlockOf(c, t'.region, t.index[key']) == BlockOf(c, t.region, t.index[key'])
    {
      SameBlocks(c, t.region, t'.region, t.index[key'], k);
    }
    forall j | j in Live(t.region)
      ensures NodeOf(c.protect, t'.region, j) == NodeOf(c.protect, t.region, j)
    {
      SameBlocks(c, t.region, t'.region, 0, j);
    }
    assert forall key' :: key' in t'.index <==> key' == key || key' in t.index;
  }

  /** The free list after `insert`. */
  function FreeAfterInsert<K(==), V>(c: Config<K, V>, t: Table<K, V>, key: K, free: seq<nat>): seq<nat> {
    if Inserts(c, t, key) then FreeAfterAlloc(free) else free
  }

  lemma SameWords<T>(protect: bool, r: Region<T>, data: seq<T>, free: seq<nat>)
    requires Inv(protect, r, free) && |data| == |r.data|
    ensures Inv(protect, r.(data := data), free) && Live(r.(data := data)) == Live(r)
  {
    hide CheckHeader;
    hide Offset;
    var r' := r.(data := data);
    SameHeader(protect, r, r');
    forall i | 0 < i <= |free|
      ensures r'.next[free[i - 1]] == Link(protect, r', free, i)
    {
      assert r.next[free[i - 1]] == Link(protect, r, free, i);
    }
    assert Link(protect, r', free, 0) == Link(protect, r, free, 0);
  }

  /** `insert` puts a key that is not there into the map, as long as it has fewer than `maxNode` entries, and
      else changes nothing. */
  lemma InsertRefines<K, V>(c: Config<K, V>, t: Table<K, V>, free: seq<nat>, key: K, value: V)
    requires TableInv(c, t, free)
    ensures TableInv(c, Insert(c, t, key, value), FreeAfterInsert(c, t, key, free))
    ensures var m := Contents(c, t);
      && (Inserts(c, t, key) <==> key !in m && |m| < c.maxNode)
      && Contents(c, Insert(c, t, key, value)) == if key !in m && |m| < c.maxNode then m[key := value] else m
  {
    hide *;
    Parts(c, t, free);
    SizeIsLive(c, t, free);
    ContentsKeys(c, t);
    InsertIs(c, t, free, key, value);
    FreeAfterInsertIs(c, t, key, free);
    if Inserts(c, t, key) {
      var k, t' := Taken(t.region, free), Insert(c, t, key, value);
      var r := Alloc(c.protect, t.region, c.blank);
      var data := r.data[k := HashNode(key, value)];
      AllocInv(c.protect, t.region, free, c.blank);
      SameWords(c.protect, r, data, FreeAfterAlloc(free));
      LiveIs(r, k);
      NodeToBlock(c, t'.region, FreeAfterAlloc(free), k);
      assert t'.region.data == t.region.data[k := HashNode(key, value)];
      IndexedInsert(c, t, t', k, key, value);
      Whole(c, t', FreeAfterAlloc(free));
    } else {
      InsertFails(c, t, key, value);
    }
  }

  lemma InsertFails<K, V>(c: Config<K, V>, t: Table<K, V>, key: K, value: V)
    requires !Inserts(c, t, key)
    ensures Insert(c, t, key, value) == t
  {
    hide Inserts;
  }

  lemma FreeAfterInsertIs<K, V>(c: Config<K, V>, t: Table<K, V>, key: K, free: seq<nat>)
    ensures FreeAfterInsert(c, t, key, free) == if Inserts(c, t, key) then FreeAfterAlloc(free) else free
  {
  }

  lemma ContentsKeys<K, V>(c: Config<K, V>, t: Table<K, V>)
    requires Indexed(c, t)
    ensures Contents(c, t).Keys == t.index.Keys
  {
  }

  lemma Whole<K, V>(c: Config<K, V>, t: Table<K, V>, free: seq<nat>)
    requires Inv(c.protect, t.region, free) && t.region.maxNode == c.maxNode && t.region.nodeSize == c.nodeSize
    requires Indexed(c, t)
    ensures TableInv(c, t, free)
  {
  }

  /* ---------- removal ---------- */

  lemma KeyOfBlock<K, V>(c: Config<K, V>, t: Table<K, V>, free: seq<nat>, k: nat)
    requires TableInv(c, t, free) && k in Live(t.region)
    ensures k < |t.region.data| && t.region.data[k].key in t.index
    ensures t.index[t.region.data[k].key] == NodeOf(c.protect, t.region, k)
    ensures BlockOf(c, t.region, t.index[t.region.data[k].key]) == k
  {
    Parts(c, t, free);
    LiveBelow(t.region, k);
    NodeToBlock(c, t.region, free, k);
    hide Live;
    hide BlockOf;
    hide NodeOf;
    hide Inv;
  }

  lemma IndexedAt<K, V>(c: Config<K, V>, t: Table<K, V>, key: K)
    requires Indexed(c, t) && key in t.index
    ensures var k := BlockOf(c, t.region, t.index[key]);
      k in Live(t.region) && k < |t.region.data| && t.region.data[k].key == key
          && t.index[key] == NodeOf(c.protect, t.region, k)
  {
    hide Live;
    hide BlockOf;
    hide NodeOf;
  }

  lemma IndexedErase<K, V>(c: Config<K, V>, t: Table<K, V>, free: seq<nat>, t': Table<K, V>, k: nat, key: K)
    requires TableInv(c, t, free) && Indexed(c, t) && key in t.index && k == BlockOf(c, t.region, t.index[key])
    requires t'.region.blockSize == t.region.blockSize && Live(t'.region) == Live(t.region) - {k}
    requires t'.region.data == t.region.data && t'.index == t.index - {key}
    ensures Indexed(c, t') && Contents(c, t') == Contents(c, t) - {key}
  {
    hide Live;
    hide BlockOf;
    hide NodeOf;
    forall key' | key' in t.index
      ensures BlockOf(c, t'.region, t.index[key']) == BlockOf(c, t.region, t.index[key'])
    {
      SameBlocks(c, t.region, t'.region, t.index[key'], k);
    }
    forall j | j in Live(t.region)
      ensures NodeOf(c.protect, t'.region, j) == NodeOf(c.protect, t.region, j)
      ensures j != k ==> t.region.data[j].key != key
    {
      SameBlocks(c, t.region, t'.region, 0, j);
      KeyOfBlock(c, t, free, j);
    }
    forall key' | key' in t'.index
      ensures BlockOf(c, t.region, t.index[key']) != k
    {
      IndexedAt(c, t, key');
      IndexedAt(c, t, key);
    }
  }

  /** The free list after `erase`. */
  function FreeAfterErase<K(==), V>(c: Config<K, V>, t: Table<K, V>, key: K, free: seq<nat>): seq<nat> {
    if Erases(c, t, key) && BlockOf(c, t.region, t.index[key]) >= 0 then [BlockOf(c, t.region, t.index[key])] + free
    else free
  }

  lemma ErasesIs<K, V>(c: Config<K, V>, t: Table<K, V>, key: K, free: seq<nat>)
    ensures Erases(c, t, key) <==> key in t.index && Freeable(c.protect, t.region, t.index[key])
    ensures Erase(c, t, key) ==
      if Erases(c, t, key) then Table(Free(c.protect, t.region, t.index[key]), t.index - {key}) else t
    ensures FreeAfterErase(c, t, key, free) ==
      if Erases(c, t, key) && BlockOf(c, t.region, t.index[key]) >= 0 then [BlockOf(c, t.region, t.index[key])] + free
      else free
  {
    hide Free;
    hide Freeable;
    hide BlockOf;
  }

  /** `erase` removes a key that is there, and else changes nothing. */
  lemma EraseRefines<K, V>(c: Config<K, V>, t: Table<K, V>, free: seq<nat>, key: K)
    requires TableInv(c, t, free)
    ensures TableInv(c, Erase(c, t, key), FreeAfterErase(c, t, key, free))
    ensures Erases(c, t, key) <==> key in Contents(c, t)
    ensures Contents(c, Erase(c, t, key)) == Contents(c, t) - {key}
  {
    hide *;
    Parts(c, t, free);
    ContentsKeys(c, t);
    ErasesIs(c, t, key, free);
    if key in t.index {
      var k := BlockOf(c, t.region, t.index[key]);
      IndexedAt(c, t, key);
      FreeInv(c.protect, t.region, free, k);
      FreeShrinks(c.protect, t.region, free, k);
      IndexedErase(c, t, free, Erase(c, t, key), k, key);
      Whole(c, Erase(c, t, key), [k] + free);
    } else {
      assert key !in Contents(c, t).Keys;
      assert Contents(c, t) - {key} == Contents(c, t);
    }
  }

  /* ---------- attaching ---------- */

  /** The part of the index for the blocks `ks`. */
  ghost predicate IndexOf<K, V>(c: Config<K, V>, t: Table<K, V>, ks: seq<nat>, index: map<K, nat>) {
    && (forall key :: key in index ==> key in t.index && index[key] == t.index[key])
    && (forall key :: key in t.index && key !in index ==> BlockOf(c, t.region, t.index[key]) in ks)
    && (forall i :: 0 <= i < |ks| ==>
          ks[i] in Live(t.region) && ks[i] < |t.region.data| && t.region.data[ks[i]].key !in index)
    && Distinct(ks)
  }

  lemma {:induction false} RebuildStep<K, V>(c: Config<K, V>, t: Table<K, V>, free: seq<nat>, ks: seq<nat>,
      index: map<K, nat>)
    requires TableInv(c, t, free) && IndexOf(c, t, ks, index) && ks != []
    ensures var key := t.region.data[ks[0]].key;
      && ks[0] < |t.region.data| && key !in index
      && IndexOf(c, t, ks[1..], index[key := NodeOf(c.protect, t.region, ks[0])])
  {
    hide Live;
    hide BlockOf;
    hide NodeOf;
    hide TableInv;
    assert ks[0] in Live(t.region);
    KeyOfBlock(c, t, free, ks[0]);
    var key := t.region.data[ks[0]].key;
    Parts(c, t, free);
    hide Indexed;
    forall key' | key' in t.index && key' !in index && key' != key
      ensures BlockOf(c, t.region, t.index[key']) in ks[1..]
    {
      IndexedAt(c, t, key');
      var i :| 0 <= i < |ks| && ks[i] == BlockOf(c, t.region, t.index[key']);
      assert i > 0 && ks[1..][i - 1] == ks[i];
    }
    forall i | 0 <= i < |ks[1..]|
      ensures ks[1..][i] in Live(t.region) && ks[1..][i] < |t.region.data| && t.region.data[ks[1..][i]].key != key
    {
      assert ks[1..][i] == ks[i + 1];
      KeyOfBlock(c, t, free, ks[i + 1]);
    }
  }

  lemma {:induction false} RebuildsAll<K, V>(c: Config<K, V>, t: Table<K, V>, free: seq<nat>, ks: seq<nat>,
      index: map<K, nat>)
    requires TableInv(c, t, free) && IndexOf(c, t, ks, index)
    ensures Rebuild(c, t.region, ks, index) == Some(t.index)
    decreases |ks|
  {
    if ks == [] {
      assert forall key :: key in t.index <==> key in index;
      assert index == t.index;
    } else {
      RebuildStep(c, t, free, ks, index);
      var key := t.region.data[ks[0]].key;
      RebuildsAll(c, t, free, ks[1..], index[key := NodeOf(c.protect, t.region, ks[0])]);
    }
  }

  /** A process that attaches to the region of a table gets exactly that table. */
  lemma AttachRebuilds<K, V>(c: Config<K, V>, t: Table<K, V>, free: seq<nat>)
    requires TableInv(c, t, free)
    ensures Attach(c, t.region) == Some(t)
  {
    Parts(c, t, free);
    InvParts(c.protect, t.region, free);
    ChainBelow(c.protect, t.region, free);
    VisitsLive(t.region, 0);
    hide Visited;
    hide BlockOf;
    hide NodeOf;
    hide CheckHeader;
    hide TableInv;
    var ks := Visited(t.region, 0);
    assert IndexOf(c, t, ks, map[]) by {
      forall key | key in t.index
        ensures BlockOf(c, t.region, t.index[key]) in ks
      {
        IndexedAt(c, t, key);
      }
      forall i | 0 <= i < |ks|
        ensures ks[i] in Live(t.region) && ks[i] < |t.region.data|
      {
        assert ks[i] in ks;
        KeyOfBlock(c, t, free, ks[i]);
      }
    }
    RebuildsAll(c, t, free, ks, map[]);
  }

  lemma ChainBelow<T>(protect: bool, r: Region<T>, free: seq<nat>)
    requires Chain(protect, r, free)
    ensures r.allocNode <= |r.next|
  {
  }

  /* ---------- whole runs ---------- */

  /** `Attached`: another process attaches to the region and goes on with its own index. */
  datatype Event<K, V> = Inserted(key: K, value: V) | Erased(key: K) | Attached

  function Step<K(==), V>(c: Config<K, V>, t: Table<K, V>, v: Event<K, V>): Table<K, V> {
    match v
    case Inserted(key, value) => Insert(c, t, key, value)
    case Erased(key) => Erase(c, t, key)
    case Attached => if Attach(c, t.region) == None then Table(t.region, map[]) else Attach(c, t.region).value
  }

  function StepFree<K(==), V>(c: Config<K, V>, t: Table<K, V>, free: seq<nat>, v: Event<K, V>): seq<nat> {
    match v
    case Inserted(key, _) => FreeAfterInsert(c, t, key, free)
    case Erased(key) => FreeAfterErase(c, t, key, free)
    case Attached => free
  }

  function Run<K(==), V>(c: Config<K, V>, events: seq<Event<K, V>>): Table<K, V> {
    if events == [] then Create(c) else Step(c, Run(c, events[..|events| - 1]), events[|events| - 1])
  }

  function RunFree<K(==), V>(c: Config<K, V>, events: seq<Event<K, V>>): seq<nat> {
    if events == [] then []
    else StepFree(c, Run(c, events[..|events| - 1]), RunFree(c, events[..|events| - 1]), events[|events| - 1])
  }

  /** The same run on a map of at most `maxNode` entries. */
  function MapRun<K(==), V>(c: Config<K, V>, events: seq<Event<K, V>>): map<K, V> {
    if events == [] then map[]
    else
      var m := MapRun(c, events[..|events| - 1]);
      match events[|events| - 1]
      case Inserted(key, value) => if key !in m && |m| < c.maxNode then m[key := value] else m
      case Erased(key) => m - {key}
      case Attached => m
  }

  lemma CreateInv<K, V>(c: Config<K, V>)
    requires AllocSize(c.protect, c.maxNode, c.nodeSize) < INVALID_POINTER
    ensures TableInv(c, Create(c), []) && Contents(c, Create(c)) == map[]
  {
    InitInv(c.protect, c.maxNode, c.nodeSize, c.blank);
    hide Inv;
    hide BlockSize;
    assert forall k :: k !in Live(Create(c).region);
  }

  lemma StepRefines<K, V>(c: Config<K, V>, t: Table<K, V>, free: seq<nat>, v: Event<K, V>)
    requires TableInv(c, t, free)
    ensures TableInv(c, Step(c, t, v), StepFree(c, t, free, v))
    ensures var m := Contents(c, t);
      Contents(c, Step(c, t, v)) ==
        match v
        case Inserted(key, value) => (if key !in m && |m| < c.maxNode then m[key := value] else m)
        case Erased(key) => m - {key}
        case Attached => m
  {
    hide Contents;
    hide Indexed;
    hide Insert;
    hide Erase;
    hide Attach;
    Parts(c, t, free);
    match v
    case Inserted(key, value) => InsertRefines(c, t, free, key, value);
    case Erased(key) => EraseRefines(c, t, free, key);
    case Attached => AttachRebuilds(c, t, free);
  }

  /** Any run of insertions, removals and attaching processes behaves as one map of bounded size. */
  lemma {:induction false} RunRefinesMap<K, V>(c: Config<K, V>, events: seq<Event<K, V>>)
    requires AllocSize(c.protect, c.maxNode, c.nodeSize) < INVALID_POINTER
    ensures TableInv(c, Run(c, events), RunFree(c, events))
    ensures Contents(c, Run(c, events)) == MapRun(c, events)
  {
    hide TableInv;
    hide Contents;
    hide Step;
    hide StepFree;
    if events == [] {
      CreateInv(c);
    } else {
      var before := events[..|events| - 1];
      RunRefinesMap(c, before);
      StepRefines(c, Run(c, before), RunFree(c, before), events[|events| - 1]);
      Parts(c, Run(c, before), RunFree(c, before));
    }
    Parts(c, Run(c, events), RunFree(c, events));
  }

  /* ---------- the map, in place ---------- */

  class Shamhash<K(==), V> {
    const c: Config<K, V>
    const pool: ShammemPool<HashNode<K, V>>
    var index: map<K, nat>

    ghost predicate Valid()
      reads this
    {
      && pool.protect == c.protect && pool.blank == c.blank && pool.Apart()
      && (this as object) !in {pool as object, pool.next as object, pool.data as object}
    }

    ghost function State(): Table<K, V>
      reads this, pool, pool.next, pool.data
    {
      Table(pool.Contents(), index)
    }

    /** Over a pool that is fresh or that another process has filled; the index is made by `InitIndex`. */
    constructor (c: Config<K, V>, pool: ShammemPool<HashNode<K, V>>)
      requires pool.protect == c.protect && pool.blank == c.blank && pool.Apart()
      ensures this.c == c && this.pool == pool && Valid() && index == map[]
    {
      this.c, this.pool, index := c, pool, map[];
    }

    method GetValue(key: K) returns (v: Option<V>)
      requires Valid()
      ensures v == Get(c, State(), key)
    {
      if key !in index {
        return None;
      }
      if pool.blockSize == 0 {
        return if pool.data.Length > 0 then Some(pool.data[0].value) else None;
      }
      var k := Number(c.protect, pool.blockSize, index[key] - NODE_OFFSET);
      return if 0 <= k < pool.data.Length then Some(pool.data[k].value) else None;
    }

    method InsertPair(key: K, value: V, ghost free: seq<nat>) returns (ok: bool)
      requires Valid() && TableInv(c, State(), free)
      modifies this, pool, pool.next, pool.data
      ensures Valid() && State() == Insert(c, old(State()), key, value) && ok == Inserts(c, old(State()), key)
    {
      hide Inv;
      hide TableInv;
      hide Indexed;
      hide Insert;
      hide Inserts;
      hide Alloc;
      hide AllocBlock;
      hide Offset;
      hide Number;
      hide Live;
      hide NodeOf;
      hide Taken;
      ghost var t := State();
      Parts(c, t, free);
      InsertIs(c, t, free, key, value);
      InsertsIs(c, t, key);
      InsertFailsUnless(c, t, key, value);
      if key in index {
        return false;
      }
      var node := pool.AllocNode(free);
      if node == None {
        AllocUnchanged(c, t.region);
        return false;
      }
      AllocatedNode(c, t.region, free);
      var k := Number(c.protect, pool.blockSize, node.value - NODE_OFFSET);
      pool.data[k] := HashNode(key, value);
      index := index[key := node.value];
      ok := true;
    }

    method EraseKey(key: K, ghost free: seq<nat>) returns (code: int)
      requires Valid() && TableInv(c, State(), free)
      modifies this, pool, pool.next
      ensures Valid() && State() == Erase(c, old(State()), key)
      ensures code == if key !in old(index) then -1 else if Erases(c, old(State()), key) then 0 else -2
    {
      ghost var t := State();
      Parts(c, t, free);
      ErasesIs(c, t, key, free);
      hide Inv;
      hide TableInv;
      hide Indexed;
      hide Erase;
      hide Erases;
      hide Free;
      hide Freeable;
      if key !in index {
        return -1;
      }
      var ok := pool.FreeNode(index[key], free);
      if !ok {
        FreeUnchanged(c, t.region, t.index[key]);
        return -2;
      }
      index := index - {key};
      code := 0;
    }

    /** `init` with `check_header`. */
    method InitIndex(ghost free: seq<nat>) returns (code: int)
      requires Valid() && index == map[] && Inv(c.protect, pool.Contents(), free)
      modifies this
      ensures Valid() && pool.Contents() == old(pool.Contents())
      ensures code == 0 <==> Attach(c, pool.Contents()) != None
      ensures code == 0 ==> Attach(c, pool.Contents()) == Some(State())
    {
      hide CheckHeader;
      hide Inv;
      hide Chain;
      hide Attach;
      hide NextUsed;
      hide Visited;
      hide Rebuild;
      hide NodeOf;
      hide Offset;
      hide Number;
      ghost var r := pool.Contents();
      InvParts(c.protect, r, free);
      ChainBelow(c.protect, r, free);
      AttachIs(c, r);
      if !Headed(r) {
        return -2;
      }
      ghost var j := 0;
      var block: Option<nat> := None;
      while true
        invariant pool.Contents() == r && j <= r.allocNode
        invariant if block == None then j == 0 else 0 < j && block.value == Offset(c.protect, r.blockSize, j - 1)
        invariant Rebuild(c, r, Visited(r, j), index) == Rebuild(c, r, Visited(r, 0), map[])
        decreases r.allocNode - j
      {
        VisitedStep(r, j);
        block := pool.GetNextUsedBlock(block, free, j);
        if block == None {
          RebuildDone(c, r, index);
          return 0;
        }
        ghost var n := NextUsed(r, j);
        BlockBack(c, r, free, n);
        RebuildUnfolds(c, r, n, Visited(r, n + 1), index);
        var k := Number(c.protect, pool.blockSize, block.value);
        if pool.data[k].key in index {
          return -3;
        }
        index := index[pool.data[k].key := block.value + NODE_OFFSET];
        j := n + 1;
      }
    }

    /** The comparison of the header with the sizes expected. */
    predicate Headed(ghost r: Region<HashNode<K, V>>)
      requires r == pool.Contents()
      reads this, pool, pool.next, pool.data
      ensures Headed(r) <==> CheckHeader(c.protect, c.maxNode, c.nodeSize, r)
    {
      BlocksIs(pool.allocNode, pool.blockSize);
      hide BlockSize;
      hide HeaderSize;
      hide AllocSize;
      && pool.nodeSize == c.nodeSize && pool.blockSize == BlockSize(c.protect, c.nodeSize) && pool.maxNode == c.maxNode
      && pool.maxSize == AllocSize(c.protect, c.maxNode, c.nodeSize)
      && HeaderSize(c.protect) + pool.allocNode * pool.blockSize == pool.allocSize && pool.allocSize <= pool.maxSize
    }
  }

  lemma InsertFailsUnless<K, V>(c: Config<K, V>, t: Table<K, V>, key: K, value: V)
    ensures !Inserts(c, t, key) ==> Insert(c, t, key, value) == t
  {
    hide Inserts;
  }

  lemma AllocUnchanged<K, V>(c: Config<K, V>, r: Region<HashNode<K, V>>)
    requires AllocBlock(c.protect, r) == None
    ensures Alloc(c.protect, r, c.blank) == r
  {
    hide AllocBlock;
  }

  lemma FreeUnchanged<K, V>(c: Config<K, V>, r: Region<HashNode<K, V>>, node: int)
    requires !Freeable(c.protect, r, node)
    ensures Free(c.protect, r, node) == r
  {
    hide Freeable;
  }

  /** The pointer handed out leads to the block taken. */
  lemma AllocatedNode<K, V>(c: Config<K, V>, r: Region<HashNode<K, V>>, free: seq<nat>)
    requires Inv(c.protect, r, free) && AllocBlock(c.protect, r) != None
    ensures r.blockSize > 0 && Number(c.protect, r.blockSize, AllocBlock(c.protect, r).value)
           == Taken(r, free) < r.maxNode
    ensures AllocBlock(c.protect, r).value + NODE_OFFSET == NodeOf(c.protect, r, Taken(r, free))
  {
    AllocTakes(c.protect, r, free);
    hide Number;
    hide Offset;
    hide AllocBlock;
    hide Inv;
  }

  lemma AttachIs<K, V>(c: Config<K, V>, r: Region<HashNode<K, V>>)
    ensures CheckHeader(c.protect, c.maxNode, c.nodeSize, r) ==>
      Attach(c, r) == match Rebuild(c, r, Visited(r, 0), map[])
                      case None => None
                      case Some(index) => Some(Table(r, index))
    ensures !CheckHeader(c.protect, c.maxNode, c.nodeSize, r) ==> Attach(c, r) == None
  {
    hide CheckHeader;
    hide Rebuild;
    hide Visited;
  }

  lemma VisitedStep<T>(r: Region<T>, j: nat)
    ensures Visited(r, j) == var n := NextUsed(r, j); if n < r.allocNode then [n] + Visited(r, n + 1) else []
  {
  }

  lemma RebuildUnfolds<K, V>(c: Config<K, V>, r: Region<HashNode<K, V>>, n: nat, rest: seq<nat>, index: map<K, nat>)
    requires n < |r.data|
    ensures Rebuild(c, r, [n] + rest, index) ==
      if r.data[n].key in index then None
      else Rebuild(c, r, rest, index[r.data[n].key := NodeOf(c.protect, r, n)])
  {
    hide NodeOf;
    assert ([n] + rest)[1..] == rest;
  }

  lemma RebuildDone<K, V>(c: Config<K, V>, r: Region<HashNode<K, V>>, index: map<K, nat>)
    ensures Rebuild(c, r, [], index) == Some(index)
  {
  }

  lemma BlockBack<K, V>(c: Config<K, V>, r: Region<HashNode<K, V>>, free: seq<nat>, n: nat)
    requires Inv(c.protect, r, free) && n < r.allocNode
    ensures r.blockSize > 0 && Number(c.protect, r.blockSize, Offset(c.protect, r.blockSize, n)) == n < |r.data|
    ensures NodeOf(c.protect, r, n) == Offset(c.protect, r.blockSize, n) + NODE_OFFSET
  {
    InvParts(c.protect, r, free);
    OffsetFacts(c.protect, r, n);
    hide Inv;
    hide Number;
    hide Offset;
  }
}
