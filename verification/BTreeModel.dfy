/**
 The B-tree of skylu/base/btree.cc as a value: what each single-pass, top-down operation makes of a
 tree of minimum degree `m` (the constant `M` of tree.h), and what every operation keeps.
 `BTree.dfy` has the mutable nodes, proved to compute these functions.
 */
module BTreeModel {
  /** A leaf has no kids; an inner node has one kid more than it has keys. */
  datatype Tree = Node(keys: seq<int>, kids: seq<Tree>)

  const EMPTY := Node([], [])

  /* ---------- shape ---------- */

  /** Leaves all at depth `h`, and every node below `t` between half full and full. */
  ghost predicate Kids(m: nat, t: Tree, h: nat)
    decreases h
  {
    if h == 0 then t.kids == []
    else
      && |t.kids| == |t.keys| + 1
      && forall i :: 0 <= i < |t.kids| ==> m - 1 <= |t.kids[i].keys| <= 2 * m - 1 && Kids(m, t.kids[i], h - 1)
  }

  ghost predicate Sub(m: nat, t: Tree, h: nat) {
    m - 1 <= |t.keys| <= 2 * m - 1 && Kids(m, t, h)
  }

  /** A whole tree: only the root may hold fewer than `m - 1` keys, and not none if it has kids. */
  ghost predicate Root(m: nat, t: Tree, h: nat) {
    |t.keys| <= 2 * m - 1 && Kids(m, t, h) && (h > 0 ==> |t.keys| >= 1)
  }

  /* ---------- contents ---------- */

  /** The keys as `BTreeInorderPrint` lists them. */
  function InOrder(t: Tree): seq<int>
    decreases t, 0
  {
    if t.kids == [] then t.keys
    else if |t.kids| == |t.keys| + 1 then InOrder(t.kids[0]) + After(t.keys, t.kids[1..])
    else []
  }

  /** Each key followed by the subtree to its right. */
  function After(ks: seq<int>, cs: seq<Tree>): seq<int>
    requires |ks| == |cs|
    decreases cs, 0
  {
    if ks == [] then [] else [ks[0]] + InOrder(cs[0]) + After(ks[1..], cs[1..])
  }

  /** Each subtree followed by the key to its right. */
  function Before(ks: seq<int>, cs: seq<Tree>): seq<int>
    requires |ks| == |cs|
    decreases cs, 0
  {
    if ks == [] then [] else InOrder(cs[0]) + [ks[0]] + Before(ks[1..], cs[1..])
  }

  ghost predicate Sorted(s: seq<int>) {
    forall i, j :: 0 <= i < j < |s| ==> s[i] <= s[j]
  }

  /** Every element of `s` before every element of `s'`. */
  ghost predicate Ordered(s: seq<int>, s': seq<int>) {
    forall i, j :: 0 <= i < |s| && 0 <= j < |s'| ==> s[i] <= s'[j]
  }

  ghost predicate InsertedAt(s: seq<int>, s': seq<int>, x: int, i: int) {
    0 <= i <= |s| && s' == s[..i] + [x] + s[i..]
  }

  ghost predicate RemovedAt(s: seq<int>, s': seq<int>, x: int, i: int) {
    0 <= i < |s| && s[i] == x && s' == s[..i] + s[i + 1..]
  }

  /** `s'` is `s` with one `x` put in; with one `x` taken out. */
  ghost predicate Inserted(s: seq<int>, s': seq<int>, x: int) {
    exists i :: InsertedAt(s, s', x, i)
  }

  ghost predicate Removed(s: seq<int>, s': seq<int>, x: int) {
    exists i :: RemovedAt(s, s', x, i)
  }

  /* ---------- the restructuring steps ---------- */

  /** Two neighbours and the key between them as one node. */
  function Join(y: Tree, k: int, z: Tree): Tree {
    Node(y.keys + [k] + z.keys, y.kids + z.kids)
  }

  function Leftmost(t: Tree): Tree {
    Node([], if t.kids == [] then [] else [t.kids[0]])
  }

  function Rightmost(t: Tree): Tree {
    Node([], if t.kids == [] then [] else [t.kids[|t.kids| - 1]])
  }

  /** A node without its last key and kid; without its first. */
  function DropLast(t: Tree): Tree
    requires |t.keys| > 0
  {
    Node(t.keys[..|t.keys| - 1], if t.kids == [] then [] else t.kids[..|t.kids| - 1])
  }

  function DropFirst(t: Tree): Tree
    requires |t.keys| > 0
  {
    Node(t.keys[1..], if t.kids == [] then [] else t.kids[1..])
  }

  function LowerHalf(m: nat, t: Tree): Tree
    requires 1 <= m && |t.keys| == 2 * m - 1 && (t.kids == [] || |t.kids| == 2 * m)
  {
    Node(t.keys[..m - 1], if t.kids == [] then [] else t.kids[..m])
  }

  function UpperHalf(m: nat, t: Tree): Tree
    requires 1 <= m && |t.keys| == 2 * m - 1 && (t.kids == [] || |t.kids| == 2 * m)
  {
    Node(t.keys[m..], if t.kids == [] then [] else t.kids[m..])
  }

  /** `BTreeSplitChild`: the full kid `pos` becomes two, its middle key moves up. */
  function SplitChild(m: nat, t: Tree, pos: nat): Tree
    requires 1 <= m && |t.kids| == |t.keys| + 1 && pos < |t.kids|
    requires var c := t.kids[pos]; |c.keys| == 2 * m - 1 && (c.kids == [] || |c.kids| == 2 * m)
  {
    var c := t.kids[pos];
    Node(t.keys[..pos] + [c.keys[m - 1]] + t.keys[pos..],
         t.kids[..pos] + [LowerHalf(m, c), UpperHalf(m, c)] + t.kids[pos + 1..])
  }

  /** `BTreeMergeChild`: kids `pos` and `pos + 1` become one, with the key between them. */
  function MergeChild(t: Tree, pos: nat): Tree
    requires |t.kids| == |t.keys| + 1 && pos < |t.keys|
  {
    Node(t.keys[..pos] + t.keys[pos + 1..],
         t.kids[..pos] + [Join(t.kids[pos], t.keys[pos], t.kids[pos + 1])] + t.kids[pos + 2..])
  }

  /** Kids `pos` and `pos + 1` and the key between them replaced. */
  function ReplacePair(t: Tree, pos: nat, y: Tree, k: int, z: Tree): Tree
    requires |t.kids| == |t.keys| + 1 && pos < |t.keys|
  {
    Node(t.keys[pos := k], t.kids[pos := y][pos + 1 := z])
  }

  /** `BTreeShiftToRightChild`: the last key of kid `pos` moves up, the separator down to the right. */
  function ShiftRight(t: Tree, pos: nat): Tree
    requires |t.kids| == |t.keys| + 1 && pos < |t.keys| && |t.kids[pos].keys| > 0
  {
    var y, z := t.kids[pos], t.kids[pos + 1];
    ReplacePair(t, pos, DropLast(y), y.keys[|y.keys| - 1], Join(Rightmost(y), t.keys[pos], z))
  }

  /** `BTreeShiftToLeftChild`: the first key of kid `pos + 1` moves up, the separator down to the left. */
  function ShiftLeft(t: Tree, pos: nat): Tree
    requires |t.kids| == |t.keys| + 1 && pos < |t.keys| && |t.kids[pos + 1].keys| > 0
  {
    var y, z := t.kids[pos], t.kids[pos + 1];
    ReplacePair(t, pos, Join(y, t.keys[pos], Leftmost(z)), z.keys[0], DropFirst(z))
  }

  function ReplaceKid(t: Tree, pos: nat, c: Tree): Tree
    requires pos < |t.kids|
  {
    Node(t.keys, t.kids[pos := c])
  }

  /* ---------- searching ---------- */

  /** Where the scan from the right stops: everything from here on is greater than `x`. */
  function UpperPos(ks: seq<int>, x: int): (pos: nat)
    ensures pos <= |ks|
    ensures forall j :: pos <= j < |ks| ==> x < ks[j]
    ensures pos > 0 ==> ks[pos - 1] <= x
  {
    if ks == [] then 0
    else if x < ks[|ks| - 1] then UpperPos(ks[..|ks| - 1], x)
    else |ks|
  }

  /** Where the scan from the left stops: everything before is less than `x`. */
  function LowerPos(ks: seq<int>, x: int): (pos: nat)
    ensures pos <= |ks|
    ensures forall j :: 0 <= j < pos ==> ks[j] < x
    ensures pos < |ks| ==> x <= ks[pos]
  {
    if ks == [] || x <= ks[0] then 0 else 1 + LowerPos(ks[1..], x)
  }

  /** `BTreeSearchPredecessor`, `BTreeSearchSuccessor`: the key at the far right, far left. */
  function MaxKey(m: nat, h: nat, t: Tree): int
    requires m >= 2 && Kids(m, t, h) && |t.keys| > 0
    decreases h
  {
    if h == 0 then t.keys[|t.keys| - 1] else MaxKey(m, h - 1, t.kids[|t.keys|])
  }

  function MinKey(m: nat, h: nat, t: Tree): int
    requires m >= 2 && Kids(m, t, h) && |t.keys| > 0
    decreases h
  {
    if h == 0 then t.keys[0] else MinKey(m, h - 1, t.kids[0])
  }

  /* ---------- insertion ---------- */

  /** The node with the kid that `x` goes down to split, if that kid is full; and where `x` goes down then. */
  function MakeRoom(m: nat, h: nat, t: Tree, x: int): Tree
    requires m >= 2 && h > 0 && Kids(m, t, h)
  {
    var pos := UpperPos(t.keys, x);
    if |t.kids[pos].keys| == 2 * m - 1 then
      SplitShape(m, h, t, pos);
      SplitChild(m, t, pos)
    else
      t
  }

  function RoomPos(m: nat, h: nat, t: Tree, x: int): nat
    requires m >= 2 && h > 0 && Kids(m, t, h)
  {
    var pos := UpperPos(t.keys, x);
    if |t.kids[pos].keys| == 2 * m - 1 && x > t.kids[pos].keys[m - 1] then pos + 1 else pos
  }

  /** `BTreeInsertNonfull`: never entered with a full node. */
  function InsertNonfull(m: nat, h: nat, t: Tree, x: int): Tree
    requires m >= 2 && Kids(m, t, h) && |t.keys| < 2 * m - 1
    decreases h
  {
    if h == 0 then
      var pos := UpperPos(t.keys, x);
      Node(t.keys[..pos] + [x] + t.keys[pos..], [])
    else
      MakeRoomShape(m, h, t, x);
      var t1, pos := MakeRoom(m, h, t, x), RoomPos(m, h, t, x);
      ReplaceKid(t1, pos, InsertNonfull(m, h - 1, t1.kids[pos], x))
  }

  /** `BTreeInsert`, and the height afterwards: the tree grows only at a full root. */
  function Insert(m: nat, h: nat, t: Tree, x: int): Tree
    requires m >= 2 && Root(m, t, h)
  {
    hide Kids;
    if |t.keys| == 2 * m - 1 then
      GrowRoot(m, h, t);
      InsertNonfull(m, h + 1, SplitChild(m, Node([], [t]), 0), x)
    else
      InsertNonfull(m, h, t, x)
  }

  function InsertHeight(m: nat, h: nat, t: Tree): nat {
    if |t.keys| == 2 * m - 1 then h + 1 else h
  }

  /* ---------- deletion ---------- */

  /** What `BTreeDeleteNonone` may be entered with: at least `m` keys, or the root when it cannot be emptied. */
  ghost predicate Ready(m: nat, h: nat, t: Tree) {
    Kids(m, t, h) && |t.keys| <= 2 * m - 1 &&
    (h == 0 || |t.keys| >= m || |t.keys| >= 2
     || (|t.keys| == 1 && (|t.kids[0].keys| >= m || |t.kids[1].keys| >= m)))
  }

  /** Case 3: the node with kid `pos` brought to at least `m` keys, and where that kid is then. */
  function Refill(m: nat, h: nat, t: Tree, pos: nat): Tree
    requires m >= 2 && h > 0 && Ready(m, h, t) && pos <= |t.keys|
  {
    if |t.kids[pos].keys| != m - 1 then t
    else if pos > 0 && |t.kids[pos - 1].keys| > m - 1 then ShiftRight(t, pos - 1)
    else if pos < |t.keys| && |t.kids[pos + 1].keys| > m - 1 then ShiftLeft(t, pos)
    else if pos > 0 then MergeChild(t, pos - 1)
    else MergeChild(t, pos)
  }

  function RefillPos(m: nat, h: nat, t: Tree, pos: nat): nat
    requires m >= 2 && h > 0 && Ready(m, h, t) && pos <= |t.keys|
  {
    if |t.kids[pos].keys| == m - 1 && pos > 0 && |t.kids[pos - 1].keys| == m - 1
       && (pos == |t.keys| || |t.kids[pos + 1].keys| == m - 1) then pos - 1
    else pos
  }

  /** `BTreeDeleteNonone`. */
  function DeleteFrom(m: nat, h: nat, t: Tree, x: int): Tree
    requires m >= 2 && Ready(m, h, t)
    decreases h
  {
    var i := LowerPos(t.keys, x);
    if h == 0 then
      if i < |t.keys| && t.keys[i] == x then Node(t.keys[..i] + t.keys[i + 1..], []) else t
    else if i < |t.keys| && t.keys[i] == x then
      var y, z := t.kids[i], t.kids[i + 1];
      if |y.keys| > m - 1 then
        var pre := MaxKey(m, h - 1, y);
        Node(t.keys[i := pre], t.kids[i := DeleteFrom(m, h - 1, y, pre)])
      else if |z.keys| > m - 1 then
        var next := MinKey(m, h - 1, z);
        Node(t.keys[i := next], t.kids[i + 1 := DeleteFrom(m, h - 1, z, next)])
      else
        MergeShape(m, h, t, i);
        var t1 := MergeChild(t, i);
        ReplaceKid(t1, i, DeleteFrom(m, h - 1, t1.kids[i], x))
    else
      RefillShape(m, h, t, i);
      var t1, i1 := Refill(m, h, t, i), RefillPos(m, h, t, i);
      ReplaceKid(t1, i1, DeleteFrom(m, h - 1, t1.kids[i1], x))
  }

  /** A root with one key over two minimal kids. */
  predicate Collapses(m: nat, h: nat, t: Tree) {
    && h > 0 && |t.keys| == 1 && |t.kids| == 2
    && |t.kids[0].keys| == m - 1 && |t.kids[1].keys| == m - 1
  }

  /** `BTreeDelete`, and the height afterwards: the tree shrinks only by merging the kids of a collapsing root. */
  function Delete(m: nat, h: nat, t: Tree, x: int): Tree
    requires m >= 2 && Root(m, t, h)
  {
    if Collapses(m, h, t) then
      MergeShape(m, h, t, 0);
      DeleteFrom(m, h - 1, Join(t.kids[0], t.keys[0], t.kids[1]), x)
    else
      RootReady(m, h, t);
      DeleteFrom(m, h, t, x)
  }

  function DeleteHeight(m: nat, h: nat, t: Tree): nat {
    if Collapses(m, h, t) then h - 1 else h
  }

  /* ---------- shape is kept ---------- */

  lemma SplitShape(m: nat, h: nat, t: Tree, pos: nat)
    requires m >= 2 && h > 0 && |t.kids| == |t.keys| + 1 && pos < |t.kids| && |t.kids[pos].keys| == 2 * m - 1
    requires forall i :: 0 <= i < |t.kids| ==> Sub(m, t.kids[i], h - 1)
    ensures t.kids[pos].kids == [] || |t.kids[pos].kids| == 2 * m
    ensures var t1 := SplitChild(m, t, pos);
      Kids(m, t1, h) && |t1.kids[pos].keys| == m - 1 && |t1.kids[pos + 1].keys| == m - 1 && |t1.keys| == |t.keys| + 1
  {
    var c := t.kids[pos];
    assert Sub(m, c, h - 1);
    assert Sub(m, LowerHalf(m, c), h - 1) && Sub(m, UpperHalf(m, c), h - 1);
  }

  lemma MakeRoomShape(m: nat, h: nat, t: Tree, x: int)
    requires m >= 2 && h > 0 && Kids(m, t, h)
    ensures var t1, pos := MakeRoom(m, h, t, x), RoomPos(m, h, t, x);
      && Kids(m, t1, h) && |t.keys| <= |t1.keys| <= |t.keys| + 1
      && pos < |t1.kids| && |t1.kids[pos].keys| < 2 * m - 1
  {
    var pos := UpperPos(t.keys, x);
    if |t.kids[pos].keys| == 2 * m - 1 {
      SplitShape(m, h, t, pos);
    }
  }

  lemma MergeShape(m: nat, h: nat, t: Tree, pos: nat)
    requires m >= 2 && h > 0 && Kids(m, t, h) && pos < |t.keys|
    requires |t.kids[pos].keys| == m - 1 && |t.kids[pos + 1].keys| == m - 1
    ensures var t1 := MergeChild(t, pos);
      Kids(m, t1, h) && |t1.kids[pos].keys| == 2 * m - 1 && |t1.keys| == |t.keys| - 1
  {
    var y, z := t.kids[pos], t.kids[pos + 1];
    assert Sub(m, y, h - 1) && Sub(m, z, h - 1);
    assert Sub(m, Join(y, t.keys[pos], z), h - 1);
  }

  lemma ShiftShape(m: nat, h: nat, t: Tree, pos: nat)
    requires m >= 2 && h > 0 && Kids(m, t, h) && pos < |t.keys|
    ensures |t.kids[pos].keys| > m - 1 && |t.kids[pos + 1].keys| == m - 1 ==>
      var t1 := ShiftRight(t, pos); Kids(m, t1, h) && |t1.kids[pos + 1].keys| == m && |t1.keys| == |t.keys|
    ensures |t.kids[pos].keys| == m - 1 && |t.kids[pos + 1].keys| > m - 1 ==>
      var t1 := ShiftLeft(t, pos); Kids(m, t1, h) && |t1.kids[pos].keys| == m && |t1.keys| == |t.keys|
  {
    var y, z := t.kids[pos], t.kids[pos + 1];
    assert Sub(m, y, h - 1) && Sub(m, z, h - 1);
    if |y.keys| > m - 1 && |z.keys| == m - 1 {
      assert Sub(m, DropLast(y), h - 1) && Sub(m, Join(Rightmost(y), t.keys[pos], z), h - 1);
    }
    if |y.keys| == m - 1 && |z.keys| > m - 1 {
      assert Sub(m, Join(y, t.keys[pos], Leftmost(z)), h - 1) && Sub(m, DropFirst(z), h - 1);
    }
  }

  lemma RootReady(m: nat, h: nat, t: Tree)
    requires m >= 2 && Root(m, t, h) && !Collapses(m, h, t)
    ensures Ready(m, h, t)
  {
    if h > 0 {
      KidAt(m, h, t, 0);
      KidAt(m, h, t, 1);
    }
  }

  /** The cases of `Refill`. */
  lemma RefillIs(m: nat, h: nat, t: Tree, pos: nat)
    requires m >= 2 && h > 0 && Ready(m, h, t) && pos <= |t.keys|
    ensures |t.kids| == |t.keys| + 1 && |t.keys| > 0 && m - 1 <= |t.kids[pos].keys|
    ensures pos > 0 ==> m - 1 <= |t.kids[pos - 1].keys|
    ensures pos < |t.keys| ==> m - 1 <= |t.kids[pos + 1].keys|
    ensures var r, i, left, right := Refill(m, h, t, pos), RefillPos(m, h, t, pos),
        pos > 0 && |t.kids[pos - 1].keys| > m - 1, pos < |t.keys| && |t.kids[pos + 1].keys| > m - 1;
      if |t.kids[pos].keys| != m - 1 then r == t && i == pos
      else if left then r == ShiftRight(t, pos - 1) && i == pos
      else if right then r == ShiftLeft(t, pos) && i == pos
      else if pos > 0 then r == MergeChild(t, pos - 1) && i == pos - 1
      else r == MergeChild(t, pos) && i == pos
  {
    KidAt(m, h, t, pos);
    if pos > 0 {
      KidAt(m, h, t, pos - 1);
    }
    if pos < |t.keys| {
      KidAt(m, h, t, pos + 1);
    }
  }

  lemma ReadyParts(m: nat, h: nat, t: Tree)
    requires m >= 2 && h > 0 && Ready(m, h, t)
    ensures Kids(m, t, h) && |t.kids| == |t.keys| + 1 && |t.keys| >= 1
    ensures |t.keys| == 1 ==> |t.kids[0].keys| >= m || |t.kids[1].keys| >= m
  {
    KidAt(m, h, t, 0);
  }

  lemma RefillShape(m: nat, h: nat, t: Tree, pos: nat)
    requires m >= 2 && h > 0 && Ready(m, h, t) && pos <= |t.keys|
    ensures var t1, pos1 := Refill(m, h, t, pos), RefillPos(m, h, t, pos);
      && Kids(m, t1, h) && |t.keys| - 1 <= |t1.keys| <= |t.keys| && |t1.keys| >= 1
      && pos1 < |t1.kids| && m <= |t1.kids[pos1].keys| <= 2 * m - 1
  {
    hide *;
    ReadyParts(m, h, t);
    RefillIs(m, h, t, pos);
    var t1, pos1 := Refill(m, h, t, pos), RefillPos(m, h, t, pos);
    if |t.kids[pos].keys| != m - 1 {
    } else if pos > 0 && |t.kids[pos - 1].keys| > m - 1 {
      ShiftShape(m, h, t, pos - 1);
    } else if pos < |t.keys| && |t.kids[pos + 1].keys| > m - 1 {
      ShiftShape(m, h, t, pos);
    } else if pos > 0 {
      MergeShape(m, h, t, pos - 1);
    } else {
      MergeShape(m, h, t, pos);
    }
    Arity(m, h, t1);
    KidAt(m, h, t1, pos1);
  }

  lemma Arity(m: nat, h: nat, t: Tree)
    requires h > 0 && Kids(m, t, h)
    ensures |t.kids| == |t.keys| + 1
  {
  }

  /* ---------- restructuring keeps the in-order list ---------- */

  lemma TailOfAppend<T>(a: seq<T>, b: seq<T>)
    requires a != []
    ensures (a + b)[0] == a[0] && (a + b)[1..] == a[1..] + b
  {
  }

  lemma {:induction false} AfterAppend(ks: seq<int>, cs: seq<Tree>, ks': seq<int>, cs': seq<Tree>)
    requires |ks| == |cs| && |ks'| == |cs'|
    ensures After(ks + ks', cs + cs') == After(ks, cs) + After(ks', cs')
  {
    hide InOrder;
    if ks == [] {
      assert ks + ks' == ks' && cs + cs' == cs';
    } else {
      TailOfAppend(ks, ks');
      TailOfAppend(cs, cs');
      AfterAppend(ks[1..], cs[1..], ks', cs');
      var first := [ks[0]] + InOrder(cs[0]);
      assert first + (After(ks[1..], cs[1..]) + After(ks', cs')) == (first + After(ks[1..], cs[1..])) + After(ks', cs');
    }
  }

  /** Two neighbours read one after the other are the joined node. */
  lemma JoinInOrder(y: Tree, k: int, z: Tree)
    requires (y.kids == [] && z.kids == []) || (|y.kids| == |y.keys| + 1 && |z.kids| == |z.keys| + 1)
    ensures InOrder(Join(y, k, z)) == InOrder(y) + [k] + InOrder(z)
  {
    if y.kids != [] {
      var t, ks := Join(y, k, z), [k] + z.keys;
      assert t.kids[1..] == y.kids[1..] + z.kids && t.keys == y.keys + ks && ks[1..] == z.keys;
      calc {
        InOrder(t);
      ==
        InOrder(y.kids[0]) + After(y.keys + ks, y.kids[1..] + z.kids);
      ==  { AfterAppend(y.keys, y.kids[1..], ks, z.kids); }
        InOrder(y.kids[0]) + (After(y.keys, y.kids[1..]) + After(ks, z.kids));
      ==  { AfterNode(k, z); }
        InOrder(y.kids[0]) + (After(y.keys, y.kids[1..]) + ([k] + InOrder(z)));
      ==  { Regroup(InOrder(y.kids[0]), After(y.keys, y.kids[1..]), [k], InOrder(z)); }
        (InOrder(y.kids[0]) + After(y.keys, y.kids[1..])) + [k] + InOrder(z);
      }
    }
  }

  lemma AfterNode(k: int, z: Tree)
    requires |z.kids| == |z.keys| + 1
    ensures After([k] + z.keys, z.kids) == [k] + InOrder(z)
  {
    assert ([k] + z.keys)[1..] == z.keys;
    Regroup([k], InOrder(z.kids[0]), After(z.keys, z.kids[1..]), []);
  }

  lemma Regroup(a: seq<int>, b: seq<int>, c: seq<int>, d: seq<int>)
    ensures a + (b + (c + d)) == a + b + c + d
    ensures a + (b + c) == a + b + c
  {
  }

  lemma InOrderHead(t: Tree)
    requires |t.kids| == |t.keys| + 1
    ensures InOrder(t) == InOrder(t.kids[0]) + After(t.keys, t.kids[1..])
  {
  }

  lemma BeforeHead(ks: seq<int>, cs: seq<Tree>)
    requires |ks| == |cs| > 0
    ensures Before(ks, cs) == InOrder(cs[0]) + [ks[0]] + Before(ks[1..], cs[1..])
  {
  }

  /** A tree read around its kid `i`. */
  lemma {:induction false} Around(t: Tree, i: nat)
    requires |t.kids| == |t.keys| + 1 && i < |t.kids|
    ensures InOrder(t) == Before(t.keys[..i], t.kids[..i]) + InOrder(t.kids[i]) + After(t.keys[i..], t.kids[i + 1..])
    decreases i
  {
    InOrderHead(t);
    if i > 0 {
      hide InOrder;
      hide Before;
      hide After;
      var rest := Node(t.keys[1..], t.kids[1..]);
      Around(rest, i - 1);
      assert t.keys[..i][1..] == rest.keys[..i - 1] && t.kids[..i][1..] == rest.kids[..i - 1];
      assert rest.keys[i - 1..] == t.keys[i..] && rest.kids[i..] == t.kids[i + 1..];
      BeforeHead(t.keys[..i], t.kids[..i]);
      assert [t.keys[0]] + rest.keys == t.keys;
      AfterNode(t.keys[0], rest);
      AroundStep(InOrder(t.kids[0]), [t.keys[0]], Before(rest.keys[..i - 1], rest.kids[..i - 1]),
                 InOrder(t.kids[i]), After(t.keys[i..], t.kids[i + 1..]));
    } else {
      assert t.keys[0..] == t.keys;
    }
  }

  lemma AroundStep(a: seq<int>, k: seq<int>, b: seq<int>, c: seq<int>, d: seq<int>)
    ensures a + (k + (b + c + d)) == a + k + b + c + d
  {
  }

  /** A tree read around the kids `i` and `i + 1` and the key between them. */
  lemma AroundPair(t: Tree, i: nat)
    requires |t.kids| == |t.keys| + 1 && i < |t.keys|
    ensures InOrder(t) ==
      Before(t.keys[..i], t.kids[..i])
      + (InOrder(t.kids[i]) + [t.keys[i]] + InOrder(t.kids[i + 1]))
      + After(t.keys[i + 1..], t.kids[i + 2..])
  {
    hide InOrder;
    Around(t, i);
    var ks, cs := t.keys[i..], t.kids[i + 1..];
    assert ks[1..] == t.keys[i + 1..] && cs[1..] == t.kids[i + 2..];
    assert After(ks, cs) == [ks[0]] + InOrder(cs[0]) + After(ks[1..], cs[1..]);
  }

  lemma SplitInOrder(m: nat, h: nat, t: Tree, pos: nat)
    requires m >= 2 && h > 0 && |t.kids| == |t.keys| + 1 && pos < |t.kids| && |t.kids[pos].keys| == 2 * m - 1
    requires Kids(m, t.kids[pos], h - 1)
    ensures InOrder(SplitChild(m, t, pos)) == InOrder(t)
  {
    hide InOrder;
    var c, t1 := t.kids[pos], SplitChild(m, t, pos);
    var lower, upper := LowerHalf(m, c), UpperHalf(m, c);
    assert c == Join(lower, c.keys[m - 1], upper);
    JoinInOrder(lower, c.keys[m - 1], upper);
    Around(t, pos);
    AroundPair(t1, pos);
    assert t1.keys[..pos] == t.keys[..pos] && t1.kids[..pos] == t.kids[..pos];
    assert t1.keys[pos + 1..] == t.keys[pos..] && t1.kids[pos + 2..] == t.kids[pos + 1..];
  }

  lemma MergeInOrder(m: nat, h: nat, t: Tree, pos: nat)
    requires h > 0 && Kids(m, t, h) && pos < |t.keys|
    ensures InOrder(MergeChild(t, pos)) == InOrder(t)
  {
    hide InOrder;
    var t1 := MergeChild(t, pos);
    JoinInOrder(t.kids[pos], t.keys[pos], t.kids[pos + 1]);
    AroundPair(t, pos);
    Around(t1, pos);
    assert t1.keys[..pos] == t.keys[..pos] && t1.kids[..pos] == t.kids[..pos];
    assert t1.keys[pos..] == t.keys[pos + 1..] && t1.kids[pos + 1..] == t.kids[pos + 2..];
  }

  lemma ReplacePairInOrder(t: Tree, pos: nat, y: Tree, k: int, z: Tree)
    requires |t.kids| == |t.keys| + 1 && pos < |t.keys|
    requires InOrder(y) + [k] + InOrder(z) == InOrder(t.kids[pos]) + [t.keys[pos]] + InOrder(t.kids[pos + 1])
    ensures InOrder(ReplacePair(t, pos, y, k, z)) == InOrder(t)
  {
    var t1 := ReplacePair(t, pos, y, k, z);
    AroundPair(t, pos);
    AroundPair(t1, pos);
    assert t1.keys[..pos] == t.keys[..pos] && t1.kids[..pos] == t.kids[..pos];
    assert t1.keys[pos + 1..] == t.keys[pos + 1..] && t1.kids[pos + 2..] == t.kids[pos + 2..];
  }

  lemma ShiftRightInOrder(m: nat, h: nat, t: Tree, pos: nat)
    requires h > 0 && Kids(m, t, h) && pos < |t.keys| && |t.kids[pos].keys| > 0
    ensures InOrder(ShiftRight(t, pos)) == InOrder(t)
  {
    hide InOrder;
    var y, z := t.kids[pos], t.kids[pos + 1];
    var up, edge := y.keys[|y.keys| - 1], Rightmost(y);
    assert InOrder(y) == InOrder(DropLast(y)) + [up] + InOrder(edge) by {
      assert y == Join(DropLast(y), up, edge);
      JoinInOrder(DropLast(y), up, edge);
    }
    JoinInOrder(edge, t.keys[pos], z);
    ReplacePairInOrder(t, pos, DropLast(y), up, Join(edge, t.keys[pos], z));
  }

  lemma ShiftLeftInOrder(m: nat, h: nat, t: Tree, pos: nat)
    requires h > 0 && Kids(m, t, h) && pos < |t.keys| && |t.kids[pos + 1].keys| > 0
    ensures InOrder(ShiftLeft(t, pos)) == InOrder(t)
  {
    hide InOrder;
    var y, z := t.kids[pos], t.kids[pos + 1];
    assert z == Join(Leftmost(z), z.keys[0], DropFirst(z));
    JoinInOrder(Leftmost(z), z.keys[0], DropFirst(z));
    JoinInOrder(y, t.keys[pos], Leftmost(z));
    ReplacePairInOrder(t, pos, Join(y, t.keys[pos], Leftmost(z)), z.keys[0], DropFirst(z));
  }

  lemma RefillInOrder(m: nat, h: nat, t: Tree, pos: nat)
    requires m >= 2 && h > 0 && Ready(m, h, t) && pos <= |t.keys|
    ensures InOrder(Refill(m, h, t, pos)) == InOrder(t)
  {
    hide InOrder;
    if |t.kids[pos].keys| == m - 1 {
      if pos > 0 && |t.kids[pos - 1].keys| > m - 1 {
        ShiftRightInOrder(m, h, t, pos - 1);
      } else if pos < |t.keys| && |t.kids[pos + 1].keys| > m - 1 {
        ShiftLeftInOrder(m, h, t, pos);
      } else {
        MergeInOrder(m, h, t, if pos > 0 then pos - 1 else pos);
      }
    }
  }

  /* ---------- sequences around a kid ---------- */

  lemma {:induction false} BeforeLast(ks: seq<int>, cs: seq<Tree>)
    requires |ks| == |cs| > 0
    ensures var b := Before(ks, cs); |b| > 0 && b[|b| - 1] == ks[|ks| - 1]
  {
    if |ks| > 1 {
      BeforeLast(ks[1..], cs[1..]);
    }
  }

  lemma SortedAppend(s: seq<int>, s': seq<int>)
    ensures Sorted(s + s') <==> Sorted(s) && Sorted(s') && Ordered(s, s')
  {
    var w := s + s';
    assert forall i :: 0 <= i < |s| ==> w[i] == s[i];
    assert forall i :: 0 <= i < |s'| ==> w[|s| + i] == s'[i];
  }

  lemma SortedMiddle(b: seq<int>, s: seq<int>, a: seq<int>)
    ensures Sorted(b + s + a) <==>
      Sorted(b) && Sorted(s) && Sorted(a) && Ordered(b, s) && Ordered(s, a) && Ordered(b, a)
  {
    SortedAppend(b + s, a);
    SortedAppend(b, s);
    assert forall i :: 0 <= i < |b| ==> (b + s)[i] == b[i];
    assert forall i :: 0 <= i < |s| ==> (b + s)[|b| + i] == s[i];
  }

  /** Putting `x` into the middle part puts it into the whole. */
  lemma InsertedWithin(b: seq<int>, s: seq<int>, s': seq<int>, a: seq<int>, x: int)
    requires Inserted(s, s', x)
    ensures Inserted(b + s + a, b + s' + a, x)
  {
    var i :| InsertedAt(s, s', x, i);
    assert InsertedAt(b + s + a, b + s' + a, x, |b| + i);
  }

  lemma RemovedHere(a: seq<int>, x: int, b: seq<int>)
    ensures Removed(a + [x] + b, a + b, x)
  {
    assert RemovedAt(a + [x] + b, a + b, x, |a|);
  }

  lemma RemovedWithin(b: seq<int>, s: seq<int>, s': seq<int>, a: seq<int>, x: int)
    requires Removed(s, s', x)
    ensures Removed(b + s + a, b + s' + a, x)
  {
    var i :| RemovedAt(s, s', x, i);
    assert RemovedAt(b + s + a, b + s' + a, x, |b| + i);
  }

  lemma SortedAround(b: seq<int>, s: seq<int>, s': seq<int>, a: seq<int>, x: int)
    requires Sorted(b + s + a) && Sorted(s') && Inserted(s, s', x)
    requires Ordered(b, [x]) && Ordered([x], a)
    ensures Sorted(b + s' + a)
  {
    SortedMiddle(b, s, a);
    SortedMiddle(b, s', a);
    assert forall i :: 0 <= i < |b| ==> b[i] <= [x][0];
    assert forall i :: 0 <= i < |a| ==> [x][0] <= a[i];
  }

  lemma RemovedSorted(s: seq<int>, s': seq<int>, x: int)
    requires Sorted(s) && Removed(s, s', x)
    ensures Sorted(s')
  {
  }

  /** What lies before and after kid `i` is bounded by the keys next to it. */
  lemma Bounds(t: Tree, i: nat)
    requires |t.kids| == |t.keys| + 1 && i < |t.kids| && Sorted(InOrder(t))
    ensures i > 0 ==> Ordered(Before(t.keys[..i], t.kids[..i]), [t.keys[i - 1]])
    ensures i < |t.keys| ==> Ordered([t.keys[i]], After(t.keys[i..], t.kids[i + 1..]))
    ensures i == 0 ==> Before(t.keys[..i], t.kids[..i]) == []
    ensures i == |t.keys| ==> After(t.keys[i..], t.kids[i + 1..]) == []
  {
    Around(t, i);
    var b, a := Before(t.keys[..i], t.kids[..i]), After(t.keys[i..], t.kids[i + 1..]);
    SortedMiddle(b, InOrder(t.kids[i]), a);
    if i > 0 {
      BeforeLast(t.keys[..i], t.kids[..i]);
    }
    if i < |t.keys| {
      assert a[0] == t.keys[i];
    }
  }

  /* ---------- insertion ---------- */

  ghost predicate InsertedOk(t: Tree, r: Tree, x: int) {
    Inserted(InOrder(t), InOrder(r), x) && Sorted(InOrder(r))
  }

  lemma InsertInKid(t: Tree, pos: nat, c: Tree, x: int)
    requires |t.kids| == |t.keys| + 1 && pos < |t.kids| && Sorted(InOrder(t))
    requires pos > 0 ==> t.keys[pos - 1] <= x
    requires pos < |t.keys| ==> x <= t.keys[pos]
    requires InsertedOk(t.kids[pos], c, x)
    ensures InsertedOk(t, ReplaceKid(t, pos, c), x)
  {
    hide InOrder;
    hide Before;
    hide After;
    var r := ReplaceKid(t, pos, c);
    var b, a := Before(t.keys[..pos], t.kids[..pos]), After(t.keys[pos..], t.kids[pos + 1..]);
    Around(t, pos);
    Around(r, pos);
    assert r.kids[..pos] == t.kids[..pos] && r.kids[pos + 1..] == t.kids[pos + 1..];
    SortedMiddle(b, InOrder(t.kids[pos]), a);
    Bounds(t, pos);
    assert pos > 0 ==> forall i :: 0 <= i < |b| ==> b[i] <= [t.keys[pos - 1]][0];
    assert pos < |t.keys| ==> forall i :: 0 <= i < |a| ==> [t.keys[pos]][0] <= a[i];
    InsertedWithin(b, InOrder(t.kids[pos]), InOrder(c), a, x);
    SortedAround(b, InOrder(t.kids[pos]), InOrder(c), a, x);
  }

  /** `BTreeInsertNonfull` keeps the depth of the leaves and the fill of every node below, and grows
      its own node by at most one key. */
  lemma {:induction false} InsertNonfullShape(m: nat, h: nat, t: Tree, x: int)
    requires m >= 2 && Kids(m, t, h) && |t.keys| < 2 * m - 1
    ensures var r := InsertNonfull(m, h, t, x); Kids(m, r, h) && |t.keys| <= |r.keys| <= |t.keys| + 1
    decreases h, 1
  {
    if h == 0 {
    } else {
      InsertBelowShape(m, h, t, x);
    }
  }

  lemma {:induction false} InsertBelowShape(m: nat, h: nat, t: Tree, x: int)
    requires m >= 2 && h > 0 && Kids(m, t, h)
    ensures var t1, pos := MakeRoom(m, h, t, x), RoomPos(m, h, t, x);
      && pos < |t1.kids| && Kids(m, t1.kids[pos], h - 1) && |t1.kids[pos].keys| < 2 * m - 1
      && |t.keys| <= |t1.keys| <= |t.keys| + 1
      && Kids(m, ReplaceKid(t1, pos, InsertNonfull(m, h - 1, t1.kids[pos], x)), h)
    decreases h, 0
  {
    hide InsertNonfull;
    MakeRoomShape(m, h, t, x);
    var t1, pos := MakeRoom(m, h, t, x), RoomPos(m, h, t, x);
    KidAt(m, h, t1, pos);
    InsertNonfullShape(m, h - 1, t1.kids[pos], x);
    ReplaceShape(m, h, t1, pos, InsertNonfull(m, h - 1, t1.kids[pos], x));
  }

  lemma KidAt(m: nat, h: nat, t: Tree, pos: nat)
    requires h > 0 && Kids(m, t, h) && pos < |t.kids|
    ensures m - 1 <= |t.kids[pos].keys| <= 2 * m - 1 && Kids(m, t.kids[pos], h - 1)
  {
  }

  lemma ReplaceShape(m: nat, h: nat, t: Tree, pos: nat, c: Tree)
    requires h > 0 && Kids(m, t, h) && pos < |t.kids|
    requires m - 1 <= |c.keys| <= 2 * m - 1 && Kids(m, c, h - 1)
    ensures Kids(m, ReplaceKid(t, pos, c), h)
  {
  }

  lemma SplitKeys(ks: seq<int>, pos: nat, k: int)
    requires pos <= |ks|
    ensures var ks' := ks[..pos] + [k] + ks[pos..];
      && ks'[pos] == k
      && (pos > 0 ==> ks'[pos - 1] == ks[pos - 1])
      && (pos < |ks| ==> ks'[pos + 1] == ks[pos])
  {
  }

  /** `x` belongs between the keys `i - 1` and `i`. */
  ghost predicate Between(ks: seq<int>, i: nat, x: int) {
    (0 < i <= |ks| ==> ks[i - 1] <= x) && (i < |ks| ==> x <= ks[i])
  }

  lemma UpperBetween(ks: seq<int>, x: int)
    ensures Between(ks, UpperPos(ks, x), x)
  {
  }

  /** What making room does when the kid is full. */
  lemma FullKid(m: nat, h: nat, t: Tree, x: int)
    requires m >= 2 && h > 0 && Kids(m, t, h)
    ensures var pos := UpperPos(t.keys, x);
      && |t.kids| == |t.keys| + 1
      && if |t.kids[pos].keys| < 2 * m - 1 then MakeRoom(m, h, t, x) == t && RoomPos(m, h, t, x) == pos
         else
           && var c := t.kids[pos];
           && Kids(m, c, h - 1) && |c.keys| == 2 * m - 1 && (c.kids == [] || |c.kids| == 2 * m)
           && MakeRoom(m, h, t, x) == SplitChild(m, t, pos)
           && RoomPos(m, h, t, x) == if x > c.keys[m - 1] then pos + 1 else pos
  {
    var pos := UpperPos(t.keys, x);
    KidAt(m, h, t, pos);
    if |t.kids[pos].keys| == 2 * m - 1 {
      SplitShape(m, h, t, pos);
    }
    hide Kids;
    hide UpperPos;
    hide SplitChild;
  }

  /** Making room changes no contents, and `x` belongs between the keys around the kid chosen. */
  lemma MakeRoomContents(m: nat, h: nat, t: Tree, x: int)
    requires m >= 2 && h > 0 && Kids(m, t, h)
    ensures InOrder(MakeRoom(m, h, t, x)) == InOrder(t)
    ensures Between(MakeRoom(m, h, t, x).keys, RoomPos(m, h, t, x), x)
  {
    hide *;
    FullKid(m, h, t, x);
    UpperBetween(t.keys, x);
    var pos := UpperPos(t.keys, x);
    if |t.kids[pos].keys| >= 2 * m - 1 {
      SplitInOrder(m, h, t, pos);
      MakeRoomKeys(m, t, x);
    }
  }

  lemma MakeRoomKeys(m: nat, t: Tree, x: int)
    requires m >= 2 && |t.kids| == |t.keys| + 1
    requires var c := t.kids[UpperPos(t.keys, x)]; |c.keys| == 2 * m - 1 && (c.kids == [] || |c.kids| == 2 * m)
    ensures var pos := UpperPos(t.keys, x);
      var t1, mid := SplitChild(m, t, pos), t.kids[pos].keys[m - 1];
      Between(t1.keys, if x > mid then pos + 1 else pos, x)
  {
    var pos := UpperPos(t.keys, x);
    SplitKeys(t.keys, pos, t.kids[pos].keys[m - 1]);
  }

  /** `BTreeInsertNonfull` adds exactly one `x` and keeps the keys in order. */
  lemma {:induction false} InsertNonfullContents(m: nat, h: nat, t: Tree, x: int)
    requires m >= 2 && Kids(m, t, h) && |t.keys| < 2 * m - 1 && Sorted(InOrder(t))
    ensures InsertedOk(t, InsertNonfull(m, h, t, x), x)
    decreases h, 1
  {
    if h == 0 {
      LeafInsert(t.keys, x);
    } else {
      InsertBelow(m, h, t, x);
    }
  }

  lemma {:induction false} InsertBelow(m: nat, h: nat, t: Tree, x: int)
    requires m >= 2 && h > 0 && Kids(m, t, h) && Sorted(InOrder(t))
    ensures var t1, pos := MakeRoom(m, h, t, x), RoomPos(m, h, t, x);
      && pos < |t1.kids| && Kids(m, t1.kids[pos], h - 1) && |t1.kids[pos].keys| < 2 * m - 1
      && InsertedOk(t, ReplaceKid(t1, pos, InsertNonfull(m, h - 1, t1.kids[pos], x)), x)
    decreases h, 0
  {
    hide InOrder;
    MakeRoomShape(m, h, t, x);
    MakeRoomContents(m, h, t, x);
    var t1, pos := MakeRoom(m, h, t, x), RoomPos(m, h, t, x);
    KidSorted(t1, pos);
    InsertNonfullContents(m, h - 1, t1.kids[pos], x);
    InsertInKid(t1, pos, InsertNonfull(m, h - 1, t1.kids[pos], x), x);
  }

  lemma LeafInsert(ks: seq<int>, x: int)
    requires Sorted(ks)
    ensures var pos := UpperPos(ks, x);
      var ks' := ks[..pos] + [x] + ks[pos..]; Sorted(ks') && Inserted(ks, ks', x)
  {
    hide UpperPos;
    var pos := UpperPos(ks, x);
    assert InsertedAt(ks, ks[..pos] + [x] + ks[pos..], x, pos);
  }

  lemma KidSorted(t: Tree, pos: nat)
    requires |t.kids| == |t.keys| + 1 && pos < |t.kids| && Sorted(InOrder(t))
    ensures Sorted(InOrder(t.kids[pos]))
  {
    Around(t, pos);
    SortedMiddle(Before(t.keys[..pos], t.kids[..pos]), InOrder(t.kids[pos]), After(t.keys[pos..], t.kids[pos + 1..]));
  }

  lemma InsertShape(m: nat, h: nat, t: Tree, x: int)
    requires m >= 2 && Root(m, t, h)
    ensures Root(m, Insert(m, h, t, x), InsertHeight(m, h, t))
  {
    hide Kids;
    hide SplitChild;
    hide InsertNonfull;
    if |t.keys| == 2 * m - 1 {
      GrowRoot(m, h, t);
      InsertNonfullShape(m, h + 1, SplitChild(m, Node([], [t]), 0), x);
    } else {
      InsertNonfullShape(m, h, t, x);
    }
  }

  lemma InsertContents(m: nat, h: nat, t: Tree, x: int)
    requires m >= 2 && Root(m, t, h) && Sorted(InOrder(t))
    ensures InsertedOk(t, Insert(m, h, t, x), x)
  {
    hide Kids;
    hide SplitChild;
    hide InOrder;
    hide InsertNonfull;
    if |t.keys| == 2 * m - 1 {
      GrowRoot(m, h, t);
      GrowInOrder(m, h, t);
      InsertNonfullContents(m, h + 1, SplitChild(m, Node([], [t]), 0), x);
    } else {
      InsertNonfullContents(m, h, t, x);
    }
  }

  /** `BTreeInsert` on any valid tree: valid again, exactly one `x` more, still in order. */
  lemma InsertCorrect(m: nat, h: nat, t: Tree, x: int)
    requires m >= 2 && Root(m, t, h) && Sorted(InOrder(t))
    ensures Root(m, Insert(m, h, t, x), InsertHeight(m, h, t)) && InsertedOk(t, Insert(m, h, t, x), x)
  {
    InsertShape(m, h, t, x);
    InsertContents(m, h, t, x);
  }

  lemma OnlyKid(t: Tree)
    ensures InOrder(Node([], [t])) == InOrder(t)
  {
  }

  lemma GrowRoot(m: nat, h: nat, t: Tree)
    requires m >= 2 && Kids(m, t, h) && |t.keys| == 2 * m - 1
    ensures t.kids == [] || |t.kids| == 2 * m
    ensures var t1 := SplitChild(m, Node([], [t]), 0); Kids(m, t1, h + 1) && |t1.keys| == 1
  {
    hide Kids;
    SplitShape(m, h + 1, Node([], [t]), 0);
  }

  lemma GrowInOrder(m: nat, h: nat, t: Tree)
    requires m >= 2 && Kids(m, t, h) && |t.keys| == 2 * m - 1 && (t.kids == [] || |t.kids| == 2 * m)
    ensures InOrder(SplitChild(m, Node([], [t]), 0)) == InOrder(t)
  {
    hide InOrder;
    hide Kids;
    SplitInOrder(m, h + 1, Node([], [t]), 0);
    OnlyKid(t);
  }

  /* ---------- deletion ---------- */

  lemma {:induction false} MaxKeyLast(m: nat, h: nat, t: Tree)
    requires m >= 2 && Kids(m, t, h) && |t.keys| > 0
    ensures var s := InOrder(t); |s| > 0 && s[|s| - 1] == MaxKey(m, h, t)
    decreases h
  {
    if h == 0 {
    } else {
      MaxKeyLast(m, h - 1, t.kids[|t.keys|]);
      Around(t, |t.keys|);
    }
  }

  lemma {:induction false} MinKeyFirst(m: nat, h: nat, t: Tree)
    requires m >= 2 && Kids(m, t, h) && |t.keys| > 0
    ensures var s := InOrder(t); |s| > 0 && s[0] == MinKey(m, h, t)
    decreases h
  {
    if h == 0 {
    } else {
      MinKeyFirst(m, h - 1, t.kids[0]);
    }
  }

  /** Taking any copy of the greatest element out of a sorted list leaves all but the last. */
  lemma RemovedLast(s: seq<int>, s': seq<int>)
    requires Sorted(s) && |s| > 0 && Removed(s, s', s[|s| - 1])
    ensures s == s' + [s[|s| - 1]]
  {
  }

  lemma RemovedFirst(s: seq<int>, s': seq<int>)
    requires Sorted(s) && |s| > 0 && Removed(s, s', s[0])
    ensures s == [s[0]] + s'
  {
    var i :| RemovedAt(s, s', s[0], i);
    assert forall j :: 0 <= j <= i ==> s[j] == s[0];
  }

  lemma RemoveInKid(t: Tree, pos: nat, c: Tree, x: int)
    requires |t.kids| == |t.keys| + 1 && pos < |t.kids|
    requires Removed(InOrder(t.kids[pos]), InOrder(c), x)
    ensures Removed(InOrder(t), InOrder(ReplaceKid(t, pos, c)), x)
  {
    var r := ReplaceKid(t, pos, c);
    Around(t, pos);
    Around(r, pos);
    assert r.kids[..pos] == t.kids[..pos] && r.kids[pos + 1..] == t.kids[pos + 1..];
    RemovedWithin(Before(t.keys[..pos], t.kids[..pos]), InOrder(t.kids[pos]), InOrder(c),
        After(t.keys[pos..], t.kids[pos + 1..]), x);
  }

  /** A key that the scan does not meet in the node lies in the kid where the scan stops. */
  lemma Descend(t: Tree, x: int)
    requires |t.kids| == |t.keys| + 1 && Sorted(InOrder(t)) && x in InOrder(t)
    ensures var i := LowerPos(t.keys, x); (i == |t.keys| || t.keys[i] != x) ==> x in InOrder(t.kids[i])
  {
    var i := LowerPos(t.keys, x);
    Around(t, i);
    Bounds(t, i);
    var b, a := Before(t.keys[..i], t.kids[..i]), After(t.keys[i..], t.kids[i + 1..]);
    assert i > 0 ==> forall j :: 0 <= j < |b| ==> b[j] <= [t.keys[i - 1]][0];
    assert i < |t.keys| ==> forall j :: 0 <= j < |a| ==> [t.keys[i]][0] <= a[j];
  }

  lemma RemoveDown(t: Tree, t1: Tree, pos: nat, c: Tree, x: int)
    requires |t1.kids| == |t1.keys| + 1 && pos < |t1.kids| && InOrder(t1) == InOrder(t)
    requires Removed(InOrder(t1.kids[pos]), InOrder(c), x)
    ensures Removed(InOrder(t), InOrder(ReplaceKid(t1, pos, c)), x)
  {
    RemoveInKid(t1, pos, c, x);
  }

  /** After a merge around the key `x`, or a refill of the kid it lies in, `x` lies in the kid entered. */
  lemma MergedKid(m: nat, h: nat, t: Tree, pos: nat)
    requires m >= 2 && h > 0 && Kids(m, t, h) && pos < |t.keys|
    ensures t.keys[pos] in InOrder(MergeChild(t, pos).kids[pos])
  {
    JoinInOrder(t.kids[pos], t.keys[pos], t.kids[pos + 1]);
  }

  lemma JoinKeepsKeys(y: Tree, k: int, z: Tree, x: int)
    requires (y.kids == [] && z.kids == []) || (|y.kids| == |y.keys| + 1 && |z.kids| == |z.keys| + 1)
    requires x in InOrder(y) || x in InOrder(z)
    ensures x in InOrder(Join(y, k, z))
  {
    JoinInOrder(y, k, z);
  }

  lemma RefilledKid(m: nat, h: nat, t: Tree, pos: nat, x: int)
    requires m >= 2 && h > 0 && Ready(m, h, t) && pos <= |t.keys| && x in InOrder(t.kids[pos])
    ensures var t1, pos1 := Refill(m, h, t, pos), RefillPos(m, h, t, pos);
      pos1 < |t1.kids| && x in InOrder(t1.kids[pos1])
  {
    hide InOrder;
    var y := t.kids[pos];
    KidAt(m, h, t, pos);
    if pos > 0 {
      KidAt(m, h, t, pos - 1);
    }
    if pos < |t.keys| {
      KidAt(m, h, t, pos + 1);
    }
    if |y.keys| == m - 1 {
      if pos > 0 && |t.kids[pos - 1].keys| > m - 1 {
        JoinKeepsKeys(Rightmost(t.kids[pos - 1]), t.keys[pos - 1], y, x);
      } else if pos < |t.keys| && |t.kids[pos + 1].keys| > m - 1 {
        JoinKeepsKeys(y, t.keys[pos], Leftmost(t.kids[pos + 1]), x);
      } else if pos > 0 {
        JoinKeepsKeys(t.kids[pos - 1], t.keys[pos - 1], y, x);
      } else {
        JoinKeepsKeys(y, t.keys[pos], t.kids[pos + 1], x);
      }
    }
  }

  /** Replacing the key `i` by the greatest key below its left, and taking that one out there. */
  lemma RemoveByPredecessor(m: nat, h: nat, t: Tree, i: nat, c: Tree)
    requires m >= 2 && h > 0 && Kids(m, t, h) && i < |t.keys| && Sorted(InOrder(t)) && |t.kids[i].keys| > 0
    requires Removed(InOrder(t.kids[i]), InOrder(c), MaxKey(m, h - 1, t.kids[i]))
    ensures Removed(InOrder(t), InOrder(Node(t.keys[i := MaxKey(m, h - 1, t.kids[i])], t.kids[i := c])), t.keys[i])
  {
    hide InOrder;
    hide MaxKey;
    hide Before;
    hide After;
    KidAt(m, h, t, i);
    assert |t.kids| == |t.keys| + 1;
    hide *;
    var y, z, pre := t.kids[i], t.kids[i + 1], MaxKey(m, h - 1, t.kids[i]);
    var r := Node(t.keys[i := pre], t.kids[i := c]);
    AroundPair(t, i);
    AroundPair(r, i);
    assert r.keys[..i] == t.keys[..i] && r.kids[..i] == t.kids[..i];
    assert r.keys[i + 1..] == t.keys[i + 1..] && r.kids[i + 2..] == t.kids[i + 2..];
    KidSorted(t, i);
    MaxKeyLast(m, h - 1, y);
    RemovedLast(InOrder(y), InOrder(c));
    var s, s' := InOrder(y) + [t.keys[i]] + InOrder(z), InOrder(c) + [pre] + InOrder(z);
    RemovedHere(InOrder(y), t.keys[i], InOrder(z));
    RemovedWithin(Before(t.keys[..i], t.kids[..i]), s, s', After(t.keys[i + 1..], t.kids[i + 2..]), t.keys[i]);
  }

  lemma RemoveBySuccessor(m: nat, h: nat, t: Tree, i: nat, c: Tree)
    requires m >= 2 && h > 0 && Kids(m, t, h) && i < |t.keys| && Sorted(InOrder(t)) && |t.kids[i + 1].keys| > 0
    requires Removed(InOrder(t.kids[i + 1]), InOrder(c), MinKey(m, h - 1, t.kids[i + 1]))
    ensures Removed(InOrder(t), InOrder(Node(t.keys[i := MinKey(m, h - 1, t.kids[i + 1])], t.kids[i + 1 := c])),
        t.keys[i])
  {
    hide InOrder;
    hide MinKey;
    hide Before;
    hide After;
    KidAt(m, h, t, i + 1);
    assert |t.kids| == |t.keys| + 1;
    hide *;
    var y, z, next := t.kids[i], t.kids[i + 1], MinKey(m, h - 1, t.kids[i + 1]);
    var r := Node(t.keys[i := next], t.kids[i + 1 := c]);
    AroundPair(t, i);
    AroundPair(r, i);
    assert r.keys[..i] == t.keys[..i] && r.kids[..i] == t.kids[..i];
    assert r.keys[i + 1..] == t.keys[i + 1..] && r.kids[i + 2..] == t.kids[i + 2..];
    KidSorted(t, i + 1);
    MinKeyFirst(m, h - 1, z);
    RemovedFirst(InOrder(z), InOrder(c));
    var s, s' := InOrder(y) + [t.keys[i]] + InOrder(z), InOrder(y) + [next] + InOrder(c);
    RemovedHere(InOrder(y), t.keys[i], [next] + InOrder(c));
    Regroup(InOrder(y), [next], InOrder(c), []);
    RemovedWithin(Before(t.keys[..i], t.kids[..i]), s, s', After(t.keys[i + 1..], t.kids[i + 2..]), t.keys[i]);
  }

  lemma ReplaceKeyShape(m: nat, h: nat, t: Tree, i: nat, k: int, pos: nat, c: Tree)
    requires h > 0 && Kids(m, t, h) && i < |t.keys| && pos < |t.kids|
    requires m - 1 <= |c.keys| <= 2 * m - 1 && Kids(m, c, h - 1)
    ensures Kids(m, Node(t.keys[i := k], t.kids[pos := c]), h)
  {
  }

  /** `BTreeDeleteNonone` keeps the depth of the leaves and the fill of every node below, and takes at
      most one key from its own node. */
  lemma {:induction false} DeleteFromShape(m: nat, h: nat, t: Tree, x: int)
    requires m >= 2 && Ready(m, h, t)
    ensures var r := DeleteFrom(m, h, t, x);
      Kids(m, r, h) && |t.keys| - 1 <= |r.keys| <= |t.keys| && (h > 0 ==> |r.keys| >= 1)
    decreases h, 2
  {
    var i := LowerPos(t.keys, x);
    if h == 0 {
    } else {
      if i < |t.keys| && t.keys[i] == x {
        DeleteHereShape(m, h, t, i, x);
      } else {
        DeleteBelowShape(m, h, t, i, x);
      }
    }
  }

  /** `t` with the greatest key below kid `i` moved up to key `i`. */
  ghost function WithPredecessor(m: nat, h: nat, t: Tree, i: nat): Tree
    requires m >= 2 && h > 0 && Ready(m, h, t) && i < |t.keys| && i < |t.kids|
    requires Kids(m, t.kids[i], h - 1) && |t.kids[i].keys| > m - 1
  {
    var pre := MaxKey(m, h - 1, t.kids[i]);
    Node(t.keys[i := pre], t.kids[i := DeleteFrom(m, h - 1, t.kids[i], pre)])
  }

  /** `t` with the least key below kid `i + 1` moved up to key `i`. */
  ghost function WithSuccessor(m: nat, h: nat, t: Tree, i: nat): Tree
    requires m >= 2 && h > 0 && Ready(m, h, t) && i < |t.keys| && i + 1 < |t.kids|
    requires Kids(m, t.kids[i + 1], h - 1) && |t.kids[i + 1].keys| > m - 1
  {
    var next := MinKey(m, h - 1, t.kids[i + 1]);
    Node(t.keys[i := next], t.kids[i + 1 := DeleteFrom(m, h - 1, t.kids[i + 1], next)])
  }

  lemma PredecessorIs(m: nat, h: nat, t: Tree, i: nat)
    requires m >= 2 && h > 0 && Ready(m, h, t) && i < |t.keys| && i < |t.kids|
    requires Kids(m, t.kids[i], h - 1) && |t.kids[i].keys| > m - 1
    ensures var pre := MaxKey(m, h - 1, t.kids[i]);
      && Ready(m, h - 1, t.kids[i])
      && WithPredecessor(m, h, t, i) == ReplaceKid(Node(t.keys[i := pre], t.kids), i,
           DeleteFrom(m, h - 1, t.kids[i], pre))
  {
  }

  lemma SuccessorIs(m: nat, h: nat, t: Tree, i: nat)
    requires m >= 2 && h > 0 && Ready(m, h, t) && i < |t.keys| && i + 1 < |t.kids|
    requires Kids(m, t.kids[i + 1], h - 1) && |t.kids[i + 1].keys| > m - 1
    ensures var next := MinKey(m, h - 1, t.kids[i + 1]);
      && Ready(m, h - 1, t.kids[i + 1])
      && WithSuccessor(m, h, t, i)
         == ReplaceKid(Node(t.keys[i := next], t.kids), i + 1, DeleteFrom(m, h - 1, t.kids[i + 1], next))
  {
  }

  /** The three cases of deleting key `i` of an inner node. */
  lemma DeleteHereIs(m: nat, h: nat, t: Tree, x: int, i: nat)
    requires m >= 2 && h > 0 && Ready(m, h, t) && i == LowerPos(t.keys, x) && i < |t.keys| && t.keys[i] == x
    requires |t.kids| == |t.keys| + 1 && Kids(m, t.kids[i], h - 1) && Kids(m, t.kids[i + 1], h - 1)
    ensures |t.kids[i].keys| > m - 1 ==> DeleteFrom(m, h, t, x) == WithPredecessor(m, h, t, i)
    ensures |t.kids[i].keys| <= m - 1 && |t.kids[i + 1].keys| > m - 1 ==>
        DeleteFrom(m, h, t, x) == WithSuccessor(m, h, t, i)
    ensures |t.kids[i].keys| == m - 1 && |t.kids[i + 1].keys| == m - 1 ==>
      var t1 := MergeChild(t, i);
      i < |t1.kids| && Ready(m, h - 1, t1.kids[i])
      && DeleteFrom(m, h, t, x) == ReplaceKid(t1, i, DeleteFrom(m, h - 1, t1.kids[i], x))
  {
    hide InOrder;
    if |t.kids[i].keys| == m - 1 && |t.kids[i + 1].keys| == m - 1 {
      MergeShape(m, h, t, i);
      KidAt(m, h, MergeChild(t, i), i);
    }
  }

  lemma {:induction false} DeleteHereShape(m: nat, h: nat, t: Tree, i: nat, x: int)
    requires m >= 2 && h > 0 && Ready(m, h, t) && i < |t.keys| && t.keys[i] == x && i == LowerPos(t.keys, x)
    ensures var r := DeleteFrom(m, h, t, x);
      Kids(m, r, h) && |t.keys| - 1 <= |r.keys| <= |t.keys| && |r.keys| >= 1
    decreases h, 1
  {
    hide MaxKey;
    hide MinKey;
    hide DeleteFrom;
    hide LowerPos;
    hide MergeChild;
    var y, z := t.kids[i], t.kids[i + 1];
    KidAt(m, h, t, i);
    KidAt(m, h, t, i + 1);
    DeleteHereIs(m, h, t, x, i);
    if |y.keys| > m - 1 {
      var pre := MaxKey(m, h - 1, y);
      DeleteFromShape(m, h - 1, y, pre);
      ReplaceKeyShape(m, h, t, i, pre, i, DeleteFrom(m, h - 1, y, pre));
    } else if |z.keys| > m - 1 {
      var next := MinKey(m, h - 1, z);
      DeleteFromShape(m, h - 1, z, next);
      ReplaceKeyShape(m, h, t, i, next, i + 1, DeleteFrom(m, h - 1, z, next));
    } else {
      DeleteMergedShape(m, h, t, i, x);
    }
  }

  lemma {:induction false} DeleteMergedShape(m: nat, h: nat, t: Tree, i: nat, x: int)
    requires m >= 2 && h > 0 && Ready(m, h, t) && i < |t.keys|
    requires |t.kids[i].keys| == m - 1 && |t.kids[i + 1].keys| == m - 1
    ensures var t1 := MergeChild(t, i);
      && Ready(m, h - 1, t1.kids[i]) && |t1.keys| == |t.keys| - 1 >= 1
      && Kids(m, ReplaceKid(t1, i, DeleteFrom(m, h - 1, t1.kids[i], x)), h)
    decreases h, 0
  {
    var t1 := MergeChild(t, i);
    MergeShape(m, h, t, i);
    KidAt(m, h, t1, i);
    DeleteFromShape(m, h - 1, t1.kids[i], x);
    ReplaceShape(m, h, t1, i, DeleteFrom(m, h - 1, t1.kids[i], x));
  }

  lemma {:induction false} DeleteBelowShape(m: nat, h: nat, t: Tree, i: nat, x: int)
    requires m >= 2 && h > 0 && Ready(m, h, t) && i <= |t.keys|
    ensures var t1, i1 := Refill(m, h, t, i), RefillPos(m, h, t, i);
      && i1 < |t1.kids| && Ready(m, h - 1, t1.kids[i1]) && |t.keys| - 1 <= |t1.keys| <= |t.keys| && |t1.keys| >= 1
      && Kids(m, ReplaceKid(t1, i1, DeleteFrom(m, h - 1, t1.kids[i1], x)), h)
    decreases h, 0
  {
    RefillShape(m, h, t, i);
    var t1, i1 := Refill(m, h, t, i), RefillPos(m, h, t, i);
    KidAt(m, h, t1, i1);
    DeleteFromShape(m, h - 1, t1.kids[i1], x);
    ReplaceShape(m, h, t1, i1, DeleteFrom(m, h - 1, t1.kids[i1], x));
  }

  /** Case 2, the key is in an inner node: by its predecessor, by its successor, by merging. */
  lemma {:induction false} DeleteByPredecessor(m: nat, h: nat, t: Tree, i: nat)
    requires m >= 2 && h > 0 && Ready(m, h, t) && Sorted(InOrder(t)) && i < |t.keys| && |t.kids[i].keys| > m - 1
    ensures var y := t.kids[i]; var pre := MaxKey(m, h - 1, y);
      Removed(InOrder(t), InOrder(Node(t.keys[i := pre], t.kids[i := DeleteFrom(m, h - 1, y, pre)])), t.keys[i])
    decreases h, 0
  {
    hide InOrder;
    hide DeleteFrom;
    hide MaxKey;
    var y := t.kids[i];
    KidAt(m, h, t, i);
    KidSorted(t, i);
    MaxKeyLast(m, h - 1, y);
    DeleteFromContents(m, h - 1, y, MaxKey(m, h - 1, y));
    RemoveByPredecessor(m, h, t, i, DeleteFrom(m, h - 1, y, MaxKey(m, h - 1, y)));
  }

  lemma {:induction false} DeleteBySuccessor(m: nat, h: nat, t: Tree, i: nat)
    requires m >= 2 && h > 0 && Ready(m, h, t) && Sorted(InOrder(t)) && i < |t.keys| && |t.kids[i + 1].keys| > m - 1
    ensures var z := t.kids[i + 1]; var next := MinKey(m, h - 1, z);
      Removed(InOrder(t), InOrder(Node(t.keys[i := next], t.kids[i + 1 := DeleteFrom(m, h - 1, z, next)])), t.keys[i])
    decreases h, 0
  {
    hide InOrder;
    hide DeleteFrom;
    hide MinKey;
    var z := t.kids[i + 1];
    KidAt(m, h, t, i + 1);
    KidSorted(t, i + 1);
    MinKeyFirst(m, h - 1, z);
    DeleteFromContents(m, h - 1, z, MinKey(m, h - 1, z));
    RemoveBySuccessor(m, h, t, i, DeleteFrom(m, h - 1, z, MinKey(m, h - 1, z)));
  }

  lemma {:induction false} DeleteByMerging(m: nat, h: nat, t: Tree, i: nat)
    requires m >= 2 && h > 0 && Ready(m, h, t) && Sorted(InOrder(t)) && i < |t.keys|
    requires |t.kids[i].keys| == m - 1 && |t.kids[i + 1].keys| == m - 1
    ensures var t1 := MergeChild(t, i);
      && Ready(m, h - 1, t1.kids[i])
      && Removed(InOrder(t), InOrder(ReplaceKid(t1, i, DeleteFrom(m, h - 1, t1.kids[i], t.keys[i]))), t.keys[i])
    decreases h, 0
  {
    var t1, x := MergeChild(t, i), t.keys[i];
    assert Ready(m, h - 1, t1.kids[i]) by {
      MergeShape(m, h, t, i);
      KidAt(m, h, t1, i);
    }
    var c := DeleteFrom(m, h - 1, t1.kids[i], x);
    assert InOrder(t1) == InOrder(t) by {
      MergeInOrder(m, h, t, i);
    }
    assert Removed(InOrder(t1.kids[i]), InOrder(c), x) by {
      MergedKid(m, h, t, i);
      KidSorted(t1, i);
      DeleteFromContents(m, h - 1, t1.kids[i], x);
    }
    RemoveDown(t, t1, i, c, x);
  }

  /** Case 3: the key is below. */
  lemma {:induction false} DeleteBelow(m: nat, h: nat, t: Tree, i: nat, x: int)
    requires m >= 2 && h > 0 && Ready(m, h, t) && Sorted(InOrder(t)) && i <= |t.keys| && x in InOrder(t.kids[i])
    ensures var t1, i1 := Refill(m, h, t, i), RefillPos(m, h, t, i);
      i1 < |t1.kids| && Ready(m, h - 1, t1.kids[i1])
      && Removed(InOrder(t), InOrder(ReplaceKid(t1, i1, DeleteFrom(m, h - 1, t1.kids[i1], x))), x)
    decreases h, 0
  {
    hide InOrder;
    hide DeleteFrom;
    RefilledKid(m, h, t, i, x);
    RefillShape(m, h, t, i);
    RefillInOrder(m, h, t, i);
    var t1, i1 := Refill(m, h, t, i), RefillPos(m, h, t, i);
    KidSorted(t1, i1);
    DeleteFromContents(m, h - 1, t1.kids[i1], x);
    RemoveDown(t, t1, i1, DeleteFrom(m, h - 1, t1.kids[i1], x), x);
  }

  lemma LeafDelete(ks: seq<int>, x: int)
    requires Sorted(ks) && x in ks
    ensures var i := LowerPos(ks, x);
      i < |ks| && ks[i] == x && Removed(ks, ks[..i] + ks[i + 1..], x)
  {
    var i := LowerPos(ks, x);
    assert RemovedAt(ks, ks[..i] + ks[i + 1..], x, i);
  }

  /** `BTreeDeleteNonone` takes out exactly one `x`. */
  lemma {:induction false} DeleteFromContents(m: nat, h: nat, t: Tree, x: int)
    requires m >= 2 && Ready(m, h, t) && Sorted(InOrder(t)) && x in InOrder(t)
    ensures Removed(InOrder(t), InOrder(DeleteFrom(m, h, t, x)), x)
    decreases h, 1
  {
    var i := LowerPos(t.keys, x);
    if h == 0 {
      LeafDelete(t.keys, x);
    } else if i < |t.keys| && t.keys[i] == x {
      KidAt(m, h, t, i);
      KidAt(m, h, t, i + 1);
      if |t.kids[i].keys| > m - 1 {
        DeleteByPredecessor(m, h, t, i);
      } else if |t.kids[i + 1].keys| > m - 1 {
        DeleteBySuccessor(m, h, t, i);
      } else {
        DeleteByMerging(m, h, t, i);
      }
    } else {
      Descend(t, x);
      DeleteBelow(m, h, t, i, x);
    }
  }

  lemma CollapseRoot(m: nat, h: nat, t: Tree)
    requires m >= 2 && Root(m, t, h) && Collapses(m, h, t)
    ensures var y := Join(t.kids[0], t.keys[0], t.kids[1]);
      Ready(m, h - 1, y) && |y.keys| == 2 * m - 1 && InOrder(y) == InOrder(t)
  {
    hide InOrder;
    MergeShape(m, h, t, 0);
    MergeInOrder(m, h, t, 0);
    var y := Join(t.kids[0], t.keys[0], t.kids[1]);
    KidAt(m, h, MergeChild(t, 0), 0);
    hide Kids;
    assert MergeChild(t, 0) == Node([], [y]);
    OnlyKid(y);
  }

  lemma DeleteShape(m: nat, h: nat, t: Tree, x: int)
    requires m >= 2 && Root(m, t, h)
    ensures Root(m, Delete(m, h, t, x), DeleteHeight(m, h, t))
  {
    if Collapses(m, h, t) {
      CollapseRoot(m, h, t);
      DeleteFromShape(m, h - 1, Join(t.kids[0], t.keys[0], t.kids[1]), x);
    } else {
      RootReady(m, h, t);
      DeleteFromShape(m, h, t, x);
    }
  }

  /** `BTreeDelete` of a key that is there, on any valid tree: valid again, exactly one `x` fewer, still
      in order. */
  lemma DeleteCorrect(m: nat, h: nat, t: Tree, x: int)
    requires m >= 2 && Root(m, t, h) && Sorted(InOrder(t)) && x in InOrder(t)
    ensures var r := Delete(m, h, t, x);
      Root(m, r, DeleteHeight(m, h, t)) && Removed(InOrder(t), InOrder(r), x) && Sorted(InOrder(r))
  {
    hide InOrder;
    hide DeleteFrom;
    DeleteShape(m, h, t, x);
    if Collapses(m, h, t) {
      CollapseRoot(m, h, t);
      DeleteFromContents(m, h - 1, Join(t.kids[0], t.keys[0], t.kids[1]), x);
    } else {
      RootReady(m, h, t);
      DeleteFromContents(m, h, t, x);
    }
    RemovedSorted(InOrder(t), InOrder(Delete(m, h, t, x)), x);
  }

  /* ---------- deletion of a key that is not there ---------- */

  /** The keys of the leaf where the search for `x` ends, as the way down has refilled it. */
  function LeafKeys(m: nat, h: nat, t: Tree, x: int): seq<int>
    requires m >= 2 && Ready(m, h, t)
    decreases h
  {
    if h == 0 then t.keys
    else
      var i := LowerPos(t.keys, x);
      RefillShape(m, h, t, i);
      LeafKeys(m, h - 1, Refill(m, h, t, i).kids[RefillPos(m, h, t, i)], x)
  }

  /** `BTreeDeleteNonone` for an `x` that is no key but is found in the slot behind the last key of that leaf:
      the last key goes. */
  function DeleteStale(m: nat, h: nat, t: Tree, x: int): Tree
    requires m >= 2 && Ready(m, h, t) && |t.keys| > 0
    decreases h
  {
    if h == 0 then Node(t.keys[..|t.keys| - 1], [])
    else
      var i := LowerPos(t.keys, x);
      RefillShape(m, h, t, i);
      var t1, i1 := Refill(m, h, t, i), RefillPos(m, h, t, i);
      ReplaceKid(t1, i1, DeleteStale(m, h - 1, t1.kids[i1], x))
  }

  lemma StaleLeaf(m: nat, t: Tree, x: int)
    requires m >= 2 && Ready(m, 0, t) && |t.keys| > 0
    ensures var r := DeleteStale(m, 0, t, x); Kids(m, r, 0) && |t.keys| - 1 <= |r.keys| <= |t.keys|
  {
  }

  lemma StaleIs(m: nat, h: nat, t: Tree, x: int)
    requires m >= 2 && h > 0 && Ready(m, h, t) && |t.keys| > 0
    ensures var i := LowerPos(t.keys, x); var t1, i1 := Refill(m, h, t, i), RefillPos(m, h, t, i);
      && Kids(m, t1, h) && |t.keys| - 1 <= |t1.keys| <= |t.keys| && |t1.keys| >= 1
      && i1 < |t1.kids| && m <= |t1.kids[i1].keys| <= 2 * m - 1 && Ready(m, h - 1, t1.kids[i1])
      && DeleteStale(m, h, t, x) == ReplaceKid(t1, i1, DeleteStale(m, h - 1, t1.kids[i1], x))
  {
    RefillShape(m, h, t, LowerPos(t.keys, x));
  }

  lemma {:induction false} StaleShape(m: nat, h: nat, t: Tree, x: int)
    requires m >= 2 && Ready(m, h, t) && |t.keys| > 0
    ensures var r := DeleteStale(m, h, t, x);
      Kids(m, r, h) && |t.keys| - 1 <= |r.keys| <= |t.keys| && (h > 0 ==> |r.keys| >= 1)
    decreases h
  {
    hide *;
    if h == 0 {
      StaleLeaf(m, t, x);
    } else {
      StaleIs(m, h, t, x);
      var i := LowerPos(t.keys, x);
      var t1, i1 := Refill(m, h, t, i), RefillPos(m, h, t, i);
      var c := DeleteStale(m, h - 1, t1.kids[i1], x);
      StaleShape(m, h - 1, t1.kids[i1], x);
      ReplaceShape(m, h, t1, i1, c);
      KidsOnly(t1, i1, c);
    }
  }

  lemma KidsOnly(t: Tree, pos: nat, c: Tree)
    requires pos < |t.kids|
    ensures ReplaceKid(t, pos, c).keys == t.keys
  {
  }

  lemma KeyInOrder(t: Tree, j: nat)
    requires (t.kids == [] || |t.kids| == |t.keys| + 1) && j < |t.keys|
    ensures t.keys[j] in InOrder(t)
  {
    if t.kids != [] {
      Around(t, j);
      var a := After(t.keys[j..], t.kids[j + 1..]);
      assert a[0] == t.keys[j];
    }
  }

  lemma KidsAround(m: nat, h: nat, t: Tree, pos: nat)
    requires m >= 2 && h > 0 && Kids(m, t, h) && pos < |t.keys|
    ensures |t.kids| == |t.keys| + 1
    ensures var y, z := t.kids[pos], t.kids[pos + 1];
      && |y.keys| > 0 && (y.kids == [] || |y.kids| == |y.keys| + 1)
      && |z.keys| > 0 && (z.kids == [] || |z.kids| == |z.keys| + 1)
  {
    KidAt(m, h, t, pos);
    KidAt(m, h, t, pos + 1);
  }

  /** The keys of neighbours lie on either side of the key between them. */
  lemma KeyBetween(m: nat, h: nat, t: Tree, pos: nat)
    requires m >= 2 && h > 0 && Kids(m, t, h) && pos < |t.keys| && Sorted(InOrder(t))
    ensures |t.kids| == |t.keys| + 1
    ensures var y, z := t.kids[pos].keys, t.kids[pos + 1].keys;
      |y| > 0 && |z| > 0 && y[|y| - 1] <= t.keys[pos] <= z[0]
  {
    hide *;
    KidsAround(m, h, t, pos);
    var y, z := t.kids[pos], t.kids[pos + 1];
    KeyInOrder(y, |y.keys| - 1);
    KeyInOrder(z, 0);
    AroundPair(t, pos);
    var b, a := Before(t.keys[..pos], t.kids[..pos]), After(t.keys[pos + 1..], t.kids[pos + 2..]);
    Middle(b, InOrder(y), t.keys[pos], InOrder(z), a, y.keys[|y.keys| - 1], z.keys[0]);
  }

  lemma Middle(b: seq<int>, s: seq<int>, k: int, s': seq<int>, a: seq<int>, y: int, z: int)
    requires Sorted(b + (s + [k] + s') + a) && y in s && z in s'
    ensures y <= k <= z
  {
    SortedMiddle(b, s + [k] + s', a);
    SortedMiddle(s, [k], s');
    var i :| 0 <= i < |s| && s[i] == y;
    var j :| 0 <= j < |s'| && s'[j] == z;
    assert s[i] <= [k][0] <= s'[j];
  }

  lemma KeyStep(t: Tree, i: nat)
    requires |t.kids| == |t.keys| + 1 && i + 1 < |t.keys| && Sorted(InOrder(t))
    ensures t.keys[i] <= t.keys[i + 1]
  {
    hide *;
    Bounds(t, i + 1);
    AroundPair(t, i + 1);
    BeforeLast(t.keys[..i + 1], t.kids[..i + 1]);
    var b := Before(t.keys[..i + 1], t.kids[..i + 1]);
    var y, z := InOrder(t.kids[i + 1]), InOrder(t.kids[i + 2]);
    var a := After(t.keys[i + 2..], t.kids[i + 3..]);
    LastBefore(b, y, t.keys[i + 1], z, a);
  }

  lemma LastBefore(b: seq<int>, s: seq<int>, k: int, s': seq<int>, a: seq<int>)
    requires Sorted(b + (s + [k] + s') + a) && b != []
    ensures b[|b| - 1] <= k
  {
    var w := b + (s + [k] + s') + a;
    assert w[|b| - 1] == b[|b| - 1] && w[|b| + |s|] == k;
  }

  /** The keys of a node after a refill of its kid `i`, and where that kid is. */
  ghost predicate RefilledKeys(ks: seq<int>, i: nat, ks': seq<int>, i': nat, l: int, r: int) {
    || (ks' == ks && i' == i)
    || (0 < i <= |ks| && ks' == ks[i - 1 := l] && i' == i && l <= ks[i - 1])
    || (i < |ks| && ks' == ks[i := r] && i' == i && ks[i] <= r)
    || (0 < i <= |ks| && ks' == ks[..i - 1] + ks[i..] && i' == i - 1)
    || (i < |ks| && ks' == ks[..i] + ks[i + 1..] && i' == i)
  }

  lemma StillBetween(ks: seq<int>, i: nat, ks': seq<int>, i': nat, l: int, r: int, x: int)
    requires RefilledKeys(ks, i, ks', i', l, r) && i == LowerPos(ks, x) && x !in ks
    requires i + 1 < |ks| ==> ks[i] <= ks[i + 1]
    ensures i' <= |ks'| && (i' > 0 ==> ks'[i' - 1] < x) && (i' < |ks'| ==> x < ks'[i'])
  {
  }

  /** What the restructuring steps do to the keys of the node. */
  lemma StepKeys(t: Tree, pos: nat)
    requires |t.kids| == |t.keys| + 1 && pos < |t.keys| && |t.kids[pos].keys| > 0 && |t.kids[pos + 1].keys| > 0
    ensures ShiftRight(t, pos).keys == t.keys[pos := t.kids[pos].keys[|t.kids[pos].keys| - 1]]
    ensures ShiftLeft(t, pos).keys == t.keys[pos := t.kids[pos + 1].keys[0]]
    ensures MergeChild(t, pos).keys == t.keys[..pos] + t.keys[pos + 1..]
  {
  }

  lemma RefillKeys(m: nat, h: nat, t: Tree, i: nat) returns (l: int, r: int)
    requires m >= 2 && h > 0 && Ready(m, h, t) && i <= |t.keys| && Sorted(InOrder(t))
    ensures RefilledKeys(t.keys, i, Refill(m, h, t, i).keys, RefillPos(m, h, t, i), l, r)
    ensures i + 1 < |t.keys| ==> t.keys[i] <= t.keys[i + 1]
  {
    hide *;
    RefillIs(m, h, t, i);
    ReadyParts(m, h, t);
    l, r := 0, 0;
    if i > 0 {
      KeyBetween(m, h, t, i - 1);
      StepKeys(t, i - 1);
      l := t.kids[i - 1].keys[|t.kids[i - 1].keys| - 1];
    }
    if i < |t.keys| {
      KeyBetween(m, h, t, i);
      StepKeys(t, i);
      r := t.kids[i + 1].keys[0];
    }
    if i + 1 < |t.keys| {
      KeyStep(t, i);
    }
    var ks := t.keys;
    if |t.kids[i].keys| != m - 1 {
      SameKeys(ks, i, l, r);
    } else if i > 0 && |t.kids[i - 1].keys| > m - 1 {
      LeftKey(ks, i, l, r);
    } else if i < |ks| && |t.kids[i + 1].keys| > m - 1 {
      RightKey(ks, i, l, r);
    } else if i > 0 {
      LeftGone(ks, i, l, r);
    } else {
      RightGone(ks, i, l, r);
    }
  }

  lemma SameKeys(ks: seq<int>, i: nat, l: int, r: int)
    ensures RefilledKeys(ks, i, ks, i, l, r)
  {
  }

  lemma LeftKey(ks: seq<int>, i: nat, l: int, r: int)
    requires 0 < i <= |ks| && l <= ks[i - 1]
    ensures RefilledKeys(ks, i, ks[i - 1 := l], i, l, r)
  {
  }

  lemma RightKey(ks: seq<int>, i: nat, l: int, r: int)
    requires i < |ks| && ks[i] <= r
    ensures RefilledKeys(ks, i, ks[i := r], i, l, r)
  {
  }

  lemma LeftGone(ks: seq<int>, i: nat, l: int, r: int)
    requires 0 < i <= |ks|
    ensures RefilledKeys(ks, i, ks[..i - 1] + ks[i..], i - 1, l, r)
  {
  }

  lemma RightGone(ks: seq<int>, i: nat, l: int, r: int)
    requires i < |ks|
    ensures RefilledKeys(ks, i, ks[..i] + ks[i + 1..], i, l, r)
  {
  }

  /** After the refill `x` still belongs into the kid that is entered. */
  lemma RefilledBetween(m: nat, h: nat, t: Tree, x: int)
    requires m >= 2 && h > 0 && Ready(m, h, t) && Sorted(InOrder(t)) && x !in t.keys
    ensures var i := LowerPos(t.keys, x); var t1, i1 := Refill(m, h, t, i), RefillPos(m, h, t, i);
      i1 <= |t1.keys| && (i1 > 0 ==> t1.keys[i1 - 1] < x) && (i1 < |t1.keys| ==> x < t1.keys[i1])
  {
    hide *;
    var i := LowerPos(t.keys, x);
    var l, r := RefillKeys(m, h, t, i);
    StillBetween(t.keys, i, Refill(m, h, t, i).keys, RefillPos(m, h, t, i), l, r, x);
  }

  /** The keys before the leaf and behind it, as the search divides them. */
  ghost predicate Divides(s: seq<int>, x: int, b: seq<int>, ks: seq<int>, a: seq<int>) {
    && s == b + ks + a
    && (forall j :: 0 <= j < |b| ==> b[j] < x) && (forall j :: 0 <= j < |a| ==> x < a[j])
  }

  lemma DividesWider(s: seq<int>, x: int, b: seq<int>, ks: seq<int>, a: seq<int>, b': seq<int>, a': seq<int>)
    requires Divides(s, x, b, ks, a) && ks != []
    requires (forall j :: 0 <= j < |b'| ==> b'[j] < x) && (forall j :: 0 <= j < |a'| ==> x < a'[j])
    ensures Divides(b' + s + a', x, b' + b, ks, a + a')
    ensures b' + (b + ks[..|ks| - 1] + a) + a' == (b' + b) + ks[..|ks| - 1] + (a + a')
  {
    assert b' + (b + ks + a) + a' == (b' + b) + ks + (a + a');
  }

  lemma KidReplaced(t: Tree, pos: nat, c: Tree)
    requires |t.kids| == |t.keys| + 1 && pos < |t.kids|
    ensures InOrder(ReplaceKid(t, pos, c))
         == Before(t.keys[..pos], t.kids[..pos]) + InOrder(c) + After(t.keys[pos..], t.kids[pos + 1..])
  {
    var r := ReplaceKid(t, pos, c);
    Around(r, pos);
    assert r.kids[..pos] == t.kids[..pos] && r.kids[pos + 1..] == t.kids[pos + 1..];
  }

  /** A key that the search ends between, in the kid `pos`. */
  lemma OutsideKid(t: Tree, pos: nat, x: int)
    requires |t.kids| == |t.keys| + 1 && pos < |t.kids| && Sorted(InOrder(t)) && x !in InOrder(t)
    requires (pos > 0 ==> t.keys[pos - 1] < x) && (pos < |t.keys| ==> x < t.keys[pos])
    ensures var b, a := Before(t.keys[..pos], t.kids[..pos]), After(t.keys[pos..], t.kids[pos + 1..]);
      && (forall j :: 0 <= j < |b| ==> b[j] < x) && (forall j :: 0 <= j < |a| ==> x < a[j])
      && InOrder(t) == b + InOrder(t.kids[pos]) + a && x !in InOrder(t.kids[pos]) && Sorted(InOrder(t.kids[pos]))
  {
    Around(t, pos);
    Bounds(t, pos);
    KidSorted(t, pos);
    hide InOrder;
    hide Before;
    hide After;
    var b, a := Before(t.keys[..pos], t.kids[..pos]), After(t.keys[pos..], t.kids[pos + 1..]);
    assert pos > 0 ==> forall j :: 0 <= j < |b| ==> b[j] <= [t.keys[pos - 1]][0];
    assert pos < |t.keys| ==> forall j :: 0 <= j < |a| ==> [t.keys[pos]][0] <= a[j];
  }

  /** What the descent of an absent key makes of an inner node. */
  lemma AbsentIs(m: nat, h: nat, t: Tree, x: int)
    requires m >= 2 && h > 0 && Ready(m, h, t) && |t.keys| > 0 && Sorted(InOrder(t)) && x !in InOrder(t)
    ensures var i := LowerPos(t.keys, x); var t1, i1 := Refill(m, h, t, i), RefillPos(m, h, t, i);
      && |t1.kids| == |t1.keys| + 1 && i1 < |t1.kids| && InOrder(t1) == InOrder(t)
      && (i1 > 0 ==> t1.keys[i1 - 1] < x) && (i1 < |t1.keys| ==> x < t1.keys[i1])
      && Ready(m, h - 1, t1.kids[i1]) && |t1.kids[i1].keys| >= m
      && LeafKeys(m, h, t, x) == LeafKeys(m, h - 1, t1.kids[i1], x)
      && DeleteFrom(m, h, t, x) == ReplaceKid(t1, i1, DeleteFrom(m, h - 1, t1.kids[i1], x))
      && DeleteStale(m, h, t, x) == ReplaceKid(t1, i1, DeleteStale(m, h - 1, t1.kids[i1], x))
  {
    hide InOrder;
    hide Refill;
    hide RefillPos;
    forall j | 0 <= j < |t.keys|
      ensures t.keys[j] != x
    {
      KeyInOrder(t, j);
    }
    var i := LowerPos(t.keys, x);
    RefillShape(m, h, t, i);
    RefillInOrder(m, h, t, i);
    RefilledBetween(m, h, t, x);
  }

  lemma AbsentLeaf(m: nat, t: Tree, x: int)
    requires m >= 2 && Ready(m, 0, t) && |t.keys| > 0 && x !in InOrder(t)
    ensures LeafKeys(m, 0, t, x) == t.keys && Divides(InOrder(t), x, [], t.keys, [])
    ensures InOrder(DeleteFrom(m, 0, t, x)) == InOrder(t)
    ensures InOrder(DeleteStale(m, 0, t, x)) == [] + t.keys[..|t.keys| - 1] + []
  {
    assert InOrder(t) == t.keys;
  }

  /** For a key that is not there: how the leaf divides the others, and what is left of them with and without
      the stale slot. */
  lemma {:induction false} AbsentSpot(m: nat, h: nat, t: Tree, x: int) returns (b: seq<int>, a: seq<int>)
    requires m >= 2 && Ready(m, h, t) && |t.keys| > 0 && Sorted(InOrder(t)) && x !in InOrder(t)
    ensures var ks := LeafKeys(m, h, t, x);
      && ks != [] && Divides(InOrder(t), x, b, ks, a)
      && InOrder(DeleteFrom(m, h, t, x)) == InOrder(t)
      && InOrder(DeleteStale(m, h, t, x)) == b + ks[..|ks| - 1] + a
    decreases h
  {
    hide *;
    if h == 0 {
      AbsentLeaf(m, t, x);
      b, a := [], [];
    } else {
      AbsentIs(m, h, t, x);
      var i := LowerPos(t.keys, x);
      var t1, i1 := Refill(m, h, t, i), RefillPos(m, h, t, i);
      OutsideKid(t1, i1, x);
      var b', a' := Before(t1.keys[..i1], t1.kids[..i1]), After(t1.keys[i1..], t1.kids[i1 + 1..]);
      b, a := AbsentSpot(m, h - 1, t1.kids[i1], x);
      var ks := LeafKeys(m, h, t, x);
      KidReplaced(t1, i1, DeleteFrom(m, h - 1, t1.kids[i1], x));
      KidReplaced(t1, i1, DeleteStale(m, h - 1, t1.kids[i1], x));
      DividesWider(InOrder(t1.kids[i1]), x, b, ks, a, b', a');
      b, a := b' + b, a + a';
    }
  }

  /** `y` is the greatest element of `s` below `x`. */
  ghost predicate NextBelow(s: seq<int>, x: int, y: int) {
    y in s && y < x && forall j :: 0 <= j < |s| && s[j] < x ==> s[j] <= y
  }

  /** What becomes of the keys `s` on deleting an `x` that is not among them, with `slot` in the slot tested: the
      greatest of them below `x` goes if the slot holds `x`, and else nothing happens. */
  ghost predicate Missed(s: seq<int>, s': seq<int>, x: int, slot: int) {
    (s' == s <==> slot != x) && (slot == x ==> exists y :: NextBelow(s, x, y) && Removed(s, s', y))
  }

  /** The leaf reached from the root, and the tree afterwards when its slot for `x` holds `slot`. */
  function RootLeafKeys(m: nat, h: nat, t: Tree, x: int): seq<int>
    requires m >= 2 && Root(m, t, h)
  {
    if Collapses(m, h, t) then
      MergeShape(m, h, t, 0);
      LeafKeys(m, h - 1, Join(t.kids[0], t.keys[0], t.kids[1]), x)
    else
      RootReady(m, h, t);
      LeafKeys(m, h, t, x)
  }

  function DeleteSlot(m: nat, h: nat, t: Tree, x: int, slot: int): Tree
    requires m >= 2 && Root(m, t, h) && |t.keys| > 0
  {
    if x in InOrder(t) || slot != x then Delete(m, h, t, x)
    else if Collapses(m, h, t) then
      MergeShape(m, h, t, 0);
      DeleteStale(m, h - 1, Join(t.kids[0], t.keys[0], t.kids[1]), x)
    else
      RootReady(m, h, t);
      DeleteStale(m, h, t, x)
  }

  /** The last key of the leaf goes when all its keys are less than `x`. */
  lemma LastOfLeaf(s: seq<int>, x: int, b: seq<int>, ks: seq<int>, a: seq<int>)
    requires Divides(s, x, b, ks, a) && Sorted(s) && ks != [] && LowerPos(ks, x) == |ks|
    ensures NextBelow(s, x, ks[|ks| - 1]) && Removed(s, b + ks[..|ks| - 1] + a, ks[|ks| - 1])
  {
    var i := |b| + |ks| - 1;
    assert s[i] == ks[|ks| - 1];
    assert RemovedAt(s, b + ks[..|ks| - 1] + a, s[i], i);
    assert forall j :: i < j < |s| ==> s[j] == a[j - i - 1];
  }

  lemma StaleContents(m: nat, h: nat, t: Tree, x: int)
    requires m >= 2 && Ready(m, h, t) && |t.keys| > 0 && Sorted(InOrder(t)) && x !in InOrder(t)
    ensures var ks, r := LeafKeys(m, h, t, x), DeleteStale(m, h, t, x);
      && ks != [] && x !in ks
      && (LowerPos(ks, x) == |ks| ==>
            NextBelow(InOrder(t), x, ks[|ks| - 1]) && Removed(InOrder(t), InOrder(r), ks[|ks| - 1]))
  {
    hide *;
    var b, a := AbsentSpot(m, h, t, x);
    var ks := LeafKeys(m, h, t, x);
    LeafKeysInside(InOrder(t), x, b, ks, a);
    if LowerPos(ks, x) == |ks| {
      LastOfLeaf(InOrder(t), x, b, ks, a);
    }
  }

  lemma LeafKeysInside(s: seq<int>, x: int, b: seq<int>, ks: seq<int>, a: seq<int>)
    requires Divides(s, x, b, ks, a) && x !in s
    ensures x !in ks
  {
    assert forall j :: 0 <= j < |ks| ==> ks[j] == s[|b| + j];
  }

  /** The node that `BTreeDelete` goes down from, and its height. */
  lemma RootEntry(m: nat, h: nat, t: Tree, x: int, slot: int) returns (t0: Tree, h0: nat)
    requires m >= 2 && Root(m, t, h) && |t.keys| > 0 && x !in InOrder(t)
    ensures h0 == DeleteHeight(m, h, t) && Ready(m, h0, t0) && |t0.keys| > 0 && InOrder(t0) == InOrder(t)
    ensures RootLeafKeys(m, h, t, x) == LeafKeys(m, h0, t0, x)
    ensures DeleteSlot(m, h, t, x, slot)
         == if slot == x then DeleteStale(m, h0, t0, x) else DeleteFrom(m, h0, t0, x)
  {
    hide InOrder;
    t0, h0 := t, h;
    if Collapses(m, h, t) {
      CollapseRoot(m, h, t);
      t0, h0 := Join(t.kids[0], t.keys[0], t.kids[1]), h - 1;
    } else {
      RootReady(m, h, t);
    }
    hide DeleteFrom;
    hide DeleteStale;
    hide LeafKeys;
    hide Ready;
  }

  lemma SlotBehind(ks: seq<int>, x: int)
    requires x !in ks
    ensures var i := LowerPos(ks, x); i < |ks| ==> ks[i] != x
  {
  }

  lemma RootAgain(m: nat, h: nat, t: Tree, r: Tree)
    requires Ready(m, h, t) && Kids(m, r, h) && |r.keys| <= |t.keys| && (h > 0 ==> |r.keys| >= 1)
    ensures Root(m, r, h)
  {
  }

  lemma MissedLast(s: seq<int>, s': seq<int>, x: int, y: int)
    requires NextBelow(s, x, y) && Removed(s, s', y)
    ensures Missed(s, s', x, x)
  {
  }

  lemma MissedNone(s: seq<int>, x: int, slot: int)
    requires slot != x
    ensures Missed(s, s, x, slot)
  {
  }

  /** `BTreeDelete` of a key that is not there, on any valid tree with keys, when the slot that the leaf test reads
      holds `slot`: valid again, with the same keys if and only if the slot does not hold `x`; else the tree loses
      the greatest of its keys below `x`. */
  lemma DeleteAbsentExactly(m: nat, h: nat, t: Tree, x: int, slot: int)
    requires m >= 2 && Root(m, t, h) && |t.keys| > 0 && Sorted(InOrder(t)) && x !in InOrder(t)
    requires var ks := RootLeafKeys(m, h, t, x); var i := LowerPos(ks, x); i < |ks| ==> slot == ks[i]
    ensures var r := DeleteSlot(m, h, t, x, slot);
      Root(m, r, DeleteHeight(m, h, t)) && Sorted(InOrder(r)) && Missed(InOrder(t), InOrder(r), x, slot)
  {
    hide *;
    var t0, h0 := RootEntry(m, h, t, x, slot);
    var ks, r := LeafKeys(m, h0, t0, x), DeleteSlot(m, h, t, x, slot);
    var b, a := AbsentSpot(m, h0, t0, x);
    StaleContents(m, h0, t0, x);
    if slot == x {
      assert LowerPos(ks, x) == |ks| by {
        SlotBehind(ks, x);
      }
      StaleShape(m, h0, t0, x);
      RootAgain(m, h0, t0, r);
      RemovedSorted(InOrder(t), InOrder(r), ks[|ks| - 1]);
      MissedLast(InOrder(t), InOrder(r), x, ks[|ks| - 1]);
    } else {
      DeleteFromShape(m, h0, t0, x);
      RootAgain(m, h0, t0, r);
      MissedNone(InOrder(t), x, slot);
    }
  }

  /* ---------- which way the operations go ---------- */

  /** `x` goes to the right of the `p` keys that are not greater than it. */
  ghost predicate GoesTo(ks: seq<int>, x: int, p: nat) {
    p <= |ks| && (p > 0 ==> ks[p - 1] <= x) && forall j :: p <= j < |ks| ==> x < ks[j]
  }

  lemma GoesIs(ks: seq<int>, x: int, p: nat)
    requires GoesTo(ks, x, p)
    ensures UpperPos(ks, x) == p
  {
  }

  /** An insertion into a leaf, and into an inner node whose kid there is not full. */
  lemma InsertGoes(m: nat, h: nat, t: Tree, x: int, p: nat)
    requires m >= 2 && Kids(m, t, h) && |t.keys| < 2 * m - 1 && GoesTo(t.keys, x, p)
    ensures h == 0 ==> InsertNonfull(m, h, t, x) == Node(t.keys[..p] + [x] + t.keys[p..], [])
    ensures h > 0 ==> p < |t.kids| && Kids(m, t.kids[p], h - 1)
    ensures h > 0 && |t.kids[p].keys| < 2 * m - 1 ==>
      InsertNonfull(m, h, t, x) == Node(t.keys, t.kids[p := InsertNonfull(m, h - 1, t.kids[p], x)])
  {
    GoesIs(t.keys, x, p);
    if h > 0 {
      FullKid(m, h, t, x);
      KidAt(m, h, t, p);
      InsertUnfolds(m, h, t, x);
    }
    hide UpperPos;
    hide MakeRoom;
    hide RoomPos;
  }

  lemma InsertUnfolds(m: nat, h: nat, t: Tree, x: int)
    requires m >= 2 && h > 0 && Kids(m, t, h) && |t.keys| < 2 * m - 1
    ensures var t1, i := MakeRoom(m, h, t, x), RoomPos(m, h, t, x);
      && i < |t1.kids| && Kids(m, t1.kids[i], h - 1) && |t1.kids[i].keys| < 2 * m - 1
      && InsertNonfull(m, h, t, x) == Node(t1.keys, t1.kids[i := InsertNonfull(m, h - 1, t1.kids[i], x)])
  {
    MakeRoomShape(m, h, t, x);
    KidAt(m, h, MakeRoom(m, h, t, x), RoomPos(m, h, t, x));
    hide MakeRoom;
    hide RoomPos;
    hide Kids;
  }

  /** The halves of a full kid. */
  lemma HalvesAt(m: nat, h: nat, t: Tree, p: nat)
    requires m >= 2 && h > 0 && Kids(m, t, h) && p < |t.kids| && |t.kids[p].keys| == 2 * m - 1
    ensures |t.kids| == |t.keys| + 1 && (t.kids[p].kids == [] || |t.kids[p].kids| == 2 * m)
    ensures var c := t.kids[p];
      && LowerHalf(m, c) == Node(c.keys[..m - 1], if c.kids == [] then [] else c.kids[..m])
      && UpperHalf(m, c) == Node(c.keys[m..], if c.kids == [] then [] else c.kids[m..])
      && Kids(m, LowerHalf(m, c), h - 1) && Kids(m, UpperHalf(m, c), h - 1)
      && |LowerHalf(m, c).keys| == m - 1 == |UpperHalf(m, c).keys|
  {
    SplitShape(m, h, t, p);
    KidAt(m, h, SplitChild(m, t, p), p);
    KidAt(m, h, SplitChild(m, t, p), p + 1);
  }

  lemma SplitIs(m: nat, t: Tree, p: nat)
    requires m >= 2 && |t.kids| == |t.keys| + 1 && p < |t.kids| && |t.kids[p].keys| == 2 * m - 1
    requires t.kids[p].kids == [] || |t.kids[p].kids| == 2 * m
    ensures var c, t1 := t.kids[p], SplitChild(m, t, p);
      && t1.keys == t.keys[..p] + [c.keys[m - 1]] + t.keys[p..] && |t1.kids| == |t.kids| + 1
      && t1.kids == t.kids[..p] + [LowerHalf(m, c), UpperHalf(m, c)] + t.kids[p + 1..]
      && t1.kids[p] == LowerHalf(m, c) && t1.kids[p + 1] == UpperHalf(m, c)
  {
    hide LowerHalf;
    hide UpperHalf;
  }

  /** A full kid is split first: its middle key moves up, and `x` goes to its right half only if it is greater. */
  lemma InsertSplits(m: nat, h: nat, t: Tree, x: int, p: nat)
    requires m >= 2 && h > 0 && Kids(m, t, h) && |t.keys| < 2 * m - 1 && GoesTo(t.keys, x, p)
    requires p < |t.kids| && |t.kids[p].keys| == 2 * m - 1
    ensures |t.kids| == |t.keys| + 1 && (t.kids[p].kids == [] || |t.kids[p].kids| == 2 * m)
    ensures var c := t.kids[p];
      && Kids(m, LowerHalf(m, c), h - 1) && Kids(m, UpperHalf(m, c), h - 1)
      && |LowerHalf(m, c).keys| == m - 1 == |UpperHalf(m, c).keys|
    ensures InsertNonfull(m, h, t, x).keys == t.keys[..p] + [t.kids[p].keys[m - 1]] + t.keys[p..]
    ensures InsertNonfull(m, h, t, x).kids == t.kids[..p] + SplitKids(m, h, t.kids[p], x) + t.kids[p + 1..]
  {
    hide *;
    GoesIs(t.keys, x, p);
    FullKid(m, h, t, x);
    HalvesAt(m, h, t, p);
    InsertUnfolds(m, h, t, x);
    SplitIs(m, t, p);
    SplitKidsIs(m, h, t.kids[p], x);
    var lo, hi := LowerHalf(m, t.kids[p]), UpperHalf(m, t.kids[p]);
    if x > t.kids[p].keys[m - 1] {
      ReplaceSecond(t.kids[..p], lo, hi, t.kids[p + 1..], InsertNonfull(m, h - 1, hi, x));
    } else {
      ReplaceFirst(t.kids[..p], lo, hi, t.kids[p + 1..], InsertNonfull(m, h - 1, lo, x));
    }
  }

  /** The two kids that a full one becomes when `x` goes down to it. */
  ghost function SplitKids(m: nat, h: nat, c: Tree, x: int): seq<Tree>
    requires m >= 2 && h > 0 && |c.keys| == 2 * m - 1 && (c.kids == [] || |c.kids| == 2 * m)
    requires Kids(m, LowerHalf(m, c), h - 1) && Kids(m, UpperHalf(m, c), h - 1)
  {
    if x > c.keys[m - 1] then [LowerHalf(m, c), InsertNonfull(m, h - 1, UpperHalf(m, c), x)]
    else [InsertNonfull(m, h - 1, LowerHalf(m, c), x), UpperHalf(m, c)]
  }

  lemma SplitKidsIs(m: nat, h: nat, c: Tree, x: int)
    requires m >= 2 && h > 0 && |c.keys| == 2 * m - 1 && (c.kids == [] || |c.kids| == 2 * m)
    requires Kids(m, LowerHalf(m, c), h - 1) && Kids(m, UpperHalf(m, c), h - 1)
    requires |LowerHalf(m, c).keys| == m - 1 == |UpperHalf(m, c).keys|
    ensures SplitKids(m, h, c, x)
         == if x > c.keys[m - 1] then [LowerHalf(m, c), InsertNonfull(m, h - 1, UpperHalf(m, c), x)]
            else [InsertNonfull(m, h - 1, LowerHalf(m, c), x), UpperHalf(m, c)]
  {
    hide Kids;
    hide InsertNonfull;
    hide LowerHalf;
    hide UpperHalf;
  }

  lemma ReplaceFirst<T>(a: seq<T>, lo: T, hi: T, b: seq<T>, d: T)
    ensures (a + [lo, hi] + b)[|a| := d] == a + [d, hi] + b
  {
  }

  lemma ReplaceSecond<T>(a: seq<T>, lo: T, hi: T, b: seq<T>, d: T)
    ensures (a + [lo, hi] + b)[|a| + 1 := d] == a + [lo, d] + b
  {
  }

  /** The `i` keys to the left of where `x` is or would be are the lesser ones. */
  ghost predicate SearchesTo(ks: seq<int>, x: int, i: nat) {
    i <= |ks| && (forall j :: 0 <= j < i ==> ks[j] < x) && (i < |ks| ==> x <= ks[i])
  }

  lemma SearchIs(ks: seq<int>, x: int, i: nat)
    requires SearchesTo(ks, x, i)
    ensures LowerPos(ks, x) == i
  {
  }

  lemma SearchedIs(ks: seq<int>, x: int, i: nat)
    requires SearchesTo(ks, x, i)
    ensures i <= |ks|
  {
  }

  /** A deletion in a leaf takes the key if it is there. */
  lemma DeleteInLeaf(m: nat, t: Tree, x: int, i: nat)
    requires m >= 2 && Ready(m, 0, t) && SearchesTo(t.keys, x, i)
    ensures DeleteFrom(m, 0, t, x)
         == if i < |t.keys| && t.keys[i] == x then Node(t.keys[..i] + t.keys[i + 1..], []) else t
  {
    SearchIs(t.keys, x, i);
    hide LowerPos;
  }

  /** An inner node that has the key gets in its place the greatest key of the kid to the left, if that kid can spare
      one, else the least of the kid to the right, if that one can; else the two kids become one. */
  lemma DeleteFound(m: nat, h: nat, t: Tree, x: int, i: nat)
    requires m >= 2 && h > 0 && Ready(m, h, t) && SearchesTo(t.keys, x, i) && i < |t.keys| && t.keys[i] == x
    ensures |t.kids| == |t.keys| + 1 && Kids(m, t.kids[i], h - 1) && Kids(m, t.kids[i + 1], h - 1)
    ensures var r := DeleteFrom(m, h, t, x);
      && i < |r.kids|
      && if |t.kids[i].keys| >= m then
           r.keys == t.keys[i := MaxKey(m, h - 1, t.kids[i])] && r.kids == t.kids[i := r.kids[i]]
         else if |t.kids[i + 1].keys| >= m then
           && i + 1 < |r.kids|
           && r.keys == t.keys[i := MinKey(m, h - 1, t.kids[i + 1])] && r.kids == t.kids[i + 1 := r.kids[i + 1]]
         else
           r.keys == t.keys[..i] + t.keys[i + 1..] && r.kids == t.kids[..i] + [r.kids[i]] + t.kids[i + 2..]
  {
    SearchIs(t.keys, x, i);
    ReadyParts(m, h, t);
    KidAt(m, h, t, i);
    KidAt(m, h, t, i + 1);
    if |t.kids[i].keys| < m && |t.kids[i + 1].keys| < m {
      MergeShape(m, h, t, i);
    }
    hide LowerPos;
    hide Kids;
    hide MaxKey;
    hide MinKey;
  }

  /** An inner node that has not: the kid to go down to, if it cannot spare a key, gets one from the left, if the kid
      there can spare one, else from the right, else is joined with the kid on its left, or on its right if it is the
      first. */
  lemma DeleteGoesDown(m: nat, h: nat, t: Tree, x: int, i: nat)
    requires m >= 2 && h > 0 && Ready(m, h, t) && SearchesTo(t.keys, x, i) && (i < |t.keys| ==> t.keys[i] != x)
    ensures |t.kids| == |t.keys| + 1 && |t.keys| >= 1
    ensures Spares(m, t, i) ==> Changed(t, DeleteFrom(m, h, t, x), t.keys, i)
    ensures !Spares(m, t, i) && Spares(m, t, i - 1) ==>
      var r, left := DeleteFrom(m, h, t, x), t.kids[i - 1];
      && |r.kids| == |t.kids| && r.kids[i - 1].keys == left.keys[..|left.keys| - 1]
      && Changed(Node(t.keys, t.kids[i - 1 := r.kids[i - 1]]), r, t.keys[i - 1 := left.keys[|left.keys| - 1]], i)
    ensures !Spares(m, t, i) && !Spares(m, t, i - 1) && Spares(m, t, i + 1) ==>
      var r, right := DeleteFrom(m, h, t, x), t.kids[i + 1];
      && |r.kids| == |t.kids| && r.kids[i + 1].keys == right.keys[1..]
      && Changed(Node(t.keys, t.kids[i + 1 := r.kids[i + 1]]), r, t.keys[i := right.keys[0]], i)
    ensures !Spares(m, t, i) && !Spares(m, t, i - 1) && !Spares(m, t, i + 1) ==>
      Joined(t, DeleteFrom(m, h, t, x), if i > 0 then i - 1 else 0)
  {
    hide *;
    SparesIs(m, t, i - 1);
    SparesIs(m, t, i);
    SparesIs(m, t, i + 1);
    DownIs(m, h, t, x, i);
    SearchedIs(t.keys, x, i);
    RefillIs(m, h, t, i);
    var t1, j, r := Refill(m, h, t, i), RefillPos(m, h, t, i), DeleteFrom(m, h, t, x);
    if |t.kids[i].keys| >= m {
      ChangedIs(t, r, i);
    } else if i > 0 && |t.kids[i - 1].keys| >= m {
      ShiftedRight(t, i - 1, r);
    } else if i < |t.keys| && |t.kids[i + 1].keys| >= m {
      ShiftedLeft(t, i, r);
    } else {
      JoinedIs(t, r, if i > 0 then i - 1 else 0);
    }
  }

  /** There is a kid `i`, and it has a key to spare. */
  predicate Spares(m: nat, t: Tree, i: int) {
    0 <= i < |t.kids| && |t.kids[i].keys| >= m
  }

  lemma SparesIs(m: nat, t: Tree, i: int)
    ensures Spares(m, t, i) <==> 0 <= i < |t.kids| && |t.kids[i].keys| >= m
  {
  }

  /** `r` has the keys `ks` and the kids of `t`, but for kid `i`. */
  ghost predicate Changed(t: Tree, r: Tree, ks: seq<int>, i: nat) {
    i < |t.kids| == |r.kids| && r.keys == ks && r.kids == t.kids[i := r.kids[i]]
  }

  /** `r` has one kid in place of the kids `i` and `i + 1` of `t`, and not the key between them. */
  ghost predicate Joined(t: Tree, r: Tree, i: nat) {
    && i < |t.keys| && i + 1 < |t.kids| && i < |r.kids|
    && r.keys == t.keys[..i] + t.keys[i + 1..] && r.kids == t.kids[..i] + [r.kids[i]] + t.kids[i + 2..]
  }

  lemma DownIs(m: nat, h: nat, t: Tree, x: int, i: nat)
    requires m >= 2 && h > 0 && Ready(m, h, t) && SearchesTo(t.keys, x, i) && (i < |t.keys| ==> t.keys[i] != x)
    ensures |t.kids| == |t.keys| + 1 && |t.keys| >= 1 && i < |t.kids|
    ensures var t1, j, r := Refill(m, h, t, i), RefillPos(m, h, t, i), DeleteFrom(m, h, t, x);
      && j < |t1.kids| == |r.kids| && r == Node(t1.keys, t1.kids[j := r.kids[j]])
  {
    SearchIs(t.keys, x, i);
    ReadyParts(m, h, t);
    RefillShape(m, h, t, i);
    hide LowerPos;
    hide Kids;
    hide Refill;
    hide RefillPos;
  }

  lemma ChangedIs(t: Tree, r: Tree, i: nat)
    requires i < |t.kids| == |r.kids| && r == Node(t.keys, t.kids[i := r.kids[i]])
    ensures Changed(t, r, t.keys, i)
  {
  }

  lemma ShiftedRight(t: Tree, i: nat, r: Tree)
    requires |t.kids| == |t.keys| + 1 && i < |t.keys| && |t.kids[i].keys| > 0 && i + 1 < |r.kids|
    requires var t1 := ShiftRight(t, i); r == Node(t1.keys, t1.kids[i + 1 := r.kids[i + 1]])
    ensures |r.kids| == |t.kids|
    ensures var left := t.kids[i];
      && r.kids[i].keys == left.keys[..|left.keys| - 1]
      && Changed(Node(t.keys, t.kids[i := r.kids[i]]), r, t.keys[i := left.keys[|left.keys| - 1]], i + 1)
  {
  }

  lemma ShiftedLeft(t: Tree, i: nat, r: Tree)
    requires |t.kids| == |t.keys| + 1 && i < |t.keys| && |t.kids[i + 1].keys| > 0 && i < |r.kids|
    requires var t1 := ShiftLeft(t, i); r == Node(t1.keys, t1.kids[i := r.kids[i]])
    ensures |r.kids| == |t.kids|
    ensures var right := t.kids[i + 1];
      && r.kids[i + 1].keys == right.keys[1..]
      && Changed(Node(t.keys, t.kids[i + 1 := r.kids[i + 1]]), r, t.keys[i := right.keys[0]], i)
  {
  }

  lemma JoinedIs(t: Tree, r: Tree, i: nat)
    requires |t.kids| == |t.keys| + 1 && i < |t.keys| && i < |r.kids|
    requires var t1 := MergeChild(t, i); i < |t1.kids| && r == Node(t1.keys, t1.kids[i := r.kids[i]])
    ensures Joined(t, r, i)
  {
  }

  /* ---------- whole runs ---------- */

  /** `slot` is what the leaf test of a deletion reads. */
  datatype Op = Put(x: int) | Take(x: int, slot: int)

  datatype State = State(tree: Tree, height: nat)

  ghost predicate Valid(m: nat, s: State) {
    m >= 2 && Root(m, s.tree, s.height) && Sorted(InOrder(s.tree))
  }

  function Step(m: nat, s: State, op: Op): (r: State)
    requires m >= 2 && Root(m, s.tree, s.height)
    ensures Root(m, r.tree, r.height)
  {
    match op
    case Put(x) =>
      InsertShape(m, s.height, s.tree, x);
      State(Insert(m, s.height, s.tree, x), InsertHeight(m, s.height, s.tree))
    case Take(x, slot) =>
      if s.tree.keys == [] then s
      else
        DeleteSlotShape(m, s.height, s.tree, x, slot);
        State(DeleteSlot(m, s.height, s.tree, x, slot), DeleteHeight(m, s.height, s.tree))
  }

  /** For an absent key, the leaf test reads inside the array; among the keys of the leaf it reads a key; and it does
      not take a key from an empty tree. */
  ghost predicate Possible(m: nat, s: State, op: Op)
    requires m >= 2 && Root(m, s.tree, s.height)
  {
    op.Take? && op.x !in InOrder(s.tree) ==>
      var ks := RootLeafKeys(m, s.height, s.tree, op.x);
      var i := LowerPos(ks, op.x);
      i < 2 * m - 1 && (i < |ks| ==> op.slot == ks[i]) && (s.tree.keys == [] ==> op.slot != op.x)
  }

  /** The tree that the operations make of the empty one. */
  function Run(m: nat, ops: seq<Op>): (s: State)
    requires m >= 2
    ensures Root(m, s.tree, s.height)
  {
    if ops == [] then State(EMPTY, 0)
    else Step(m, Run(m, ops[..|ops| - 1]), ops[|ops| - 1])
  }

  ghost predicate Feasible(m: nat, ops: seq<Op>)
    requires m >= 2
  {
    forall k :: 0 <= k < |ops| ==> Possible(m, Run(m, ops[..k]), ops[k])
  }

  /** The same on a sorted list: a missed deletion whose slot holds the key takes the next smaller key. */
  function ListStep(s: seq<int>, op: Op): seq<int> {
    match op
    case Put(x) =>
      var i := UpperPos(s, x);
      s[..i] + [x] + s[i..]
    case Take(x, slot) =>
      var i := LowerPos(s, x);
      if i < |s| && s[i] == x then s[..i] + s[i + 1..]
      else if slot == x && i > 0 then s[..i - 1] + s[i..]
      else s
  }

  function Listed(ops: seq<Op>): seq<int> {
    if ops == [] then [] else ListStep(Listed(ops[..|ops| - 1]), ops[|ops| - 1])
  }

  lemma DeleteSlotShape(m: nat, h: nat, t: Tree, x: int, slot: int)
    requires m >= 2 && Root(m, t, h) && |t.keys| > 0
    ensures Root(m, DeleteSlot(m, h, t, x, slot), DeleteHeight(m, h, t))
  {
    hide *;
    if x in InOrder(t) || slot != x {
      DeleteShape(m, h, t, x);
      PlainDelete(m, h, t, x, slot);
    } else {
      var t0, h0 := RootEntry(m, h, t, x, slot);
      StaleShape(m, h0, t0, x);
      RootAgain(m, h0, t0, DeleteSlot(m, h, t, x, slot));
    }
  }

  lemma PlainDelete(m: nat, h: nat, t: Tree, x: int, slot: int)
    requires m >= 2 && Root(m, t, h) && |t.keys| > 0 && (x in InOrder(t) || slot != x)
    ensures DeleteSlot(m, h, t, x, slot) == Delete(m, h, t, x)
  {
    hide InOrder;
    hide Delete;
    hide Root;
  }

  /** On sorted lists the places of `Inserted` and `Removed` make no difference. */
  lemma InsertedPlace(s: seq<int>, s': seq<int>, x: int)
    requires Inserted(s, s', x) && Sorted(s')
    ensures var i := UpperPos(s, x); s' == s[..i] + [x] + s[i..]
  {
    var i := UpperPos(s, x);
    hide UpperPos;
    var j :| InsertedAt(s, s', x, j);
    assert s'[j] == x && forall k :: 0 <= k < j ==> s'[k] == s[k];
    assert forall k :: 0 <= k < j ==> s[k] <= x;
    assert i < |s| ==> x < s[i];
    assert j <= i;
    forall k | j <= k < i
      ensures s[k] == x
    {
      assert s'[k + 1] == s[k] && s'[j] == x && s'[i] == s[i - 1];
    }
  }

  lemma RemovedPlace(s: seq<int>, s': seq<int>, x: int)
    requires Removed(s, s', x) && Sorted(s)
    ensures var i := LowerPos(s, x); i < |s| && s[i] == x && s' == s[..i] + s[i + 1..]
  {
    var i := LowerPos(s, x);
    hide LowerPos;
    var j :| RemovedAt(s, s', x, j);
    assert i <= j;
    forall k | i <= k <= j
      ensures s[k] == x
    {
    }
  }

  /** Of equal neighbours it makes no difference which one goes. */
  lemma SameCopies(s: seq<int>, j: nat, i: nat, y: int)
    requires j < i <= |s| && forall k :: j <= k < i ==> s[k] == y
    ensures s[..j] + s[j + 1..] == s[..i - 1] + s[i..]
  {
  }

  lemma BelowAt(s: seq<int>, x: int, y: int)
    requires Sorted(s) && x !in s && NextBelow(s, x, y)
    ensures var j, i := LowerPos(s, y), LowerPos(s, x); j < i && forall k :: j <= k < i ==> s[k] == y
  {
    var j, i := LowerPos(s, y), LowerPos(s, x);
    hide LowerPos;
    var k :| 0 <= k < |s| && s[k] == y;
    assert j <= k < i;
  }

  lemma MissedAt(s: seq<int>, s': seq<int>, x: int, y: int)
    requires NextBelow(s, x, y) && Removed(s, s', y) && Sorted(s) && x !in s
    ensures var i := LowerPos(s, x); i > 0 && s' == s[..i - 1] + s[i..]
  {
    hide *;
    RemovedPlace(s, s', y);
    BelowAt(s, x, y);
    SameCopies(s, LowerPos(s, y), LowerPos(s, x), y);
  }

  lemma MissedPlace(s: seq<int>, s': seq<int>, x: int, slot: int)
    requires Missed(s, s', x, slot) && Sorted(s) && x !in s
    ensures s' == ListStep(s, Take(x, slot))
  {
    hide LowerPos;
    hide NextBelow;
    hide Removed;
    hide Sorted;
    if slot == x {
      var y :| NextBelow(s, x, y) && Removed(s, s', y);
      MissedAt(s, s', x, y);
    }
  }

  lemma StepRefines(m: nat, s: State, op: Op)
    requires Valid(m, s) && Possible(m, s, op)
    ensures Valid(m, Step(m, s, op)) && InOrder(Step(m, s, op).tree) == ListStep(InOrder(s.tree), op)
  {
    hide InOrder;
    hide Root;
    hide Insert;
    hide Delete;
    hide DeleteSlot;
    hide Missed;
    match op
    case Put(x) =>
      InsertCorrect(m, s.height, s.tree, x);
      InsertedPlace(InOrder(s.tree), InOrder(Step(m, s, op).tree), x);
    case Take(x, slot) =>
      if s.tree.keys == [] {
        NothingInOrder(m, s.height, s.tree);
      } else if x in InOrder(s.tree) {
        PlainDelete(m, s.height, s.tree, x, slot);
        DeleteCorrect(m, s.height, s.tree, x);
        RemovedPlace(InOrder(s.tree), InOrder(Step(m, s, op).tree), x);
      } else {
        DeleteAbsentExactly(m, s.height, s.tree, x, slot);
        MissedPlace(InOrder(s.tree), InOrder(Step(m, s, op).tree), x, slot);
      }
  }

  lemma NothingInOrder(m: nat, h: nat, t: Tree)
    requires Root(m, t, h) && t.keys == []
    ensures InOrder(t) == []
  {
  }

  /** Any run of insertions and of deletions, of keys that are there or not, as long as the leaf tests stay inside the
      arrays and take no key from an empty tree: the tree is balanced and filled as it must be, and its keys in order
      are what the same operations make of a sorted list. */
  lemma {:induction false} RunRefinesList(m: nat, ops: seq<Op>)
    requires m >= 2 && Feasible(m, ops)
    ensures var s := Run(m, ops);
      Root(m, s.tree, s.height) && Sorted(InOrder(s.tree)) && InOrder(s.tree) == Listed(ops)
  {
    if ops == [] {
    } else {
      var k := |ops| - 1;
      var before := ops[..k];
      assert Possible(m, Run(m, before), ops[k]);
      forall j | 0 <= j < k
        ensures Possible(m, Run(m, before[..j]), before[j])
      {
        assert before[..j] == ops[..j];
      }
      hide Possible;
      hide Step;
      hide ListStep;
      RunRefinesList(m, before);
      StepRefines(m, Run(m, before), ops[k]);
    }
  }

  /** What the keys should be when only keys that are there are deleted. */
  function Bag(ops: seq<Op>): multiset<int> {
    if ops == [] then multiset{}
    else
      var k := |ops| - 1;
      match ops[k]
      case Put(x) => Bag(ops[..k]) + multiset{x}
      case Take(x, _) => Bag(ops[..k]) - multiset{x}
  }

  ghost predicate Legal(ops: seq<Op>) {
    forall k :: 0 <= k < |ops| && ops[k].Take? ==> ops[k].x in Bag(ops[..k])
  }

  lemma InsertedBag(s: seq<int>, s': seq<int>, x: int)
    requires Inserted(s, s', x)
    ensures multiset(s') == multiset(s) + multiset{x}
  {
    var i :| InsertedAt(s, s', x, i);
    assert s == s[..i] + s[i..];
  }

  lemma RemovedBag(s: seq<int>, s': seq<int>, x: int)
    requires Removed(s, s', x)
    ensures multiset(s') == multiset(s) - multiset{x}
  {
    var i :| RemovedAt(s, s', x, i);
    assert s == s[..i] + [x] + s[i + 1..];
  }

  lemma ListStepBag(s: seq<int>, op: Op)
    requires Sorted(s) && (op.Take? ==> op.x in s)
    ensures multiset(ListStep(s, op)) == if op.Put? then multiset(s) + multiset{op.x} else multiset(s) - multiset{op.x}
  {
    hide UpperPos;
    hide LowerPos;
    hide Sorted;
    match op
    case Put(x) =>
      assert InsertedAt(s, ListStep(s, op), x, UpperPos(s, x));
      InsertedBag(s, ListStep(s, op), x);
    case Take(x, _) =>
      LeafDelete(s, x);
      RemovedBag(s, ListStep(s, op), x);
  }

  /** With present keys alone the tree holds exactly the keys that should be there. */
  lemma {:induction false} RunCorrect(m: nat, ops: seq<Op>)
    requires m >= 2 && Legal(ops)
    ensures Feasible(m, ops)
    ensures var s := Run(m, ops);
      && Root(m, s.tree, s.height)
      && Sorted(InOrder(s.tree)) && multiset(InOrder(s.tree)) == Bag(ops)
  {
    if ops == [] {
    } else {
      var k := |ops| - 1;
      LegalPrefix(ops, k);
      RunCorrect(m, ops[..k]);
      var s := Run(m, ops[..k]);
      assert ops[k].Take? ==> ops[k].x in multiset(InOrder(s.tree));
      FeasibleNext(m, ops, k);
      ListStepBag(InOrder(s.tree), ops[k]);
      StepRefines(m, s, ops[k]);
    }
  }

  lemma FeasibleNext(m: nat, ops: seq<Op>, k: nat)
    requires m >= 2 && k + 1 == |ops| && Feasible(m, ops[..k])
    requires ops[k].Take? ==> ops[k].x in InOrder(Run(m, ops[..k]).tree)
    ensures Feasible(m, ops) && Possible(m, Run(m, ops[..k]), ops[k])
  {
    hide Run;
    forall j | 0 <= j < k
      ensures Possible(m, Run(m, ops[..j]), ops[j])
    {
      assert ops[..k][..j] == ops[..j] && ops[..k][j] == ops[j];
    }
  }

  lemma LegalPrefix(ops: seq<Op>, k: nat)
    requires Legal(ops) && k <= |ops|
    ensures Legal(ops[..k])
  {
    forall j | 0 <= j < k && ops[..k][j].Take?
      ensures ops[..k][j].x in Bag(ops[..k][..j])
    {
      assert ops[..k][..j] == ops[..j];
    }
  }

  function Pow(m: nat, h: nat): nat {
    if h == 0 then 1 else m * Pow(m, h - 1)
  }

  lemma {:induction false} AfterLength(ks: seq<int>, cs: seq<Tree>, n: nat)
    requires |ks| == |cs| && forall i :: 0 <= i < |cs| ==> |InOrder(cs[i])| + 1 >= n
    ensures |After(ks, cs)| >= |ks| * n
  {
    if ks == [] {
    } else {
      AfterLength(ks[1..], cs[1..], n);
      Distributes(|ks|, n);
    }
  }

  lemma Distributes(a: nat, n: nat)
    requires a > 0
    ensures (a - 1) * n + n == a * n
  {
  }

  lemma Monotone(a: nat, b: nat, n: nat)
    requires a <= b
    ensures a * n <= b * n
  {
  }

  /** A node below the root at height `h` stands for at least `m^(h+1) - 1` keys. */
  lemma {:induction false} SubSize(m: nat, h: nat, t: Tree)
    requires m >= 2 && Sub(m, t, h)
    ensures |InOrder(t)| + 1 >= Pow(m, h + 1)
    decreases h
  {
    if h > 0 {
      var n := Pow(m, h);
      forall i | 0 <= i < |t.kids|
        ensures |InOrder(t.kids[i])| + 1 >= n
      {
        SubSize(m, h - 1, t.kids[i]);
      }
      AfterLength(t.keys, t.kids[1..], n);
      Monotone(m - 1, |t.keys|, n);
      Distributes(m, n);
    } else {
      assert Pow(m, 1) == m * Pow(m, 0);
    }
  }

  /** The height is logarithmic in the number of keys. */
  lemma HeightBound(m: nat, h: nat, t: Tree)
    requires m >= 2 && Root(m, t, h) && h > 0
    ensures |InOrder(t)| + 1 >= 2 * Pow(m, h)
  {
    var n := Pow(m, h);
    forall i | 0 <= i < |t.kids|
      ensures |InOrder(t.kids[i])| + 1 >= n
    {
      SubSize(m, h - 1, t.kids[i]);
    }
    AfterLength(t.keys, t.kids[1..], n);
    Monotone(1, |t.keys|, n);
  }
}
