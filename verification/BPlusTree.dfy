/**
 Insertion into the B+-tree of skylu/base/bplustree.cc: the keys live in the leaves, the inner nodes
 hold separators, and the leaves form a circular doubly linked chain.

 A leaf carries its address; the `next` and `prev` pointers are maps from addresses to addresses.
 `Plain` forgets the addresses, so that the in-order list of `BTreeModel`, here with the separators in
 it, says what the search order is.
 */
module BPlusTree {
  import opened BTreeModel
  import opened Wrappers

  datatype Node = Leaf(id: nat, ks: seq<int>) | Inner(ks: seq<int>, kids: seq<Node>)

  /** The pointers between leaves, and the next address that has not been used. */
  datatype Store = Store(next: map<nat, nat>, prev: map<nat, nat>, unused: nat)

  /* ---------- a node and its leaves ---------- */

  function Plain(t: Node): Tree {
    match t
    case Leaf(_, ks) => Tree.Node(ks, [])
    case Inner(ks, kids) => Tree.Node(ks, PlainAll(kids))
  }

  function PlainAll(ts: seq<Node>): (r: seq<Tree>)
    ensures |r| == |ts| && forall i :: 0 <= i < |ts| ==> r[i] == Plain(ts[i])
  {
    if ts == [] then [] else [Plain(ts[0])] + PlainAll(ts[1..])
  }

  /** The leaves from left to right. */
  function Leaves(t: Node): seq<Node>
    decreases t, 0
  {
    match t
    case Leaf(_, _) => [t]
    case Inner(_, kids) => LeavesAll(kids)
  }

  function LeavesAll(ts: seq<Node>): seq<Node>
    decreases ts, 0
  {
    if ts == [] then [] else Leaves(ts[0]) + LeavesAll(ts[1..])
  }

  /** The keys of a list of leaves, as `BTreeLinearPrint` lists them. */
  function Keys(ls: seq<Node>): seq<int> {
    if ls == [] then [] else ls[0].ks + Keys(ls[1..])
  }

  /** The addresses of a list of leaves. */
  function Ids(ls: seq<Node>): (r: seq<nat>)
    ensures |r| == |ls|
  {
    if ls == [] then [] else [if ls[0].Leaf? then ls[0].id else 0] + Ids(ls[1..])
  }

  /** Leaves exactly at depth `h`, and every node below `t` between half full and full. */
  ghost predicate Shaped(m: nat, t: Node, h: nat)
    decreases h
  {
    if h == 0 then t.Leaf?
    else
      && t.Inner? && |t.kids| == |t.ks| + 1
      && forall i :: 0 <= i < |t.kids| ==> m - 1 <= |t.kids[i].ks| <= 2 * m - 1 && Shaped(m, t.kids[i], h - 1)
  }

  ghost predicate RootShaped(m: nat, t: Node, h: nat) {
    |t.ks| <= 2 * m - 1 && Shaped(m, t, h) && (h > 0 ==> |t.ks| >= 1)
  }

  /* ---------- the operations ---------- */

  /** The relinking in `BTreeSplitChild`, statement by statement. */
  function LinkAfter(st: Store, child: nat, newChild: nat): Store {
    if child !in st.next then st
    else
      var after := st.next[child];
      var next1 := st.next[newChild := after];
      var prev1 := st.prev[after := newChild];
      var prev2 := prev1[newChild := child];
      Store(next1[child := newChild], prev2, st.unused + 1)
  }

  /** The two halves of a full node: a leaf keeps its middle key on the left. */
  function LeftHalf(m: nat, c: Node): Node
    requires 1 <= m && |c.ks| == 2 * m - 1 && (c.Inner? ==> |c.kids| == 2 * m)
  {
    match c
    case Leaf(id, ks) => Leaf(id, ks[..m])
    case Inner(ks, kids) => Inner(ks[..m - 1], kids[..m])
  }

  function RightHalf(m: nat, c: Node, id: nat): Node
    requires 1 <= m && |c.ks| == 2 * m - 1 && (c.Inner? ==> |c.kids| == 2 * m)
  {
    match c
    case Leaf(_, ks) => Leaf(id, ks[m..])
    case Inner(ks, kids) => Inner(ks[m..], kids[m..])
  }

  /** `BTreeSplitChild`, a new leaf getting the address `id`. */
  function SplitKid(m: nat, t: Node, pos: nat, id: nat): Node
    requires 1 <= m && t.Inner? && |t.kids| == |t.ks| + 1 && pos < |t.kids|
    requires var c := t.kids[pos]; |c.ks| == 2 * m - 1 && (c.Inner? ==> |c.kids| == 2 * m)
  {
    var c := t.kids[pos];
    Inner(t.ks[..pos] + [c.ks[m - 1]] + t.ks[pos..],
          t.kids[..pos] + [LeftHalf(m, c), RightHalf(m, c, id)] + t.kids[pos + 1..])
  }

  function SplitStore(t: Node, pos: nat, st: Store): Store
    requires t.Inner? && pos < |t.kids|
  {
    if t.kids[pos].Leaf? then LinkAfter(st, t.kids[pos].id, st.unused) else st
  }

  function WithKid(t: Node, pos: nat, c: Node): Node
    requires t.Inner? && pos < |t.kids|
  {
    Inner(t.ks, t.kids[pos := c])
  }

  /** The node, and the store, after splitting the kid that `x` goes down to, if it is full. */
  function Roomy(m: nat, h: nat, t: Node, x: int, st: Store): Node
    requires m >= 2 && h > 0 && Shaped(m, t, h)
  {
    var pos := UpperPos(t.ks, x);
    KidShaped(m, h, t, pos);
    if |t.kids[pos].ks| == 2 * m - 1 then SplitKid(m, t, pos, st.unused) else t
  }

  function RoomyStore(m: nat, h: nat, t: Node, x: int, st: Store): Store
    requires m >= 2 && h > 0 && Shaped(m, t, h)
  {
    var pos := UpperPos(t.ks, x);
    if |t.kids[pos].ks| == 2 * m - 1 then SplitStore(t, pos, st) else st
  }

  function RoomyPos(m: nat, h: nat, t: Node, x: int): nat
    requires m >= 2 && h > 0 && Shaped(m, t, h)
  {
    var pos := UpperPos(t.ks, x);
    if |t.kids[pos].ks| == 2 * m - 1 && x > t.kids[pos].ks[m - 1] then pos + 1 else pos
  }

  lemma KidShaped(m: nat, h: nat, t: Node, pos: nat)
    requires h > 0 && Shaped(m, t, h) && pos < |t.kids|
    ensures m - 1 <= |t.kids[pos].ks| <= 2 * m - 1 && Shaped(m, t.kids[pos], h - 1)
    ensures t.kids[pos].Inner? ==> |t.kids[pos].kids| == |t.kids[pos].ks| + 1
  {
    assert Shaped(m, t.kids[pos], h - 1);
  }

  /** `BTreeInsertNonfull`. */
  function InsertNode(m: nat, h: nat, t: Node, x: int, st: Store): Node
    requires m >= 2 && Shaped(m, t, h) && |t.ks| < 2 * m - 1
    decreases h
  {
    if h == 0 then
      var pos := UpperPos(t.ks, x);
      Leaf(t.id, t.ks[..pos] + [x] + t.ks[pos..])
    else
      RoomyShape(m, h, t, x, st);
      var t1, pos := Roomy(m, h, t, x, st), RoomyPos(m, h, t, x);
      WithKid(t1, pos, InsertNode(m, h - 1, t1.kids[pos], x, RoomyStore(m, h, t, x, st)))
  }

  function InsertStore(m: nat, h: nat, t: Node, x: int, st: Store): Store
    requires m >= 2 && Shaped(m, t, h) && |t.ks| < 2 * m - 1
    decreases h
  {
    if h == 0 then st
    else
      RoomyShape(m, h, t, x, st);
      var t1, pos := Roomy(m, h, t, x, st), RoomyPos(m, h, t, x);
      InsertStore(m, h - 1, t1.kids[pos], x, RoomyStore(m, h, t, x, st))
  }

  /* ---------- shape ---------- */

  lemma SplitKidShape(m: nat, h: nat, t: Node, pos: nat, id: nat)
    requires m >= 2 && h > 0 && t.Inner? && |t.kids| == |t.ks| + 1 && pos < |t.kids| && |t.kids[pos].ks| == 2 * m - 1
    requires forall i :: 0 <= i < |t.kids| ==> m - 1 <= |t.kids[i].ks| <= 2 * m - 1 && Shaped(m, t.kids[i], h - 1)
    ensures t.kids[pos].Inner? ==> |t.kids[pos].kids| == 2 * m
    ensures var t1 := SplitKid(m, t, pos, id);
      && Shaped(m, t1, h) && |t1.ks| == |t.ks| + 1
      && |t1.kids[pos].ks| < 2 * m - 1 && |t1.kids[pos + 1].ks| < 2 * m - 1
  {
    var c := t.kids[pos];
    assert Shaped(m, c, h - 1);
    assert Shaped(m, LeftHalf(m, c), h - 1) && Shaped(m, RightHalf(m, c, id), h - 1);
  }

  lemma RoomyShape(m: nat, h: nat, t: Node, x: int, st: Store)
    requires m >= 2 && h > 0 && Shaped(m, t, h)
    ensures var t1, pos := Roomy(m, h, t, x, st), RoomyPos(m, h, t, x);
      && Shaped(m, t1, h) && |t.ks| <= |t1.ks| <= |t.ks| + 1
      && pos < |t1.kids| && |t1.kids[pos].ks| < 2 * m - 1 && Shaped(m, t1.kids[pos], h - 1)
  {
    var pos := UpperPos(t.ks, x);
    KidShaped(m, h, t, pos);
    if |t.kids[pos].ks| == 2 * m - 1 {
      SplitKidShape(m, h, t, pos, st.unused);
      KidShaped(m, h, SplitKid(m, t, pos, st.unused), RoomyPos(m, h, t, x));
    }
  }

  lemma WithKidShape(m: nat, h: nat, t: Node, pos: nat, c: Node)
    requires h > 0 && Shaped(m, t, h) && pos < |t.kids| && m - 1 <= |c.ks| <= 2 * m - 1 && Shaped(m, c, h - 1)
    ensures Shaped(m, WithKid(t, pos, c), h)
  {
  }

  /** The leaves stay at one depth, every node below stays filled, and the node grows by at most one key. */
  lemma {:induction false} InsertNodeShape(m: nat, h: nat, t: Node, x: int, st: Store)
    requires m >= 2 && Shaped(m, t, h) && |t.ks| < 2 * m - 1
    ensures var r := InsertNode(m, h, t, x, st); Shaped(m, r, h) && |t.ks| <= |r.ks| <= |t.ks| + 1
    decreases h
  {
    if h == 0 {
    } else {
      RoomyShape(m, h, t, x, st);
      var t1, pos, st1 := Roomy(m, h, t, x, st), RoomyPos(m, h, t, x), RoomyStore(m, h, t, x, st);
      KidShaped(m, h, t1, pos);
      InsertNodeShape(m, h - 1, t1.kids[pos], x, st1);
      WithKidShape(m, h, t1, pos, InsertNode(m, h - 1, t1.kids[pos], x, st1));
    }
  }

  /* ---------- which way an insertion goes ---------- */

  /** A leaf gets the key to the right of those not greater than it. */
  lemma InsertInLeaf(m: nat, t: Node, x: int, p: nat, st: Store)
    requires m >= 2 && t.Leaf? && |t.ks| < 2 * m - 1 && GoesTo(t.ks, x, p)
    ensures InsertNode(m, 0, t, x, st) == Leaf(t.id, t.ks[..p] + [x] + t.ks[p..]) && InsertStore(m, 0, t, x, st) == st
  {
    GoesIs(t.ks, x, p);
    hide UpperPos;
  }

  /** An inner node sends it down to the right of the separators not greater than it; with room in the kid there
      nothing else of the node changes. */
  lemma InsertGoesDown(m: nat, h: nat, t: Node, x: int, p: nat, st: Store)
    requires m >= 2 && h > 0 && Shaped(m, t, h) && |t.ks| < 2 * m - 1 && GoesTo(t.ks, x, p)
    requires p < |t.kids| && |t.kids[p].ks| < 2 * m - 1
    ensures var r := InsertNode(m, h, t, x, st);
      r.Inner? && r.ks == t.ks && |r.kids| == |t.kids| && r.kids == t.kids[p := r.kids[p]]
  {
    GoesIs(t.ks, x, p);
    RoomyShape(m, h, t, x, st);
    KidShaped(m, h, t, p);
    hide UpperPos;
    hide Shaped;
  }

  /** A full kid there is halved first, a leaf keeping its middle key, which is copied up; the key goes to the right
      half only if it is greater, and the other half stays as it is. */
  lemma InsertHalves(m: nat, h: nat, t: Node, x: int, p: nat, st: Store)
    requires m >= 2 && h > 0 && Shaped(m, t, h) && |t.ks| < 2 * m - 1 && GoesTo(t.ks, x, p)
    requires p < |t.kids| && |t.kids[p].ks| == 2 * m - 1
    ensures t.kids[p].Inner? ==> |t.kids[p].kids| == 2 * m
    ensures var r, c := InsertNode(m, h, t, x, st), t.kids[p];
      var left, right := if c.Leaf? then Leaf(c.id, c.ks[..m]) else Inner(c.ks[..m - 1], c.kids[..m]),
        if c.Leaf? then Leaf(st.unused, c.ks[m..]) else Inner(c.ks[m..], c.kids[m..]);
      && r.Inner? && r.ks == t.ks[..p] + [c.ks[m - 1]] + t.ks[p..] && |r.kids| == |t.kids| + 1
      && if x > c.ks[m - 1] then r.kids == t.kids[..p] + [left, r.kids[p + 1]] + t.kids[p + 1..]
         else r.kids == t.kids[..p] + [r.kids[p], right] + t.kids[p + 1..]
  {
    GoesIs(t.ks, x, p);
    KidShaped(m, h, t, p);
    RoomyShape(m, h, t, x, st);
    var c, r := t.kids[p], InsertNode(m, h, t, x, st);
    var left, right := LeftHalf(m, c), RightHalf(m, c, st.unused);
    assert Roomy(m, h, t, x, st).kids == t.kids[..p] + [left, right] + t.kids[p + 1..];
    if x > c.ks[m - 1] {
      ReplaceSecond(t.kids[..p], left, right, t.kids[p + 1..], r.kids[p + 1]);
    } else {
      ReplaceFirst(t.kids[..p], left, right, t.kids[p + 1..], r.kids[p]);
    }
    hide UpperPos;
    hide Shaped;
  }

  /* ---------- the keys in the leaves ---------- */

  lemma {:induction false} LeavesJoin(a: seq<Node>, b: seq<Node>)
    ensures LeavesAll(a + b) == LeavesAll(a) + LeavesAll(b)
  {
    if a == [] {
      assert a + b == b;
    } else {
      assert (a + b)[1..] == a[1..] + b;
      LeavesJoin(a[1..], b);
    }
  }

  lemma {:induction false} KeysJoin(a: seq<Node>, b: seq<Node>)
    ensures Keys(a + b) == Keys(a) + Keys(b)
  {
    if a == [] {
      assert a + b == b;
    } else {
      assert (a + b)[1..] == a[1..] + b;
      KeysJoin(a[1..], b);
    }
  }

  lemma {:induction false} IdsJoin(a: seq<Node>, b: seq<Node>)
    ensures Ids(a + b) == Ids(a) + Ids(b)
  {
    if a == [] {
      assert a + b == b;
    } else {
      assert (a + b)[1..] == a[1..] + b;
      IdsJoin(a[1..], b);
    }
  }

  lemma Singles(t: Node)
    ensures LeavesAll([t]) == Leaves(t) && Keys([t]) == t.ks
    ensures t.Leaf? ==> Ids([t]) == [t.id]
  {
    assert [t][1..] == [];
  }

  /** The leaves before, in and after kid `pos`. */
  lemma LeavesAround(t: Node, pos: nat)
    requires t.Inner? && pos < |t.kids|
    ensures Leaves(t) == LeavesAll(t.kids[..pos]) + Leaves(t.kids[pos]) + LeavesAll(t.kids[pos + 1..])
  {
    var a, b := t.kids[..pos], t.kids[pos + 1..];
    assert t.kids == a + ([t.kids[pos]] + b);
    LeavesJoin(a, [t.kids[pos]] + b);
    LeavesJoin([t.kids[pos]], b);
    Singles(t.kids[pos]);
  }

  lemma LeavesWithKid(t: Node, pos: nat, c: Node)
    requires t.Inner? && pos < |t.kids|
    ensures Leaves(WithKid(t, pos, c)) == LeavesAll(t.kids[..pos]) + Leaves(c) + LeavesAll(t.kids[pos + 1..])
  {
    var r := WithKid(t, pos, c);
    LeavesAround(r, pos);
    assert r.kids[..pos] == t.kids[..pos] && r.kids[pos + 1..] == t.kids[pos + 1..];
  }

  /** The leaves of the two halves: those of the node, or the node's keys in two leaves. */
  function HalvedLeaves(m: nat, c: Node, id: nat): seq<Node>
    requires 1 <= m && |c.ks| == 2 * m - 1 && (c.Inner? ==> |c.kids| == 2 * m)
  {
    if c.Leaf? then [LeftHalf(m, c), RightHalf(m, c, id)] else Leaves(c)
  }

  lemma LeavesSplit(m: nat, t: Node, pos: nat, id: nat)
    requires 1 <= m && t.Inner? && |t.kids| == |t.ks| + 1 && pos < |t.kids|
    requires var c := t.kids[pos]; |c.ks| == 2 * m - 1 && (c.Inner? ==> |c.kids| == 2 * m)
    ensures Leaves(SplitKid(m, t, pos, id)) ==
      LeavesAll(t.kids[..pos]) + HalvedLeaves(m, t.kids[pos], id) + LeavesAll(t.kids[pos + 1..])
  {
    var c := t.kids[pos];
    var l, r := LeftHalf(m, c), RightHalf(m, c, id);
    LeavesJoin(t.kids[..pos], [l, r] + t.kids[pos + 1..]);
    assert t.kids[..pos] + [l, r] + t.kids[pos + 1..] == t.kids[..pos] + ([l, r] + t.kids[pos + 1..]);
    LeavesJoin([l, r], t.kids[pos + 1..]);
    assert [l, r] == [l] + [r];
    LeavesJoin([l], [r]);
    Singles(l);
    Singles(r);
    if c.Inner? {
      LeavesJoin(c.kids[..m], c.kids[m..]);
      assert c.kids[..m] + c.kids[m..] == c.kids;
    }
  }

  lemma KeysHalved(m: nat, c: Node, id: nat)
    requires 1 <= m && |c.ks| == 2 * m - 1 && (c.Inner? ==> |c.kids| == 2 * m)
    ensures Keys(HalvedLeaves(m, c, id)) == Keys(Leaves(c))
  {
    if c.Leaf? {
      var l, r := LeftHalf(m, c), RightHalf(m, c, id);
      assert [l, r] == [l] + [r];
      KeysJoin([l], [r]);
      Singles(l);
      Singles(r);
      Singles(c);
      assert c.ks[..m] + c.ks[m..] == c.ks;
    }
  }

  lemma KeysOfThree(a: seq<Node>, b: seq<Node>, c: seq<Node>)
    ensures Keys(a + b + c) == Keys(a) + Keys(b) + Keys(c)
  {
    KeysJoin(a + b, c);
    KeysJoin(a, b);
  }

  lemma IdsOfThree(a: seq<Node>, b: seq<Node>, c: seq<Node>)
    ensures Ids(a + b + c) == Ids(a) + Ids(b) + Ids(c)
  {
    IdsJoin(a + b, c);
    IdsJoin(a, b);
  }

  lemma RoomyKeys(m: nat, h: nat, t: Node, x: int, st: Store)
    requires m >= 2 && h > 0 && Shaped(m, t, h)
    ensures Keys(Leaves(Roomy(m, h, t, x, st))) == Keys(Leaves(t))
  {
    var pos := UpperPos(t.ks, x);
    KidShaped(m, h, t, pos);
    if |t.kids[pos].ks| == 2 * m - 1 {
      hide Shaped;
      var c := t.kids[pos];
      LeavesSplit(m, t, pos, st.unused);
      LeavesAround(t, pos);
      KeysHalved(m, c, st.unused);
      KeysOfThree(LeavesAll(t.kids[..pos]), Leaves(c), LeavesAll(t.kids[pos + 1..]));
      KeysOfThree(LeavesAll(t.kids[..pos]), HalvedLeaves(m, c, st.unused), LeavesAll(t.kids[pos + 1..]));
      hide SplitKid;
      hide Leaves;
      hide Keys;
      hide HalvedLeaves;
    }
  }

  /** An insertion adds exactly one `x` to the keys in the leaves. */
  lemma {:induction false} InsertNodeKeys(m: nat, h: nat, t: Node, x: int, st: Store)
    requires m >= 2 && Shaped(m, t, h) && |t.ks| < 2 * m - 1
    ensures Inserted(Keys(Leaves(t)), Keys(Leaves(InsertNode(m, h, t, x, st))), x)
    decreases h
  {
    if h == 0 {
      var pos := UpperPos(t.ks, x);
      Singles(t);
      Singles(InsertNode(m, h, t, x, st));
      assert InsertedAt(t.ks, t.ks[..pos] + [x] + t.ks[pos..], x, pos);
    } else {
      InsertBelowKeys(m, h, t, x, st);
    }
  }

  lemma {:induction false} InsertBelowKeys(m: nat, h: nat, t: Node, x: int, st: Store)
    requires m >= 2 && h > 0 && Shaped(m, t, h) && |t.ks| < 2 * m - 1
    ensures Inserted(Keys(Leaves(t)), Keys(Leaves(InsertNode(m, h, t, x, st))), x)
    decreases h, 0
  {
    hide *;
    RoomyShape(m, h, t, x, st);
    RoomyKeys(m, h, t, x, st);
    var t1, pos, st1 := Roomy(m, h, t, x, st), RoomyPos(m, h, t, x), RoomyStore(m, h, t, x, st);
    InsertNodeKeys(m, h - 1, t1.kids[pos], x, st1);
    InsertIs(m, h, t, x, st);
    var c := InsertNode(m, h - 1, t1.kids[pos], x, st1);
    LeavesAround(t1, pos);
    LeavesWithKid(t1, pos, c);
    var a, b := LeavesAll(t1.kids[..pos]), LeavesAll(t1.kids[pos + 1..]);
    KeysOfThree(a, Leaves(t1.kids[pos]), b);
    KeysOfThree(a, Leaves(c), b);
    InsertedWithin(Keys(a), Keys(Leaves(t1.kids[pos])), Keys(Leaves(c)), Keys(b), x);
  }

  lemma InsertIs(m: nat, h: nat, t: Node, x: int, st: Store)
    requires m >= 2 && h > 0 && Shaped(m, t, h) && |t.ks| < 2 * m - 1
    ensures var t1, pos, st1 := Roomy(m, h, t, x, st), RoomyPos(m, h, t, x), RoomyStore(m, h, t, x, st);
      && t1.Inner? && pos < |t1.kids| && Shaped(m, t1.kids[pos], h - 1) && |t1.kids[pos].ks| < 2 * m - 1
      && InsertNode(m, h, t, x, st) == WithKid(t1, pos, InsertNode(m, h - 1, t1.kids[pos], x, st1))
      && InsertStore(m, h, t, x, st) == InsertStore(m, h - 1, t1.kids[pos], x, st1)
  {
    RoomyShape(m, h, t, x, st);
  }

  /* ---------- the search order ---------- */

  /** The separators and leaf keys, read in order, are sorted. */
  ghost predicate InSearchOrder(t: Node) {
    Sorted(InOrder(Plain(t)))
  }

  /** `s'` is sorted and has no values but those of `s` and `x`. */
  ghost predicate Widened(s: seq<int>, s': seq<int>, x: int) {
    Sorted(s') && forall e :: e in s' ==> e in s || e == x
  }

  lemma {:induction false} ShapedPlain(m: nat, t: Node, h: nat)
    requires Shaped(m, t, h)
    ensures BTreeModel.Kids(m, Plain(t), h) && Plain(t).keys == t.ks
    decreases h
  {
    if h == 0 {
    } else {
      forall i | 0 <= i < |t.kids|
        ensures BTreeModel.Kids(m, Plain(t).kids[i], h - 1) && |Plain(t).kids[i].keys| == |t.kids[i].ks|
      {
        ShapedPlain(m, t.kids[i], h - 1);
      }
    }
  }

  lemma {:induction false} PlainJoin(a: seq<Node>, b: seq<Node>)
    ensures PlainAll(a + b) == PlainAll(a) + PlainAll(b)
  {
  }

  lemma PlainSlices(ts: seq<Node>, i: nat)
    requires i <= |ts|
    ensures PlainAll(ts[..i]) == PlainAll(ts)[..i] && PlainAll(ts[i..]) == PlainAll(ts)[i..]
  {
  }

  lemma PlainWithKid(t: Node, pos: nat, c: Node)
    requires t.Inner? && pos < |t.kids|
    ensures Plain(WithKid(t, pos, c)) == ReplaceKid(Plain(t), pos, Plain(c))
  {
  }

  /** Splitting an inner kid is what `BTreeModel` says; splitting a leaf leaves a copy of its middle key. */
  lemma PlainSplit(m: nat, t: Node, pos: nat, id: nat)
    requires 1 <= m && t.Inner? && |t.kids| == |t.ks| + 1 && pos < |t.kids|
    requires var c := t.kids[pos]; |c.ks| == 2 * m - 1 && (c.Inner? ==> |c.kids| == 2 * m)
    ensures var c, t1 := t.kids[pos], Plain(SplitKid(m, t, pos, id));
      && t1.keys == t.ks[..pos] + [c.ks[m - 1]] + t.ks[pos..]
      && t1.kids == Plain(t).kids[..pos] + [Plain(LeftHalf(m, c)), Plain(RightHalf(m, c, id))]
           + Plain(t).kids[pos + 1..]
  {
    var c := t.kids[pos];
    var l, r := LeftHalf(m, c), RightHalf(m, c, id);
    PlainSlices(t.kids, pos);
    PlainSlices(t.kids, pos + 1);
    PlainJoin(t.kids[..pos] + [l, r], t.kids[pos + 1..]);
    PlainJoin(t.kids[..pos], [l, r]);
    assert PlainAll([l, r]) == [Plain(l), Plain(r)];
  }

  lemma PlainHalves(m: nat, c: Node, id: nat)
    requires 1 <= m && c.Inner? && |c.ks| == 2 * m - 1 && |c.kids| == 2 * m
    ensures Plain(LeftHalf(m, c)) == LowerHalf(m, Plain(c)) && Plain(RightHalf(m, c, id)) == UpperHalf(m, Plain(c))
  {
    PlainSlices(c.kids, m);
  }

  lemma PlainSplitInner(m: nat, t: Node, pos: nat, id: nat)
    requires m >= 2 && t.Inner? && |t.kids| == |t.ks| + 1 && pos < |t.kids|
    requires var c := t.kids[pos]; c.Inner? && |c.ks| == 2 * m - 1 && |c.kids| == 2 * m
    ensures var p := Plain(t);
      && |p.kids| == |p.keys| + 1 && pos < |p.kids| && p.kids[pos] == Plain(t.kids[pos])
      && |p.kids[pos].keys| == 2 * m - 1 && |p.kids[pos].kids| == 2 * m
      && Plain(SplitKid(m, t, pos, id)) == SplitChild(m, p, pos)
  {
    PlainSplit(m, t, pos, id);
    PlainHalves(m, t.kids[pos], id);
    hide SplitKid;
    hide LeftHalf;
    hide RightHalf;
    hide LowerHalf;
    hide UpperHalf;
  }

  lemma SplitInnerOrder(m: nat, h: nat, t: Node, pos: nat, id: nat)
    requires m >= 2 && h > 0 && t.Inner? && |t.kids| == |t.ks| + 1 && pos < |t.kids|
    requires var c := t.kids[pos]; c.Inner? && |c.ks| == 2 * m - 1 && |c.kids| == 2 * m && Shaped(m, c, h - 1)
    ensures InOrder(Plain(SplitKid(m, t, pos, id))) == InOrder(Plain(t))
  {
    hide *;
    PlainSplitInner(m, t, pos, id);
    ShapedPlain(m, t.kids[pos], h - 1);
    SplitInOrder(m, h, Plain(t), pos);
  }

  /** A sorted list with its element `m - 1` written twice. */
  lemma Doubled(s: seq<int>, m: nat)
    requires Sorted(s) && 1 <= m <= |s|
    ensures Sorted(s[..m] + [s[m - 1]] + s[m..])
    ensures forall e :: e in s[..m] + [s[m - 1]] + s[m..] ==> e in s
  {
    var r := s[..m] + [s[m - 1]] + s[m..];
    assert forall i :: 0 <= i < |r| ==> r[i] == if i < m then s[i] else s[i - 1];
  }

  lemma LeafInOrder(ks: seq<int>)
    ensures InOrder(Tree.Node(ks, [])) == ks
  {
  }

  lemma SplitLeafOrder(m: nat, t: Node, pos: nat, id: nat)
    requires m >= 1 && t.Inner? && |t.kids| == |t.ks| + 1 && pos < |t.kids|
    requires t.kids[pos].Leaf? && |t.kids[pos].ks| == 2 * m - 1 && InSearchOrder(t)
    ensures InSearchOrder(SplitKid(m, t, pos, id))
    ensures forall e :: e in InOrder(Plain(SplitKid(m, t, pos, id))) ==> e in InOrder(Plain(t))
  {
    var c, p, t1 := t.kids[pos], Plain(t), Plain(SplitKid(m, t, pos, id));
    PlainSplit(m, t, pos, id);
    var l, r, mid := Plain(LeftHalf(m, c)), Plain(RightHalf(m, c, id)), c.ks[m - 1];
    hide InOrder;
    LeafInOrder(c.ks);
    LeafInOrder(c.ks[..m]);
    LeafInOrder(c.ks[m..]);
    Around(p, pos);
    AroundPair(t1, pos);
    assert t1.keys[..pos] == p.keys[..pos] && t1.kids[..pos] == p.kids[..pos];
    assert t1.keys[pos + 1..] == p.keys[pos..] && t1.kids[pos + 2..] == p.kids[pos + 1..];
    var b, a := Before(p.keys[..pos], p.kids[..pos]), After(p.keys[pos..], p.kids[pos + 1..]);
    hide Before;
    hide After;
    SortedMiddle(b, c.ks, a);
    Doubled(c.ks, m);
    MiddleWidened(b, c.ks, c.ks[..m] + [mid] + c.ks[m..], a, mid);
  }

  /** A part of a sorted list replaced by one with no new values, or only one that fits. */
  lemma MiddleWidened(b: seq<int>, s: seq<int>, s': seq<int>, a: seq<int>, x: int)
    requires Sorted(b + s + a) && Widened(s, s', x)
    requires x in s || (Ordered(b, [x]) && Ordered([x], a))
    ensures Widened(b + s + a, b + s' + a, x)
  {
    SortedMiddle(b, s, a);
    SortedMiddle(b, s', a);
    forall i, j | 0 <= i < |b| && 0 <= j < |s'|
      ensures b[i] <= s'[j]
    {
      if s'[j] !in s {
        assert b[i] <= [x][0];
      }
    }
    forall i, j | 0 <= i < |s'| && 0 <= j < |a|
      ensures s'[i] <= a[j]
    {
      if s'[i] !in s {
        assert [x][0] <= a[j];
      }
    }
  }

  /** The counterpart of `BTreeModel.InsertInKid`, for a kid in which separators may have been copied. */
  lemma KidWidened(t: Tree, pos: nat, c: Tree, x: int)
    requires |t.kids| == |t.keys| + 1 && pos < |t.kids| && Sorted(InOrder(t)) && Between(t.keys, pos, x)
    requires Widened(InOrder(t.kids[pos]), InOrder(c), x)
    ensures Widened(InOrder(t), InOrder(ReplaceKid(t, pos, c)), x)
  {
    hide InOrder;
    var r := ReplaceKid(t, pos, c);
    var b, a := Before(t.keys[..pos], t.kids[..pos]), After(t.keys[pos..], t.kids[pos + 1..]);
    Around(t, pos);
    Around(r, pos);
    assert r.kids[..pos] == t.kids[..pos] && r.kids[pos + 1..] == t.kids[pos + 1..];
    Bounds(t, pos);
    hide Before;
    hide After;
    assert pos > 0 ==> forall i :: 0 <= i < |b| ==> b[i] <= [t.keys[pos - 1]][0];
    assert pos < |t.keys| ==> forall i :: 0 <= i < |a| ==> [t.keys[pos]][0] <= a[i];
    MiddleWidened(b, InOrder(t.kids[pos]), InOrder(c), a, x);
  }

  lemma RoomyBetween(m: nat, h: nat, t: Node, x: int, st: Store)
    requires m >= 2 && h > 0 && Shaped(m, t, h)
    ensures Between(Roomy(m, h, t, x, st).ks, RoomyPos(m, h, t, x), x)
  {
    hide UpperPos;
    UpperBetween(t.ks, x);
    var pos := UpperPos(t.ks, x);
    KidShaped(m, h, t, pos);
    if |t.kids[pos].ks| == 2 * m - 1 {
      SplitKeys(t.ks, pos, t.kids[pos].ks[m - 1]);
    }
  }

  lemma RoomyOrder(m: nat, h: nat, t: Node, x: int, st: Store)
    requires m >= 2 && h > 0 && Shaped(m, t, h) && InSearchOrder(t)
    ensures InSearchOrder(Roomy(m, h, t, x, st))
    ensures forall e :: e in InOrder(Plain(Roomy(m, h, t, x, st))) ==> e in InOrder(Plain(t))
  {
    var pos := UpperPos(t.ks, x);
    KidShaped(m, h, t, pos);
    if |t.kids[pos].ks| == 2 * m - 1 {
      if t.kids[pos].Leaf? {
        SplitLeafOrder(m, t, pos, st.unused);
      } else {
        SplitInnerOrder(m, h, t, pos, st.unused);
      }
    }
  }

  /** An insertion keeps the search order. */
  lemma {:induction false} InsertNodeOrder(m: nat, h: nat, t: Node, x: int, st: Store)
    requires m >= 2 && Shaped(m, t, h) && |t.ks| < 2 * m - 1 && InSearchOrder(t)
    ensures Widened(InOrder(Plain(t)), InOrder(Plain(InsertNode(m, h, t, x, st))), x)
    decreases h
  {
    if h == 0 {
      LeafInsert(t.ks, x);
      var pos := UpperPos(t.ks, x);
      LeafInOrder(t.ks);
      LeafInOrder(t.ks[..pos] + [x] + t.ks[pos..]);
    } else {
      InsertBelowOrder(m, h, t, x, st);
    }
  }

  lemma {:induction false} InsertBelowOrder(m: nat, h: nat, t: Node, x: int, st: Store)
    requires m >= 2 && h > 0 && Shaped(m, t, h) && |t.ks| < 2 * m - 1 && InSearchOrder(t)
    ensures Widened(InOrder(Plain(t)), InOrder(Plain(InsertNode(m, h, t, x, st))), x)
    decreases h, 0
  {
    hide *;
    RoomyOrder(m, h, t, x, st);
    RoomyBetween(m, h, t, x, st);
    InsertIs(m, h, t, x, st);
    RoomyShape(m, h, t, x, st);
    var t1, pos, st1 := Roomy(m, h, t, x, st), RoomyPos(m, h, t, x), RoomyStore(m, h, t, x, st);
    var p1, c := Plain(t1), InsertNode(m, h - 1, t1.kids[pos], x, st1);
    PlainParts(m, h, t1, pos);
    KidSorted(p1, pos);
    InsertNodeOrder(m, h - 1, t1.kids[pos], x, st1);
    KidWidened(p1, pos, Plain(c), x);
    PlainWithKid(t1, pos, c);
    WidenedOver(InOrder(Plain(t)), InOrder(p1), InOrder(ReplaceKid(p1, pos, Plain(c))), x);
  }

  lemma WidenedOver(s0: seq<int>, s: seq<int>, s': seq<int>, x: int)
    requires Widened(s, s', x) && forall e :: e in s ==> e in s0
    ensures Widened(s0, s', x)
  {
  }

  lemma PlainParts(m: nat, h: nat, t: Node, pos: nat)
    requires h > 0 && Shaped(m, t, h) && pos < |t.kids| && InSearchOrder(t)
    ensures var p := Plain(t);
      && p.keys == t.ks && |p.kids| == |p.keys| + 1 && pos < |p.kids| && p.kids[pos] == Plain(t.kids[pos])
      && Sorted(InOrder(p))
    ensures Sorted(InOrder(Plain(t.kids[pos]))) ==> InSearchOrder(t.kids[pos])
  {
  }

  /** The leaf keys of a tree in search order are sorted, and all of them are in its in-order list. */
  lemma {:induction false} LeavesSorted(m: nat, h: nat, t: Node)
    requires Shaped(m, t, h) && Sorted(InOrder(Plain(t)))
    ensures Sorted(Keys(Leaves(t))) && forall e :: e in Keys(Leaves(t)) ==> e in InOrder(Plain(t))
    decreases h, 0
  {
    if h == 0 {
      Singles(t);
      LeafInOrder(t.ks);
    } else {
      var p, c, rest := Plain(t), t.kids[0], t.kids[1..];
      InOrderHead(p);
      assert PlainAll(rest) == p.kids[1..];
      SortedAppend(InOrder(Plain(c)), After(t.ks, PlainAll(rest)));
      LeavesSorted(m, h - 1, c);
      RestSorted(m, h, t.ks, rest);
      KeysJoin(Leaves(c), LeavesAll(rest));
      PartsSorted(InOrder(Plain(c)), After(t.ks, PlainAll(rest)), Keys(Leaves(c)), Keys(LeavesAll(rest)));
    }
  }

  lemma PartsSorted(s: seq<int>, s': seq<int>, u: seq<int>, u': seq<int>)
    requires Ordered(s, s') && Sorted(u) && Sorted(u')
    requires (forall e :: e in u ==> e in s) && (forall e :: e in u' ==> e in s')
    ensures Sorted(u + u') && forall e :: e in u + u' ==> e in s + s'
  {
    forall i, j | 0 <= i < |u| && 0 <= j < |u'|
      ensures u[i] <= u'[j]
    {
      assert u[i] in u && u'[j] in u';
      assert u[i] in s && u'[j] in s';
    }
    SortedAppend(u, u');
  }

  lemma {:induction false} RestSorted(m: nat, h: nat, ks: seq<int>, ts: seq<Node>)
    requires h > 0 && |ks| == |ts| && (forall i :: 0 <= i < |ts| ==> Shaped(m, ts[i], h - 1))
    requires Sorted(After(ks, PlainAll(ts)))
    ensures Sorted(Keys(LeavesAll(ts))) && forall e :: e in Keys(LeavesAll(ts)) ==> e in After(ks, PlainAll(ts))
    decreases h - 1, 1, |ts|
  {
    if ts == [] {
    } else {
      var c, rest, ks1 := ts[0], ts[1..], ks[1..];
      var s, s' := [ks[0]] + InOrder(Plain(c)), After(ks1, PlainAll(rest));
      assert PlainAll(ts)[1..] == PlainAll(rest);
      assert After(ks, PlainAll(ts)) == s + s';
      SortedAppend(s, s');
      SortedAppend([ks[0]], InOrder(Plain(c)));
      LeavesSorted(m, h - 1, c);
      RestSorted(m, h, ks1, rest);
      KeysJoin(Leaves(c), LeavesAll(rest));
      PartsSorted(s, s', Keys(Leaves(c)), Keys(LeavesAll(rest)));
    }
  }

  /* ---------- the chain of leaves ---------- */

  function Succ(n: nat, i: nat): nat {
    if i + 1 < n then i + 1 else 0
  }

  /** `q` comes right after `p`. */
  ghost predicate Linked(st: Store, p: nat, q: nat) {
    p in st.next && st.next[p] == q && q in st.prev && st.prev[q] == p
  }

  /** `next` leads round the leaves in order, `prev` back, and all addresses are in use and different. */
  ghost predicate Chain(st: Store, ids: seq<nat>) {
    && ids != [] && Distinct(ids)
    && (forall i :: 0 <= i < |ids| ==> ids[i] < st.unused)
    && (forall i :: 0 <= i < |ids| ==> Linked(st, ids[i], ids[Succ(|ids|, i)]))
  }

  /** `prev` and `next` undo each other on the chain. */
  lemma MutualInverses(st: Store, ids: seq<nat>, id: nat)
    requires Chain(st, ids) && id in ids
    ensures id in st.next && st.next[id] in st.prev && st.prev[st.next[id]] == id
    ensures id in st.prev && st.prev[id] in st.next && st.next[st.prev[id]] == id
  {
    var i :| 0 <= i < |ids| && ids[i] == id;
    assert Linked(st, ids[i], ids[Succ(|ids|, i)]);
    var j := Pred(|ids|, i);
    assert Linked(st, ids[j], ids[Succ(|ids|, j)]);
  }

  lemma Pred(n: nat, i: nat) returns (j: nat)
    requires i < n
    ensures j < n && Succ(n, j) == i
  {
    j := if i == 0 then n - 1 else i - 1;
  }

  /** The new link. */
  lemma LinksNew(st: Store, child: nat, after: nat)
    requires Linked(st, child, after) && child != st.unused && after != st.unused
    ensures var st' := LinkAfter(st, child, st.unused); Linked(st', child, st.unused) && Linked(st', st.unused, after)
  {
  }

  /** The other links stay. */
  lemma LinksKept(st: Store, child: nat, after: nat, p: nat, q: nat)
    requires Linked(st, child, after) && Linked(st, p, q) && p != child && p < st.unused && q < st.unused
    ensures Linked(LinkAfter(st, child, st.unused), p, q)
  {
  }

  function Spliced(ids: seq<nat>, i: nat, id: nat): (r: seq<nat>)
    requires i < |ids|
    ensures |r| == |ids| + 1 && r[i + 1] == id
    ensures forall j :: 0 <= j <= i ==> r[j] == ids[j]
    ensures forall j :: i + 1 < j < |r| ==> r[j] == ids[j - 1]
  {
    ids[..i + 1] + [id] + ids[i + 1..]
  }

  lemma SplicedDistinct(ids: seq<nat>, i: nat, id: nat)
    requires i < |ids| && Distinct(ids) && forall j :: 0 <= j < |ids| ==> ids[j] < id
    ensures Distinct(Spliced(ids, i, id)) && forall j :: 0 <= j < |ids| + 1 ==> Spliced(ids, i, id)[j] < id + 1
  {
    var r := Spliced(ids, i, id);
    forall j, k | 0 <= j < k < |r|
      ensures r[j] != r[k]
    {
      if j != i + 1 && k != i + 1 {
        var j', k' := if j <= i then j else j - 1, if k <= i then k else k - 1;
        assert r[j] == ids[j'] && r[k] == ids[k'] && j' < k';
      }
    }
  }

  lemma LinkAt(st: Store, ids: seq<nat>, i: nat, j: nat)
    requires Chain(st, ids) && i < |ids| && j <= |ids|
    ensures var r := Spliced(ids, i, st.unused);
      Linked(LinkAfter(st, ids[i], st.unused), r[j], r[Succ(|ids| + 1, j)])
  {
    hide LinkAfter;
    hide Linked;
    var r, n := Spliced(ids, i, st.unused), |ids|;
    hide Spliced;
    assert Linked(st, ids[i], ids[Succ(n, i)]);
    LinksNew(st, ids[i], ids[Succ(n, i)]);
    if j != i && j != i + 1 {
      var j' := if j < i then j else j - 1;
      assert r[j] == ids[j'] && r[Succ(n + 1, j)] == ids[Succ(n, j')];
      assert Linked(st, ids[j'], ids[Succ(n, j')]);
      LinksKept(st, ids[i], ids[Succ(n, i)], ids[j'], ids[Succ(n, j')]);
    }
  }

  /** The relinking of a split puts the new leaf right after the old one. */
  lemma LinkAfterChain(st: Store, ids: seq<nat>, i: nat)
    requires Chain(st, ids) && i < |ids|
    ensures Chain(LinkAfter(st, ids[i], st.unused), Spliced(ids, i, st.unused))
  {
    var st', r := LinkAfter(st, ids[i], st.unused), Spliced(ids, i, st.unused);
    SplicedDistinct(ids, i, st.unused);
    assert st'.unused == st.unused + 1 by {
      assert Linked(st, ids[i], ids[Succ(|ids|, i)]);
    }
    hide Spliced;
    hide LinkAfter;
    hide Linked;
    hide Succ;
    hide Distinct;
    forall j | 0 <= j < |r|
      ensures Linked(st', r[j], r[Succ(|r|, j)])
    {
      LinkAt(st, ids, i, j);
    }
  }

  /** Splitting a kid keeps the chain, whatever leaves `a` and `b` lie to the left and right. */
  lemma SplitKidChain(m: nat, t: Node, pos: nat, st: Store, a: seq<Node>, b: seq<Node>)
    requires 1 <= m && t.Inner? && |t.kids| == |t.ks| + 1 && pos < |t.kids|
    requires var c := t.kids[pos]; |c.ks| == 2 * m - 1 && (c.Inner? ==> |c.kids| == 2 * m)
    requires Chain(st, Ids(a + Leaves(t) + b))
    ensures Chain(SplitStore(t, pos, st), Ids(a + Leaves(SplitKid(m, t, pos, st.unused)) + b))
  {
    var c, id := t.kids[pos], st.unused;
    LeavesSplit(m, t, pos, id);
    LeavesAround(t, pos);
    hide Chain;
    hide SplitKid;
    hide LinkAfter;
    if c.Leaf? {
      LeafSplitChain(m, c, st, a, LeavesAll(t.kids[..pos]), LeavesAll(t.kids[pos + 1..]), b);
      Singles(c);
    }
  }

  lemma LeafSplitChain(m: nat, c: Node, st: Store, a: seq<Node>, l: seq<Node>, r: seq<Node>, b: seq<Node>)
    requires 1 <= m && |c.ks| == 2 * m - 1 && c.Leaf? && Chain(st, Ids(a + (l + [c] + r) + b))
    ensures Chain(LinkAfter(st, c.id, st.unused), Ids(a + (l + [LeftHalf(m, c), RightHalf(m, c, st.unused)] + r) + b))
  {
    hide *;
    IdsAround(a, l, [c], r, b);
    Singles(c);
    IdsAround(a, l, [LeftHalf(m, c), RightHalf(m, c, st.unused)], r, b);
    TwoIds(m, c, st.unused);
    var front, back := Ids(a) + Ids(l), Ids(r) + Ids(b);
    LinkAfterChain(st, front + [c.id] + back, |front|);
    SplicedIs(front, c.id, back, st.unused);
  }

  lemma SplicedIs(front: seq<nat>, id: nat, back: seq<nat>, id': nat)
    ensures Spliced(front + [id] + back, |front|, id') == front + [id, id'] + back
  {
    var ids := front + [id] + back;
    assert ids[..|front| + 1] == front + [id] && ids[|front| + 1..] == back;
  }

  lemma TwoIds(m: nat, c: Node, id: nat)
    requires 1 <= m && |c.ks| == 2 * m - 1 && c.Leaf?
    ensures Ids([LeftHalf(m, c), RightHalf(m, c, id)]) == [c.id, id]
  {
    assert [LeftHalf(m, c), RightHalf(m, c, id)][1..] == [RightHalf(m, c, id)];
    Singles(RightHalf(m, c, id));
  }

  lemma IdsAround(a: seq<Node>, l: seq<Node>, c: seq<Node>, r: seq<Node>, b: seq<Node>)
    ensures Ids(a + (l + c + r) + b) == Ids(a) + Ids(l) + Ids(c) + (Ids(r) + Ids(b))
  {
    hide *;
    IdsOfThree(a, l + c + r, b);
    IdsOfThree(l, c, r);
    ShuffleIds(Ids(a), Ids(l), Ids(c), Ids(r), Ids(b));
  }

  lemma ShuffleIds(a: seq<nat>, l: seq<nat>, c: seq<nat>, r: seq<nat>, b: seq<nat>)
    ensures a + (l + c + r) + b == a + l + c + (r + b)
  {
  }

  lemma Shuffle(a: seq<Node>, l: seq<Node>, c: seq<Node>, r: seq<Node>, b: seq<Node>)
    ensures a + (l + c + r) + b == (a + l) + c + (r + b)
  {
  }

  lemma RoomyChain(m: nat, h: nat, t: Node, x: int, st: Store, a: seq<Node>, b: seq<Node>)
    requires m >= 2 && h > 0 && Shaped(m, t, h) && Chain(st, Ids(a + Leaves(t) + b))
    ensures Chain(RoomyStore(m, h, t, x, st), Ids(a + Leaves(Roomy(m, h, t, x, st)) + b))
  {
    var pos := UpperPos(t.ks, x);
    KidShaped(m, h, t, pos);
    hide Chain;
    hide Leaves;
    hide SplitKid;
    if |t.kids[pos].ks| == 2 * m - 1 {
      SplitKidChain(m, t, pos, st, a, b);
    }
  }

  /** An insertion keeps the chain. */
  lemma {:induction false} InsertChain(m: nat, h: nat, t: Node, x: int, st: Store, a: seq<Node>, b: seq<Node>)
    requires m >= 2 && Shaped(m, t, h) && |t.ks| < 2 * m - 1 && Chain(st, Ids(a + Leaves(t) + b))
    ensures Chain(InsertStore(m, h, t, x, st), Ids(a + Leaves(InsertNode(m, h, t, x, st)) + b))
    decreases h
  {
    if h == 0 {
      IdsOfThree(a, Leaves(t), b);
      IdsOfThree(a, Leaves(InsertNode(m, h, t, x, st)), b);
      Singles(t);
      Singles(InsertNode(m, h, t, x, st));
    } else {
      hide *;
      RoomyChain(m, h, t, x, st, a, b);
      InsertIs(m, h, t, x, st);
      var t1, pos, st1 := Roomy(m, h, t, x, st), RoomyPos(m, h, t, x), RoomyStore(m, h, t, x, st);
      var c := InsertNode(m, h - 1, t1.kids[pos], x, st1);
      var l, r := LeavesAll(t1.kids[..pos]), LeavesAll(t1.kids[pos + 1..]);
      LeavesAround(t1, pos);
      LeavesWithKid(t1, pos, c);
      Shuffle(a, l, Leaves(t1.kids[pos]), r, b);
      Shuffle(a, l, Leaves(c), r, b);
      InsertChain(m, h - 1, t1.kids[pos], x, st1, a + l, r + b);
    }
  }

  /* ---------- the tree ---------- */

  datatype State = Whole(root: Node, height: nat, st: Store)

  function NoKeys(): State {
    Whole(Leaf(0, []), 0, Store(map[0 := 0], map[0 := 0], 1))
  }

  ghost predicate Valid(m: nat, s: State) {
    && m >= 2 && RootShaped(m, s.root, s.height) && InSearchOrder(s.root) && Chain(s.st, Ids(Leaves(s.root)))
  }

  /** A full root gets a new one above it, which is then split. */
  function Raised(m: nat, s: State): State
    requires m >= 2 && RootShaped(m, s.root, s.height)
  {
    if |s.root.ks| < 2 * m - 1 then s
    else
      var top := Inner([], [s.root]);
      RootArity(m, s.root, s.height);
      Whole(SplitKid(m, top, 0, s.st.unused), s.height + 1, SplitStore(top, 0, s.st))
  }

  lemma RootArity(m: nat, t: Node, h: nat)
    requires m >= 2 && RootShaped(m, t, h) && |t.ks| == 2 * m - 1
    ensures t.Inner? ==> |t.kids| == 2 * m
  {
  }

  /** `BTreeInsert`. */
  function Insert(m: nat, s: State, x: int): State
    requires m >= 2 && RootShaped(m, s.root, s.height)
  {
    RaisedShape(m, s);
    var r := Raised(m, s);
    Whole(InsertNode(m, r.height, r.root, x, r.st), r.height, InsertStore(m, r.height, r.root, x, r.st))
  }

  lemma RaisedShape(m: nat, s: State)
    requires m >= 2 && RootShaped(m, s.root, s.height)
    ensures var r := Raised(m, s);
      Shaped(m, r.root, r.height) && |r.root.ks| < 2 * m - 1 && (r.height > 0 ==> |r.root.ks| >= 1)
  {
    if |s.root.ks| == 2 * m - 1 {
      SplitKidShape(m, s.height + 1, Inner([], [s.root]), 0, s.st.unused);
    }
  }

  lemma OnlyKidPlain(t: Node)
    ensures InOrder(Plain(Inner([], [t]))) == InOrder(Plain(t)) && Leaves(Inner([], [t])) == Leaves(t)
  {
    assert PlainAll([t]) == [Plain(t)];
    OnlyKid(Plain(t));
    Singles(t);
  }

  lemma RaisedCorrect(m: nat, s: State)
    requires Valid(m, s)
    ensures var r := Raised(m, s);
      && InSearchOrder(r.root) && Keys(Leaves(r.root)) == Keys(Leaves(s.root)) && Chain(r.st, Ids(Leaves(r.root)))
  {
    if |s.root.ks| == 2 * m - 1 {
      var top, id := Inner([], [s.root]), s.st.unused;
      RootArity(m, s.root, s.height);
      OnlyKidPlain(s.root);
      RaisedOrder(m, s.height, s.root, id);
      RaisedKeys(m, s.root, id);
      assert [] + Leaves(top) + [] == Leaves(top);
      SplitKidChain(m, top, 0, s.st, [], []);
      assert [] + Leaves(SplitKid(m, top, 0, id)) + [] == Leaves(SplitKid(m, top, 0, id));
      hide Chain;
      hide Leaves;
      hide SplitKid;
      hide Shaped;
    }
  }

  lemma RaisedOrder(m: nat, h: nat, t: Node, id: nat)
    requires m >= 2 && Shaped(m, t, h) && |t.ks| == 2 * m - 1 && (t.Inner? ==> |t.kids| == 2 * m) && InSearchOrder(t)
    ensures InSearchOrder(SplitKid(m, Inner([], [t]), 0, id))
  {
    var top := Inner([], [t]);
    OnlyKidPlain(t);
    hide InOrder;
    hide Plain;
    hide SplitKid;
    hide Shaped;
    if t.Leaf? {
      SplitLeafOrder(m, top, 0, id);
    } else {
      SplitInnerOrder(m, h + 1, top, 0, id);
    }
  }

  lemma RaisedKeys(m: nat, t: Node, id: nat)
    requires m >= 2 && |t.ks| == 2 * m - 1 && (t.Inner? ==> |t.kids| == 2 * m)
    ensures Keys(Leaves(SplitKid(m, Inner([], [t]), 0, id))) == Keys(Leaves(t))
  {
    var top := Inner([], [t]);
    LeavesSplit(m, top, 0, id);
    KeysHalved(m, t, id);
    assert top.kids[..0] == [] && top.kids[1..] == [];
    assert LeavesAll([]) == [];
    assert [] + HalvedLeaves(m, t, id) + [] == HalvedLeaves(m, t, id);
  }

  /** `BTreeInsert` keeps the shape, the search order and the chain, and adds exactly one `x` to the leaves. */
  lemma InsertCorrect(m: nat, s: State, x: int)
    requires Valid(m, s)
    ensures Valid(m, Insert(m, s, x))
    ensures Inserted(Keys(Leaves(s.root)), Keys(Leaves(Insert(m, s, x).root)), x)
  {
    RaisedShape(m, s);
    RaisedCorrect(m, s);
    var r := Raised(m, s);
    InsertNodeShape(m, r.height, r.root, x, r.st);
    InsertNodeKeys(m, r.height, r.root, x, r.st);
    InsertNodeOrder(m, r.height, r.root, x, r.st);
    assert [] + Leaves(r.root) + [] == Leaves(r.root);
    InsertChain(m, r.height, r.root, x, r.st, [], []);
    var t := InsertNode(m, r.height, r.root, x, r.st);
    assert [] + Leaves(t) + [] == Leaves(t);
    hide Chain;
    hide Leaves;
    hide Keys;
    hide Shaped;
    hide Raised;
    hide InsertNode;
    hide InsertStore;
    hide Inserted;
  }

  /* ---------- whole runs ---------- */

  function Run(m: nat, xs: seq<int>): (s: State)
    requires m >= 2
    ensures RootShaped(m, s.root, s.height)
  {
    if xs == [] then NoKeys()
    else
      var s := Run(m, xs[..|xs| - 1]);
      InsertRootShape(m, s, xs[|xs| - 1]);
      Insert(m, s, xs[|xs| - 1])
  }

  lemma InsertRootShape(m: nat, s: State, x: int)
    requires m >= 2 && RootShaped(m, s.root, s.height)
    ensures RootShaped(m, Insert(m, s, x).root, Insert(m, s, x).height)
  {
    RaisedShape(m, s);
    var r := Raised(m, s);
    InsertNodeShape(m, r.height, r.root, x, r.st);
    hide Shaped;
    hide Raised;
    hide InsertNode;
  }

  lemma {:induction false} RunValid(m: nat, xs: seq<int>)
    requires m >= 2
    ensures Valid(m, Run(m, xs)) && multiset(Keys(Leaves(Run(m, xs).root))) == multiset(xs)
  {
    if xs == [] {
      EmptyValid(m);
    } else {
      hide *;
      var k := |xs| - 1;
      RunValid(m, xs[..k]);
      RunStep(m, xs);
      InsertCorrect(m, Run(m, xs[..k]), xs[k]);
      InsertedBag(Keys(Leaves(Run(m, xs[..k]).root)), Keys(Leaves(Run(m, xs).root)), xs[k]);
      assert xs == xs[..k] + [xs[k]];
    }
  }

  lemma RunStep(m: nat, xs: seq<int>)
    requires m >= 2 && xs != []
    ensures Run(m, xs) == Insert(m, Run(m, xs[..|xs| - 1]), xs[|xs| - 1])
  {
    hide Insert;
    hide RootShaped;
  }

  lemma EmptyValid(m: nat)
    requires m >= 2
    ensures Valid(m, NoKeys()) && Keys(Leaves(NoKeys().root)) == []
  {
    Singles(NoKeys().root);
    LeafInOrder([]);
  }

  /* ---------- walking the chain ---------- */

  /** The leaves met by following `next` for `n` steps from `start`. */
  function Walk(next: map<nat, nat>, start: nat, n: nat): seq<nat>
    decreases n
  {
    if n == 0 then [] else if start !in next then [start] else [start] + Walk(next, next[start], n - 1)
  }

  lemma {:induction false} WalkFrom(st: Store, ids: seq<nat>, i: nat)
    requires Chain(st, ids) && i < |ids|
    ensures Walk(st.next, ids[i], |ids| - i) == ids[i..]
    decreases |ids| - i
  {
    assert Linked(st, ids[i], ids[Succ(|ids|, i)]);
    hide Chain;
    WalkStep(st.next, ids[i], |ids| - i);
    if i + 1 < |ids| {
      WalkFrom(st, ids, i + 1);
      assert ids[i..] == [ids[i]] + ids[i + 1..];
    } else {
      NoWalk(st.next, st.next[ids[i]]);
    }
  }

  lemma WalkStep(next: map<nat, nat>, start: nat, n: nat)
    requires n > 0 && start in next
    ensures Walk(next, start, n) == [start] + Walk(next, next[start], n - 1)
  {
  }

  lemma NoWalk(next: map<nat, nat>, start: nat)
    ensures Walk(next, start, 0) == []
  {
  }

  function FirstLeaf(t: Node): Node
    decreases t
  {
    if t.Leaf? || t.kids == [] then t else FirstLeaf(t.kids[0])
  }

  lemma {:induction false} FirstLeafFirst(m: nat, h: nat, t: Node)
    requires Shaped(m, t, h)
    ensures Leaves(t) != [] && Leaves(t)[0] == FirstLeaf(t) && FirstLeaf(t).Leaf?
        && Ids(Leaves(t))[0] == FirstLeaf(t).id
    decreases h
  {
    if h == 0 {
    } else {
      FirstLeafFirst(m, h - 1, t.kids[0]);
    }
  }

  /** After any insertions, `next` leads from the leftmost leaf through every leaf once and back to it, `prev`
      and `next` undo each other, and the keys of the leaves in that order are the keys inserted, sorted. */
  lemma ChainListsKeys(m: nat, xs: seq<int>)
    requires m >= 2
    ensures var s := Run(m, xs);
      var ids, first := Ids(Leaves(s.root)), FirstLeaf(s.root);
      && first.Leaf? && ids != [] && Walk(s.st.next, first.id, |ids|) == ids
      && ids[|ids| - 1] in s.st.next && s.st.next[ids[|ids| - 1]] == first.id
      && Distinct(ids)
      && (forall id :: id in ids ==>
            id in s.st.next && s.st.next[id] in s.st.prev && s.st.prev[s.st.next[id]] == id
            && id in s.st.prev && s.st.prev[id] in s.st.next && s.st.next[s.st.prev[id]] == id)
      && Sorted(Keys(Leaves(s.root))) && multiset(Keys(Leaves(s.root))) == multiset(xs)
  {
    RunValid(m, xs);
    var s := Run(m, xs);
    var ids := Ids(Leaves(s.root));
    FirstLeafFirst(m, s.height, s.root);
    WalkFrom(s.st, ids, 0);
    assert ids[0..] == ids;
    LeavesSorted(m, s.height, s.root);
    forall id | id in ids
      ensures id in s.st.next && s.st.next[id] in s.st.prev && s.st.prev[s.st.next[id]] == id
      ensures id in s.st.prev && s.st.prev[id] in s.st.next && s.st.next[s.st.prev[id]] == id
    {
      MutualInverses(s.st, ids, id);
    }
    assert Linked(s.st, ids[|ids| - 1], ids[Succ(|ids|, |ids| - 1)]);
    hide Run;
    hide Leaves;
    hide Keys;
    hide Walk;
  }

  /* ---------- the chain, in place ---------- */

  /** The keys of the leaf at an address. */
  function KeysAt(ls: seq<Node>, id: nat): seq<int> {
    if ls == [] then [] else if ls[0].Leaf? && ls[0].id == id then ls[0].ks else KeysAt(ls[1..], id)
  }

  lemma {:induction false} KeysAtIndex(ls: seq<Node>, i: nat)
    requires i < |ls| && Distinct(Ids(ls)) && forall j :: 0 <= j < |ls| ==> ls[j].Leaf?
    ensures KeysAt(ls, Ids(ls)[i]) == ls[i].ks
  {
    if i == 0 {
    } else {
      assert Ids(ls)[1..] == Ids(ls[1..]);
      assert Ids(ls)[0] != Ids(ls)[i];
      KeysAtIndex(ls[1..], i - 1);
    }
  }

  lemma {:induction false} LeavesAreLeaves(m: nat, h: nat, t: Node)
    requires Shaped(m, t, h)
    ensures forall j :: 0 <= j < |Leaves(t)| ==> Leaves(t)[j].Leaf?
    decreases h, 0
  {
    if h == 0 {
    } else {
      AllAreLeaves(m, h, t.kids);
    }
  }

  lemma {:induction false} AllAreLeaves(m: nat, h: nat, ts: seq<Node>)
    requires h > 0 && forall i :: 0 <= i < |ts| ==> Shaped(m, ts[i], h - 1)
    ensures forall j :: 0 <= j < |LeavesAll(ts)| ==> LeavesAll(ts)[j].Leaf?
    decreases h - 1, 1, |ts|
  {
    if ts == [] {
    } else {
      LeavesAreLeaves(m, h - 1, ts[0]);
      AllAreLeaves(m, h, ts[1..]);
    }
  }

  class LeafChain {
    var next: map<nat, nat>
    var prev: map<nat, nat>
    var unused: nat

    ghost function State(): Store
      reads this
    {
      Store(next, prev, unused)
    }

    constructor ()
      ensures State() == NoKeys().st
    {
      next, prev, unused := map[0 := 0], map[0 := 0], 1;
    }

    /** The relinking at the end of `BTreeSplitChild`; the result is the address of the new leaf. */
    method LinkNewLeaf(child: nat) returns (newChild: nat)
      requires child in next
      modifies this
      ensures State() == LinkAfter(old(State()), child, newChild) && newChild == old(unused)
    {
      newChild := unused;
      next := next[newChild := next[child]];
      prev := prev[next[child] := newChild];
      prev := prev[newChild := child];
      next := next[child := newChild];
      unused := unused + 1;
    }

    /** `BTreeLinearPrint`: down to the leftmost leaf, then along `next` until it comes round again. */
    method LinearPrint(root: Node, ghost m: nat, ghost h: nat) returns (out: seq<int>)
      requires Shaped(m, root, h) && Chain(State(), Ids(Leaves(root)))
      ensures out == Keys(Leaves(root))
    {
      var leftmost := root;
      ghost var level := h;
      while !leftmost.Leaf?
        invariant Shaped(m, leftmost, level) && FirstLeaf(leftmost) == FirstLeaf(root)
        decreases level
      {
        leftmost := leftmost.kids[0];
        level := level - 1;
      }
      var memory := Leaves(root);
      ghost var ids, n := Ids(memory), |memory|;
      FirstLeafFirst(m, h, root);
      LeavesAreLeaves(m, h, root);
      assert Distinct(ids);
      var iter := leftmost.id;
      ghost var i := 0;
      out := [];
      hide Shaped;
      hide Leaves;
      while true
        invariant i < n && iter == ids[i] && out == Keys(memory[..i])
        decreases n - i
      {
        KeysAtIndex(memory, i);
        KeysSnoc(memory, i);
        out := out + KeysAt(memory, iter);
        assert Linked(State(), ids[i], ids[Succ(n, i)]);
        iter := next[iter];
        if iter == leftmost.id {
          RoundAtEnd(ids, i);
          assert memory[..n] == memory;
          return;
        }
        i := i + 1;
      }
    }
  }

  lemma RoundAtEnd(ids: seq<nat>, i: nat)
    requires Distinct(ids) && i < |ids| && ids[Succ(|ids|, i)] == ids[0]
    ensures i + 1 == |ids|
  {
  }

  lemma KeysSnoc(ls: seq<Node>, i: nat)
    requires i < |ls|
    ensures Keys(ls[..i + 1]) == Keys(ls[..i]) + ls[i].ks
  {
    assert ls[..i + 1] == ls[..i] + [ls[i]];
    KeysJoin(ls[..i], [ls[i]]);
    Singles(ls[i]);
  }
}
