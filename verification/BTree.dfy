/**
 The mutable B-tree of skylu/base/btree.cc: nodes with fixed key and pointer arrays, split, merged
 and rotated in place on one way down.  Every method is proved to turn the tree that its node stands
 for into what the function of the same name in `BTreeModel` says.
 */
module BTree {
  import opened BTreeModel

  /* ---------- the loops over `k[]` and `p[]` ---------- */

  /** Makes room at `pos` among the first `n` elements, from the right, and puts `x` there. */
  method InsertSlot<T>(a: array<T>, pos: nat, n: nat, x: T)
    requires pos <= n < a.Length
    modifies a
    ensures a[..n + 1] == old(a[..pos]) + [x] + old(a[pos..n])
  {
    var i := n;
    while i > pos
      invariant pos <= i <= n
      invariant forall j :: 0 <= j < a.Length ==> a[j] == if i < j <= n then old(a[j - 1]) else old(a[j])
    {
      a[i] := a[i - 1];
      i := i - 1;
    }
    a[pos] := x;
  }

  lemma UpperIs(ks: seq<int>, x: int, pos: nat)
    requires pos <= |ks| && (forall j :: pos <= j < |ks| ==> x < ks[j]) && (pos > 0 ==> ks[pos - 1] <= x)
    ensures UpperPos(ks, x) == pos
  {
    if pos < |ks| {
      UpperIs(ks[..|ks| - 1], x, pos);
    }
  }

  /** The loop of `BTreeInsertNonfull` in a leaf: shifts the greater keys up while it looks for the place. */
  method InsertSorted(a: array<int>, n: nat, x: int) returns (pos: nat)
    requires n < a.Length
    modifies a
    ensures pos == UpperPos(old(a[..n]), x)
    ensures a[..n + 1] == old(a[..pos]) + [x] + old(a[pos..n])
  {
    pos := n;
    while pos >= 1 && x < a[pos - 1]
      invariant pos <= n
      invariant forall j :: 0 <= j < a.Length ==> a[j] == if pos < j <= n then old(a[j - 1]) else old(a[j])
      invariant forall j :: pos <= j < n ==> x < old(a[j])
    {
      a[pos] := a[pos - 1];
      pos := pos - 1;
    }
    UpperIs(old(a[..n]), x, pos);
    a[pos] := x;
  }

  /** Closes the gap at `pos` among the first `n` elements. */
  method RemoveSlot<T>(a: array<T>, pos: nat, n: nat)
    requires pos < n <= a.Length
    modifies a
    ensures a[..n - 1] == old(a[..pos]) + old(a[pos + 1..n]) && a[n - 1..] == old(a[n - 1..])
  {
    for j := pos + 1 to n
      invariant forall i :: 0 <= i < a.Length ==> a[i] == if pos <= i < j - 1 then old(a[i + 1]) else old(a[i])
    {
      a[j - 1] := a[j];
    }
    RemovedIs(old(a[..]), a[..], pos, n);
    assert a[..][..n - 1] == a[..n - 1];
    assert old(a[..])[..pos] == old(a[..pos]) && old(a[..])[pos + 1..n] == old(a[pos + 1..n]);
  }

  lemma RemovedIs<T>(s: seq<T>, r: seq<T>, pos: nat, n: nat)
    requires pos < n <= |s| == |r|
    requires forall i :: 0 <= i < pos ==> r[i] == s[i]
    requires forall i :: pos <= i < n - 1 ==> r[i] == s[i + 1]
    ensures r[..n - 1] == s[..pos] + s[pos + 1..n]
  {
  }

  method CopySlots<T>(src: array<T>, from: nat, dst: array<T>, to: nat, count: nat)
    requires src != dst && from + count <= src.Length && to + count <= dst.Length
    modifies dst
    ensures dst[to..to + count] == src[from..from + count]
    ensures dst[..to] == old(dst[..to])
  {
    for i := 0 to count
      invariant forall j :: 0 <= j < dst.Length ==>
          dst[j] == if to <= j < to + i then src[from + j - to] else old(dst[j])
    {
      dst[to + i] := src[from + i];
    }
  }

  lemma LowerIs(ks: seq<int>, x: int, pos: nat)
    requires pos <= |ks| && (forall j :: 0 <= j < pos ==> ks[j] < x) && (pos < |ks| ==> x <= ks[pos])
    ensures LowerPos(ks, x) == pos
  {
    if pos > 0 {
      LowerIs(ks[1..], x, pos - 1);
    }
  }

  /** The loop of `BTreeMergeChild` in the parent: key `pos` and pointer `pos + 1` go. */
  method CloseGap(k: array<int>, p: array<TreeNode?>, pos: nat, n: nat)
    requires pos < n <= k.Length && n < p.Length
    modifies k, p
    ensures k[..n - 1] == old(k[..pos]) + old(k[pos + 1..n])
    ensures p[..n] == old(p[..pos + 1]) + old(p[pos + 2..n + 1])
  {
    for j := pos + 1 to n
      invariant forall i :: 0 <= i < k.Length ==> k[i] == if pos <= i < j - 1 then old(k[i + 1]) else old(k[i])
      invariant forall i :: 0 <= i < p.Length ==> p[i] == if pos < i < j then old(p[i + 1]) else old(p[i])
    {
      k[j - 1] := k[j];
      p[j] := p[j + 1];
    }
  }

  /* ---------- nodes ---------- */

  ghost function Trees(cs: seq<TreeNode>): (r: seq<Tree>)
    reads cs
    ensures |r| == |cs| && forall i :: 0 <= i < |cs| ==> r[i] == cs[i].tree
  {
    seq(|cs|, i requires 0 <= i < |cs| reads cs => cs[i].tree)
  }

  /** The nodes `cs` are valid, below a node at height `h`, in disjoint parts of the memory `r`. */
  ghost predicate Family(cs: seq<TreeNode>, m: nat, h: nat, r: set<object>)
    reads r
    decreases h, 0
  {
    && (h == 0 ==> cs == [])
    && (forall i :: 0 <= i < |cs| ==> cs[i] in r)
    && (forall i :: 0 <= i < |cs| ==> cs[i].Repr() <= r)
    && (h > 0 ==> forall i :: 0 <= i < |cs| ==> cs[i].m == m && cs[i].Valid(h - 1))
    && (forall i, j :: 0 <= i < j < |cs| ==> cs[i].Repr() !! cs[j].Repr())
  }

  /* ---------- putting families of nodes together and taking them apart ---------- */

  lemma TreesJoin(a: seq<TreeNode>, b: seq<TreeNode>)
    ensures Trees(a + b) == Trees(a) + Trees(b)
  {
  }

  lemma Spliced<T>(s: seq<T>, pos: nat, x: T)
    requires pos < |s|
    ensures s[..pos] + [s[pos], x] + s[pos + 1..] == s[..pos + 1] + [x] + s[pos + 1..]
  {
  }

  lemma ThreeParts<T>(s: seq<T>, i: nat)
    requires i < |s|
    ensures s == s[..i] + [s[i]] + s[i + 1..]
  {
  }

  lemma TreesWithout(cs: seq<TreeNode>, i: nat)
    requires i < |cs|
    ensures Trees(Without(cs, i)) == Without(Trees(cs), i)
  {
  }

  lemma Replaced<T>(s: seq<T>, s': seq<T>, i: nat)
    requires |s| == |s'| && i < |s| && Without(s, i) == Without(s', i)
    ensures s' == s[i := s'[i]]
  {
    forall j | 0 <= j < |s| && j != i
      ensures s'[j] == s[j]
    {
      var j' := if j < i then j else j - 1;
      assert Without(s, i)[j'] == s[j] && Without(s', i)[j'] == s'[j];
    }
  }

  lemma Filled<T>(s: seq<T>, s': seq<T>, i: nat)
    requires |s'| == |s| - 1 && i + 1 < |s| && Without(s', i) == WithoutPair(s, i)
    ensures s' == s[..i] + [s'[i]] + s[i + 2..]
  {
    var w := Without(s', i);
    assert s'[..i] == w[..i] && s'[i + 1..] == w[i..];
  }

  lemma ReplacedPair<T>(s: seq<T>, s': seq<T>, i: nat)
    requires |s| == |s'| && i + 1 < |s| && WithoutPair(s, i) == WithoutPair(s', i)
    ensures s' == s[i := s'[i]][i + 1 := s'[i + 1]]
  {
    forall j | 0 <= j < |s| && j != i && j != i + 1
      ensures s'[j] == s[j]
    {
      var j' := if j < i then j else j - 2;
      assert WithoutPair(s, i)[j'] == s[j] && WithoutPair(s', i)[j'] == s'[j];
    }
  }

  lemma TreesHalve(cs: seq<TreeNode>, i: nat)
    requires i <= |cs|
    ensures Trees(cs[..i]) == Trees(cs)[..i] && Trees(cs[i..]) == Trees(cs)[i..]
  {
  }

  lemma JoinFamilies(a: seq<TreeNode>, b: seq<TreeNode>, m: nat, h: nat, ra: set<object>, rb: set<object>)
    requires Family(a, m, h, ra) && Family(b, m, h, rb) && ra !! rb
    ensures Family(a + b, m, h, ra + rb)
  {
    var c := a + b;
    assert forall i :: 0 <= i < |c| ==> c[i] == if i < |a| then a[i] else b[i - |a|];
    assert forall i :: 0 <= i < |a| ==> a[i].Repr() <= ra;
    assert forall i :: 0 <= i < |b| ==> b[i].Repr() <= rb;
    forall i, j | 0 <= i < j < |c|
      ensures c[i].Repr() !! c[j].Repr()
    {
    }
  }

  lemma OnlyChild(c: TreeNode, h: nat)
    requires h > 0 && c.Valid(h - 1)
    ensures Family([c], c.m, h, c.Repr())
  {
    assert c in c.Repr();
  }

  lemma FirstAndRest(cs: seq<TreeNode>, m: nat, h: nat, r: set<object>)
    requires h > 0 && Family(cs, m, h, r) && cs != []
    ensures cs[0].m == m && cs[0].Valid(h - 1) && cs[0].Repr() <= r
    ensures Family(cs[1..], m, h, r - cs[0].Repr())
  {
    var rest := cs[1..];
    forall i | 0 <= i < |rest|
      ensures rest[i].Repr() <= r - cs[0].Repr()
    {
      assert cs[0].Repr() !! cs[i + 1].Repr();
    }
    assert forall i :: 0 <= i < |rest| ==> rest[i] in rest[i].Repr();
  }

  lemma {:induction false} Halve(cs: seq<TreeNode>, m: nat, h: nat, r: set<object>, i: nat)
    returns (ra: set<object>, rb: set<object>)
    requires Family(cs, m, h, r) && i <= |cs|
    ensures Family(cs[..i], m, h, ra) && Family(cs[i..], m, h, rb) && ra !! rb && ra + rb <= r
    decreases i
  {
    if i == 0 {
      ra, rb := {}, r;
      assert cs[0..] == cs;
    } else {
      FirstAndRest(cs, m, h, r);
      var ra1;
      ra1, rb := Halve(cs[1..], m, h, r - cs[0].Repr(), i - 1);
      ra := cs[0].Repr() + ra1;
      OnlyChild(cs[0], h);
      JoinFamilies([cs[0]], cs[1..][..i - 1], m, h, cs[0].Repr(), ra1);
      assert [cs[0]] + cs[1..][..i - 1] == cs[..i] && cs[1..][i - 1..] == cs[i..];
    }
  }

  lemma Focus(cs: seq<TreeNode>, m: nat, h: nat, r: set<object>, i: nat) returns (ra: set<object>, rb: set<object>)
    requires h > 0 && Family(cs, m, h, r) && i < |cs|
    ensures Family(cs[..i], m, h, ra) && Family(cs[i + 1..], m, h, rb) && cs[i].m == m && cs[i].Valid(h - 1)
    ensures ra !! rb && ra !! cs[i].Repr() && rb !! cs[i].Repr() && ra + rb + cs[i].Repr() <= r
  {
    var rest;
    ra, rest := Halve(cs, m, h, r, i);
    var one;
    one, rb := Halve(cs[i..], m, h, rest, 1);
    assert cs[i..][..1] == [cs[i]] && cs[i..][1..] == cs[i + 1..];
    assert cs[i..][..1][0].Repr() <= one;
  }

  /** Two nodes between two families. */
  lemma Gather(a: seq<TreeNode>, y: TreeNode, z: TreeNode, b: seq<TreeNode>, m: nat, h: nat, ra: set<object>,
      rb: set<object>)
    requires h > 0 && Family(a, m, h, ra) && Family(b, m, h, rb)
    requires y.m == z.m == m && y.Valid(h - 1) && z.Valid(h - 1)
    requires ra !! rb && ra !! y.Repr() && ra !! z.Repr() && rb !! y.Repr() && rb !! z.Repr() && y.Repr() !! z.Repr()
    ensures Family(a + [y, z] + b, m, h, ra + (y.Repr() + z.Repr()) + rb)
    ensures Trees(a + [y, z] + b) == Trees(a) + [y.tree, z.tree] + Trees(b)
  {
    OnlyChild(y, h);
    OnlyChild(z, h);
    JoinFamilies([y], [z], m, h, y.Repr(), z.Repr());
    assert [y] + [z] == [y, z];
    JoinFamilies(a, [y, z], m, h, ra, y.Repr() + z.Repr());
    JoinFamilies(a + [y, z], b, m, h, ra + (y.Repr() + z.Repr()), rb);
  }

  lemma GatherOne(a: seq<TreeNode>, y: TreeNode, b: seq<TreeNode>, m: nat, h: nat, ra: set<object>, rb: set<object>)
    requires h > 0 && Family(a, m, h, ra) && Family(b, m, h, rb) && y.m == m && y.Valid(h - 1)
    requires ra !! rb && ra !! y.Repr() && rb !! y.Repr()
    ensures Family(a + [y] + b, m, h, ra + y.Repr() + rb)
    ensures Trees(a + [y] + b) == Trees(a) + [y.tree] + Trees(b)
  {
    OnlyChild(y, h);
    JoinFamilies(a, [y], m, h, ra, y.Repr());
    JoinFamilies(a + [y], b, m, h, ra + y.Repr(), rb);
  }

  function Without<T>(s: seq<T>, i: nat): seq<T>
    requires i < |s|
  {
    s[..i] + s[i + 1..]
  }

  function WithoutPair<T>(s: seq<T>, i: nat): seq<T>
    requires i + 1 < |s|
  {
    s[..i] + s[i + 2..]
  }

  lemma WithoutParts<T>(s: seq<T>, i: nat)
    requires i < |s|
    ensures |Without(s, i)| == |s| - 1 && Without(s, i)[..i] == s[..i] && Without(s, i)[i..] == s[i + 1..]
    ensures s[..i] + [s[i]] + s[i + 1..] == s
  {
  }

  lemma WithoutTwice<T>(s: seq<T>, i: nat)
    requires i + 1 < |s|
    ensures |Without(s, i)| == |s| - 1 && Without(s, i)[i] == s[i + 1] && Without(Without(s, i), i) == WithoutPair(s, i)
  {
  }

  /** One node of a family. */
  lemma Inhabitant(cs: seq<TreeNode>, m: nat, h: nat, r: set<object>, i: nat)
    requires h > 0 && Family(cs, m, h, r) && i < |cs|
    ensures cs[i].m == m && cs[i].Valid(h - 1) && cs[i].Repr() <= r
  {
  }

  lemma AllInside(cs: seq<TreeNode>, m: nat, h: nat, r: set<object>)
    requires Family(cs, m, h, r)
    ensures forall c :: c in cs ==> c in r
  {
  }

  /** A kid apart from the others, which keep a memory of their own. */
  lemma SetAside(cs: seq<TreeNode>, m: nat, h: nat, r: set<object>, i: nat) returns (ro: set<object>)
    requires h > 0 && Family(cs, m, h, r) && i < |cs|
    ensures Family(Without(cs, i), m, h, ro) && ro !! cs[i].Repr() && ro + cs[i].Repr() <= r
    ensures Trees(Without(cs, i)) == Without(Trees(cs), i)
  {
    var ra, rb := Focus(cs, m, h, r, i);
    ro := ra + rb;
    JoinFamilies(cs[..i], cs[i + 1..], m, h, ra, rb);
  }

  lemma PutBack(cs: seq<TreeNode>, m: nat, h: nat, ro: set<object>, i: nat)
    requires h > 0 && i < |cs| && Family(Without(cs, i), m, h, ro) && cs[i].m == m && cs[i].Valid(h - 1)
    requires ro !! cs[i].Repr()
    ensures Family(cs, m, h, ro + cs[i].Repr())
    ensures Trees(Without(cs, i)) == Without(Trees(cs), i)
  {
    hide *;
    WithoutParts(cs, i);
    var others := Without(cs, i);
    var ra, rb := Halve(others, m, h, ro, i);
    GatherOne(cs[..i], cs[i], cs[i + 1..], m, h, ra, rb);
    Grow(cs, m, h, ra + cs[i].Repr() + rb, ro + cs[i].Repr());
    TreesWithout(cs, i);
  }

  lemma Widen(cs: seq<TreeNode>, m: nat, h: nat, ro: set<object>, i: nat, y: TreeNode, z: TreeNode)
    requires h > 0 && i < |cs| && Family(Without(cs, i), m, h, ro)
    requires y.m == z.m == m && y.Valid(h - 1) && z.Valid(h - 1)
    requires ro !! y.Repr() && ro !! z.Repr() && y.Repr() !! z.Repr()
    ensures Family(cs[..i] + [y, z] + cs[i + 1..], m, h, ro + (y.Repr() + z.Repr()))
    ensures Trees(cs[..i] + [y, z] + cs[i + 1..])
           == Trees(Without(cs, i))[..i] + [y.tree, z.tree] + Trees(Without(cs, i))[i..]
  {
    hide *;
    WithoutParts(cs, i);
    var others := Without(cs, i);
    var ra, rb := Halve(others, m, h, ro, i);
    TreesHalve(others, i);
    Gather(cs[..i], y, z, cs[i + 1..], m, h, ra, rb);
    Grow(cs[..i] + [y, z] + cs[i + 1..], m, h, ra + (y.Repr() + z.Repr()) + rb, ro + (y.Repr() + z.Repr()));
  }

  lemma NoFamily(m: nat, r: set<object>)
    ensures Family([], m, 0, r)
  {
  }

  lemma Grow(cs: seq<TreeNode>, m: nat, h: nat, r: set<object>, r': set<object>)
    requires Family(cs, m, h, r) && r <= r'
    ensures Family(cs, m, h, r')
  {
  }

  /** Two neighbours apart from the others. */
  lemma SetAsidePair(cs: seq<TreeNode>, m: nat, h: nat, r: set<object>, i: nat) returns (ro: set<object>)
    requires h > 0 && Family(cs, m, h, r) && i + 1 < |cs|
    ensures Family(WithoutPair(cs, i), m, h, ro) && Trees(WithoutPair(cs, i)) == WithoutPair(Trees(cs), i)
    ensures ro !! cs[i].Repr() && ro !! cs[i + 1].Repr() && ro + (cs[i].Repr() + cs[i + 1].Repr()) <= r
    ensures cs[i].Repr() !! cs[i + 1].Repr()
    ensures cs[i].m == cs[i + 1].m == m && cs[i].Valid(h - 1) && cs[i + 1].Valid(h - 1)
  {
    Inhabitant(cs, m, h, r, i);
    Inhabitant(cs, m, h, r, i + 1);
    hide *;
    WithoutTwice(cs, i);
    WithoutTwice(Trees(cs), i);
    var r1 := SetAside(cs, m, h, r, i);
    ro := SetAside(Without(cs, i), m, h, r1, i);
  }

  lemma PutBackPair(cs: seq<TreeNode>, m: nat, h: nat, ro: set<object>, i: nat)
    requires h > 0 && i + 1 < |cs| && Family(WithoutPair(cs, i), m, h, ro)
    requires cs[i].m == cs[i + 1].m == m && cs[i].Valid(h - 1) && cs[i + 1].Valid(h - 1)
    requires ro !! cs[i].Repr() && ro !! cs[i + 1].Repr() && cs[i].Repr() !! cs[i + 1].Repr()
    ensures Family(cs, m, h, ro + (cs[i].Repr() + cs[i + 1].Repr()))
    ensures Trees(WithoutPair(cs, i)) == WithoutPair(Trees(cs), i)
  {
    hide *;
    WithoutTwice(cs, i);
    WithoutTwice(Trees(cs), i);
    PutBack(Without(cs, i), m, h, ro, i);
    PutBack(cs, m, h, ro + cs[i + 1].Repr(), i);
    assert ro + cs[i + 1].Repr() + cs[i].Repr() == ro + (cs[i].Repr() + cs[i + 1].Repr());
  }

  /* ---------- what a deletion may rely on at the next node ---------- */

  /** The test in the leaf reads inside the array: it always does for a key that is there. */
  ghost predicate Deletable(m: nat, h: nat, t: Tree, x: int) {
    && m >= 2 && Ready(m, h, t) && |t.keys| > 0 && Sorted(InOrder(t))
    && (x in InOrder(t) || LowerPos(LeafKeys(m, h, t, x), x) < 2 * m - 1)
  }

  /** The slot that the leaf test reads holds an `x` that is not a key. */
  ghost predicate Hit(m: nat, h: nat, t: Tree, x: int, slots: seq<int>)
    requires m >= 2 && Ready(m, h, t)
  {
    x !in InOrder(t) && var i := LowerPos(LeafKeys(m, h, t, x), x); i < |slots| && slots[i] == x
  }

  /** `BTreeDeleteNonone`, `slots` being the array of the leaf that it tests. */
  ghost function Deleted(m: nat, h: nat, t: Tree, x: int, slots: seq<int>): Tree
    requires m >= 2 && Ready(m, h, t) && |t.keys| > 0
  {
    if Hit(m, h, t, x, slots) then DeleteStale(m, h, t, x) else DeleteFrom(m, h, t, x)
  }

  lemma LeafDeletable(m: nat, t: Tree, x: int, slots: seq<int>)
    requires Deletable(m, 0, t, x) && t.keys <= slots && |slots| == 2 * m - 1
    ensures var i := LowerPos(t.keys, x);
      && t.kids == [] && InOrder(t) == t.keys && i < 2 * m - 1
      && Deleted(m, 0, t, x, slots) ==
         if slots[i] != x then t
         else Node(if i < |t.keys| then t.keys[..i] + t.keys[i + 1..] else t.keys[..|t.keys| - 1], [])
  {
    assert InOrder(t) == t.keys;
    if x in t.keys {
      LeafDelete(t.keys, x);
    }
  }

  lemma PredecessorDeletable(m: nat, h: nat, t: Tree, i: nat)
    requires m >= 2 && h > 0 && Ready(m, h, t) && Sorted(InOrder(t)) && i < |t.keys| && |t.kids[i].keys| > m - 1
    ensures Kids(m, t.kids[i], h - 1) && Deletable(m, h - 1, t.kids[i], MaxKey(m, h - 1, t.kids[i]))
    ensures MaxKey(m, h - 1, t.kids[i]) in InOrder(t.kids[i])
  {
    KidAt(m, h, t, i);
    KidSorted(t, i);
    MaxKeyLast(m, h - 1, t.kids[i]);
  }

  lemma SuccessorDeletable(m: nat, h: nat, t: Tree, i: nat)
    requires m >= 2 && h > 0 && Ready(m, h, t) && Sorted(InOrder(t)) && i < |t.keys| && |t.kids[i + 1].keys| > m - 1
    ensures Kids(m, t.kids[i + 1], h - 1) && Deletable(m, h - 1, t.kids[i + 1], MinKey(m, h - 1, t.kids[i + 1]))
    ensures MinKey(m, h - 1, t.kids[i + 1]) in InOrder(t.kids[i + 1])
  {
    KidAt(m, h, t, i + 1);
    KidSorted(t, i + 1);
    MinKeyFirst(m, h - 1, t.kids[i + 1]);
  }

  lemma MergedDeletable(m: nat, h: nat, t: Tree, i: nat)
    requires m >= 2 && h > 0 && Ready(m, h, t) && Sorted(InOrder(t)) && i < |t.keys|
    requires |t.kids[i].keys| == m - 1 && |t.kids[i + 1].keys| == m - 1
    ensures |MergeChild(t, i).kids| == |MergeChild(t, i).keys| + 1 && i < |MergeChild(t, i).kids|
    ensures Deletable(m, h - 1, MergeChild(t, i).kids[i], t.keys[i])
    ensures t.keys[i] in InOrder(MergeChild(t, i).kids[i])
  {
    var t1 := MergeChild(t, i);
    MergeShape(m, h, t, i);
    KidAt(m, h, t1, i);
    MergeInOrder(m, h, t, i);
    KidSorted(t1, i);
    MergedKid(m, h, t, i);
  }

  /** On the way down to a key that is not in this node. */
  lemma RefilledDeletable(m: nat, h: nat, t: Tree, x: int)
    requires h > 0 && Deletable(m, h, t, x)
    ensures var i := LowerPos(t.keys, x);
      (i == |t.keys| || t.keys[i] != x) ==>
        var t1, i1 := Refill(m, h, t, i), RefillPos(m, h, t, i);
        && |t1.kids| == |t1.keys| + 1 && i1 < |t1.kids| && Deletable(m, h - 1, t1.kids[i1], x)
        && (x in InOrder(t) <==> x in InOrder(t1.kids[i1]))
        && (x !in InOrder(t) ==> LeafKeys(m, h, t, x) == LeafKeys(m, h - 1, t1.kids[i1], x))
  {
    var i := LowerPos(t.keys, x);
    if i == |t.keys| || t.keys[i] != x {
      if x in InOrder(t) {
        RefilledPresent(m, h, t, x);
      } else {
        AbsentIs(m, h, t, x);
        var t1, i1 := Refill(m, h, t, i), RefillPos(m, h, t, i);
        OutsideKid(t1, i1, x);
      }
    }
  }

  lemma HereDeletable(m: nat, h: nat, t: Tree, i: nat)
    requires h > 0 && i < |t.keys| && Deletable(m, h, t, t.keys[i])
    ensures t.keys[i] in InOrder(t)
  {
    KeyInOrder(t, i);
  }

  lemma RefilledPresent(m: nat, h: nat, t: Tree, x: int)
    requires m >= 2 && h > 0 && Ready(m, h, t) && Sorted(InOrder(t)) && x in InOrder(t)
    requires var i := LowerPos(t.keys, x); i == |t.keys| || t.keys[i] != x
    ensures var i := LowerPos(t.keys, x); var t1, i1 := Refill(m, h, t, i), RefillPos(m, h, t, i);
      && |t1.kids| == |t1.keys| + 1 && i1 < |t1.kids| && Ready(m, h - 1, t1.kids[i1]) && |t1.kids[i1].keys| > 0
      && Sorted(InOrder(t1.kids[i1])) && x in InOrder(t1.kids[i1])
  {
    var i := LowerPos(t.keys, x);
    Descend(t, x);
    RefilledKid(m, h, t, i, x);
    RefillShape(m, h, t, i);
    RefillInOrder(m, h, t, i);
    var t1, i1 := Refill(m, h, t, i), RefillPos(m, h, t, i);
    KidAt(m, h, t1, i1);
    KidSorted(t1, i1);
  }

  /** The array after its slot `i` was closed: the last one keeps what it had. */
  function Closed(ks: seq<int>, i: nat): seq<int>
    requires i < |ks|
  {
    ks[..i] + ks[i + 1..] + [ks[|ks| - 1]]
  }

  lemma ClosedIs(ks: seq<int>, r: seq<int>, i: nat)
    requires i < |ks| == |r| && r[..|r| - 1] == ks[..i] + ks[i + 1..|ks|] && r[|r| - 1] == ks[|ks| - 1]
    ensures r == Closed(ks, i)
  {
    assert r == r[..|r| - 1] + [r[|r| - 1]];
  }

  lemma ClosedKeys(ks: seq<int>, i: nat, n: nat)
    requires i <= n <= |ks| && 0 < n && i < |ks|
    ensures |Closed(ks, i)| == |ks|
    ensures Closed(ks, i)[..n - 1] == if i < n then ks[..n][..i] + ks[..n][i + 1..] else ks[..n][..n - 1]
  {
  }

  lemma ClosedLast(ks: seq<int>)
    requires ks != []
    ensures Closed(ks, |ks| - 1) == ks
  {
  }

  lemma LastGone(ks: seq<int>, z: int)
    requires ks != [] && LowerPos(ks, z) == |ks| - 1
    ensures var r := ks[..|ks| - 1] + ks[|ks|..];
      r == ks[..|ks| - 1] && LowerPos(r, z) == |r| && r[..|r|] == r
  {
    assert ks[..|ks| - 1] + ks[|ks|..] == ks[..|ks| - 1];
    NotFound(ks[..|ks| - 1], z);
  }

  /** A key above all others is looked for behind them. */
  lemma {:induction false} NotFound(ks: seq<int>, x: int)
    requires forall j :: 0 <= j < |ks| ==> ks[j] < x
    ensures LowerPos(ks, x) == |ks|
  {
    if ks == [] {
    } else {
      NotFound(ks[1..], x);
    }
  }

  lemma MakeRoomIs(m: nat, h: nat, t: Tree, x: int, pos: nat)
    requires m >= 2 && h > 0 && Kids(m, t, h) && pos == UpperPos(t.keys, x)
    ensures pos < |t.kids| && pos <= |t.keys|
    ensures |t.kids[pos].keys| != 2 * m - 1 ==> MakeRoom(m, h, t, x) == t && RoomPos(m, h, t, x) == pos
    ensures |t.kids[pos].keys| == 2 * m - 1 ==> t.kids[pos].kids == [] || |t.kids[pos].kids| == 2 * m
    ensures |t.kids[pos].keys| == 2 * m - 1 ==>
      var r := MakeRoom(m, h, t, x);
      && r == BTreeModel.SplitChild(m, t, pos) && |r.keys| == |t.keys| + 1 && |r.kids| == |r.keys| + 1
      && RoomPos(m, h, t, x) == if x > r.keys[pos] then pos + 1 else pos
  {
    if |t.kids[pos].keys| == 2 * m - 1 {
      SplitShape(m, h, t, pos);
      SplitKeys(t.keys, pos, t.kids[pos].keys[m - 1]);
    }
  }

  /** What the leaf test leaves in the leaf, `slots` being its array before: with the key found, the slot closed. */
  ghost predicate Tested(leaf: TreeNode, x: int, ks: seq<int>, slots: seq<int>)
    reads leaf, leaf.k
  {
    && leaf.isLeaf && ks <= slots && |slots| == leaf.k.Length
    && var i := LowerPos(ks, x);
       i < |slots| && leaf.k[..] == if slots[i] == x then Closed(slots, i) else slots
  }

  /** What the deletion of `x` from the tree `t` does: the tree `t'`; and if `x` is absent, the `slots` of the
      leaf where its search ends, and what is left in them. */
  ghost predicate Deletes(m: nat, h: nat, t: Tree, x: int, t': Tree, leaf: TreeNode, slots: seq<int>)
    reads leaf, leaf.k
  {
    && m >= 2 && Ready(m, h, t) && |t.keys| > 0 && t' == Deleted(m, h, t, x, slots)
    && (x !in InOrder(t) ==> Tested(leaf, x, LeafKeys(m, h, t, x), slots))
  }

  lemma DeletesPresent(m: nat, h: nat, t: Tree, x: int, t': Tree, leaf: TreeNode, slots: seq<int>)
    requires Deletes(m, h, t, x, t', leaf, slots) && x in InOrder(t)
    ensures m >= 2 && Ready(m, h, t) && t' == DeleteFrom(m, h, t, x)
  {
  }

  lemma PresentDeletes(m: nat, h: nat, t: Tree, x: int, leaf: TreeNode, slots: seq<int>)
    requires Deletable(m, h, t, x) && x in InOrder(t)
    ensures Deletes(m, h, t, x, DeleteFrom(m, h, t, x), leaf, slots)
  {
  }

  lemma DeletesDown(m: nat, h: nat, t: Tree, x: int, c: Tree, leaf: TreeNode, slots: seq<int>)
    requires h > 0 && Deletable(m, h, t, x)
    requires var i := LowerPos(t.keys, x); i == |t.keys| || t.keys[i] != x
    requires var i := LowerPos(t.keys, x); var t1, i1 := Refill(m, h, t, i), RefillPos(m, h, t, i);
      i1 < |t1.kids| && Deletes(m, h - 1, t1.kids[i1], x, c, leaf, slots)
    ensures var i := LowerPos(t.keys, x); var t1, i1 := Refill(m, h, t, i), RefillPos(m, h, t, i);
      Deletes(m, h, t, x, ReplaceKid(t1, i1, c), leaf, slots)
  {
    hide InOrder;
    hide Tested;
    RefilledDeletable(m, h, t, x);
    if x !in InOrder(t) {
      AbsentIs(m, h, t, x);
    }
    hide Refill;
    hide RefillPos;
    hide LeafKeys;
  }

  lemma DeletableParts(m: nat, h: nat, t: Tree, x: int)
    requires Deletable(m, h, t, x)
    ensures m >= 2 && Ready(m, h, t) && |t.keys| > 0 && Sorted(InOrder(t))
  {
  }

  class TreeNode {
    const m: nat
    const k: array<int>
    const p: array<TreeNode?>
    var num: int
    var isLeaf: bool
    /** The subtree the node stands for, the nodes in `p[0..num]`, and the memory below the node. */
    ghost var tree: Tree
    ghost var kids: seq<TreeNode>
    ghost var below: set<object>

    ghost function Repr(): set<object>
      reads this
    {
      below + {this, k, p}
    }

    /** The arrays hold the keys and the pointers to `cs`; a leaf's pointers are all null. */
    ghost predicate Holds(h: nat, cs: seq<TreeNode>)
      reads this, k, p
    {
      && m >= 2 && k.Length == 2 * m - 1 && p.Length == 2 * m && 0 <= num <= 2 * m - 1
      && (isLeaf <==> h == 0)
      && (h == 0 ==> forall i :: 0 <= i < 2 * m ==> p[i] == null)
      && (h > 0 ==> |cs| == num + 1 && forall i :: 0 <= i < |cs| ==> p[i] == cs[i])
    }

    ghost predicate Valid(h: nat)
      reads this, k, p, below
      decreases h, 1
    {
      && this !in below && k !in below && p !in below
      && Holds(h, kids) && (if h == 0 then kids == [] else Family(kids, m, h, below))
      && tree.keys == k[..num] && tree.kids == Trees(kids)
    }

    /** `NewNode`: an empty leaf. */
    constructor (m: nat)
      requires m >= 2
      ensures this.m == m && num == 0 && isLeaf && tree == EMPTY && kids == [] && below == {}
      ensures Valid(0) && fresh(k) && fresh(p)
    {
      this.m := m;
      k := new int[2 * m - 1](_ => 0);
      p := new TreeNode?[2 * m](_ => null);
      num := 0;
      isLeaf := true;
      tree, kids, below := EMPTY, [], {};
    }

    /** The node as its arrays are now, with the kids `cs` in the memory `r`. */
    ghost method Adopt(h: nat, t: Tree, cs: seq<TreeNode>, r: set<object>)
      requires Holds(h, cs) && this !in r && k !in r && p !in r && Family(cs, m, h, r)
      requires t.keys == k[..num] && t.kids == Trees(cs)
      modifies this`tree, this`kids, this`below
      ensures Valid(h) && tree == t && kids == cs && below == r
    {
      tree, kids, below := t, cs, r;
    }

    /** The upper half of a full node, in a node of its own. */
    method CopyUpperHalf() returns (newChild: TreeNode)
      requires m >= 2 && k.Length == 2 * m - 1 && p.Length == 2 * m
      ensures fresh(newChild) && fresh(newChild.k) && fresh(newChild.p) && newChild.m == m
      ensures newChild.k.Length == 2 * m - 1 && newChild.p.Length == 2 * m && newChild.num == m - 1
      ensures newChild.isLeaf == isLeaf && newChild.k[..m - 1] == k[m..]
      ensures isLeaf ==> forall i :: 0 <= i < 2 * m ==> newChild.p[i] == null
      ensures !isLeaf ==> newChild.p[..m] == p[m..]
    {
      newChild := new TreeNode(m);
      newChild.isLeaf := isLeaf;
      newChild.num := m - 1;
      CopySlots(k, m, newChild.k, 0, m - 1);
      assert k[m..m + (m - 1)] == k[m..];
      if !isLeaf {
        CopySlots(p, m, newChild.p, 0, m);
      }
    }

    method UpperNode(ghost h: nat, ghost i: nat, ghost high: set<object>) returns (newChild: TreeNode)
      requires Valid(h) && num == 2 * m - 1 && i == (if h == 0 then 0 else m)
      requires |tree.keys| == 2 * m - 1 && (tree.kids == [] || |tree.kids| == 2 * m)
      requires Family(kids[i..], m, h, high) && high <= below
      ensures fresh(newChild) && fresh(newChild.k) && fresh(newChild.p)
      ensures newChild.m == m && newChild.Valid(h) && newChild.tree == UpperHalf(m, tree) && newChild.below == high
    {
      newChild := CopyUpperHalf();
      TreesHalve(kids, i);
      newChild.Adopt(h, UpperHalf(m, tree), kids[i..], high);
    }

    method LowerNode(ghost h: nat, ghost i: nat, ghost low: set<object>)
      requires Valid(h) && num == 2 * m - 1 && i == (if h == 0 then 0 else m)
      requires |tree.keys| == 2 * m - 1 && (tree.kids == [] || |tree.kids| == 2 * m)
      requires Family(kids[..i], m, h, low) && low <= below
      modifies this
      ensures Valid(h) && tree == LowerHalf(m, old(tree)) && below == low
    {
      num := m - 1;
      TreesHalve(kids, i);
      Adopt(h, LowerHalf(m, tree), kids[..i], low);
    }

    /** The half of `BTreeSplitChild` that changes the child. */
    method SplitOff(ghost h: nat) returns (newChild: TreeNode)
      requires Valid(h) && num == 2 * m - 1
      requires |tree.keys| == 2 * m - 1 && (tree.kids == [] || |tree.kids| == 2 * m)
      modifies this
      ensures Valid(h) && newChild.m == m && newChild.Valid(h)
      ensures tree == LowerHalf(m, old(tree)) && newChild.tree == UpperHalf(m, old(tree))
      ensures below <= old(below) && newChild.below <= old(below) && below !! newChild.below
      ensures fresh(newChild) && fresh(newChild.k) && fresh(newChild.p)
    {
      ghost var i := if h == 0 then 0 else m;
      ghost var low, high := Halve(kids, m, h, if h == 0 then {} else below, i);
      newChild := UpperNode(h, i, high);
      LowerNode(h, i, low);
    }

    /** The half of `BTreeSplitChild` that changes the parent, which is to become `t`. */
    method PlaceHalf(ghost h: nat, pos: nat, x: int, newChild: TreeNode,
                     ghost t: Tree, ghost cs: seq<TreeNode>, ghost r: set<object>)
      requires h > 0 && Holds(h, kids) && pos <= num < 2 * m - 1
      requires cs == kids[..pos + 1] + [newChild] + kids[pos + 1..]
      requires Family(cs, m, h, r) && {this, k, p} !! r
      requires t.keys == k[..pos] + [x] + k[pos..num] && t.kids == Trees(cs)
      modifies this, k, p
      ensures Valid(h) && tree == t && below == r
    {
      PlaceArrays(h, pos, x, newChild, cs);
      Adopt(h, t, cs, r);
    }

    method PlaceArrays(ghost h: nat, pos: nat, x: int, newChild: TreeNode, ghost cs: seq<TreeNode>)
      requires h > 0 && Holds(h, kids) && pos <= num < 2 * m - 1
      requires cs == kids[..pos + 1] + [newChild] + kids[pos + 1..]
      modifies this`num, k, p
      ensures Holds(h, cs) && num == old(num) + 1
      ensures k[..num] == old(k[..pos]) + [x] + old(k[pos..num])
    {
      assert p[..num + 1] == kids;
      InsertSlot(p, pos + 1, num + 1, newChild);
      InsertSlot(k, pos, num, x);
      num := num + 1;
      assert p[..num + 1] == cs;
    }

    method SplitBeside(ghost h: nat, ghost others: seq<TreeNode>, ghost ro: set<object>) returns (newChild: TreeNode)
      requires Valid(h) && num == 2 * m - 1
      requires |tree.keys| == 2 * m - 1 && (tree.kids == [] || |tree.kids| == 2 * m)
      requires Family(others, m, h + 1, ro) && ro !! Repr()
      modifies this
      ensures Valid(h) && newChild.m == m && newChild.Valid(h)
      ensures tree == LowerHalf(m, old(tree)) && newChild.tree == UpperHalf(m, old(tree))
      ensures below <= old(below) && newChild.below <= old(below) && Repr() !! newChild.Repr()
      ensures fresh(newChild) && fresh(newChild.k) && fresh(newChild.p)
      ensures Family(others, m, h + 1, ro) && Trees(others) == old(Trees(others)) && ro !! Repr()
          && ro !! newChild.Repr()
    {
      newChild := SplitOff(h);
    }

    /** The kids after the split, before they are placed in the arrays. */
    method SplitKid(ghost h: nat, ghost pos: nat, child: TreeNode)
        returns (newChild: TreeNode, ghost cs: seq<TreeNode>, ghost r: set<object>)
      requires h > 0 && Valid(h) && pos <= num < 2 * m - 1 && child == kids[pos]
      requires |tree.kids| == |tree.keys| + 1 && |tree.kids[pos].keys| == 2 * m - 1
      requires tree.kids[pos].kids == [] || |tree.kids[pos].kids| == 2 * m
      modifies child
      ensures cs == kids[..pos + 1] + [newChild] + kids[pos + 1..]
      ensures Family(cs, m, h, r) && Trees(cs) == BTreeModel.SplitChild(m, old(tree), pos).kids
      ensures r <= old(below) + {newChild, newChild.k, newChild.p}
      ensures fresh({newChild, newChild.k, newChild.p})
    {
      hide Family;
      hide TreeNode.Valid;
      KidOf(h, pos);
      ghost var t, own := tree, kids;
      ghost var ro := SetAside(kids, m, h, below, pos);
      newChild := child.SplitBeside(h - 1, Without(own, pos), ro);
      cs, r := own[..pos] + [child, newChild] + own[pos + 1..], ro + (child.Repr() + newChild.Repr());
      Widen(own, m, h, ro, pos, child, newChild);
      Spliced(own, pos, newChild);
    }

    method SplitChild(ghost h: nat, pos: nat, child: TreeNode)
      requires h > 0 && Valid(h) && pos <= num < 2 * m - 1 && child == kids[pos]
      requires |tree.kids| == |tree.keys| + 1 && |tree.kids[pos].keys| == 2 * m - 1
      requires tree.kids[pos].kids == [] || |tree.kids[pos].kids| == 2 * m
      modifies this, k, p, child
      ensures Valid(h) && tree == BTreeModel.SplitChild(m, old(tree), pos)
      ensures fresh(below - old(below))
    {
      assert child.m == m && child.Valid(h - 1);
      ghost var t := BTreeModel.SplitChild(m, tree, pos);
      var newChild;
      ghost var cs, r;
      newChild, cs, r := SplitKid(h, pos, child);
      PlaceHalf(h, pos, child.k[m - 1], newChild, t, cs, r);
    }

    /** The node after a change below its kid `pos` alone. */
    ghost method Regrow(h: nat, pos: nat, ro: set<object>)
      requires h > 0 && Holds(h, kids) && pos < |kids| && kids[pos].m == m && kids[pos].Valid(h - 1)
      requires Family(Without(kids, pos), m, h, ro) && ro !! kids[pos].Repr() && {this, k, p} !! ro + kids[pos].Repr()
      requires tree.keys == k[..num] && |tree.kids| == |kids| && Trees(Without(kids, pos)) == Without(tree.kids, pos)
      modifies this`tree, this`kids, this`below
      ensures Valid(h) && tree == ReplaceKid(old(tree), pos, kids[pos].tree) && kids == old(kids)
      ensures below == ro + kids[pos].Repr()
    {
      PutBack(kids, m, h, ro, pos);
      Replaced(tree.kids, Trees(kids), pos);
      Adopt(h, ReplaceKid(tree, pos, kids[pos].tree), kids, ro + kids[pos].Repr());
    }

    method InsertIntoLeaf(x: int)
      requires Valid(0) && num < 2 * m - 1
      modifies this, k
      ensures Valid(0) && tree == BTreeModel.InsertNonfull(m, 0, old(tree), x) && below == old(below)
    {
      hide Family;
      hide TreeNode.Valid;
      hide UpperPos;
      Inside(0);
      NoFamily(m, below);
      var pos := InsertSorted(k, num, x);
      num := num + 1;
      Adopt(0, Node(k[..num], []), [], below);
    }

    lemma Inside(h: nat)
      requires Valid(h)
      ensures {this, k, p} !! below && Holds(h, kids) && tree.keys == k[..num] && tree.kids == Trees(kids)
      ensures if h == 0 then kids == [] else Family(kids, m, h, below)
    {
    }

    lemma KidOf(h: nat, pos: nat)
      requires h > 0 && Valid(h) && pos <= num
      ensures m >= 2 && |tree.keys| == num && |tree.kids| == num + 1 && |kids| == num + 1
      ensures p[pos] == kids[pos] && kids[pos].m == m && kids[pos].Valid(h - 1) && tree.kids[pos] == kids[pos].tree
      ensures |kids[pos].tree.keys| == kids[pos].num && kids[pos].Repr() <= below
      ensures Holds(h, kids) && {this, k, p} !! below && Family(kids, m, h, below)
      ensures tree.keys == k[..num] && tree.kids == Trees(kids)
    {
    }

    /** The scan that finds the kid to go down to. */
    method Scan(x: int) returns (pos: nat)
      requires 0 <= num <= k.Length
      ensures pos == UpperPos(k[..num], x)
    {
      pos := num;
      while pos > 0 && x < k[pos - 1]
        invariant pos <= num
        invariant forall j :: pos <= j < num ==> x < k[j]
      {
        pos := pos - 1;
      }
      UpperIs(k[..num], x, pos);
    }

    /** The kid that `x` goes down to, after splitting it if it is full. */
    method EnsureRoom(ghost h: nat, x: int) returns (pos: nat)
      requires h > 0 && Valid(h) && num < 2 * m - 1 && Kids(m, tree, h)
      modifies this, k, p, below
      ensures Valid(h) && fresh(below - old(below)) && pos <= num
      ensures tree == MakeRoom(m, h, old(tree), x) && pos == RoomPos(m, h, old(tree), x)
    {
      hide Family;
      hide TreeNode.Valid;
      hide Kids;
      hide MakeRoom;
      hide RoomPos;
      hide UpperPos;
      hide Trees;
      hide BTreeModel.SplitChild;
      Inside(h);
      pos := Scan(x);
      KidOf(h, pos);
      MakeRoomIs(m, h, tree, x, pos);
      if p[pos].num == 2 * m - 1 {
        SplitChild(h, pos, p[pos]);
        Inside(h);
        assert k[pos] == tree.keys[pos];
        if x > k[pos] {
          pos := pos + 1;
        }
      }
    }

    /** The recursive call, beside a family of other nodes. */
    method InsertBeside(ghost h: nat, x: int, ghost others: seq<TreeNode>, ghost ro: set<object>)
      requires Valid(h) && num < 2 * m - 1 && Kids(m, tree, h)
      requires Family(others, m, h + 1, ro) && ro !! Repr()
      modifies this, k, p, below
      ensures Valid(h) && fresh(below - old(below)) && tree == BTreeModel.InsertNonfull(m, h, old(tree), x)
      ensures Family(others, m, h + 1, ro) && Trees(others) == old(Trees(others)) && ro !! Repr()
      decreases h, 3
    {
      InsertNonfull(h, x);
    }

    method InsertBelow(ghost h: nat, pos: nat, x: int)
      requires h > 0 && Valid(h) && pos <= num
      requires |tree.kids| == |tree.keys| + 1 && Kids(m, tree.kids[pos], h - 1) && |tree.kids[pos].keys| < 2 * m - 1
      modifies this, k, p, below
      ensures Valid(h) && fresh(below - old(below))
      ensures tree == ReplaceKid(old(tree), pos, BTreeModel.InsertNonfull(m, h - 1, old(tree).kids[pos], x))
      decreases h, 1
    {
      hide Family;
      hide TreeNode.Valid;
      KidOf(h, pos);
      var child := p[pos];
      ghost var others := Without(kids, pos);
      ghost var ro := SetAside(kids, m, h, below, pos);
      assert {this, k, p} !! ro + child.Repr();
      child.InsertBeside(h - 1, x, others, ro);
      assert {this, k, p} !! ro + child.Repr();
      Regrow(h, pos, ro);
    }

    method InsertNonfull(ghost h: nat, x: int)
      requires Valid(h) && num < 2 * m - 1 && Kids(m, tree, h)
      modifies this, k, p, below
      ensures Valid(h) && fresh(below - old(below))
      ensures tree == BTreeModel.InsertNonfull(m, h, old(tree), x)
      decreases h, 2
    {
      if isLeaf {
        InsertIntoLeaf(x);
      } else {
        MakeRoomShape(m, h, tree, x);
        var pos := EnsureRoom(h, x);
        KidAt(m, h, tree, pos);
        InsertBelow(h, pos, x);
      }
    }

    /* ---------- merging and rotating ---------- */

    /** The keys of a node that takes over those of its right neighbour. */
    method AbsorbKeys(x: int, z: TreeNode)
      requires m >= 2 && k.Length == 2 * m - 1 && z.k.Length == 2 * m - 1 && z.k != k
      modifies this`num, k
      ensures num == 2 * m - 1 && k[..num] == old(k[..m - 1]) + [x] + z.k[..m - 1]
    {
      num := 2 * m - 1;
      CopySlots(z.k, 0, k, m, m - 1);
      assert k[..m][..m - 1] == old(k[..m])[..m - 1];
      k[m - 1] := x;
      assert k[..m - 1] == old(k[..m - 1]) && k[m..2 * m - 1] == z.k[..m - 1];
      ThreeParts(k[..num], m - 1);
      assert k[..num][..m - 1] == k[..m - 1] && k[..num][m..] == k[m..2 * m - 1];
    }

    /** The arrays of a node that takes over the keys and pointers of its right neighbour. */
    method AbsorbArrays(x: int, z: TreeNode)
      requires m >= 2 && k.Length == 2 * m - 1 && p.Length == 2 * m && num == m - 1
      requires z.k.Length == 2 * m - 1 && z.p.Length == 2 * m && z.num == m - 1 && z.k != k && z.p != p
      modifies this`num, k, p
      ensures num == 2 * m - 1 && k[..num] == old(k[..m - 1]) + [x] + z.k[..m - 1]
      ensures z.isLeaf ==> p[..] == old(p[..])
      ensures !z.isLeaf ==> p[..2 * m] == old(p[..m]) + z.p[..m]
    {
      AbsorbKeys(x, z);
      if !z.isLeaf {
        CopySlots(z.p, 0, p, m, m);
      }
    }

    /** The half of `BTreeMergeChild` that changes the left node. */
    method Absorb(ghost h: nat, x: int, z: TreeNode)
      requires Valid(h) && z.Valid(h) && z.m == m && Repr() !! z.Repr() && num == m - 1 && z.num == m - 1
      modifies this, k, p
      ensures Valid(h) && tree == Join(old(tree), x, z.tree) && below == old(below) + z.below
    {
      hide Family;
      hide TreeNode.Valid;
      ghost var cs, r, t := kids + z.kids, below + z.below, Join(tree, x, z.tree);
      Inside(h);
      z.Inside(h);
      if h > 0 {
        JoinFamilies(kids, z.kids, m, h, below, z.below);
      } else {
        NoFamily(m, r);
      }
      TreesJoin(kids, z.kids);
      AbsorbArrays(x, z);
      assert h > 0 ==> p[..2 * m] == cs;
      Adopt(h, t, cs, r);
    }

    method AbsorbBeside(ghost h: nat, x: int, z: TreeNode, ghost others: seq<TreeNode>, ghost ro: set<object>)
      requires Valid(h) && z.Valid(h) && z.m == m && Repr() !! z.Repr() && num == m - 1 && z.num == m - 1
      requires Family(others, m, h + 1, ro) && ro !! Repr() && ro !! z.Repr()
      modifies this, k, p
      ensures Valid(h) && tree == Join(old(tree), x, z.tree) && below == old(below) + z.below
      ensures Family(others, m, h + 1, ro) && Trees(others) == old(Trees(others)) && ro !! Repr()
    {
      Absorb(h, x, z);
    }

    /** The kids after the merge, before the parent's arrays are closed up. */
    method MergeKids(ghost h: nat, pos: nat, y: TreeNode, z: TreeNode)
        returns (ghost cs: seq<TreeNode>, ghost r: set<object>)
      requires h > 0 && Valid(h) && |tree.kids| == |tree.keys| + 1 && pos < num
      requires y == kids[pos] && z == kids[pos + 1] && y.num == m - 1 && z.num == m - 1
      modifies y, y.k, y.p
      ensures cs == kids[..pos + 1] + kids[pos + 2..]
      ensures Family(cs, m, h, r) && r <= old(below) && Trees(cs) == BTreeModel.MergeChild(tree, pos).kids
    {
      hide Family;
      hide TreeNode.Valid;
      KidOf(h, pos);
      KidOf(h, pos + 1);
      ghost var own, t := kids, tree;
      ghost var ro := SetAsidePair(own, m, h, below, pos);
      y.AbsorbBeside(h - 1, k[pos], z, WithoutPair(own, pos), ro);
      cs, r := own[..pos + 1] + own[pos + 2..], ro + y.Repr();
      assert Without(cs, pos) == WithoutPair(own, pos);
      PutBack(cs, m, h, ro, pos);
      Filled(t.kids, Trees(cs), pos);
    }

    method CloseArrays(ghost h: nat, pos: nat, ghost cs: seq<TreeNode>)
      requires h > 0 && Holds(h, kids) && pos < num && cs == kids[..pos + 1] + kids[pos + 2..]
      modifies this`num, k, p
      ensures Holds(h, cs) && num == old(num) - 1 && k[..num] == old(k[..pos]) + old(k[pos + 1..num])
    {
      assert p[..num + 1] == kids;
      CloseGap(k, p, pos, num);
      num := num - 1;
      assert p[..num + 1] == cs;
    }

    method MergeChild(ghost h: nat, pos: nat, y: TreeNode, z: TreeNode)
      requires h > 0 && Valid(h) && |tree.kids| == |tree.keys| + 1 && pos < num
      requires y == kids[pos] && z == kids[pos + 1] && y.num == m - 1 && z.num == m - 1
      modifies this, k, p, y, y.k, y.p
      ensures Valid(h) && tree == BTreeModel.MergeChild(old(tree), pos) && below <= old(below) && num == old(num) - 1
      ensures kids == old(kids)[..pos + 1] + old(kids)[pos + 2..]
    {
      hide Family;
      hide TreeNode.Valid;
      Inside(h);
      KidOf(h, pos);
      ghost var t := BTreeModel.MergeChild(tree, pos);
      ghost var cs, r := MergeKids(h, pos, y, z);
      CloseArrays(h, pos, cs);
      Adopt(h, t, cs, r);
    }

    /** The arrays with `x` and the pointer `c` in front; at the back. */
    method PushFrontArrays(x: int, c: TreeNode?)
      requires m >= 2 && k.Length == 2 * m - 1 && p.Length == 2 * m && 0 <= num < 2 * m - 1
      modifies this`num, k, p
      ensures num == old(num) + 1 && k[..num] == [x] + old(k[..num])
      ensures isLeaf ==> p[..] == old(p[..])
      ensures !isLeaf ==> p[..num + 1] == [c] + old(p[..num + 1])
    {
      num := num + 1;
      InsertSlot(k, 0, num - 1, x);
      if !isLeaf {
        InsertSlot(p, 0, num, c);
      }
    }

    method PushBackArrays(x: int, c: TreeNode?)
      requires m >= 2 && k.Length == 2 * m - 1 && p.Length == 2 * m && 0 <= num < 2 * m - 1
      modifies this`num, k, p
      ensures num == old(num) + 1 && k[..num] == old(k[..num]) + [x]
      ensures isLeaf ==> p[..] == old(p[..])
      ensures !isLeaf ==> p[..num + 1] == old(p[..num + 1]) + [c]
    {
      num := num + 1;
      k[num - 1] := x;
      if !isLeaf {
        p[num] := c;
      }
    }

    method PopFrontArrays()
      requires m >= 2 && k.Length == 2 * m - 1 && p.Length == 2 * m && 0 < num <= 2 * m - 1
      modifies this`num, k, p
      ensures num == old(num) - 1 && k[..num] == old(k[1..num])
      ensures isLeaf ==> p[..] == old(p[..])
      ensures !isLeaf ==> p[..num + 1] == old(p[1..num + 1])
    {
      RemoveSlot(k, 0, num);
      if !isLeaf {
        RemoveSlot(p, 0, num + 1);
      }
      num := num - 1;
    }

    method PushFrontAs(ghost h: nat, x: int, c: TreeNode?, ghost t: Tree, ghost cs: seq<TreeNode>, ghost r: set<object>)
      requires Holds(h, kids) && num < 2 * m - 1 && (if h == 0 then cs == [] else c != null && cs == [c] + kids)
      requires Family(cs, m, h, r) && {this, k, p} !! r && t.keys == [x] + k[..num] && t.kids == Trees(cs)
      modifies this, k, p
      ensures Valid(h) && tree == t && below == r
    {
      hide Family;
      hide TreeNode.Valid;
      assert h > 0 ==> p[..num + 1] == kids;
      PushFrontArrays(x, c);
      assert h > 0 ==> p[..num + 1] == cs;
      assert Holds(h, cs);
      Adopt(h, t, cs, r);
    }

    /** A key and, in an inner node, a kid more in front; at the back. */
    method PushFront(ghost h: nat, x: int, c: TreeNode?)
      requires Valid(h) && num < 2 * m - 1
      requires h > 0 ==> c != null && c.m == m && c.Valid(h - 1) && c.Repr() !! Repr()
      modifies this, k, p
      ensures Valid(h) && tree == Node([x] + old(tree).keys, if h == 0 then [] else [c.tree] + old(tree).kids)
      ensures below == old(below) + if h == 0 then {} else c.Repr()
    {
      hide Family;
      hide TreeNode.Valid;
      Inside(h);
      ghost var cs, r := kids, below;
      if h > 0 {
        cs, r := [c] + kids, c.Repr() + below;
        OnlyChild(c, h);
        JoinFamilies([c], kids, m, h, c.Repr(), below);
        TreesJoin([c], kids);
      } else {
        NoFamily(m, r);
      }
      ghost var t := Node([x] + tree.keys, Trees(cs));
      PushFrontAs(h, x, c, t, cs, r);
    }

    method PushBack(ghost h: nat, x: int, c: TreeNode?)
      requires Valid(h) && num < 2 * m - 1
      requires h > 0 ==> c != null && c.m == m && c.Valid(h - 1) && c.Repr() !! Repr()
      modifies this, k, p
      ensures Valid(h) && tree == Node(old(tree).keys + [x], if h == 0 then [] else old(tree).kids + [c.tree])
      ensures below == old(below) + if h == 0 then {} else c.Repr()
    {
      hide Family;
      hide TreeNode.Valid;
      Inside(h);
      ghost var cs, r := kids, below;
      if h > 0 {
        cs, r := kids + [c], below + c.Repr();
        OnlyChild(c, h);
        JoinFamilies(kids, [c], m, h, below, c.Repr());
        TreesJoin(kids, [c]);
      } else {
        NoFamily(m, r);
      }
      ghost var t := Node(tree.keys + [x], Trees(cs));
      PushBackArrays(x, c);
      assert h > 0 ==> p[..num + 1] == cs;
      Adopt(h, t, cs, r);
    }

    /** The node without its last key and kid; without its first. */
    method PopBack(ghost h: nat, ghost r: set<object>)
      requires Valid(h) && num > 0 && r <= below
      requires h > 0 ==> |kids| == num + 1 && Family(kids[..num], m, h, r)
      modifies this
      ensures Valid(h) && tree == DropLast(old(tree)) && below == r
    {
      hide Family;
      hide TreeNode.Valid;
      Inside(h);
      ghost var cs := if h == 0 then [] else kids[..num];
      ghost var t := DropLast(tree);
      if h == 0 {
        NoFamily(m, r);
      } else {
        TreesHalve(kids, num);
      }
      num := num - 1;
      Adopt(h, t, cs, r);
    }

    method PopFrontAs(ghost h: nat, ghost t: Tree, ghost cs: seq<TreeNode>, ghost r: set<object>)
      requires Holds(h, kids) && num > 0 && (if h == 0 then cs == [] else cs == kids[1..])
      requires Family(cs, m, h, r) && {this, k, p} !! r && t.keys == k[1..num] && t.kids == Trees(cs)
      modifies this, k, p
      ensures Valid(h) && tree == t && below == r
    {
      hide Family;
      hide TreeNode.Valid;
      assert h > 0 ==> p[..num + 1] == kids;
      PopFrontArrays();
      assert h > 0 ==> p[..num + 1] == cs;
      assert Holds(h, cs);
      Adopt(h, t, cs, r);
    }

    method PopFront(ghost h: nat, ghost r: set<object>)
      requires Valid(h) && num > 0 && r <= below
      requires h > 0 ==> |kids| == num + 1 && Family(kids[1..], m, h, r)
      modifies this, k, p
      ensures Valid(h) && tree == DropFirst(old(tree)) && below == r
    {
      hide Family;
      hide TreeNode.Valid;
      Inside(h);
      ghost var cs := if h == 0 then [] else kids[1..];
      ghost var t := DropFirst(tree);
      if h == 0 {
        NoFamily(m, r);
      } else {
        TreesHalve(kids, 1);
      }
      PopFrontAs(h, t, cs, r);
    }

    /** The rotation seen from the two siblings: the last key and kid of this node go to the front of `z`. */
    method GiveLast(ghost h: nat, x: int, z: TreeNode) returns (up: int)
      requires Valid(h) && z.Valid(h) && z.m == m && Repr() !! z.Repr() && 0 < num && z.num < 2 * m - 1
      requires |tree.keys| == num && |tree.kids| == (if h == 0 then 0 else num + 1)
      modifies this, z, z.k, z.p
      ensures Valid(h) && z.Valid(h) && tree == DropLast(old(tree)) && up == old(tree).keys[|old(tree).keys| - 1]
      ensures z.tree == Join(Rightmost(old(tree)), x, old(z.tree))
      ensures Repr() !! z.Repr() && Repr() + z.Repr() <= old(Repr() + z.Repr())
    {
      hide Family;
      hide TreeNode.Valid;
      Inside(h);
      z.Inside(h);
      ghost var grown := Join(Rightmost(tree), x, z.tree);
      assert grown.keys == [x] + z.tree.keys;
      up := k[num - 1];
      var last: TreeNode? := null;
      ghost var r := {};
      if h > 0 {
        KidOf(h, num);
        r := SetAside(kids, m, h, below, num);
        assert Without(kids, num) == kids[..num];
      }
      if !isLeaf {
        last := p[num];
      }
      z.PushFront(h, x, last);
      PopBack(h, r);
    }

    method GiveFirst(ghost h: nat, x: int, y: TreeNode) returns (up: int)
      requires Valid(h) && y.Valid(h) && y.m == m && Repr() !! y.Repr() && 0 < num && y.num < 2 * m - 1
      requires |tree.keys| == num && |tree.kids| == (if h == 0 then 0 else num + 1)
      modifies this, k, p, y, y.k, y.p
      ensures Valid(h) && y.Valid(h) && tree == DropFirst(old(tree)) && up == old(tree).keys[0]
      ensures y.tree == Join(old(y.tree), x, Leftmost(old(tree)))
      ensures Repr() !! y.Repr() && Repr() + y.Repr() <= old(Repr() + y.Repr())
    {
      hide Family;
      hide TreeNode.Valid;
      Inside(h);
      y.Inside(h);
      ghost var grown := Join(y.tree, x, Leftmost(tree));
      assert grown.keys == y.tree.keys + [x];
      up := k[0];
      var first: TreeNode? := null;
      ghost var r := {};
      if h > 0 {
        KidOf(h, 0);
        r := SetAside(kids, m, h, below, 0);
        assert Without(kids, 0) == kids[1..];
      }
      if !isLeaf {
        first := p[0];
      }
      y.PushBack(h, x, first);
      PopFront(h, r);
    }

    method GiveLastBeside(ghost h: nat, x: int, z: TreeNode, ghost others: seq<TreeNode>, ghost ro: set<object>)
        returns (up: int)
      requires Valid(h) && z.Valid(h) && z.m == m && Repr() !! z.Repr() && 0 < num && z.num < 2 * m - 1
      requires |tree.keys| == num && |tree.kids| == (if h == 0 then 0 else num + 1)
      requires Family(others, m, h + 1, ro) && ro !! Repr() && ro !! z.Repr()
      modifies this, k, p, z, z.k, z.p
      ensures Valid(h) && z.Valid(h) && tree == DropLast(old(tree)) && up == old(tree).keys[|old(tree).keys| - 1]
      ensures z.tree == Join(Rightmost(old(tree)), x, old(z.tree))
      ensures Repr() !! z.Repr() && Repr() + z.Repr() <= old(Repr() + z.Repr())
      ensures Family(others, m, h + 1, ro) && Trees(others) == old(Trees(others))
    {
      AllInside(others, m, h + 1, ro);
      hide Family;
      hide Trees;
      hide TreeNode.Valid;
      hide DropLast;
      hide Join;
      hide Rightmost;
      assert ro !! {this, z, z.k, z.p};
      up := GiveLast(h, x, z);
    }

    method GiveFirstBeside(ghost h: nat, x: int, y: TreeNode, ghost others: seq<TreeNode>, ghost ro: set<object>)
        returns (up: int)
      requires Valid(h) && y.Valid(h) && y.m == m && Repr() !! y.Repr() && 0 < num && y.num < 2 * m - 1
      requires |tree.keys| == num && |tree.kids| == (if h == 0 then 0 else num + 1)
      requires Family(others, m, h + 1, ro) && ro !! Repr() && ro !! y.Repr()
      modifies this, k, p, y, y.k, y.p
      ensures Valid(h) && y.Valid(h) && tree == DropFirst(old(tree)) && up == old(tree).keys[0]
      ensures y.tree == Join(old(y.tree), x, Leftmost(old(tree)))
      ensures Repr() !! y.Repr() && Repr() + y.Repr() <= old(Repr() + y.Repr())
      ensures Family(others, m, h + 1, ro) && Trees(others) == old(Trees(others))
    {
      AllInside(others, m, h + 1, ro);
      hide Family;
      hide Trees;
      hide TreeNode.Valid;
      hide DropFirst;
      hide Join;
      hide Leftmost;
      assert ro !! {this, k, p, y, y.k, y.p};
      up := GiveFirst(h, x, y);
    }

    /** The number of kids of kid `pos` and of its tree. */
    lemma KidArity(h: nat, pos: nat)
      requires h > 0 && Valid(h) && pos <= num
      ensures |kids| == num + 1
      ensures |kids[pos].tree.keys| == kids[pos].num && |kids[pos].tree.kids| == if h == 1 then 0 else kids[pos].num + 1
    {
      KidOf(h, pos);
      kids[pos].Inside(h - 1);
    }

    /** The node after a change to its key `pos` and the two kids around it. */
    ghost method Rejoin(h: nat, pos: nat, ro: set<object>)
      requires h > 0 && Holds(h, kids) && pos < num
      requires kids[pos].m == kids[pos + 1].m == m && kids[pos].Valid(h - 1) && kids[pos + 1].Valid(h - 1)
      requires Family(WithoutPair(kids, pos), m, h, ro)
      requires ro !! kids[pos].Repr() && ro !! kids[pos + 1].Repr() && kids[pos].Repr() !! kids[pos + 1].Repr()
      requires {this, k, p} !! ro + (kids[pos].Repr() + kids[pos + 1].Repr())
      requires |tree.kids| == |kids| && |tree.keys| == num && k[..num] == tree.keys[pos := k[pos]]
      requires Trees(WithoutPair(kids, pos)) == WithoutPair(tree.kids, pos)
      modifies this`tree, this`kids, this`below
      ensures Valid(h) && kids == old(kids) && below == ro + (kids[pos].Repr() + kids[pos + 1].Repr())
      ensures tree == ReplacePair(old(tree), pos, kids[pos].tree, k[pos], kids[pos + 1].tree)
    {
      hide Family;
      PutBackPair(kids, m, h, ro, pos);
      ReplacedPair(tree.kids, Trees(kids), pos);
      Adopt(h, ReplacePair(tree, pos, kids[pos].tree, k[pos], kids[pos + 1].tree), kids,
            ro + (kids[pos].Repr() + kids[pos + 1].Repr()));
    }

    method ShiftToRightChild(ghost h: nat, pos: nat, y: TreeNode, z: TreeNode)
      requires h > 0 && Valid(h) && |tree.kids| == |tree.keys| + 1 && pos < num
      requires y == kids[pos] && z == kids[pos + 1] && |tree.kids[pos].keys| > 0 && y.num > 0 && z.num < 2 * m - 1
      modifies this, k, p, below
      ensures Valid(h) && tree == ShiftRight(old(tree), pos) && below <= old(below) && kids == old(kids)
          && num == old(num)
    {
      hide Family;
      hide TreeNode.Valid;
      KidOf(h, pos);
      KidOf(h, pos + 1);
      KidArity(h, pos);
      ghost var ro := SetAsidePair(kids, m, h, below, pos);
      assert {this, k, p} !! ro + (y.Repr() + z.Repr());
      var up := y.GiveLastBeside(h - 1, k[pos], z, WithoutPair(kids, pos), ro);
      k[pos] := up;
      Rejoin(h, pos, ro);
    }

    method ShiftToLeftChild(ghost h: nat, pos: nat, y: TreeNode, z: TreeNode)
      requires h > 0 && Valid(h) && |tree.kids| == |tree.keys| + 1 && pos < num
      requires y == kids[pos] && z == kids[pos + 1] && |tree.kids[pos + 1].keys| > 0 && z.num > 0 && y.num < 2 * m - 1
      modifies this, k, p, below
      ensures Valid(h) && tree == ShiftLeft(old(tree), pos) && below <= old(below) && kids == old(kids)
          && num == old(num)
    {
      hide Family;
      hide TreeNode.Valid;
      KidOf(h, pos);
      KidOf(h, pos + 1);
      KidArity(h, pos + 1);
      ghost var ro := SetAsidePair(kids, m, h, below, pos);
      assert {this, k, p} !! ro + (y.Repr() + z.Repr());
      var up := z.GiveFirstBeside(h - 1, k[pos], y, WithoutPair(kids, pos), ro);
      k[pos] := up;
      Rejoin(h, pos, ro);
    }

    /* ---------- deletion ---------- */

    /** The scan that looks for the key from the left. */
    method ScanUp(x: int) returns (pos: nat)
      requires 0 <= num <= k.Length
      ensures pos == LowerPos(k[..num], x)
    {
      pos := 0;
      while pos < num && x > k[pos]
        invariant pos <= num
        invariant forall j :: 0 <= j < pos ==> k[j] < x
      {
        pos := pos + 1;
      }
      LowerIs(k[..num], x, pos);
    }

    method SearchPredecessor(ghost h: nat) returns (key: int)
      requires Valid(h) && Kids(m, tree, h) && num > 0
      ensures |tree.keys| == num && key == MaxKey(m, h, tree)
    {
      hide Family;
      hide TreeNode.Valid;
      hide Kids;
      Inside(h);
      var y: TreeNode := this;
      ghost var level: nat := h;
      while !y.isLeaf
        invariant level <= h && y.m == m && y.Valid(level) && Kids(m, y.tree, level) && y.num > 0
            && |y.tree.keys| == y.num
        invariant y.isLeaf <==> level == 0
        invariant MaxKey(m, level, y.tree) == MaxKey(m, h, tree)
        decreases level
      {
        y.KidOf(level, y.num);
        KidAt(m, level, y.tree, y.num);
        y := y.p[y.num];
        level := level - 1;
        y.Inside(level);
      }
      y.Inside(level);
      key := y.k[y.num - 1];
    }

    method SearchSuccessor(ghost h: nat) returns (key: int)
      requires Valid(h) && Kids(m, tree, h) && num > 0
      ensures |tree.keys| == num && key == MinKey(m, h, tree)
    {
      hide Family;
      hide TreeNode.Valid;
      hide Kids;
      Inside(h);
      var z: TreeNode := this;
      ghost var level: nat := h;
      while !z.isLeaf
        invariant level <= h && z.m == m && z.Valid(level) && Kids(m, z.tree, level) && z.num > 0
            && |z.tree.keys| == z.num
        invariant z.isLeaf <==> level == 0
        invariant MinKey(m, level, z.tree) == MinKey(m, h, tree)
        decreases level
      {
        z.KidOf(level, 0);
        KidAt(m, level, z.tree, 0);
        z := z.p[0];
        level := level - 1;
        z.Inside(level);
      }
      z.Inside(level);
      key := z.k[0];
    }

    /** Case 1: a leaf.  The test of `k[i]` also reads the slot behind the last key, with what was left there:
        if that is `x`, the last key goes although `x` is not among the keys; and if there is no key at all, `num`
        becomes -1 and the node stands for no tree any more. */
    method DeleteFromLeaf(x: int)
      requires Valid(0) && (LowerPos(tree.keys, x) < num || num < 2 * m - 1)
      modifies this, k
      ensures |old(tree.keys)| == old(num) <= k.Length && LowerPos(old(tree.keys), x) < k.Length
      ensures var i := LowerPos(old(tree.keys), x);
        if old(k[..])[i] != x then
          k[..] == old(k[..]) && num == old(num) && tree == old(tree) && Valid(0)
        else
          && k[..] == Closed(old(k[..]), i) && num == old(num) - 1
          && (num >= 0 ==> Valid(0) && tree == Node(if i < old(num) then old(tree.keys)[..i] + old(tree.keys)[i + 1..]
                                                    else old(tree.keys)[..num], []))
      ensures below == old(below) && isLeaf
    {
      hide Family;
      hide TreeNode.Valid;
      hide LowerPos;
      hide Closed;
      Inside(0);
      var i := ScanUp(x);
      ghost var ks, n := k[..], num;
      assert tree.keys == ks[..n];
      if x == k[i] {
        NoFamily(m, below);
        CloseSlot(i);
        if n > 0 {
          ClosedKeys(ks, i, n);
          assert k[..num] == k[..][..n - 1];
          Adopt(0, Node(k[..num], []), [], below);
        }
      }
    }

    /** The loop that moves the slots behind `i` down, over the whole array. */
    method CloseSlot(i: nat)
      requires i < k.Length
      modifies this`num, k
      ensures num == old(num) - 1 && k[..] == Closed(old(k[..]), i)
    {
      ghost var ks := k[..];
      RemoveSlot(k, i, k.Length);
      ClosedIs(ks, k[..], i);
      num := num - 1;
    }

    /** In a full leaf the slot of the last key is not overwritten when that key is deleted, so that deleting it
        once more takes the key before it. */
    method DeleteLastTwice()
      requires Valid(0) && num == 2 * m - 1 && |tree.keys| == num && LowerPos(tree.keys, tree.keys[num - 1]) == num - 1
      modifies this, k
      ensures Valid(0) && tree.keys == old(tree.keys)[..old(num) - 2]
    {
      hide Family;
      hide TreeNode.Valid;
      hide LowerPos;
      hide Closed;
      Inside(0);
      var z := k[num - 1];
      ghost var ks, keys := k[..], tree.keys;
      ClosedLast(ks);
      DeleteFromLeaf(z);
      LastGone(keys, z);
      Inside(0);
      assert k[..][num] == z;
      DeleteFromLeaf(z);
      assert keys[..|keys| - 1][..|keys| - 2] == keys[..|keys| - 2];
    }

    /** Case 3: the kid `i` brought to at least `m` keys before going down to it. */
    method EnsureKeys(ghost h: nat, i: nat) returns (pos: nat)
      requires h > 0 && Valid(h) && Ready(m, h, tree) && i <= num
      modifies this, k, p, below
      ensures Valid(h) && below <= old(below) && tree == Refill(m, h, old(tree), i)
          && pos == RefillPos(m, h, old(tree), i)
    {
      hide Family;
      hide TreeNode.Valid;
      hide Kids;
      hide Ready;
      hide Trees;
      hide Refill;
      hide RefillPos;
      hide ShiftRight;
      hide ShiftLeft;
      hide BTreeModel.MergeChild;
      pos := i;
      KidOf(h, i);
      RefillIs(m, h, tree, i);
      if i > 0 {
        KidOf(h, i - 1);
      }
      if i < num {
        KidOf(h, i + 1);
      }
      if p[i].num == m - 1 {
        if i > 0 && p[i - 1].num > m - 1 {
          ShiftToRightChild(h, i - 1, p[i - 1], p[i]);
        } else if i < num && p[i + 1].num > m - 1 {
          ShiftToLeftChild(h, i, p[i], p[i + 1]);
        } else if i > 0 {
          MergeChild(h, i - 1, p[i - 1], p[i]);
          pos := i - 1;
        } else {
          MergeChild(h, i, p[i], p[i + 1]);
        }
      }
    }

    method DeleteBeside(ghost h: nat, x: int, ghost others: seq<TreeNode>, ghost ro: set<object>)
      returns (ghost leaf: TreeNode, ghost slots: seq<int>)
      requires Valid(h) && Deletable(m, h, tree, x) && Family(others, m, h + 1, ro) && ro !! Repr()
      modifies this, k, p, below
      ensures Valid(h) && below <= old(below) && leaf in Repr()
      ensures Deletes(m, h, old(tree), x, tree, leaf, slots)
      ensures Family(others, m, h + 1, ro) && Trees(others) == old(Trees(others))
      decreases h, 5
    {
      leaf, slots := DeleteNonone(h, x);
    }

    method DeleteBelow(ghost h: nat, pos: nat, x: int) returns (ghost leaf: TreeNode, ghost slots: seq<int>)
      requires h > 0 && Valid(h) && |tree.kids| == |tree.keys| + 1 && pos < |tree.kids|
      requires Deletable(m, h - 1, tree.kids[pos], x)
      modifies this, k, p, below
      ensures Valid(h) && below <= old(below)
      ensures pos < |tree.kids| && tree == ReplaceKid(old(tree), pos, tree.kids[pos]) && leaf in Repr()
      ensures Deletes(m, h - 1, old(tree).kids[pos], x, tree.kids[pos], leaf, slots)
      decreases h, 1
    {
      hide Family;
      hide TreeNode.Valid;
      hide InOrder;
      hide Deletable;
      hide Deleted;
      hide Deletes;
      Inside(h);
      KidOf(h, pos);
      var child := p[pos];
      ghost var others := Without(kids, pos);
      ghost var ro := SetAside(kids, m, h, below, pos);
      assert {this, k, p} !! ro + child.Repr();
      leaf, slots := child.DeleteBeside(h - 1, x, others, ro);
      assert {this, k, p} !! ro + child.Repr();
      Regrow(h, pos, ro);
    }

    /** Key `i` overwritten, everything else as it is. */
    method SetKey(ghost h: nat, i: nat, x: int)
      requires h > 0 && Valid(h) && i < num
      modifies this, k
      ensures Valid(h) && tree == Node(old(tree).keys[i := x], old(tree).kids) && below == old(below)
          && kids == old(kids)
      ensures num == old(num)
    {
      hide Family;
      hide TreeNode.Valid;
      Inside(h);
      k[i] := x;
      Adopt(h, Node(tree.keys[i := x], tree.kids), kids, below);
    }

    /** Case 2a: the greatest key below kid `i` takes the place of key `i`. */
    method DeleteByPredecessor(ghost h: nat, i: nat)
      requires h > 0 && Valid(h) && Ready(m, h, tree) && Sorted(InOrder(tree)) && i < num
      requires |tree.kids| == |tree.keys| + 1 && i < |tree.keys| && |tree.kids[i].keys| > m - 1
      modifies this, k, p, below
      ensures Valid(h) && below <= old(below)
      ensures Kids(m, old(tree).kids[i], h - 1)
      ensures tree == WithPredecessor(m, h, old(tree), i)
      decreases h, 2
    {
      hide Family;
      hide TreeNode.Valid;
      hide TreeNode.Holds;
      hide InOrder;
      hide Sorted;
      hide Trees;
      hide Ready;
      hide Kids;
      hide Deletable;
      hide DeleteFrom;
      hide Deletes;
      hide MaxKey;
      hide MinKey;
      hide WithPredecessor;
      KidOf(h, i);
      PredecessorDeletable(m, h, tree, i);
      var pre := p[i].SearchPredecessor(h - 1);
      SetKey(h, i, pre);
      ghost var leaf, slots := DeleteBelow(h, i, pre);
      DeletesPresent(m, h - 1, old(tree).kids[i], pre, tree.kids[i], leaf, slots);
      PredecessorIs(m, h, old(tree), i);
    }

    /** Case 2b: the least key below kid `i + 1` takes the place of key `i`. */
    method DeleteBySuccessor(ghost h: nat, i: nat)
      requires h > 0 && Valid(h) && Ready(m, h, tree) && Sorted(InOrder(tree)) && i < num
      requires |tree.kids| == |tree.keys| + 1 && i < |tree.keys| && |tree.kids[i + 1].keys| > m - 1
      modifies this, k, p, below
      ensures Valid(h) && below <= old(below)
      ensures Kids(m, old(tree).kids[i + 1], h - 1)
      ensures tree == WithSuccessor(m, h, old(tree), i)
      decreases h, 2
    {
      hide Family;
      hide TreeNode.Valid;
      hide TreeNode.Holds;
      hide InOrder;
      hide Sorted;
      hide Trees;
      hide Ready;
      hide Kids;
      hide Deletable;
      hide DeleteFrom;
      hide Deletes;
      hide MaxKey;
      hide MinKey;
      hide WithSuccessor;
      KidOf(h, i + 1);
      SuccessorDeletable(m, h, tree, i);
      var next := p[i + 1].SearchSuccessor(h - 1);
      SetKey(h, i, next);
      ghost var leaf, slots := DeleteBelow(h, i + 1, next);
      DeletesPresent(m, h - 1, old(tree).kids[i + 1], next, tree.kids[i + 1], leaf, slots);
      SuccessorIs(m, h, old(tree), i);
    }

    /** Case 2c: key `i` goes down into the merger of its two minimal kids. */
    method DeleteMerged(ghost h: nat, i: nat)
      requires h > 0 && Valid(h) && Ready(m, h, tree) && Sorted(InOrder(tree)) && i < num
      requires |tree.kids| == |tree.keys| + 1 && i < |tree.keys|
      requires |tree.kids[i].keys| == m - 1 && |tree.kids[i + 1].keys| == m - 1
      modifies this, k, p, below
      ensures Valid(h) && below <= old(below)
      ensures var t1 := BTreeModel.MergeChild(old(tree), i);
        i < |t1.kids| && Ready(m, h - 1, t1.kids[i])
        && tree == ReplaceKid(t1, i, DeleteFrom(m, h - 1, t1.kids[i], old(tree).keys[i]))
      decreases h, 2
    {
      hide Family;
      hide TreeNode.Valid;
      hide TreeNode.Holds;
      hide InOrder;
      hide Sorted;
      hide Trees;
      hide Ready;
      hide Kids;
      hide Deletable;
      hide DeleteFrom;
      hide Deletes;
      hide MaxKey;
      hide MinKey;
      hide BTreeModel.MergeChild;
      KidOf(h, i);
      KidOf(h, i + 1);
      MergedDeletable(m, h, tree, i);
      var x := k[i];
      MergeChild(h, i, p[i], p[i + 1]);
      ghost var c := tree.kids[i];
      ghost var leaf, slots := DeleteBelow(h, i, x);
      DeletesPresent(m, h - 1, c, x, tree.kids[i], leaf, slots);
    }

    /** Case 2: the key is key `i` of this inner node. */
    method DeleteHere(ghost h: nat, i: nat, x: int)
      requires h > 0 && Valid(h) && Deletable(m, h, tree, x)
      requires i == LowerPos(tree.keys, x) && i < num && i < |tree.keys| && tree.keys[i] == x
      modifies this, k, p, below
      ensures Valid(h) && below <= old(below) && tree == DeleteFrom(m, h, old(tree), x)
      decreases h, 3
    {
      hide Family;
      hide TreeNode.Valid;
      hide TreeNode.Holds;
      hide InOrder;
      hide Sorted;
      hide Trees;
      hide Ready;
      hide Kids;
      hide Deletable;
      hide DeleteFrom;
      hide Deletes;
      hide MaxKey;
      hide MinKey;
      hide WithPredecessor;
      hide WithSuccessor;
      hide BTreeModel.MergeChild;
      hide LowerPos;
      DeletableParts(m, h, tree, x);
      KidOf(h, i);
      KidOf(h, i + 1);
      KidAt(m, h, tree, i);
      KidAt(m, h, tree, i + 1);
      DeleteHereIs(m, h, tree, x, i);
      if p[i].num > m - 1 {
        DeleteByPredecessor(h, i);
      } else if p[i + 1].num > m - 1 {
        DeleteBySuccessor(h, i);
      } else {
        DeleteMerged(h, i);
      }
    }

    method DeleteAtLeaf(x: int)
      requires Valid(0) && Deletable(m, 0, tree, x)
      modifies this, k
      ensures Valid(0) && below == old(below) && Deletes(m, 0, old(tree), x, tree, this, old(k[..]))
    {
      hide Family;
      hide TreeNode.Valid;
      hide InOrder;
      hide Deleted;
      hide LowerPos;
      hide Closed;
      Inside(0);
      assert tree.keys == k[..][..num];
      LeafDeletable(m, tree, x, k[..]);
      DeleteFromLeaf(x);
    }

    /** Case 3: on to the kid where the scan stopped. */
    method DeleteDown(ghost h: nat, i: nat, x: int) returns (ghost leaf: TreeNode, ghost slots: seq<int>)
      requires h > 0 && Valid(h) && Deletable(m, h, tree, x)
      requires i == LowerPos(tree.keys, x) && i <= num && (i == |tree.keys| || tree.keys[i] != x)
      modifies this, k, p, below
      ensures Valid(h) && below <= old(below) && leaf in Repr()
      ensures Deletes(m, h, old(tree), x, tree, leaf, slots)
      decreases h, 3
    {
      hide Family;
      hide TreeNode.Valid;
      hide InOrder;
      hide Deletable;
      hide Deletes;
      hide LowerPos;
      hide Kids;
      hide Refill;
      hide RefillPos;
      DeletableParts(m, h, tree, x);
      RefilledDeletable(m, h, tree, x);
      ghost var t := tree;
      var pos := EnsureKeys(h, i);
      leaf, slots := DeleteBelow(h, pos, x);
      DeletesDown(m, h, t, x, tree.kids[pos], leaf, slots);
    }

    /** `leaf` is the leaf where the search for an absent `x` ends, `slots` its array at the test. */
    method DeleteNonone(ghost h: nat, x: int) returns (ghost leaf: TreeNode, ghost slots: seq<int>)
      requires Valid(h) && if num == 0 then h == 0 else Deletable(m, h, tree, x)
      modifies this, k, p, below
      ensures old(num) > 0 ==>
        && Valid(h) && below <= old(below) && leaf in Repr() && Deletes(m, h, old(tree), x, tree, leaf, slots)
      ensures old(num) == 0 ==>
        && leaf == this && slots == old(k[..]) && slots != []
        && if slots[0] == x then num == -1 else num == 0 && Valid(0) && tree == old(tree) && below == old(below)
      decreases h, 4
    {
      hide Family;
      hide TreeNode.Valid;
      hide InOrder;
      hide Deletable;
      hide Deletes;
      Inside(h);
      leaf, slots := this, k[..];
      if isLeaf {
        if num == 0 {
          DeleteFromLeaf(x);
        } else {
          DeleteAtLeaf(x);
        }
      } else {
        DeletableParts(m, h, tree, x);
        var i := ScanUp(x);
        if i < num && x == k[i] {
          HereDeletable(m, h, tree, i);
          ghost var t := tree;
          DeleteHere(h, i, x);
          PresentDeletes(m, h, t, x, leaf, slots);
        } else {
          leaf, slots := DeleteDown(h, i, x);
        }
      }
    }
  }

  /* ---------- the root ---------- */

  /** A new root over the full old one. */
  method NewRoot(root: TreeNode, ghost h: nat) returns (node: TreeNode)
    requires root.m >= 2 && root.Valid(h)
    ensures node.m == root.m && node.Valid(h + 1) && node.num == 0 && node.kids == [root]
    ensures node.tree == Node([], [root.tree]) && node.below == root.Repr()
    ensures fresh({node, node.k, node.p})
  {
    hide Family;
    hide TreeNode.Valid;
    node := new TreeNode(root.m);
    node.Inside(0);
    node.isLeaf := false;
    node.p[0] := root;
    OnlyChild(root, h + 1);
    node.Adopt(h + 1, Node([], [root.tree]), [root], root.Repr());
  }

  method GrowUp(root: TreeNode, ghost h: nat) returns (node: TreeNode)
    requires root.m >= 2 && root.Valid(h) && root.num == 2 * root.m - 1 && |root.tree.keys| == root.num
    requires root.tree.kids == [] || |root.tree.kids| == 2 * root.m
    modifies root
    ensures node.m == root.m && node.Valid(h + 1) && fresh(node.Repr() - old(root.Repr()))
    ensures node.tree == SplitChild(root.m, Node([], [old(root.tree)]), 0)
  {
    hide Family;
    hide TreeNode.Valid;
    node := NewRoot(root, h);
    node.SplitChild(h + 1, 0, root);
  }

  method InsertTaller(root: TreeNode, ghost h: nat, x: int) returns (r: TreeNode)
    requires root.m >= 2 && root.Valid(h) && root.num == 2 * root.m - 1 && |root.tree.keys| == root.num
    requires root.tree.kids == [] || |root.tree.kids| == 2 * root.m
    requires Kids(root.m, SplitChild(root.m, Node([], [root.tree]), 0), h + 1)
    modifies root, root.k, root.p, root.below
    ensures r.m == root.m && r.Valid(h + 1) && fresh(r.Repr() - old(root.Repr()))
    ensures r.tree == InsertNonfull(root.m, h + 1, SplitChild(root.m, Node([], [old(root.tree)]), 0), x)
  {
    hide Family;
    hide TreeNode.Valid;
    hide Kids;
    hide InsertNonfull;
    r := GrowUp(root, h);
    r.Inside(h + 1);
    assert |r.tree.keys| == 1;
    r.InsertNonfull(h + 1, x);
  }

  method BTreeInsert(root: TreeNode, ghost h: nat, x: int) returns (r: TreeNode)
    requires root.m >= 2 && root.Valid(h) && Root(root.m, root.tree, h)
    modifies root, root.k, root.p, root.below
    ensures r.m == root.m && r.Valid(InsertHeight(root.m, h, old(root.tree))) && fresh(r.Repr() - old(root.Repr()))
    ensures r.tree == Insert(root.m, h, old(root.tree), x)
  {
    hide Family;
    hide TreeNode.Valid;
    hide InsertNonfull;
    root.Inside(h);
    if root.num == 2 * root.m - 1 {
      GrowRoot(root.m, h, root.tree);
      r := InsertTaller(root, h, x);
    } else {
      r := root;
      r.InsertNonfull(h, x);
    }
  }

  /** A root with one key over two minimal kids goes; its left kid takes everything over. */
  method Collapse(root: TreeNode, ghost h: nat, y: TreeNode, z: TreeNode)
    requires h > 0 && root.Valid(h) && root.num == 1 && |root.tree.keys| == 1 && |root.tree.kids| == 2
    requires root.p[0] == y && root.p[1] == z && y.num == root.m - 1 && z.num == root.m - 1
    modifies root, root.k, root.p, root.below
    ensures y.m == root.m && y.Valid(h - 1) && y.Repr() <= old(root.Repr())
    ensures y.tree == Join(old(root.tree).kids[0], old(root.tree).keys[0], old(root.tree).kids[1])
  {
    hide Family;
    hide TreeNode.Valid;
    root.KidOf(h, 0);
    root.KidOf(h, 1);
    root.MergeChild(h, 0, y, z);
    root.KidOf(h, 0);
  }

  /** A valid tree, and an `x` whose test in the leaf stays inside the array. */
  ghost predicate Searchable(m: nat, h: nat, t: Tree, x: int) {
    && m >= 2 && Root(m, t, h) && Sorted(InOrder(t))
    && (x in InOrder(t) || LowerPos(RootLeafKeys(m, h, t, x), x) < 2 * m - 1)
  }

  /** What `BTreeDelete` does to a tree with keys. */
  ghost predicate DeletesAtRoot(m: nat, h: nat, t: Tree, x: int, t': Tree, leaf: TreeNode, slots: seq<int>)
    reads leaf, leaf.k
  {
    && m >= 2 && Root(m, t, h) && |t.keys| > 0
    && (x in InOrder(t) ==> t' == Delete(m, h, t, x))
    && (x !in InOrder(t) ==>
          var ks := RootLeafKeys(m, h, t, x);
          Tested(leaf, x, ks, slots) && t' == DeleteSlot(m, h, t, x, slots[LowerPos(ks, x)]))
  }

  lemma CollapsedDeletable(m: nat, h: nat, t: Tree, x: int)
    requires Searchable(m, h, t, x) && Collapses(m, h, t)
    ensures h > 0 && Deletable(m, h - 1, Join(t.kids[0], t.keys[0], t.kids[1]), x)
  {
    CollapseRoot(m, h, t);
    hide InOrder;
  }

  lemma CollapsedDeletes(m: nat, h: nat, t: Tree, x: int, t': Tree, leaf: TreeNode, slots: seq<int>)
    requires Searchable(m, h, t, x) && Collapses(m, h, t)
    requires Deletes(m, h - 1, Join(t.kids[0], t.keys[0], t.kids[1]), x, t', leaf, slots)
    ensures DeletesAtRoot(m, h, t, x, t', leaf, slots)
  {
    CollapseRoot(m, h, t);
    hide InOrder;
  }

  lemma RootDeletable(m: nat, h: nat, t: Tree, x: int)
    requires Searchable(m, h, t, x) && !Collapses(m, h, t)
    ensures if t.keys == [] then h == 0 else Deletable(m, h, t, x)
  {
    RootReady(m, h, t);
    hide InOrder;
  }

  lemma RootDeletes(m: nat, h: nat, t: Tree, x: int, t': Tree, leaf: TreeNode, slots: seq<int>)
    requires Searchable(m, h, t, x) && !Collapses(m, h, t) && Deletes(m, h, t, x, t', leaf, slots)
    ensures DeletesAtRoot(m, h, t, x, t', leaf, slots)
  {
    hide InOrder;
  }

  lemma DeletesAtRootIs(m: nat, h: nat, t: Tree, x: int, t': Tree, leaf: TreeNode, slots: seq<int>)
    requires Searchable(m, h, t, x) && DeletesAtRoot(m, h, t, x, t', leaf, slots)
    ensures Root(m, t', DeleteHeight(m, h, t)) && Sorted(InOrder(t'))
    ensures x in InOrder(t) ==> Removed(InOrder(t), InOrder(t'), x)
    ensures x !in InOrder(t) ==>
      var i := LowerPos(RootLeafKeys(m, h, t, x), x);
      i < |slots| && Missed(InOrder(t), InOrder(t'), x, slots[i])
  {
    hide InOrder;
    hide Root;
    hide Delete;
    hide RootLeafKeys;
    hide DeleteSlot;
    hide Missed;
    if x in InOrder(t) {
      DeleteCorrect(m, h, t, x);
    } else {
      DeleteAbsentExactly(m, h, t, x, slots[LowerPos(RootLeafKeys(m, h, t, x), x)]);
    }
  }

  /** Whether a whole tree has keys shows at its root. */
  lemma SomeKeys(m: nat, h: nat, t: Tree)
    requires Root(m, t, h)
    ensures InOrder(t) == [] <==> t.keys == []
    ensures t.keys == [] ==> h == 0
  {
    if t.keys != [] {
      KeyInOrder(t, 0);
    }
  }

  /** `y` is the left kid of a root that goes. */
  method DeleteCollapsed(root: TreeNode, ghost h: nat, x: int, y: TreeNode, z: TreeNode)
    returns (ghost leaf: TreeNode, ghost slots: seq<int>)
    requires root.Valid(h) && Searchable(root.m, h, root.tree, x) && Collapses(root.m, h, root.tree)
    requires root.num == 1 && root.p[0] == y && root.p[1] == z && y.num == root.m - 1 && z.num == root.m - 1
    modifies root, root.k, root.p, root.below
    ensures y.m == root.m && y.Valid(h - 1) && y.Repr() <= old(root.Repr())
    ensures DeletesAtRoot(root.m, h, old(root.tree), x, y.tree, leaf, slots) && leaf in y.Repr()
  {
    hide Family;
    hide TreeNode.Valid;
    hide InOrder;
    hide Deletes;
    hide DeletesAtRoot;
    hide Deletable;
    CollapsedDeletable(root.m, h, root.tree, x);
    hide Searchable;
    Collapse(root, h, y, z);
    y.Inside(h - 1);
    leaf, slots := y.DeleteNonone(h - 1, x);
    CollapsedDeletes(root.m, h, old(root.tree), x, y.tree, leaf, slots);
  }

  method BTreeDelete(root: TreeNode, ghost h: nat, x: int)
    returns (r: TreeNode, ghost leaf: TreeNode, ghost slots: seq<int>)
    requires root.Valid(h) && Searchable(root.m, h, root.tree, x)
    modifies root, root.k, root.p, root.below
    ensures old(root.num) > 0 ==>
      && r.m == root.m && r.Valid(DeleteHeight(root.m, h, old(root.tree))) && r.Repr() <= old(root.Repr())
      && leaf in r.Repr() && DeletesAtRoot(root.m, h, old(root.tree), x, r.tree, leaf, slots)
    ensures old(root.num) == 0 ==>
      && r == root && slots == old(root.k[..]) && slots != []
      && if slots[0] == x then r.num == -1
         else r.num == 0 && r.Valid(0) && r.tree == old(root.tree) && r.below == old(root.below)
  {
    hide Family;
    hide TreeNode.Valid;
    hide InOrder;
    hide Deletes;
    hide DeletesAtRoot;
    hide Deletable;
    hide Searchable;
    root.Inside(h);
    r := root;
    if root.num == 1 {
      var y, z := root.p[0], root.p[1];
      if y != null && z != null {
        root.KidOf(h, 0);
        root.KidOf(h, 1);
        if y.num == root.m - 1 && z.num == root.m - 1 {
          r := y;
          leaf, slots := DeleteCollapsed(root, h, x, y, z);
          return;
        }
      }
    }
    RootDeletable(root.m, h, root.tree, x);
    leaf, slots := r.DeleteNonone(h, x);
    if old(root.num) > 0 {
      RootDeletes(root.m, h, old(root.tree), x, r.tree, leaf, slots);
    }
  }

  class BTree {
    const m: nat
    var root: TreeNode
    ghost var height: nat

    ghost predicate Valid()
      reads this, root, root.k, root.p, root.below
    {
      && m >= 2 && root.m == m && root.Valid(height) && this !in root.Repr()
      && Root(m, root.tree, height) && Sorted(InOrder(root.tree))
    }

    /** The keys in order. */
    ghost function Keys(): seq<int>
      reads this, root
    {
      InOrder(root.tree)
    }

    constructor (m: nat)
      requires m >= 2
      ensures Valid() && Keys() == [] && this.m == m && fresh(root.Repr())
    {
      this.m := m;
      root := new TreeNode(m);
      height := 0;
    }

    /** `Tree::insert`: one `x` more. */
    method Insert(x: int)
      requires Valid()
      modifies this, root, root.k, root.p, root.below
      ensures Valid() && fresh(root.Repr() - old(root.Repr()))
      ensures root.tree == BTreeModel.Insert(m, old(height), old(root.tree), x)
      ensures height == InsertHeight(m, old(height), old(root.tree))
      ensures Inserted(old(Keys()), Keys(), x)
    {
      hide Family;
      hide TreeNode.Valid;
      hide InOrder;
      InsertCorrect(m, height, root.tree, x);
      ghost var h := InsertHeight(m, height, root.tree);
      root := BTreeInsert(root, height, x);
      height := h;
    }

    /** `Tree::Del`.  One `x` fewer if it is in the tree.  If not, and the test in the leaf stays inside the array:
        no change exactly when the slot tested does not hold `x`, else the greatest key below `x` goes; and if the
        tree is empty, its root then has -1 keys and is no tree any more. */
    method Delete(x: int) returns (ghost leaf: TreeNode, ghost slots: seq<int>)
      requires Valid() && Searchable(m, height, root.tree, x)
      modifies this, root, root.k, root.p, root.below
      ensures old(Keys()) != [] ==>
        && Valid() && root.Repr() <= old(root.Repr()) && height == DeleteHeight(m, old(height), old(root.tree))
        && leaf in root.Repr() && DeletesAtRoot(m, old(height), old(root.tree), x, root.tree, leaf, slots)
      ensures x in old(Keys()) ==> Removed(old(Keys()), Keys(), x)
      ensures x !in old(Keys()) && old(Keys()) != [] ==>
        var i := LowerPos(RootLeafKeys(m, old(height), old(root.tree), x), x);
        i < |slots| && Missed(old(Keys()), Keys(), x, slots[i])
      ensures old(Keys()) == [] ==>
        && root == old(root) && slots == old(root.k[..]) && slots != []
        && if slots[0] == x then root.num == -1 else Valid() && Keys() == []
    {
      hide Family;
      hide TreeNode.Valid;
      hide InOrder;
      hide Root;
      hide Searchable;
      hide DeletesAtRoot;
      hide RootLeafKeys;
      hide Missed;
      SomeKeys(m, height, root.tree);
      ghost var h, t := height, root.tree;
      root.Inside(h);
      root, leaf, slots := BTreeDelete(root, height, x);
      if t.keys != [] {
        height := DeleteHeight(m, h, t);
        DeletesAtRootIs(m, h, t, x, root.tree, leaf, slots);
      }
    }
  }
}
