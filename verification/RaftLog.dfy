/**
 The replicated log of the Raft node in example/raft_server/raft.cc: a ring of `log_len` entries that
 is compacted into a snapshot when it is full, and the progress rule that lets a leader apply entries.

 The application is the one of example/raft_server/main.cc: a JSON object, updated by patches and
 captured whole by a snapshot.  Each operation is given as a function on the value of the log and, in
 class `RingLog`, as the method that changes the ring in place, proved equal to that function.
 */
module RaftLog {
  import RingIndex
  import opened Wrappers

  type State = map<string, string>

  /** `data` is `None` when `update.data` is null and `update.len` is 0. */
  datatype Entry = Entry(term: int, snapshot: bool, data: Option<State>)

  const BLANK := Entry(0, false, None)

  datatype Log = Log(slots: seq<Entry>, first: nat, size: nat, acked: int, applied: nat, state: State) {
    function Len(): nat { |slots| }
    /** One past the last index. */
    function End(): nat { first + size }

    function At(i: nat): Entry
      requires Len() > 0
    {
      slots[i % Len()]
    }

    /** The log starts with a snapshot. */
    predicate Marked()
      requires Len() > 0
    {
      size > 0 && At(first).snapshot
    }
  }

  function Patch(e: Entry): State {
    if e.data.Some? then e.data.value else map[]
  }

  /** The state after applying a list of patches in order. */
  function Replay(h: seq<State>): State {
    if h == [] then map[] else Replay(h[..|h| - 1]) + h[|h| - 1]
  }

  /* ---------- the operations ---------- */

  function Init(len: nat): Log {
    Log(seq(len, _ => BLANK), 0, 0, 0, 0, map[])
  }

  function ApplyOne(l: Log): Log
    requires l.Len() > 0
  {
    l.(state := l.state + Patch(l.At(l.applied)), applied := l.applied + 1)
  }

  /** `apply`: catch up with what the cluster has acknowledged. */
  function Apply(l: Log): (r: Log)
    requires l.Len() > 0
    ensures r == l.(state := r.state, applied := r.applied) && l.applied <= r.applied
    ensures l.applied <= l.End() ==> r.applied <= l.End()
    decreases l.End() - l.applied
  {
    if l.applied < l.acked && l.applied < l.End() then
      Apply(ApplyOne(l))
    else
      l
  }

  /** Slots of the indices `lo` up to `hi` without their data; and without their snapshot mark, if `unmark`. */
  function Cleared(slots: seq<Entry>, lo: nat, hi: nat, unmark: bool): (r: seq<Entry>)
    requires |slots| > 0
    ensures |r| == |slots|
    decreases hi - lo
  {
    if lo >= hi then slots
    else
      var e := slots[lo % |slots|];
      Cleared(slots[lo % |slots| := Entry(e.term, e.snapshot && !unmark, None)], lo + 1, hi, unmark)
  }

  /** `compact`: everything applied becomes one snapshot, at the index of the last applied entry. */
  function Compact(l: Log): Log
    requires l.Len() > 0 && l.first <= l.applied <= l.End()
  {
    if l.applied == l.first then l
    else
      var slots := Cleared(l.slots, l.first, l.applied, true);
      var head := l.applied - 1;
      l.(first := head, size := l.size - (l.applied - l.first - 1),
         slots := slots[head % l.Len() := Entry(slots[head % l.Len()].term, true, Some(l.state))])
  }

  /** The ring cannot take another entry even after compaction. */
  predicate Stuck(l: Log) {
    l.size == l.Len() && l.applied <= l.first + 1
  }

  /** The appending half of `emit`, when the ring has room. */
  function Append(l: Log, term: int, u: State): Log
    requires l.Len() > 0
  {
    var slot := l.End() % l.Len();
    l.(slots := l.slots[slot := Entry(term, l.slots[slot].snapshot, Some(u))], size := l.size + 1)
  }

  /** `emit`: append an entry, compacting a full ring first.  The snapshot mark of the slot is not written. */
  function Emit(l: Log, term: int, u: State): Log
    requires l.Len() > 0 && l.first <= l.applied <= l.End()
  {
    var l1 := if l.size == l.Len() then Compact(l) else l;
    if Stuck(l) then l1 else Append(l1, term, u)
  }

  /** `restore`: drop the log and start over from the snapshot `e` at `index`. */
  function Restore(l: Log, index: nat, e: Entry): Log
    requires l.Len() > 0
  {
    var slots := Cleared(l.slots, l.first, l.End(), false);
    l.(slots := slots[index % l.Len() := e], first := index, size := 1, applied := index + 1, state := Patch(e))
  }

  /* ---------- the progress rule ---------- */

  /** What a node knows of a peer: whether it is up and how many entries it has acknowledged. */
  datatype Peer = Peer(up: bool, acked: int)

  /** The copies of the first `a` entries: the node itself and the peers that have at least `a`. */
  function Copies(peers: seq<Peer>, me: int, a: int, count: nat): nat
    requires count <= |peers|
  {
    if count == 0 then 1
    else Copies(peers, me, a, count - 1) + if count - 1 != me && peers[count - 1].acked >= a then 1 else 0
  }

  predicate Replicated(peers: seq<Peer>, me: int, peerNum: int, a: int) {
    Copies(peers, me, a, |peers|) * 2 > peerNum
  }

  /** `refreshAcked` after looking at the first `count` peers. */
  function Progress(peers: seq<Peer>, me: int, peerNum: int, acked: int, count: nat): int
    requires count <= |peers|
  {
    if count == 0 then acked
    else
      var a := Progress(peers, me, peerNum, acked, count - 1);
      var p := peers[count - 1];
      if count - 1 != me && p.up && p.acked > a && Replicated(peers, me, peerNum, p.acked) then p.acked else a
  }

  function RefreshAcked(l: Log, peers: seq<Peer>, me: int, peerNum: int): Log
    requires l.Len() > 0
  {
    Apply(l.(acked := Progress(peers, me, peerNum, l.acked, |peers|)))
  }

  lemma {:induction false} FewerCopies(peers: seq<Peer>, me: int, a: int, b: int, count: nat)
    requires count <= |peers| && a <= b
    ensures Copies(peers, me, b, count) <= Copies(peers, me, a, count)
  {
    if count == 0 {
    } else {
      FewerCopies(peers, me, a, b, count - 1);
    }
  }

  /** The new `acked` is the old one or a count reported by a peer that is up, and no replicated
      count among the peers seen is greater. */
  lemma {:induction false} ProgressIsGreatest(peers: seq<Peer>, me: int, peerNum: int, acked: int, count: nat)
    requires count <= |peers|
    ensures var r := Progress(peers, me, peerNum, acked, count);
      && r >= acked
      && (r > acked ==> Replicated(peers, me, peerNum, r))
      && (r > acked ==> exists i :: 0 <= i < count && i != me && peers[i].up && peers[i].acked == r)
      && (forall i :: 0 <= i < count && i != me && peers[i].up && Replicated(peers, me, peerNum, peers[i].acked) ==>
            peers[i].acked <= r)
  {
    if count == 0 {
    } else {
      ProgressIsGreatest(peers, me, peerNum, acked, count - 1);
    }
  }

  /** `refreshAcked` never acknowledges what a majority does not hold: every index below `acked` that was
      not acknowledged before has its copies on more than half of the peers. */
  lemma AckedIsReplicated(peers: seq<Peer>, me: int, peerNum: int, acked: int, i: int)
    requires acked <= i < Progress(peers, me, peerNum, acked, |peers|)
    ensures Replicated(peers, me, peerNum, i + 1)
  {
    ProgressIsGreatest(peers, me, peerNum, acked, |peers|);
    FewerCopies(peers, me, i + 1, Progress(peers, me, peerNum, acked, |peers|), |peers|);
  }

  /** The other peers, of the first `count`, that hold at least `a` entries. */
  function Holders(peers: seq<Peer>, me: int, a: int, count: nat): set<nat>
    requires count <= |peers|
  {
    set j: nat | j < count && j != me && peers[j].acked >= a
  }

  lemma {:induction false} CopiesCounted(peers: seq<Peer>, me: int, a: int, count: nat)
    requires count <= |peers|
    ensures Copies(peers, me, a, count) == 1 + |Holders(peers, me, a, count)|
  {
    if count > 0 {
      CopiesCounted(peers, me, a, count - 1);
      var more := if count - 1 != me && peers[count - 1].acked >= a then {count - 1} else {};
      assert Holders(peers, me, a, count) == Holders(peers, me, a, count - 1) + more;
    }
  }

  /** A majority is more than half of `peerNum`, the node itself and the others that hold the entries counted. */
  lemma ReplicatedExactly(peers: seq<Peer>, me: int, peerNum: int, a: int)
    ensures Replicated(peers, me, peerNum, a) <==> 2 * (1 + |Holders(peers, me, a, |peers|)|) > peerNum
  {
    CopiesCounted(peers, me, a, |peers|);
  }

  /* ---------- the ring against an unbounded log ---------- */

  /** What the ring must hold at index `i`: the state up to and including `i` at a snapshot, else the patch. */
  function Content(h: seq<State>, first: nat, marked: bool, i: nat): State
    requires i < |h|
  {
    if marked && i == first then Replay(h[..i + 1]) else h[i]
  }

  /** The ring holds `h` from `first` on, the head as a snapshot if it is marked as one. */
  ghost predicate Window(slots: seq<Entry>, h: seq<State>, first: nat, marked: bool)
    requires |slots| > 0
  {
    forall i {:trigger slots[i % |slots|]} :: first <= i < |h| ==>
      slots[i % |slots|].data == Some(Content(h, first, marked, i))
  }

  /** The slots outside the window hold no data. */
  ghost predicate Vacant(slots: seq<Entry>, first: nat, end: nat)
    requires |slots| > 0
  {
    forall i {:trigger slots[i % |slots|]} :: end <= i < first + |slots| ==> slots[i % |slots|].data == None
  }

  /** `l` holds the end of the unbounded log `h` of patches, from a snapshot on if there is one. */
  ghost predicate Inv(l: Log, h: seq<State>) {
    && l.Len() > 0 && l.size <= l.Len() && |h| == l.End()
    && l.first <= l.applied <= l.End()
    && l.state == Replay(h[..l.applied])
    && Window(l.slots, h, l.first, l.Marked())
    && Vacant(l.slots, l.first, l.End())
    && (l.first > 0 ==> l.Marked())
    && (l.size == 0 ==> !l.At(l.first).snapshot)
    && (l.Marked() ==> l.first < l.applied)
  }

  lemma InitInv(len: nat)
    requires len > 0
    ensures Inv(Init(len), [])
  {
  }

  lemma ReplaySnoc(h: seq<State>, i: nat)
    requires i < |h|
    ensures Replay(h[..i + 1]) == Replay(h[..i]) + h[i]
  {
    assert h[..i + 1][..i] == h[..i];
  }

  lemma ApplyOneInv(l: Log, h: seq<State>)
    requires Inv(l, h) && l.applied < l.End()
    ensures Inv(ApplyOne(l), h)
  {
    ReplaySnoc(h, l.applied);
    assert l.slots[l.applied % l.Len()].data == Some(h[l.applied]);
  }

  lemma {:induction false} ApplyInv(l: Log, h: seq<State>)
    requires Inv(l, h)
    ensures Inv(Apply(l), h)
    decreases l.End() - l.applied
  {
    if l.applied < l.acked && l.applied < l.End() {
      ApplyOneInv(l, h);
      ApplyInv(ApplyOne(l), h);
    }
  }

  /** `apply` stops exactly at the smaller of `acked` and the end, and touches nothing but the state. */
  lemma {:induction false} AppliedUpTo(l: Log)
    requires l.Len() > 0 && l.applied <= l.End()
    ensures Apply(l) == l.(state := Apply(l).state, applied := Apply(l).applied)
    ensures Apply(l).applied ==
      if l.acked <= l.applied then l.applied else if l.acked <= l.End() then l.acked else l.End()
    decreases l.End() - l.applied
  {
    if l.applied < l.acked && l.applied < l.End() {
      AppliedUpTo(ApplyOne(l));
    }
  }

  lemma {:induction false} ClearedSlots(slots: seq<Entry>, lo: nat, hi: nat, unmark: bool)
    requires |slots| > 0 && hi <= lo + |slots|
    ensures var r := Cleared(slots, lo, hi, unmark);
      && (forall i {:trigger i % |slots|} :: lo <= i < hi ==>
            r[i % |slots|].data == None && r[i % |slots|].term == slots[i % |slots|].term
            && r[i % |slots|].snapshot == (slots[i % |slots|].snapshot && !unmark))
      && (forall i {:trigger i % |slots|} :: hi <= i < lo + |slots| && lo <= hi ==>
           r[i % |slots|] == slots[i % |slots|])
    decreases hi - lo
  {
    if lo < hi {
      var e := slots[lo % |slots|];
      var s1 := slots[lo % |slots| := Entry(e.term, e.snapshot && !unmark, None)];
      ClearedSlots(s1, lo + 1, hi, unmark);
      forall i | lo < i < lo + |slots|
        ensures i % |slots| != lo % |slots|
      {
        RingIndex.Apart(lo, i - lo, |slots|);
      }
      RingIndex.Turn(lo, |slots|);
    }
  }

  /** Within one turn of the ring, a slot is that of index `i` only if the index is `i`. */
  lemma OtherSlots(n: nat, lo: nat, i: nat, j: nat)
    requires lo <= i < lo + n && lo <= j < lo + n && i != j
    ensures i % n != j % n
  {
    if i < j {
      RingIndex.Apart(i, j - i, n);
    } else {
      RingIndex.Apart(j, i - j, n);
    }
  }

  /** What compaction leaves at and above `applied`, and what it puts at its head. */
  lemma CompactSlots(l: Log)
    requires l.Len() > 0 && l.first < l.applied <= l.End() && l.size <= l.Len()
    ensures var r := Compact(l);
      && r.Len() == l.Len()
      && (forall i {:trigger r.slots[i % l.Len()]} :: l.applied <= i < l.first + l.Len() ==>
            r.slots[i % l.Len()] == l.slots[i % l.Len()])
      && (forall i {:trigger r.slots[i % l.Len()]} :: l.first <= i < l.applied - 1 ==>
            r.slots[i % l.Len()] == Entry(l.slots[i % l.Len()].term, false, None))
      && r.slots[(l.applied - 1) % l.Len()] == Entry(l.slots[(l.applied - 1) % l.Len()].term, true, Some(l.state))
  {
    var n := l.Len();
    var head := l.applied - 1;
    ClearedSlots(l.slots, l.first, l.applied, true);
    forall i | l.first <= i < l.first + n && i != head
      ensures i % n != head % n
    {
      OtherSlots(n, l.first, i, head);
    }
    var c := Cleared(l.slots, l.first, l.applied, true);
    forall i | l.applied <= i < l.first + n
      ensures Compact(l).slots[i % n] == l.slots[i % n]
    {
      assert c[i % n] == l.slots[i % n];
    }
    forall i | l.first <= i < head
      ensures Compact(l).slots[i % n] == Entry(l.slots[i % n].term, false, None)
    {
      assert c[i % n] == Entry(l.slots[i % n].term, false, None);
    }
    assert c[head % n].term == l.slots[head % n].term;
  }

  lemma CompactWindow(l: Log, h: seq<State>)
    requires Inv(l, h) && l.first < l.applied
    ensures Window(Compact(l).slots, h, l.applied - 1, true)
    ensures Vacant(Compact(l).slots, l.applied - 1, l.End())
  {
    var r := Compact(l);
    var n := l.Len();
    CompactSlots(l);
    forall i | l.applied - 1 <= i < |h|
      ensures r.slots[i % n].data == Some(Content(h, l.applied - 1, true, i))
    {
      if i >= l.applied {
        assert l.slots[i % n].data == Some(Content(h, l.first, l.Marked(), i));
      }
    }
    forall i | l.End() <= i < l.applied - 1 + n
      ensures r.slots[i % n].data == None
    {
      if i < l.first + n {
        assert l.slots[i % n].data == None;
      } else {
        RingIndex.Turn(i - n, n);
        assert r.slots[(i - n) % n].data == None;
      }
    }
  }

  /** Compaction changes nothing of what the log means. */
  lemma CompactInv(l: Log, h: seq<State>)
    requires Inv(l, h)
    ensures Inv(Compact(l), h)
  {
    if l.first < l.applied {
      CompactWindow(l, h);
      CompactSlots(l);
    }
  }

  lemma AppendWindow(l: Log, h: seq<State>, term: int, u: State)
    requires Inv(l, h) && l.size < l.Len()
    ensures Window(Append(l, term, u).slots, h + [u], l.first, l.Marked())
    ensures Vacant(Append(l, term, u).slots, l.first, l.End() + 1)
  {
    var r := Append(l, term, u);
    var n := l.Len();
    forall i | l.first <= i < |h| + 1
      ensures r.slots[i % n].data == Some(Content(h + [u], l.first, l.Marked(), i))
    {
      if i < |h| {
        OtherSlots(n, l.first, i, l.End());
        assert l.slots[i % n].data == Some(Content(h, l.first, l.Marked(), i));
        assert (h + [u])[..i + 1] == h[..i + 1];
      }
    }
    forall i | l.End() + 1 <= i < l.first + n
      ensures r.slots[i % n].data == None
    {
      OtherSlots(n, l.first, i, l.End());
      assert l.slots[i % n].data == None;
    }
  }

  lemma AppendInv(l: Log, h: seq<State>, term: int, u: State)
    requires Inv(l, h) && l.size < l.Len()
    ensures Inv(Append(l, term, u), h + [u])
  {
    AppendWindow(l, h, term, u);
    assert (h + [u])[..l.applied] == h[..l.applied];
    if l.size > 0 {
      OtherSlots(l.Len(), l.first, l.first, l.End());
    }
  }

  /** `emit` appends exactly when the ring is not stuck, and then the unbounded log grows by the update. */
  lemma EmitInv(l: Log, h: seq<State>, term: int, u: State)
    requires Inv(l, h)
    ensures Inv(Emit(l, term, u), if Stuck(l) then h else h + [u])
  {
    CompactInv(l, h);
    var l1 := if l.size == l.Len() then Compact(l) else l;
    if !Stuck(l) {
      AppendInv(l1, h, term, u);
    }
  }

  /** Every slot is the slot of some index of any turn. */
  lemma Representative(lo: nat, n: nat, s: nat) returns (i: nat)
    requires s < n
    ensures lo <= i < lo + n && i % n == s
  {
    var q, r := lo / n, lo % n;
    assert lo == n * q + r;
    if s >= r {
      i := lo + s - r;
      RingIndex.Unique(i, n, q, s);
    } else {
      i := lo + n + s - r;
      RingIndex.Distribute(n, q, 1);
      RingIndex.Unique(i, n, q + 1, s);
    }
  }

  /** Clearing the window empties the ring. */
  lemma AllCleared(l: Log, h: seq<State>, s: nat)
    requires Inv(l, h) && s < l.Len()
    ensures Cleared(l.slots, l.first, l.End(), false)[s].data == None
    ensures Cleared(l.slots, l.first, l.End(), false)[s].snapshot == l.slots[s].snapshot
  {
    var i := Representative(l.first, l.Len(), s);
    ClearedSlots(l.slots, l.first, l.End(), false);
    if i >= l.End() {
      assert l.slots[i % l.Len()].data == None;
    }
  }

  /** What `restore` leaves in every slot: the snapshot in that of its index, in the others of the old window term
      and mark without data, and the rest as it was. */
  lemma RestoreExactly(l: Log, index: nat, e: Entry, i: nat)
    requires l.Len() > 0 && l.size <= l.Len() && l.first <= i < l.first + l.Len()
    ensures var r := Restore(l, index, e);
      && r.Len() == l.Len() && r.first == index && r.size == 1 && r.applied == index + 1 && r.acked == l.acked
      && r.state == (if e.data.Some? then e.data.value else map[]) && r.At(index) == e
      && (i % l.Len() != index % l.Len() ==>
            r.At(i) == if i < l.first + l.size then Entry(l.At(i).term, l.At(i).snapshot, None) else l.At(i))
  {
    ClearedSlots(l.slots, l.first, l.End(), false);
  }

  /** `emit` into a ring with room writes term and data of the slot behind the last entry, and nothing else; into a
      full one it is `emit` after `compact`, if that gives room. */
  lemma EmitExactly(l: Log, term: int, u: State)
    requires l.Len() > 0 && l.first <= l.applied <= l.End() && l.size <= l.Len()
    ensures l.size < l.Len() ==>
      var slot := (l.first + l.size) % l.Len();
      Emit(l, term, u) == l.(size := l.size + 1, slots := l.slots[slot := Entry(term, l.slots[slot].snapshot, Some(u))])
    ensures l.size == l.Len() && l.applied <= l.first + 1 ==> Emit(l, term, u) == Compact(l)
    ensures l.size == l.Len() && l.applied > l.first + 1 ==>
      && Compact(l).Len() == l.Len() && Compact(l).first <= Compact(l).applied <= Compact(l).End()
      && Compact(l).size < l.Len() && Emit(l, term, u) == Emit(Compact(l), term, u)
  {
    if l.first < l.applied {
      CompactSlots(l);
    }
  }

  /** `compact` moves the head to the last applied entry, and changes neither the end nor what is applied. */
  lemma CompactExactly(l: Log)
    requires l.Len() > 0 && l.first <= l.applied <= l.End()
    ensures l.applied == l.first ==> Compact(l) == l
    ensures l.applied > l.first ==>
      var r := Compact(l);
      && r.first == l.applied - 1 && r.first + r.size == l.first + l.size
      && r.applied == l.applied && r.acked == l.acked && r.state == l.state
  {
  }

  /** `restore`: the log now stands for any history whose replay is the snapshot it received. */
  lemma RestoreInv(l: Log, h: seq<State>, index: nat, e: Entry, h': seq<State>)
    requires Inv(l, h) && e.snapshot && e.data.Some? && |h'| == index + 1 && Replay(h') == e.data.value
    ensures Inv(Restore(l, index, e), h')
  {
    var r := Restore(l, index, e);
    var n := l.Len();
    forall i | index + 1 <= i < index + n
      ensures r.slots[i % n].data == None
    {
      OtherSlots(n, index, i, index);
      AllCleared(l, h, i % n);
    }
    assert h'[..index + 1] == h';
  }

  /* ---------- whole runs ---------- */

  /** What can happen to the log: a leader's own updates and progress, a follower's news of progress,
      compaction, and a snapshot that replaces everything; `h` is a history that the snapshot captures. */
  datatype Event =
    | Emitted(term: int, u: State)
    | Learned(acked: int)
    | Applied
    | Progressed(peers: seq<Peer>, me: int, peerNum: int)
    | Compacted
    | Restored(index: nat, e: Entry, h: seq<State>)

  ghost predicate Possible(v: Event) {
    v.Restored? ==> v.e.snapshot && v.e.data.Some? && |v.h| == v.index + 1 && Replay(v.h) == v.e.data.value
  }

  /** A log whose `applied` lies in the window. */
  predicate Placed(l: Log, len: nat) {
    l.Len() == len && l.first <= l.applied <= l.End()
  }

  function Step(l: Log, v: Event): (r: Log)
    requires l.Len() > 0 && Placed(l, l.Len())
    ensures Placed(r, l.Len())
  {
    match v
    case Emitted(term, u) => Emit(l, term, u)
    case Learned(acked) => l.(acked := acked)
    case Applied => Apply(l)
    case Progressed(peers, me, peerNum) => RefreshAcked(l, peers, me, peerNum)
    case Compacted => Compact(l)
    case Restored(index, e, _) => Restore(l, index, e)
  }

  /** The unbounded log after the event. */
  function Extended(l: Log, h: seq<State>, v: Event): seq<State>
    requires l.Len() > 0
  {
    match v
    case Emitted(_, u) => if Stuck(l) then h else h + [u]
    case Restored(_, _, h') => h'
    case _ => h
  }

  lemma StepInv(l: Log, h: seq<State>, v: Event)
    requires Inv(l, h) && Possible(v)
    ensures Inv(Step(l, v), Extended(l, h, v))
  {
    match v
    case Emitted(term, u) => EmitInv(l, h, term, u);
    case Learned(acked) =>
    case Applied => ApplyInv(l, h);
    case Progressed(peers, me, peerNum) => ApplyInv(l.(acked := Progress(peers, me, peerNum, l.acked, |peers|)), h);
    case Compacted => CompactInv(l, h);
    case Restored(index, e, h') => RestoreInv(l, h, index, e, h');
  }

  ghost predicate Legal(events: seq<Event>) {
    forall k :: 0 <= k < |events| ==> Possible(events[k])
  }

  /** The ring of `len` slots, and the unbounded log, after the events. */
  function Run(len: nat, events: seq<Event>): (r: Log)
    requires len > 0
    ensures Placed(r, len)
  {
    if events == [] then Init(len)
    else Step(Run(len, events[..|events| - 1]), events[|events| - 1])
  }

  function History(len: nat, events: seq<Event>): seq<State>
    requires len > 0
  {
    if events == [] then []
    else
      var before := events[..|events| - 1];
      Extended(Run(len, before), History(len, before), events[|events| - 1])
  }

  lemma {:induction false} RunInv(len: nat, events: seq<Event>)
    requires len > 0 && Legal(events)
    ensures Inv(Run(len, events), History(len, events))
  {
    if events == [] {
      InitInv(len);
    } else {
      var before := events[..|events| - 1];
      RunInv(len, before);
      StepInv(Run(len, before), History(len, before), events[|events| - 1]);
    }
  }

  /** The state rebuilt from the ring alone: the head's snapshot if it has one, then the patches below `i`. */
  function Rebuilt(l: Log, i: nat): State
    requires l.Len() > 0 && l.first <= i
  {
    if i == l.first then map[]
    else if i == l.first + 1 && l.Marked() then Patch(l.At(l.first))
    else Rebuilt(l, i - 1) + Patch(l.At(i - 1))
  }

  lemma {:induction false} RebuiltIsReplay(l: Log, h: seq<State>, i: nat)
    requires Inv(l, h) && l.first <= i <= l.End() && (l.Marked() ==> l.first < i)
    ensures Rebuilt(l, i) == Replay(h[..i])
  {
    if i > l.first {
      var e := l.slots[(i - 1) % l.Len()];
      assert e.data == Some(Content(h, l.first, l.Marked(), i - 1));
      if i > l.first + 1 || !l.Marked() {
        RebuiltIsReplay(l, h, i - 1);
        ReplaySnoc(h, i - 1);
      }
    }
  }

  /** In every run the bounded ring stands for the unbounded log: it never overflows, every index from the
      head's successor on holds its own patch, and the applied state is both what the whole history replays
      to and what the ring alone rebuilds. */
  lemma RingRefinesLog(len: nat, events: seq<Event>)
    requires len > 0 && Legal(events)
    ensures var l, h := Run(len, events), History(len, events);
      && l.size <= len && |h| == l.End()
      && (forall i :: l.first < i < l.End() ==> l.At(i).data == Some(h[i]))
      && l.state == Replay(h[..l.applied])
      && l.state == Rebuilt(l, l.applied)
  {
    var l, h := Run(len, events), History(len, events);
    RunInv(len, events);
    RebuiltIsReplay(l, h, l.applied);
    forall i | l.first < i < l.End()
      ensures l.At(i).data == Some(h[i])
    {
      assert l.slots[i % l.Len()].data == Some(Content(h, l.first, l.Marked(), i));
    }
  }

  /** Compaction never touches an entry at or above `applied`, and frees all but one of those below. */
  lemma CompactKeepsUnapplied(l: Log, h: seq<State>)
    requires Inv(l, h)
    ensures Compact(l).End() == l.End() && Compact(l).state == l.state && Compact(l).applied == l.applied
    ensures Compact(l).size == if l.first < l.applied then l.End() - l.applied + 1 else l.size
    ensures forall i :: l.applied <= i < l.End() ==> Compact(l).Len() == l.Len() && Compact(l).At(i) == l.At(i)
  {
    if l.first < l.applied {
      CompactSlots(l);
      forall i | l.applied <= i < l.End()
        ensures Compact(l).At(i) == l.At(i)
      {
        assert Compact(l).slots[i % l.Len()] == l.slots[i % l.Len()];
      }
    }
  }

  /** An update is refused exactly when the ring is full and at most its head is applied; an accepted one
      is found at the index after the last one. */
  lemma EmitAcceptsUnlessStuck(l: Log, h: seq<State>, term: int, u: State)
    requires Inv(l, h)
    ensures var r := Emit(l, term, u);
      r.End() == l.End() + (if l.size == l.Len() && l.applied <= l.first + 1 then 0 else 1)
    ensures !Stuck(l) ==> Emit(l, term, u).Len() > 0 && Emit(l, term, u).At(l.End()).data == Some(u)
    ensures !Stuck(l) ==> Emit(l, term, u).At(l.End()).term == term
  {
    EmitInv(l, h, term, u);
  }

  /* ---------- stale snapshot marks ---------- */

  /** Only the head may carry the snapshot mark. */
  predicate Clean(l: Log)
    requires l.Len() > 0
  {
    forall i {:trigger l.slots[i % l.Len()]} :: l.first < i < l.first + l.Len() ==> !l.slots[i % l.Len()].snapshot
  }

  /** What a follower that is in state `s` becomes when entry `e` is sent to it and then applied. */
  function Followed(s: State, e: Entry): State {
    if e.snapshot then Patch(e) else s + Patch(e)
  }

  /** An entry after the head brings a follower to the next state exactly when it carries no snapshot mark,
      or when its patch happens to overwrite the whole state. */
  lemma DeliveredExactly(l: Log, h: seq<State>, i: nat)
    requires Inv(l, h) && l.first < i < l.End()
    ensures Followed(Replay(h[..i]), l.At(i)) == Replay(h[..i + 1])
       <==> !l.At(i).snapshot || Replay(h[..i]).Keys <= h[i].Keys
  {
    var s := Replay(h[..i]);
    assert l.slots[i % l.Len()].data == Some(Content(h, l.first, l.Marked(), i));
    ReplaySnoc(h, i);
    if l.At(i).snapshot {
      if s.Keys <= h[i].Keys {
        assert s + h[i] == h[i];
      } else {
        var k :| k in s.Keys && k !in h[i].Keys;
        assert k in s + h[i];
      }
    }
  }

  lemma CompactClean(l: Log)
    requires l.Len() > 0 && l.first <= l.applied <= l.End() && l.size <= l.Len() && Clean(l)
    ensures Clean(Compact(l))
  {
    if l.first < l.applied {
      var r, n := Compact(l), l.Len();
      CompactSlots(l);
      forall i | l.applied - 1 < i < l.applied - 1 + n
        ensures !r.slots[i % n].snapshot
      {
        if i < l.first + n {
          assert !l.slots[i % n].snapshot;
        } else {
          RingIndex.Turn(i - n, n);
          assert r.slots[(i - n) % n] == Entry(l.slots[(i - n) % n].term, false, None);
        }
      }
    }
  }

  lemma EmitClean(l: Log, h: seq<State>, term: int, u: State)
    requires Inv(l, h) && Clean(l)
    ensures Clean(Emit(l, term, u))
  {
    CompactClean(l);
    CompactInv(l, h);
    var l1 := if l.size == l.Len() then Compact(l) else l;
    if !Stuck(l) {
      var n := l1.Len();
      forall i | l1.first < i < l1.first + n
        ensures !Append(l1, term, u).slots[i % n].snapshot
      {
        assert !l1.slots[i % n].snapshot;
      }
    }
  }

  /** The old head is no snapshot, or the new head takes its slot. */
  predicate Keeps(l: Log, index: nat)
    requires l.Len() > 0
  {
    !l.Marked() || l.first % l.Len() == index % l.Len()
  }

  /** `restore` leaves the marks of the entries it drops, so the log stays clean exactly when the old head
      was no snapshot, or the new head takes its slot. */
  lemma RestoreCleanExactly(l: Log, h: seq<State>, index: nat, e: Entry)
    requires Inv(l, h) && Clean(l) && e.snapshot
    ensures Restore(l, index, e).Len() == l.Len()
    ensures Clean(Restore(l, index, e)) <==> Keeps(l, index)
  {
    var r, n := Restore(l, index, e), l.Len();
    if l.Marked() && l.first % n != index % n {
      var i := Representative(index, n, l.first % n);
      AllCleared(l, h, i % n);
      assert r.slots[i % n].snapshot;
    } else {
      forall i | index < i < index + n
        ensures !r.slots[i % n].snapshot
      {
        OtherSlots(n, index, index, i);
        AllCleared(l, h, i % n);
        var j := Representative(l.first, n, i % n);
        assert j > l.first ==> !l.slots[j % n].snapshot;
      }
    }
  }

  lemma StepCleanExactly(l: Log, h: seq<State>, v: Event)
    requires Inv(l, h) && Clean(l) && Possible(v)
    ensures Step(l, v).Len() == l.Len()
    ensures Clean(Step(l, v)) <==> (v.Restored? ==> Keeps(l, v.index))
  {
    match v
    case Emitted(term, u) => EmitClean(l, h, term, u);
    case Learned(_) =>
    case Applied =>
    case Progressed(_, _, _) =>
    case Compacted => CompactClean(l);
    case Restored(index, e, _) => RestoreCleanExactly(l, h, index, e);
  }

  /** Whether the log is clean after the first `k` events, and whether event `k` keeps it so. */
  ghost predicate CleanAt(len: nat, events: seq<Event>, k: nat)
    requires len > 0 && k <= |events|
  {
    Clean(Run(len, events[..k]))
  }

  ghost predicate KeepsAt(len: nat, events: seq<Event>, k: nat)
    requires len > 0 && k < |events|
  {
    events[k].Restored? ==> Keeps(Run(len, events[..k]), events[k].index)
  }

  lemma CleanNext(len: nat, events: seq<Event>, k: nat)
    requires len > 0 && Legal(events) && k < |events| && CleanAt(len, events, k)
    ensures CleanAt(len, events, k + 1) <==> KeepsAt(len, events, k)
  {
    var before := events[..k];
    assert events[..k + 1][..k] == before && events[..k + 1][k] == events[k];
    RunInv(len, before);
    StepCleanExactly(Run(len, before), History(len, before), events[k]);
    hide Inv;
    hide Clean;
    hide Keeps;
    hide Step;
    hide History;
  }

  lemma {:induction false} CleanThrough(len: nat, events: seq<Event>, k: nat)
    requires len > 0 && Legal(events) && k <= |events|
    requires forall j :: 0 <= j < k ==> KeepsAt(len, events, j)
    ensures CleanAt(len, events, k)
  {
    if k == 0 {
    } else {
      hide CleanAt;
      hide KeepsAt;
      CleanThrough(len, events, k - 1);
      CleanNext(len, events, k - 1);
    }
  }

  /** In a run no entry behind the head ever carries a snapshot mark if and only if every `restore` of the run
      finds an old head that is no snapshot, or puts its own into the same slot. */
  lemma CleanRunExactly(len: nat, events: seq<Event>)
    requires len > 0 && Legal(events)
    ensures (forall k :: 0 <= k <= |events| ==> CleanAt(len, events, k))
       <==> forall k :: 0 <= k < |events| ==> KeepsAt(len, events, k)
  {
    hide CleanAt;
    hide KeepsAt;
    if forall k :: 0 <= k < |events| ==> KeepsAt(len, events, k) {
      forall k | 0 <= k <= |events|
        ensures CleanAt(len, events, k)
      {
        CleanThrough(len, events, k);
      }
    } else {
      var j :| 0 <= j < |events| && !KeepsAt(len, events, j);
      if CleanAt(len, events, j) {
        CleanNext(len, events, j);
      }
    }
  }

  /** After two snapshots a plain entry that the node emits as a leader can carry the mark of the first one,
      and a follower that gets it loses the state it had. */
  lemma StaleMark(n: nat, e1: Entry, e2: Entry, term: int, u: State, s: State)
    requires n >= 2 && e1.snapshot && e2.snapshot
    ensures var l := Emit(Restore(Restore(Init(n), 1, e1), n, e2), term, u);
      && l.Len() == n && l.first < n + 1 < l.End() && l.At(n + 1) == Entry(term, true, Some(u))
      && Followed(s, l.At(n + 1)) == u
  {
    var l1 := Restore(Init(n), 1, e1);
    var l2 := Restore(l1, n, e2);
    RingIndex.Unique(1, n, 0, 1);
    RingIndex.Unique(n, n, 1, 0);
    RingIndex.Unique(n + 1, n, 1, 1);
    assert l1.slots == Init(n).slots[1 := e1];
    assert l2.slots[1].snapshot;
  }

  /* ---------- the ring, changed in place ---------- */

  class RingLog {
    const entries: array<Entry>
    var first: nat
    var size: nat
    var acked: int
    var applied: nat
    var state: State

    ghost function Contents(): Log
      reads this, entries
    {
      Log(entries[..], first, size, acked, applied, state)
    }

    constructor (len: nat)
      ensures Contents() == Init(len) && fresh(entries)
      ensures first == 0 && size == 0 && acked == 0 && applied == 0 && state == map[]
      ensures entries.Length == len && forall i :: 0 <= i < len ==> entries[i] == Entry(0, false, None)
    {
      entries := new Entry[len](_ => BLANK);
      first, size, acked, applied, state := 0, 0, 0, 0, map[];
      new;
      assert entries[..] == Init(len).slots;
    }

    method ApplyAcked() returns (count: nat)
      requires entries.Length > 0
      modifies this
      ensures Contents() == Apply(old(Contents()))
      ensures count == applied - old(applied)
    {
      count := 0;
      while applied < acked && applied < first + size
        invariant Apply(Contents()) == Apply(old(Contents()))
        invariant entries[..] == old(entries[..]) && count == applied - old(applied) && count >= 0
        decreases first + size - applied
      {
        assert ApplyOne(Contents()).applied == applied + 1;
        var e := entries[applied % entries.Length];
        state := state + Patch(e);
        applied := applied + 1;
        count := count + 1;
      }
    }

    /** The loop that frees the data of the indices `lo` up to `hi`, as in `compact` and `restore`. */
    method Clear(lo: nat, hi: nat, unmark: bool)
      requires entries.Length > 0
      modifies entries
      ensures entries[..] == Cleared(old(entries[..]), lo, hi, unmark)
    {
      var i := lo;
      while i < hi
        invariant lo <= i && (lo <= hi ==> i <= hi)
        invariant Cleared(entries[..], i, hi, unmark) == Cleared(old(entries[..]), lo, hi, unmark)
      {
        var slot := i % entries.Length;
        var e := entries[slot];
        ghost var was := entries[..];
        entries[slot] := Entry(e.term, e.snapshot && !unmark, None);
        assert entries[..] == was[slot := Entry(e.term, e.snapshot && !unmark, None)];
        i := i + 1;
      }
    }

    method CompactRing() returns (compacted: nat)
      requires entries.Length > 0 && first <= applied <= first + size
      modifies this, entries
      ensures Contents() == Compact(old(Contents()))
      ensures compacted == applied - old(first)
    {
      compacted := applied - first;
      Clear(first, applied, true);
      if compacted > 0 {
        first := first + compacted - 1;
        size := size - (compacted - 1);
        var slot := first % entries.Length;
        entries[slot] := Entry(entries[slot].term, true, Some(state));
      }
    }

    method EmitUpdate(term: int, u: State) returns (index: int)
      requires entries.Length > 0 && first <= applied <= first + size
      modifies this, entries
      ensures Contents() == Emit(old(Contents()), term, u)
      ensures index == if Stuck(old(Contents())) then -1 else old(Contents()).End()
    {
      if size == entries.Length {
        var compacted := CompactRing();
        if compacted <= 1 {
          return -1;
        }
      }
      index := first + size;
      var slot := index % entries.Length;
      entries[slot] := Entry(term, entries[slot].snapshot, Some(u));
      size := size + 1;
    }

    method RestoreFrom(previndex: int, e: Entry)
      requires entries.Length > 0 && previndex >= -1
      modifies this, entries
      ensures Contents() == Restore(old(Contents()), previndex + 1, e)
    {
      Clear(first, first + size, false);
      var index := previndex + 1;
      first := index;
      size := 1;
      entries[index % entries.Length] := e;
      state := Patch(e);
      applied := index + 1;
    }

    method RefreshProgress(peers: array<Peer>, me: int, peerNum: int)
      requires entries.Length > 0
      modifies this
      ensures Contents() == RefreshAcked(old(Contents()), peers[..], me, peerNum)
    {
      for i := 0 to peers.Length
        invariant acked == Progress(peers[..], me, peerNum, old(acked), i)
        invariant Contents() == old(Contents()).(acked := acked)
      {
        if i == me || !peers[i].up || peers[i].acked <= acked {
          continue;
        }
        var replication := 1;
        for j := 0 to peers.Length
          invariant replication == Copies(peers[..], me, peers[i].acked, j)
        {
          if j != me && peers[j].acked >= peers[i].acked {
            replication := replication + 1;
          }
        }
        if replication * 2 > peerNum {
          acked := peers[i].acked;
        }
      }
      var _ := ApplyAcked();
    }
  }
}
