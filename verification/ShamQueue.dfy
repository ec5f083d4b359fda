/**
 The shared-memory queue of skylu/base/shamqueue.cc: a ring of fixed-size blocks, three semaphores,
 any number of writers and one reader.  `read` does not take the mutex, and a copy is not atomic.

 The first part is the queue as processes see it, one semaphore operation, one copied byte or one
 index update at a time, with what every interleaving keeps.  The second is `write` and `read` run
 without interruption on the flat buffer, proved equal to such a run.
 */
module ShamQueue {
  import RingIndex
  import opened Wrappers

  type Block = seq<Byte>

  /** Where a writer stands in `write`. */
  datatype Writer =
    | Away
    | Admitted(buf: Block)              // past sem_wait(sem_full)
    | Copying(buf: Block, count: nat)   // past sem_wait(sem_mutex), `count` bytes copied
    | Moved                             // wr_index advanced
    | Unlocked                          // past sem_post(sem_mutex)
  {
    predicate Claims() { Admitted? || Copying? }
    predicate Owes() { Moved? || Unlocked? }
    predicate Locks() { Copying? || Moved? }
  }

  /** Where the reader stands in `read`; `got` is what it has copied out. */
  datatype Reader =
    | Waiting
    | Fetching(got: Block)              // past sem_wait(sem_empty)
    | Fetched                           // rd_index advanced

  /** `written` and `read` list the blocks committed (index advanced) so far; they steer nothing. */
  datatype Queue = Queue(
    blksize: nat, blocks: nat, payload: seq<Block>, rd: nat, wr: nat,
    mutex: nat, full: nat, empty: nat,
    writers: seq<Writer>, reader: Reader, written: seq<Block>, read: seq<Block>)

  datatype Event =
    | WaitFull(w: nat, buf: Block) | WaitMutex(w: nat) | PutByte(w: nat) | AdvanceWr(w: nat)
    | PostMutex(w: nat) | PostEmpty(w: nat)
    | WaitEmpty | GetByte | AdvanceRd | PostFull

  /** `init`: all blocks free, nobody inside. */
  predicate Init(q: Queue) {
    && q.blocks > 0
    && |q.payload| == q.blocks && (forall i :: 0 <= i < q.blocks ==> |q.payload[i]| == q.blksize)
    && q.rd == 0 && q.wr == 0 && q.mutex == 1 && q.empty == 0 && q.full == q.blocks
    && (forall w :: 0 <= w < |q.writers| ==> q.writers[w].Away?)
    && q.reader.Waiting? && q.written == [] && q.read == []
  }

  /** A blocked or misplaced event is not enabled: `sem_wait` waits until its semaphore is positive. */
  predicate Enabled(q: Queue, e: Event) {
    match e
    case WaitFull(w, buf) => w < |q.writers| && q.writers[w].Away? && q.full > 0 && |buf| == q.blksize
    case WaitMutex(w) => w < |q.writers| && q.writers[w].Admitted? && q.mutex > 0
    case PutByte(w) => w < |q.writers| && q.writers[w].Copying? && q.writers[w].count < q.blksize
    case AdvanceWr(w) => w < |q.writers| && q.writers[w].Copying? && q.writers[w].count == q.blksize
    case PostMutex(w) => w < |q.writers| && q.writers[w].Moved?
    case PostEmpty(w) => w < |q.writers| && q.writers[w].Unlocked?
    case WaitEmpty => q.reader.Waiting? && q.empty > 0
    case GetByte => q.reader.Fetching? && |q.reader.got| < q.blksize
    case AdvanceRd => q.reader.Fetching? && |q.reader.got| == q.blksize
    case PostFull => q.reader.Fetched?
  }

  ghost predicate InMemory(q: Queue) {
    && q.blocks > 0 && q.rd < q.blocks && q.wr < q.blocks && |q.payload| == q.blocks
    && (forall i :: 0 <= i < q.blocks ==> |q.payload[i]| == q.blksize)
    && (forall w :: 0 <= w < |q.writers| ==>
          && (q.writers[w].Claims() ==> |q.writers[w].buf| == q.blksize)
          && (q.writers[w].Copying? ==> q.writers[w].count <= q.blksize))
  }

  function Step(q: Queue, e: Event): Queue
    requires InMemory(q) && Enabled(q, e)
  {
    match e
    case WaitFull(w, buf) => q.(full := q.full - 1, writers := q.writers[w := Admitted(buf)])
    case WaitMutex(w) => q.(mutex := q.mutex - 1, writers := q.writers[w := Copying(q.writers[w].buf, 0)])
    case PutByte(w) =>
      var c := q.writers[w].count;
      q.(payload := q.payload[q.wr := q.payload[q.wr][c := q.writers[w].buf[c]]],
         writers := q.writers[w := Copying(q.writers[w].buf, c + 1)])
    case AdvanceWr(w) =>
      q.(wr := (q.wr + 1) % q.blocks, writers := q.writers[w := Moved], written := q.written + [q.writers[w].buf])
    case PostMutex(w) => q.(mutex := q.mutex + 1, writers := q.writers[w := Unlocked])
    case PostEmpty(w) => q.(empty := q.empty + 1, writers := q.writers[w := Away])
    case WaitEmpty => q.(empty := q.empty - 1, reader := Fetching([]))
    case GetByte => q.(reader := Fetching(q.reader.got + [q.payload[q.rd][|q.reader.got|]]))
    case AdvanceRd => q.(rd := (q.rd + 1) % q.blocks, reader := Fetched, read := q.read + [q.reader.got])
    case PostFull => q.(full := q.full + 1, reader := Waiting)
  }

  /* ---------- counting processes ---------- */

  function Count(ws: seq<Writer>, p: Writer -> bool): nat {
    if ws == [] then 0 else (if p(ws[0]) then 1 else 0) + Count(ws[1..], p)
  }

  lemma {:induction false} CountUpdate(ws: seq<Writer>, p: Writer -> bool, i: nat, w: Writer)
    requires i < |ws|
    ensures Count(ws[i := w], p) + (if p(ws[i]) then 1 else 0) == Count(ws, p) + (if p(w) then 1 else 0)
  {
    if i > 0 {
      CountUpdate(ws[1..], p, i - 1, w);
      assert ws[i := w][1..] == ws[1..][i - 1 := w];
    } else {
      assert ws[i := w][1..] == ws[1..];
    }
  }

  lemma {:induction false} CountZero(ws: seq<Writer>, p: Writer -> bool)
    ensures Count(ws, p) == 0 <==> forall i :: 0 <= i < |ws| ==> !p(ws[i])
  {
    if ws == [] {
    } else {
      CountZero(ws[1..], p);
      assert forall i :: 0 <= i < |ws| ==> ws[i] == if i == 0 then ws[0] else ws[1..][i - 1];
    }
  }

  lemma {:induction false} CountAtLeast(ws: seq<Writer>, p: Writer -> bool, i: nat, j: nat)
    requires i <= j < |ws| && p(ws[i]) && p(ws[j])
    ensures Count(ws, p) >= if i == j then 1 else 2
  {
    if i > 0 {
      CountAtLeast(ws[1..], p, i - 1, j - 1);
    } else {
      CountZero(ws[1..], p);
      if j > 0 {
        assert ws[1..][j - 1] == ws[j];
      }
    }
  }

  function Claims(q: Queue): nat { Count(q.writers, (w: Writer) => w.Claims()) }
  function Owes(q: Queue): nat { Count(q.writers, (w: Writer) => w.Owes()) }
  function Locks(q: Queue): nat { Count(q.writers, (w: Writer) => w.Locks()) }
  function Inside(q: Queue): nat { if q.reader.Waiting? then 0 else 1 }
  function Unread(q: Queue): int { |q.written| - |q.read| }

  /* ---------- the invariant ---------- */

  /** Every block is accounted for once: free, claimed, committed but not posted, readable, or being read. */
  ghost predicate Tokens(q: Queue) {
    && q.full + Claims(q) + Owes(q) + q.empty + Inside(q) == q.blocks
    && Unread(q) == Owes(q) + q.empty + (if q.reader.Fetching? then 1 else 0)
    && q.mutex + Locks(q) == 1
  }

  /** The ring holds the unread blocks in order. */
  ghost predicate Ring(q: Queue)
    requires InMemory(q)
  {
    && q.read <= q.written
    && q.wr == |q.written| % q.blocks && q.rd == |q.read| % q.blocks
    && forall j {:trigger q.written[j]} :: |q.read| <= j < |q.written| ==> q.payload[j % q.blocks] == q.written[j]
  }

  ghost predicate Copies(q: Queue)
    requires InMemory(q)
  {
    && (forall w :: 0 <= w < |q.writers| && q.writers[w].Copying? ==>
          q.payload[q.wr][..q.writers[w].count] == q.writers[w].buf[..q.writers[w].count])
    && (q.reader.Fetching? ==> q.reader.got <= q.payload[q.rd])
  }

  ghost predicate Inv(q: Queue) {
    InMemory(q) && Tokens(q) && Ring(q) && Copies(q)
  }

  lemma InitInv(q: Queue)
    requires Init(q)
    ensures Inv(q)
  {
    CountZero(q.writers, (w: Writer) => w.Claims());
    CountZero(q.writers, (w: Writer) => w.Owes());
    CountZero(q.writers, (w: Writer) => w.Locks());
  }

  /** While a writer holds a claim there is a free block, and `wr` is it: no unread block is there. */
  lemma WriteSlotFree(q: Queue, j: nat)
    requires InMemory(q) && Tokens(q) && Ring(q) && Claims(q) > 0 && |q.read| <= j < |q.written|
    ensures j % q.blocks != q.wr
  {
    RingIndex.Apart(j, |q.written| - j, q.blocks);
  }

  lemma WriterCounts(q: Queue, w: nat, to: Writer)
    requires w < |q.writers|
    ensures var q' := q.(writers := q.writers[w := to]); var was := q.writers[w];
      && Claims(q') + (if was.Claims() then 1 else 0) == Claims(q) + (if to.Claims() then 1 else 0)
      && Owes(q') + (if was.Owes() then 1 else 0) == Owes(q) + (if to.Owes() then 1 else 0)
      && Locks(q') + (if was.Locks() then 1 else 0) == Locks(q) + (if to.Locks() then 1 else 0)
  {
    CountUpdate(q.writers, (w: Writer) => w.Claims(), w, to);
    CountUpdate(q.writers, (w: Writer) => w.Owes(), w, to);
    CountUpdate(q.writers, (w: Writer) => w.Locks(), w, to);
  }

  /* ---------- every step keeps it ---------- */

  lemma WaitFullInv(q: Queue, w: nat, buf: Block)
    requires Inv(q) && Enabled(q, WaitFull(w, buf))
    ensures Inv(Step(q, WaitFull(w, buf)))
  {
    WriterCounts(q, w, Admitted(buf));
  }

  lemma WaitMutexInv(q: Queue, w: nat)
    requires Inv(q) && Enabled(q, WaitMutex(w))
    ensures Inv(Step(q, WaitMutex(w)))
  {
    WriterCounts(q, w, Copying(q.writers[w].buf, 0));
  }

  /** A byte goes to the one slot that holds no unread block, and only one writer is copying. */
  lemma PutByteInv(q: Queue, w: nat)
    requires Inv(q) && Enabled(q, PutByte(w))
    ensures Inv(Step(q, PutByte(w)))
  {
    var q' := Step(q, PutByte(w));
    var buf, c := q.writers[w].buf, q.writers[w].count;
    WriterCounts(q, w, Copying(buf, c + 1));
    CountZero(q.writers, (w: Writer) => w.Claims());
    forall j | |q.read| <= j < |q.written|
      ensures q'.payload[j % q.blocks] == q.written[j]
    {
      WriteSlotFree(q, j);
    }
    assert q'.payload[q.wr][..c + 1] == buf[..c + 1];
    forall v | 0 <= v < |q.writers| && v != w && q.writers[v].Copying?
      ensures false
    {
      CountAtLeast(q.writers, (w: Writer) => w.Locks(), if v < w then v else w, if v < w then w else v);
    }
    if q.reader.Fetching? {
      WriteSlotFree(q, |q.read|);
    }
  }

  lemma AdvanceWrInv(q: Queue, w: nat)
    requires Inv(q) && Enabled(q, AdvanceWr(w))
    ensures Inv(Step(q, AdvanceWr(w)))
  {
    var q' := Step(q, AdvanceWr(w));
    WriterCounts(q, w, Moved);
    RingIndex.Next(|q.written|, q.blocks);
    assert q.payload[q.wr] == q.writers[w].buf;
    assert q'.writers == q.writers[w := Moved];
    forall v | 0 <= v < |q.writers| && v != w && q.writers[v].Copying?
      ensures false
    {
      CountAtLeast(q.writers, (w: Writer) => w.Locks(), if v < w then v else w, if v < w then w else v);
    }
  }

  lemma PostMutexInv(q: Queue, w: nat)
    requires Inv(q) && Enabled(q, PostMutex(w))
    ensures Inv(Step(q, PostMutex(w)))
  {
    WriterCounts(q, w, Unlocked);
  }

  lemma PostEmptyInv(q: Queue, w: nat)
    requires Inv(q) && Enabled(q, PostEmpty(w))
    ensures Inv(Step(q, PostEmpty(w)))
  {
    WriterCounts(q, w, Away);
  }

  lemma GetByteInv(q: Queue)
    requires Inv(q) && Enabled(q, GetByte)
    ensures Inv(Step(q, GetByte))
  {
  }

  lemma AdvanceRdInv(q: Queue)
    requires Inv(q) && Enabled(q, AdvanceRd)
    ensures Inv(Step(q, AdvanceRd))
  {
    RingIndex.Next(|q.read|, q.blocks);
    assert q.reader.got == q.payload[q.rd] == q.written[|q.read|];
  }

  lemma StepInv(q: Queue, e: Event)
    requires Inv(q) && Enabled(q, e)
    ensures Inv(Step(q, e))
  {
    match e
    case WaitFull(w, buf) => WaitFullInv(q, w, buf);
    case WaitMutex(w) => WaitMutexInv(q, w);
    case PutByte(w) => PutByteInv(q, w);
    case AdvanceWr(w) => AdvanceWrInv(q, w);
    case PostMutex(w) => PostMutexInv(q, w);
    case PostEmpty(w) => PostEmptyInv(q, w);
    case WaitEmpty =>
    case GetByte => GetByteInv(q);
    case AdvanceRd => AdvanceRdInv(q);
    case PostFull =>
  }

  /* ---------- runs ---------- */

  /** One process after another makes a step; an event that is not enabled does nothing. */
  ghost function Run(q: Queue, events: seq<Event>): (r: Queue)
    requires Inv(q)
    ensures InMemory(r) && r.blocks == q.blocks && r.blksize == q.blksize && |r.writers| == |q.writers|
    decreases |events|, 0
  {
    if events == [] then
      q
    else
      var last := |events| - 1;
      var before := Run(q, events[..last]);
      RunInv(q, events[..last]);
      if Enabled(before, events[last]) then
        StepInv(before, events[last]);
        Step(before, events[last])
      else
        before
  }

  lemma {:induction false} RunInv(q: Queue, events: seq<Event>)
    requires Inv(q)
    ensures Inv(Run(q, events))
    decreases |events|, 1
  {
    if events == [] {
    } else {
      var last := |events| - 1;
      var before := Run(q, events[..last]);
      RunInv(q, events[..last]);
      if Enabled(before, events[last]) {
        StepInv(before, events[last]);
      }
    }
  }

  /** The queue after some interleaving, from a fresh start. */
  ghost function FromInit(q: Queue, events: seq<Event>): (r: Queue)
    requires Init(q)
    ensures InMemory(r) && r.blocks == q.blocks && r.blksize == q.blksize && |r.writers| == |q.writers|
  {
    InitInv(q);
    Run(q, events)
  }

  lemma FromInitInv(q: Queue, events: seq<Event>)
    requires Init(q)
    ensures Inv(FromInit(q, events))
  {
    InitInv(q);
    RunInv(q, events);
  }

  /** What is read is a prefix of what was written, in commit order, each block whole. */
  lemma ReadsArePrefix(q: Queue, events: seq<Event>)
    requires Init(q)
    ensures FromInit(q, events).read <= FromInit(q, events).written
  {
    FromInitInv(q, events);
  }

  /** No writer ever copies over a block that is still to be read or being read. */
  lemma NoOverwrite(q: Queue, events: seq<Event>, w: nat, j: nat)
    requires Init(q)
    requires var r := FromInit(q, events); w < |r.writers| && r.writers[w].Copying? && |r.read| <= j < |r.written|
    ensures var r := FromInit(q, events); j % r.blocks != r.wr && r.payload[j % r.blocks] == r.written[j]
  {
    var r := FromInit(q, events);
    FromInitInv(q, events);
    CountZero(r.writers, (w: Writer) => w.Claims());
    WriteSlotFree(r, j);
  }

  /** At most one writer is between taking and giving back the mutex. */
  lemma WritersExclusive(q: Queue, events: seq<Event>, v: nat, w: nat)
    requires Init(q)
    requires var r := FromInit(q, events); v <= w < |r.writers| && r.writers[v].Locks() && r.writers[w].Locks()
    ensures v == w
  {
    var r := FromInit(q, events);
    FromInitInv(q, events);
    CountAtLeast(r.writers, (w: Writer) => w.Locks(), v, w);
  }

  ghost predicate Quiet(q: Queue) {
    q.reader.Waiting? && forall w :: 0 <= w < |q.writers| ==> q.writers[w].Away?
  }

  /** With nobody inside, the two semaphores say exactly how many blocks are readable and how many free. */
  lemma QuietSemaphores(q: Queue, events: seq<Event>)
    requires Init(q) && Quiet(FromInit(q, events))
    ensures var r := FromInit(q, events); r.empty == Unread(r) && r.full == r.blocks - Unread(r) && r.mutex == 1
  {
    var r := FromInit(q, events);
    FromInitInv(q, events);
    CountZero(r.writers, (w: Writer) => w.Claims());
    CountZero(r.writers, (w: Writer) => w.Owes());
    CountZero(r.writers, (w: Writer) => w.Locks());
  }

  /** The queue never blocks everyone: some process can always take its next step. */
  lemma NeverStuck(q: Queue, events: seq<Event>, buf: Block) returns (e: Event)
    requires Init(q) && |q.writers| > 0 && |buf| == FromInit(q, events).blksize
    ensures Enabled(FromInit(q, events), e)
  {
    var r := FromInit(q, events);
    FromInitInv(q, events);
    if !r.reader.Waiting? {
      e := if r.reader.Fetched? then PostFull else if |r.reader.got| < r.blksize then GetByte else AdvanceRd;
    } else if w :| 0 <= w < |r.writers| && (r.writers[w].Locks() || r.writers[w].Unlocked?) {
      e := if r.writers[w].Unlocked? then PostEmpty(w)
           else if r.writers[w].Moved? then PostMutex(w)
           else if r.writers[w].count < r.blksize then PutByte(w) else AdvanceWr(w);
    } else if w :| 0 <= w < |r.writers| && r.writers[w].Admitted? {
      CountZero(r.writers, (w: Writer) => w.Locks());
      e := WaitMutex(w);
    } else {
      CountZero(r.writers, (w: Writer) => w.Claims());
      CountZero(r.writers, (w: Writer) => w.Owes());
      e := if r.empty > 0 then WaitEmpty else WaitFull(0, buf);
    }
  }

  /* ---------- how long a process can be kept waiting ---------- */

  /** Each of `es` is enabled when its turn comes. */
  ghost predicate Goes(q: Queue, es: seq<Event>)
    requires Inv(q)
  {
    forall k :: 0 <= k < |es| ==> Enabled(Run(q, es[..k]), es[k])
  }

  lemma RunNothing(q: Queue)
    requires Inv(q)
    ensures Run(q, []) == q && Goes(q, [])
  {
  }

  lemma InvInMemory(q: Queue)
    requires Inv(q)
    ensures InMemory(q)
  {
  }

  lemma {:induction false} RunAhead(q: Queue, e: Event, es: seq<Event>)
    requires Inv(q) && Enabled(q, e)
    ensures Inv(Step(q, e)) && Run(q, [e] + es) == Run(Step(q, e), es)
  {
    hide *;
    InvInMemory(q);
    StepInv(q, e);
    if es == [] {
      RunNothing(q);
      RunNothing(Step(q, e));
      RunSnoc(q, [], e);
      assert [e] + [] == [e] == [] + [e];
    } else {
      var before, last := es[..|es| - 1], es[|es| - 1];
      RunAhead(q, e, before);
      RunSnoc(q, [e] + before, last);
      RunSnoc(Step(q, e), before, last);
      assert before + [last] == es && [e] + before + [last] == [e] + es;
    }
  }

  lemma GoesAt(q: Queue, e: Event, es: seq<Event>, k: nat)
    requires Inv(q) && Enabled(q, e) && k <= |es| && Inv(Step(q, e))
    requires k > 0 ==> Enabled(Run(Step(q, e), es[..k - 1]), es[k - 1])
    ensures Enabled(Run(q, ([e] + es)[..k]), ([e] + es)[k])
  {
    hide *;
    InvInMemory(q);
    if k == 0 {
      RunNothing(q);
    } else {
      assert ([e] + es)[..k] == [e] + es[..k - 1];
      RunAhead(q, e, es[..k - 1]);
    }
  }

  lemma RunCons(q: Queue, e: Event, es: seq<Event>)
    requires Inv(q) && Enabled(q, e)
    ensures Inv(Step(q, e)) && Run(q, [e] + es) == Run(Step(q, e), es)
    ensures Goes(Step(q, e), es) ==> Goes(q, [e] + es)
  {
    RunAhead(q, e, es);
    hide Inv;
    hide Enabled;
    hide Step;
    hide Run;
    if Goes(Step(q, e), es) {
      forall k | 0 <= k < |es| + 1
        ensures Enabled(Run(q, ([e] + es)[..k]), ([e] + es)[k])
      {
        GoesAt(q, e, es, k);
      }
    }
  }

  /** With a block committed and not read, a waiting reader can go on at once or after at most two steps of a
      writer that has nothing left to wait for. */
  lemma ReaderServed(q: Queue, events: seq<Event>) returns (w: nat, es: seq<Event>)
    requires Init(q)
    requires var r := FromInit(q, events); r.reader.Waiting? && |r.read| < |r.written|
    ensures Inv(FromInit(q, events)) && |es| <= 2 && Goes(FromInit(q, events), es)
    ensures forall e :: e in es ==> e == PostMutex(w) || e == PostEmpty(w)
    ensures Enabled(Run(FromInit(q, events), es), WaitEmpty)
  {
    var r := FromInit(q, events);
    FromInitInv(q, events);
    w, es := 0, [];
    if r.empty > 0 {
      RunNothing(r);
    } else {
      CountZero(r.writers, (w: Writer) => w.Owes());
      w :| 0 <= w < |r.writers| && r.writers[w].Owes();
      es := Posts(r, w);
    }
  }

  /** A writer that has advanced the write index posts without waiting. */
  lemma Posts(r: Queue, w: nat) returns (es: seq<Event>)
    requires Inv(r) && r.reader.Waiting? && w < |r.writers| && r.writers[w].Owes()
    ensures |es| <= 2 && Goes(r, es) && Enabled(Run(r, es), WaitEmpty)
    ensures forall e :: e in es ==> e == PostMutex(w) || e == PostEmpty(w)
  {
    var r1 := if r.writers[w].Moved? then Step(r, PostMutex(w)) else r;
    if r.writers[w].Moved? {
      StepInv(r, PostMutex(w));
    }
    var r2 := Step(r1, PostEmpty(w));
    StepInv(r1, PostEmpty(w));
    RunNothing(r2);
    RunCons(r1, PostEmpty(w), []);
    es := [PostEmpty(w)];
    assert [PostEmpty(w)] + [] == [PostEmpty(w)];
    if r.writers[w].Moved? {
      RunCons(r, PostMutex(w), es);
      es := [PostMutex(w), PostEmpty(w)];
      assert [PostMutex(w)] + [PostEmpty(w)] == es;
    }
  }

  /** With a free block that no other writer has a claim to, a writer is let in at once or after one step of
      the reader. */
  lemma WriterServed(q: Queue, events: seq<Event>, w: nat, buf: Block) returns (es: seq<Event>)
    requires Init(q)
    requires var r := FromInit(q, events);
      && w < |r.writers| && r.writers[w].Away? && |buf| == r.blksize
      && Unread(r) + Claims(r) < r.blocks
    ensures Inv(FromInit(q, events)) && (es == [] || es == [PostFull]) && Goes(FromInit(q, events), es)
    ensures Enabled(Run(FromInit(q, events), es), WaitFull(w, buf))
  {
    var r := FromInit(q, events);
    FromInitInv(q, events);
    RunNothing(r);
    es := [];
    if r.full == 0 {
      es := [PostFull];
      StepInv(r, PostFull);
      RunNothing(Step(r, PostFull));
      RunCons(r, PostFull, []);
      assert [PostFull] + [] == [PostFull];
    }
  }

  /** How many steps the holder of the mutex needs to give it back. */
  function StepsLeft(q: Queue, h: nat): nat
    requires h < |q.writers| && q.writers[h].Locks() && (q.writers[h].Copying? ==> q.writers[h].count <= q.blksize)
  {
    if q.writers[h].Copying? then q.blksize - q.writers[h].count + 2 else 1
  }

  /** The holder of the mutex copies its bytes, moves on and gives the mutex back, waiting for nobody. */
  lemma {:induction false} Unlocks(r: Queue, h: nat) returns (es: seq<Event>)
    requires Inv(r) && h < |r.writers| && r.writers[h].Locks()
    ensures |es| == StepsLeft(r, h) && Goes(r, es) && Run(r, es).mutex > 0
    ensures forall e :: e in es ==> e == PutByte(h) || e == AdvanceWr(h) || e == PostMutex(h)
    ensures forall w :: 0 <= w < |r.writers| && w != h ==> Run(r, es).writers[w] == r.writers[w]
    decreases StepsLeft(r, h)
  {
    hide Tokens;
    hide Ring;
    hide Copies;
    hide Goes;
    hide Run;
    var e := if r.writers[h].Moved? then PostMutex(h)
             else if r.writers[h].count < r.blksize then PutByte(h) else AdvanceWr(h);
    var r1 := Step(r, e);
    StepInv(r, e);
    var rest := [];
    if r.writers[h].Moved? {
      RunNothing(r1);
    } else {
      rest := Unlocks(r1, h);
    }
    RunCons(r, e, rest);
    es := [e] + rest;
  }

  /** A writer that has claimed its block waits for the mutex for at most as many steps of one other writer as
      a block has bytes, and two. */
  lemma MutexServed(q: Queue, events: seq<Event>, w: nat) returns (h: nat, es: seq<Event>)
    requires Init(q)
    requires var r := FromInit(q, events); w < |r.writers| && r.writers[w].Admitted?
    ensures Inv(FromInit(q, events)) && |es| <= FromInit(q, events).blksize + 2 && Goes(FromInit(q, events), es)
    ensures forall e :: e in es ==> e == PutByte(h) || e == AdvanceWr(h) || e == PostMutex(h)
    ensures Enabled(Run(FromInit(q, events), es), WaitMutex(w))
  {
    var r := FromInit(q, events);
    FromInitInv(q, events);
    RunNothing(r);
    h, es := 0, [];
    if r.mutex == 0 {
      CountZero(r.writers, (w: Writer) => w.Locks());
      h :| 0 <= h < |r.writers| && r.writers[h].Locks();
      es := Unlocks(r, h);
    }
  }

  /* ---------- one call without interruption ---------- */

  /** A whole `write` by writer `w`, up to `count` copied bytes; and to the end. */
  function WriteBegin(w: nat, buf: Block, count: nat): seq<Event> {
    [WaitFull(w, buf), WaitMutex(w)] + seq(count, _ => PutByte(w))
  }

  function WriteAll(w: nat, buf: Block): seq<Event> {
    WriteBegin(w, buf, |buf|) + [AdvanceWr(w), PostMutex(w), PostEmpty(w)]
  }

  function ReadBegin(count: nat): seq<Event> {
    [WaitEmpty] + seq(count, _ => GetByte)
  }

  function ReadAll(blksize: nat): seq<Event> {
    ReadBegin(blksize) + [AdvanceRd, PostFull]
  }

  predicate CanWrite(q: Queue, w: nat, buf: Block) {
    w < |q.writers| && q.writers[w].Away? && q.full > 0 && q.mutex > 0 && |buf| == q.blksize
  }

  /** What `write` does to the queue as a whole. */
  function AfterWrite(q: Queue, buf: Block): Queue
    requires InMemory(q) && q.full > 0
  {
    q.(payload := q.payload[q.wr := buf], wr := (q.wr + 1) % q.blocks, full := q.full - 1, empty := q.empty + 1,
       written := q.written + [buf])
  }

  /** What `read` does, handing out the oldest unread block. */
  function AfterRead(q: Queue): Queue
    requires InMemory(q) && q.empty > 0
  {
    q.(rd := (q.rd + 1) % q.blocks, full := q.full + 1, empty := q.empty - 1, read := q.read + [q.payload[q.rd]])
  }

  lemma RunSnoc(q: Queue, events: seq<Event>, e: Event)
    requires Inv(q)
    ensures var r := Run(q, events); Run(q, events + [e]) == if Enabled(r, e) then Step(r, e) else r
  {
    assert (events + [e])[..|events|] == events;
  }

  lemma WriteEntered(q: Queue, w: nat, buf: Block)
    requires Inv(q) && CanWrite(q, w, buf)
    ensures Run(q, WriteBegin(w, buf, 0)) == Midway(q, w, buf, 0)
  {
    hide Tokens;
    hide Ring;
    hide Copies;
    assert Run(q, []) == q;
    hide Run;
    hide Step;
    hide Enabled;
    hide CanWrite;
    hide Midway;
    EnterSteps(q, w, buf);
    RunSnoc(q, [], WaitFull(w, buf));
    assert [] + [WaitFull(w, buf)] == [WaitFull(w, buf)];
    RunSnoc(q, [WaitFull(w, buf)], WaitMutex(w));
    assert WriteBegin(w, buf, 0) == [WaitFull(w, buf)] + [WaitMutex(w)];
  }

  lemma EnterSteps(q: Queue, w: nat, buf: Block)
    requires InMemory(q) && CanWrite(q, w, buf)
    ensures Enabled(q, WaitFull(w, buf)) && InMemory(Step(q, WaitFull(w, buf)))
    ensures var q1 := Step(q, WaitFull(w, buf));
      Enabled(q1, WaitMutex(w)) && Step(q1, WaitMutex(w)) == Midway(q, w, buf, 0)
  {
    assert buf[..0] + q.payload[q.wr][0..] == q.payload[q.wr];
    assert q.writers[w := Admitted(buf)][w := Copying(buf, 0)] == q.writers[w := Copying(buf, 0)];
  }

  function Midway(q: Queue, w: nat, buf: Block, count: nat): Queue
    requires InMemory(q) && CanWrite(q, w, buf) && count <= |buf|
  {
    q.(payload := q.payload[q.wr := buf[..count] + q.payload[q.wr][count..]],
       full := q.full - 1, mutex := q.mutex - 1, writers := q.writers[w := Copying(buf, count)])
  }

  lemma MidwayStep(q: Queue, w: nat, buf: Block, count: nat)
    requires InMemory(q) && CanWrite(q, w, buf) && count < |buf|
    ensures var r := Midway(q, w, buf, count);
      InMemory(r) && Enabled(r, PutByte(w)) && Step(r, PutByte(w)) == Midway(q, w, buf, count + 1)
  {
    var was := buf[..count] + q.payload[q.wr][count..];
    assert was[count := buf[count]] == buf[..count + 1] + q.payload[q.wr][count + 1..];
  }

  lemma WriteBeginSnoc(w: nat, buf: Block, count: nat)
    ensures WriteBegin(w, buf, count + 1) == WriteBegin(w, buf, count) + [PutByte(w)]
  {
  }

  lemma {:induction false} WriteMidway(q: Queue, w: nat, buf: Block, count: nat)
    requires Inv(q) && CanWrite(q, w, buf) && count <= |buf|
    ensures Run(q, WriteBegin(w, buf, count)) == Midway(q, w, buf, count)
  {
    assert InMemory(q);
    hide *;
    if count == 0 {
      WriteEntered(q, w, buf);
    } else {
      WriteMidway(q, w, buf, count - 1);
      RunSnoc(q, WriteBegin(w, buf, count - 1), PutByte(w));
      WriteBeginSnoc(w, buf, count - 1);
      MidwayStep(q, w, buf, count - 1);
    }
  }

  /** A `write` that nobody interrupts appends its block and nothing else. */
  lemma UninterruptedWrite(q: Queue, w: nat, buf: Block)
    requires Inv(q) && CanWrite(q, w, buf)
    ensures Run(q, WriteAll(w, buf)) == AfterWrite(q, buf)
  {
    hide Tokens;
    hide Ring;
    hide Copies;
    var es := WriteBegin(w, buf, |buf|);
    WriteMidway(q, w, buf, |buf|);
    hide WriteBegin;
    hide Run;
    assert buf[..|buf|] + q.payload[q.wr][|buf|..] == buf;
    RunSnoc(q, es, AdvanceWr(w));
    RunSnoc(q, es + [AdvanceWr(w)], PostMutex(w));
    RunSnoc(q, es + [AdvanceWr(w)] + [PostMutex(w)], PostEmpty(w));
    assert WriteAll(w, buf) == es + [AdvanceWr(w)] + [PostMutex(w)] + [PostEmpty(w)];
  }

  function MidRead(q: Queue, count: nat): Queue
    requires InMemory(q) && q.empty > 0 && count <= q.blksize
  {
    q.(empty := q.empty - 1, reader := Fetching(q.payload[q.rd][..count]))
  }

  lemma MidReadStep(q: Queue, count: nat)
    requires InMemory(q) && q.reader.Waiting? && q.empty > 0 && count < q.blksize
    ensures var r := MidRead(q, count);
      InMemory(r) && Enabled(r, GetByte) && Step(r, GetByte) == MidRead(q, count + 1)
  {
    var block := q.payload[q.rd];
    assert block[..count] + [block[count]] == block[..count + 1];
  }

  lemma ReadEntered(q: Queue)
    requires Inv(q) && q.reader.Waiting? && q.empty > 0
    ensures Run(q, ReadBegin(0)) == MidRead(q, 0)
  {
    hide Tokens;
    hide Ring;
    hide Copies;
    RunSnoc(q, [], WaitEmpty);
    assert [] + [WaitEmpty] == ReadBegin(0);
  }

  lemma ReadBeginSnoc(count: nat)
    ensures ReadBegin(count + 1) == ReadBegin(count) + [GetByte]
  {
  }

  lemma {:induction false} ReadMidway(q: Queue, count: nat)
    requires Inv(q) && q.reader.Waiting? && q.empty > 0 && count <= q.blksize
    ensures Run(q, ReadBegin(count)) == MidRead(q, count)
  {
    assert InMemory(q);
    hide *;
    if count == 0 {
      ReadEntered(q);
    } else {
      ReadMidway(q, count - 1);
      RunSnoc(q, ReadBegin(count - 1), GetByte);
      ReadBeginSnoc(count - 1);
      MidReadStep(q, count - 1);
    }
  }

  lemma OldestUnread(q: Queue)
    requires InMemory(q) && Tokens(q) && Ring(q) && q.empty > 0
    ensures |q.read| < |q.written| && q.payload[q.rd] == q.written[|q.read|]
  {
  }

  /** A `read` that nobody interrupts hands out the block under `rd`. */
  lemma UninterruptedRead(q: Queue)
    requires Inv(q) && q.reader.Waiting? && q.empty > 0
    ensures Run(q, ReadAll(q.blksize)) == AfterRead(q)
  {
    var es, block := ReadBegin(q.blksize), q.payload[q.rd];
    ReadMidway(q, q.blksize);
    assert block[..q.blksize] == block;
    var r := Run(q, es);
    assert r == q.(empty := q.empty - 1, reader := Fetching(block));
    RunSnoc(q, es, AdvanceRd);
    RunSnoc(q, es + [AdvanceRd], PostFull);
    assert ReadAll(q.blksize) == es + [AdvanceRd] + [PostFull];
    ReadFinish(q, r);
  }

  lemma ReadFinish(q: Queue, r: Queue)
    requires InMemory(q) && q.reader.Waiting? && q.empty > 0
    requires r == q.(empty := q.empty - 1, reader := Fetching(q.payload[q.rd]))
    ensures Enabled(r, AdvanceRd) && InMemory(Step(r, AdvanceRd))
    ensures Enabled(Step(r, AdvanceRd), PostFull) && Step(Step(r, AdvanceRd), PostFull) == AfterRead(q)
  {
  }

  lemma WriteKeeps(q: Queue, buf: Block)
    requires Inv(q) && q.writers == [Away] && q.full > 0 && |buf| == q.blksize
    ensures q.mutex == 1 && Inv(AfterWrite(q, buf))
  {
    CountZero(q.writers, (w: Writer) => w.Locks());
    hide Ring;
    hide Copies;
    hide Run;
    UninterruptedWrite(q, 0, buf);
    RunInv(q, WriteAll(0, buf));
  }

  lemma ReadKeeps(q: Queue)
    requires Inv(q) && q.reader.Waiting? && q.empty > 0
    ensures Inv(AfterRead(q))
  {
    hide Run;
    UninterruptedRead(q);
    RunInv(q, ReadAll(q.blksize));
  }

  /** The header and the flat payload, used by one caller at a time. */
  class SharedQueue {
    const blksize: nat
    const blocks: nat
    const payload: array<Byte>
    var rdIndex: nat
    var wrIndex: nat
    var semMutex: nat
    var semFull: nat
    var semEmpty: nat
    ghost var written: seq<Block>
    ghost var read: seq<Block>

    ghost predicate Sized() {
      payload.Length == blocks * blksize
    }

    ghost function Slot(i: nat): (b: Block)
      reads payload
      requires Sized() && i < blocks
      ensures |b| == blksize
    {
      SlotFits(i, blksize, blocks);
      payload[i * blksize..i * blksize + blksize]
    }

    ghost function State(): Queue
      reads this, payload
      requires Sized()
    {
      Queue(blksize, blocks, seq(blocks, i requires 0 <= i < blocks && Sized() reads this, payload => Slot(i)),
            rdIndex, wrIndex,
            semMutex, semFull, semEmpty, [Away], Waiting, written, read)
    }

    ghost predicate Valid()
      reads this, payload
    {
      Sized() && Inv(State())
    }

    /** `init`. */
    constructor (blksize: nat, blocks: nat)
      requires blocks > 0
      ensures Valid() && fresh(payload) && Init(State()) && this.blksize == blksize && this.blocks == blocks
    {
      this.blksize, this.blocks := blksize, blocks;
      payload := new Byte[blocks * blksize](_ => 0);
      rdIndex, wrIndex, semMutex, semEmpty, semFull := 0, 0, 1, 0, blocks;
      written, read := [], [];
      new;
      ghost var q := State();
      forall i | 0 <= i < blocks
        ensures |q.payload[i]| == blksize
      {
        assert q.payload[i] == Slot(i);
      }
      assert Init(q);
      InitInv(q);
    }

    /** The `memcpy` of `write`. */
    method CopyIn(buf: array<Byte>)
      requires Sized() && wrIndex < blocks && buf.Length == blksize && buf != payload
      modifies payload
      ensures forall i :: 0 <= i < blocks ==> Slot(i) == if i == wrIndex then buf[..] else old(Slot(i))
    {
      SlotFits(wrIndex, blksize, blocks);
      var base := wrIndex * blksize;
      for c := 0 to blksize
        invariant forall i :: 0 <= i < payload.Length ==>
          payload[i] == if base <= i < base + c then buf[i - base] else old(payload[i])
      {
        payload[base + c] := buf[c];
      }
      forall i | 0 <= i < blocks
        ensures Slot(i) == if i == wrIndex then buf[..] else old(Slot(i))
      {
        SlotFits(i, blksize, blocks);
        SlotsApart(i, wrIndex, blksize);
      }
    }

    /** The `memcpy` of `read`. */
    method CopyOut(buf: array<Byte>)
      requires Sized() && rdIndex < blocks && buf.Length == blksize && buf != payload
      modifies buf
      ensures buf[..] == Slot(rdIndex)
    {
      SlotFits(rdIndex, blksize, blocks);
      var base := rdIndex * blksize;
      for c := 0 to blksize
        invariant forall i :: 0 <= i < c ==> buf[i] == payload[base + i]
      {
        buf[c] := payload[base + c];
      }
    }

    /** `write`, called when `sem_wait(sem_full)` would not block. */
    method Write(buf: array<Byte>)
      requires Valid() && semFull > 0 && buf.Length == blksize && buf != payload
      modifies this, payload
      ensures Valid() && State() == AfterWrite(old(State()), buf[..])
    {
      ghost var q := State();
      WriteKeeps(q, buf[..]);
      hide Tokens;
      hide Ring;
      hide Copies;
      semFull := semFull - 1;
      semMutex := semMutex - 1;
      CopyIn(buf);
      wrIndex := (wrIndex + 1) % blocks;
      semMutex := semMutex + 1;
      semEmpty := semEmpty + 1;
      written := written + [buf[..]];
      assert State().payload == q.payload[q.wr := buf[..]];
    }

    /** `read`, called when `sem_wait(sem_empty)` would not block. */
    method Read(buf: array<Byte>)
      requires Valid() && semEmpty > 0 && buf.Length == blksize && buf != payload
      modifies this, buf
      ensures Valid() && State() == AfterRead(old(State()))
      ensures old(|read| < |written|) && buf[..] == old(written)[old(|read|)]
    {
      ghost var q := State();
      OldestUnread(q);
      ReadKeeps(q);
      hide Tokens;
      hide Ring;
      hide Copies;
      semEmpty := semEmpty - 1;
      assert q.payload[q.rd] == Slot(rdIndex);
      CopyOut(buf);
      read := read + [buf[..]];
      rdIndex := (rdIndex + 1) % blocks;
      semFull := semFull + 1;
      assert State().payload == q.payload;
    }
  }

  lemma SlotFits(i: nat, size: nat, count: nat)
    requires i < count
    ensures 0 <= i * size && i * size + size <= count * size
  {
    RingIndex.Distribute(size, count, i);
    RingIndex.AtLeastOnce(size, count - i);
  }

  /** Different blocks do not overlap. */
  lemma SlotsApart(i: nat, j: nat, size: nat)
    ensures i < j ==> i * size + size <= j * size
    ensures j < i ==> j * size + size <= i * size
  {
    if i < j {
      SlotFits(i, size, j);
    } else if j < i {
      SlotFits(j, size, i);
    }
  }
}
