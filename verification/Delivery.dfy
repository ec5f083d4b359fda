/**
 From `put` to `commit`: the producer of example/mqbusd/producer.cc, which sends a message again until
 it is acknowledged, the log and the commit offset of the broker (example/mqbroker/mqbroker.cc), and
 the consumer of example/mqbusd/consumer.cc, which pulls, drops duplicates and commits.

 One producer, one topic and one consumer group.  A message is its id; ids are fresh.  The network
 loses, repeats and reorders deliveries, acknowledgements and commits; a pull is answered with some
 contiguous run of one segment of the log that starts at the offset asked for or one message earlier and
 has no message that ends at the last byte of its file (see `Partition`).
 */
module Delivery {
  import opened Wrappers

  type Id = nat
  type Conn = nat

  /* ---------- the producer ---------- */

  /** `m_send_queue`, `queue` and the keys of `m_resend_set`. */
  datatype Producer = Producer(sendQueue: seq<Id>, queue: seq<Id>, resend: set<Id>)

  function Put(p: Producer, id: Id): Producer {
    p.(sendQueue := p.sendQueue + [id])
  }

  /** The first part of `sendInLoop`: takes over what has been put so far. */
  function Grab(p: Producer): Producer {
    Producer([], p.sendQueue, p.resend)
  }

  /** The loop of `sendInLoop` for the message at the front, with or without a connection. */
  function SendFront(p: Producer): Producer
    requires p.queue != []
  {
    Producer(p.sendQueue, p.queue[1..], p.resend + {p.queue[0]})
  }

  /** `handleDelivery`. */
  function Acknowledged(p: Producer, id: Id): Producer {
    p.(resend := p.resend - {id})
  }

  /* ---------- the consumer ---------- */

  /** `local` holds the offsets of `m_commit_offset`, `ids` the keys of `m_recv_messageId`, `received` the
      messages with their offsets in `m_recv_messages`; `handed` is everything ever put there. */
  datatype Consumer = Consumer(local: map<Conn, nat>, ids: set<Id>, received: seq<(Id, nat)>, handed: seq<Id>)

  function LocalOffset(c: Consumer, conn: Conn): nat {
    if conn in c.local then c.local[conn] else 0
  }

  /** `handlePull` of one packet. */
  function Receive(c: Consumer, conn: Conn, id: Id, offset: nat): Consumer {
    if id !in c.ids then
      Consumer(c.local, c.ids + {id}, c.received + [(id, offset)], c.handed + [id])
    else if offset == LocalOffset(c, conn) then
      c.(local := c.local[conn := offset + 1])
    else c
  }

  /** `handlePull` when the offset is past the end. */
  function CaughtUp(c: Consumer, conn: Conn, offset: nat): Consumer {
    c.(local := c.local[conn := offset])
  }

  /** The offset that `commit` sends, if it sends one. */
  function CommitOffset(c: Consumer): Option<nat> {
    if c.received == [] then None else Some(c.received[|c.received| - 1].1 + 1)
  }

  function Commit(c: Consumer, conn: Conn): Consumer {
    match CommitOffset(c)
    case None => c
    case Some(n) => c.(local := c.local[conn := n], received := [])
  }

  /* ---------- the whole system ---------- */

  /** A pull on its way to the broker; an answer on its way back, `next` being how many of its packets the
      consumer has handled. */
  datatype Pull = Pull(conn: Conn, offset: nat)
  datatype Reply =
    | TooLarge(conn: Conn, offset: nat)
    | Packets(conn: Conn, start: nat, count: nat, next: nat)

  /** How the log lies in its files: the messages behind which a new file begins, and those of them that
      end at the very last byte of theirs. */
  datatype Layout = Layout(last: nat -> bool, full: nat -> bool)

  predicate Ends(y: Layout, i: nat) {
    y.last(i) || y.full(i)
  }

  /** One past the last message of the file that has message `o`, of `n` messages. */
  function SegmentEnd(y: Layout, n: nat, o: nat): (e: nat)
    requires o < n
    ensures o < e <= n && (e == n || Ends(y, e - 1))
    ensures forall i :: o <= i < e - 1 ==> !Ends(y, i)
    decreases n - o
  {
    if Ends(y, o) || o + 1 == n then o + 1 else SegmentEnd(y, n, o + 1)
  }

  /** One past the last message that an answer to a pull of `o` can have. */
  function SendEnd(y: Layout, n: nat, o: nat): (e: nat)
    requires o < n
    ensures o <= e <= n
  {
    var e := SegmentEnd(y, n, o);
    if y.full(e - 1) then e - 1 else e
  }

  datatype State = State(
    layout: Layout, put: seq<Id>, producer: Producer, deliveries: set<Id>, acks: set<Id>,
    log: seq<Id>, committed: nat,
    consumer: Consumer, pulls: set<Pull>, replies: seq<Reply>, commits: set<nat>)

  function Init(y: Layout): State {
    State(y, [], Producer([], [], {}), {}, {}, [], 0, Consumer(map[], {}, [], []), {}, [], {})
  }

  datatype Event =
    | Puts(id: Id)
    | Grabs
    | Sends(connected: bool)
    | Retries(order: seq<Id>)
    | Appends(id: Id)
    | Acks(id: Id)
    | Pulls(conn: Conn)
    | Serves(pull: Pull, early: bool, count: nat)
    | Receives(i: nat)
    | Commits(conn: Conn)
    | BrokerCommits(offset: nat)

  /** `handlePull` of the broker: an offset of 0 stands for the committed one. */
  function Asked(s: State, pull: Pull): nat {
    if pull.offset == 0 then s.committed else pull.offset
  }

  /** Where the answer to a pull of `o` starts: early only inside one file. */
  function Start(y: Layout, o: nat, early: bool): nat {
    if early && o > 0 && !Ends(y, o - 1) then o - 1 else o
  }

  /** `sendToConsumer`. */
  function Answer(s: State, pull: Pull, early: bool, count: nat): Reply {
    var o := Asked(s, pull);
    if |s.log| <= o then TooLarge(pull.conn, o) else Packets(pull.conn, Start(s.layout, o, early), count, 0)
  }

  predicate Enabled(s: State, v: Event) {
    match v
    case Puts(id) => id !in s.put
    case Grabs => s.producer.queue == []
    case Sends(_) => s.producer.queue != []
    case Retries(order) => (set id | id in order) == s.producer.resend
    case Appends(id) => id in s.deliveries
    case Acks(id) => id in s.acks
    case Pulls(_) => true
    case Serves(pull, early, count) =>
      pull in s.pulls
      && var o := Asked(s, pull);
      o < |s.log| ==> Start(s.layout, o, early) + count <= SendEnd(s.layout, |s.log|, o)
    case Receives(i) =>
      i < |s.replies|
      && var r := s.replies[i]; r.Packets? ==> r.next < r.count && r.start + r.next < |s.log|
    case Commits(_) => true
    case BrokerCommits(offset) => offset in s.commits
  }

  function Apply(s: State, v: Event): State
    requires Enabled(s, v)
  {
    match v
    case Puts(id) => s.(put := s.put + [id], producer := Put(s.producer, id))
    case Grabs => s.(producer := Grab(s.producer))
    case Sends(connected) =>
      s.(producer := SendFront(s.producer),
         deliveries := if connected then s.deliveries + {s.producer.queue[0]} else s.deliveries)
    case Retries(order) => s.(producer := s.producer.(sendQueue := s.producer.sendQueue + order))
    case Appends(id) => s.(log := s.log + [id], acks := s.acks + {id})
    case Acks(id) => s.(producer := Acknowledged(s.producer, id))
    case Pulls(conn) => s.(pulls := s.pulls + {Pull(conn, LocalOffset(s.consumer, conn))})
    case Serves(pull, early, count) => s.(replies := s.replies + [Answer(s, pull, early, count)])
    case Receives(i) =>
      (match s.replies[i]
       case TooLarge(conn, o) => s.(consumer := CaughtUp(s.consumer, conn, o))
       case Packets(conn, start, count, next) =>
         s.(consumer := Receive(s.consumer, conn, s.log[start + next], start + next),
            replies := s.replies[i := Packets(conn, start, count, next + 1)]))
    case Commits(conn) =>
      var n := CommitOffset(s.consumer);
      s.(consumer := Commit(s.consumer, conn), commits := if n == None then s.commits else s.commits + {n.value})
    case BrokerCommits(offset) => s.(committed := if s.committed < offset then offset else s.committed)
  }

  /** An event that is not enabled changes nothing. */
  function Step(s: State, v: Event): State {
    if Enabled(s, v) then Apply(s, v) else s
  }

  function Run(y: Layout, events: seq<Event>): State {
    if events == [] then Init(y) else Step(Run(y, events[..|events| - 1]), events[|events| - 1])
  }

  /* ---------- the producer loses nothing ---------- */

  /** Every message put is still queued, in flight, waiting for its acknowledgement, or in the log; and
      nothing else is anywhere. */
  ghost predicate NoLoss(s: State) {
    && (forall id :: id in s.put ==>
          id in s.producer.sendQueue || id in s.producer.queue || id in s.producer.resend || id in s.log)
    && (forall id :: id in s.producer.sendQueue || id in s.producer.queue || id in s.producer.resend ==> id in s.put)
    && (forall id :: id in s.deliveries || id in s.log ==> id in s.put)
    && (forall id :: id in s.acks ==> id in s.log)
    && Distinct(s.put)
  }

  lemma NoLossStep(s: State, v: Event)
    requires NoLoss(s)
    ensures NoLoss(Step(s, v))
  {
    hide Receive;
    hide Commit;
    hide CommitOffset;
    hide Answer;
    match v
    case Puts(id) =>
    case Grabs =>
    case Sends(_) =>
      if Enabled(s, v) {
        assert s.producer.queue == [s.producer.queue[0]] + s.producer.queue[1..];
      }
    case Retries(order) =>
      if Enabled(s, v) {
        assert forall id :: id in order <==> id in (set id | id in order);
      }
    case _ =>
  }

  /** A message leaves the resend set only when it is in the log. */
  lemma LeavesAfterAppend(s: State, v: Event, id: Id)
    requires NoLoss(s) && id in s.producer.resend && id !in Step(s, v).producer.resend
    ensures id in s.log
  {
  }

  /* ---------- what the consumer has seen ---------- */

  /** The ids of the first `n` messages of the log have been received. */
  predicate Covered(log: seq<Id>, ids: set<Id>, n: nat) {
    n <= |log| && forall i :: 0 <= i < n ==> log[i] in ids
  }

  /** The log without repetitions. */
  function Dedup(log: seq<Id>): (r: seq<Id>)
    ensures forall id :: id in r <==> id in log
    ensures Distinct(r)
  {
    if log == [] then []
    else
      var r := Dedup(log[..|log| - 1]);
      if log[|log| - 1] in r then r else r + [log[|log| - 1]]
  }

  ghost predicate ReplyCovered(s: State, r: Reply) {
    match r
    case TooLarge(_, o) => Covered(s.log, s.consumer.ids, o)
    case Packets(_, start, count, next) => next <= count && Covered(s.log, s.consumer.ids, start + next)
  }

  /** No offset anywhere passes a message that has not been received. */
  ghost predicate Offsets(s: State) {
    && Covered(s.log, s.consumer.ids, s.committed)
    && (forall conn :: conn in s.consumer.local ==> Covered(s.log, s.consumer.ids, s.consumer.local[conn]))
    && (forall p :: p in s.pulls ==> Covered(s.log, s.consumer.ids, p.offset))
    && (forall n :: n in s.commits ==> Covered(s.log, s.consumer.ids, n))
    && (forall i :: 0 <= i < |s.replies| ==> ReplyCovered(s, s.replies[i]))
    && (forall i :: 0 <= i < |s.consumer.received| ==> Covered(s.log, s.consumer.ids, s.consumer.received[i].1 + 1))
  }

  /** The application has been handed the first `seen` messages of the log, in order, each once. */
  ghost predicate Handed(s: State, seen: nat) {
    && Covered(s.log, s.consumer.ids, seen)
    && s.consumer.handed == Dedup(s.log[..seen])
    && (forall id :: id in s.consumer.ids <==> id in s.consumer.handed)
  }

  lemma CoveredGrows(log: seq<Id>, ids: set<Id>, log': seq<Id>, ids': set<Id>, n: nat)
    requires Covered(log, ids, n) && log <= log' && ids <= ids'
    ensures Covered(log', ids', n)
  {
  }

  /** Everything that was covered stays covered. */
  lemma OffsetsGrow(s: State, t: State)
    requires Offsets(s) && s.log <= t.log && s.consumer.ids <= t.consumer.ids
    requires t.committed == s.committed && t.consumer.local == s.consumer.local && t.pulls == s.pulls
    requires t.commits == s.commits && t.replies == s.replies && t.consumer.received == s.consumer.received
    ensures Offsets(t)
  {
    hide Covered;
    forall n | Covered(s.log, s.consumer.ids, n)
      ensures Covered(t.log, t.consumer.ids, n)
    {
      CoveredGrows(s.log, s.consumer.ids, t.log, t.consumer.ids, n);
    }
  }

  lemma LocalCovered(s: State, conn: Conn)
    requires Offsets(s)
    ensures Covered(s.log, s.consumer.ids, LocalOffset(s.consumer, conn))
  {
  }

  lemma OffsetsAnswer(s: State, pull: Pull, early: bool, count: nat)
    requires Offsets(s) && pull in s.pulls
    ensures ReplyCovered(s, Answer(s, pull, early, count))
  {
  }

  /** Handling packet `p` of the log, everything before it being covered. */
  lemma ReceiveCovers(s: State, conn: Conn, p: nat)
    requires Offsets(s) && p < |s.log| && Covered(s.log, s.consumer.ids, p)
    ensures var t := s.(consumer := Receive(s.consumer, conn, s.log[p], p));
      Offsets(t) && Covered(t.log, t.consumer.ids, p + 1)
  {
    var t := s.(consumer := Receive(s.consumer, conn, s.log[p], p));
    if s.log[p] !in s.consumer.ids {
      var c := s.consumer;
      var t0 := s.(consumer := c.(ids := c.ids + {s.log[p]}, handed := c.handed + [s.log[p]]));
      OffsetsGrow(s, t0);
    }
  }

  lemma OffsetsReceive(s: State, i: nat)
    requires Offsets(s) && Enabled(s, Receives(i))
    ensures Offsets(Apply(s, Receives(i)))
  {
    match s.replies[i]
    case TooLarge(conn, o) =>
    case Packets(conn, start, count, next) =>
      ReceiveCovers(s, conn, start + next);
      hide Receive;
  }

  lemma OffsetsStep(s: State, v: Event)
    requires Offsets(s)
    ensures Offsets(Step(s, v))
  {
    var t := Step(s, v);
    if Enabled(s, v) {
      match v
      case Appends(id) => OffsetsGrow(s, t);
      case Pulls(conn) => LocalCovered(s, conn);
      case Serves(pull, early, count) => OffsetsAnswer(s, pull, early, count);
      case Receives(i) => OffsetsReceive(s, i);
      case Commits(conn) =>
      case BrokerCommits(offset) =>
      case _ => OffsetsGrow(s, t);
    }
  }

  /* ---------- in order, once, none skipped ---------- */

  /** A stretch of messages that have all been received adds nothing. */
  lemma {:induction false} DedupStretch(log: seq<Id>, a: nat, b: nat)
    requires a <= b <= |log| && forall i :: a <= i < b ==> log[i] in Dedup(log[..a])
    ensures Dedup(log[..b]) == Dedup(log[..a])
  {
    if a < b {
      DedupStretch(log, a, b - 1);
      assert log[..b][..b - 1] == log[..b - 1];
    }
  }

  lemma {:induction false} DedupPrefix(log: seq<Id>, a: nat, b: nat)
    requires a <= b <= |log|
    ensures Dedup(log[..a]) <= Dedup(log[..b])
  {
    if a < b {
      DedupPrefix(log, a, b - 1);
      assert log[..b][..b - 1] == log[..b - 1];
    }
  }

  /** A covered stretch of the log has been handed over. */
  lemma CoveredIsHanded(s: State, seen: nat, n: nat)
    requires Handed(s, seen) && Covered(s.log, s.consumer.ids, n)
    ensures Dedup(s.log[..n]) <= s.consumer.handed
  {
    if n <= seen {
      DedupPrefix(s.log, n, seen);
    } else {
      DedupStretch(s.log, seen, n);
    }
  }

  /** How far the application has been handed the log after the event. */
  function Seen(s: State, seen: nat, v: Event): nat {
    if Enabled(s, v) && v.Receives? && s.replies[v.i].Packets? then
      var p := s.replies[v.i].start + s.replies[v.i].next;
      if s.log[p] !in s.consumer.ids then p + 1 else seen
    else seen
  }

  lemma HandedReceive(s: State, seen: nat, conn: Conn, p: nat)
    requires Handed(s, seen) && p < |s.log| && Covered(s.log, s.consumer.ids, p) && s.log[p] !in s.consumer.ids
    ensures Handed(s.(consumer := Receive(s.consumer, conn, s.log[p], p)), p + 1)
  {
    assert seen <= p;
    DedupStretch(s.log, seen, p);
    DedupNext(s.log, p);
    CoveredNext(s.log, s.consumer.ids, p);
    hide Dedup;
    hide Covered;
    var t := s.(consumer := Receive(s.consumer, conn, s.log[p], p));
    assert t.consumer.handed == s.consumer.handed + [s.log[p]] && t.consumer.ids == s.consumer.ids + {s.log[p]};
    assert s.log[p] !in s.consumer.handed;
    Appended(s.consumer.handed, s.log[p]);
  }

  lemma Appended(handed: seq<Id>, x: Id)
    ensures forall id :: id in handed + [x] <==> id in handed || id == x
  {
  }

  lemma CoveredNext(log: seq<Id>, ids: set<Id>, p: nat)
    requires Covered(log, ids, p) && p < |log|
    ensures Covered(log, ids + {log[p]}, p + 1)
  {
  }

  lemma DedupNext(log: seq<Id>, p: nat)
    requires p < |log|
    ensures Dedup(log[..p + 1]) == if log[p] in Dedup(log[..p]) then Dedup(log[..p]) else Dedup(log[..p]) + [log[p]]
  {
    assert log[..p + 1][..p] == log[..p];
  }

  /** Nothing handed over, and the log at most longer. */
  lemma HandedSame(s: State, t: State, seen: nat)
    requires Handed(s, seen) && s.log <= t.log
    requires t.consumer.ids == s.consumer.ids && t.consumer.handed == s.consumer.handed
    ensures Handed(t, seen)
  {
    hide Dedup;
    assert t.log[..seen] == s.log[..seen];
  }

  lemma HandedPacket(s: State, seen: nat, i: nat)
    requires Offsets(s) && Handed(s, seen) && Enabled(s, Receives(i)) && s.replies[i].Packets?
    ensures Handed(Apply(s, Receives(i)), Seen(s, seen, Receives(i)))
  {
    hide Dedup;
    hide Handed;
    hide Covered;
    var r, t := s.replies[i], Apply(s, Receives(i));
    var p := r.start + r.next;
    assert ReplyCovered(s, r);
    if s.log[p] !in s.consumer.ids {
      HandedReceive(s, seen, r.conn, p);
      HandedSame(s.(consumer := Receive(s.consumer, r.conn, s.log[p], p)), t, p + 1);
    } else {
      HandedSame(s, t, seen);
    }
  }

  lemma HandedStep(s: State, seen: nat, v: Event)
    requires Offsets(s) && Handed(s, seen)
    ensures Handed(Step(s, v), Seen(s, seen, v))
  {
    hide Dedup;
    hide Handed;
    hide Offsets;
    hide Receive;
    if Enabled(s, v) {
      if v.Receives? && s.replies[v.i].Packets? {
        HandedPacket(s, seen, v.i);
      } else {
        HandedSame(s, Step(s, v), seen);
      }
    }
  }

  function SeenAfter(y: Layout, events: seq<Event>): nat {
    if events == [] then 0
    else Seen(Run(y, events[..|events| - 1]), SeenAfter(y, events[..|events| - 1]), events[|events| - 1])
  }

  lemma {:induction false} RunInv(y: Layout, events: seq<Event>)
    ensures NoLoss(Run(y, events)) && Offsets(Run(y, events)) && Handed(Run(y, events), SeenAfter(y, events))
  {
    if events == [] {
    } else {
      var s, v := Run(y, events[..|events| - 1]), events[|events| - 1];
      RunInv(y, events[..|events| - 1]);
      hide NoLoss;
      hide Offsets;
      hide Handed;
      hide Step;
      NoLossStep(s, v);
      OffsetsStep(s, v);
      HandedStep(s, SeenAfter(y, events[..|events| - 1]), v);
    }
  }

  /** Every message ever put is still on its way, in the producer, or in the log of the broker. */
  lemma ProducerLosesNothing(y: Layout, events: seq<Event>, id: Id)
    requires id in Run(y, events).put
    ensures var s := Run(y, events);
      id in s.producer.sendQueue || id in s.producer.queue || id in s.producer.resend || id in s.log
  {
    RunInv(y, events);
  }

  /** In every run the application is handed a beginning of the log, in order, every message once however
      often it is in the log, and no offset, local or committed, passes a message that was not handed over. */
  lemma HandedInOrderOnce(y: Layout, events: seq<Event>, conn: Conn)
    ensures var s := Run(y, events);
      && SeenAfter(y, events) <= |s.log| && s.consumer.handed == Dedup(s.log[..SeenAfter(y, events)])
      && s.committed <= |s.log| && Dedup(s.log[..s.committed]) <= s.consumer.handed
      && LocalOffset(s.consumer, conn) <= |s.log|
      && Dedup(s.log[..LocalOffset(s.consumer, conn)]) <= s.consumer.handed
  {
    var s := Run(y, events);
    RunInv(y, events);
    LocalCovered(s, conn);
    CoveredIsHanded(s, SeenAfter(y, events), s.committed);
    CoveredIsHanded(s, SeenAfter(y, events), LocalOffset(s.consumer, conn));
  }

  /* ---------- the order of sending ---------- */

  /** What the send loop has taken from the front of its queue in a run, connected or not. */
  function SentBy(y: Layout, events: seq<Event>): seq<Id> {
    if events == [] then []
    else
      var s, v := Run(y, events[..|events| - 1]), events[|events| - 1];
      SentBy(y, events[..|events| - 1]) + if v.Sends? && s.producer.queue != [] then [s.producer.queue[0]] else []
  }

  /** More of what is there already adds nothing. */
  lemma DedupKnown(a: seq<Id>, b: seq<Id>)
    requires forall id :: id in b ==> id in a
    ensures Dedup(a + b) == Dedup(a)
  {
    var w := a + b;
    assert w[..|a|] == a && w[..|w|] == w;
    forall i | |a| <= i < |w|
      ensures w[i] in Dedup(a)
    {
      assert w[i] == b[i - |a|];
    }
    DedupStretch(w, |a|, |w|);
  }

  lemma DedupFresh(a: seq<Id>, id: Id)
    requires id !in a
    ensures Dedup(a + [id]) == Dedup(a) + [id]
  {
    var w := a + [id];
    assert w[..|a|] == a && w[..|a| + 1] == w;
    DedupNext(w, |a|);
  }

  /** What has been sent, then what is queued for the loop, then what has been put since. */
  function Outgoing(p: Producer, sent: seq<Id>): seq<Id> {
    sent + p.queue + p.sendQueue
  }

  /** First occurrences in what is going out are in the order of `put`; what is sent again has been sent before. */
  ghost predicate InOrder(s: State, sent: seq<Id>) {
    Dedup(Outgoing(s.producer, sent)) == s.put && forall id :: id in s.producer.resend ==> id in sent
  }

  lemma InOrderStep(s: State, sent: seq<Id>, v: Event)
    requires NoLoss(s) && InOrder(s, sent)
    ensures InOrder(Step(s, v), sent + if v.Sends? && s.producer.queue != [] then [s.producer.queue[0]] else [])
  {
    hide Dedup;
    hide Receive;
    hide Commit;
    hide Answer;
    hide SendEnd;
    var p, q := s.producer, Step(s, v).producer;
    assert sent + [] == sent;
    if Enabled(s, v) {
      match v
      case Puts(id) =>
        assert id !in Outgoing(p, sent);
        DedupFresh(Outgoing(p, sent), id);
        assert Outgoing(q, sent) == Outgoing(p, sent) + [id];
      case Grabs => assert Outgoing(q, sent) == Outgoing(p, sent);
      case Sends(_) =>
        assert Outgoing(q, sent + [p.queue[0]]) == Outgoing(p, sent);
      case Retries(order) =>
        assert forall id :: id in order <==> id in (set id | id in order);
        DedupKnown(Outgoing(p, sent), order);
        assert Outgoing(q, sent) == Outgoing(p, sent) + order;
      case _ =>
    }
  }

  lemma {:induction false} RunInOrder(y: Layout, events: seq<Event>)
    ensures InOrder(Run(y, events), SentBy(y, events))
  {
    if events == [] {
      assert Outgoing(Init(y).producer, []) == [];
    } else {
      var before := events[..|events| - 1];
      RunInOrder(y, before);
      RunInv(y, before);
      hide InOrder;
      hide NoLoss;
      hide Offsets;
      hide Handed;
      hide Step;
      InOrderStep(Run(y, before), SentBy(y, before), events[|events| - 1]);
    }
  }

  /** The producer after messages `ids` are put, one after the other. */
  function PutEach(p: Producer, ids: seq<Id>): Producer {
    if ids == [] then p else Put(PutEach(p, ids[..|ids| - 1]), ids[|ids| - 1])
  }

  /** They wait in that order behind what was there, and the send loop takes them over in that order. */
  lemma {:induction false} PutsStayInOrder(p: Producer, ids: seq<Id>)
    ensures PutEach(p, ids) == Producer(p.sendQueue + ids, p.queue, p.resend)
    ensures Grab(PutEach(p, ids)) == Producer([], p.sendQueue + ids, p.resend)
  {
    if ids == [] {
      assert p.sendQueue + [] == p.sendQueue;
    } else {
      PutsStayInOrder(p, ids[..|ids| - 1]);
      assert ids == ids[..|ids| - 1] + [ids[|ids| - 1]];
    }
  }

  /** In every run messages are sent for the first time in the order in which they were put, none left out. */
  lemma FirstSendsInOrder(y: Layout, events: seq<Event>)
    ensures var s, sent := Run(y, events), SentBy(y, events);
      && Dedup(sent) <= s.put
      && (s.producer.queue == [] && s.producer.sendQueue == [] ==> Dedup(sent) == s.put)
  {
    var s, sent := Run(y, events), SentBy(y, events);
    RunInOrder(y, events);
    var w := Outgoing(s.producer, sent);
    DedupPrefix(w, |sent|, |w|);
    assert w[..|sent|] == sent && w[..|w|] == w;
    assert s.producer.queue == [] && s.producer.sendQueue == [] ==> w == sent;
    hide Run;
    hide Dedup;
    hide Outgoing;
  }

  /* ---------- both ends together ---------- */

  /** The broker keeps the greatest offset that has reached it. */
  lemma KeepsGreatest(s: State, offset: nat)
    requires offset in s.commits
    ensures var t := Step(s, BrokerCommits(offset));
      t.committed >= s.committed && t.committed >= offset && (t.committed == s.committed || t.committed == offset)
  {
  }

  lemma {:induction false} DistinctSame(a: seq<Id>, b: seq<Id>)
    requires Distinct(a)
    requires Distinct(b)
    requires forall id :: id in a <==> id in b
    ensures multiset(a) == multiset(b)
  {
    forall id
      ensures multiset(a)[id] == multiset(b)[id]
    {
      AtMostOnce(a, id);
      AtMostOnce(b, id);
    }
  }

  lemma {:induction false} AtMostOnce(a: seq<Id>, id: Id)
    requires Distinct(a)
    ensures multiset(a)[id] == if id in a then 1 else 0
  {
    if a == [] {
    } else {
      assert a == a[..|a| - 1] + [a[|a| - 1]];
      AtMostOnce(a[..|a| - 1], id);
    }
  }

  /** Once the producer has nothing left to send and the consumer has caught up with the log, the application
      has been handed every message put, each exactly once. */
  lemma EndToEnd(y: Layout, events: seq<Event>, conn: Conn)
    requires var s := Run(y, events);
      && s.producer.sendQueue == [] && s.producer.queue == [] && s.producer.resend == {}
      && LocalOffset(s.consumer, conn) == |s.log|
    ensures multiset(Run(y, events).consumer.handed) == multiset(Run(y, events).put)
  {
    var s := Run(y, events);
    RunInv(y, events);
    HandedInOrderOnce(y, events, conn);
    assert s.log[..|s.log|] == s.log;
    hide Dedup;
    var seen := SeenAfter(y, events);
    assert forall id :: id in s.consumer.handed <==> id in s.log[..seen];
    assert forall id :: id in s.consumer.handed ==> id in s.log;
    assert forall id :: id in s.log <==> id in s.put;
    DistinctSame(s.consumer.handed, s.put);
  }

  /* ---------- the producer can always be drained ---------- */

  /** The state after more events. */
  function Go(s: State, es: seq<Event>): State
    decreases |es|
  {
    if es == [] then s else Go(Step(s, es[0]), es[1..])
  }

  lemma GoCons(s: State, v: Event, es: seq<Event>)
    ensures Go(s, [v] + es) == Go(Step(s, v), es)
  {
    hide Step;
    assert ([v] + es)[1..] == es;
  }

  lemma GoNothing(s: State)
    ensures Go(s, []) == s
  {
  }

  lemma {:induction false} GoAppend(s: State, a: seq<Event>, b: seq<Event>)
    ensures Go(s, a + b) == Go(Go(s, a), b)
    decreases |a|
  {
    hide Step;
    if a == [] {
      assert [] + b == b;
    } else {
      assert (a + b)[1..] == a[1..] + b;
      GoAppend(Step(s, a[0]), a[1..], b);
    }
  }

  lemma {:induction false} RunGo(y: Layout, events: seq<Event>, es: seq<Event>)
    ensures Run(y, events + es) == Go(Run(y, events), es)
  {
    hide Step;
    if es == [] {
      assert events + [] == events;
    } else {
      var last := |es| - 1;
      RunGo(y, events, es[..last]);
      assert (events + es)[..|events + es| - 1] == events + es[..last];
      assert es == es[..last] + [es[last]];
      GoAppend(Run(y, events), es[..last], [es[last]]);
      GoOne(Go(Run(y, events), es[..last]), es[last]);
    }
  }

  lemma GoOne(s: State, v: Event)
    ensures Go(s, [v]) == Step(s, v)
  {
    hide Step;
  }

  /** Nothing but the producer and the network towards the broker differs. */
  ghost predicate SendsOnly(s: State, t: State) {
    && t.layout == s.layout && t.put == s.put && t.log == s.log
    && t.committed == s.committed && t.consumer == s.consumer
    && t.pulls == s.pulls && t.replies == s.replies && t.commits == s.commits && t.acks == s.acks
    && s.deliveries <= t.deliveries
  }

  /** The loop of `sendInLoop`, with a connection. */
  lemma {:induction false} SendsQueue(s: State) returns (es: seq<Event>)
    ensures var t := Go(s, es);
      && SendsOnly(s, t) && t.producer.queue == [] && t.producer.sendQueue == s.producer.sendQueue
      && t.producer.resend == s.producer.resend + (set id | id in s.producer.queue)
      && (forall id :: id in s.producer.queue ==> id in t.deliveries)
    decreases |s.producer.queue|
  {
    es := [];
    if s.producer.queue != [] {
      var q := s.producer.queue;
      var rest := SendsQueue(Step(s, Sends(true)));
      es := [Sends(true)] + rest;
      assert es[1..] == rest;
      assert (set id | id in q) == {q[0]} + set id | id in q[1..];
      assert forall id :: id in q <==> id == q[0] || id in q[1..];
    } else {
      assert s.producer.resend + {} == s.producer.resend;
    }
  }

  /** The queue sent, then what has been put since. */
  lemma SendsAll(s: State) returns (es: seq<Event>)
    ensures var t := Go(s, es);
      && SendsOnly(s, t) && t.producer.queue == [] && t.producer.sendQueue == []
      && (forall id :: id in t.producer.resend ==>
            id in s.producer.resend || id in s.producer.queue || id in s.producer.sendQueue)
      && s.producer.resend <= t.producer.resend
      && (forall id :: id in s.producer.sendQueue ==> id in t.deliveries)
  {
    var a := SendsQueue(s);
    var t := Go(s, a);
    var b := SendsQueue(Step(t, Grabs));
    es := a + ([Grabs] + b);
    GoAppend(s, a, [Grabs] + b);
    assert ([Grabs] + b)[1..] == b;
  }

  /** A resend of everything that waits for its acknowledgement. */
  lemma Resends(s: State) returns (es: seq<Event>)
    requires s.producer.queue == [] && s.producer.sendQueue == []
    ensures var t := Go(s, es);
      && SendsOnly(s, t) && t.producer == s.producer && forall id :: id in s.producer.resend ==> id in t.deliveries
  {
    var order := Listed(s.producer.resend);
    var s1 := Step(s, Retries(order));
    assert (set id | id in order) == s.producer.resend;
    assert s1.producer.sendQueue == order;
    var rest := SendsAll(s1);
    es := [Retries(order)] + rest;
    assert es[1..] == rest;
  }

  lemma {:induction false} Listed(ids: set<Id>) returns (order: seq<Id>)
    ensures forall id :: id in order <==> id in ids
  {
    if ids == {} {
      order := [];
    } else {
      var id :| id in ids;
      order := Listed(ids - {id});
      order := order + [id];
    }
  }

  /** Nothing on the side of the consumer differs; the log has grown. */
  ghost predicate LogsOnly(s: State, t: State) {
    && t.layout == s.layout && t.put == s.put && s.log <= t.log
    && t.committed == s.committed && t.consumer == s.consumer
    && t.pulls == s.pulls && t.replies == s.replies && t.commits == s.commits
    && t.producer.queue == s.producer.queue && t.producer.sendQueue == s.producer.sendQueue
    && t.deliveries == s.deliveries
  }

  /** Everything that waits is appended and acknowledged. */
  lemma {:induction false} Acknowledges(s: State) returns (es: seq<Event>)
    requires forall id :: id in s.producer.resend ==> id in s.deliveries
    ensures LogsOnly(s, Go(s, es)) && Go(s, es).producer.resend == {}
    decreases |s.producer.resend|
  {
    es := [];
    if s.producer.resend == {} {
    } else {
      var id :| id in s.producer.resend;
      var t := Step(Step(s, Appends(id)), Acks(id));
      assert t.producer.resend == s.producer.resend - {id};
      var rest := Acknowledges(t);
      es := [Appends(id), Acks(id)] + rest;
      assert es[1..][1..] == rest && es[1..] == [Acks(id)] + rest;
    }
  }

  /** The producer has nothing left to send. */
  ghost predicate Drained(s: State) {
    s.producer.sendQueue == [] && s.producer.queue == [] && s.producer.resend == {}
  }

  lemma DrainsProducer(s: State) returns (es: seq<Event>)
    ensures Drained(Go(s, es)) && Go(s, es).put == s.put && Go(s, es).consumer == s.consumer
  {
    var a := SendsAll(s);
    var s1 := Go(s, a);
    var b := Resends(s1);
    var s2 := Go(s1, b);
    var c := Acknowledges(s2);
    GoAppend(s, a, b);
    GoAppend(s, a + b, c);
    es := a + b + c;
    hide Go;
  }

  /* ---------- nothing passes a message that fills its file ---------- */

  lemma SendEndFull(y: Layout, n: nat, o: nat, f: nat)
    requires o < n && o <= f && y.full(f)
    ensures SendEnd(y, n, o) <= f
  {
    assert Ends(y, f);
  }

  ghost predicate ReplyBehind(r: Reply, f: nat) {
    match r
    case TooLarge(_, o) => o <= f
    case Packets(_, start, count, _) => start + count <= f
  }

  /** No offset anywhere passes `f`, and no message received is at `f` or behind it. */
  ghost predicate Behind(s: State, f: nat) {
    && s.committed <= f
    && (forall conn :: conn in s.consumer.local ==> s.consumer.local[conn] <= f)
    && (forall p :: p in s.pulls ==> p.offset <= f)
    && (forall n :: n in s.commits ==> n <= f)
    && (forall i :: 0 <= i < |s.replies| ==> ReplyBehind(s.replies[i], f))
    && (forall i :: 0 <= i < |s.consumer.received| ==> s.consumer.received[i].1 < f)
    && (forall id :: id in s.consumer.ids ==> exists i :: 0 <= i < f && i < |s.log| && s.log[i] == id)
  }

  lemma BehindServes(s: State, f: nat, v: Event)
    requires Behind(s, f) && s.layout.full(f) && v.Serves? && Enabled(s, v)
    ensures Behind(Apply(s, v), f)
  {
    var o := Asked(s, v.pull);
    if o < |s.log| {
      SendEndFull(s.layout, |s.log|, o, f);
    }
    hide SendEnd;
  }

  lemma BehindReceives(s: State, f: nat, i: nat)
    requires Behind(s, f) && Enabled(s, Receives(i))
    ensures Behind(Apply(s, Receives(i)), f)
  {
    var t := Apply(s, Receives(i));
    assert ReplyBehind(s.replies[i], f);
    assert forall k :: 0 <= k < |t.replies| && k != i ==> t.replies[k] == s.replies[k];
    if s.replies[i].Packets? {
      var p := s.replies[i].start + s.replies[i].next;
      assert p < f && t.log == s.log && s.log[p] == s.log[p];
    }
  }

  lemma BehindStep(s: State, f: nat, v: Event)
    requires Behind(s, f) && s.layout.full(f)
    ensures Behind(Step(s, v), f) && Step(s, v).layout == s.layout
  {
    if Enabled(s, v) {
      match v
      case Serves(_, _, _) => BehindServes(s, f, v);
      case Receives(i) => BehindReceives(s, f, i);
      case Appends(id) =>
        assert forall i :: 0 <= i < |s.log| ==> Apply(s, v).log[i] == s.log[i];
      case _ =>
    }
  }

  lemma {:induction false} BehindRun(y: Layout, events: seq<Event>, f: nat)
    requires y.full(f)
    ensures Behind(Run(y, events), f) && Run(y, events).layout == y
  {
    if events != [] {
      BehindRun(y, events[..|events| - 1], f);
      hide Behind;
      hide Step;
      BehindStep(Run(y, events[..|events| - 1]), f, events[|events| - 1]);
    }
  }

  /** A message that ends at the last byte of its file holds up the group for ever: in no run does an offset
      pass it, and the application is handed nothing but messages that are in the log before it. */
  lemma NothingPastFull(y: Layout, events: seq<Event>, f: nat, conn: Conn)
    requires y.full(f)
    ensures var s := Run(y, events);
      && LocalOffset(s.consumer, conn) <= f && s.committed <= f
      && forall id :: id in s.consumer.handed ==> exists i :: 0 <= i < f && i < |s.log| && s.log[i] == id
  {
    BehindRun(y, events, f);
    RunInv(y, events);
    hide Run;
    hide Offsets;
  }

  /* ---------- catching up with the log ---------- */

  /** Handles `n` packets of answer `i`. */
  function Handles(s: State, i: nat, n: nat): State
    decreases n
  {
    if n == 0 then s else Handles(Step(s, Receives(i)), i, n - 1)
  }

  /** How many packets there are for a pull on the connection: all up to the end of the file, or one that says
      that there are none. */
  function PacketCount(s: State, conn: Conn, early: bool): nat {
    var o := Asked(s, Pull(conn, LocalOffset(s.consumer, conn)));
    if o < |s.log| then SendEnd(s.layout, |s.log|, o) - Start(s.layout, o, early) else 1
  }

  /** A pull, its answer with all that there is, and its packets. */
  function Reads(s: State, conn: Conn, early: bool): State {
    var pull, n := Pull(conn, LocalOffset(s.consumer, conn)), PacketCount(s, conn, early);
    Handles(Step(Step(s, Pulls(conn)), Serves(pull, early, n)), |s.replies|, n)
  }

  /** What has been read is committed, and the broker stores that. */
  function Stores(s: State, conn: Conn): State {
    match CommitOffset(s.consumer)
    case None => Step(s, Commits(conn))
    case Some(n) => Step(Step(s, Commits(conn)), BrokerCommits(n))
  }

  /** One round of the consumer with nothing lost. */
  function Turn(s: State, conn: Conn, early: bool): State {
    Stores(Reads(s, conn, early), conn)
  }

  /** `n` rounds; `early` says which of the answers start a message early. */
  function Turns(s: State, conn: Conn, early: nat -> bool, n: nat): State {
    if n == 0 then s else Turn(Turns(s, conn, early, n - 1), conn, early(n - 1))
  }

  /** No answer starts early. */
  predicate Never(i: nat) {
    false
  }

  ghost predicate Reaches(s: State, conn: Conn, early: nat -> bool) {
    exists n: nat :: LocalOffset(Turns(s, conn, early, n).consumer, conn) == |s.log|
  }

  /** The ids of messages `a` to `b` have been received. */
  ghost predicate Known(s: State, a: nat, b: nat) {
    b <= |s.log| && forall k :: a <= k < b ==> s.log[k] in s.consumer.ids
  }

  /** A new connection whose pulls are answered from the committed offset on, with messages that are all known
      and none of which has the local offset, 0; and nothing to commit. */
  ghost predicate Wedge(s: State, conn: Conn) {
    && LocalOffset(s.consumer, conn) == 0 && 0 < s.committed < |s.log| && s.consumer.received == []
    && Known(s, s.committed, SendEnd(s.layout, |s.log|, s.committed))
  }

  ghost predicate Blocked(s: State, conn: Conn) {
    Wedge(s, conn) || exists f :: 0 <= f < |s.log| && s.layout.full(f)
  }

  /** Neither the producer nor the broker differs. */
  ghost predicate ReadsOnly(s: State, t: State) {
    && t.layout == s.layout && t.put == s.put && t.producer == s.producer && t.log == s.log
    && t.committed == s.committed && t.commits == s.commits
  }

  /** Answer `i` has exactly `n` more packets. */
  ghost predicate Has(s: State, conn: Conn, i: nat, a: nat, n: nat) {
    && i < |s.replies| && s.replies[i].Packets? && s.replies[i].conn == conn
    && s.replies[i].start + s.replies[i].next == a && s.replies[i].next + n == s.replies[i].count && a + n <= |s.log|
  }

  /** One more packet of answer `i`. */
  lemma HandlesOne(s: State, conn: Conn, i: nat, a: nat, n: nat)
    requires Has(s, conn, i, a, n) && n > 0
    ensures var t := Step(s, Receives(i));
      && Has(t, conn, i, a + 1, n - 1) && ReadsOnly(s, t)
      && t.consumer == Receive(s.consumer, conn, s.log[a], a)
  {
    hide Receive;
  }

  /** Known messages move the local offset if they have it, and else nothing. */
  lemma {:induction false} HandlesKnown(s: State, conn: Conn, i: nat, a: nat, n: nat)
    requires Has(s, conn, i, a, n) && Known(s, a, a + n)
    ensures var t, o := Handles(s, i, n), LocalOffset(s.consumer, conn);
      && ReadsOnly(s, t) && t.consumer.received == s.consumer.received && t.consumer.ids == s.consumer.ids
      && LocalOffset(t.consumer, conn) == (if a <= o < a + n then a + n else o)
      && (!(a <= o < a + n) ==> t.consumer == s.consumer)
    decreases n
  {
    if n > 0 {
      var t := Step(s, Receives(i));
      HandlesOne(s, conn, i, a, n);
      hide Step;
      HandlesKnown(t, conn, i, a + 1, n - 1);
    }
  }

  /** With an unknown message among them, the last one kept is such a message. */
  lemma {:induction false} HandlesNew(s: State, conn: Conn, i: nat, a: nat, n: nat)
    requires Has(s, conn, i, a, n) && !Known(s, a, a + n)
    ensures var t := Handles(s, i, n);
      && ReadsOnly(s, t) && t.consumer.received != []
      && var q := t.consumer.received[|t.consumer.received| - 1].1;
         a <= q < a + n && s.log[q] !in s.consumer.ids
    decreases n
  {
    var t := Step(s, Receives(i));
    assert n > 0;
    HandlesOne(s, conn, i, a, n);
    hide Step;
    hide Has;
    if s.log[a] in s.consumer.ids {
      assert !Known(t, a + 1, a + n);
      HandlesNew(t, conn, i, a + 1, n - 1);
    } else if Known(t, a + 1, a + n) {
      HandlesKnown(t, conn, i, a + 1, n - 1);
    } else {
      HandlesNew(t, conn, i, a + 1, n - 1);
    }
  }

  lemma ReadsPast(s: State, conn: Conn, early: bool)
    requires |s.log| <= Asked(s, Pull(conn, LocalOffset(s.consumer, conn)))
    ensures ReadsOnly(s, Reads(s, conn, early))
    ensures Reads(s, conn, early).consumer
         == CaughtUp(s.consumer, conn, Asked(s, Pull(conn, LocalOffset(s.consumer, conn))))
  {
    var pull := Pull(conn, LocalOffset(s.consumer, conn));
    var t := Step(Step(s, Pulls(conn)), Serves(pull, early, 1));
    assert t.replies[|s.replies|] == TooLarge(conn, Asked(s, pull));
    assert Handles(t, |s.replies|, 1) == Handles(Step(t, Receives(|s.replies|)), |s.replies|, 0);
  }

  lemma ReadsHas(s: State, conn: Conn, early: bool, o: nat)
    requires o == Asked(s, Pull(conn, LocalOffset(s.consumer, conn))) && o < |s.log|
    ensures var a, b := Start(s.layout, o, early), SendEnd(s.layout, |s.log|, o);
      var t := Step(Step(s, Pulls(conn)), Serves(Pull(conn, LocalOffset(s.consumer, conn)), early, b - a));
      && a <= b && Has(t, conn, |s.replies|, a, b - a) && ReadsOnly(s, t) && t.consumer == s.consumer
      && Reads(s, conn, early) == Handles(t, |s.replies|, b - a)
  {
    hide SendEnd;
  }

  /** What messages `a` to `b` do: known ones move the local offset if they have it, and else nothing; with an
      unknown one among them, the last one kept is such a message. */
  ghost predicate ReadsAs(s: State, t: State, conn: Conn, a: nat, b: nat) {
    && ReadsOnly(s, t)
    && if Known(s, a, b) then
         && t.consumer.received == s.consumer.received && t.consumer.ids == s.consumer.ids
         && var l := LocalOffset(s.consumer, conn);
            if a <= l < b then LocalOffset(t.consumer, conn) == b else t.consumer == s.consumer
       else
         && t.consumer.received != []
         && var q := t.consumer.received[|t.consumer.received| - 1].1;
            a <= q < b <= |s.log| && s.log[q] !in s.consumer.ids
  }

  lemma HandlesAll(s: State, conn: Conn, i: nat, a: nat, b: nat)
    requires a <= b && Has(s, conn, i, a, b - a)
    ensures ReadsAs(s, Handles(s, i, b - a), conn, a, b)
  {
    hide Handles;
    if Known(s, a, b) {
      HandlesKnown(s, conn, i, a, b - a);
    } else {
      HandlesNew(s, conn, i, a, b - a);
    }
  }

  lemma ReadsAsFrom(s: State, s': State, t: State, conn: Conn, a: nat, b: nat)
    requires ReadsAs(s', t, conn, a, b) && ReadsOnly(s, s') && s'.consumer == s.consumer
    ensures ReadsAs(s, t, conn, a, b)
  {
    assert Known(s, a, b) == Known(s', a, b);
  }

  /** What a round reads behind the offset asked for. */
  lemma ReadsInside(s: State, conn: Conn, early: bool, o: nat)
    requires o == Asked(s, Pull(conn, LocalOffset(s.consumer, conn))) && o < |s.log|
    ensures ReadsAs(s, Reads(s, conn, early), conn, Start(s.layout, o, early), SendEnd(s.layout, |s.log|, o))
  {
    hide *;
    ReadsHas(s, conn, early, o);
    var a, b := Start(s.layout, o, early), SendEnd(s.layout, |s.log|, o);
    var t := Step(Step(s, Pulls(conn)), Serves(Pull(conn, LocalOffset(s.consumer, conn)), early, b - a));
    HandlesAll(t, conn, |s.replies|, a, b);
    ReadsAsFrom(s, t, Reads(s, conn, early), conn, a, b);
  }

  lemma StoresIs(s: State, conn: Conn)
    ensures var t := Stores(s, conn);
      && t.layout == s.layout && t.put == s.put && t.producer == s.producer && t.log == s.log
      && t.consumer.received == []
      && if s.consumer.received == [] then t.consumer == s.consumer && t.committed == s.committed
         else LocalOffset(t.consumer, conn) == s.consumer.received[|s.consumer.received| - 1].1 + 1
  {
  }

  /** Neither the producer nor the log differs. */
  ghost predicate SameLog(s: State, t: State) {
    t.layout == s.layout && t.put == s.put && t.producer == s.producer && t.log == s.log
  }

  /** A round that starts at the local offset, unless nothing has ever been committed, and has nothing left over. */
  ghost predicate Good(s: State, conn: Conn) {
    s.consumer.received == [] && (LocalOffset(s.consumer, conn) > 0 || s.committed == 0)
  }

  /** After one round on a connection that is not wedged, the next one starts at the local offset. */
  lemma TurnGood(s: State, conn: Conn, early: bool)
    requires Offsets(s) && !Wedge(s, conn)
    ensures SameLog(s, Turn(s, conn, early)) && Good(Turn(s, conn, early), conn)
  {
    var r := Reads(s, conn, early);
    var o := Asked(s, Pull(conn, LocalOffset(s.consumer, conn)));
    LocalCovered(s, conn);
    StoresIs(r, conn);
    if |s.log| <= o {
      ReadsPast(s, conn, early);
    } else {
      ReadsInside(s, conn, early, o);
    }
    hide Reads;
    hide Stores;
    hide SendEnd;
  }

  /** And each such round moves the local offset on, as long as no message fills its file. */
  lemma TurnForward(s: State, conn: Conn, early: bool)
    requires Offsets(s) && Good(s, conn) && LocalOffset(s.consumer, conn) < |s.log|
    requires !s.layout.full(LocalOffset(s.consumer, conn))
    ensures LocalOffset(Turn(s, conn, early).consumer, conn) > LocalOffset(s.consumer, conn)
  {
    var r := Reads(s, conn, early);
    var o := LocalOffset(s.consumer, conn);
    LocalCovered(s, conn);
    StoresIs(r, conn);
    ReadsInside(s, conn, early, o);
    SendEndBeyond(s.layout, |s.log|, o);
    hide Reads;
    hide Stores;
    hide SendEnd;
  }

  lemma SendEndBeyond(y: Layout, n: nat, o: nat)
    requires o < n && !y.full(o)
    ensures o < SendEnd(y, n, o)
  {
  }

  /** A wedged connection, with answers that start where they are asked to, stays as it is. */
  lemma TurnWedged(s: State, conn: Conn)
    requires Wedge(s, conn)
    ensures SameLog(s, Turn(s, conn, false)) && Wedge(Turn(s, conn, false), conn)
  {
    var r := Reads(s, conn, false);
    StoresIs(r, conn);
    ReadsInside(s, conn, false, s.committed);
    hide Reads;
    hide Stores;
    hide SendEnd;
  }

  /* ---------- rounds are runs ---------- */

  lemma {:induction false} HandlesGo(s: State, i: nat, n: nat) returns (es: seq<Event>)
    ensures Handles(s, i, n) == Go(s, es)
    decreases n
  {
    hide Step;
    es := [];
    if n > 0 {
      var rest := HandlesGo(Step(s, Receives(i)), i, n - 1);
      es := [Receives(i)] + rest;
      GoCons(s, Receives(i), rest);
    }
  }

  lemma StoresGo(s: State, conn: Conn) returns (es: seq<Event>)
    ensures Stores(s, conn) == Go(s, es)
  {
    hide Step;
    match CommitOffset(s.consumer)
    case None =>
      es := [Commits(conn)];
      GoOne(s, Commits(conn));
    case Some(n) =>
      es := [Commits(conn)] + [BrokerCommits(n)];
      GoCons(s, Commits(conn), [BrokerCommits(n)]);
      GoOne(Step(s, Commits(conn)), BrokerCommits(n));
  }

  lemma ReadsIs(s: State, conn: Conn, early: bool)
    ensures var pull, n := Pull(conn, LocalOffset(s.consumer, conn)), PacketCount(s, conn, early);
      Reads(s, conn, early) == Handles(Step(Step(s, Pulls(conn)), Serves(pull, early, n)), |s.replies|, n)
  {
    hide Handles;
    hide Step;
    hide PacketCount;
  }

  lemma ReadsGo(s: State, conn: Conn, early: bool) returns (es: seq<Event>)
    ensures Reads(s, conn, early) == Go(s, es)
  {
    var pull := Pull(conn, LocalOffset(s.consumer, conn));
    var n := PacketCount(s, conn, early);
    var s1 := Step(s, Pulls(conn));
    var s2 := Step(s1, Serves(pull, early, n));
    hide *;
    ReadsIs(s, conn, early);
    var a := HandlesGo(s2, |s.replies|, n);
    GoCons(s1, Serves(pull, early, n), a);
    GoCons(s, Pulls(conn), [Serves(pull, early, n)] + a);
    es := [Pulls(conn)] + ([Serves(pull, early, n)] + a);
  }

  lemma TurnGo(s: State, conn: Conn, early: bool) returns (es: seq<Event>)
    ensures Turn(s, conn, early) == Go(s, es)
  {
    var r := Reads(s, conn, early);
    assert Turn(s, conn, early) == Stores(r, conn);
    hide *;
    var a := ReadsGo(s, conn, early);
    var b := StoresGo(r, conn);
    GoAppend(s, a, b);
    es := a + b;
  }

  lemma {:induction false} TurnsRun(y: Layout, events: seq<Event>, conn: Conn, early: nat -> bool, n: nat)
    returns (more: seq<Event>)
    ensures Turns(Run(y, events), conn, early, n) == Run(y, events + more)
    decreases n
  {
    hide Turn;
    hide Run;
    if n == 0 {
      more := [];
      assert events + more == events;
    } else {
      var a := TurnsRun(y, events, conn, early, n - 1);
      var b := TurnGo(Run(y, events + a), conn, early(n - 1));
      RunGo(y, events + a, b);
      more := a + b;
      assert events + more == events + a + b;
    }
  }

  /* ---------- exactly when a connection catches up ---------- */

  lemma {:induction false} TurnsSame(y: Layout, events: seq<Event>, conn: Conn, early: nat -> bool, n: nat)
    requires !Wedge(Run(y, events), conn)
    ensures var t := Turns(Run(y, events), conn, early, n);
      SameLog(Run(y, events), t) && Offsets(t) && (n > 0 ==> Good(t, conn)) && !Wedge(t, conn)
    decreases n
  {
    var more := TurnsRun(y, events, conn, early, n);
    RunInv(y, events + more);
    hide Turn;
    hide Run;
    hide Offsets;
    if n > 0 {
      TurnsSame(y, events, conn, early, n - 1);
      TurnGood(Turns(Run(y, events), conn, early, n - 1), conn, early(n - 1));
    }
  }

  lemma {:induction false} Onward(y: Layout, events: seq<Event>, conn: Conn, early: nat -> bool, k: nat)
    returns (n: nat)
    requires k > 0 && !Blocked(Run(y, events), conn)
    ensures LocalOffset(Turns(Run(y, events), conn, early, n).consumer, conn) == |Run(y, events).log|
    decreases |Run(y, events).log| - LocalOffset(Turns(Run(y, events), conn, early, k).consumer, conn)
  {
    var t := Turns(Run(y, events), conn, early, k);
    TurnsSame(y, events, conn, early, k);
    TurnsSame(y, events, conn, early, k + 1);
    LocalCovered(t, conn);
    LocalCovered(Turns(Run(y, events), conn, early, k + 1), conn);
    hide Turn;
    hide Run;
    hide Offsets;
    if LocalOffset(t.consumer, conn) == |t.log| {
      n := k;
    } else {
      TurnForward(t, conn, early(k));
      n := Onward(y, events, conn, early, k + 1);
    }
  }

  lemma {:induction false} StuckTurns(s: State, conn: Conn, n: nat)
    requires Wedge(s, conn)
    ensures var t := Turns(s, conn, Never, n); SameLog(s, t) && Wedge(t, conn)
    decreases n
  {
    hide Turn;
    hide Wedge;
    if n > 0 {
      StuckTurns(s, conn, n - 1);
      TurnWedged(Turns(s, conn, Never, n - 1), conn);
    }
  }

  /** From every reachable state, rounds on a connection bring its offset to the end of the log, wherever their
      answers start, if and only if no message of the log fills its file and the connection is not wedged. */
  lemma CatchesUpExactly(y: Layout, events: seq<Event>, conn: Conn)
    ensures (forall early :: Reaches(Run(y, events), conn, early)) <==> !Blocked(Run(y, events), conn)
  {
    var s := Run(y, events);
    if !Blocked(s, conn) {
      hide *;
      forall early
        ensures Reaches(s, conn, early)
      {
        var n := Onward(y, events, conn, early, 1);
        ReachesAt(s, conn, early, n);
      }
    } else {
      NotReached(y, events, conn);
    }
  }

  lemma ReachesAt(s: State, conn: Conn, early: nat -> bool, n: nat)
    requires LocalOffset(Turns(s, conn, early, n).consumer, conn) == |s.log|
    ensures Reaches(s, conn, early)
  {
  }

  lemma {:induction false} LayoutSame(y: Layout, events: seq<Event>)
    ensures Run(y, events).layout == y
  {
    if events != [] {
      LayoutSame(y, events[..|events| - 1]);
    }
  }

  lemma FullTurns(y: Layout, events: seq<Event>, conn: Conn, early: nat -> bool, n: nat, f: nat)
    requires Run(y, events).layout.full(f)
    ensures LocalOffset(Turns(Run(y, events), conn, early, n).consumer, conn) <= f
  {
    hide Run;
    hide Turns;
    LayoutSame(y, events);
    var more := TurnsRun(y, events, conn, early, n);
    NothingPastFull(y, events + more, f, conn);
  }

  lemma NotReached(y: Layout, events: seq<Event>, conn: Conn)
    requires Blocked(Run(y, events), conn)
    ensures !Reaches(Run(y, events), conn, Never)
  {
    var s := Run(y, events);
    hide Run;
    hide Turn;
    forall n: nat
      ensures LocalOffset(Turns(s, conn, Never, n).consumer, conn) != |s.log|
    {
      if Wedge(s, conn) {
        StuckTurns(s, conn, n);
      } else {
        var f :| 0 <= f < |s.log| && s.layout.full(f);
        FullTurns(y, events, conn, Never, n, f);
      }
    }
  }

  /** With nothing left in the producer, such rounds hand over every message ever put, each exactly once. */
  lemma AllDelivered(y: Layout, events: seq<Event>, conn: Conn, early: nat -> bool) returns (n: nat)
    requires Drained(Run(y, events)) && !Blocked(Run(y, events), conn)
    ensures var t := Turns(Run(y, events), conn, early, n);
      multiset(t.consumer.handed) == multiset(Run(y, events).put)
  {
    n := Onward(y, events, conn, early, 1);
    var more := TurnsRun(y, events, conn, early, n);
    TurnsSame(y, events, conn, early, n);
    hide Run;
    hide Turns;
    EndToEnd(y, events + more, conn);
  }

  /* ---------- wedged for good ---------- */

  /** Wedged whatever the answers are: none of them can start at 0. */
  ghost predicate Stuck(s: State, conn: Conn) {
    Wedge(s, conn) && (s.committed > 1 || Ends(s.layout, 0))
  }

  /** A wedged connection and an answer that starts one message early. */
  lemma TurnStuck(s: State, conn: Conn, early: bool)
    requires Offsets(s) && Stuck(s, conn)
    ensures SameLog(s, Turn(s, conn, early)) && Stuck(Turn(s, conn, early), conn)
  {
    StoresIs(Reads(s, conn, early), conn);
    ReadsInside(s, conn, early, s.committed);
    hide Reads;
    hide Stores;
    hide SendEnd;
  }

  /** The first answer of a connection wedged behind message 0 starts early, at 0. */
  lemma TurnFrees(s: State, conn: Conn)
    requires Offsets(s) && Wedge(s, conn) && !Stuck(s, conn)
    ensures SameLog(s, Turn(s, conn, true)) && Good(Turn(s, conn, true), conn) && !Wedge(Turn(s, conn, true), conn)
  {
    StoresIs(Reads(s, conn, true), conn);
    ReadsInside(s, conn, true, s.committed);
    hide Reads;
    hide Stores;
    hide SendEnd;
  }

  lemma {:induction false} StuckForEver(y: Layout, events: seq<Event>, conn: Conn, early: nat -> bool, n: nat)
    requires Stuck(Run(y, events), conn)
    ensures var t := Turns(Run(y, events), conn, early, n); SameLog(Run(y, events), t) && Stuck(t, conn)
    decreases n
  {
    hide Turn;
    hide Run;
    hide Stuck;
    hide Offsets;
    if n > 0 {
      StuckForEver(y, events, conn, early, n - 1);
      var more := TurnsRun(y, events, conn, early, n - 1);
      RunInv(y, events + more);
      TurnStuck(Turns(Run(y, events), conn, early, n - 1), conn, early(n - 1));
    }
  }

  /** Only the first answer starts early. */
  predicate First(i: nat) {
    i == 0
  }

  lemma {:induction false} FirstThenNever(s: State, conn: Conn, n: nat)
    ensures Turns(s, conn, First, n + 1) == Turns(Turn(s, conn, true), conn, Never, n)
    decreases n
  {
    hide Turn;
    if n == 0 {
      assert Turns(s, conn, First, 0) == s;
    } else {
      FirstThenNever(s, conn, n - 1);
    }
  }

  /** From every reachable state, rounds on a connection can bring its offset to the end of the log, some of
      their answers starting early, if and only if no message of the log fills its file and the connection is
      not stuck. */
  lemma CanCatchUpExactly(y: Layout, events: seq<Event>, conn: Conn)
    ensures var s := Run(y, events);
      (exists early :: Reaches(s, conn, early)) <==>
      !Stuck(s, conn) && forall f :: 0 <= f < |s.log| ==> !s.layout.full(f)
  {
    var s := Run(y, events);
    if !Blocked(s, conn) {
      var n := Onward(y, events, conn, Never, 1);
      ReachesAt(s, conn, Never, n);
    } else if !Stuck(s, conn) && forall f :: 0 <= f < |s.log| ==> !s.layout.full(f) {
      Freed(y, events, conn);
    } else {
      forall early
        ensures !Reaches(s, conn, early)
      {
        StuckReaches(y, events, conn, early);
      }
    }
  }

  lemma Unblocked(s: State, t: State, conn: Conn)
    requires SameLog(s, t) && !Wedge(t, conn) && forall f :: 0 <= f < |s.log| ==> !s.layout.full(f)
    ensures !Blocked(t, conn) && t.log == s.log
  {
    hide Wedge;
  }

  lemma Freed(y: Layout, events: seq<Event>, conn: Conn)
    requires var s := Run(y, events);
      Wedge(s, conn) && !Stuck(s, conn) && forall f :: 0 <= f < |s.log| ==> !s.layout.full(f)
    ensures Reaches(Run(y, events), conn, First)
  {
    hide *;
    var s := Run(y, events);
    RunInv(y, events);
    TurnFrees(s, conn);
    Unblocked(s, Turn(s, conn, true), conn);
    var more := TurnGo(s, conn, true);
    RunGo(y, events, more);
    var n := Onward(y, events + more, conn, Never, 1);
    FirstThenNever(s, conn, n);
    ReachesAt(s, conn, First, n + 1);
  }

  lemma StuckReaches(y: Layout, events: seq<Event>, conn: Conn, early: nat -> bool)
    requires var s := Run(y, events); Stuck(s, conn) || exists f :: 0 <= f < |s.log| && s.layout.full(f)
    ensures !Reaches(Run(y, events), conn, early)
  {
    var s := Run(y, events);
    hide Run;
    hide Turn;
    forall n: nat
      ensures LocalOffset(Turns(s, conn, early, n).consumer, conn) != |s.log|
    {
      if Stuck(s, conn) {
        StuckForEver(y, events, conn, early, n);
      } else {
        var f :| 0 <= f < |s.log| && s.layout.full(f);
        FullTurns(y, events, conn, early, n, f);
      }
    }
  }

  /** An answer under way on the connection that can have no effect. */
  ghost predicate Idle(s: State, r: Reply) {
    r.Packets? && r.start >= 1 && Known(s, r.start, r.start + r.count)
  }

  /** A stuck connection whose committed message lies in a file that is full, with nothing under way that
      could help. */
  ghost predicate Wedged(s: State, conn: Conn) {
    && Stuck(s, conn)
    && Ends(s.layout, SegmentEnd(s.layout, |s.log|, s.committed) - 1)
    && Known(s, s.committed - 1, s.committed)
    && (forall n :: n in s.commits ==> n <= s.committed)
    && (forall p :: p in s.pulls && p.conn == conn ==> p.offset == 0)
    && (forall i :: 0 <= i < |s.replies| && s.replies[i].conn == conn ==> Idle(s, s.replies[i]))
  }

  lemma {:induction false} SegmentEndStays(y: Layout, n: nat, m: nat, o: nat)
    requires o < n <= m && Ends(y, SegmentEnd(y, n, o) - 1)
    ensures SegmentEnd(y, m, o) == SegmentEnd(y, n, o) && SendEnd(y, m, o) == SendEnd(y, n, o)
    decreases n - o
  {
    if Ends(y, o) || o + 1 == n {
    } else {
      SegmentEndStays(y, n, m, o + 1);
    }
  }

  /** The answer to any pull of the connection can have no effect. */
  lemma WedgedAnswer(s: State, conn: Conn, pull: Pull, early: bool, count: nat)
    requires Wedged(s, conn) && pull in s.pulls && pull.conn == conn && Enabled(s, Serves(pull, early, count))
    ensures Idle(s, Answer(s, pull, early, count))
  {
    assert Asked(s, pull) == s.committed;
    hide SendEnd;
    hide SegmentEnd;
  }

  lemma WedgedReceives(s: State, conn: Conn, i: nat)
    requires Wedged(s, conn) && Enabled(s, Receives(i)) && s.replies[i].conn == conn
    ensures var t := Apply(s, Receives(i)); t.consumer == s.consumer && Wedged(t, conn)
  {
    var t := Apply(s, Receives(i));
    hide SendEnd;
    hide SegmentEnd;
    assert Idle(s, s.replies[i]);
    assert forall k :: 0 <= k < |t.replies| && k != i ==> t.replies[k] == s.replies[k];
    assert Idle(t, t.replies[i]);
  }

  lemma WedgedAppends(s: State, conn: Conn, t: State)
    requires Wedged(s, conn) && s.log <= t.log
    requires t == s.(log := t.log, put := t.put, producer := t.producer, deliveries := t.deliveries, acks := t.acks)
    ensures Wedged(t, conn)
  {
    SegmentEndStays(s.layout, |s.log|, |t.log|, s.committed);
    hide SendEnd;
    hide SegmentEnd;
    hide Ends;
    forall a, b | Known(s, a, b)
      ensures Known(t, a, b)
    {
      KnownStays(s, t, a, b);
    }
    hide Known;
  }

  lemma KnownStays(s: State, t: State, a: nat, b: nat)
    requires Known(s, a, b) && s.log <= t.log && t.consumer == s.consumer
    ensures Known(t, a, b)
  {
  }

  /** The event is not the arrival of an answer on another connection. */
  predicate On(s: State, v: Event, conn: Conn) {
    v.Receives? && v.i < |s.replies| ==> s.replies[v.i].conn == conn
  }

  lemma WedgedPulls(s: State, conn: Conn, c: Conn)
    requires Wedged(s, conn)
    ensures var t := Step(s, Pulls(c)); t.consumer == s.consumer && t.committed == s.committed && Wedged(t, conn)
  {
    hide SendEnd;
    hide SegmentEnd;
  }

  lemma WedgedServes(s: State, conn: Conn, pull: Pull, early: bool, count: nat)
    requires Wedged(s, conn) && Enabled(s, Serves(pull, early, count))
    ensures var t := Apply(s, Serves(pull, early, count));
      t.consumer == s.consumer && t.committed == s.committed && Wedged(t, conn)
  {
    hide SendEnd;
    hide SegmentEnd;
    if pull.conn == conn {
      WedgedAnswer(s, conn, pull, early, count);
    }
    assert Answer(s, pull, early, count).conn == pull.conn;
    hide Answer;
    hide Asked;
  }

  lemma WedgedStep(s: State, conn: Conn, v: Event)
    requires Wedged(s, conn) && On(s, v, conn)
    ensures var t := Step(s, v); t.consumer == s.consumer && t.committed == s.committed && Wedged(t, conn)
  {
    if Enabled(s, v) {
      hide SendEnd;
      hide SegmentEnd;
      match v
      case Pulls(c) => WedgedPulls(s, conn, c);
      case Serves(pull, early, count) => WedgedServes(s, conn, pull, early, count);
      case Receives(i) => WedgedReceives(s, conn, i);
      case Commits(_) =>
      case BrokerCommits(offset) =>
      case _ =>
        WedgedAppends(s, conn, Step(s, v));
        hide Wedged;
    }
  }

  /** Along the events no answer arrives on another connection. */
  ghost predicate AllOn(s: State, es: seq<Event>, conn: Conn)
    decreases |es|
  {
    es == [] || (On(s, es[0], conn) && AllOn(Step(s, es[0]), es[1..], conn))
  }

  /** Whatever producer, broker, network and this connection then do, and whatever is put later, the application
      is never handed anything again and nothing moves its offsets, as long as no answer arrives on another one. */
  lemma {:induction false} StaysWedged(s: State, conn: Conn, es: seq<Event>)
    requires Wedged(s, conn) && AllOn(s, es, conn)
    ensures Go(s, es).consumer == s.consumer && Go(s, es).committed == s.committed && Wedged(Go(s, es), conn)
    decreases |es|
  {
    if es != [] {
      WedgedStep(s, conn, es[0]);
      hide Wedged;
      hide Step;
      StaysWedged(Step(s, es[0]), conn, es[1..]);
    }
  }

  /** Two messages, of which the second is delivered twice and fills the file with that. */
  lemma TwiceInLog(y: Layout) returns (events: seq<Event>)
    ensures var s := Run(y, events);
      s == Init(y).(put := [0, 1], log := [0, 1, 1],
        producer := s.producer, deliveries := s.deliveries, acks := s.acks)
  {
    var s := Init(y);
    var s1 := Step(s, Puts(0));
    var s2 := Step(s1, Puts(1));
    var s3 := Step(s2, Grabs);
    var s4 := Step(s3, Sends(true));
    var s5 := Step(s4, Sends(true));
    var s6 := Step(s5, Appends(0));
    var s7 := Step(s6, Appends(1));
    var s8 := Step(s7, Appends(1));
    events := [Puts(0), Puts(1), Grabs, Sends(true), Sends(true), Appends(0), Appends(1), Appends(1)];
    assert s3.producer.queue == [0, 1];
    assert s5.deliveries == {0, 1};
    assert s8.log == [0, 1, 1];
    hide Step;
    GoNothing(s8);
    GoTo(s7, s8, Appends(1), events[7..]);
    GoTo(s6, s8, Appends(1), events[6..]);
    GoTo(s5, s8, Appends(0), events[5..]);
    GoTo(s4, s8, Sends(true), events[4..]);
    GoTo(s3, s8, Sends(true), events[3..]);
    GoTo(s2, s8, Grabs, events[2..]);
    GoTo(s1, s8, Puts(1), events[1..]);
    GoTo(s, s8, Puts(0), events);
    FromInit(y, events);
  }

  lemma GoTo(s: State, t: State, v: Event, es: seq<Event>)
    requires es != [] && es[0] == v && Go(Step(s, v), es[1..]) == t
    ensures Go(s, es) == t
  {
  }

  lemma FromInit(y: Layout, events: seq<Event>)
    ensures Run(y, events) == Go(Init(y), events)
  {
    hide Step;
    RunGo(y, [], events);
    assert [] + events == events;
  }

  /** The log of `TwiceInLog`, and one answer with the whole of it on connection `was`, handled to `next`. */
  ghost predicate Reading(y: Layout, s: State, was: Conn, next: nat, c: Consumer) {
    && s.layout == y && s.put == [0, 1] && s.log == [0, 1, 1] && s.committed == 0 && s.commits == {}
    && s.pulls == {Pull(was, 0)} && s.replies == [Packets(was, 0, 3, next)] && s.consumer == c
  }

  lemma AllSent(y: Layout)
    requires !Ends(y, 0) && !Ends(y, 1) && y.last(2) && !y.full(2)
    ensures SendEnd(y, 3, 0) == 3 && SegmentEnd(y, 3, 2) == 3 && SendEnd(y, 3, 2) == 3 && Ends(y, 2)
  {
    assert SegmentEnd(y, 3, 0) == SegmentEnd(y, 3, 1) == SegmentEnd(y, 3, 2);
  }

  lemma ReadingStarts(y: Layout, s: State, was: Conn)
    requires !Ends(y, 0) && !Ends(y, 1) && y.last(2) && !y.full(2)
    requires s == Init(y).(put := [0, 1], log := [0, 1, 1],
      producer := s.producer, deliveries := s.deliveries, acks := s.acks)
    ensures Reading(y, Step(Step(s, Pulls(was)), Serves(Pull(was, 0), false, 3)), was, 0, Init(y).consumer)
  {
    AllSent(y);
  }

  lemma ReadingGoes(y: Layout, s: State, was: Conn, next: nat, c: Consumer)
    requires Reading(y, s, was, next, c) && next < 3
    ensures Reading(y, Step(s, Receives(0)), was, next + 1, Receive(c, was, [0, 1, 1][next], next))
  {
    hide Receive;
  }

  lemma WedgedAt(y: Layout, s: State, was: Conn, conn: Conn)
    requires was != conn && !Ends(y, 0) && !Ends(y, 1) && y.last(2) && !y.full(2)
    requires Reading(y, s, was, 3, Consumer(map[], {0, 1}, [(0, 0), (1, 1)], [0, 1]))
    ensures var t := Step(Step(s, Commits(was)), BrokerCommits(2));
      && Wedged(t, conn) && t.put == [0, 1] && t.log == [0, 1, 1] && t.committed == 2
      && t.consumer.handed == [0, 1]
  {
    AllSent(y);
    hide SendEnd;
    hide SegmentEnd;
  }

  /** It is pulled whole on connection `was`, all of it is received, and the offset 2 behind the first delivery of
      the second message is committed and stored: every other connection is wedged then. */
  lemma WedgeHappens(y: Layout, was: Conn, conn: Conn) returns (events: seq<Event>)
    requires was != conn && !Ends(y, 0) && !Ends(y, 1) && y.last(2) && !y.full(2)
    ensures var s := Run(y, events);
      Wedged(s, conn) && s.put == [0, 1] && s.log == [0, 1, 1] && s.committed == 2 && s.consumer.handed == [0, 1]
  {
    var filled := TwiceInLog(y);
    var s := Run(y, filled);
    var serve := Serves(Pull(was, 0), false, 3);
    var s1 := Step(s, Pulls(was));
    var s2 := Step(s1, serve);
    ReadingStarts(y, s, was);
    var s3, s4 := Step(s2, Receives(0)), Step(Step(s2, Receives(0)), Receives(0));
    var c0 := Init(y).consumer;
    var c1 := Receive(c0, was, 0, 0);
    var c2 := Receive(c1, was, 1, 1);
    ReadingGoes(y, s2, was, 0, c0);
    ReadingGoes(y, s3, was, 1, c1);
    ReadingGoes(y, s4, was, 2, c2);
    var s5 := Step(s4, Receives(0));
    WedgedAt(y, s5, was, conn);
    var s6 := Step(s5, Commits(was));
    var s7 := Step(s6, BrokerCommits(2));
    var es := [Pulls(was), serve, Receives(0), Receives(0), Receives(0), Commits(was), BrokerCommits(2)];
    hide *;
    GoNothing(s7);
    GoTo(s6, s7, BrokerCommits(2), es[6..]);
    GoTo(s5, s7, Commits(was), es[5..]);
    GoTo(s4, s7, Receives(0), es[4..]);
    GoTo(s3, s7, Receives(0), es[3..]);
    GoTo(s2, s7, Receives(0), es[2..]);
    GoTo(s1, s7, serve, es[1..]);
    GoTo(s, s7, Pulls(was), es);
    RunGo(y, filled, es);
    events := filled + es;
  }

  /* ---------- the two ends, in place ---------- */

  /** `SendFront` until nothing is left in `queue`. */
  function SendAll(p: Producer): Producer
    decreases |p.queue|
  {
    if p.queue == [] then p else SendAll(SendFront(p))
  }

  /** After the loop of `sendInLoop` every message that was queued waits for its acknowledgement. */
  lemma {:induction false} SendAllWaits(p: Producer)
    ensures SendAll(p) == Producer(p.sendQueue, [], p.resend + set id | id in p.queue)
    decreases |p.queue|
  {
    if p.queue == [] {
    } else {
      SendAllWaits(SendFront(p));
      assert (set id | id in p.queue) == {p.queue[0]} + set id | id in p.queue[1..];
    }
  }

  lemma SendAllStep(p: Producer)
    ensures SendAll(p) == if p.queue == [] then p else SendAll(SendFront(p))
  {
  }

  lemma FrontSent(p: Producer, r: Producer)
    requires p.queue != [] && r.sendQueue == p.sendQueue && r.queue == p.queue[1..]
    requires r.resend == if p.queue[0] in p.resend then p.resend else p.resend + {p.queue[0]}
    ensures r == SendFront(p)
  {
    assert p.queue[0] in p.resend ==> p.resend == p.resend + {p.queue[0]};
  }

  lemma OneMoved(a: seq<Id>, b: seq<Id>)
    requires b != []
    ensures a + [b[0]] + b[1..] == a + b
  {
  }

  function IdsOf(ids: seq<Id>): (r: set<Id>)
    ensures forall id :: id in r <==> id in ids
  {
    set id | id in ids
  }

  class ProducerNode {
    var sendQueue: seq<Id>
    var queue: seq<Id>
    var resend: set<Id>

    ghost function State(): Producer
      reads this
    {
      Producer(sendQueue, queue, resend)
    }

    constructor ()
      ensures State() == Producer([], [], {})
    {
      sendQueue, queue, resend := [], [], {};
    }

    method PutMessage(id: Id)
      modifies this
      ensures State() == Put(old(State()), id)
      ensures sendQueue == old(sendQueue) + [id] && queue == old(queue) && resend == old(resend)
    {
      sendQueue := sendQueue + [id];
    }

    /** `sent` is what goes to the connection, if there is one. */
    method SendInLoop(connected: bool) returns (sent: seq<Id>)
      requires queue == []
      modifies this
      ensures State() == SendAll(Grab(old(State())))
      ensures sendQueue == [] && queue == [] && resend == old(resend) + IdsOf(old(sendQueue))
      ensures sent == if connected then old(sendQueue) else []
    {
      hide SendAll;
      hide SendFront;
      queue := sendQueue;
      sendQueue := [];
      sent := [];
      while queue != []
        invariant SendAll(State()) == SendAll(Grab(old(State())))
        invariant sendQueue == [] && resend + IdsOf(queue) == old(resend) + IdsOf(old(sendQueue))
        invariant if connected then sent + queue == old(sendQueue) else sent == []
        decreases |queue|
      {
        ghost var p, before := State(), sent;
        SendAllStep(p);
        var front := queue[0];
        if connected {
          sent := sent + [front];
        }
        if front !in resend {
          resend := resend + {front};
        }
        queue := queue[1..];
        assert IdsOf(p.queue) == {front} + IdsOf(queue);
        FrontSent(p, State());
        if connected {
          OneMoved(before, p.queue);
        }
      }
      SendAllStep(State());
    }

    /** `checkReSendSetTimer` up to the call of `sendInLoop`: the whole resend set is queued again. */
    method QueueResends() returns (order: seq<Id>)
      modifies this`sendQueue
      ensures IdsOf(order) == resend && sendQueue == old(sendQueue) + order
    {
      order := [];
      var rest := resend;
      while rest != {}
        invariant rest <= resend && IdsOf(order) == resend - rest
        decreases rest
      {
        ghost var before, was := order, rest;
        var id :| id in rest;
        rest := rest - {id};
        order := order + [id];
        assert IdsOf(order) == IdsOf(before) + {id};
        assert resend - rest == (resend - was) + {id};
      }
      sendQueue := sendQueue + order;
    }

    method HandleDelivery(id: Id)
      modifies this`resend
      ensures State() == Acknowledged(old(State()), id)
      ensures resend == old(resend) - {id}
    {
      resend := resend - {id};
    }

    /** The loop of `onMessageFromMqBroker` over acknowledgements. */
    method OnAcks(acks: seq<Id>)
      modifies this`resend
      ensures resend == old(resend) - IdsOf(acks)
    {
      var i := 0;
      while i < |acks|
        invariant i <= |acks|
        invariant resend == old(resend) - IdsOf(acks[..i])
      {
        HandleDelivery(acks[i]);
        assert acks[..i + 1] == acks[..i] + [acks[i]];
        assert IdsOf(acks[..i + 1]) == IdsOf(acks[..i]) + {acks[i]};
        i := i + 1;
      }
      assert acks[..i] == acks;
    }
  }

  /** A packet as `handlePull` of the consumer tells them apart, by its return code. */
  datatype Packet = PastEnd(offset: nat) | Message(id: Id, offset: nat)

  function HandlePacket(c: Consumer, conn: Conn, m: Packet): Consumer {
    match m
    case PastEnd(offset) => CaughtUp(c, conn, offset)
    case Message(id, offset) => Receive(c, conn, id, offset)
  }

  function HandlePackets(c: Consumer, conn: Conn, packets: seq<Packet>): Consumer
    decreases |packets|
  {
    if packets == [] then c else HandlePackets(HandlePacket(c, conn, packets[0]), conn, packets[1..])
  }

  /** Messages `a` to `b` of the log as packets. */
  function Messages(log: seq<Id>, a: nat, b: nat): (r: seq<Packet>)
    requires a <= b <= |log|
    ensures |r| == b - a && forall k :: 0 <= k < b - a ==> r[k] == Message(log[a + k], a + k)
    decreases b - a
  {
    if a == b then [] else [Message(log[a], a)] + Messages(log, a + 1, b)
  }

  /** What the packets of an answer do one by one is what the loop over them does. */
  lemma {:induction false} LoopIsHandles(s: State, conn: Conn, i: nat, a: nat, n: nat)
    requires Has(s, conn, i, a, n)
    ensures Handles(s, i, n).consumer == HandlePackets(s.consumer, conn, Messages(s.log, a, a + n))
    decreases n
  {
    if n > 0 {
      var t := Step(s, Receives(i));
      HandlesOne(s, conn, i, a, n);
      LoopIsHandles(t, conn, i, a + 1, n - 1);
      hide Step;
      hide Receive;
      assert Messages(s.log, a, a + n)[1..] == Messages(s.log, a + 1, a + n);
    }
  }

  class ConsumerNode {
    var local: map<Conn, nat>
    var ids: set<Id>
    var received: seq<(Id, nat)>
    ghost var handed: seq<Id>

    ghost function State(): Consumer
      reads this
    {
      Consumer(local, ids, received, handed)
    }

    constructor ()
      ensures State() == Consumer(map[], {}, [], [])
    {
      local, ids, received, handed := map[], {}, [], [];
    }

    method HandlePull(conn: Conn, m: Packet)
      modifies this
      ensures State() == HandlePacket(old(State()), conn, m)
      ensures m.PastEnd? ==>
        local == old(local)[conn := m.offset] && ids == old(ids) && received == old(received) && handed == old(handed)
      ensures m.Message? && m.id !in old(ids) ==>
        && local == old(local) && ids == old(ids) + {m.id}
        && received == old(received) + [(m.id, m.offset)] && handed == old(handed) + [m.id]
      ensures m.Message? && m.id in old(ids) ==>
        && ids == old(ids) && received == old(received) && handed == old(handed)
        && local == if m.offset == (if conn in old(local) then old(local)[conn] else 0)
                    then old(local)[conn := m.offset + 1] else old(local)
    {
      match m
      case PastEnd(offset) => local := local[conn := offset];
      case Message(id, offset) =>
        if id !in ids {
          ids := ids + {id};
          received := received + [(id, offset)];
          handed := handed + [id];
        } else if offset == if conn in local then local[conn] else 0 {
          local := local[conn := offset + 1];
        }
    }

    /** The loop of `onMessageFromMqBroker`. */
    method OnPackets(conn: Conn, packets: seq<Packet>)
      modifies this
      ensures State() == HandlePackets(old(State()), conn, packets)
    {
      var i := 0;
      while i < |packets|
        invariant i <= |packets|
        invariant HandlePackets(State(), conn, packets[i..]) == HandlePackets(old(State()), conn, packets)
      {
        assert packets[i..][1..] == packets[i + 1..];
        HandlePull(conn, packets[i]);
        i := i + 1;
      }
    }

    method CommitReceived(conn: Conn) returns (offset: Option<nat>)
      modifies this
      ensures State() == Commit(old(State()), conn) && offset == CommitOffset(old(State()))
      ensures ids == old(ids) && handed == old(handed) && received == []
      ensures old(received) == [] ==> offset == None && local == old(local)
      ensures old(received) != [] ==>
        offset == Some(old(received)[|old(received)| - 1].1 + 1) && local == old(local)[conn := offset.value]
    {
      if received == [] {
        return None;
      }
      offset := Some(received[|received| - 1].1 + 1);
      local := local[conn := offset.value];
      received := [];
    }
  }
}
