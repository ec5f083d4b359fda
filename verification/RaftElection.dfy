/**
 Leader election of the Raft node in example/raft_server/raft.cc.

 The first half gives every handler twice: as a function on the value of one node (what the
 handler computes and which datagrams it sends) and, in class `RaftNode`, as the loop-and-assign
 method, proved equal to that function.  The second half runs N such nodes over a network that
 may lose, duplicate and reorder datagrams, and proves what every run keeps.

 The log is seen only through the index and the term of its last entry, which is all that an
 election looks at; `RaftLog.dfy` has the log itself.
 */
module RaftElection {
  import opened Wrappers

  const NOBODY := -1

  datatype Role = Follower | Candidate | Leader

  /** `up` is the fixed set of peers for which `peerUp` was called, the node itself included;
      `firstTimers` are the timeouts that the nodes drew when they started. */
  datatype Config = Config(peerNumMax: nat, up: set<nat>, heartbeatMs: int, electionMsMax: int, firstTimers: seq<int>) {
    predicate Valid() {
      && |firstTimers| == peerNumMax
      && forall i <- up :: i < peerNumMax
    }

    function PeerNum(): nat {
      |up|
    }
  }

  datatype Peer = Peer(sequence: int, silentMs: int)

  datatype Node = Node(me: nat, term: int, voteFor: int, role: Role, votes: int, leaderId: int, timer: int,
                       peers: seq<Peer>, lastIndex: int, lastTerm: int)

  /** The four datagrams, with the fields that an election reads. */
  datatype Msg =
    | Claim(term: int, from: nat, to: nat, sequence: int, index: int, lastTerm: int)
    | Vote(term: int, from: nat, to: nat, sequence: int, granted: bool)
    | Update(term: int, from: nat, to: nat, sequence: int)
    | Done(term: int, from: nat, to: nat, sequence: int, success: bool)

  /** What a handler takes from outside the election: the random timeout it would draw and how
      the log answers. */
  datatype Env = Env(rnd: int, appendable: bool, accepted: bool, behind: bool)

  datatype Out = Out(node: Node, sent: set<Msg>)

  predicate Sound(cfg: Config, n: Node) {
    && cfg.Valid()
    && |n.peers| == cfg.peerNumMax
    && n.me in cfg.up
  }

  /* ---------- the handlers as functions on one node ---------- */

  function ResetTimer(cfg: Config, n: Node, rnd: int): Node {
    if n.role == Leader then
      n.(timer := if n.timer == cfg.heartbeatMs then n.timer + cfg.heartbeatMs else cfg.heartbeatMs)
    else
      n.(timer := rnd)
  }

  function SetTerm(n: Node, term: int): Node {
    n.(term := term, voteFor := NOBODY, votes := 0)
  }

  predicate HasQuorum(cfg: Config, votes: int) {
    votes * 2 > cfg.PeerNum()
  }

  function BecomeLeader(cfg: Config, n: Node, rnd: int): Node {
    if HasQuorum(cfg, n.votes) then
      var silenced := seq(|n.peers|, i requires 0 <= i < |n.peers| => n.peers[i].(silentMs := 0));
      ResetTimer(cfg, n.(role := Leader, leaderId := n.me, peers := silenced), rnd)
    else
      n
  }

  predicate Others(cfg: Config, n: Node, i: nat) {
    i in cfg.up && i != n.me
  }

  /** `p->sequence++` for every other peer that is up, among the first `count`. */
  function Bumped(cfg: Config, n: Node, count: nat): seq<Peer> {
    seq(|n.peers|, i requires 0 <= i < |n.peers| =>
      if i < count && Others(cfg, n, i) then n.peers[i].(sequence := n.peers[i].sequence + 1) else n.peers[i])
  }

  function ClaimTo(n: Node, i: nat): Msg
    requires i < |n.peers|
  {
    Claim(n.term, n.me, i, n.peers[i].sequence + 1, n.lastIndex, n.lastTerm)
  }

  function UpdateTo(n: Node, i: nat): Msg
    requires i < |n.peers|
  {
    Update(n.term, n.me, i, n.peers[i].sequence + 1)
  }

  /** `claim`: vote for oneself, without recording it in `voteFor`, and ask every other peer. */
  function OnClaimLeadership(cfg: Config, n: Node, rnd: int): Out
    requires Sound(cfg, n)
  {
    var n1 := n.(votes := 1);
    if HasQuorum(cfg, 1) then
      Out(BecomeLeader(cfg, n1, rnd), {})
    else
      Out(n1.(peers := Bumped(cfg, n1, |n1.peers|)), set i | i in cfg.up && i != n.me :: ClaimTo(n1, i))
  }

  /** `beat(NOBODY)`: one datagram for every other peer. */
  function OnBeatAll(cfg: Config, n: Node): Out
    requires Sound(cfg, n)
  {
    Out(n.(peers := Bumped(cfg, n, |n.peers|)), set i | i in cfg.up && i != n.me :: UpdateTo(n, i))
  }

  /** The peers among the first `count` heard of within `electionMsMax`, not counting the node itself. */
  function RecentPeers(cfg: Config, n: Node, count: nat): set<nat>
    requires count <= |n.peers|
  {
    set i | 0 <= i < count && Others(cfg, n, i) && n.peers[i].silentMs + cfg.heartbeatMs < cfg.electionMsMax
  }

  function Aged(cfg: Config, n: Node, count: nat): seq<Peer> {
    seq(|n.peers|, i requires 0 <= i < |n.peers| =>
      if i < count && Others(cfg, n, i) then n.peers[i].(silentMs := n.peers[i].silentMs + cfg.heartbeatMs)
      else n.peers[i])
  }

  /** `checkIsLeaderWithMs`: a leader that no longer hears a majority demotes itself. */
  function CheckQuorum(cfg: Config, n: Node): Node
    requires Sound(cfg, n)
  {
    var recent := 1 + |RecentPeers(cfg, n, |n.peers|)|;
    var n1 := n.(peers := Aged(cfg, n, |n.peers|));
    if n.role == Leader && recent * 2 <= cfg.PeerNum() then n1.(leaderId := NOBODY, role := Follower) else n1
  }

  function OnTimeout(cfg: Config, n: Node, rnd: int): Out
    requires Sound(cfg, n)
  {
    match n.role
    case Follower => OnClaimLeadership(cfg, n.(leaderId := NOBODY, role := Candidate, term := n.term + 1), rnd)
    case Candidate => OnClaimLeadership(cfg, n.(term := n.term + 1), rnd)
    case Leader => OnBeatAll(cfg, n)
  }

  function OnTick(cfg: Config, n: Node, msec: int, rnd: int): Out
    requires Sound(cfg, n)
  {
    var n1 := n.(timer := n.timer - msec);
    if n1.timer < 0 then
      var o := OnTimeout(cfg, n1, rnd);
      Out(CheckQuorum(cfg, ResetTimer(cfg, o.node, rnd)), o.sent)
    else
      Out(CheckQuorum(cfg, n1), {})
  }

  /** The candidate's log is not older than ours, as the voter judges it: index first, term only on a tie. */
  predicate UpToDate(n: Node, index: int, lastTerm: int) {
    index >= n.lastIndex && !(index == n.lastIndex && index >= 0 && n.lastTerm != lastTerm)
  }

  function OnClaim(cfg: Config, n: Node, m: Msg, rnd: int): Out
    requires m.Claim?
  {
    var n1 :=
      if m.term > n.term then SetTerm(n, m.term).(role := Follower)
      else if m.term == n.term then n.(role := Follower)
      else n;
    var granted := m.term >= n1.term && UpToDate(n1, m.index, m.lastTerm)
        && (n1.voteFor == NOBODY || n1.voteFor == m.from);
    var n2 := if granted then ResetTimer(cfg, n1.(voteFor := m.from), rnd) else n1;
    Out(n2, {Vote(n2.term, n2.me, m.from, m.sequence, granted)})
  }

  function OnVote(cfg: Config, n: Node, m: Msg, rnd: int): Node
    requires m.Vote? && m.from < |n.peers|
  {
    var p := n.peers[m.from];
    if m.sequence != p.sequence then n
    else
      var n1 := n.(peers := n.peers[m.from := p.(sequence := p.sequence + 1)]);
      if m.term < n.term || n.role != Candidate then n1
      else BecomeLeader(cfg, if m.granted then n1.(votes := n1.votes + 1) else n1, rnd)
  }

  function OnUpdate(cfg: Config, n: Node, m: Msg, env: Env): Out
    requires m.Update? && m.from < |n.peers|
  {
    if !env.appendable || m.term < n.term then
      Out(n, {Done(n.term, n.me, m.from, m.sequence, false)})
    else
      var n1 := n.(leaderId := m.from, peers := n.peers[m.from := n.peers[m.from].(silentMs := 0)]);
      Out(ResetTimer(cfg, n1, env.rnd), {Done(n.term, n.me, m.from, m.sequence, env.accepted)})
  }

  function OnDone(n: Node, m: Msg, env: Env): Out
    requires m.Done? && m.from < |n.peers|
  {
    var p := n.peers[m.from];
    if n.role != Leader || m.from == n.me || m.sequence != p.sequence then Out(n, {})
    else
      var p1 := p.(sequence := p.sequence + 1);
      var n1 := n.(peers := n.peers[m.from := p1]);
      if m.term < n.term then Out(n1, {})
      else
        var p2 := if m.success then p1.(silentMs := 0) else p1;
        if env.behind then
          Out(n.(peers := n.peers[m.from := p2.(sequence := p2.sequence + 1)]),
              {Update(n.term, n.me, m.from, p2.sequence + 1)})
        else
          Out(n.(peers := n.peers[m.from := p2]), {})
  }

  function OnMessage(cfg: Config, n: Node, m: Msg, env: Env): Out
    requires Sound(cfg, n) && m.from < cfg.peerNumMax
  {
    var n1 := if m.term > n.term then SetTerm(n, m.term).(role := Follower) else n;
    match m
    case Claim(_, _, _, _, _, _) => OnClaim(cfg, n1, m, env.rnd)
    case Vote(_, _, _, _, _) => Out(OnVote(cfg, n1, m, env.rnd), {})
    case Update(_, _, _, _) => OnUpdate(cfg, n1, m, env)
    case Done(_, _, _, _, _) => OnDone(n1, m, env)
  }

  /** `emit` at a leader with room in the log: a new last entry of the current term, then a beat. */
  function OnEmit(cfg: Config, n: Node, rnd: int): Out
    requires Sound(cfg, n)
  {
    if n.role == Leader then
      var o := OnBeatAll(cfg, n.(lastIndex := n.lastIndex + 1, lastTerm := n.term));
      Out(ResetTimer(cfg, o.node, rnd), o.sent)
    else
      Out(n, {})
  }

  /* ---------- what the handlers do, field by field ---------- */

  /** Equal but for the fields that an election does not decide on. */
  ghost predicate SameVote(n: Node, n': Node) {
    && n'.me == n.me && n'.term == n.term && n'.voteFor == n.voteFor
    && n'.lastIndex == n.lastIndex && n'.lastTerm == n.lastTerm
  }

  /** The timer: a leader's alternates between one heartbeat and two, anybody else's is drawn. */
  lemma TimerIs(cfg: Config, n: Node, rnd: int)
    ensures var n' := ResetTimer(cfg, n, rnd);
      && SameVote(n, n') && n'.role == n.role && n'.votes == n.votes && n'.leaderId == n.leaderId && n'.peers == n.peers
      && (n.role != Leader ==> n'.timer == rnd)
      && (n.role == Leader ==>
            n'.timer == if n.timer == cfg.heartbeatMs then 2 * cfg.heartbeatMs else cfg.heartbeatMs)
  {
  }

  /** A candidate becomes leader exactly when its votes are more than half of the peers that are up. */
  lemma LeaderExactly(cfg: Config, n: Node, rnd: int)
    ensures var n' := BecomeLeader(cfg, n, rnd);
      if n.votes * 2 > |cfg.up| then
        && SameVote(n, n') && n'.role == Leader && n'.leaderId == n.me && n'.votes == n.votes && |n'.peers| == |n.peers|
        && n'.timer == (if n.timer == cfg.heartbeatMs then 2 * cfg.heartbeatMs else cfg.heartbeatMs)
        && forall i :: 0 <= i < |n.peers| ==> n'.peers[i] == Peer(n.peers[i].sequence, 0)
      else n' == n
  {
  }

  /** Standing for a term: one vote, and a claim with the end of the log and a number of its own to every other peer
      that is up; alone in the cluster, at once a leader. */
  lemma ClaimsSent(cfg: Config, n: Node, rnd: int)
    requires Sound(cfg, n)
    ensures var o := OnClaimLeadership(cfg, n, rnd);
      && SameVote(n, o.node) && o.node.votes == 1 && |o.node.peers| == |n.peers|
      && if |cfg.up| < 2 then o.sent == {} && o.node.role == Leader && o.node.leaderId == n.me
         else
           && o.node.role == n.role && o.node.leaderId == n.leaderId && o.node.timer == n.timer
           && (forall i :: i in cfg.up && i != n.me ==>
                 o.node.peers[i] == Peer(n.peers[i].sequence + 1, n.peers[i].silentMs)
                 && Claim(n.term, n.me, i, n.peers[i].sequence + 1, n.lastIndex, n.lastTerm) in o.sent)
           && (forall i :: 0 <= i < |n.peers| && (i !in cfg.up || i == n.me) ==> o.node.peers[i] == n.peers[i])
           && forall m <- o.sent :: m.Claim? && m.to in cfg.up && m.to != n.me
                && m == Claim(n.term, n.me, m.to, n.peers[m.to].sequence + 1, n.lastIndex, n.lastTerm)
  {
    forall i | i in cfg.up && i != n.me
      ensures ClaimTo(n, i) in OnClaimLeadership(cfg, n, rnd).sent || |cfg.up| < 2
    {
      assert ClaimTo(n.(votes := 1), i) == ClaimTo(n, i);
    }
    LeaderExactly(cfg, n.(votes := 1), rnd);
  }

  /** A leader's beat: one update with a number of its own to every other peer that is up. */
  lemma BeatsSent(cfg: Config, n: Node)
    requires Sound(cfg, n)
    ensures var o := OnBeatAll(cfg, n);
      && o.node == n.(peers := o.node.peers) && |o.node.peers| == |n.peers|
      && (forall i :: i in cfg.up && i != n.me ==>
            o.node.peers[i] == Peer(n.peers[i].sequence + 1, n.peers[i].silentMs)
            && Update(n.term, n.me, i, n.peers[i].sequence + 1) in o.sent)
      && (forall i :: 0 <= i < |n.peers| && (i !in cfg.up || i == n.me) ==> o.node.peers[i] == n.peers[i])
      && forall m <- o.sent :: m.Update? && m.to in cfg.up && m.to != n.me
           && m == Update(n.term, n.me, m.to, n.peers[m.to].sequence + 1)
  {
    forall i | i in cfg.up && i != n.me
      ensures UpdateTo(n, i) in OnBeatAll(cfg, n).sent
    {
    }
  }

  /** Each other peer that is up has been silent for a heartbeat longer; a leader that has heard less than a majority
      recently, itself included, steps down. */
  lemma QuorumChecked(cfg: Config, n: Node)
    requires Sound(cfg, n)
    ensures var n', recent := CheckQuorum(cfg, n),
        set i | i in cfg.up && i != n.me && n.peers[i].silentMs + cfg.heartbeatMs < cfg.electionMsMax;
      && SameVote(n, n') && n'.votes == n.votes && n'.timer == n.timer && |n'.peers| == |n.peers|
      && (forall i :: 0 <= i < |n.peers| ==>
            n'.peers[i] == Peer(n.peers[i].sequence,
                                if i in cfg.up && i != n.me then n.peers[i].silentMs + cfg.heartbeatMs
                                else n.peers[i].silentMs))
      && if n.role == Leader && (1 + |recent|) * 2 <= |cfg.up| then n'.role == Follower && n'.leaderId == -1
         else n'.role == n.role && n'.leaderId == n.leaderId
  {
    assert RecentPeers(cfg, n, |n.peers|)
        == set i | i in cfg.up && i != n.me && n.peers[i].silentMs + cfg.heartbeatMs < cfg.electionMsMax;
  }

  /** A tick sends something only when the timer has run out. */
  lemma TickWaits(cfg: Config, n: Node, msec: int, rnd: int)
    requires Sound(cfg, n) && n.timer - msec >= 0
    ensures var o := OnTick(cfg, n, msec, rnd);
      && o.sent == {} && SameVote(n, o.node) && o.node.votes == n.votes && o.node.timer == n.timer - msec
      && (n.role != Leader ==> o.node.role == n.role && o.node.leaderId == n.leaderId)
  {
    QuorumChecked(cfg, n.(timer := n.timer - msec));
    hide CheckQuorum;
  }

  /** A leader beats then. */
  lemma TickBeats(cfg: Config, n: Node, msec: int, rnd: int)
    requires Sound(cfg, n) && n.timer - msec < 0 && n.role == Leader
    ensures var o := OnTick(cfg, n, msec, rnd);
      && SameVote(n, o.node) && o.node.votes == n.votes
      && forall i :: i in cfg.up && i != n.me ==> Update(n.term, n.me, i, n.peers[i].sequence + 1) in o.sent
  {
    var n1 := n.(timer := n.timer - msec);
    BeatsSent(cfg, n1);
    var o := OnBeatAll(cfg, n1);
    assert OnTimeout(cfg, n1, rnd) == o;
    hide OnBeatAll;
    hide OnTimeout;
    TimerIs(cfg, o.node, rnd);
    QuorumChecked(cfg, ResetTimer(cfg, o.node, rnd));
    hide CheckQuorum;
    hide ResetTimer;
  }

  /** Anybody else stands for the next term. */
  lemma TickStands(cfg: Config, n: Node, msec: int, rnd: int)
    requires Sound(cfg, n) && n.timer - msec < 0 && n.role != Leader && |cfg.up| >= 2
    ensures var o := OnTick(cfg, n, msec, rnd);
      && SameVote(n.(term := n.term + 1), o.node) && o.node.votes == 1
      && o.node.role == Candidate && o.node.timer == rnd && (n.role == Follower ==> o.node.leaderId == -1)
      && forall i :: i in cfg.up && i != n.me ==>
           Claim(n.term + 1, n.me, i, n.peers[i].sequence + 1, n.lastIndex, n.lastTerm) in o.sent
  {
    var n1 := n.(timer := n.timer - msec, term := n.term + 1);
    var n2 := if n.role == Follower then n1.(leaderId := NOBODY, role := Candidate) else n1;
    ClaimsSent(cfg, n2, rnd);
    var o := OnClaimLeadership(cfg, n2, rnd);
    assert OnTimeout(cfg, n.(timer := n.timer - msec), rnd) == o;
    hide OnClaimLeadership;
    hide OnTimeout;
    TimerIs(cfg, o.node, rnd);
    QuorumChecked(cfg, ResetTimer(cfg, o.node, rnd));
    hide CheckQuorum;
    hide ResetTimer;
  }

  /** A vote is looked at only with the number of the last datagram to its sender, which it uses up; it counts only for
      a candidate, in its term or a later one, when it is granted; and may make it leader then. */
  lemma VoteExactly(cfg: Config, n: Node, m: Msg, rnd: int)
    requires m.Vote? && m.from < |n.peers|
    ensures var n', p := OnVote(cfg, n, m, rnd), n.peers[m.from];
      && SameVote(n, n') && |n'.peers| == |n.peers|
      && if m.sequence != p.sequence then n' == n
         else
           && (forall i :: 0 <= i < |n.peers| ==>
                 n'.peers[i].sequence == n.peers[i].sequence + if i == m.from then 1 else 0)
           && n'.votes == n.votes + (if m.term >= n.term && n.role == Candidate && m.granted then 1 else 0)
           && if m.term >= n.term && n.role == Candidate && n'.votes * 2 > |cfg.up|
              then n'.role == Leader && n'.leaderId == n.me
              else n'.role == n.role && n'.leaderId == n.leaderId && n'.timer == n.timer
  {
  }

  /** An update of an older term, or one that does not fit the log, is refused; else its sender is the leader, heard
      just now. */
  lemma UpdateExactly(cfg: Config, n: Node, m: Msg, env: Env)
    requires m.Update? && m.from < |n.peers|
    ensures var o := OnUpdate(cfg, n, m, env);
      && SameVote(n, o.node) && o.node.role == n.role && o.node.votes == n.votes
      && if env.appendable && m.term >= n.term then
           && o.sent == {Done(n.term, n.me, m.from, m.sequence, env.accepted)} && o.node.leaderId == m.from
           && o.node.peers == n.peers[m.from := Peer(n.peers[m.from].sequence, 0)]
           && (n.role != Leader ==> o.node.timer == env.rnd)
         else o.node == n && o.sent == {Done(n.term, n.me, m.from, m.sequence, false)}
  {
  }

  /** A reply to the last update uses up its number, tells a leader that the peer is alive, and is followed by the next
      update when the peer is behind. */
  lemma DoneExactly(n: Node, m: Msg, env: Env)
    requires m.Done? && m.from < |n.peers|
    ensures var o, p := OnDone(n, m, env), n.peers[m.from];
      if n.role != Leader || m.from == n.me || m.sequence != p.sequence then o == Out(n, {})
      else if m.term < n.term then
        o == Out(n.(peers := n.peers[m.from := Peer(p.sequence + 1, p.silentMs)]), {})
      else
        && o.node == n.(peers := n.peers[m.from := Peer(p.sequence + (if env.behind then 2 else 1),
                                                        if m.success then 0 else p.silentMs)])
        && o.sent == if env.behind then {Update(n.term, n.me, m.from, p.sequence + 2)} else {}
  {
  }

  /** A newer term is adopted first, with no vote given in it and none counted; an older one is never adopted. */
  lemma MessageAdopts(cfg: Config, n: Node, m: Msg, env: Env)
    requires Sound(cfg, n) && m.from < cfg.peerNumMax
    ensures var n' := OnMessage(cfg, n, m, env).node;
      && n'.me == n.me && n'.lastIndex == n.lastIndex && n'.lastTerm == n.lastTerm
      && n'.term == (if m.term > n.term then m.term else n.term)
      && (m.term > n.term ==> n'.role == Follower && n'.votes == 0)
      && (m.term > n.term && !m.Claim? ==> n'.voteFor == -1)
      && (m.term <= n.term && !m.Claim? ==> n'.voteFor == n.voteFor)
  {
  }

  /** A leader's own entry is its last one, of its term, and is told to every other peer that is up. */
  lemma EmitExactly(cfg: Config, n: Node, rnd: int)
    requires Sound(cfg, n)
    ensures var o := OnEmit(cfg, n, rnd);
      if n.role != Leader then o == Out(n, {})
      else
        && SameVote(n.(lastIndex := n.lastIndex + 1, lastTerm := n.term), o.node)
        && o.node.role == Leader && o.node.votes == n.votes && o.node.leaderId == n.leaderId
        && forall i :: i in cfg.up && i != n.me ==> Update(n.term, n.me, i, n.peers[i].sequence + 1) in o.sent
  {
    if n.role == Leader {
      BeatsSent(cfg, n.(lastIndex := n.lastIndex + 1, lastTerm := n.term));
    }
    hide OnBeatAll;
  }

  /* ---------- N nodes and a network ---------- */

  datatype Grant = Grant(voter: nat, term: int, candidate: nat)

  datatype Election = Election(term: int, leader: nat, quorum: set<nat>)

  /** `net` holds every datagram ever sent: any of them may arrive at any time, any number of
      times, or never.  `grants`, `tally` and `elected` record history and steer nothing. */
  datatype Cluster = Cluster(nodes: map<nat, Node>, net: set<Msg>,
                             grants: set<Grant>, tally: map<nat, set<nat>>, elected: seq<Election>)

  datatype Event =
    | Tick(i: nat, msec: int, rnd: int)
    | Deliver(m: Msg, env: Env)
    | Emit(i: nat, rnd: int)
    | LogChange(i: nat, lastIndex: int, lastTerm: int)

  ghost predicate Shaped(cfg: Config, c: Cluster) {
    && cfg.Valid()
    && c.nodes.Keys == cfg.up
    && c.tally.Keys == cfg.up
    && (forall i <- cfg.up :: c.nodes[i].me == i && Sound(cfg, c.nodes[i]))
    && (forall m <- c.net :: m.from in cfg.up && m.to in cfg.up && m.from != m.to)
  }

  ghost function Senders(got: set<Msg>): set<nat> {
    set m | m in got :: m.from
  }

  /** Who has voted for the node in its term so far: itself when it claims, then each counted voter. */
  ghost function NewTally(n: Node, n': Node, tally: set<nat>, got: set<Msg>): set<nat> {
    if n'.role == Follower then {}
    else if n'.term > n.term then {n'.me}
    else if n'.votes > n.votes then tally + Senders(got)
    else tally
  }

  /** Node `i` moves to `o.node` and sends `o.sent`, on the datagram in `got` if there was one. */
  ghost function Move(cfg: Config, c: Cluster, i: nat, o: Out, got: set<Msg>): Cluster
    requires i in c.nodes && i in c.tally
  {
    var tally := NewTally(c.nodes[i], o.node, c.tally[i], got);
    var grants := set m | m in o.sent && m.Vote? && m.granted :: Grant(m.from, m.term, m.to);
    var won := o.node.role == Leader && c.nodes[i].role != Leader;
    Cluster(c.nodes[i := o.node], c.net + o.sent, c.grants + grants, c.tally[i := tally],
            if won then c.elected + [Election(o.node.term, i, tally)] else c.elected)
  }

  /** One event; an event about an unknown node or a datagram never sent changes nothing. */
  ghost function Step(cfg: Config, c: Cluster, e: Event): Cluster
    requires Shaped(cfg, c)
  {
    match e
    case Tick(i, msec, rnd) =>
      if i in cfg.up then Move(cfg, c, i, OnTick(cfg, c.nodes[i], msec, rnd), {}) else c
    case Deliver(m, env) =>
      if m in c.net then Move(cfg, c, m.to, OnMessage(cfg, c.nodes[m.to], m, env), {m}) else c
    case Emit(i, rnd) =>
      if i in cfg.up then Move(cfg, c, i, OnEmit(cfg, c.nodes[i], rnd), {}) else c
    case LogChange(i, lastIndex, lastTerm) =>
      if i in cfg.up then
        Move(cfg, c, i, Out(c.nodes[i].(lastIndex := lastIndex, lastTerm := lastTerm), {}), {})
      else c
  }

  function InitNode(cfg: Config, i: nat): Node
    requires cfg.Valid() && i in cfg.up
  {
    Node(i, 0, NOBODY, Follower, 0, NOBODY, cfg.firstTimers[i], seq(cfg.peerNumMax, _ => Peer(0, 0)), -1, -1)
  }

  ghost function Init(cfg: Config): Cluster
    requires cfg.Valid()
  {
    Cluster(map i | i in cfg.up :: InitNode(cfg, i), {}, {}, map i | i in cfg.up :: {}, [])
  }

  /** The cluster after a list of events from a cold start. */
  ghost function Run(cfg: Config, events: seq<Event>): (c: Cluster)
    requires cfg.Valid()
    ensures Shaped(cfg, c)
    decreases |events|, 1
  {
    if events == [] then
      Init(cfg)
    else
      var last := |events| - 1;
      RunInv(cfg, events[..last]);
      StepInv(cfg, Run(cfg, events[..last]), events[last]);
      Step(cfg, Run(cfg, events[..last]), events[last])
  }

  lemma {:induction false} RunInv(cfg: Config, events: seq<Event>)
    requires cfg.Valid()
    ensures Inv(cfg, Run(cfg, events))
    decreases |events|, 2
  {
    if events == [] {
      InitInv(cfg);
    } else {
      var last := |events| - 1;
      RunInv(cfg, events[..last]);
      StepInv(cfg, Run(cfg, events[..last]), events[last]);
    }
  }

  /** The claim's log is not behind that of the voter: it ends later, or at the same place and term. */
  predicate NotBehind(index: int, lastTerm: int, voterIndex: int, voterTerm: int) {
    index > voterIndex || (index == voterIndex && (index < 0 || lastTerm == voterTerm))
  }

  /** In every run, whenever an event makes a node grant a vote, the event is the delivery of a claim from the
      candidate, and the log of the claim is not behind that of the voter. */
  lemma NoStaleVote(cfg: Config, events: seq<Event>, e: Event, v: Msg)
    requires cfg.Valid() && v.Vote? && v.granted
    requires v in Step(cfg, Run(cfg, events), e).net && v !in Run(cfg, events).net
    ensures e.Deliver? && e.m.Claim? && e.m in Run(cfg, events).net && e.m.from == v.to && e.m.to == v.from
    ensures v.term == e.m.term && v.sequence == e.m.sequence
    ensures v.from in Run(cfg, events).nodes
    ensures var voter := Run(cfg, events).nodes[v.from];
      v.term >= voter.term && NotBehind(e.m.index, e.m.lastTerm, voter.lastIndex, voter.lastTerm)
  {
    var c := Run(cfg, events);
    hide Run;
    OnlyDeliveries(cfg, c, e);
    ReplyIs(cfg, c.nodes[e.m.to], e.m, e.env, v);
    hide OnMessage;
  }

  lemma OnlyDeliveries(cfg: Config, c: Cluster, e: Event)
    requires Shaped(cfg, c)
    ensures !e.Deliver? ==> forall v <- Step(cfg, c, e).net :: v.Vote? ==> v in c.net
  {
    match e
    case Tick(i, msec, rnd) =>
      if i in cfg.up {
        TickSends(cfg, c.nodes[i], msec, rnd);
        hide OnTick;
      }
    case Deliver(m, env) =>
    case Emit(i, rnd) =>
    case LogChange(i, _, _) =>
  }

  lemma TickSends(cfg: Config, n: Node, msec: int, rnd: int)
    requires Sound(cfg, n)
    ensures forall m <- OnTick(cfg, n, msec, rnd).sent :: !m.Vote?
  {
  }

  lemma ReplyIs(cfg: Config, n: Node, m: Msg, env: Env, v: Msg)
    requires Sound(cfg, n) && m.from < cfg.peerNumMax && v in OnMessage(cfg, n, m, env).sent && v.Vote? && v.granted
    ensures m.Claim? && v == Vote(m.term, n.me, m.from, m.sequence, true)
    ensures m.term >= n.term && NotBehind(m.index, m.lastTerm, n.lastIndex, n.lastTerm)
  {
  }

  /* ---------- the invariant ---------- */

  ghost predicate Answers(v: Msg, q: Msg) {
    v.Vote? && q.Claim? && q.from == v.to && q.to == v.from && q.sequence == v.sequence && q.term == v.term
  }

  /** A granted vote answers a claim of the same number and term, and is on record. */
  ghost predicate NetInv(cfg: Config, c: Cluster)
    requires Shaped(cfg, c)
  {
    && (forall m <- c.net :: m.Claim? ==>
          m.term <= c.nodes[m.from].term && m.sequence <= c.nodes[m.from].peers[m.to].sequence)
    && (forall m <- c.net :: m.Vote? && m.granted ==>
          Grant(m.from, m.term, m.to) in c.grants && exists q <- c.net :: Answers(m, q))
  }

  /** The only claims a candidate can still be answered on are those of its own term, by peers
      not counted yet. */
  ghost predicate FreshInv(cfg: Config, c: Cluster)
    requires Shaped(cfg, c)
  {
    forall m <- c.net ::
      m.Claim? && c.nodes[m.from].role == Candidate && m.sequence == c.nodes[m.from].peers[m.to].sequence ==>
        m.term == c.nodes[m.from].term && m.to !in c.tally[m.from]
  }

  /** Who granted a vote in its current term stays a follower in it, bound to one candidate. */
  ghost predicate GrantInv(cfg: Config, c: Cluster)
    requires Shaped(cfg, c)
  {
    && (forall v <- c.grants :: v.voter in cfg.up && v.term <= c.nodes[v.voter].term
          && (v.term == c.nodes[v.voter].term ==>
                c.nodes[v.voter].voteFor == v.candidate && c.nodes[v.voter].role == Follower))
    && (forall v <- c.grants, w <- c.grants :: v.voter == w.voter && v.term == w.term ==> v.candidate == w.candidate)
  }

  ghost predicate Backed(cfg: Config, grants: set<Grant>, term: int, i: nat, quorum: set<nat>) {
    && i in quorum
    && quorum <= cfg.up
    && forall v <- quorum :: v == i || Grant(v, term, i) in grants
  }

  /** A candidate's or leader's vote count is the number of peers that granted it this term, plus itself. */
  ghost predicate NodeInv(cfg: Config, n: Node, tally: set<nat>, grants: set<Grant>) {
    n.role != Follower ==>
      && Backed(cfg, grants, n.term, n.me, tally)
      && n.votes == |tally|
      && (n.role == Leader ==> HasQuorum(cfg, |tally|))
  }

  ghost predicate TallyInv(cfg: Config, c: Cluster)
    requires Shaped(cfg, c)
  {
    forall i <- cfg.up :: NodeInv(cfg, c.nodes[i], c.tally[i], c.grants)
  }

  /** The earlier leader gave the later one a vote that was counted, and nobody else gave a vote to both. */
  ghost predicate BetrayedBy(grants: set<Grant>, earlier: Election, later: Election) {
    && earlier.leader != later.leader
    && earlier.leader in later.quorum
    && Grant(earlier.leader, later.term, later.leader) in grants
    && forall v :: v in earlier.quorum && v in later.quorum ==> v == earlier.leader
  }

  ghost predicate Won(cfg: Config, grants: set<Grant>, e: Election) {
    e.leader in cfg.up && Backed(cfg, grants, e.term, e.leader, e.quorum) && HasQuorum(cfg, |e.quorum|)
  }

  ghost predicate ElectedInv(cfg: Config, c: Cluster)
    requires Shaped(cfg, c)
  {
    && (forall e <- c.elected :: Won(cfg, c.grants, e) && Settled(c, e))
    && (forall i <- cfg.up :: c.nodes[i].role == Leader ==> Election(c.nodes[i].term, i, c.tally[i]) in c.elected)
    && (forall a, b :: 0 <= a < b < |c.elected| && c.elected[a].term == c.elected[b].term ==>
          BetrayedBy(c.grants, c.elected[a], c.elected[b]))
  }

  /** The winner of a term does not stand for it again. */
  ghost predicate Settled(c: Cluster, e: Election) {
    && e.leader in c.nodes
    && e.term <= c.nodes[e.leader].term
    && (e.term == c.nodes[e.leader].term ==> c.nodes[e.leader].role != Candidate)
  }

  ghost predicate Inv(cfg: Config, c: Cluster) {
    && Shaped(cfg, c)
    && NetInv(cfg, c)
    && FreshInv(cfg, c)
    && GrantInv(cfg, c)
    && TallyInv(cfg, c)
    && ElectedInv(cfg, c)
  }

  lemma InitInv(cfg: Config)
    requires cfg.Valid()
    ensures Inv(cfg, Init(cfg))
  {
  }

  /* ---------- what one handler may do to its node ---------- */

  /** Terms, numbers and votes only move one way, and a role is entered only as it should be. */
  ghost predicate LegalNode(cfg: Config, n: Node, n': Node, tally: set<nat>, tally': set<nat>) {
    && n'.me == n.me && |n'.peers| == |n.peers| == cfg.peerNumMax
    && n'.term >= n.term
    && (forall j :: 0 <= j < |n.peers| ==> n'.peers[j].sequence >= n.peers[j].sequence)
    && (n'.term == n.term ==> n'.voteFor == n.voteFor || n.voteFor == NOBODY)
    && (n'.term == n.term && n.role == Follower ==> n'.role == Follower)
    && (n'.term == n.term && n.role == Leader ==> n'.role != Candidate)
    && (n'.role == Leader && n.role == Leader ==> n'.term == n.term && n'.votes == n.votes)
    // a claim in a new term moves the number of every other peer; counting a vote moves that of the voter
    && (n'.role == Candidate ==>
          forall j <- cfg.up :: j < |n.peers| && j != n.me && (n'.term > n.term || (j in tally' && j !in tally)) ==>
            n'.peers[j].sequence > n.peers[j].sequence)
  }

  ghost predicate LegalSends(cfg: Config, n: Node, o: Out, got: set<Msg>) {
    && |o.node.peers| == cfg.peerNumMax
    && (forall m <- o.sent :: m.from == n.me && m.to in cfg.up && m.to != n.me && m.to < cfg.peerNumMax)
    && (forall m <- o.sent :: m.Claim? ==>
          o.node.role == Candidate && o.node.term > n.term && m.term == o.node.term
          && m.sequence == o.node.peers[m.to].sequence)
    && (forall m <- o.sent :: m.Vote? && m.granted ==>
          m.term == o.node.term && o.node.voteFor == m.to && o.node.role == Follower
              && exists q <- got :: Answers(m, q))
  }

  ghost predicate Legal(cfg: Config, n: Node, tally: set<nat>, grants: set<Grant>, o: Out, got: set<Msg>) {
    var tally' := NewTally(n, o.node, tally, got);
    && LegalNode(cfg, n, o.node, tally, tally')
    && LegalSends(cfg, n, o, got)
    && NodeInv(cfg, o.node, tally', grants)
  }

  /** A granted vote that a candidate can still count comes from a peer it has not counted. */
  ghost predicate Countable(n: Node, tally: set<nat>, grants: set<Grant>, m: Msg)
    requires m.from < |n.peers|
  {
    m.Vote? && m.granted && n.role == Candidate && m.sequence == n.peers[m.from].sequence ==>
      m.term == n.term && m.from !in tally && Grant(m.from, n.term, n.me) in grants
  }

  /** Equal but for timers, leader hints, silence counters and a leader's demotion. */
  ghost predicate Aside(n: Node, n': Node) {
    && n'.me == n.me && n'.term == n.term && n'.voteFor == n.voteFor && n'.votes == n.votes
    && (n'.role == n.role || (n.role == Leader && n'.role == Follower))
    && |n'.peers| == |n.peers|
    && forall j :: 0 <= j < |n'.peers| ==> n'.peers[j].sequence == n.peers[j].sequence
  }

  lemma AsideLegal(cfg: Config, n: Node, tally: set<nat>, grants: set<Grant>, o: Out, n': Node)
    requires Legal(cfg, n, tally, grants, o, {}) && Aside(o.node, n')
    ensures Legal(cfg, n, tally, grants, Out(n', o.sent), {})
  {
  }

  lemma QuorumCheckAside(cfg: Config, n: Node)
    requires Sound(cfg, n)
    ensures Aside(n, CheckQuorum(cfg, n))
  {
  }

  lemma ClaimLeadershipLegal(cfg: Config, n: Node, tally: set<nat>, grants: set<Grant>, leader: int, timer: int,
      rnd: int)
    requires Sound(cfg, n) && n.role != Leader
    ensures var n1 := n.(leaderId := leader, role := Candidate, term := n.term + 1, timer := timer);
      Legal(cfg, n, tally, grants, OnClaimLeadership(cfg, n1, rnd), {})
  {
    var n1 := n.(leaderId := leader, role := Candidate, term := n.term + 1, timer := timer);
    assert NewTally(n, OnClaimLeadership(cfg, n1, rnd).node, tally, {}) == {n.me};
  }

  lemma BeatLegal(cfg: Config, n: Node, tally: set<nat>, grants: set<Grant>, n1: Node)
    requires Sound(cfg, n) && n.role == Leader && NodeInv(cfg, n, tally, grants)
    requires n1 == n.(timer := n1.timer, lastIndex := n1.lastIndex, lastTerm := n1.lastTerm)
    ensures Legal(cfg, n, tally, grants, OnBeatAll(cfg, n1), {})
  {
  }

  lemma TimeoutLegal(cfg: Config, n: Node, tally: set<nat>, grants: set<Grant>, timer: int, rnd: int)
    requires Sound(cfg, n) && NodeInv(cfg, n, tally, grants)
    ensures Legal(cfg, n, tally, grants, OnTimeout(cfg, n.(timer := timer), rnd), {})
  {
    hide Legal;
    hide NodeInv;
    hide OnClaimLeadership;
    hide OnBeatAll;
    match n.role
    case Follower => ClaimLeadershipLegal(cfg, n, tally, grants, NOBODY, timer, rnd);
    case Candidate => ClaimLeadershipLegal(cfg, n, tally, grants, n.leaderId, timer, rnd);
    case Leader => BeatLegal(cfg, n, tally, grants, n.(timer := timer));
  }

  lemma TimeoutSound(cfg: Config, n: Node, rnd: int)
    requires Sound(cfg, n)
    ensures var o := OnTimeout(cfg, n, rnd); Sound(cfg, o.node)
  {
  }

  lemma IdleLegal(cfg: Config, n: Node, tally: set<nat>, grants: set<Grant>)
    requires Sound(cfg, n) && NodeInv(cfg, n, tally, grants)
    ensures Legal(cfg, n, tally, grants, Out(n, {}), {})
  {
  }

  lemma TickLegal(cfg: Config, n: Node, tally: set<nat>, grants: set<Grant>, msec: int, rnd: int)
    requires Sound(cfg, n) && NodeInv(cfg, n, tally, grants)
    ensures Legal(cfg, n, tally, grants, OnTick(cfg, n, msec, rnd), {})
  {
    hide Legal;
    hide NodeInv;
    hide OnTimeout;
    var n1 := n.(timer := n.timer - msec);
    if n1.timer < 0 {
      var o := OnTimeout(cfg, n1, rnd);
      TimeoutSound(cfg, n1, rnd);
      TimeoutLegal(cfg, n, tally, grants, n1.timer, rnd);
      var n2 := ResetTimer(cfg, o.node, rnd);
      QuorumCheckAside(cfg, n2);
      AsideLegal(cfg, n, tally, grants, o, CheckQuorum(cfg, n2));
    } else {
      QuorumCheckAside(cfg, n1);
      IdleLegal(cfg, n, tally, grants);
      AsideLegal(cfg, n, tally, grants, Out(n, {}), CheckQuorum(cfg, n1));
    }
  }

  lemma LogChangeLegal(cfg: Config, n: Node, tally: set<nat>, grants: set<Grant>, lastIndex: int, lastTerm: int)
    requires Sound(cfg, n) && NodeInv(cfg, n, tally, grants)
    ensures Legal(cfg, n, tally, grants, Out(n.(lastIndex := lastIndex, lastTerm := lastTerm), {}), {})
  {
  }

  lemma EmitLegal(cfg: Config, n: Node, tally: set<nat>, grants: set<Grant>, rnd: int)
    requires Sound(cfg, n) && NodeInv(cfg, n, tally, grants)
    ensures Legal(cfg, n, tally, grants, OnEmit(cfg, n, rnd), {})
  {
    if n.role == Leader {
      var n1 := n.(lastIndex := n.lastIndex + 1, lastTerm := n.term);
      BeatLegal(cfg, n, tally, grants, n1);
      var o := OnBeatAll(cfg, n1);
      AsideLegal(cfg, n, tally, grants, o, ResetTimer(cfg, o.node, rnd));
    }
  }

  lemma MessageLegal(cfg: Config, n: Node, tally: set<nat>, grants: set<Grant>, m: Msg, env: Env)
    requires Sound(cfg, n) && NodeInv(cfg, n, tally, grants)
    requires m.from in cfg.up && m.to == n.me && m.from != n.me && Countable(n, tally, grants, m)
    ensures Legal(cfg, n, tally, grants, OnMessage(cfg, n, m, env), {m})
  {
    match m {
      case Claim(_, _, _, _, _, _) =>
      case Vote(_, _, _, _, _) => VoteLegal(cfg, n, tally, grants, m, env);
      case Update(_, _, _, _) =>
      case Done(_, _, _, _, _) => DoneLegal(cfg, n, tally, grants, m, env);
    }
  }

  lemma VoteLegal(cfg: Config, n: Node, tally: set<nat>, grants: set<Grant>, m: Msg, env: Env)
    requires Sound(cfg, n) && NodeInv(cfg, n, tally, grants) && m.Vote?
    requires m.from in cfg.up && m.to == n.me && m.from != n.me && Countable(n, tally, grants, m)
    ensures Legal(cfg, n, tally, grants, OnMessage(cfg, n, m, env), {m})
  {
    assert Senders({m}) == {m.from};
    assert m.from !in tally ==> |tally + {m.from}| == |tally| + 1;
  }

  lemma DoneLegal(cfg: Config, n: Node, tally: set<nat>, grants: set<Grant>, m: Msg, env: Env)
    requires Sound(cfg, n) && NodeInv(cfg, n, tally, grants) && m.Done?
    requires m.from in cfg.up && m.to == n.me && m.from != n.me
    ensures Legal(cfg, n, tally, grants, OnMessage(cfg, n, m, env), {m})
  {
  }

  /* ---------- a legal move keeps the invariant ---------- */

  lemma MoveShape(cfg: Config, c: Cluster, i: nat, o: Out, got: set<Msg>)
    requires Shaped(cfg, c) && i in cfg.up && got <= c.net
    requires Legal(cfg, c.nodes[i], c.tally[i], c.grants, o, got)
    ensures Shaped(cfg, Move(cfg, c, i, o, got))
  {
  }

  lemma MoveNet(cfg: Config, c: Cluster, i: nat, o: Out, got: set<Msg>)
    requires Shaped(cfg, c) && NetInv(cfg, c) && i in cfg.up && got <= c.net
    requires Legal(cfg, c.nodes[i], c.tally[i], c.grants, o, got)
    ensures var c' := Move(cfg, c, i, o, got); Shaped(cfg, c') && NetInv(cfg, c')
  {
    hide NodeInv;
    var c' := Move(cfg, c, i, o, got);
    MoveShape(cfg, c, i, o, got);
    forall m | m in c'.net && m.Vote? && m.granted
      ensures Grant(m.from, m.term, m.to) in c'.grants && exists q <- c'.net :: Answers(m, q)
    {
      var q :| (q in c.net || q in got) && Answers(m, q);
      assert q in c'.net;
    }
  }

  lemma MoveFresh(cfg: Config, c: Cluster, i: nat, o: Out, got: set<Msg>)
    requires Shaped(cfg, c) && NetInv(cfg, c) && FreshInv(cfg, c) && i in cfg.up && got <= c.net
    requires Legal(cfg, c.nodes[i], c.tally[i], c.grants, o, got)
    ensures var c' := Move(cfg, c, i, o, got); Shaped(cfg, c') && FreshInv(cfg, c')
  {
    hide NodeInv;
    hide Answers;
    MoveShape(cfg, c, i, o, got);
  }

  lemma MoveGrants(cfg: Config, c: Cluster, i: nat, o: Out, got: set<Msg>)
    requires Shaped(cfg, c) && GrantInv(cfg, c) && i in cfg.up && got <= c.net
    requires Legal(cfg, c.nodes[i], c.tally[i], c.grants, o, got)
    ensures var c' := Move(cfg, c, i, o, got); Shaped(cfg, c') && GrantInv(cfg, c')
  {
    var c' := Move(cfg, c, i, o, got);
    MoveShape(cfg, c, i, o, got);
    assert forall v <- c'.grants ::
        v in c.grants || (v.voter == i && v.term == o.node.term && v.candidate == o.node.voteFor);
  }

  lemma MoveTally(cfg: Config, c: Cluster, i: nat, o: Out, got: set<Msg>)
    requires Shaped(cfg, c) && TallyInv(cfg, c) && i in cfg.up && got <= c.net
    requires Legal(cfg, c.nodes[i], c.tally[i], c.grants, o, got)
    ensures var c' := Move(cfg, c, i, o, got); Shaped(cfg, c') && TallyInv(cfg, c')
  {
    MoveShape(cfg, c, i, o, got);
  }

  /** Two majorities of the same peers share a member. */
  lemma QuorumsMeet(cfg: Config, a: set<nat>, b: set<nat>) returns (v: nat)
    requires a <= cfg.up && b <= cfg.up && HasQuorum(cfg, |a|) && HasQuorum(cfg, |b|)
    ensures v in a && v in b
  {
    if a * b == {} {
      assert |a + b| == |a| + |b|;
      SubsetSize(a + b, cfg.up);
    }
    v :| v in a * b;
  }

  lemma {:induction false} SubsetSize(a: set<nat>, b: set<nat>)
    requires a <= b
    ensures |a| <= |b|
  {
    if a == {} {
    } else {
      var x :| x in a;
      SubsetSize(a - {x}, b - {x});
    }
  }

  /** When a second node has won a term it still holds, the common member of the two quorums is the
      earlier winner itself: no one else can have voted for both. */
  lemma SecondElection(cfg: Config, c: Cluster, e: Election, e': Election)
    requires Shaped(cfg, c) && GrantInv(cfg, c)
    requires Won(cfg, c.grants, e) && Won(cfg, c.grants, e') && e.term == e'.term && e.leader != e'.leader
    requires c.nodes[e'.leader].term == e'.term && c.nodes[e'.leader].role != Follower
    ensures BetrayedBy(c.grants, e, e')
  {
    var v := QuorumsMeet(cfg, e.quorum, e'.quorum);
    assert v == e.leader || Grant(v, e.term, e.leader) in c.grants;
    assert v == e'.leader || Grant(v, e.term, e'.leader) in c.grants;
    forall w | w in e.quorum && w in e'.quorum
      ensures w == e.leader
    {
      assert w == e.leader || Grant(w, e.term, e.leader) in c.grants;
      assert w == e'.leader || Grant(w, e.term, e'.leader) in c.grants;
    }
  }

  /** Nothing that an election on record rests on is ever taken back. */
  lemma Lasting(cfg: Config, c: Cluster, i: nat, o: Out, got: set<Msg>, e: Election)
    requires Shaped(cfg, c) && i in cfg.up && got <= c.net
    requires Legal(cfg, c.nodes[i], c.tally[i], c.grants, o, got)
    requires Won(cfg, c.grants, e) && Settled(c, e)
    ensures var c' := Move(cfg, c, i, o, got); Won(cfg, c'.grants, e) && Settled(c', e)
  {
  }

  /** A move adds at most one election to the record, of a node that had not won its term before. */
  lemma NewLeader(cfg: Config, c: Cluster, i: nat, o: Out, got: set<Msg>)
    requires Shaped(cfg, c) && ElectedInv(cfg, c) && i in cfg.up && got <= c.net
    requires Legal(cfg, c.nodes[i], c.tally[i], c.grants, o, got)
    ensures var c' := Move(cfg, c, i, o, got); var last := Election(o.node.term, i, c'.tally[i]);
      c'.elected == c.elected
      || (c'.elected == c.elected + [last] && Won(cfg, c'.grants, last) && Settled(c', last)
          && c'.nodes[i].term == last.term && c'.nodes[i].role == Leader
          && forall e <- c.elected :: e.term == last.term ==> e.leader != i)
  {
    hide LegalSends;
  }

  /** What is on record stays true. */
  lemma OldElections(cfg: Config, c: Cluster, i: nat, o: Out, got: set<Msg>)
    requires Shaped(cfg, c) && ElectedInv(cfg, c) && i in cfg.up && got <= c.net
    requires Legal(cfg, c.nodes[i], c.tally[i], c.grants, o, got)
    ensures var c' := Move(cfg, c, i, o, got);
      && c.grants <= c'.grants
      && (forall e <- c.elected :: Won(cfg, c'.grants, e) && Settled(c', e))
      && (forall a, b :: 0 <= a < b < |c.elected| && c.elected[a].term == c.elected[b].term ==>
            BetrayedBy(c'.grants, c.elected[a], c.elected[b]))
  {
    hide Won;
    hide Settled;
    hide Legal;
    forall e | e in c.elected
      ensures Won(cfg, Move(cfg, c, i, o, got).grants, e) && Settled(Move(cfg, c, i, o, got), e)
    {
      Lasting(cfg, c, i, o, got, e);
    }
  }

  lemma LeadersOnRecord(cfg: Config, c: Cluster, i: nat, o: Out, got: set<Msg>)
    requires Shaped(cfg, c) && ElectedInv(cfg, c) && i in cfg.up
    requires Legal(cfg, c.nodes[i], c.tally[i], c.grants, o, got)
    ensures var c' := Move(cfg, c, i, o, got);
      forall j <- cfg.up :: c'.nodes[j].role == Leader ==> Election(c'.nodes[j].term, j, c'.tally[j]) in c'.elected
  {
    hide LegalSends;
    hide Won;
    hide Settled;
    hide BetrayedBy;
    hide NodeInv;
  }

  lemma MoveElected(cfg: Config, c: Cluster, i: nat, o: Out, got: set<Msg>)
    requires Shaped(cfg, c) && GrantInv(cfg, c) && ElectedInv(cfg, c) && i in cfg.up && got <= c.net
    requires Legal(cfg, c.nodes[i], c.tally[i], c.grants, o, got)
    ensures var c' := Move(cfg, c, i, o, got); Shaped(cfg, c') && ElectedInv(cfg, c')
  {
    var c' := Move(cfg, c, i, o, got);
    MoveGrants(cfg, c, i, o, got);
    NewLeader(cfg, c, i, o, got);
    OldElections(cfg, c, i, o, got);
    LeadersOnRecord(cfg, c, i, o, got);
    hide Legal;
    hide Move;
    hide Won;
    hide Settled;
    hide GrantInv;
    hide BetrayedBy;
    if c'.elected != c.elected {
      var last := c'.elected[|c.elected|];
      forall a | 0 <= a < |c.elected| && c.elected[a].term == last.term
        ensures BetrayedBy(c'.grants, c.elected[a], last)
      {
        SecondElection(cfg, c', c.elected[a], last);
      }
    }
  }

  lemma MoveInv(cfg: Config, c: Cluster, i: nat, o: Out, got: set<Msg>)
    requires Inv(cfg, c) && i in cfg.up && got <= c.net
    requires Legal(cfg, c.nodes[i], c.tally[i], c.grants, o, got)
    ensures Inv(cfg, Move(cfg, c, i, o, got))
  {
    MoveNet(cfg, c, i, o, got);
    MoveFresh(cfg, c, i, o, got);
    MoveGrants(cfg, c, i, o, got);
    MoveTally(cfg, c, i, o, got);
    MoveElected(cfg, c, i, o, got);
  }

  lemma VoteCountable(cfg: Config, c: Cluster, m: Msg)
    requires Shaped(cfg, c) && NetInv(cfg, c) && FreshInv(cfg, c) && m in c.net
    ensures Countable(c.nodes[m.to], c.tally[m.to], c.grants, m)
  {
    if m.Vote? && m.granted {
      var q :| q in c.net && Answers(m, q);
    }
  }

  /** An event is nothing or a legal move of one node, on the datagram delivered if it is a delivery. */
  lemma StepMoves(cfg: Config, c: Cluster, e: Event) returns (i: nat, o: Out, got: set<Msg>)
    requires Inv(cfg, c)
    ensures Step(cfg, c, e) == c
      || (i in cfg.up && got <= c.net && Legal(cfg, c.nodes[i], c.tally[i], c.grants, o, got)
          && Step(cfg, c, e) == Move(cfg, c, i, o, got))
    ensures got == {} || (e.Deliver? && got == {e.m} && e.m in c.net && i == e.m.to
                          && o == OnMessage(cfg, c.nodes[i], e.m, e.env))
  {
    hide Move;
    hide Legal;
    hide NodeInv;
    hide NetInv;
    hide FreshInv;
    hide GrantInv;
    hide ElectedInv;
    hide Countable;
    hide OnTick;
    hide OnMessage;
    hide OnEmit;
    i, o, got := 0, Out(Node(0, 0, 0, Follower, 0, 0, 0, [], 0, 0), {}), {};
    match e
    case Tick(x, msec, rnd) =>
      if x in cfg.up {
        assert NodeInv(cfg, c.nodes[x], c.tally[x], c.grants);
        TickLegal(cfg, c.nodes[x], c.tally[x], c.grants, msec, rnd);
        i, o := x, OnTick(cfg, c.nodes[x], msec, rnd);
      }
    case Deliver(m, env) =>
      if m in c.net {
        VoteCountable(cfg, c, m);
        assert NodeInv(cfg, c.nodes[m.to], c.tally[m.to], c.grants);
        MessageLegal(cfg, c.nodes[m.to], c.tally[m.to], c.grants, m, env);
        i, o, got := m.to, OnMessage(cfg, c.nodes[m.to], m, env), {m};
      }
    case Emit(x, rnd) =>
      if x in cfg.up {
        assert NodeInv(cfg, c.nodes[x], c.tally[x], c.grants);
        EmitLegal(cfg, c.nodes[x], c.tally[x], c.grants, rnd);
        i, o := x, OnEmit(cfg, c.nodes[x], rnd);
      }
    case LogChange(x, lastIndex, lastTerm) =>
      if x in cfg.up {
        assert NodeInv(cfg, c.nodes[x], c.tally[x], c.grants);
        LogChangeLegal(cfg, c.nodes[x], c.tally[x], c.grants, lastIndex, lastTerm);
        i, o := x, Out(c.nodes[x].(lastIndex := lastIndex, lastTerm := lastTerm), {});
      }
  }

  lemma StepInv(cfg: Config, c: Cluster, e: Event)
    requires Inv(cfg, c)
    ensures Inv(cfg, Step(cfg, c, e))
  {
    var i, o, got := StepMoves(cfg, c, e);
    if Step(cfg, c, e) != c {
      MoveInv(cfg, c, i, o, got);
    }
  }

  /* ---------- the theorems ---------- */

  /** In no reachable state are two nodes leaders of the same term. */
  lemma AtMostOneLeader(cfg: Config, events: seq<Event>, i: nat, j: nat)
    requires cfg.Valid() && i in cfg.up && j in cfg.up
    ensures var c := Run(cfg, events);
      c.nodes[i].role == Leader && c.nodes[j].role == Leader && c.nodes[i].term == c.nodes[j].term ==> i == j
  {
    RunInv(cfg, events);
    var c := Run(cfg, events);
    if c.nodes[i].role == Leader && c.nodes[j].role == Leader && c.nodes[i].term == c.nodes[j].term && i != j {
      var e := Election(c.nodes[i].term, i, c.tally[i]);
      var e' := Election(c.nodes[j].term, j, c.tally[j]);
      assert NodeInv(cfg, c.nodes[i], c.tally[i], c.grants) && NodeInv(cfg, c.nodes[j], c.tally[j], c.grants);
      SecondElection(cfg, c, e, e');
      SecondElection(cfg, c, e', e);
    }
  }

  /** A voter grants one candidate per term. */
  lemma OneVotePerTerm(cfg: Config, events: seq<Event>, v: Grant, w: Grant)
    requires cfg.Valid()
    ensures var c := Run(cfg, events);
      v in c.grants && w in c.grants && v.voter == w.voter && v.term == w.term ==> v == w
  {
    RunInv(cfg, events);
    var c := Run(cfg, events);
    assert GrantInv(cfg, c);
  }

  /** "At most one leader is elected per term, ever": section 5.2 of the extended Raft paper. */
  ghost predicate ElectionSafety(c: Cluster) {
    forall a, b :: 0 <= a < b < |c.elected| ==> c.elected[a].term != c.elected[b].term
  }

  ghost predicate HasWon(c: Cluster, i: nat, term: int) {
    exists e <- c.elected :: e.leader == i && e.term == term
  }

  /** This event makes a node vote in a term it has won, which `handleClaim` has no guard against. */
  ghost predicate VotesAfterWinning(cfg: Config, c: Cluster, e: Event)
    requires Shaped(cfg, c)
  {
    && e.Deliver? && e.m in c.net && HasWon(c, e.m.to, e.m.term)
    && Vote(e.m.term, e.m.to, e.m.from, e.m.sequence, true) in OnMessage(cfg, c.nodes[e.m.to], e.m, e.env).sent
  }

  ghost predicate WinnersAbstain(c: Cluster) {
    forall g <- c.grants :: !HasWon(c, g.voter, g.term)
  }

  /** A node that wins a term has not voted in it, and a new vote answers the message that is handled. */
  lemma AbstainStep(cfg: Config, c: Cluster, e: Event)
    requires Inv(cfg, c) && WinnersAbstain(c) && !VotesAfterWinning(cfg, c, e)
    ensures WinnersAbstain(Step(cfg, c, e))
  {
    var i, o, got := StepMoves(cfg, c, e);
    var c' := Step(cfg, c, e);
    StepInv(cfg, c, e);
    assert GrantInv(cfg, c');
    hide Step;
    hide OnMessage;
    if c' != c {
      NewLeader(cfg, c, i, o, got);
      forall g | g in c'.grants
        ensures !HasWon(c', g.voter, g.term)
      {
        if HasWon(c', g.voter, g.term) {
          WonBefore(cfg, c, i, o, got, g);
          if g !in c.grants {
            NewGrant(cfg, c, i, o, got, g);
          }
        }
      }
    }
  }

  lemma WonBefore(cfg: Config, c: Cluster, i: nat, o: Out, got: set<Msg>, g: Grant)
    requires Shaped(cfg, c) && ElectedInv(cfg, c) && i in cfg.up && got <= c.net
    requires Legal(cfg, c.nodes[i], c.tally[i], c.grants, o, got)
    requires var c' := Move(cfg, c, i, o, got);
      Shaped(cfg, c') && GrantInv(cfg, c') && g in c'.grants && HasWon(c', g.voter, g.term)
    ensures HasWon(c, g.voter, g.term)
  {
    NewLeader(cfg, c, i, o, got);
    hide Legal;
    hide Move;
    var c' := Move(cfg, c, i, o, got);
    var e :| e in c'.elected && e.leader == g.voter && e.term == g.term;
    assert e in c.elected;
  }

  lemma NewGrant(cfg: Config, c: Cluster, i: nat, o: Out, got: set<Msg>, g: Grant)
    requires Shaped(cfg, c) && i in cfg.up && got <= c.net
    requires Legal(cfg, c.nodes[i], c.tally[i], c.grants, o, got)
    requires g in Move(cfg, c, i, o, got).grants && g !in c.grants
    ensures exists q <- got ::
      q.to == g.voter && q.term == g.term && Vote(q.term, q.to, q.from, q.sequence, true) in o.sent
  {
    var v :| v in o.sent && v.Vote? && v.granted && g == Grant(v.from, v.term, v.to);
    var q :| q in got && Answers(v, q);
    assert v == Vote(q.term, q.to, q.from, q.sequence, true);
  }

  /** Where no node votes in a term it has won, no term is won twice, whatever the size of the cluster. */
  lemma {:induction false} VotingGuardSuffices(cfg: Config, events: seq<Event>)
    requires cfg.Valid()
    requires forall k :: 0 <= k < |events| ==> !VotesAfterWinning(cfg, Run(cfg, events[..k]), events[k])
    ensures WinnersAbstain(Run(cfg, events)) && ElectionSafety(Run(cfg, events))
  {
    RunInv(cfg, events);
    hide Step;
    hide VotesAfterWinning;
    if events == [] {
    } else {
      var last := |events| - 1;
      var before := events[..last];
      forall k | 0 <= k < |before|
        ensures !VotesAfterWinning(cfg, Run(cfg, before[..k]), before[k])
      {
        assert before[..k] == events[..k];
      }
      VotingGuardSuffices(cfg, before);
      RunInv(cfg, before);
      AbstainStep(cfg, Run(cfg, before), events[last]);
    }
    AbstainingSuffices(cfg, Run(cfg, events));
  }

  lemma AbstainingSuffices(cfg: Config, c: Cluster)
    requires Inv(cfg, c) && WinnersAbstain(c)
    ensures ElectionSafety(c)
  {
    forall a, b | 0 <= a < b < |c.elected|
      ensures c.elected[a].term != c.elected[b].term
    {
      assert c.elected[a] in c.elected;
      assert c.elected[a].term == c.elected[b].term ==> BetrayedBy(c.grants, c.elected[a], c.elected[b]);
    }
  }

  /* ---------- in which clusters it can happen ---------- */

  /** Two quorums with one member in common, and two leaders, need an odd cluster of at least three. */
  lemma OneCommonMember(cfg: Config, a: set<nat>, b: set<nat>, v: nat, w: nat)
    requires a <= cfg.up && b <= cfg.up && HasQuorum(cfg, |a|) && HasQuorum(cfg, |b|)
    requires (forall x :: x in a && x in b ==> x == v) && v in a && v in b && w in b && w != v
    ensures |cfg.up| % 2 == 1 && |cfg.up| >= 3
  {
    assert a * b == {v};
    assert |a + b| == |a| + |b| - 1;
    SubsetSize(a + b, cfg.up);
    SubsetSize({v, w}, b);
  }

  lemma SafeSize(cfg: Config, events: seq<Event>)
    requires cfg.Valid() && (|cfg.up| % 2 == 0 || |cfg.up| < 3)
    ensures ElectionSafety(Run(cfg, events))
  {
    RunInv(cfg, events);
    var c := Run(cfg, events);
    forall a, b | 0 <= a < b < |c.elected|
      ensures c.elected[a].term != c.elected[b].term
    {
      var e, e' := c.elected[a], c.elected[b];
      if e.term == e'.term {
        assert e in c.elected && e' in c.elected;
        assert BetrayedBy(c.grants, e, e');
        OneCommonMember(cfg, e.quorum, e'.quorum, e.leader, e'.leader);
      }
    }
  }

  /** Node `x` stands for term 1 with so many votes. */
  ghost predicate Standing(cfg: Config, c: Cluster, x: nat, votes: int) {
    Shaped(cfg, c) && x in cfg.up && var n := c.nodes[x];
    n.term == 1 && n.voteFor == NOBODY && n.role == Candidate && n.votes == votes && n.lastIndex == -1
  }

  ghost predicate Unbound(n: Node) {
    n.term <= 1 && n.voteFor == NOBODY && n.lastIndex == -1
  }

  /** `x` has asked `v`, who will vote for it if asked now. */
  ghost predicate Awaits(cfg: Config, c: Cluster, x: nat, v: nat) {
    && Shaped(cfg, c)
    && x in cfg.up && v in cfg.up && v != x && v < |c.nodes[x].peers| && c.nodes[x].peers[v].sequence == 1
    && Claim(1, x, v, 1, -1, -1) in c.net && Unbound(c.nodes[v])
  }

  /** Nothing was taken back, and only nodes of `moved` have moved. */
  ghost predicate Kept(cfg: Config, c: Cluster, c': Cluster, moved: set<nat>) {
    && Shaped(cfg, c) && Shaped(cfg, c')
    && c.net <= c'.net
    && forall k <- cfg.up :: k !in moved ==> c'.nodes[k] == c.nodes[k]
  }

  ghost predicate Crowned(c: Cluster, c': Cluster, x: nat) {
    && |c'.elected| == |c.elected| + 1 && c.elected <= c'.elected
    && c'.elected[|c.elected|].term == 1 && c'.elected[|c.elected|].leader == x
  }

  /* ---------- one step of a node ---------- */

  ghost predicate HasClaimed(cfg: Config, i: nat, o: Out) {
    var n := o.node;
    && n.me == i && n.term == 1 && n.voteFor == NOBODY && n.role == Candidate && n.votes == 1 && n.lastIndex == -1
    && forall j <- cfg.up :: j != i ==>
         j < |n.peers| && n.peers[j].sequence == 1 && Claim(1, i, j, 1, -1, -1) in o.sent
  }

  lemma NodeTimesOut(cfg: Config, i: nat, rnd: int)
    requires cfg.Valid() && i in cfg.up && !HasQuorum(cfg, 1)
    ensures HasClaimed(cfg, i, OnTick(cfg, InitNode(cfg, i), cfg.firstTimers[i] + 1, rnd))
  {
    hide RecentPeers;
    var n := InitNode(cfg, i).(leaderId := NOBODY, role := Candidate, term := 1, timer := -1);
    forall j | j in cfg.up && j != i
      ensures Claim(1, i, j, 1, -1, -1) in OnClaimLeadership(cfg, n, rnd).sent
    {
      assert ClaimTo(n.(votes := 1), j) == Claim(1, i, j, 1, -1, -1);
    }
  }

  /** A node that has voted for nobody in term 1 grants a claim of term 1, whatever its role. */
  lemma NodeGrants(cfg: Config, n: Node, i: nat, env: Env)
    requires Sound(cfg, n) && i in cfg.up && Unbound(n)
    ensures OnMessage(cfg, n, Claim(1, i, n.me, 1, -1, -1), env).sent == {Vote(1, n.me, i, 1, true)}
    ensures OnMessage(cfg, n, Claim(1, i, n.me, 1, -1, -1), env).node.role == Follower
  {
  }

  /** The candidate `n` of term 1 after one more vote, from `v`. */
  ghost predicate HasCounted(cfg: Config, n: Node, n': Node, v: nat) {
    && Unbound(n') && n'.term == 1 && |n'.peers| == |n.peers|
    && (forall j :: 0 <= j < |n.peers| && j != v ==> n'.peers[j].sequence == n.peers[j].sequence)
    && (if HasQuorum(cfg, n.votes + 1) then n'.role == Leader
        else n'.role == Candidate && n'.votes == n.votes + 1)
  }

  lemma NodeCounts(cfg: Config, n: Node, v: nat, env: Env)
    requires Sound(cfg, n) && v in cfg.up && n.peers[v].sequence == 1
    requires n.term == 1 && n.voteFor == NOBODY && n.role == Candidate && n.lastIndex == -1
    ensures HasCounted(cfg, n, OnMessage(cfg, n, Vote(1, v, n.me, 1, true), env).node, v)
  {
  }

  /* ---------- one step of the cluster ---------- */

  /** Node `x` is now as `o` says, and has won its term if that made it a leader. */
  ghost predicate Stepped(cfg: Config, c: Cluster, c': Cluster, x: nat, o: Out) {
    && Shaped(cfg, c) && Shaped(cfg, c')
    && x in cfg.up && Kept(cfg, c, c', {x}) && c'.nodes[x] == o.node && o.sent <= c'.net
    && if o.node.role == Leader && c.nodes[x].role != Leader then
         && |c'.elected| == |c.elected| + 1 && c.elected <= c'.elected
         && c'.elected[|c.elected|].term == o.node.term && c'.elected[|c.elected|].leader == x
       else c'.elected == c.elected
  }

  lemma MoveSteps(cfg: Config, c: Cluster, x: nat, o: Out, got: set<Msg>)
    requires Shaped(cfg, c) && x in cfg.up && Shaped(cfg, Move(cfg, c, x, o, got))
    ensures Stepped(cfg, c, Move(cfg, c, x, o, got), x, o)
  {
  }

  lemma DeliverSteps(cfg: Config, c: Cluster, m: Msg, env: Env)
    requires Inv(cfg, c) && m in c.net
    ensures Shaped(cfg, c) && m.from < cfg.peerNumMax && m.to in cfg.up && Sound(cfg, c.nodes[m.to])
        && c.nodes[m.to].me == m.to
    ensures var c' := Step(cfg, c, Deliver(m, env));
      Inv(cfg, c') && Stepped(cfg, c, c', m.to, OnMessage(cfg, c.nodes[m.to], m, env))
  {
    StepInv(cfg, c, Deliver(m, env));
    hide OnMessage;
    hide Stepped;
    hide Move;
    MoveSteps(cfg, c, m.to, OnMessage(cfg, c.nodes[m.to], m, env), {m});
  }

  lemma TickSteps(cfg: Config, c: Cluster, x: nat, msec: int, rnd: int)
    requires Inv(cfg, c) && x in cfg.up
    ensures Shaped(cfg, c) && Sound(cfg, c.nodes[x])
    ensures var c' := Step(cfg, c, Tick(x, msec, rnd));
      Inv(cfg, c') && Stepped(cfg, c, c', x, OnTick(cfg, c.nodes[x], msec, rnd))
  {
    StepInv(cfg, c, Tick(x, msec, rnd));
    hide OnTick;
    hide Stepped;
    hide Move;
    MoveSteps(cfg, c, x, OnTick(cfg, c.nodes[x], msec, rnd), {});
  }

  ghost predicate FirstClaim(cfg: Config, c: Cluster, c': Cluster, x: nat) {
    && Kept(cfg, c, c', {x}) && c'.elected == c.elected && Standing(cfg, c', x, 1)
    && (forall v <- cfg.up :: Unbound(c'.nodes[v]))
    && forall v <- cfg.up :: v != x ==> Awaits(cfg, c', x, v)
  }

  /** Node `x` has not moved since it started, and nobody is bound. */
  ghost predicate Fresh(cfg: Config, c: Cluster, x: nat) {
    && Shaped(cfg, c) && x in cfg.up && x < |cfg.firstTimers| && !HasQuorum(cfg, 1)
    && c.nodes[x] == InitNode(cfg, x) && forall v <- cfg.up :: Unbound(c.nodes[v])
  }

  lemma TimesOut(cfg: Config, c: Cluster, x: nat, msec: int, rnd: int)
    requires Inv(cfg, c) && Fresh(cfg, c, x) && msec == cfg.firstTimers[x] + 1
    ensures Inv(cfg, Step(cfg, c, Tick(x, msec, rnd))) && FirstClaim(cfg, c, Step(cfg, c, Tick(x, msec, rnd)), x)
  {
    TickSteps(cfg, c, x, msec, rnd);
    hide Inv;
    hide Step;
    hide OnTick;
    NodeTimesOut(cfg, x, rnd);
    ClaimsFirst(cfg, c, Step(cfg, c, Tick(x, msec, rnd)), x, OnTick(cfg, c.nodes[x], msec, rnd));
  }

  lemma ClaimsFirst(cfg: Config, c: Cluster, c': Cluster, x: nat, o: Out)
    requires Fresh(cfg, c, x) && Stepped(cfg, c, c', x, o) && HasClaimed(cfg, x, o)
    ensures FirstClaim(cfg, c, c', x)
  {
    hide InitNode;
    hide HasQuorum;
    forall v | v in cfg.up
      ensures Unbound(c'.nodes[v])
    {
      assert v == x || c'.nodes[v] == c.nodes[v];
    }
  }

  lemma Grants(cfg: Config, c: Cluster, x: nat, v: nat, env: Env)
    requires Inv(cfg, c) && Awaits(cfg, c, x, v)
    ensures var c' := Step(cfg, c, Deliver(Claim(1, x, v, 1, -1, -1), env));
      Inv(cfg, c') && Kept(cfg, c, c', {v}) && c'.elected == c.elected && Vote(1, v, x, 1, true) in c'.net
  {
    DeliverSteps(cfg, c, Claim(1, x, v, 1, -1, -1), env);
    NodeGrants(cfg, c.nodes[v], x, env);
    hide Inv;
    hide Step;
    hide OnMessage;
  }

  ghost predicate Asked(cfg: Config, c: Cluster, x: nat, v: nat) {
    Shaped(cfg, c) && x in cfg.up && v in cfg.up && v < |c.nodes[x].peers| && c.nodes[x].peers[v].sequence == 1
  }

  ghost predicate Counted(cfg: Config, c: Cluster, c': Cluster, x: nat, v: nat, votes: int) {
    && Kept(cfg, c, c', {x}) && x in cfg.up && Unbound(c'.nodes[x]) && |c'.nodes[x].peers| == |c.nodes[x].peers|
    && (forall j :: 0 <= j < |c.nodes[x].peers| && j != v ==>
         c'.nodes[x].peers[j].sequence == c.nodes[x].peers[j].sequence)
    && if HasQuorum(cfg, votes) then Crowned(c, c', x) else Standing(cfg, c', x, votes) && c'.elected == c.elected
  }

  lemma CountsOne(cfg: Config, c: Cluster, c': Cluster, x: nat, v: nat, votes: int, o: Out)
    requires Standing(cfg, c, x, votes) && Stepped(cfg, c, c', x, o) && HasCounted(cfg, c.nodes[x], o.node, v)
    ensures Counted(cfg, c, c', x, v, votes + 1)
  {
    hide Shaped;
    hide HasQuorum;
  }

  lemma StandingNode(cfg: Config, c: Cluster, x: nat, v: nat, votes: int)
    requires Standing(cfg, c, x, votes) && Asked(cfg, c, x, v)
    ensures x in c.nodes && Sound(cfg, c.nodes[x]) && c.nodes[x].me == x && v in cfg.up && v < |c.nodes[x].peers|
    ensures var n := c.nodes[x];
      n.peers[v].sequence == 1 && n.term == 1 && n.voteFor == NOBODY && n.role == Candidate && n.lastIndex == -1
  {
  }

  lemma Counts(cfg: Config, c: Cluster, x: nat, v: nat, votes: int, env: Env)
    requires Inv(cfg, c) && Standing(cfg, c, x, votes) && Asked(cfg, c, x, v) && Vote(1, v, x, 1, true) in c.net
    ensures var c' := Step(cfg, c, Deliver(Vote(1, v, x, 1, true), env));
      Inv(cfg, c') && Counted(cfg, c, c', x, v, votes + 1)
  {
    var m := Vote(1, v, x, 1, true);
    hide *;
    DeliverSteps(cfg, c, m, env);
    StandingNode(cfg, c, x, v, votes);
    NodeCounts(cfg, c.nodes[x], v, env);
    CountsOne(cfg, c, Step(cfg, c, Deliver(m, env)), x, v, votes, OnMessage(cfg, c.nodes[x], m, env));
  }

  /* ---------- gathering votes ---------- */

  /** The first `k` of `voters` hear the claim of `x` and answer, one after the other. */
  ghost function Canvass(x: nat, voters: seq<nat>, k: nat, env: Env): seq<Event>
    requires k <= |voters|
  {
    if k == 0 then []
    else Canvass(x, voters, k - 1, env)
         + [Deliver(Claim(1, x, voters[k - 1], 1, -1, -1), env), Deliver(Vote(1, voters[k - 1], x, 1, true), env)]
  }

  function Movers(x: nat, voters: seq<nat>, k: nat): set<nat>
    requires k <= |voters|
  {
    {x} + set v | v in voters[..k]
  }

  /** `x` after asking the first `k` voters, from a cluster `c`. */
  ghost predicate Gathered(cfg: Config, c: Cluster, c': Cluster, x: nat, voters: seq<nat>, k: nat) {
    && Shaped(cfg, c) && Shaped(cfg, c') && k <= |voters|
    && x in cfg.up && Unbound(c'.nodes[x])
    && Kept(cfg, c, c', Movers(x, voters, k))
    && if HasQuorum(cfg, k + 1) then Crowned(c, c', x)
       else Standing(cfg, c', x, k + 1) && c'.elected == c.elected
            && forall j :: k <= j < |voters| ==> Awaits(cfg, c', x, voters[j])
  }

  lemma OneVoter(cfg: Config, c: Cluster, c1: Cluster, c2: Cluster, c3: Cluster, x: nat, voters: seq<nat>, k: nat,
      env: Env)
    requires Inv(cfg, c1) && Distinct(voters) && k < |voters| && !HasQuorum(cfg, k + 1)
        && Gathered(cfg, c, c1, x, voters, k)
    requires c2 == Step(cfg, c1, Deliver(Claim(1, x, voters[k], 1, -1, -1), env)) && Shaped(cfg, c2)
    requires c3 == Step(cfg, c2, Deliver(Vote(1, voters[k], x, 1, true), env))
    ensures Gathered(cfg, c, c3, x, voters, k + 1)
  {
    hide *;
    var v := voters[k];
    NextVoter(cfg, c, c1, x, voters, k);
    Grants(cfg, c1, x, v, env);
    StillAsked(cfg, c1, c2, x, v);
    Counts(cfg, c2, x, v, k + 1, env);
    MoreGathered(cfg, c, c1, c2, c3, x, voters, k);
  }

  lemma NextVoter(cfg: Config, c: Cluster, c1: Cluster, x: nat, voters: seq<nat>, k: nat)
    requires Gathered(cfg, c, c1, x, voters, k) && k < |voters| && !HasQuorum(cfg, k + 1)
    ensures Standing(cfg, c1, x, k + 1) && Awaits(cfg, c1, x, voters[k]) && voters[k] != x
  {
    hide Shaped;
    hide Kept;
  }

  lemma StillAsked(cfg: Config, c1: Cluster, c2: Cluster, x: nat, v: nat)
    requires Awaits(cfg, c1, x, v) && Kept(cfg, c1, c2, {v})
    ensures Asked(cfg, c2, x, v)
    ensures forall votes: int :: Standing(cfg, c1, x, votes) ==> Standing(cfg, c2, x, votes)
  {
    assert c2.nodes[x] == c1.nodes[x];
    hide Shaped;
  }

  lemma MoreGathered(cfg: Config, c: Cluster, c1: Cluster, c2: Cluster, c3: Cluster, x: nat, voters: seq<nat>, k: nat)
    requires Distinct(voters) && k < |voters| && !HasQuorum(cfg, k + 1) && Gathered(cfg, c, c1, x, voters, k)
    requires Kept(cfg, c1, c2, {voters[k]}) && c2.elected == c1.elected && voters[k] != x
    requires Counted(cfg, c2, c3, x, voters[k], k + 2)
    ensures Gathered(cfg, c, c3, x, voters, k + 1)
  {
    hide HasQuorum;
    assert voters[..k + 1] == voters[..k] + [voters[k]];
    assert c2.nodes[x] == c1.nodes[x];
    hide Shaped;
    forall j | k + 1 <= j < |voters|
      ensures c3.elected == c2.elected ==> Awaits(cfg, c3, x, voters[j])
    {
      assert Awaits(cfg, c1, x, voters[j]) && voters[j] != voters[k];
      assert c3.nodes[voters[j]] == c2.nodes[voters[j]] == c1.nodes[voters[j]];
    }
  }

  lemma NoneGathered(cfg: Config, c: Cluster, x: nat, voters: seq<nat>)
    requires !HasQuorum(cfg, 1) && Standing(cfg, c, x, 1)
    requires forall j :: 0 <= j < |voters| ==> Awaits(cfg, c, x, voters[j])
    ensures Gathered(cfg, c, c, x, voters, 0)
  {
  }

  lemma QuorumGrows(cfg: Config, k: nat)
    requires k > 0 && !HasQuorum(cfg, k)
    ensures !HasQuorum(cfg, k - 1)
  {
  }

  lemma {:induction false} Gathers(cfg: Config, events: seq<Event>, x: nat, voters: seq<nat>, k: nat, env: Env)
    requires cfg.Valid() && Distinct(voters) && k <= |voters| && !HasQuorum(cfg, 1) && !HasQuorum(cfg, k)
    requires var c := Run(cfg, events);
      Standing(cfg, c, x, 1) && forall j :: 0 <= j < |voters| ==> Awaits(cfg, c, x, voters[j])
    ensures Gathered(cfg, Run(cfg, events), Run(cfg, events + Canvass(x, voters, k, env)), x, voters, k)
  {
    hide *;
    var c := Run(cfg, events);
    CanvassIs(x, voters, k, env);
    if k == 0 {
      assert events + Canvass(x, voters, 0, env) == events;
      NoneGathered(cfg, c, x, voters);
    } else {
      QuorumGrows(cfg, k);
      Gathers(cfg, events, x, voters, k - 1, env);
      var es := events + Canvass(x, voters, k - 1, env);
      var e, f := Deliver(Claim(1, x, voters[k - 1], 1, -1, -1), env), Deliver(Vote(1, voters[k - 1], x, 1, true), env);
      RunInv(cfg, es);
      RunTwice(cfg, es, e, f);
      OneVoter(cfg, c, Run(cfg, es), Run(cfg, es + [e]), Run(cfg, es + [e, f]), x, voters, k - 1, env);
      assert events + Canvass(x, voters, k, env) == es + [e, f];
    }
  }

  lemma CanvassIs(x: nat, voters: seq<nat>, k: nat, env: Env)
    requires k <= |voters|
    ensures k == 0 ==> Canvass(x, voters, k, env) == []
    ensures k > 0 ==>
      Canvass(x, voters, k, env) == Canvass(x, voters, k - 1, env)
        + [Deliver(Claim(1, x, voters[k - 1], 1, -1, -1), env), Deliver(Vote(1, voters[k - 1], x, 1, true), env)]
  {
  }

  lemma RunTwice(cfg: Config, events: seq<Event>, e: Event, f: Event)
    requires cfg.Valid()
    ensures Run(cfg, events + [e]) == Step(cfg, Run(cfg, events), e)
    ensures Run(cfg, events + [e, f]) == Step(cfg, Run(cfg, events + [e]), f)
  {
    hide Step;
    assert (events + [e])[..|events|] == events;
    assert (events + [e, f])[..|events| + 1] == events + [e];
  }

  /* ---------- every odd cluster of at least three ---------- */

  /** The peers that are up, in some order. */
  ghost predicate Lists(cfg: Config, peers: seq<nat>) {
    Distinct(peers) && |peers| == |cfg.up| && forall v :: v in peers <==> v in cfg.up
  }

  lemma {:induction false} SomeOrder(s: set<nat>) returns (peers: seq<nat>)
    ensures Distinct(peers) && |peers| == |s| && forall v :: v in peers <==> v in s
  {
    if s == {} {
      peers := [];
    } else {
      var v :| v in s;
      peers := SomeOrder(s - {v});
      peers := peers + [v];
    }
  }

  /** The voters of the first winner, the others being itself, the second winner and the rest. */
  function FirstVoters(peers: seq<nat>): seq<nat>
    requires |peers| >= 3
  {
    peers[2..2 + (|peers| - 1) / 2]
  }

  /** The voters of the second winner: the first winner, and who has not voted yet. */
  function SecondVoters(peers: seq<nat>): seq<nat>
    requires |peers| >= 3
  {
    [peers[0]] + peers[2 + (|peers| - 1) / 2..]
  }

  /** The first two of `peers` time out at once; half of the others vote for the first one; then it hears the
      claim of the second one and votes for it, as does the rest. */
  ghost function TwoWinners(cfg: Config, peers: seq<nat>, env: Env): (events: seq<Event>)
    requires cfg.Valid() && Lists(cfg, peers) && |peers| % 2 == 1 && |peers| >= 3
  {
    var q := |peers| / 2;
    BothTimeOut(cfg, peers, env)
    + Canvass(peers[0], FirstVoters(peers), q, env)
    + Canvass(peers[1], SecondVoters(peers), q, env)
  }

  ghost function BothTimeOut(cfg: Config, peers: seq<nat>, env: Env): (events: seq<Event>)
    requires cfg.Valid() && Lists(cfg, peers) && |peers| >= 3
  {
    assert peers[0] in peers && peers[1] in peers;
    [Tick(peers[0], cfg.firstTimers[peers[0]] + 1, env.rnd), Tick(peers[1], cfg.firstTimers[peers[1]] + 1, env.rnd)]
  }

  lemma BothStand(cfg: Config, peers: seq<nat>, env: Env)
    requires cfg.Valid() && Lists(cfg, peers) && |peers| >= 3
    ensures BothReady(cfg, Run(cfg, BothTimeOut(cfg, peers, env)), peers[0], peers[1])
  {
    hide *;
    BothTimeOutIs(cfg, peers, env);
    var a, b := peers[0], peers[1];
    var e, f := Tick(a, cfg.firstTimers[a] + 1, env.rnd), Tick(b, cfg.firstTimers[b] + 1, env.rnd);
    var c0 := Run(cfg, []);
    ColdStart(cfg);
    ColdIsFresh(cfg, c0, a);
    RunInv(cfg, []);
    RunInv(cfg, [e]);
    RunTwice(cfg, [], e, f);
    assert [] + [e] == [e] && [] + [e, f] == [e, f];
    TimesOut(cfg, c0, a, cfg.firstTimers[a] + 1, env.rnd);
    var c1 := Run(cfg, [e]);
    OneClaims(cfg, c0, c1, a, b);
    TimesOut(cfg, c1, b, cfg.firstTimers[b] + 1, env.rnd);
    BothClaim(cfg, c0, c1, Run(cfg, [e, f]), a, b);
  }

  ghost predicate BothReady(cfg: Config, c: Cluster, a: nat, b: nat) {
    && c.elected == [] && Standing(cfg, c, a, 1) && Standing(cfg, c, b, 1)
    && (forall v <- cfg.up :: v != a ==> Awaits(cfg, c, a, v))
    && (forall v <- cfg.up :: v != b ==> Awaits(cfg, c, b, v))
  }

  lemma BothTimeOutIs(cfg: Config, peers: seq<nat>, env: Env)
    requires cfg.Valid() && Lists(cfg, peers) && |peers| >= 3
    ensures peers[0] in cfg.up && peers[1] in cfg.up && peers[0] != peers[1] && |cfg.up| >= 3
    ensures peers[0] < |cfg.firstTimers| && peers[1] < |cfg.firstTimers|
    ensures BothTimeOut(cfg, peers, env)
      == [Tick(peers[0], cfg.firstTimers[peers[0]] + 1, env.rnd),
          Tick(peers[1], cfg.firstTimers[peers[1]] + 1, env.rnd)]
  {
    assert peers[0] in peers && peers[1] in peers;
  }

  ghost predicate Cold(cfg: Config, c: Cluster) {
    && Shaped(cfg, c) && c.elected == []
    && forall v <- cfg.up :: c.nodes[v] == InitNode(cfg, v) && Unbound(c.nodes[v])
  }

  lemma ColdStart(cfg: Config)
    requires cfg.Valid()
    ensures Cold(cfg, Run(cfg, []))
  {
  }

  lemma ColdIsFresh(cfg: Config, c: Cluster, x: nat)
    requires Cold(cfg, c) && x in cfg.up && |cfg.up| >= 3
    ensures Fresh(cfg, c, x)
  {
    hide InitNode;
  }

  lemma OneClaims(cfg: Config, c0: Cluster, c1: Cluster, a: nat, b: nat)
    requires Cold(cfg, c0) && Fresh(cfg, c0, a) && FirstClaim(cfg, c0, c1, a) && a != b && b in cfg.up
    ensures Fresh(cfg, c1, b)
  {
    hide InitNode;
  }

  lemma BothClaim(cfg: Config, c0: Cluster, c1: Cluster, c2: Cluster, a: nat, b: nat)
    requires Cold(cfg, c0) && FirstClaim(cfg, c0, c1, a) && FirstClaim(cfg, c1, c2, b) && a != b && b in cfg.up
    ensures BothReady(cfg, c2, a, b)
  {
    hide InitNode;
    assert c2.nodes[a] == c1.nodes[a];
    hide Shaped;
    forall v | v in cfg.up && v != a
      ensures Awaits(cfg, c2, a, v)
    {
      assert Awaits(cfg, c1, a, v);
    }
  }

  lemma StillStanding(cfg: Config, c: Cluster, c': Cluster, x: nat, moved: set<nat>)
    requires Kept(cfg, c, c', moved) && x !in moved && Standing(cfg, c, x, 1)
    ensures Standing(cfg, c', x, 1)
  {
  }

  lemma StillAwaits(cfg: Config, c: Cluster, c': Cluster, x: nat, v: nat, moved: set<nat>)
    requires Kept(cfg, c, c', moved) && x !in moved && Awaits(cfg, c, x, v)
    requires v !in moved || (v in c'.nodes && Unbound(c'.nodes[v]))
    ensures Awaits(cfg, c', x, v)
  {
  }

  /** In a cluster of odd size, at least three, two nodes can win one term, one after the other. */
  lemma ElectionSafetyFails(cfg: Config, peers: seq<nat>, env: Env)
    requires cfg.Valid() && Lists(cfg, peers) && |peers| % 2 == 1 && |peers| >= 3
    ensures !ElectionSafety(Run(cfg, TwoWinners(cfg, peers, env)))
  {
    hide *;
    var a, b, q := peers[0], peers[1], |peers| / 2;
    var s, t := FirstVoters(peers), SecondVoters(peers);
    var es := BothTimeOut(cfg, peers, env);
    Voters(cfg, peers);
    BothStand(cfg, peers, env);
    FirstAwaits(cfg, peers, Run(cfg, es));
    Gathers(cfg, es, a, s, q, env);
    var es1 := es + Canvass(a, s, q, env);
    SecondAwaits(cfg, peers, Run(cfg, es), Run(cfg, es1));
    Gathers(cfg, es1, b, t, q, env);
    BothCrowned(cfg, peers, Run(cfg, es), Run(cfg, es1), Run(cfg, es1 + Canvass(b, t, q, env)));
    TwoWinnersIs(cfg, peers, env);
  }

  lemma TwoWinnersIs(cfg: Config, peers: seq<nat>, env: Env)
    requires cfg.Valid() && Lists(cfg, peers) && |peers| % 2 == 1 && |peers| >= 3
    ensures |FirstVoters(peers)| == |SecondVoters(peers)| == |peers| / 2
    ensures var q := |peers| / 2;
      TwoWinners(cfg, peers, env) == BothTimeOut(cfg, peers, env) + Canvass(peers[0], FirstVoters(peers), q, env)
                                     + Canvass(peers[1], SecondVoters(peers), q, env)
  {
  }

  lemma FirstReady(cfg: Config, c: Cluster, a: nat, b: nat)
    requires BothReady(cfg, c, a, b)
    ensures c.elected == [] && Standing(cfg, c, a, 1) && forall v <- cfg.up :: v != a ==> Awaits(cfg, c, a, v)
  {
  }

  lemma FirstAwaits(cfg: Config, peers: seq<nat>, c: Cluster)
    requires Lists(cfg, peers) && |peers| % 2 == 1 && |peers| >= 3 && BothReady(cfg, c, peers[0], peers[1])
    ensures c.elected == [] && Standing(cfg, c, peers[0], 1)
    ensures forall j :: 0 <= j < |FirstVoters(peers)| ==> Awaits(cfg, c, peers[0], FirstVoters(peers)[j])
  {
    Voters(cfg, peers);
    hide *;
    FirstReady(cfg, c, peers[0], peers[1]);
  }

  /** After the first election the second candidate still stands, and the first winner will vote for it. */
  lemma SecondAwaits(cfg: Config, peers: seq<nat>, c: Cluster, c1: Cluster)
    requires Lists(cfg, peers) && |peers| % 2 == 1 && |peers| >= 3
    requires BothReady(cfg, c, peers[0], peers[1]) && Gathered(cfg, c, c1, peers[0], FirstVoters(peers), |peers| / 2)
    ensures Standing(cfg, c1, peers[1], 1)
    ensures forall j :: 0 <= j < |SecondVoters(peers)| ==> Awaits(cfg, c1, peers[1], SecondVoters(peers)[j])
  {
    hide *;
    Voters(cfg, peers);
    var a, b, s, t, q := peers[0], peers[1], FirstVoters(peers), SecondVoters(peers), |peers| / 2;
    GatheredParts(cfg, c, c1, a, s, q);
    ReadyParts(cfg, c, a, b);
    InMovers(a, s, q, b);
    StillStanding(cfg, c, c1, b, Movers(a, s, q));
    forall j | 0 <= j < |t|
      ensures Awaits(cfg, c1, b, t[j])
    {
      InMovers(a, s, q, t[j]);
      StillAwaits(cfg, c, c1, b, t[j], Movers(a, s, q));
    }
  }

  lemma InMovers(x: nat, voters: seq<nat>, k: nat, v: nat)
    requires k <= |voters|
    ensures v in Movers(x, voters, k) <==> v == x || exists j :: 0 <= j < k && voters[j] == v
  {
  }

  lemma ReadyParts(cfg: Config, c: Cluster, a: nat, b: nat)
    requires BothReady(cfg, c, a, b)
    ensures Standing(cfg, c, b, 1) && forall v <- cfg.up :: v != b ==> Awaits(cfg, c, b, v)
  {
  }

  lemma GatheredParts(cfg: Config, c: Cluster, c': Cluster, x: nat, voters: seq<nat>, k: nat)
    requires Gathered(cfg, c, c', x, voters, k)
    ensures k <= |voters| && Kept(cfg, c, c', Movers(x, voters, k)) && x in c'.nodes && Unbound(c'.nodes[x])
    ensures HasQuorum(cfg, k + 1) ==> Crowned(c, c', x)
  {
  }

  lemma BothCrowned(cfg: Config, peers: seq<nat>, c: Cluster, c1: Cluster, c2: Cluster)
    requires Lists(cfg, peers) && |peers| % 2 == 1 && |peers| >= 3
    requires c.elected == [] && Gathered(cfg, c, c1, peers[0], FirstVoters(peers), |peers| / 2)
    requires Gathered(cfg, c1, c2, peers[1], SecondVoters(peers), |peers| / 2)
    ensures !ElectionSafety(c2)
  {
    hide *;
    Voters(cfg, peers);
    GatheredParts(cfg, c, c1, peers[0], FirstVoters(peers), |peers| / 2);
    GatheredParts(cfg, c1, c2, peers[1], SecondVoters(peers), |peers| / 2);
    CrownedTwice(c, c1, c2, peers[0], peers[1]);
  }

  lemma CrownedTwice(c: Cluster, c1: Cluster, c2: Cluster, a: nat, b: nat)
    requires c.elected == [] && Crowned(c, c1, a) && Crowned(c1, c2, b)
    ensures !ElectionSafety(c2)
  {
    assert c2.elected[0].term == c2.elected[1].term;
  }

  lemma Voters(cfg: Config, peers: seq<nat>)
    requires Lists(cfg, peers) && |peers| % 2 == 1 && |peers| >= 3
    ensures var s, t, q := FirstVoters(peers), SecondVoters(peers), |peers| / 2;
      && |s| == |t| == q && Distinct(s) && Distinct(t) && peers[0] != peers[1] && t[0] == peers[0]
      && (forall j :: 0 <= j < q ==> s[j] in cfg.up && s[j] != peers[0] && s[j] != peers[1])
      && (forall j :: 0 <= j < q ==> t[j] in cfg.up && t[j] != peers[1] && t[j] !in s)
      && !HasQuorum(cfg, 1) && !HasQuorum(cfg, q) && HasQuorum(cfg, q + 1)
  {
  }

  /** Election Safety holds of every run exactly in the clusters of even size and in those of fewer than three
      nodes: elsewhere two quorums can meet in the earlier winner alone. */
  lemma ElectionSafetyExactly(cfg: Config)
    requires cfg.Valid()
    ensures (forall events :: ElectionSafety(Run(cfg, events))) <==> |cfg.up| % 2 == 0 || |cfg.up| < 3
  {
    if |cfg.up| % 2 == 0 || |cfg.up| < 3 {
      forall events
        ensures ElectionSafety(Run(cfg, events))
      {
        SafeSize(cfg, events);
      }
    } else {
      var peers := SomeOrder(cfg.up);
      ElectionSafetyFails(cfg, peers, Env(0, true, true, true));
    }
  }

  lemma RecentNext(cfg: Config, n: Node, i: nat)
    requires i < |n.peers|
    ensures i !in RecentPeers(cfg, n, i)
    ensures RecentPeers(cfg, n, i + 1) ==
      if Others(cfg, n, i) && n.peers[i].silentMs + cfg.heartbeatMs < cfg.electionMsMax then
        RecentPeers(cfg, n, i) + {i}
      else RecentPeers(cfg, n, i)
  {
  }

  /* ---------- the node itself ---------- */

  /** The fields of `Raft` that an election touches.  Each method returns the datagrams it sends. */
  class RaftNode {
    const cfg: Config
    const me: nat
    var term: int
    var voteFor: int
    var role: Role
    var votes: int
    var leaderId: int
    var timer: int
    var peers: seq<Peer>
    var lastIndex: int
    var lastTerm: int

    ghost function State(): Node
      reads this
    {
      Node(me, term, voteFor, role, votes, leaderId, timer, peers, lastIndex, lastTerm)
    }

    ghost predicate Valid()
      reads this
    {
      Sound(cfg, State())
    }

    /** `m_timer` starts at the timeout that `peerUp` draws for the node itself. */
    constructor (cfg: Config, me: nat)
      requires cfg.Valid() && me in cfg.up
      ensures Valid() && this.cfg == cfg
      ensures State() == InitNode(cfg, me)
      ensures term == 0 && voteFor == -1 && role == Follower && votes == 0 && leaderId == -1
      ensures timer == cfg.firstTimers[me] && lastIndex == -1 && lastTerm == -1
      ensures forall i :: 0 <= i < |peers| ==> peers[i] == Peer(0, 0)
    {
      this.cfg, this.me := cfg, me;
      term, voteFor, role, votes, leaderId := 0, NOBODY, Follower, 0, NOBODY;
      timer := cfg.firstTimers[me];
      peers := seq(cfg.peerNumMax, _ => Peer(0, 0));
      lastIndex, lastTerm := -1, -1;
    }

    method RestartTimer(rnd: int)
      requires Valid()
      modifies this
      ensures State() == ResetTimer(cfg, old(State()), rnd)
    {
      if role == Leader {
        if timer == cfg.heartbeatMs {
          timer := timer + cfg.heartbeatMs;
        } else {
          timer := cfg.heartbeatMs;
        }
      } else {
        timer := rnd;
      }
    }

    method ResetSilentTime()
      requires Valid()
      modifies `peers
      ensures peers == seq(|old(peers)|, i requires 0 <= i < |old(peers)| => old(peers)[i].(silentMs := 0))
    {
      ghost var was := peers;
      for i := 0 to cfg.peerNumMax
        invariant |peers| == |was|
        invariant forall j :: 0 <= j < i ==> peers[j] == was[j].(silentMs := 0)
        invariant forall j :: i <= j < |was| ==> peers[j] == was[j]
      {
        peers := peers[i := peers[i].(silentMs := 0)];
      }
    }

    method TryLeadership(rnd: int) returns (won: bool)
      requires Valid()
      modifies this
      ensures State() == BecomeLeader(cfg, old(State()), rnd)
      ensures won == HasQuorum(cfg, old(votes))
    {
      won := votes * 2 > cfg.PeerNum();
      if won {
        role := Leader;
        leaderId := me;
        ResetSilentTime();
        RestartTimer(rnd);
      }
    }

    method ClaimLeadership(rnd: int) returns (sent: set<Msg>)
      requires Valid()
      modifies this
      ensures Out(State(), sent) == OnClaimLeadership(cfg, old(State()), rnd)
    {
      sent := {};
      votes := 1;
      var won := TryLeadership(rnd);
      if !won {
        ghost var was := State();
        for i := 0 to cfg.peerNumMax
          invariant State() == was.(peers := Bumped(cfg, was, i))
          invariant sent == set j | j in cfg.up && j != me && j < i :: ClaimTo(was, j)
        {
          if i in cfg.up && i != me {
            peers := peers[i := peers[i].(sequence := peers[i].sequence + 1)];
            sent := sent + {Claim(term, me, i, peers[i].sequence, lastIndex, lastTerm)};
          }
        }
      }
    }

    method BeatAll() returns (sent: set<Msg>)
      requires Valid()
      modifies `peers
      ensures Out(State(), sent) == OnBeatAll(cfg, old(State()))
    {
      sent := {};
      ghost var was := State();
      for i := 0 to cfg.peerNumMax
        invariant State() == was.(peers := Bumped(cfg, was, i))
        invariant sent == set j | j in cfg.up && j != me && j < i :: UpdateTo(was, j)
      {
        if i in cfg.up && i != me {
          peers := peers[i := peers[i].(sequence := peers[i].sequence + 1)];
          sent := sent + {Update(term, me, i, peers[i].sequence)};
        }
      }
    }

    method IncreaseSilentTime() returns (recent: nat)
      requires Valid()
      modifies `peers
      ensures recent == 1 + |RecentPeers(cfg, old(State()), |old(peers)|)|
      ensures peers == Aged(cfg, old(State()), |old(peers)|)
    {
      recent := 1;
      ghost var was := State();
      for i := 0 to cfg.peerNumMax
        invariant peers == Aged(cfg, was, i)
        invariant recent == 1 + |RecentPeers(cfg, was, i)|
      {
        if i in cfg.up && i != me {
          peers := peers[i := peers[i].(silentMs := peers[i].silentMs + cfg.heartbeatMs)];
          if peers[i].silentMs < cfg.electionMsMax {
            recent := recent + 1;
          }
        }
        RecentNext(cfg, was, i);
      }
    }

    method CheckIsLeader()
      requires Valid()
      modifies this
      ensures State() == CheckQuorum(cfg, old(State()))
    {
      var recent := IncreaseSilentTime();
      if role == Leader && recent * 2 <= cfg.PeerNum() {
        leaderId := NOBODY;
        role := Follower;
      }
    }

    method Timeout(rnd: int) returns (sent: set<Msg>)
      requires Valid()
      modifies this
      ensures Out(State(), sent) == OnTimeout(cfg, old(State()), rnd)
    {
      match role
      case Follower =>
        leaderId := NOBODY;
        role := Candidate;
        term := term + 1;
        sent := ClaimLeadership(rnd);
      case Candidate =>
        term := term + 1;
        sent := ClaimLeadership(rnd);
      case Leader =>
        sent := BeatAll();
    }

    method HandleTick(msec: int, rnd: int) returns (sent: set<Msg>)
      requires Valid()
      modifies this
      ensures Valid() && Out(State(), sent) == OnTick(cfg, old(State()), msec, rnd)
    {
      sent := {};
      timer := timer - msec;
      if timer < 0 {
        sent := Timeout(rnd);
        RestartTimer(rnd);
      }
      CheckIsLeader();
    }

    method RaiseTerm(newTerm: int)
      requires newTerm > term
      modifies this
      ensures State() == SetTerm(old(State()), newTerm)
    {
      term := newTerm;
      voteFor := NOBODY;
      votes := 0;
    }

    method HandleClaim(m: Msg, rnd: int) returns (reply: Msg)
      requires Valid() && m.Claim?
      modifies this
      ensures Out(State(), {reply}) == OnClaim(cfg, old(State()), m, rnd)
      ensures reply == Vote(term, me, m.from, m.sequence, reply.granted)
      ensures reply.granted <==>
        && m.term >= old(term)
        && (m.index > lastIndex || (m.index == lastIndex && (m.index < 0 || m.lastTerm == lastTerm)))
        && (m.term > old(term) || old(voteFor) == -1 || old(voteFor) == m.from)
      ensures term == (if m.term > old(term) then m.term else old(term))
      ensures voteFor == if reply.granted then m.from else if m.term > old(term) then -1 else old(voteFor)
      ensures votes == if m.term > old(term) then 0 else old(votes)
      ensures role == if m.term >= old(term) then Follower else old(role)
      ensures timer == if reply.granted then rnd else old(timer)
      ensures leaderId == old(leaderId) && peers == old(peers)
      ensures lastIndex == old(lastIndex) && lastTerm == old(lastTerm)
    {
      if m.term >= term {
        if m.term > term {
          RaiseTerm(m.term);
        }
        role := Follower;
      }
      var granted := false;
      if m.term < term || m.index < lastIndex || (m.index == lastIndex && m.index >= 0 && lastTerm != m.lastTerm) {
      } else if voteFor == NOBODY || voteFor == m.from {
        voteFor := m.from;
        RestartTimer(rnd);
        granted := true;
      }
      reply := Vote(term, me, m.from, m.sequence, granted);
    }

    method HandleVote(m: Msg, rnd: int)
      requires Valid() && m.Vote? && m.from < cfg.peerNumMax
      modifies this
      ensures State() == OnVote(cfg, old(State()), m, rnd)
    {
      if m.sequence != peers[m.from].sequence {
        return;
      }
      peers := peers[m.from := peers[m.from].(sequence := peers[m.from].sequence + 1)];
      if m.term < term || role != Candidate {
        return;
      }
      if m.granted {
        votes := votes + 1;
      }
      var _ := TryLeadership(rnd);
    }

    method HandleUpdate(m: Msg, env: Env) returns (reply: Msg)
      requires Valid() && m.Update? && m.from < cfg.peerNumMax
      modifies this
      ensures Out(State(), {reply}) == OnUpdate(cfg, old(State()), m, env)
    {
      if !env.appendable || m.term < term {
        return Done(term, me, m.from, m.sequence, false);
      }
      leaderId := m.from;
      peers := peers[m.from := peers[m.from].(silentMs := 0)];
      RestartTimer(env.rnd);
      reply := Done(term, me, m.from, m.sequence, env.accepted);
    }

    method HandleDone(m: Msg, env: Env) returns (sent: set<Msg>)
      requires Valid() && m.Done? && m.from < cfg.peerNumMax
      modifies this
      ensures Out(State(), sent) == OnDone(old(State()), m, env)
    {
      sent := {};
      if role != Leader || m.from == me || m.sequence != peers[m.from].sequence {
        return;
      }
      peers := peers[m.from := peers[m.from].(sequence := peers[m.from].sequence + 1)];
      if m.term < term {
        return;
      }
      if m.success {
        peers := peers[m.from := peers[m.from].(silentMs := 0)];
      }
      if env.behind {
        peers := peers[m.from := peers[m.from].(sequence := peers[m.from].sequence + 1)];
        sent := {Update(term, me, m.from, peers[m.from].sequence)};
      }
    }

    method HandleMessage(m: Msg, env: Env) returns (sent: set<Msg>)
      requires Valid() && m.from < cfg.peerNumMax
      modifies this
      ensures Valid() && Out(State(), sent) == OnMessage(cfg, old(State()), m, env)
    {
      if m.term > term {
        RaiseTerm(m.term);
        role := Follower;
      }
      match m
      case Claim(_, _, _, _, _, _) =>
        var reply := HandleClaim(m, env.rnd);
        sent := {reply};
      case Vote(_, _, _, _, _) =>
        HandleVote(m, env.rnd);
        sent := {};
      case Update(_, _, _, _) =>
        var reply := HandleUpdate(m, env);
        sent := {reply};
      case Done(_, _, _, _, _) =>
        sent := HandleDone(m, env);
    }
  }
}
