/**
 A partition of the message broker (example/mqbroker/partition.cc): an append-only log cut into
 segments of fixed size, a sparse index per segment, the recovery scan, and the lookup behind a pull.

 Logs are bytes.  A segment is named by the number of its first message.  `Partition` keeps the last
 segment open; the rolled ones are closed.
 */
module Partition {
  import opened MqCodec
  import NetBuffer
  import opened Wrappers

  /** `key` counts messages within the segment, `pos` is a byte position in it. */
  datatype Line = Line(key: nat, pos: nat)

  /** `lines` is the index in memory, `disk` the index file. */
  datatype Segment = Segment(base: nat, log: seq<Byte>, lines: seq<Line>, disk: seq<Line>)

  /** `singleFileMaxSize`, `msgblockMaxSize`, `indexMinInterval`; `slack` is the number of zeros that a mapped
      file shows behind its end, up to the end of the page. */
  datatype Config = Config(max: nat, block: nat, interval: nat, slack: nat)

  /** `length`, `last` and `size` are `m_lastLogFileLength`, `m_lastOffsetIndexInFile` and `m_size`;
      `unsynced` is `m_index_buffer`. */
  datatype State = State(rolled: seq<Segment>, open: Segment, length: nat, last: nat, size: nat, unsynced: seq<Line>)

  const PULL := 4

  /* ---------- writing ---------- */

  function Zeros(n: nat): (s: seq<Byte>)
    ensures |s| == n && forall i :: 0 <= i < n ==> s[i] == 0
  {
    seq(n, _ => 0)
  }

  function Fresh(c: Config, base: nat): Segment {
    Segment(base, Zeros(c.max), [], [])
  }

  function Init(c: Config): State {
    State([], Fresh(c, 0), 0, 0, 0, [])
  }

  /** `syncTodisk`. */
  function Sync(s: State): State {
    s.(open := s.open.(disk := s.open.disk + s.unsynced), unsynced := [])
  }

  /** `mmapNewLog`. */
  function Roll(c: Config, s: State): State {
    State(s.rolled + [Sync(s).open], Fresh(c, s.size), 0, 0, s.size, [])
  }

  function Overwritten(log: seq<Byte>, at: nat, data: seq<Byte>): (r: seq<Byte>)
    requires at + |data| <= |log|
    ensures |r| == |log|
  {
    log[..at] + data + log[at + |data|..]
  }

  /** `std::map::lower_bound`: the first line whose key is not below `x`. */
  function LowerBound(lines: seq<Line>, x: nat): (i: nat)
    ensures i <= |lines|
    ensures forall j :: 0 <= j < i ==> lines[j].key < x
    ensures i < |lines| ==> lines[i].key >= x
  {
    if lines == [] || lines[0].key >= x then 0 else 1 + LowerBound(lines[1..], x)
  }

  /** `std::map::insert`: keeps a line that is there. */
  function Insert(lines: seq<Line>, l: Line): seq<Line> {
    var i := LowerBound(lines, l.key);
    if i < |lines| && lines[i].key == l.key then lines else lines[..i] + [l] + lines[i..]
  }

  /** The packet as it is stored: stamped with the command of a pull and its number. */
  function Stamped(p: Packet, n: nat): Packet {
    p.(command := PULL, offset := n)
  }

  /** A segment has room for the packet: else a new one is opened before it is written. */
  function Opened(c: Config, s: State, p: Packet): State {
    if c.max - s.length < Length(p) then Roll(c, s) else s
  }

  predicate Indexed(c: Config, s: State, p: Packet) {
    var key := s.size + 1 - s.open.base;
    Length(p) > c.block || key > s.last + c.interval
  }

  /** `addToLog`, for a buffer that holds one whole packet.  The line kept in memory points to the start of
      the packet, the one for the index file past its end. */
  function Add(c: Config, s: State, p: Packet, j: Junk): State
    requires WellFormed(Stamped(p, Opened(c, s, p).size)) && Fits(j)
    requires var s1 := Opened(c, s, p); s1.length + Length(p) <= |s1.open.log| && s1.open.base <= s1.size
  {
    var s1 := Opened(c, s, p);
    var e := s1.open;
    var q := Stamped(p, s1.size);
    EncodeLength(q, j);
    var log := Overwritten(e.log, s1.length, Encode(q, j));
    if Indexed(c, s1, p) then
      var key := s1.size + 1 - e.base;
      State(s1.rolled, e.(log := log, lines := Insert(e.lines, Line(key, s1.length))), s1.length + Length(p),
            key, s1.size + 1, s1.unsynced + [Line(key, s1.length + Length(p))])
    else
      s1.(open := e.(log := log), length := s1.length + Length(p), size := s1.size + 1)
  }

  /* ---------- recovery ---------- */

  /** Where the end marker of the packet at `pos` should be, if the header can be read there. */
  function MarkerAt(log: seq<Byte>, pos: nat): nat
    requires pos + BODY <= |log|
  {
    pos + BODY + FromLE(log[pos + 64..pos + 68]) + FromLE(log[pos + 68..pos + 72])
  }

  /** The last file as it is mapped. */
  function Mapped(c: Config, log: seq<Byte>): seq<Byte> {
    log + Zeros(c.slack)
  }

  /** A packet with its end marker at `pos`, before the end of the file, which is byte `cap`. */
  predicate ScanGoesOn(log: seq<Byte>, cap: nat, pos: nat) {
    pos + BODY < |log| && MarkerAt(log, pos) < |log| && log[MarkerAt(log, pos)] == 255 && pos < cap
  }

  /** `findLastSequenceMsg`: where the scan over the last log stops, and how many packets it has counted. */
  function ScanEnd(log: seq<Byte>, cap: nat, pos: nat): nat
    decreases |log| - pos
  {
    if ScanGoesOn(log, cap, pos) then ScanEnd(log, cap, MarkerAt(log, pos) + 12) else pos
  }

  function ScanCount(log: seq<Byte>, cap: nat, pos: nat): nat
    decreases |log| - pos
  {
    if ScanGoesOn(log, cap, pos) then 1 + ScanCount(log, cap, MarkerAt(log, pos) + 12) else 0
  }

  /** The broker is started again: the logs are as they were, of each index file the lines `kept` have
      survived. */
  function Restart(c: Config, s: State, kept: seq<seq<Line>>, keptOpen: seq<Line>): State
    requires |kept| == |s.rolled|
  {
    State(seq(|kept|, i requires 0 <= i < |kept| => s.rolled[i].(lines := kept[i], disk := kept[i])),
          s.open.(lines := keptOpen, disk := keptOpen),
          ScanEnd(Mapped(c, s.open.log), c.max, 0),
          if keptOpen == [] then 0 else keptOpen[|keptOpen| - 1].key,
          s.open.base + ScanCount(Mapped(c, s.open.log), c.max, 0),
          [])
  }

  /* ---------- the lookup of a pull ---------- */

  function Segments(s: State): (r: seq<Segment>)
    ensures |r| == |s.rolled| + 1
  {
    s.rolled + [s.open]
  }

  /** The first segment whose base is not below `o`. */
  function SegmentBound(segs: seq<Segment>, o: nat): (i: nat)
    ensures i <= |segs|
    ensures forall j :: 0 <= j < i ==> segs[j].base < o
    ensures i < |segs| ==> segs[i].base >= o
  {
    if segs == [] || segs[0].base >= o then 0 else 1 + SegmentBound(segs[1..], o)
  }

  /** The segment that a pull at message `o` reads. */
  function SegmentOf(segs: seq<Segment>, o: nat): (i: nat)
    requires segs != []
    ensures i < |segs|
  {
    var it := SegmentBound(segs, o);
    var it := if it == |segs| then it - 1 else it;
    if segs[it].base != o && it != 0 && segs[it].base > o then it - 1 else it
  }

  /** The index line that the lookup of message `x` of a segment starts from, if any. */
  function Chosen(lines: seq<Line>, x: nat): seq<Line> {
    var it := LowerBound(lines, x);
    if it == |lines| then []
    else
      var it := if lines[it].key != x && it != 0 then it - 1 else it;
      if lines[it].key <= x then [lines[it]] else []
  }

  /** The position reached by stepping over `n` packets from `pos`. */
  function Skip(log: seq<Byte>, pos: nat, n: nat): nat
    decreases n
  {
    if n == 0 || pos + BODY > |log| then pos else Skip(log, MarkerAt(log, pos) + 12, n - 1)
  }

  /** Where the pull of message `x` of a segment starts to send. */
  function Position(g: Segment, x: nat): nat {
    var line := Chosen(g.lines, x);
    if line == [] then Skip(g.log, 0, x) else Skip(g.log, line[0].pos, x - line[0].key)
  }

  /** The loop of `sendToConsumer` that decides how far to send from `at`: `i` bytes have been looked at, `n`
      accepted, `m` is the most the consumer takes.  A packet that reaches the end of the file ends the loop
      before it is accepted. */
  function SliceFrom(log: seq<Byte>, at: nat, i: nat, n: nat, m: nat): nat
    decreases |log| - i
  {
    if i > m || at + i >= |log| || log[at + i] != PULL || at + i + BODY > |log| then n
    else
      var len := MarkerAt(log, at + i) + 12 - (at + i);
      if len <= m - i && (MarkerAt(log, at + i) >= |log| || log[MarkerAt(log, at + i)] != 255) then n
      else if at + i + len >= |log| then n
      else SliceFrom(log, at, i + len, if i + len <= m then n + len else n, m)
  }

  /** `maxEnableBytes` of the request; a negative one stands for the size of a file. */
  function Slice(log: seq<Byte>, at: nat, maxEnableBytes: int): nat {
    SliceFrom(log, at, 0, 0, if maxEnableBytes >= 0 then maxEnableBytes else |log|)
  }

  /* ---------- what a segment holds ---------- */

  /** The packets of the segment that starts with message `base`, as they are stored. */
  ghost predicate Stored(w: seq<Sent>, base: nat) {
    && Sendable(w)
    && forall k :: 0 <= k < |w| ==> w[k].packet.command == PULL && w[k].packet.offset == base + k
  }

  ghost predicate Ascending(lines: seq<Line>) {
    forall i, j :: 0 <= i < j < |lines| ==> lines[i].key < lines[j].key
  }

  /** A line written to the index file points to the message with its key. */
  predicate ToNext(w: seq<Sent>, l: Line) {
    1 <= l.key <= |w| && l.pos == Bytes(w, l.key)
  }

  /** A line made in memory points to the message before. */
  predicate ToPrevious(w: seq<Sent>, l: Line) {
    1 <= l.key <= |w| && l.pos == Bytes(w, l.key - 1)
  }

  ghost predicate Index(w: seq<Sent>, lines: seq<Line>) {
    Ascending(lines) && forall i :: 0 <= i < |lines| ==> ToNext(w, lines[i]) || ToPrevious(w, lines[i])
  }

  ghost predicate IndexFile(w: seq<Sent>, lines: seq<Line>) {
    Ascending(lines) && forall i :: 0 <= i < |lines| ==> ToNext(w, lines[i])
  }

  /** Nothing has been written from byte `n` on. */
  predicate ZeroFrom(log: seq<Byte>, n: nat) {
    forall i :: n <= i < |log| ==> log[i] == 0
  }

  ghost predicate Holds(g: Segment, w: seq<Sent>) {
    && Stored(w, g.base) && Stream(w) <= g.log && ZeroFrom(g.log, Bytes(w, |w|))
    && Index(w, g.lines) && IndexFile(w, g.disk)
  }

  lemma {:induction false} Longer(w: seq<Sent>, a: nat, b: nat)
    requires a < b <= |w|
    ensures Bytes(w, a) + HEADER < Bytes(w, b)
  {
    if a + 1 < b {
      Longer(w, a, b - 1);
    }
  }

  /** Stream `w` at its packet `k`. */
  lemma PacketAt(w: seq<Sent>, log: seq<Byte>, k: nat)
    requires Sendable(w) && Stream(w) <= log && k < |w|
    ensures Bytes(w, k + 1) == Bytes(w, k) + Length(w[k].packet) <= |log|
    ensures Encode(w[k].packet, w[k].junk) <= log[Bytes(w, k)..]
  {
    StreamLength(w);
    BytesMonotone(w, k + 1, |w|);
    SendableTail(w, k);
    StreamSplit(w, k);
    StreamStep(w[k..]);
    var e, n := Encode(w[k].packet, w[k].junk), Bytes(w, k);
    EncodeLength(w[k].packet, w[k].junk);
    hide *;
    FrontOfTail(Stream(w), log, n, Stream(w[k..]));
    assert Stream(w[k..]) == e + Stream(w[k..][1..]);
    PrefixTrans(e, Stream(w[k..]), log[n..]);
  }

  lemma FrontOfTail(t: seq<Byte>, log: seq<Byte>, n: nat, rest: seq<Byte>)
    requires t <= log && n <= |t| && t == t[..n] + rest
    ensures n <= |log| && rest <= log[n..]
  {
    assert rest == t[n..];
    assert t == log[..|t|];
    assert log[n..][..|rest|] == t[n..];
  }

  lemma PrefixTrans(a: seq<Byte>, b: seq<Byte>, c: seq<Byte>)
    requires a <= b <= c
    ensures a <= c
  {
    assert b == c[..|b|];
    assert a == b[..|a|];
    assert a == c[..|a|];
  }

  /** Reading the lengths and the marker at packet `k` leads to packet `k + 1`. */
  lemma MarkerFound(w: seq<Sent>, log: seq<Byte>, k: nat)
    requires Sendable(w) && Stream(w) <= log && k < |w|
    ensures Bytes(w, k) + HEADER < Bytes(w, k + 1) <= |log|
    ensures MarkerAt(log, Bytes(w, k)) + 12 == Bytes(w, k + 1) && log[MarkerAt(log, Bytes(w, k))] == 255
    ensures log[Bytes(w, k)] == w[k].packet.command
  {
    hide *;
    PacketAt(w, log, k);
    var p, j, n := w[k].packet, w[k].junk, Bytes(w, k);
    var s := log[n..];
    SentOk(w, k);
    EncodeLength(p, j);
    AtLeastHeader(p);
    AgreesWith(s, Encode(p, j));
    HeaderArrived(p, j, s);
    BodyArrived(p, j, s);
    MarkerIs(log, n);
    LengthIs(p);
    assert s[BODY + |p.topic| + |p.message|] == log[n + (BODY + |p.topic| + |p.message|)];
  }

  lemma SentOk(w: seq<Sent>, k: nat)
    requires Sendable(w) && k < |w|
    ensures WellFormed(w[k].packet) && Fits(w[k].junk)
  {
  }

  lemma AgreesWith(s: seq<Byte>, e: seq<Byte>)
    requires e <= s
    ensures Compatible(s, e) && |e| <= |s|
  {
  }

  lemma LengthIs(p: Packet)
    ensures Length(p) == BODY + |p.topic| + |p.message| + 12 && HEADER == 80 && BODY == 72
  {
  }

  lemma MarkerIs(log: seq<Byte>, pos: nat)
    requires pos + HEADER < |log|
    ensures HEADER > BODY && MarkerAt(log, pos) == pos + BODY + TopicBytes(log[pos..]) + MsgBytes(log[pos..])
  {
    hide FromLE;
    var s := log[pos..];
    assert s[64..68] == log[pos + 64..pos + 68] && s[68..72] == log[pos + 68..pos + 72];
  }

  lemma SkipStep(log: seq<Byte>, pos: nat, n: nat)
    requires n > 0 && pos + BODY <= |log|
    ensures Skip(log, pos, n) == Skip(log, MarkerAt(log, pos) + 12, n - 1)
  {
  }

  lemma SkipNone(log: seq<Byte>, at: nat)
    ensures Skip(log, at, 0) == at
  {
  }

  /** Stepping over packets leads from packet to packet. */
  lemma {:induction false} SkipLands(w: seq<Sent>, log: seq<Byte>, k: nat, n: nat)
    requires Sendable(w) && Stream(w) <= log && k + n <= |w|
    ensures Skip(log, Bytes(w, k), n) == Bytes(w, k + n)
    decreases n
  {
    hide *;
    SkipNone(log, Bytes(w, k));
    if n == 0 {
    } else {
      MarkerFound(w, log, k);
      HeaderSize();
      SkipStep(log, Bytes(w, k), n);
      SkipLands(w, log, k + 1, n - 1);
    }
  }

  lemma NoBytes(w: seq<Sent>)
    ensures Bytes(w, 0) == 0
  {
  }

  lemma StoredSends(w: seq<Sent>, base: nat)
    requires Stored(w, base)
    ensures Sendable(w)
  {
  }

  /** A pull at message `x` of a segment starts exactly at it, when the lookup starts from the beginning or
      from a line of the index file, and one message earlier when it starts from a line made in memory. */
  lemma PullLands(g: Segment, w: seq<Sent>, x: nat)
    requires Holds(g, w) && x < |w|
    ensures var line := Chosen(g.lines, x);
      && (Position(g, x) == Bytes(w, x) || (x > 0 && Position(g, x) == Bytes(w, x - 1)))
      && (Position(g, x) == Bytes(w, x) <==> line == [] || ToNext(w, line[0]))
  {
    var line := Chosen(g.lines, x);
    HeldStream(g, w);
    if line == [] {
      hide *;
      SkipLands(w, g.log, 0, x);
      NoBytes(w);
      PositionIs(g, x);
    } else {
      HeldLine(g, w, x);
      hide *;
      LineLands(g, w, x, line[0]);
    }
  }

  lemma HeldStream(g: Segment, w: seq<Sent>)
    requires Holds(g, w)
    ensures Sendable(w) && Stream(w) <= g.log
  {
    StoredSends(w, g.base);
  }

  lemma HeldLine(g: Segment, w: seq<Sent>, x: nat)
    requires Holds(g, w) && x < |w| && Chosen(g.lines, x) != []
    ensures var l := Chosen(g.lines, x)[0]; 1 <= l.key <= x && (ToNext(w, l) || ToPrevious(w, l))
  {
    hide Bytes;
    hide Stored;
    hide IndexFile;
  }

  lemma PositionIs(g: Segment, x: nat)
    ensures var line := Chosen(g.lines, x);
      && (line == [] ==> Position(g, x) == Skip(g.log, 0, x))
      && (line != [] ==> line[0].key <= x && Position(g, x) == Skip(g.log, line[0].pos, x - line[0].key))
  {
    hide Skip;
  }

  lemma LineLands(g: Segment, w: seq<Sent>, x: nat, l: Line)
    requires Sendable(w) && Stream(w) <= g.log && x < |w| && Chosen(g.lines, x) == [l]
    requires 1 <= l.key <= x && (ToNext(w, l) || ToPrevious(w, l))
    ensures Position(g, x) == Bytes(w, x) || Position(g, x) == Bytes(w, x - 1)
    ensures Position(g, x) == Bytes(w, x) <==> ToNext(w, l)
  {
    hide *;
    PositionIs(g, x);
    NextStart(w, x - 1);
    LineIs(w, l);
    if ToNext(w, l) {
      SkipLands(w, g.log, l.key, x - l.key);
    } else {
      SkipLands(w, g.log, l.key - 1, x - l.key);
    }
  }

  lemma NextStart(w: seq<Sent>, k: nat)
    requires k < |w|
    ensures Bytes(w, k) < Bytes(w, k + 1)
  {
    Longer(w, k, k + 1);
  }

  lemma LineIs(w: seq<Sent>, l: Line)
    requires ToNext(w, l) || ToPrevious(w, l)
    ensures 1 <= l.key <= |w| && l.pos == if ToNext(w, l) then Bytes(w, l.key) else Bytes(w, l.key - 1)
  {
    hide Bytes;
  }

  /** From message `k` on, the end of the longest run of messages through `j` or later whose bytes are at most
      `m` and which ends before byte `cap`. */
  function RunEnd(w: seq<Sent>, k: nat, j: nat, m: nat, cap: nat): (e: nat)
    requires k <= j <= |w|
    ensures j <= e <= |w|
    decreases |w| - j
  {
    if j < |w| && Bytes(w, j + 1) - Bytes(w, k) <= m && Bytes(w, j + 1) < cap then RunEnd(w, k, j + 1, m, cap) else j
  }

  lemma {:induction false} RunEndIsLongest(w: seq<Sent>, k: nat, j: nat, m: nat, cap: nat)
    requires k <= j <= |w| && Bytes(w, j) - Bytes(w, k) <= m && Bytes(w, j) < cap
    ensures var e := RunEnd(w, k, j, m, cap);
      && Bytes(w, e) - Bytes(w, k) <= m && Bytes(w, e) < cap
      && forall e' :: e < e' <= |w| ==> Bytes(w, e') - Bytes(w, k) > m || Bytes(w, e') >= cap
    decreases |w| - j
  {
    hide Bytes;
    if j < |w| && Bytes(w, j + 1) - Bytes(w, k) <= m && Bytes(w, j + 1) < cap {
      RunEndIsLongest(w, k, j + 1, m, cap);
    } else {
      forall e' | j < e' <= |w|
        ensures Bytes(w, e') - Bytes(w, k) > m || Bytes(w, e') >= cap
      {
        BytesMonotone(w, j + 1, e');
      }
    }
  }

  lemma SliceStep(log: seq<Byte>, at: nat, i: nat, m: nat)
    requires i <= m && at + i + BODY < |log| && log[at + i] == PULL
    requires at + i < MarkerAt(log, at + i) < |log| && log[MarkerAt(log, at + i)] == 255
    ensures var i' := MarkerAt(log, at + i) + 12 - at;
      SliceFrom(log, at, i, i, m) == if i' <= m && at + i' < |log| then SliceFrom(log, at, i', i', m) else i
  {
    hide MarkerAt;
    var i' := MarkerAt(log, at + i) + 12 - at;
    if i' > m && at + i' < |log| {
      assert SliceFrom(log, at, i', i, m) == i;
    }
  }

  lemma SliceStop(log: seq<Byte>, at: nat, i: nat, m: nat)
    requires at + i < |log| && log[at + i] != PULL
    ensures SliceFrom(log, at, i, i, m) == i
  {
  }

  lemma {:induction false} SliceRuns(w: seq<Sent>, base: nat, log: seq<Byte>, k: nat, j: nat, m: nat)
    requires Stored(w, base) && Sendable(w) && Stream(w) <= log && ZeroFrom(log, Bytes(w, |w|))
    requires k <= j <= |w| && Bytes(w, k) <= Bytes(w, j) < |log| && Bytes(w, j) - Bytes(w, k) <= m
    ensures SliceFrom(log, Bytes(w, k), Bytes(w, j) - Bytes(w, k), Bytes(w, j) - Bytes(w, k), m)
         == Bytes(w, RunEnd(w, k, j, m, |log|)) - Bytes(w, k)
    decreases |w| - j
  {
    hide *;
    var at, i := Bytes(w, k), Bytes(w, j) - Bytes(w, k);
    HeaderSize();
    RunEndStep(w, k, j, m, |log|);
    if j == |w| {
      TailIsZero(log, Bytes(w, |w|));
      SliceStop(log, at, i, m);
    } else {
      MarkerFound(w, log, j);
      StoredPull(w, base, j);
      SliceStep(log, at, i, m);
      if Bytes(w, j + 1) - Bytes(w, k) <= m && Bytes(w, j + 1) < |log| {
        SliceRuns(w, base, log, k, j + 1, m);
      }
    }
  }

  lemma RunEndStep(w: seq<Sent>, k: nat, j: nat, m: nat, cap: nat)
    requires k <= j <= |w|
    ensures RunEnd(w, k, j, m, cap) ==
      if j < |w| && Bytes(w, j + 1) - Bytes(w, k) <= m && Bytes(w, j + 1) < cap then RunEnd(w, k, j + 1, m, cap) else j
  {
    hide Bytes;
  }

  lemma TailIsZero(log: seq<Byte>, n: nat)
    requires ZeroFrom(log, n) && n < |log|
    ensures log[n] != PULL
  {
  }

  lemma StoredPull(w: seq<Sent>, base: nat, j: nat)
    requires Stored(w, base) && j < |w|
    ensures w[j].packet.command == PULL
  {
  }

  /** What a pull sends from message `k` on: whole messages, the longest run of at most `maxEnableBytes` bytes
      that ends before the last byte of the segment file. */
  lemma SliceIsLongestRun(g: Segment, w: seq<Sent>, k: nat, maxEnableBytes: int)
    requires Holds(g, w) && k < |w|
    ensures var m := if maxEnableBytes >= 0 then maxEnableBytes else |g.log|;
      var e := RunEnd(w, k, k, m, |g.log|);
      && Slice(g.log, Bytes(w, k), maxEnableBytes) == Bytes(w, e) - Bytes(w, k) <= m && Bytes(w, e) < |g.log|
      && (forall e' :: e < e' <= |w| ==> Bytes(w, e') - Bytes(w, k) > m || Bytes(w, e') >= |g.log|)
  {
    var m := if maxEnableBytes >= 0 then maxEnableBytes else |g.log|;
    HoldsParts(g, w);
    hide Holds;
    hide Stored;
    hide Stream;
    hide SliceFrom;
    hide RunEnd;
    hide ZeroFrom;
    MarkerFound(w, g.log, k);
    SliceRuns(w, g.base, g.log, k, k, m);
    RunEndIsLongest(w, k, k, m, |g.log|);
    hide Bytes;
  }

  lemma HoldsParts(g: Segment, w: seq<Sent>)
    requires Holds(g, w)
    ensures Stored(w, g.base) && Sendable(w) && Stream(w) <= g.log && ZeroFrom(g.log, Bytes(w, |w|))
  {
  }

  /** The pull sends something exactly when the first message fits the request and does not fill the file to
      its last byte; so a message that does fill it is never sent. */
  lemma SendsSomethingExactly(g: Segment, w: seq<Sent>, k: nat, maxEnableBytes: int)
    requires Holds(g, w) && k < |w|
    ensures Slice(g.log, Bytes(w, k), maxEnableBytes) > 0 <==>
      (maxEnableBytes < 0 || Length(w[k].packet) <= maxEnableBytes) && Bytes(w, k + 1) < |g.log|
  {
    var m := if maxEnableBytes >= 0 then maxEnableBytes else |g.log|;
    SliceIsLongestRun(g, w, k, maxEnableBytes);
    var e := RunEnd(w, k, k, m, |g.log|);
    if e > k {
      Longer(w, k, e);
      BytesMonotone(w, k + 1, e);
    }
    assert Bytes(w, k + 1) == Bytes(w, k) + Length(w[k].packet);
    hide Bytes;
    hide Length;
    hide Slice;
    hide Holds;
  }

  function Bases(segs: seq<Segment>): (r: seq<nat>)
    ensures |r| == |segs| && forall i :: 0 <= i < |segs| ==> r[i] == segs[i].base
  {
    seq(|segs|, i requires 0 <= i < |segs| => segs[i].base)
  }

  /** The segments follow one another without a gap: each starts where the one before ends. */
  ghost predicate Consecutive(bases: seq<nat>, ws: seq<seq<Sent>>) {
    && |bases| == |ws| > 0 && bases[0] == 0
    && forall i, j :: 0 <= i < j < |bases| && j == i + 1 ==> bases[j] == bases[i] + |ws[i]| && |ws[i]| > 0
  }

  /** The segment chosen for message `o` is the one that has it. */
  lemma SegmentFound(segs: seq<Segment>, ws: seq<seq<Sent>>, o: nat)
    requires segs != [] && Consecutive(Bases(segs), ws) && o < segs[|segs| - 1].base + |ws[|ws| - 1]|
    ensures var i := SegmentOf(segs, o); segs[i].base <= o < segs[i].base + |ws[i]|
  {
    var i, bases := SegmentOf(segs, o), Bases(segs);
    if i < |segs| - 1 {
      assert bases[i + 1] == bases[i] + |ws[i]|;
    }
  }

  /* ---------- what every operation keeps ---------- */

  /** The open segment holds `w` and nothing behind it. */
  ghost predicate OpenHolds(c: Config, s: State, w: seq<Sent>) {
    && Holds(s.open, w) && |s.open.log| == c.max && s.length == Bytes(w, |w|) && ZeroFrom(s.open.log, s.length)
    && s.size == s.open.base + |w| && IndexFile(w, s.open.disk + s.unsynced)
  }

  ghost predicate RolledHold(rolled: seq<Segment>, hist: seq<seq<Sent>>) {
    |rolled| < |hist| && forall i :: 0 <= i < |rolled| ==> Holds(rolled[i], hist[i])
  }

  /** The segments hold the messages `hist`, segment by segment. */
  ghost predicate Inv(c: Config, s: State, hist: seq<seq<Sent>>) {
    && Consecutive(Bases(Segments(s)), hist)
    && RolledHold(s.rolled, hist)
    && OpenHolds(c, s, hist[|hist| - 1])
  }

  lemma InitInv(c: Config)
    ensures Inv(c, Init(c), [[]])
  {
    NewSegment(c, 0);
  }

  lemma SyncOpen(c: Config, s: State, w: seq<Sent>)
    requires OpenHolds(c, s, w)
    ensures OpenHolds(c, Sync(s), w) && Holds(Sync(s).open, w)
  {
    hide Stored;
    hide Index;
    hide IndexFile;
    hide Stream;
    hide Bytes;
    hide ZeroFrom;
    assert s.open.disk + s.unsynced + [] == s.open.disk + s.unsynced;
  }

  lemma SyncInv(c: Config, s: State, hist: seq<seq<Sent>>)
    requires Inv(c, s, hist)
    ensures Inv(c, Sync(s), hist)
  {
    hide OpenHolds;
    hide Consecutive;
    hide Holds;
    assert Bases(Segments(Sync(s))) == Bases(Segments(s));
    SyncOpen(c, s, hist[|hist| - 1]);
  }

  lemma RollInv(c: Config, s: State, hist: seq<seq<Sent>>)
    requires Inv(c, s, hist) && hist[|hist| - 1] != []
    ensures Inv(c, Roll(c, s), hist + [[]])
  {
    hide *;
    InvParts(c, s, hist);
    var w := hist[|hist| - 1];
    SyncOpen(c, s, w);
    OpenSize(c, s, w);
    FreshOpen(c, s);
    RollBases(c, s);
    ConsecutiveSnoc(Bases(Segments(s)), hist, s.size);
    RolledSnoc(s.rolled, hist, Sync(s).open);
    assert (hist + [[]])[|hist|] == [];
    InvWhole(c, Roll(c, s), hist + [[]]);
  }

  lemma InvParts(c: Config, s: State, hist: seq<seq<Sent>>)
    requires Inv(c, s, hist)
    ensures Consecutive(Bases(Segments(s)), hist) && |hist| == |s.rolled| + 1 && |Bases(Segments(s))| == |hist|
    ensures RolledHold(s.rolled, hist) && OpenHolds(c, s, hist[|hist| - 1])
    ensures Bases(Segments(s))[|hist| - 1] == s.open.base
  {
    hide OpenHolds;
    hide RolledHold;
  }

  lemma InvWhole(c: Config, s: State, hist: seq<seq<Sent>>)
    requires hist != [] && Consecutive(Bases(Segments(s)), hist) && RolledHold(s.rolled, hist)
    requires OpenHolds(c, s, hist[|hist| - 1])
    ensures Inv(c, s, hist)
  {
  }

  lemma RollBases(c: Config, s: State)
    ensures Bases(Segments(Roll(c, s))) == Bases(Segments(s)) + [s.size]
    ensures Roll(c, s).rolled == s.rolled + [Sync(s).open]
  {
  }

  lemma RolledSnoc(rolled: seq<Segment>, hist: seq<seq<Sent>>, g: Segment)
    requires RolledHold(rolled, hist) && |hist| == |rolled| + 1 && Holds(g, hist[|rolled|])
    ensures RolledHold(rolled + [g], hist + [[]])
  {
    hide Holds;
  }

  lemma ConsecutiveSnoc(bases: seq<nat>, ws: seq<seq<Sent>>, b: nat)
    requires Consecutive(bases, ws) && ws[|ws| - 1] != [] && b == bases[|bases| - 1] + |ws[|ws| - 1]|
    ensures Consecutive(bases + [b], ws + [[]])
  {
    var bs, vs := bases + [b], ws + [[]];
    assert forall i :: 0 <= i < |bases| ==> bs[i] == bases[i] && vs[i] == ws[i];
  }

  lemma OpenSize(c: Config, s: State, w: seq<Sent>)
    requires OpenHolds(c, s, w)
    ensures s.size == s.open.base + |w|
  {
  }

  lemma FreshOpen(c: Config, s: State)
    ensures OpenHolds(c, Roll(c, s), [])
  {
    NewSegment(c, s.size);
    hide Holds;
    hide Bytes;
    hide IndexFile;
  }

  lemma NewSegment(c: Config, base: nat)
    ensures OpenHolds(c, State([], Fresh(c, base), 0, 0, base, []), [])
    ensures Holds(Fresh(c, base), []) && Bytes([], 0) == 0 && IndexFile([], [])
  {
  }

  lemma {:induction false} StreamSnoc(w: seq<Sent>, x: Sent)
    requires Sendable(w) && WellFormed(x.packet) && x.packet.command == PULL && Fits(x.junk)
    ensures Sendable(w + [x]) && Stream(w + [x]) == Stream(w) + Encode(x.packet, x.junk)
  {
    hide Encode;
    hide WellFormed;
    hide Fits;
    if w == [] {
      assert w + [x] == [x];
      assert [x][1..] == [];
    } else {
      StreamSnoc(w[1..], x);
      assert (w + [x])[1..] == w[1..] + [x];
    }
  }

  lemma {:induction false} BytesSnoc(w: seq<Sent>, x: Sent, k: nat)
    requires k <= |w|
    ensures Bytes(w + [x], k) == Bytes(w, k)
  {
    if k == 0 {
    } else {
      BytesSnoc(w, x, k - 1);
    }
  }

  /** Lines that were right stay right when the segment grows. */
  lemma IndexGrows(w: seq<Sent>, x: Sent, lines: seq<Line>)
    ensures Index(w, lines) ==> Index(w + [x], lines)
    ensures IndexFile(w, lines) ==> IndexFile(w + [x], lines)
  {
    hide Bytes;
    forall k | 0 <= k <= |w|
      ensures Bytes(w + [x], k) == Bytes(w, k)
    {
      BytesSnoc(w, x, k);
    }
  }

  lemma {:induction false} AboveAll(lines: seq<Line>, x: nat)
    requires forall i :: 0 <= i < |lines| ==> lines[i].key < x
    ensures LowerBound(lines, x) == |lines|
  {
    if lines == [] {
    } else {
      AboveAll(lines[1..], x);
    }
  }

  /** The lines made for a new last message. */
  lemma IndexLast(w: seq<Sent>, x: Sent, lines: seq<Line>, disk: seq<Line>)
    requires Index(w, lines) && IndexFile(w, disk)
    ensures Index(w + [x], Insert(lines, Line(|w| + 1, Bytes(w, |w|))))
    ensures IndexFile(w + [x], disk + [Line(|w| + 1, Bytes(w, |w|) + Length(x.packet))])
  {
    hide *;
    IndexGrows(w, x, lines);
    IndexGrows(w, x, disk);
    NewLines(w, x);
    KeysBelow(w, lines);
    InsertLast(lines, Line(|w| + 1, Bytes(w, |w|)));
    IndexAppend(w, x, lines, Line(|w| + 1, Bytes(w, |w|)));
    FileAppend(w, x, disk, Line(|w| + 1, Bytes(w, |w|) + Length(x.packet)));
  }

  lemma NewLines(w: seq<Sent>, x: Sent)
    ensures ToPrevious(w + [x], Line(|w| + 1, Bytes(w, |w|)))
    ensures ToNext(w + [x], Line(|w| + 1, Bytes(w, |w|) + Length(x.packet)))
  {
    hide *;
    BytesSnoc(w, x, |w|);
    BytesLast(w, x);
    LinesAt(w + [x], |w|);
  }

  lemma LinesAt(v: seq<Sent>, n: nat)
    requires |v| == n + 1
    ensures ToPrevious(v, Line(n + 1, Bytes(v, n))) && ToNext(v, Line(n + 1, Bytes(v, n + 1)))
  {
    hide Bytes;
  }

  lemma KeysBelow(w: seq<Sent>, lines: seq<Line>)
    requires Index(w, lines)
    ensures forall i :: 0 <= i < |lines| ==> lines[i].key < |w| + 1
  {
    hide Bytes;
  }

  lemma InsertLast(lines: seq<Line>, l: Line)
    requires forall i :: 0 <= i < |lines| ==> lines[i].key < l.key
    ensures Insert(lines, l) == lines + [l]
  {
    hide LowerBound;
    AboveAll(lines, l.key);
  }

  lemma IndexAppend(w: seq<Sent>, x: Sent, lines: seq<Line>, l: Line)
    requires Index(w, lines) && Index(w + [x], lines) && l.key == |w| + 1 && ToPrevious(w + [x], l)
    ensures Index(w + [x], lines + [l])
  {
    hide Bytes;
  }

  lemma FileAppend(w: seq<Sent>, x: Sent, lines: seq<Line>, l: Line)
    requires IndexFile(w, lines) && IndexFile(w + [x], lines) && l.key == |w| + 1 && ToNext(w + [x], l)
    ensures IndexFile(w + [x], lines + [l])
  {
    hide Bytes;
  }

  lemma BytesLast(w: seq<Sent>, x: Sent)
    ensures Bytes(w + [x], |w| + 1) == Bytes(w + [x], |w|) + Length(x.packet)
  {
  }

  lemma OverwrittenAt(log: seq<Byte>, at: nat, data: seq<Byte>)
    requires at + |data| <= |log|
    ensures Overwritten(log, at, data)[at..at + |data|] == data
    ensures Overwritten(log, at, data)[..at] == log[..at]
  {
  }

  /** Writing the packet behind the others. */
  lemma LogGrows(w: seq<Sent>, x: Sent, log: seq<Byte>)
    requires Sendable(w) && WellFormed(x.packet) && x.packet.command == PULL && Fits(x.junk) && Stream(w) <= log
    requires ZeroFrom(log, |Stream(w)|) && |Stream(w)| + Length(x.packet) <= |log|
    ensures |Encode(x.packet, x.junk)| == Length(x.packet)
    ensures var r := Overwritten(log, |Stream(w)|, Encode(x.packet, x.junk));
      Sendable(w + [x]) && Stream(w + [x]) <= r && ZeroFrom(r, |Stream(w)| + Length(x.packet))
  {
    EncodeLength(x.packet, x.junk);
    StreamSnoc(w, x);
    hide Stream;
    hide Encode;
    hide Length;
    hide WellFormed;
    var t, e := Stream(w), Encode(x.packet, x.junk);
    assert log[..|t|] == t;
    assert (t + e) <= t + e + log[|t| + |e|..];
  }

  lemma AddOpenInv(c: Config, s: State, w: seq<Sent>, p: Packet, j: Junk)
    requires OpenHolds(c, s, w) && WellFormed(Stamped(p, s.size)) && Fits(j)
    requires c.max - s.length >= Length(p)
    ensures OpenHolds(c, Add(c, s, p, j), w + [Sent(Stamped(p, s.size), j)])
  {
    hide *;
    var x := Sent(Stamped(p, s.size), j);
    OpenParts(c, s, w);
    StampLength(p, s.size);
    StoredSends(w, s.open.base);
    StreamLength(w);
    LogGrows(w, x, s.open.log);
    StoredGrows(w, s.open.base, x);
    IndexGrows(w, x, s.open.lines);
    IndexGrows(w, x, s.open.disk);
    IndexGrows(w, x, s.open.disk + s.unsynced);
    IndexLast(w, x, s.open.lines, s.open.disk + s.unsynced);
    BytesSnoc(w, x, |w|);
    BytesLast(w, x);
    var l := Line(|w| + 1, Bytes(w, |w|) + Length(x.packet));
    assert s.open.disk + s.unsynced + [l] == s.open.disk + (s.unsynced + [l]);
    AddIs(c, s, p, j);
    OpenWhole(c, Add(c, s, p, j), w + [x]);
  }

  lemma OpenParts(c: Config, s: State, w: seq<Sent>)
    requires OpenHolds(c, s, w)
    ensures Stored(w, s.open.base) && Sendable(w) && Stream(w) <= s.open.log
    ensures Index(w, s.open.lines) && IndexFile(w, s.open.disk) && IndexFile(w, s.open.disk + s.unsynced)
    ensures |s.open.log| == c.max && s.length == Bytes(w, |w|) && ZeroFrom(s.open.log, s.length)
    ensures s.size == s.open.base + |w|
  {
  }

  lemma OpenWhole(c: Config, s: State, w: seq<Sent>)
    requires Stored(w, s.open.base) && Sendable(w) && Stream(w) <= s.open.log
    requires Index(w, s.open.lines) && IndexFile(w, s.open.disk) && IndexFile(w, s.open.disk + s.unsynced)
    requires |s.open.log| == c.max && s.length == Bytes(w, |w|) && ZeroFrom(s.open.log, s.length)
    requires s.size == s.open.base + |w|
    ensures OpenHolds(c, s, w)
  {
  }

  lemma StampLength(p: Packet, n: nat)
    ensures Length(Stamped(p, n)) == Length(p) && Stamped(p, n).command == PULL && Stamped(p, n).offset == n
  {
  }

  /** `Add` when the segment has room. */
  lemma AddIs(c: Config, s: State, p: Packet, j: Junk)
    requires WellFormed(Stamped(p, s.size)) && Fits(j) && |Encode(Stamped(p, s.size), j)| == Length(p)
    requires c.max - s.length >= Length(p) && s.length + Length(p) <= |s.open.log| && s.open.base <= s.size
    ensures Opened(c, s, p) == s
    ensures var r, key := Add(c, s, p, j), s.size + 1 - s.open.base;
      && r.rolled == s.rolled && r.open.base == s.open.base && r.open.disk == s.open.disk
      && r.open.log == Overwritten(s.open.log, s.length, Encode(Stamped(p, s.size), j))
      && r.length == s.length + Length(p) && r.size == s.size + 1
      && if Indexed(c, s, p) then
           r.open.lines == Insert(s.open.lines, Line(key, s.length))
           && r.unsynced == s.unsynced + [Line(key, s.length + Length(p))] && r.last == key
         else
           r.open.lines == s.open.lines && r.unsynced == s.unsynced && r.last == s.last
  {
    hide Encode;
    hide Insert;
    hide Overwritten;
    hide WellFormed;
    hide Indexed;
  }

  lemma StoredGrows(w: seq<Sent>, base: nat, x: Sent)
    requires Stored(w, base) && WellFormed(x.packet) && Fits(x.junk)
    requires x.packet.command == PULL && x.packet.offset == base + |w|
    ensures Stored(w + [x], base)
  {
  }

  /** `hist` with one more message at its end. */
  function Appended(hist: seq<seq<Sent>>, x: Sent): seq<seq<Sent>>
    requires hist != []
  {
    hist[|hist| - 1 := hist[|hist| - 1] + [x]]
  }

  /** A packet that fits into a segment, numbered within 64 bits. */
  predicate Acceptable(c: Config, s: State, p: Packet, j: Junk) {
    WellFormed(p.(command := 4, offset := s.size)) && Fits(j) && Length(p) <= c.max
  }

  lemma AddInv(c: Config, s: State, hist: seq<seq<Sent>>, p: Packet, j: Junk)
    requires Inv(c, s, hist) && Acceptable(c, s, p, j) && c.max - s.length >= Length(p)
    ensures s.length + Length(p) <= |s.open.log| && s.open.base <= s.size && Opened(c, s, p) == s
    ensures Inv(c, Add(c, s, p, j), Appended(hist, Sent(Stamped(p, s.size), j)))
  {
    hide *;
    InvParts(c, s, hist);
    var w, x := hist[|hist| - 1], Sent(Stamped(p, s.size), j);
    OpenParts(c, s, w);
    AcceptableParts(c, s, p, j);
    StampLength(p, s.size);
    EncodeLength(x.packet, j);
    AddIs(c, s, p, j);
    AddOpenInv(c, s, w, p, j);
    var r, hist' := Add(c, s, p, j), Appended(hist, x);
    AppendedParts(hist, x);
    SameBases(s, r);
    ConsecutiveGrows(Bases(Segments(s)), hist, x);
    RolledGrows(s.rolled, hist, x);
    InvWhole(c, r, hist');
  }

  lemma AcceptableParts(c: Config, s: State, p: Packet, j: Junk)
    requires Acceptable(c, s, p, j)
    ensures WellFormed(Stamped(p, s.size)) && Fits(j) && Length(p) <= c.max
  {
  }

  lemma AppendedParts(hist: seq<seq<Sent>>, x: Sent)
    requires hist != []
    ensures |Appended(hist, x)| == |hist| && Appended(hist, x)[|hist| - 1] == hist[|hist| - 1] + [x]
  {
  }

  lemma SameBases(s: State, r: State)
    requires |s.rolled| == |r.rolled| && s.open.base == r.open.base
    requires forall i :: 0 <= i < |s.rolled| ==> s.rolled[i].base == r.rolled[i].base
    ensures Bases(Segments(r)) == Bases(Segments(s))
  {
  }

  lemma ConsecutiveGrows(bases: seq<nat>, ws: seq<seq<Sent>>, x: Sent)
    requires Consecutive(bases, ws)
    ensures Consecutive(bases, Appended(ws, x))
  {
  }

  lemma RolledGrows(rolled: seq<Segment>, hist: seq<seq<Sent>>, x: Sent)
    requires RolledHold(rolled, hist) && |hist| == |rolled| + 1
    ensures RolledHold(rolled, Appended(hist, x))
  {
    hide Holds;
  }

  /** A full segment is not empty, so that no two segments have the same name. */
  lemma FullHasMessages(c: Config, s: State, hist: seq<seq<Sent>>, p: Packet)
    requires Inv(c, s, hist) && Length(p) <= c.max && c.max - s.length < Length(p)
    ensures hist[|hist| - 1] != []
  {
    InvParts(c, s, hist);
    hide *;
    OpenParts(c, s, hist[|hist| - 1]);
    NoBytes(hist[|hist| - 1]);
  }

  /* ---------- recovery ---------- */

  lemma ScanStep(log: seq<Byte>, cap: nat, pos: nat)
    requires ScanGoesOn(log, cap, pos)
    ensures ScanEnd(log, cap, pos) == ScanEnd(log, cap, MarkerAt(log, pos) + 12)
    ensures ScanCount(log, cap, pos) == 1 + ScanCount(log, cap, MarkerAt(log, pos) + 12)
  {
    hide MarkerAt;
  }

  lemma ScanGoesOnWhen(log: seq<Byte>, cap: nat, pos: nat)
    requires pos + BODY < |log| && MarkerAt(log, pos) < |log| && log[MarkerAt(log, pos)] == 255 && pos < cap
    ensures ScanGoesOn(log, cap, pos)
  {
    hide MarkerAt;
  }

  lemma {:induction false} ScanFrom(w: seq<Sent>, log: seq<Byte>, cap: nat, k: nat)
    requires Sendable(w) && Stream(w) <= log && k <= |w| && Bytes(w, |w|) <= cap
    ensures ScanEnd(log, cap, Bytes(w, k)) == ScanEnd(log, cap, Bytes(w, |w|))
    ensures ScanCount(log, cap, Bytes(w, k)) == |w| - k + ScanCount(log, cap, Bytes(w, |w|))
    decreases |w| - k
  {
    hide *;
    if k < |w| {
      MarkerFound(w, log, k);
      HeaderSize();
      BytesMonotone(w, k + 1, |w|);
      ScanGoesOnWhen(log, cap, Bytes(w, k));
      ScanStep(log, cap, Bytes(w, k));
      ScanFrom(w, log, cap, k + 1);
    }
  }

  lemma {:induction false} ZeroNumber(s: seq<Byte>)
    requires forall i :: 0 <= i < |s| ==> s[i] == 0
    ensures FromLE(s) == 0
  {
    if s == [] {
    } else {
      ZeroNumber(s[1..]);
    }
  }

  /** Behind the last packet the scan finds no marker. */
  lemma ScanStops(log: seq<Byte>, cap: nat, pos: nat)
    requires ZeroFrom(log, pos) && pos + BODY < |log|
    ensures ScanEnd(log, cap, pos) == pos && ScanCount(log, cap, pos) == 0
  {
    ZeroNumber(log[pos + 64..pos + 68]);
    ZeroNumber(log[pos + 68..pos + 72]);
  }

  /** Whenever the header behind the last packet lies in the mapped memory, however few bytes of the file are
      left for it, the scan recovers exactly where the writer was. */
  lemma RecoversExactly(c: Config, s: State, w: seq<Sent>)
    requires OpenHolds(c, s, w) && s.length + BODY < c.max + c.slack
    ensures var log := Mapped(c, s.open.log);
      ScanEnd(log, c.max, 0) == s.length && s.open.base + ScanCount(log, c.max, 0) == s.size
  {
    hide *;
    OpenParts(c, s, w);
    NoBytes(w);
    StoredSends(w, s.open.base);
    StreamLength(w);
    MappedIs(c, s.open.log, Stream(w), s.length);
    ScanFrom(w, Mapped(c, s.open.log), c.max, 0);
    ScanStops(Mapped(c, s.open.log), c.max, s.length);
  }

  lemma MappedIs(c: Config, log: seq<Byte>, t: seq<Byte>, n: nat)
    requires t <= log && ZeroFrom(log, n)
    ensures t <= Mapped(c, log) && ZeroFrom(Mapped(c, log), n) && |Mapped(c, log)| == |log| + c.slack
  {
    assert Mapped(c, log)[..|t|] == log[..|t|];
  }

  /** Lines that are still there after a crash: some of those written, in order. */
  ghost predicate Survivors(kept: seq<Line>, disk: seq<Line>) {
    Ascending(kept) && forall i :: 0 <= i < |kept| ==> kept[i] in disk
  }

  lemma SurvivorsIndex(w: seq<Sent>, kept: seq<Line>, disk: seq<Line>)
    requires IndexFile(w, disk) && Survivors(kept, disk)
    ensures IndexFile(w, kept) && Index(w, kept)
  {
    hide ToNext;
  }

  ghost predicate Restartable(c: Config, s: State, kept: seq<seq<Line>>, keptOpen: seq<Line>) {
    && |kept| == |s.rolled| && s.length + BODY < c.max + c.slack
    && (forall i :: 0 <= i < |kept| ==> Survivors(kept[i], s.rolled[i].disk))
    && Survivors(keptOpen, s.open.disk)
  }

  /** A restart loses index lines, but no message and no count. */
  lemma RestartInv(c: Config, s: State, hist: seq<seq<Sent>>, kept: seq<seq<Line>>, keptOpen: seq<Line>)
    requires Inv(c, s, hist) && Restartable(c, s, kept, keptOpen)
    ensures Inv(c, Restart(c, s, kept, keptOpen), hist)
    ensures Restart(c, s, kept, keptOpen).length == s.length && Restart(c, s, kept, keptOpen).size == s.size
  {
    var r, w := Restart(c, s, kept, keptOpen), hist[|hist| - 1];
    RecoversExactly(c, s, w);
    OpenParts(c, s, w);
    InvParts(c, s, hist);
    SurvivorsIndex(w, keptOpen, s.open.disk);
    RolledRestart(c, s, hist, kept, keptOpen);
    hide *;
    RestartIs(c, s, kept, keptOpen);
    assert keptOpen + [] == keptOpen;
    OpenWhole(c, r, w);
    SameBases(s, r);
    InvWhole(c, r, hist);
  }

  lemma RestartIs(c: Config, s: State, kept: seq<seq<Line>>, keptOpen: seq<Line>)
    requires |kept| == |s.rolled|
    ensures var r := Restart(c, s, kept, keptOpen);
      && r.open == s.open.(lines := keptOpen, disk := keptOpen) && r.unsynced == []
      && r.length == ScanEnd(Mapped(c, s.open.log), c.max, 0)
      && r.size == s.open.base + ScanCount(Mapped(c, s.open.log), c.max, 0)
      && |r.rolled| == |s.rolled| && forall i :: 0 <= i < |s.rolled| ==> r.rolled[i].base == s.rolled[i].base
  {
  }

  lemma RolledRestart(c: Config, s: State, hist: seq<seq<Sent>>, kept: seq<seq<Line>>, keptOpen: seq<Line>)
    requires RolledHold(s.rolled, hist) && |kept| == |s.rolled|
    requires forall i :: 0 <= i < |kept| ==> Survivors(kept[i], s.rolled[i].disk)
    ensures RolledHold(Restart(c, s, kept, keptOpen).rolled, hist)
  {
    forall i | 0 <= i < |kept|
      ensures Holds(s.rolled[i].(lines := kept[i], disk := kept[i]), hist[i])
    {
      hide Survivors;
      hide Index;
      hide IndexFile;
      SurvivorsIndex(hist[i], kept[i], s.rolled[i].disk);
    }
    hide Holds;
  }

  /* ---------- whole runs ---------- */

  datatype Event =
    | Arrived(packet: Packet, junk: Junk)
    | Synced
    | Restarted(kept: seq<seq<Line>>, keptOpen: seq<Line>)

  /** What the fields of a state must satisfy for `Add` to be defined. */
  predicate Placed(c: Config, s: State) {
    |s.open.log| == c.max && s.length <= c.max && s.open.base <= s.size
  }

  ghost predicate Restarts(c: Config, s: State, kept: seq<seq<Line>>, keptOpen: seq<Line>) {
    Restartable(c, s, kept, keptOpen) && ScanEnd(Mapped(c, s.open.log), c.max, 0) <= c.max
  }

  /** A packet that no segment could take is not part of a run; neither is a restart whose scan would read
      outside the mapped memory. */
  ghost function Step(c: Config, s: State, v: Event): (r: State)
    requires Placed(c, s)
    ensures Placed(c, r)
  {
    match v
    case Arrived(p, j) => if Acceptable(c, s, p, j) then Add(c, s, p, j) else s
    case Synced => Sync(s)
    case Restarted(kept, keptOpen) =>
      if Restarts(c, s, kept, keptOpen) then Restart(c, s, kept, keptOpen) else s
  }

  ghost function Run(c: Config, events: seq<Event>): (s: State)
    ensures Placed(c, s)
  {
    if events == [] then Init(c) else Step(c, Run(c, events[..|events| - 1]), events[|events| - 1])
  }

  /** The messages segment by segment after an event. */
  ghost function Next(c: Config, s: State, hist: seq<seq<Sent>>, v: Event): seq<seq<Sent>>
    requires hist != []
  {
    if v.Arrived? && Acceptable(c, s, v.packet, v.junk) then
      Appended(if c.max - s.length < Length(v.packet) then hist + [[]] else hist,
               Sent(Stamped(v.packet, s.size), v.junk))
    else hist
  }

  ghost function History(c: Config, events: seq<Event>): (hist: seq<seq<Sent>>)
    ensures hist != []
  {
    if events == [] then [[]]
    else Next(c, Run(c, events[..|events| - 1]), History(c, events[..|events| - 1]), events[|events| - 1])
  }

  lemma ArrivedInv(c: Config, s: State, hist: seq<seq<Sent>>, p: Packet, j: Junk)
    requires Placed(c, s) && Inv(c, s, hist) && Acceptable(c, s, p, j)
    ensures Placed(c, Add(c, s, p, j)) && Inv(c, Add(c, s, p, j), Next(c, s, hist, Arrived(p, j)))
  {
    if c.max - s.length < Length(p) {
      FullHasMessages(c, s, hist, p);
      RollInv(c, s, hist);
      AddInv(c, Roll(c, s), hist + [[]], p, j);
      RolledFirst(c, s, p, j);
    } else {
      AddInv(c, s, hist, p, j);
    }
    hide Inv;
    hide Encode;
    hide WellFormed;
  }

  /** Adding to a full segment is rolling and then adding. */
  lemma RolledFirst(c: Config, s: State, p: Packet, j: Junk)
    requires Placed(c, s) && Acceptable(c, s, p, j) && c.max - s.length < Length(p)
    ensures Placed(c, Roll(c, s)) && Acceptable(c, Roll(c, s), p, j)
    ensures Add(c, s, p, j) == Add(c, Roll(c, s), p, j)
  {
    hide Encode;
    hide WellFormed;
  }

  lemma StepInv(c: Config, s: State, hist: seq<seq<Sent>>, v: Event)
    requires Placed(c, s) && Inv(c, s, hist)
    ensures hist != [] && Inv(c, Step(c, s, v), Next(c, s, hist, v))
  {
    hide Inv;
    hide Add;
    hide Acceptable;
    hide Restartable;
    InvParts(c, s, hist);
    match v
    case Arrived(p, j) =>
      if Acceptable(c, s, p, j) {
        ArrivedInv(c, s, hist, p, j);
      }
    case Synced => SyncInv(c, s, hist);
    case Restarted(kept, keptOpen) =>
      if Restartable(c, s, kept, keptOpen) {
        RestartInv(c, s, hist, kept, keptOpen);
      }
  }

  lemma {:induction false} RunInv(c: Config, events: seq<Event>)
    ensures Inv(c, Run(c, events), History(c, events))
  {
    hide Inv;
    hide Step;
    hide Next;
    if events == [] {
      InitInv(c);
    } else {
      var before := events[..|events| - 1];
      RunInv(c, before);
      StepInv(c, Run(c, before), History(c, before), events[|events| - 1]);
    }
  }

  /** After any run of arrivals, rolls, syncs and restarts with any lines lost, the pull of any message that
      the partition has starts, in the segment that holds the message, at the message or at the one before
      it, and never later; at the message itself whenever it starts from the beginning of the segment or from
      a line of an index file. */
  lemma PullAfterAnyRun(c: Config, events: seq<Event>, o: nat)
    requires o < Run(c, events).size
    ensures var segs, hist := Segments(Run(c, events)), History(c, events);
      var i := SegmentOf(segs, o);
      && i < |hist| && segs[i].base <= o < segs[i].base + |hist[i]|
      && var w, x := hist[i], o - segs[i].base;
      && var line, pos := Chosen(segs[i].lines, x), Position(segs[i], x);
      && (pos == Bytes(w, x) || (x > 0 && pos == Bytes(w, x - 1)))
      && (line == [] || ToNext(w, line[0]) ==> pos == Bytes(w, x))
  {
    hide *;
    var s, hist := Run(c, events), History(c, events);
    RunInv(c, events);
    InvParts(c, s, hist);
    OpenSize(c, s, hist[|hist| - 1]);
    SegmentsEnd(s);
    SegmentFound(Segments(s), hist, o);
    var i := SegmentOf(Segments(s), o);
    SegmentHolds(c, s, hist, i);
    PullLands(Segments(s)[i], hist[i], o - Segments(s)[i].base);
  }

  /* ---------- where a pull starts early, and what is never sent ---------- */

  /** Every line points to the message before the one with its key. */
  predicate AllPrevious(w: seq<Sent>, lines: seq<Line>) {
    forall i :: 0 <= i < |lines| ==> ToPrevious(w, lines[i])
  }

  /** Of the lines of a segment, the first ones are the lines `kept` of its index file at the last restart; those
      made since point to the message before theirs. */
  ghost predicate MadeSince(w: seq<Sent>, kept: seq<Line>, lines: seq<Line>) {
    kept <= lines && (forall i :: 0 <= i < |kept| ==> ToNext(w, kept[i])) && AllPrevious(w, lines[|kept|..])
  }

  ghost predicate AllMadeSince(s: State, hist: seq<seq<Sent>>, kept: seq<seq<Line>>) {
    && |hist| == |kept| == |s.rolled| + 1 && MadeSince(hist[|s.rolled|], kept[|s.rolled|], s.open.lines)
    && forall i :: 0 <= i < |s.rolled| ==> MadeSince(hist[i], kept[i], s.rolled[i].lines)
  }

  /** The lines read from the index files at the last restart, segment by segment. */
  ghost function NextKept(c: Config, s: State, kept: seq<seq<Line>>, v: Event): seq<seq<Line>>
    requires Placed(c, s)
  {
    match v
    case Arrived(p, j) => if Acceptable(c, s, p, j) && c.max - s.length < Length(p) then kept + [[]] else kept
    case Synced => kept
    case Restarted(lines, linesOpen) => if Restarts(c, s, lines, linesOpen) then lines + [linesOpen] else kept
  }

  ghost function Kept(c: Config, events: seq<Event>): seq<seq<Line>> {
    if events == [] then [[]]
    else NextKept(c, Run(c, events[..|events| - 1]), Kept(c, events[..|events| - 1]), events[|events| - 1])
  }

  lemma BytesGrow(w: seq<Sent>, x: Sent, k: nat)
    requires k <= |w|
    ensures Bytes(w + [x], k) == Bytes(w, k)
  {
    BytesSnoc(w, x, k);
  }

  lemma MadeSinceGrows(w: seq<Sent>, x: Sent, kept: seq<Line>, lines: seq<Line>)
    requires MadeSince(w, kept, lines)
    ensures MadeSince(w + [x], kept, lines)
  {
    forall k | 0 <= k <= |w|
      ensures Bytes(w + [x], k) == Bytes(w, k)
    {
      BytesGrow(w, x, k);
    }
    hide Bytes;
  }

  lemma MadeSinceKeys(w: seq<Sent>, kept: seq<Line>, lines: seq<Line>)
    requires MadeSince(w, kept, lines)
    ensures forall i :: 0 <= i < |lines| ==> lines[i].key <= |w|
  {
    hide Bytes;
    forall i | 0 <= i < |lines|
      ensures lines[i].key <= |w|
    {
      if i < |kept| {
        assert lines[i] == kept[i] && ToNext(w, kept[i]);
      } else {
        assert lines[i] == lines[|kept|..][i - |kept|];
      }
    }
  }

  lemma MadeSinceAnother(w: seq<Sent>, kept: seq<Line>, lines: seq<Line>, l: Line)
    requires MadeSince(w, kept, lines) && ToPrevious(w, l)
    ensures MadeSince(w, kept, lines + [l])
  {
    hide ToPrevious;
    hide ToNext;
    assert (lines + [l])[|kept|..] == lines[|kept|..] + [l];
  }

  lemma MadeSinceAdded(w: seq<Sent>, x: Sent, kept: seq<Line>, lines: seq<Line>)
    requires MadeSince(w, kept, lines)
    ensures MadeSince(w + [x], kept, lines)
    ensures MadeSince(w + [x], kept, Insert(lines, Line(|w| + 1, Bytes(w, |w|))))
  {
    hide *;
    MadeSinceKeys(w, kept, lines);
    MadeSinceGrows(w, x, kept, lines);
    NewLines(w, x);
    var l := Line(|w| + 1, Bytes(w, |w|));
    InsertLast(lines, l);
    MadeSinceAnother(w + [x], kept, lines, l);
  }

  lemma AddMade(c: Config, s: State, hist: seq<seq<Sent>>, kept: seq<seq<Line>>, p: Packet, j: Junk)
    requires Placed(c, s) && Inv(c, s, hist) && Acceptable(c, s, p, j) && c.max - s.length >= Length(p)
    requires AllMadeSince(s, hist, kept)
    ensures AllMadeSince(Add(c, s, p, j), Appended(hist, Sent(Stamped(p, s.size), j)), kept)
  {
    var w, x := hist[|hist| - 1], Sent(Stamped(p, s.size), j);
    InvParts(c, s, hist);
    OpenParts(c, s, w);
    StampLength(p, s.size);
    EncodeLength(x.packet, j);
    AddIs(c, s, p, j);
    MadeSinceAdded(w, x, kept[|s.rolled|], s.open.lines);
    hide Inv;
    hide Add;
    hide Insert;
    hide MadeSince;
    hide Encode;
    hide WellFormed;
    hide OpenHolds;
    hide Stamped;
  }

  lemma NoLines(w: seq<Sent>)
    ensures MadeSince(w, [], [])
  {
  }

  lemma RollMade(c: Config, s: State, hist: seq<seq<Sent>>, kept: seq<seq<Line>>)
    requires AllMadeSince(s, hist, kept)
    ensures AllMadeSince(Roll(c, s), hist + [[]], kept + [[]])
  {
    NoLines([]);
    hide MadeSince;
  }

  lemma InitMade(c: Config)
    ensures AllMadeSince(Init(c), [[]], [[]])
  {
  }

  lemma SyncMade(s: State, hist: seq<seq<Sent>>, kept: seq<seq<Line>>)
    requires AllMadeSince(s, hist, kept)
    ensures AllMadeSince(Sync(s), hist, kept)
  {
    hide MadeSince;
  }

  lemma ArrivedMade(c: Config, s: State, hist: seq<seq<Sent>>, kept: seq<seq<Line>>, p: Packet, j: Junk)
    requires Placed(c, s) && Inv(c, s, hist) && Acceptable(c, s, p, j) && AllMadeSince(s, hist, kept)
    ensures AllMadeSince(Add(c, s, p, j), Next(c, s, hist, Arrived(p, j)), NextKept(c, s, kept, Arrived(p, j)))
  {
    hide AllMadeSince;
    hide Add;
    hide Inv;
    if c.max - s.length < Length(p) {
      RolledFirst(c, s, p, j);
      FullHasMessages(c, s, hist, p);
      RollInv(c, s, hist);
      RollMade(c, s, hist, kept);
      AddMade(c, Roll(c, s), hist + [[]], kept + [[]], p, j);
      RollSize(c, s);
    } else {
      AddMade(c, s, hist, kept, p, j);
    }
  }

  lemma RollSize(c: Config, s: State)
    ensures Roll(c, s).size == s.size && Roll(c, s).length == 0
  {
  }

  lemma AllKept(w: seq<Sent>, kept: seq<Line>)
    requires IndexFile(w, kept)
    ensures MadeSince(w, kept, kept)
  {
  }

  lemma RestartedMade(c: Config, s: State, hist: seq<seq<Sent>>, lines: seq<seq<Line>>, linesOpen: seq<Line>)
    requires Inv(c, s, hist) && Restartable(c, s, lines, linesOpen)
    ensures AllMadeSince(Restart(c, s, lines, linesOpen), hist, lines + [linesOpen])
  {
    InvParts(c, s, hist);
    OpenParts(c, s, hist[|hist| - 1]);
    SurvivorsIndex(hist[|hist| - 1], linesOpen, s.open.disk);
    AllKept(hist[|hist| - 1], linesOpen);
    forall i | 0 <= i < |lines|
      ensures MadeSince(hist[i], lines[i], lines[i])
    {
      hide Survivors;
      hide Index;
      hide IndexFile;
      SurvivorsIndex(hist[i], lines[i], s.rolled[i].disk);
      AllKept(hist[i], lines[i]);
    }
    hide MadeSince;
    hide Inv;
    hide ScanEnd;
    hide ScanCount;
    hide Survivors;
    hide OpenHolds;
    hide Holds;
  }

  lemma {:induction false} RunMade(c: Config, events: seq<Event>)
    ensures AllMadeSince(Run(c, events), History(c, events), Kept(c, events))
  {
    hide AllMadeSince;
    hide Add;
    hide Acceptable;
    hide Restartable;
    hide Restart;
    hide ScanEnd;
    hide Roll;
    hide Inv;
    if events == [] {
      InitMade(c);
    } else {
      var before, v := events[..|events| - 1], events[|events| - 1];
      RunMade(c, before);
      RunInv(c, before);
      var s, hist, kept := Run(c, before), History(c, before), Kept(c, before);
      if v.Synced? {
        SyncMade(s, hist, kept);
      } else if v.Arrived? && Acceptable(c, s, v.packet, v.junk) {
        ArrivedMade(c, s, hist, kept, v.packet, v.junk);
      } else if v.Restarted? && Restarts(c, s, v.kept, v.keptOpen) {
        RestartedMade(c, s, hist, v.kept, v.keptOpen);
      }
    }
  }

  /** In every run a pull starts one message early exactly when its lookup uses a line of the index that was made
      since the last restart of the broker, not one of those read from the index files then. */
  lemma PullEarlyExactly(c: Config, events: seq<Event>, o: nat)
    requires o < Run(c, events).size
    ensures var segs, hist, kept := Segments(Run(c, events)), History(c, events), Kept(c, events);
      var i := SegmentOf(segs, o);
      && i < |hist| && i < |kept| && segs[i].base <= o < segs[i].base + |hist[i]|
      && var w, x := hist[i], o - segs[i].base;
      && var line := Chosen(segs[i].lines, x);
      && (line != [] && line[0] !in kept[i] <==> x > 0 && Position(segs[i], x) == Bytes(w, x - 1))
  {
    hide *;
    var s, hist, kept := Run(c, events), History(c, events), Kept(c, events);
    RunInv(c, events);
    RunMade(c, events);
    InvParts(c, s, hist);
    OpenSize(c, s, hist[|hist| - 1]);
    SegmentsEnd(s);
    SegmentFound(Segments(s), hist, o);
    var i := SegmentOf(Segments(s), o);
    SegmentHolds(c, s, hist, i);
    var g, w, x := Segments(s)[i], hist[i], o - Segments(s)[i].base;
    MadeAt(s, hist, kept, i);
    PullLands(g, w, x);
    ChosenMade(w, kept[i], g.lines, x);
  }

  lemma MadeAt(s: State, hist: seq<seq<Sent>>, kept: seq<seq<Line>>, i: nat)
    requires AllMadeSince(s, hist, kept) && i < |hist|
    ensures i < |kept| && i < |Segments(s)| && MadeSince(hist[i], kept[i], Segments(s)[i].lines)
  {
    hide MadeSince;
  }

  /** A line points to the message with its key exactly when it was kept. */
  lemma ChosenMade(w: seq<Sent>, kept: seq<Line>, lines: seq<Line>, x: nat)
    requires MadeSince(w, kept, lines) && x < |w|
    ensures Chosen(lines, x) != [] ==> (ToNext(w, Chosen(lines, x)[0]) <==> Chosen(lines, x)[0] in kept)
    ensures x > 0 ==> Bytes(w, x - 1) < Bytes(w, x)
  {
    if x > 0 {
      Longer(w, x - 1, x);
    }
    if Chosen(lines, x) != [] {
      var l := Chosen(lines, x)[0];
      assert l in lines;
      if l !in kept {
        var i :| 0 <= i < |lines| && lines[i] == l;
        assert i >= |kept| && lines[i] == lines[|kept|..][i - |kept|];
        assert ToPrevious(w, l);
        Longer(w, l.key - 1, l.key);
      }
      hide Bytes;
    }
  }

  lemma RunSnoc(c: Config, events: seq<Event>, v: Event)
    ensures Run(c, events + [v]) == Step(c, Run(c, events), v)
    ensures History(c, events + [v]) == Next(c, Run(c, events), History(c, events), v)
  {
    hide Step;
    hide Next;
    assert (events + [v])[..|events|] == events;
  }

  /** A message taken in where there is room for it. */
  lemma OneArrival(c: Config, events: seq<Event>, p: Packet, j: Junk)
    requires var s := Run(c, events); Acceptable(c, s, p, j) && s.length + Length(p) <= c.max
    ensures var s, r, n := Run(c, events), Run(c, events + [Arrived(p, j)]), Stamped(p, Run(c, events).size);
      && History(c, events + [Arrived(p, j)]) == Appended(History(c, events), Sent(n, j))
      && r.rolled == s.rolled && r.open.base == s.open.base && r.length == s.length + Length(p) && r.size == s.size + 1
      && var key := s.size + 1 - s.open.base;
      && (Indexed(c, s, p) ==> r.open.lines == Insert(s.open.lines, Line(key, s.length)) && r.last == key)
  {
    hide *;
    var s := Run(c, events);
    RunSnoc(c, events, Arrived(p, j));
    AcceptableParts(c, s, p, j);
    StampLength(p, s.size);
    EncodeLength(Stamped(p, s.size), j);
    PlacedParts(c, s);
    StepAdds(c, s, History(c, events), p, j);
    AddIs(c, s, p, j);
  }

  lemma PlacedParts(c: Config, s: State)
    requires Placed(c, s)
    ensures |s.open.log| == c.max && s.length <= c.max && s.open.base <= s.size
  {
  }

  lemma StepAdds(c: Config, s: State, hist: seq<seq<Sent>>, p: Packet, j: Junk)
    requires Placed(c, s) && Acceptable(c, s, p, j) && s.length + Length(p) <= c.max && hist != []
    ensures WellFormed(Stamped(p, Opened(c, s, p).size)) && Opened(c, s, p) == s
    ensures Step(c, s, Arrived(p, j)) == Add(c, s, p, j)
    ensures Next(c, s, hist, Arrived(p, j)) == Appended(hist, Sent(Stamped(p, s.size), j))
  {
    hide Add;
    hide Appended;
    hide WellFormed;
    hide Encode;
  }

  lemma Start(c: Config)
    ensures Run(c, []) == Init(c) && History(c, []) == [[]]
  {
  }

  /** One message, sent twice to a new partition that indexes every message or every one of its length: the
      pull of the second one starts at the first. */
  lemma PullsEarly(c: Config, p: Packet, j: Junk)
    requires WellFormed(Stamped(p, 0)) && WellFormed(Stamped(p, 1)) && Fits(j)
    requires 2 * Length(p) <= c.max && (c.interval == 0 || Length(p) > c.block)
    ensures var s, hist := Run(c, [Arrived(p, j), Arrived(p, j)]), History(c, [Arrived(p, j), Arrived(p, j)]);
      s.size == 2 && |hist| == 1 && |hist[0]| == 2 && Position(s.open, 1) == Bytes(hist[0], 0) != Bytes(hist[0], 1)
  {
    hide *;
    TwoArrivals(c, p, j);
    var s, hist := Run(c, [Arrived(p, j), Arrived(p, j)]), History(c, [Arrived(p, j), Arrived(p, j)]);
    TwoLines(Length(p));
    PositionIs(s.open, 1);
    SkipNone(s.open.log, 0);
    NoBytes(hist[0]);
    NextStart(hist[0], 0);
  }

  lemma FirstArrival(c: Config, p: Packet, j: Junk)
    requires WellFormed(Stamped(p, 0)) && WellFormed(Stamped(p, 1)) && Fits(j)
    requires 2 * Length(p) <= c.max && (c.interval == 0 || Length(p) > c.block)
    ensures var s, hist := Run(c, [Arrived(p, j)]), History(c, [Arrived(p, j)]);
      && s.size == 1 && s.length == Length(p) && s.open.base == 0 && s.open.lines == Insert([], Line(1, 0))
      && |hist| == 1 && |hist[0]| == 1 && Acceptable(c, s, p, j) && Indexed(c, s, p)
  {
    hide Run;
    hide History;
    hide WellFormed;
    Start(c);
    assert [] + [Arrived(p, j)] == [Arrived(p, j)];
    OneArrival(c, [], p, j);
    hide Length;
    hide Insert;
  }

  lemma AppendedOne(hist: seq<seq<Sent>>, x: Sent)
    requires |hist| == 1
    ensures |Appended(hist, x)| == 1 && |Appended(hist, x)[0]| == |hist[0]| + 1
  {
  }

  lemma TwoArrivals(c: Config, p: Packet, j: Junk)
    requires WellFormed(Stamped(p, 0)) && WellFormed(Stamped(p, 1)) && Fits(j)
    requires 2 * Length(p) <= c.max && (c.interval == 0 || Length(p) > c.block)
    ensures var s, hist := Run(c, [Arrived(p, j), Arrived(p, j)]), History(c, [Arrived(p, j), Arrived(p, j)]);
      && s.size == 2 && |hist| == 1 && |hist[0]| == 2
      && s.open.lines == Insert(Insert([], Line(1, 0)), Line(2, Length(p)))
  {
    hide *;
    var v := Arrived(p, j);
    FirstArrival(c, p, j);
    assert [v] + [v] == [v, v];
    OneArrival(c, [v], p, j);
    AppendedOne(History(c, [v]), Sent(Stamped(p, 1), j));
  }

  lemma TwoLines(n: nat)
    ensures Insert(Insert([], Line(1, 0)), Line(2, n)) == [Line(1, 0), Line(2, n)]
    ensures Chosen([Line(1, 0), Line(2, n)], 1) == [Line(1, 0)]
  {
    InsertLast([], Line(1, 0));
    InsertLast([Line(1, 0)], Line(2, n));
  }

  /** One message that fills the first segment to its last byte: no pull, whatever it takes, gets it. */
  lemma NeverSent(c: Config, p: Packet, j: Junk, maxEnableBytes: int)
    requires WellFormed(Stamped(p, 0)) && Fits(j) && Length(p) == c.max
    ensures var s := Run(c, [Arrived(p, j)]);
      s.size == 1 && Position(s.open, 0) == 0 && Slice(s.open.log, 0, maxEnableBytes) == 0
  {
    hide *;
    var v := Arrived(p, j);
    FirstFull(c, p, j);
    RunInv(c, [v]);
    var s, hist := Run(c, [v]), History(c, [v]);
    InvParts(c, s, hist);
    OpenSize(c, s, hist[0]);
    OpenParts(c, s, hist[0]);
    OpenIsHeld(c, s, hist[0]);
    HeldKeys(s.open, hist[0]);
    FirstAtZero(s.open);
    NoBytes(hist[0]);
    SendsSomethingExactly(s.open, hist[0], 0, maxEnableBytes);
  }

  lemma FirstFull(c: Config, p: Packet, j: Junk)
    requires WellFormed(Stamped(p, 0)) && Fits(j) && Length(p) == c.max
    ensures var s, hist := Run(c, [Arrived(p, j)]), History(c, [Arrived(p, j)]);
      s.size == 1 && s.length == c.max == |s.open.log| && |hist| == 1 && |hist[0]| == 1
  {
    hide Encode;
    hide WellFormed;
    hide Insert;
    Start(c);
    OneArrival(c, [], p, j);
    assert [] + [Arrived(p, j)] == [Arrived(p, j)];
    hide Run;
    hide History;
  }

  lemma HeldKeys(g: Segment, w: seq<Sent>)
    requires Holds(g, w)
    ensures forall i :: 0 <= i < |g.lines| ==> g.lines[i].key > 0
  {
    hide Bytes;
    hide Stored;
  }

  lemma OpenIsHeld(c: Config, s: State, w: seq<Sent>)
    requires OpenHolds(c, s, w)
    ensures Holds(s.open, w)
  {
  }

  lemma FirstAtZero(g: Segment)
    requires forall i :: 0 <= i < |g.lines| ==> g.lines[i].key > 0
    ensures Position(g, 0) == 0
  {
  }

  /* ---------- no message is lost or moved ---------- */

  function Flatten(hist: seq<seq<Sent>>): seq<Sent> {
    if hist == [] then [] else Flatten(hist[..|hist| - 1]) + hist[|hist| - 1]
  }

  /** The packets taken in by a run, each with its place in the whole partition as its number. */
  ghost function Accepted(c: Config, events: seq<Event>): seq<Sent> {
    if events == [] then []
    else
      var before, v := events[..|events| - 1], events[|events| - 1];
      var log := Accepted(c, before);
      if v.Arrived? && Acceptable(c, Run(c, before), v.packet, v.junk)
      then log + [Sent(Stamped(v.packet, |log|), v.junk)] else log
  }

  lemma FlattenAppended(hist: seq<seq<Sent>>, x: Sent)
    requires hist != []
    ensures Flatten(Appended(hist, x)) == Flatten(hist) + [x] && Flatten(hist + [[]]) == Flatten(hist)
  {
    var r := Appended(hist, x);
    assert r[..|r| - 1] == hist[..|hist| - 1];
    assert (hist + [[]])[..|hist|] == hist;
  }

  lemma {:induction false} FlattenLength(bases: seq<nat>, hist: seq<seq<Sent>>)
    requires Consecutive(bases, hist)
    ensures |Flatten(hist)| == bases[|bases| - 1] + |hist[|hist| - 1]|
  {
    if |hist| > 1 {
      FlattenLength(bases[..|bases| - 1], hist[..|hist| - 1]);
    } else {
      assert Flatten(hist[..0]) == [];
    }
  }

  lemma NextFlattened(c: Config, s: State, hist: seq<seq<Sent>>, v: Event)
    requires hist != []
    ensures Flatten(Next(c, s, hist, v)) ==
      if v.Arrived? && Acceptable(c, s, v.packet, v.junk) then Flatten(hist) + [Sent(Stamped(v.packet, s.size), v.junk)]
      else Flatten(hist)
  {
    hide Appended;
    hide Acceptable;
    if v.Arrived? {
      var x := Sent(Stamped(v.packet, s.size), v.junk);
      FlattenAppended(hist, x);
      FlattenAppended(hist + [[]], x);
    }
    hide Flatten;
  }

  /** The segments, read one after the other, are exactly the packets taken in, in order, numbered from 0. */
  lemma {:induction false} NothingLost(c: Config, events: seq<Event>)
    ensures Flatten(History(c, events)) == Accepted(c, events)
    ensures Run(c, events).size == |Accepted(c, events)|
  {
    SizeIsCount(c, events);
    if events == [] {
      assert Flatten([[]]) == Flatten([[]][..0]) + [];
    } else {
      var before := events[..|events| - 1];
      NothingLost(c, before);
      NextFlattened(c, Run(c, before), History(c, before), events[|events| - 1]);
    }
    hide Acceptable;
    hide Next;
    hide Step;
  }

  /* ---------- what a pull delivers is what arrived ---------- */

  /** The packets taken in by a run, as they arrived. */
  ghost function Arrivals(c: Config, events: seq<Event>): seq<Sent> {
    if events == [] then []
    else
      var before, v := events[..|events| - 1], events[|events| - 1];
      Arrivals(c, before)
      + if v.Arrived? && Acceptable(c, Run(c, before), v.packet, v.junk) then [Sent(v.packet, v.junk)] else []
  }

  /** `m` is the packet `a`, field by field, as message `k` of the partition. */
  predicate KeptAs(a: Packet, k: nat, m: Packet) {
    && m.command == 4 && m.offset == k && m.topic == a.topic && m.message == a.message
    && m.messageId == a.messageId && m.msgCreateTime == a.msgCreateTime && m.retCode == a.retCode
    && m.consumerGroupId == a.consumerGroupId && m.maxEnableBytes == a.maxEnableBytes
    && m.optional1 == a.optional1 && m.optional2 == a.optional2 && m.optional3 == a.optional3
  }

  /** In every run message `k` of the partition is the `k`-th packet taken in, unchanged but for command and number. */
  lemma {:induction false} StoredAsArrived(c: Config, events: seq<Event>, k: nat)
    requires k < Run(c, events).size
    ensures |Arrivals(c, events)| == |Flatten(History(c, events))| == Run(c, events).size
    ensures var a, m := Arrivals(c, events)[k], Flatten(History(c, events))[k];
      KeptAs(a.packet, k, m.packet) && m.junk == a.junk
  {
    NothingLost(c, events);
    AcceptedAre(c, events, k);
    hide *;
  }

  lemma {:induction false} AcceptedAre(c: Config, events: seq<Event>, k: nat)
    ensures |Arrivals(c, events)| == |Accepted(c, events)|
    ensures k < |Accepted(c, events)| ==>
      KeptAs(Arrivals(c, events)[k].packet, k, Accepted(c, events)[k].packet)
      && Accepted(c, events)[k].junk == Arrivals(c, events)[k].junk
  {
    if events != [] {
      AcceptedAre(c, events[..|events| - 1], k);
      hide Acceptable;
      hide Run;
    }
  }

  /** Message `x` of segment `i` in the whole partition. */
  lemma {:induction false} FlattenAt(bases: seq<nat>, hist: seq<seq<Sent>>, i: nat, x: nat)
    requires Consecutive(bases, hist) && i < |hist| && x < |hist[i]|
    ensures bases[i] + x < |Flatten(hist)| && Flatten(hist)[bases[i] + x] == hist[i][x]
    decreases |hist|
  {
    var n := |hist| - 1;
    if n > 0 {
      FlattenLength(bases[..n], hist[..n]);
      if i < n {
        FlattenAt(bases[..n], hist[..n], i, x);
      }
    } else {
      assert Flatten(hist[..0]) == [];
    }
  }

  /** The bytes from message `k` up to message `e` of a segment parse to exactly these messages. */
  lemma SliceDecodes(w: seq<Sent>, log: seq<Byte>, k: nat, e: nat)
    requires Sendable(w) && Stream(w) <= log && k <= e <= |w|
    ensures Bytes(w, k) <= Bytes(w, e) <= |log|
    ensures Packets(log[Bytes(w, k)..Bytes(w, e)]) == PacketsOf(w)[k..e] && Rest(log[Bytes(w, k)..Bytes(w, e)]) == []
  {
    hide *;
    var v, n := w[k..], e - k;
    SendableTail(w, k);
    StreamLength(w);
    StreamSplit(w, k);
    BytesMonotone(w, k, e);
    BytesMonotone(w, e, |w|);
    BytesSum(w, k, n);
    var s := log[Bytes(w, k)..Bytes(w, e)];
    MiddleOf(log, Stream(w), Stream(v), Bytes(w, k), Bytes(w, e));
    DecodesLongestPrefix(v, s);
    DecodedParts(v, s, Packets(s), Rest(s));
    if n < |v| {
      NextStart(v, n);
    }
    CompleteUnique(v, |s|, n);
    assert PacketsOf(v)[..n] == PacketsOf(w)[k..e];
  }

  lemma MiddleOf(log: seq<Byte>, t: seq<Byte>, rest: seq<Byte>, a: nat, b: nat)
    requires t <= log && a <= b <= |t| && t == t[..a] + rest
    ensures log[a..b] <= rest && |log[a..b]| == b - a
  {
    assert rest == t[a..];
    assert log[a..b] == t[a..b] == rest[..b - a];
  }

  /** The bytes that the pull of message `x` of a segment sends. */
  function BytesSent(g: Segment, x: nat, maxEnableBytes: int): seq<Byte> {
    var at := Position(g, x);
    var n := Slice(g.log, at, maxEnableBytes);
    if at + n <= |g.log| then g.log[at..at + n] else []
  }

  /** The bytes parse, one after the other and with no byte left over, to packets that are those taken in as messages
      `first` and on. */
  ghost predicate Delivers(arrivals: seq<Sent>, first: nat, sent: seq<Byte>) {
    && Rest(sent) == [] && first + |Packets(sent)| <= |arrivals|
    && forall i :: 0 <= i < |Packets(sent)| ==> KeptAs(arrivals[first + i].packet, first + i, Packets(sent)[i])
  }

  /** What the pull of message `o` sends, whatever it takes: the packets that were taken in as messages `o`, or
      `o - 1`, and on, unchanged but for command and number. */
  lemma PullDelivers(c: Config, events: seq<Event>, o: nat, maxEnableBytes: int) returns (first: nat)
    requires o < Run(c, events).size
    ensures first == o || first == o - 1
    ensures var segs := Segments(Run(c, events)); var g := segs[SegmentOf(segs, o)];
      g.base <= o && Delivers(Arrivals(c, events), first, BytesSent(g, o - g.base, maxEnableBytes))
  {
    hide *;
    var s, hist := Run(c, events), History(c, events);
    RunInv(c, events);
    InvParts(c, s, hist);
    OpenSize(c, s, hist[|hist| - 1]);
    SegmentsEnd(s);
    SegmentFound(Segments(s), hist, o);
    var i := SegmentOf(Segments(s), o);
    SegmentHolds(c, s, hist, i);
    var g, w := Segments(s)[i], hist[i];
    var x := o - g.base;
    PullLands(g, w, x);
    var k := if Position(g, x) == Bytes(w, x) then x else x - 1;
    first := g.base + k;
    HoldsParts(g, w);
    SliceIsLongestRun(g, w, k, maxEnableBytes);
    var e := RunEnd(w, k, k, if maxEnableBytes >= 0 then maxEnableBytes else |g.log|, |g.log|);
    SliceDecodes(w, g.log, k, e);
    var sent := g.log[Bytes(w, k)..Bytes(w, e)];
    SentIs(g, w, x, k, e, maxEnableBytes);
    NothingLost(c, events);
    StoredAsArrived(c, events, o);
    if k < e {
      FlattenAt(Bases(Segments(s)), hist, i, e - 1);
    }
    forall d | 0 <= d < e - k
      ensures first + d < |Arrivals(c, events)|
      ensures KeptAs(Arrivals(c, events)[first + d].packet, first + d, Packets(sent)[d])
    {
      FlattenAt(Bases(Segments(s)), hist, i, k + d);
      StoredAsArrived(c, events, first + d);
    }
    DeliversAll(Arrivals(c, events), first, sent);
  }

  lemma SentIs(g: Segment, w: seq<Sent>, x: nat, k: nat, e: nat, maxEnableBytes: int)
    requires k <= e <= |w| && Position(g, x) == Bytes(w, k) <= Bytes(w, e) <= |g.log|
    requires Slice(g.log, Bytes(w, k), maxEnableBytes) == Bytes(w, e) - Bytes(w, k)
    ensures BytesSent(g, x, maxEnableBytes) == g.log[Bytes(w, k)..Bytes(w, e)]
  {
    hide Position;
    hide Slice;
    hide Bytes;
  }

  lemma DeliversAll(arrivals: seq<Sent>, first: nat, sent: seq<Byte>)
    requires Rest(sent) == [] && first + |Packets(sent)| <= |arrivals|
    requires forall i :: 0 <= i < |Packets(sent)| ==>
      KeptAs(arrivals[first + i].packet, first + i, Packets(sent)[i])
    ensures Delivers(arrivals, first, sent)
  {
  }

  lemma SizeIsCount(c: Config, events: seq<Event>)
    ensures Run(c, events).size == |Flatten(History(c, events))|
  {
    var s, hist := Run(c, events), History(c, events);
    RunInv(c, events);
    hide *;
    InvParts(c, s, hist);
    OpenSize(c, s, hist[|hist| - 1]);
    FlattenLength(Bases(Segments(s)), hist);
  }

  lemma SegmentsEnd(s: State)
    ensures |Segments(s)| == |s.rolled| + 1 && Segments(s)[|s.rolled|] == s.open
  {
  }

  lemma SegmentHolds(c: Config, s: State, hist: seq<seq<Sent>>, i: nat)
    requires Inv(c, s, hist) && i < |hist|
    ensures i < |Segments(s)| && Holds(Segments(s)[i], hist[i])
  {
    hide Holds;
    hide Index;
  }

  /* ---------- what the index gets ---------- */

  /** What adding does to the open segment and its index, when the packet fits. */
  lemma AddExactly(c: Config, s: State, hist: seq<seq<Sent>>, p: Packet, j: Junk)
    requires Placed(c, s) && Inv(c, s, hist) && Acceptable(c, s, p, j) && c.max - s.length >= Length(p)
    ensures Placed(c, s) && Acceptable(c, s, p, j)
    ensures var r, key := Add(c, s, p, j), s.size + 1 - s.open.base;
      && r.rolled == s.rolled && r.open.base == s.open.base && r.open.disk == s.open.disk
      && r.length == s.length + Length(p) && r.size == s.size + 1
      && if Length(p) > c.block || key > s.last + c.interval then
           r.open.lines == s.open.lines + [Line(key, s.length)]
           && r.unsynced == s.unsynced + [Line(key, s.length + Length(p))] && r.last == key
         else
           r.open.lines == s.open.lines && r.unsynced == s.unsynced && r.last == s.last
  {
    InvParts(c, s, hist);
    var w := hist[|hist| - 1];
    OpenParts(c, s, w);
    KeysBelow(w, s.open.lines);
    AcceptableParts(c, s, p, j);
    EncodeLength(Stamped(p, s.size), j);
    StampLength(p, s.size);
    InsertLast(s.open.lines, Line(s.size + 1 - s.open.base, s.length));
    AddIs(c, s, p, j);
    hide Inv;
    hide Add;
    hide Insert;
    hide Encode;
    hide WellFormed;
    hide OpenHolds;
    hide Index;
  }

  /** What adding does when the packet does not fit: the open segment is closed, its index written out, and the
      packet is the first of a new one. */
  lemma AddRollsExactly(c: Config, s: State, hist: seq<seq<Sent>>, p: Packet, j: Junk)
    requires Placed(c, s) && Inv(c, s, hist) && Acceptable(c, s, p, j) && c.max - s.length < Length(p)
    ensures Placed(c, s) && Acceptable(c, s, p, j)
    ensures var r := Add(c, s, p, j);
      && r.rolled == s.rolled + [s.open.(disk := s.open.disk + s.unsynced)] && r.open.base == s.size
      && r.open.disk == [] && r.length == Length(p) && r.size == s.size + 1
      && if Length(p) > c.block || 1 > c.interval then
           r.open.lines == [Line(1, 0)] && r.unsynced == [Line(1, Length(p))] && r.last == 1
         else
           r.open.lines == [] && r.unsynced == [] && r.last == 0
  {
    RolledFirst(c, s, p, j);
    FullHasMessages(c, s, hist, p);
    RollInv(c, s, hist);
    AddExactly(c, Roll(c, s), hist + [[]], p, j);
    hide Inv;
    hide Add;
    hide Acceptable;
    hide Length;
    hide WellFormed;
    hide Encode;
    hide Opened;
    hide Indexed;
  }

  function Keys(lines: seq<Line>): (r: seq<nat>)
    ensures |r| == |lines| && forall i :: 0 <= i < |lines| ==> r[i] == lines[i].key
  {
    seq(|lines|, i requires 0 <= i < |lines| => lines[i].key)
  }

  /** The index in memory and the one on its way to the disk have lines for the same messages, and `last` is the
      newest of them. */
  ghost predicate IndexesAgree(s: State) {
    && (forall i :: 0 <= i < |s.rolled| ==> Keys(s.rolled[i].lines) == Keys(s.rolled[i].disk))
    && Keys(s.open.lines) == Keys(s.open.disk + s.unsynced)
    && s.last == if s.open.lines == [] then 0 else s.open.lines[|s.open.lines| - 1].key
  }

  lemma KeysSnoc(lines: seq<Line>, l: Line)
    ensures Keys(lines + [l]) == Keys(lines) + [l.key]
  {
  }

  /** One more line on both sides keeps the agreement. */
  lemma LineAgrees(s: State, r: State, l: Line, m: Line)
    requires IndexesAgree(s) && r.rolled == s.rolled && r.open.disk == s.open.disk && l.key == m.key == r.last
    requires r.open.lines == s.open.lines + [l] && r.unsynced == s.unsynced + [m]
    ensures IndexesAgree(r)
  {
    KeysSnoc(s.open.lines, l);
    KeysSnoc(s.open.disk + s.unsynced, m);
    assert r.open.disk + r.unsynced == s.open.disk + s.unsynced + [m];
    hide Keys;
  }

  lemma SameAgrees(s: State, r: State)
    requires IndexesAgree(s) && r.rolled == s.rolled && r.open.disk == s.open.disk && r.last == s.last
    requires r.open.lines == s.open.lines && r.unsynced == s.unsynced
    ensures IndexesAgree(r)
  {
  }

  lemma AddDefined(c: Config, s: State, p: Packet, j: Junk)
    requires Placed(c, s) && Acceptable(c, s, p, j) && c.max - s.length >= Length(p)
    ensures Opened(c, s, p) == s && WellFormed(Stamped(p, s.size)) && Fits(j)
    ensures s.length + Length(p) <= |s.open.log| && s.open.base <= s.size
  {
    hide WellFormed;
  }

  lemma AddAgrees(c: Config, s: State, hist: seq<seq<Sent>>, p: Packet, j: Junk)
    requires Placed(c, s) && Inv(c, s, hist) && Acceptable(c, s, p, j) && IndexesAgree(s)
    requires c.max - s.length >= Length(p)
    ensures Placed(c, s) && Acceptable(c, s, p, j) && IndexesAgree(Add(c, s, p, j))
  {
    hide *;
    AddExactly(c, s, hist, p, j);
    AddDefined(c, s, p, j);
    var key, r := s.size + 1 - s.open.base, Add(c, s, p, j);
    if Length(p) > c.block || key > s.last + c.interval {
      LineAgrees(s, r, Line(key, s.length), Line(key, s.length + Length(p)));
    } else {
      SameAgrees(s, r);
    }
  }

  lemma RollAgrees(c: Config, s: State)
    requires IndexesAgree(s)
    ensures IndexesAgree(Roll(c, s))
  {
    hide Keys;
  }

  lemma ArrivedAgrees(c: Config, s: State, hist: seq<seq<Sent>>, p: Packet, j: Junk)
    requires Placed(c, s) && Inv(c, s, hist) && Acceptable(c, s, p, j) && IndexesAgree(s)
    ensures IndexesAgree(Add(c, s, p, j))
  {
    hide IndexesAgree;
    hide Add;
    hide Inv;
    hide Roll;
    if c.max - s.length < Length(p) {
      RollSize(c, s);
      RolledFirst(c, s, p, j);
      FullHasMessages(c, s, hist, p);
      RollInv(c, s, hist);
      RollAgrees(c, s);
      AddAgrees(c, Roll(c, s), hist + [[]], p, j);
    } else {
      AddAgrees(c, s, hist, p, j);
    }
  }

  lemma InitAgrees(c: Config)
    ensures IndexesAgree(Init(c))
  {
  }

  lemma SyncAgrees(s: State)
    requires IndexesAgree(s)
    ensures IndexesAgree(Sync(s))
  {
    assert s.open.disk + s.unsynced + [] == s.open.disk + s.unsynced;
  }

  lemma RestartAgrees(c: Config, s: State, kept: seq<seq<Line>>, keptOpen: seq<Line>)
    requires |kept| == |s.rolled|
    ensures IndexesAgree(Restart(c, s, kept, keptOpen))
  {
    assert keptOpen + [] == keptOpen;
    hide ScanEnd;
    hide ScanCount;
  }

  lemma {:induction false} RunAgrees(c: Config, events: seq<Event>)
    ensures IndexesAgree(Run(c, events))
  {
    hide IndexesAgree;
    hide Add;
    hide Acceptable;
    hide Restart;
    hide ScanEnd;
    hide Inv;
    if events == [] {
      InitAgrees(c);
    } else {
      var before, v := events[..|events| - 1], events[|events| - 1];
      RunAgrees(c, before);
      RunInv(c, before);
      var s, hist := Run(c, before), History(c, before);
      if v.Synced? {
        SyncAgrees(s);
      } else if v.Arrived? && Acceptable(c, s, v.packet, v.junk) {
        ArrivedAgrees(c, s, hist, v.packet, v.junk);
      } else if v.Restarted? && Restarts(c, s, v.kept, v.keptOpen) {
        RestartAgrees(c, s, v.kept, v.keptOpen);
      }
    }
  }

  /* ---------- the operations, in place ---------- */

  class PartitionLog {
    const c: Config
    var rolled: seq<Segment>
    var base: nat
    /** The mapped file. */
    var log: array<Byte>
    var lines: seq<Line>
    var disk: seq<Line>
    var length: nat
    var last: nat
    var size: nat
    var unsynced: seq<Line>

    ghost function Contents(): State
      reads this, log
    {
      State(rolled, Segment(base, log[..], lines, disk), length, last, size, unsynced)
    }

    constructor (c: Config)
      ensures this.c == c && Contents() == Init(c) && fresh(log)
    {
      this.c := c;
      log := new Byte[c.max](_ => 0);
      rolled, base, lines, disk, length, last, size, unsynced := [], 0, [], [], 0, 0, 0, [];
      new;
      assert log[..] == Zeros(c.max);
    }

    method SyncToDisk()
      modifies this
      ensures Contents() == Sync(old(Contents())) && log == old(log)
      ensures disk == old(disk + unsynced) && unsynced == []
      ensures Contents() == old(Contents()).(open := Segment(base, log[..], lines, disk), unsynced := [])
      ensures base == old(base) && lines == old(lines) && log[..] == old(log[..])
    {
      disk := disk + unsynced;
      unsynced := [];
    }

    method MmapNewLog()
      modifies this
      ensures Contents() == Roll(c, old(Contents())) && fresh(log)
      ensures rolled == old(rolled + [Segment(base, log[..], lines, disk + unsynced)])
      ensures base == size == old(size) && length == 0 == last && lines == [] == disk == unsynced
      ensures log.Length == c.max && forall i :: 0 <= i < c.max ==> log[i] == 0
    {
      SyncToDisk();
      rolled := rolled + [Segment(base, log[..], lines, disk)];
      base, lines, disk := size, [], [];
      log := new Byte[c.max](_ => 0);
      assert log[..] == Zeros(c.max);
      length, last := 0, 0;
    }

    method InsertLine(l: Line)
      modifies this`lines
      ensures lines == Insert(old(lines), l)
      ensures Ascending(old(lines)) && (exists i :: 0 <= i < |old(lines)| && old(lines)[i].key == l.key) ==>
        lines == old(lines)
    {
      var i := LowerBound(lines, l.key);
      if i == |lines| || lines[i].key != l.key {
        lines := lines[..i] + [l] + lines[i..];
      }
    }

    method AddToLog(p: Packet, j: Junk)
      requires Placed(c, Contents()) && Acceptable(c, Contents(), p, j)
      modifies this, log
      ensures Contents() == Add(c, old(Contents()), p, j)
      ensures log == old(log) || fresh(log)
      ensures size == old(size) + 1
      ensures length == (if c.max - old(length) < Length(p) then 0 else old(length)) + Length(p) <= log.Length
      ensures c.max - old(length) < Length(p) ==>
        base == old(size) && rolled == old(rolled + [Segment(base, log[..], lines, disk + unsynced)])
      ensures c.max - old(length) >= Length(p) ==> base == old(base) && rolled == old(rolled)
      ensures WellFormed(p.(command := 4, offset := old(size)))
        && log[length - Length(p)..length] == Encode(p.(command := 4, offset := old(size)), j)
    {
      hide Encode;
      hide WellFormed;
      hide Add;
      if c.max - length < Length(p) {
        RolledFirst(c, Contents(), p, j);
        MmapNewLog();
      }
      AppendPacket(p, j);
    }

    method AppendPacket(p: Packet, j: Junk)
      requires Placed(c, Contents()) && Acceptable(c, Contents(), p, j) && c.max - length >= Length(p)
      modifies this, log
      ensures Contents() == Add(c, old(Contents()), p, j) && log == old(log)
      ensures size == old(size) + 1 && length == old(length) + Length(p) <= log.Length
      ensures base == old(base) && rolled == old(rolled) && disk == old(disk)
      ensures if Length(p) > c.block || size - base > old(last) + c.interval then
          last == size - base && lines == Insert(old(lines), Line(size - base, old(length)))
          && unsynced == old(unsynced) + [Line(size - base, length)]
        else
          last == old(last) && lines == old(lines) && unsynced == old(unsynced)
      ensures WellFormed(p.(command := 4, offset := old(size)))
        && log[old(length)..length] == Encode(p.(command := 4, offset := old(size)), j)
    {
      hide Encode;
      hide WellFormed;
      hide Add;
      hide Overwritten;
      hide Insert;
      ghost var s := Contents();
      var position := length;
      var q := Stamped(p, size);
      EncodeLength(q, j);
      AddIs(c, s, p, j);
      var data := Encode(q, j);
      OverwrittenAt(log[..], position, data);
      WriteAt(position, data);
      size := size + 1;
      var inFile := size - base;
      if |data| > c.block || inFile > last + c.interval {
        last := inFile;
        InsertLine(Line(inFile, position));
        unsynced := unsynced + [Line(inFile, position + |data|)];
      }
      length := length + |data|;
    }

    method WriteAt(at: nat, data: seq<Byte>)
      requires at + |data| <= log.Length
      modifies log
      ensures log[..] == Overwritten(old(log[..]), at, data)
    {
      NetBuffer.Put(log, at, data);
    }

    /** The recovery scan over the last file. */
    method FindLastSequenceMsg()
      modifies this`length, this`size
      ensures var bytes := Mapped(c, log[..]);
        length == ScanEnd(bytes, c.max, 0) && size == base + ScanCount(bytes, c.max, 0)
    {
      hide FromLE;
      hide MarkerAt;
      var bytes := log[..] + Zeros(c.slack);
      var pos, count := 0, 0;
      while pos + BODY < |bytes| && MarkerAt(bytes, pos) < |bytes| && bytes[MarkerAt(bytes, pos)] == 255 && pos < c.max
        invariant ScanEnd(bytes, c.max, pos) == ScanEnd(bytes, c.max, 0)
        invariant count + ScanCount(bytes, c.max, pos) == ScanCount(bytes, c.max, 0)
        decreases |bytes| - pos
      {
        MarkerAhead(bytes, pos);
        ScanStep(bytes, c.max, pos);
        pos := MarkerAt(bytes, pos) + 12;
        count := count + 1;
      }
      length, size := pos, base + count;
    }
  }

  lemma MarkerAhead(log: seq<Byte>, pos: nat)
    requires pos + BODY <= |log|
    ensures MarkerAt(log, pos) >= pos
  {
  }

  /** `sendToConsumer`, up to the bytes handed to the connection: from where message `x` of the segment is
      looked up, and how many. */
  method PullSlice(g: Segment, x: nat, maxEnableBytes: int, ghost w: seq<Sent>) returns (position: nat, count: nat)
    requires Holds(g, w) && x < |w|
    ensures position == Position(g, x) && count == Slice(g.log, position, maxEnableBytes)
  {
    position := Locate(g, x, w);
    ghost var k := if position == Bytes(w, x) then x else x - 1;
    PullLands(g, w, x);
    count := Measure(g, k, position, if maxEnableBytes >= 0 then maxEnableBytes else |g.log|, w);
  }

  method Locate(g: Segment, x: nat, ghost w: seq<Sent>) returns (position: nat)
    requires Holds(g, w) && x < |w|
    ensures position == Position(g, x)
  {
    hide *;
    var line := Chosen(g.lines, x);
    var index := 0;
    position := 0;
    if line != [] {
      index, position := line[0].key, line[0].pos;
    }
    HoldsParts(g, w);
    ghost var start := StartOf(g, w, x);
    for i := index to x
      invariant start + (x - index) < |w| && position == Bytes(w, start + (i - index))
      invariant Skip(g.log, position, x - i) == Position(g, x)
    {
      MarkerFound(w, g.log, start + (i - index));
      HeaderSize();
      SkipStep(g.log, position, x - i);
      position := MarkerAt(g.log, position) + 12;
    }
    NoSkip(g.log, position);
  }

  lemma NoSkip(log: seq<Byte>, pos: nat)
    ensures Skip(log, pos, 0) == pos
  {
  }

  /** The message at which the lookup of message `x` starts to step. */
  lemma StartOf(g: Segment, w: seq<Sent>, x: nat) returns (k: nat)
    requires Holds(g, w) && x < |w|
    ensures var line := Chosen(g.lines, x);
      var index := if line == [] then 0 else line[0].key;
      && index <= x && k + (x - index) < |w| && Bytes(w, k) == (if line == [] then 0 else line[0].pos)
      && Position(g, x) == Skip(g.log, Bytes(w, k), x - index)
  {
    hide Stored;
    hide IndexFile;
    hide Ascending;
    hide Skip;
    hide Stream;
    NoBytes(w);
    hide Bytes;
    var line := Chosen(g.lines, x);
    k := if line == [] then 0 else if ToNext(w, line[0]) then line[0].key else line[0].key - 1;
  }

  method Measure(g: Segment, ghost k: nat, position: nat, m: nat, ghost w: seq<Sent>) returns (count: nat)
    requires Holds(g, w) && k < |w| && position == Bytes(w, k)
    ensures count == SliceFrom(g.log, position, 0, 0, m)
  {
    hide *;
    HoldsParts(g, w);
    MarkerFound(w, g.log, k);
    HeaderSize();
    var i := 0;
    count := 0;
    ghost var j := k;
    while i <= m
      invariant k <= j <= |w| && position + i == Bytes(w, j) < |g.log| && (i <= m ==> count == i)
      invariant SliceFrom(g.log, position, i, count, m) == SliceFrom(g.log, position, 0, 0, m)
      decreases m - i
    {
      if g.log[position + i] != PULL {
        SliceStop(g.log, position, i, m);
        return;
      }
      NotTheTail(w, g.log, j);
      MarkerFound(w, g.log, j);
      SliceNext(g.log, position, i, m);
      i := MarkerAt(g.log, position + i) + 12 - position;
      if i >= |g.log| - position {
        return;
      }
      if i <= m {
        count := i;
      }
      j := j + 1;
    }
    SliceOver(g.log, position, i, count, m);
  }

  lemma NotTheTail(w: seq<Sent>, log: seq<Byte>, j: nat)
    requires j <= |w| && ZeroFrom(log, Bytes(w, |w|)) && Bytes(w, j) < |log| && log[Bytes(w, j)] == PULL
    ensures j < |w|
  {
  }

  lemma SliceNext(log: seq<Byte>, at: nat, i: nat, m: nat)
    requires i <= m && at + i + BODY < |log| && log[at + i] == PULL
    requires at + i < MarkerAt(log, at + i) < |log| && log[MarkerAt(log, at + i)] == 255
    ensures var i' := MarkerAt(log, at + i) + 12 - at;
      SliceFrom(log, at, i, i, m)
      == if at + i' >= |log| then i else SliceFrom(log, at, i', if i' <= m then i' else i, m)
  {
    hide MarkerAt;
  }

  lemma SliceOver(log: seq<Byte>, at: nat, i: nat, n: nat, m: nat)
    requires i > m
    ensures SliceFrom(log, at, i, n, m) == n
  {
  }
}
