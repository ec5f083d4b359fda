/**
 The id generator of skylu/base/snowflake.h.  The four fields of an id take disjoint bits, so that
 putting them together with `|` is adding them; the clock is a list of readings.
 */
module Snowflake {
  import RingIndex

  const TWEPOCH: nat := 1514736000000
  const SEQUENCES: nat := 4096
  const WORKERS: nat := 32
  const DATACENTERS: nat := 32
  /** The shifts by 12, 17 and 22 bits. */
  const WORKER_UNIT: nat := 0x1000
  const DATACENTER_UNIT: nat := 0x2_0000
  const TIME_UNIT: nat := 0x40_0000
  const WORD: nat := 0x1_0000_0000_0000_0000
  /** 42 bits of milliseconds. */
  const TIME_LIMIT: nat := 0x400_0000_0000

  datatype Worker = Worker(worker: nat, datacenter: nat)
  datatype State = State(sequence: nat, last: nat)

  /** `Waiting`: the clock was read to the end of the list without an answer. */
  datatype Result = Id(id: nat, next: State) | Backwards | Waiting

  predicate Valid(w: Worker, s: State) {
    w.worker < WORKERS && w.datacenter < DATACENTERS && s.sequence < SEQUENCES
  }

  /** `timestamp - twepoch` as an unsigned difference. */
  function Elapsed(timestamp: nat): nat {
    (timestamp - TWEPOCH) % WORD
  }

  function Compose(w: Worker, time: nat, sequence: nat): nat {
    time * TIME_UNIT % WORD + w.datacenter * DATACENTER_UNIT + w.worker * WORKER_UNIT + sequence
  }

  /** `tilNextMillis`: the first reading after `last`, as a list of at most one. */
  function TilNext(readings: seq<nat>, last: nat): seq<nat> {
    if readings == [] then [] else if readings[0] > last then [readings[0]] else TilNext(readings[1..], last)
  }

  /** `nextId` with the readings that it would get from the clock. */
  function NextId(w: Worker, s: State, readings: seq<nat>): Result {
    if readings == [] then Waiting
    else if readings[0] < s.last then Backwards
    else if readings[0] == s.last then
      var sequence := (s.sequence + 1) % SEQUENCES;
      if sequence != 0 then Stamp(w, readings[0], sequence)
      else
        var later := TilNext(readings[1..], s.last);
        if later == [] then Waiting else Stamp(w, later[0], 0)
    else Stamp(w, readings[0], 0)
  }

  function Stamp(w: Worker, time: nat, sequence: nat): Result {
    Id(Compose(w, Elapsed(time), sequence), State(sequence, time))
  }

  lemma {:induction false} TilNextIsLater(readings: seq<nat>, last: nat)
    ensures TilNext(readings, last) != [] ==>
      TilNext(readings, last)[0] > last && TilNext(readings, last)[0] in readings
  {
    if readings == [] {
    } else {
      TilNextIsLater(readings[1..], last);
    }
  }

  /** The fields can be read back from the id. */
  lemma FieldsBack(w: Worker, time: nat, sequence: nat)
    requires Valid(w, State(sequence, 0)) && time < TIME_LIMIT
    ensures var id := Compose(w, time, sequence);
      && id < WORD
      && id / TIME_UNIT == time && id / DATACENTER_UNIT % DATACENTERS == w.datacenter
      && id / WORKER_UNIT % WORKERS == w.worker && id % SEQUENCES == sequence
  {
    var id := Compose(w, time, sequence);
    RingIndex.Unique(time * TIME_UNIT, WORD, 0, time * TIME_UNIT);
    var low, middle := w.worker * WORKER_UNIT + sequence, w.datacenter * DATACENTERS + w.worker;
    RingIndex.Unique(id, TIME_UNIT, time, w.datacenter * DATACENTER_UNIT + low);
    RingIndex.Unique(id, DATACENTER_UNIT, time * DATACENTERS + w.datacenter, low);
    RingIndex.Unique(time * DATACENTERS + w.datacenter, DATACENTERS, time, w.datacenter);
    RingIndex.Unique(id, WORKER_UNIT, time * 1024 + middle, sequence);
    RingIndex.Unique(time * 1024 + middle, WORKERS, time * DATACENTERS + w.datacenter, w.worker);
  }

  /** The state before it as an id: every id made later is greater. */
  function Bound(w: Worker, s: State): int {
    (s.last - TWEPOCH) * TIME_UNIT + w.datacenter * DATACENTER_UNIT + w.worker * WORKER_UNIT + s.sequence
  }

  /** The elapsed time of each reading takes 42 bits. */
  predicate InTime(readings: seq<nat>) {
    forall i :: 0 <= i < |readings| ==> TWEPOCH <= readings[i] < TWEPOCH + TIME_LIMIT
  }

  lemma StampBound(w: Worker, time: nat, sequence: nat)
    requires TWEPOCH <= time < TWEPOCH + TIME_LIMIT
    ensures Elapsed(time) == time - TWEPOCH && Compose(w, Elapsed(time), sequence) == Bound(w, State(sequence, time))
  {
  }

  /** Each id is greater than the one before, whatever the clock says; a clock that moved backwards gives none. */
  lemma NextIsGreater(w: Worker, s: State, readings: seq<nat>)
    requires Valid(w, s) && InTime(readings)
    ensures var r := NextId(w, s, readings);
      && (r.Id? ==> Valid(w, r.next) && r.id == Bound(w, r.next) && r.id > Bound(w, s) && r.next.last in readings)
      && (r == Backwards <==> readings != [] && readings[0] < s.last)
  {
    if readings != [] {
      TilNextIsLater(readings[1..], s.last);
      var r := NextId(w, s, readings);
      if r.Id? {
        StampBound(w, r.next.last, r.next.sequence);
        hide Elapsed;
        hide Compose;
      }
    }
  }

  /** Reading `k` is the first one after `last`, of those from `from` on. */
  predicate FirstPast(readings: seq<nat>, last: nat, from: nat, k: nat) {
    from <= k < |readings| && readings[k] > last && forall j :: from <= j < k ==> readings[j] <= last
  }

  /** When an id is given, and which: with a clock past the last id at once, with sequence 0; in the same millisecond
      at once, with the next sequence up to 4095; after that with the first later reading, and sequence 0. */
  lemma NextExactly(w: Worker, s: State, readings: seq<nat>, k: nat)
    requires Valid(w, s) && readings != []
    ensures readings[0] < s.last ==> NextId(w, s, readings) == Backwards
    ensures readings[0] > s.last ==>
      NextId(w, s, readings) == Id(Compose(w, Elapsed(readings[0]), 0), State(0, readings[0]))
    ensures readings[0] == s.last && s.sequence < 4095 ==>
      NextId(w, s, readings)
      == Id(Compose(w, Elapsed(readings[0]), s.sequence + 1), State(s.sequence + 1, readings[0]))
    ensures readings[0] == s.last && s.sequence == 4095 && FirstPast(readings, s.last, 1, k) ==>
      NextId(w, s, readings) == Id(Compose(w, Elapsed(readings[k]), 0), State(0, readings[k]))
    ensures readings[0] == s.last && s.sequence == 4095 ==>
      (NextId(w, s, readings) == Waiting <==> forall j :: 1 <= j < |readings| ==> readings[j] <= s.last)
  {
    FirstLater(readings[1..], s.last, if k > 0 then k - 1 else 0);
    assert forall j :: 0 < j < |readings| ==> readings[1..][j - 1] == readings[j];
    hide Compose;
    hide Elapsed;
  }

  /** `TilNext` finds the first reading after `last`, if there is one. */
  lemma {:induction false} FirstLater(readings: seq<nat>, last: nat, k: nat)
    ensures TilNext(readings, last) == [] <==> forall j :: 0 <= j < |readings| ==> readings[j] <= last
    ensures FirstPast(readings, last, 0, k) ==> TilNext(readings, last) == [readings[k]]
  {
    if readings != [] {
      FirstLater(readings[1..], last, if k > 0 then k - 1 else 0);
      assert forall j :: 0 < j < |readings| ==> readings[1..][j - 1] == readings[j];
    }
  }

  /** The id of a time within 42 bits, in figures. */
  lemma IdInFigures(w: Worker, time: nat, sequence: nat)
    requires 1514736000000 <= time < 1514736000000 + 0x400_0000_0000
    ensures Compose(w, Elapsed(time), sequence)
         == (time - 1514736000000) * 0x40_0000 + w.datacenter * 0x2_0000 + w.worker * 0x1000 + sequence
  {
    StampBound(w, time, sequence);
  }

  /* ---------- whole runs ---------- */

  /** The state after the calls whose clock readings are `calls`; a call that throws or never returns leaves it. */
  function Run(w: Worker, calls: seq<seq<nat>>): State {
    if calls == [] then State(0, 0)
    else
      var s := Run(w, calls[..|calls| - 1]);
      var r := NextId(w, s, calls[|calls| - 1]);
      if r.Id? then r.next else s
  }

  /** The ids of the calls that returned one, in order. */
  function Ids(w: Worker, calls: seq<seq<nat>>): seq<nat> {
    if calls == [] then []
    else
      var r := NextId(w, Run(w, calls[..|calls| - 1]), calls[|calls| - 1]);
      Ids(w, calls[..|calls| - 1]) + if r.Id? then [r.id] else []
  }

  /** In every run the ids are strictly increasing. */
  lemma {:induction false} IdsIncrease(w: Worker, calls: seq<seq<nat>>)
    requires w.worker < WORKERS && w.datacenter < DATACENTERS
    requires forall k :: 0 <= k < |calls| ==> InTime(calls[k])
    ensures Valid(w, Run(w, calls))
    ensures forall i :: 0 <= i < |Ids(w, calls)| ==> Ids(w, calls)[i] <= Bound(w, Run(w, calls))
    ensures forall i, j :: 0 <= i < j < |Ids(w, calls)| ==> Ids(w, calls)[i] < Ids(w, calls)[j]
  {
    if calls == [] {
    } else {
      var before := calls[..|calls| - 1];
      IdsIncrease(w, before);
      NextIsGreater(w, Run(w, before), calls[|calls| - 1]);
      hide NextId;
      hide Bound;
      hide InTime;
    }
  }

  /** The clock stands still: up to 4096 calls of a new generator return at once, with consecutive ids. */
  lemma {:induction false} SameMillisecond(w: Worker, now: nat, n: nat)
    requires w.worker < WORKERS && w.datacenter < DATACENTERS && n <= 4096
    requires 1514736000000 <= now < 1514736000000 + 0x400_0000_0000
    ensures |Ids(w, Repeated(now, n))| == n
    ensures forall i :: 0 <= i < n ==>
      Ids(w, Repeated(now, n))[i]
      == (now - 1514736000000) * 0x40_0000 + w.datacenter * 0x2_0000 + w.worker * 0x1000 + i
    ensures Run(w, Repeated(now, n)) == if n == 0 then State(0, 0) else State(n - 1, now)
  {
    if n > 0 {
      SameMillisecond(w, now, n - 1);
      assert Repeated(now, n)[..n - 1] == Repeated(now, n - 1);
      NextExactly(w, Run(w, Repeated(now, n - 1)), [now], 0);
      IdInFigures(w, now, n - 1);
      hide NextId;
      hide Compose;
      hide Elapsed;
    }
  }

  /** `n` calls that read the same time. */
  function Repeated(now: nat, n: nat): (r: seq<seq<nat>>)
    ensures |r| == n && forall i :: 0 <= i < n ==> r[i] == [now]
  {
    seq(n, _ => [now])
  }

  /** Two generators with different numbers never make the same id. */
  lemma GeneratorsDiffer(w: Worker, w': Worker, time: nat, sequence: nat, time': nat, sequence': nat)
    requires Valid(w, State(sequence, 0)) && Valid(w', State(sequence', 0)) && time < TIME_LIMIT && time' < TIME_LIMIT
    requires w != w'
    ensures Compose(w, time, sequence) != Compose(w', time', sequence')
  {
    FieldsBack(w, time, sequence);
    FieldsBack(w', time', sequence');
  }

  class IdWorker {
    const w: Worker
    var sequence: nat
    var last: nat

    constructor (w: Worker)
      ensures this.w == w && sequence == 0 && last == 0
    {
      this.w, sequence, last := w, 0, 0;
    }

    /** Reads the clock until it is past `last`; nothing if the readings run out. */
    method TilNextMillis(readings: seq<nat>) returns (later: seq<nat>)
      ensures later == TilNext(readings, last)
      ensures later == [] <==> forall k :: 0 <= k < |readings| ==> readings[k] <= last
      ensures later != [] ==> exists k: nat :: FirstPast(readings, last, 0, k) && later == [readings[k]]
    {
      var i := 0;
      while i < |readings| && readings[i] <= last
        invariant i <= |readings| && TilNext(readings[i..], last) == TilNext(readings, last)
        invariant forall j :: 0 <= j < i ==> readings[j] <= last
      {
        assert readings[i..][1..] == readings[i + 1..];
        i := i + 1;
      }
      assert i < |readings| ==> FirstPast(readings, last, 0, i);
      later := if i < |readings| then [readings[i]] else [];
    }

    /** The state changes only when an id is returned, except that waiting for the next millisecond has already
        wrapped the sequence. */
    method GetId(readings: seq<nat>) returns (r: Result)
      modifies this
      ensures r == NextId(w, State(old(sequence), old(last)), readings)
      ensures readings != [] ==>
        var now := readings[0];
        && (now < old(last) ==> r == Backwards)
        && (now > old(last) ==> r.Id? && sequence == 0 && last == now)
        && (now == old(last) && old(sequence) < 4095 ==> r.Id? && sequence == old(sequence) + 1 && last == now)
        && (now == old(last) && old(sequence) == 4095 ==>
              && (r == Waiting <==> forall j :: 1 <= j < |readings| ==> readings[j] <= now)
              && (r.Id? ==> sequence == 0 && exists k: nat :: FirstPast(readings, now, 1, k) && last == readings[k]))
      ensures r.Id? ==> r.next == State(sequence, last)
      ensures r.Id? && 1514736000000 <= last < 1514736000000 + 0x400_0000_0000 ==>
        r.id == (last - 1514736000000) * 0x40_0000 + w.datacenter * 0x2_0000 + w.worker * 0x1000 + sequence
      ensures r.Backwards? ==> sequence == old(sequence) && last == old(last)
    {
      if readings == [] {
        return Waiting;
      }
      var timestamp := readings[0];
      if timestamp < last {
        return Backwards;
      }
      if last == timestamp {
        sequence := (sequence + 1) % SEQUENCES;
        if sequence == 0 {
          var later := TilNextMillis(readings[1..]);
          if later == [] {
            return Waiting;
          }
          timestamp := later[0];
          ghost var k: nat :| FirstPast(readings[1..], last, 0, k) && later == [readings[1..][k]];
          assert FirstPast(readings, last, 1, k + 1);
        }
      } else {
        sequence := 0;
      }
      last := timestamp;
      if 1514736000000 <= timestamp < 1514736000000 + 0x400_0000_0000 {
        IdInFigures(w, timestamp, sequence);
      }
      hide Compose;
      hide Elapsed;
      r := Id(Compose(w, Elapsed(timestamp), sequence), State(sequence, last));
    }
  }
}
