/**
 The byte buffer of skylu/net/buffer.h, and the two ends of a connection that use it: the serializer
 that fills it and the loop that takes packets out of it.
 */
module NetBuffer {
  import opened MqCodec
  import opened Wrappers

  class Buffer {
    var queue: array<Byte>
    var rpos: nat
    var wpos: nat

    ghost predicate Valid()
      reads this
    {
      rpos <= wpos <= queue.Length
    }

    /** The readable bytes. */
    ghost function Contents(): (s: seq<Byte>)
      requires Valid()
      reads this, queue
    {
      queue[rpos..wpos]
    }

    constructor (size: nat)
      ensures Valid() && Contents() == [] && fresh(queue)
    {
      queue := new Byte[size](_ => 0);
      rpos, wpos := 0, 0;
    }

    function ReadableBytes(): int
      reads this
    {
      wpos - rpos
    }

    function WriteableBytes(): int
      reads this
    {
      queue.Length - wpos
    }

    method ResetAll()
      modifies this
      ensures Valid() && Contents() == [] && queue == old(queue)
    {
      rpos, wpos := 0, 0;
    }

    method UpdatePos(len: nat)
      requires Valid() && len <= ReadableBytes()
      modifies this
      ensures Valid() && Contents() == old(Contents())[len..] && queue == old(queue)
    {
      if len < ReadableBytes() {
        rpos := rpos + len;
      } else {
        ResetAll();
      }
    }

    /** Moves the readable bytes to the front when that makes enough room, else takes a larger store. */
    method Resize(len: nat)
      requires Valid() && WriteableBytes() < len
      modifies this, queue
      ensures Valid() && Contents() == old(Contents()) && WriteableBytes() >= len
      ensures queue == old(queue) || fresh(queue)
    {
      if WriteableBytes() + rpos < len {
        var larger := new Byte[wpos + len](_ => 0);
        for i := 0 to queue.Length
          modifies larger
          invariant forall k :: 0 <= k < i ==> larger[k] == queue[k]
        {
          larger[i] := queue[i];
        }
        assert larger[rpos..wpos] == queue[rpos..wpos];
        queue := larger;
      } else {
        assert 0 < rpos;
        var readable := wpos - rpos;
        for i := 0 to readable
          modifies queue
          invariant forall k :: 0 <= k < i ==> queue[k] == old(queue[rpos + k])
          invariant forall k :: i <= k < queue.Length ==> queue[k] == old(queue[k])
        {
          queue[i] := queue[rpos + i];
        }
        rpos := 0;
        wpos := readable;
      }
    }

    method EnsureWriteableBytes(len: nat)
      requires Valid()
      modifies this, queue
      ensures Valid() && Contents() == old(Contents()) && WriteableBytes() >= len
      ensures queue == old(queue) || fresh(queue)
    {
      if WriteableBytes() < len {
        Resize(len);
      }
    }

    method Append(data: seq<Byte>)
      requires Valid()
      modifies this, queue
      ensures Valid() && Contents() == old(Contents()) + data
      ensures queue == old(queue) || fresh(queue)
    {
      EnsureWriteableBytes(|data|);
      ghost var before := queue[..];
      for i := 0 to |data|
        modifies queue
        invariant forall k :: 0 <= k < queue.Length ==>
            queue[k] == if wpos <= k < wpos + i then data[k - wpos] else before[k]
      {
        queue[wpos + i] := data[i];
      }
      Appended(before, queue[..], rpos, wpos, data);
      wpos := wpos + |data|;
    }
  }

  lemma Appended(before: seq<Byte>, after: seq<Byte>, rpos: nat, wpos: nat, data: seq<Byte>)
    requires rpos <= wpos && wpos + |data| <= |before| == |after|
    requires forall k :: 0 <= k < |after| ==>
        after[k] == if wpos <= k < wpos + |data| then data[k - wpos] else before[k]
    ensures after[rpos..wpos + |data|] == before[rpos..wpos] + data
  {
  }

  /* ---------- the sender ---------- */

  /** `memcpy` to offset `at` of a local array. */
  method Put(a: array<Byte>, at: nat, data: seq<Byte>)
    requires at + |data| <= a.Length
    modifies a
    ensures forall i :: 0 <= i < a.Length ==> a[i] == if at <= i < at + |data| then data[i - at] else old(a[i])
  {
    for i := 0 to |data|
      invariant forall k :: 0 <= k < a.Length ==> a[k] == if at <= k < at + i then data[k - at] else old(a[k])
    {
      a[at + i] := data[i];
    }
  }

  /** The fields of the struct in front of `body`. */
  function Header(p: Packet, padding: seq<Byte>): (s: seq<Byte>)
    requires WellFormed(p) && |padding| == 6
    ensures |s| == BODY
  {
    Offsets(p, Junk(padding, [0, 0, 0, 0, 0, 0, 0, 0]));
    Flat(Chunks(p, Junk(padding, [0, 0, 0, 0, 0, 0, 0, 0])), 13)
  }

  lemma {:induction false} FlatSame(cs: seq<seq<Byte>>, cs': seq<seq<Byte>>, n: nat)
    requires n <= |cs| && n <= |cs'| && forall i :: 0 <= i < n ==> cs[i] == cs'[i]
    ensures Flat(cs, n) == Flat(cs', n)
  {
    if n == 0 {
    } else {
      FlatSame(cs, cs', n - 1);
    }
  }

  /** The encoded packet in the four pieces that are copied. */
  lemma Pieces(p: Packet, j: Junk)
    requires WellFormed(p) && Fits(j)
    ensures Encode(p, j) == Header(p, j.padding) + p.topic + p.message + ([255, 255, 255, 255] + j.tail)
  {
    var cs := Chunks(p, j);
    FlatSame(cs, Chunks(p, Junk(j.padding, [0, 0, 0, 0, 0, 0, 0, 0])), 13);
    Fields(p, j);
    FlatStep(cs, 13);
    FlatStep(cs, 14);
    FlatStep(cs, 15);
  }

  lemma FlatStep(cs: seq<seq<Byte>>, n: nat)
    requires n < |cs|
    ensures Flat(cs, n + 1) == Flat(cs, n) + cs[n]
  {
  }

  /** `serializationToBuffer`: the struct, topic, message and marker copied over one another into an
      uninitialized array (`stack`), which is then appended. */
  method SerializationToBuffer(p: Packet, padding: seq<Byte>, structTail: seq<Byte>, stack: array<Byte>, buff: Buffer)
      returns (ghost j: Junk)
    requires WellFormed(p) && |padding| == 6 && |structTail| == 8 && stack.Length == Length(p)
    requires buff.Valid() && stack != buff.queue
    modifies stack, buff, buff.queue
    ensures buff.Valid() && Fits(j) && buff.Contents() == old(buff.Contents()) + Encode(p, j)
  {
    hide Encode;
    hide Header;
    hide WellFormed;
    var t, n := |p.topic|, |p.message|;
    Put(stack, 0, Header(p, padding) + structTail);
    Put(stack, BODY, p.topic);
    Put(stack, BODY + t, p.message);
    Put(stack, BODY + t + n, [255, 255, 255, 255]);
    j := Junk(padding, stack[BODY + t + n + 4..]);
    assert stack[..] == Header(p, padding) + p.topic + p.message + ([255, 255, 255, 255] + j.tail);
    Pieces(p, j);
    buff.Append(stack[..]);
  }

  /* ---------- the receiver ---------- */

  /** `serializationToMqPacket`. */
  method SerializationToMqPacket(buff: Buffer) returns (r: Parsed)
    requires buff.Valid() && buff.ReadableBytes() > HEADER
    modifies buff
    ensures buff.Valid() && buff.queue == old(buff.queue)
    ensures r == Parse(old(buff.Contents()))
    ensures buff.Contents() ==
      match r
      case Incomplete => old(buff.Contents())
      case Malformed => []
      case Parsed(p) => old(buff.Contents())[Length(p)..]
    // in figures
    ensures var s := old(buff.Contents());
      var end := 72 + FromLE(s[64..68]) + FromLE(s[68..72]);
      && (r == Malformed <==> 7 <= s[0] <= 127 || (|s| >= end + 12 && s[end] != 255))
      && (r == Incomplete <==> !(7 <= s[0] <= 127) && |s| < end + 12)
      && (r.Parsed? ==> buff.Contents() == s[end + 12..])
  {
    var s := buff.queue[buff.rpos..buff.wpos];
    ParseInFigures(s);
    hide FromLE;
    if !KnownCommand(s[0]) {
      buff.ResetAll();
      return Malformed;
    }
    var end := BODY + TopicBytes(s) + MsgBytes(s);
    if |s| < end + 12 {
      return Incomplete;
    }
    if s[end] != 255 {
      buff.ResetAll();
      return Malformed;
    }
    r := Parsed(ReadPacket(s));
    buff.UpdatePos(end + 12);
  }

  /** The loop of a message callback, which hands over `packets`. */
  method OnMessage(buff: Buffer) returns (packets: seq<Packet>)
    requires buff.Valid()
    modifies buff
    ensures buff.Valid() && buff.queue == old(buff.queue)
    ensures packets == Packets(old(buff.Contents())) && buff.Contents() == Rest(old(buff.Contents()))
  {
    hide Parse;
    hide Packets;
    hide Rest;
    packets := [];
    while buff.ReadableBytes() > HEADER
      invariant buff.Valid() && buff.queue == old(buff.queue) && buff.queue[..] == old(buff.queue[..])
      invariant packets + Packets(buff.Contents()) == Packets(old(buff.Contents()))
      invariant Rest(buff.Contents()) == Rest(old(buff.Contents()))
      decreases buff.ReadableBytes()
    {
      ghost var s := buff.Contents();
      var r := SerializationToMqPacket(buff);
      if !r.Parsed? {
        Stops(s);
        return;
      }
      LoopStep(s, r.packet);
      AtLeastHeader(r.packet);
      packets := packets + [r.packet];
    }
    NoneLeft(buff.Contents());
  }

  lemma NoneLeft(s: seq<Byte>)
    ensures |s| <= HEADER ==> Packets(s) == [] && Rest(s) == s
  {
  }

  lemma Stops(s: seq<Byte>)
    requires |s| > HEADER && !Parse(s).Parsed?
    ensures Packets(s) == [] && Rest(s) == if Parse(s).Malformed? then [] else s
  {
  }
}
