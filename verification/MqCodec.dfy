/**
 The packets of skylu/proto/mq_proto and the way they are framed: an 80-byte `MqPacket` header whose
 last eight bytes (the `body` member and its padding) are overlaid by topic, message and end marker.

 Integers are little-endian.  Bytes that the code copies without ever setting them, the padding of
 the struct and the tail of the stack buffer, are a parameter of the encoding.
 */
module MqCodec {
  import opened Wrappers

  /* ---------- integers as bytes ---------- */

  function Pow256(k: nat): (r: nat)
    ensures r > 0
  {
    if k == 0 then 1 else 256 * Pow256(k - 1)
  }

  function LE(n: nat, k: nat): (s: seq<Byte>)
    ensures |s| == k
  {
    if k == 0 then [] else [n % 256] + LE(n / 256, k - 1)
  }

  function FromLE(s: seq<Byte>): nat {
    if s == [] then 0 else s[0] + 256 * FromLE(s[1..])
  }

  /** Two's complement in `k` bytes. */
  function Raw(v: int, k: nat): nat
    requires InSigned(v, k)
  {
    if v >= 0 then v else v + Pow256(k)
  }

  function Signed(n: nat, k: nat): int {
    if 2 * n < Pow256(k) then n else n - Pow256(k)
  }

  predicate Unsigned(v: int, k: nat) {
    0 <= v < Pow256(k)
  }

  predicate InSigned(v: int, k: nat) {
    0 - Pow256(k) <= 2 * v < Pow256(k)
  }

  lemma {:induction false} UnsignedRoundTrip(n: nat, k: nat)
    requires n < Pow256(k)
    ensures FromLE(LE(n, k)) == n
  {
    if k == 0 {
    } else {
      UnsignedRoundTrip(n / 256, k - 1);
      assert LE(n, k)[1..] == LE(n / 256, k - 1);
    }
  }

  lemma SignedRoundTrip(v: int, k: nat)
    requires InSigned(v, k)
    ensures Unsigned(Raw(v, k), k) && Signed(FromLE(LE(Raw(v, k), k)), k) == v
  {
    UnsignedRoundTrip(Raw(v, k), k);
  }

  /* ---------- packets ---------- */

  datatype Packet = Packet(
    command: Byte, retCode: Byte, messageId: int, msgCreateTime: int, optional3: int, consumerGroupId: int,
    optional2: int, maxEnableBytes: int, optional1: int, offset: int, topic: seq<Byte>, message: seq<Byte>)

  /** The bytes nobody sets: the padding after `retCode`, and the eight bytes after the end marker. */
  datatype Junk = Junk(padding: seq<Byte>, tail: seq<Byte>)

  predicate Fits(j: Junk) {
    |j.padding| == 6 && |j.tail| == 8
  }

  const HEADER := 80
  const BODY := 72
  const LAST_COMMAND := 6

  /** `command` is a `char`, which is signed. */
  predicate KnownCommand(b: Byte) {
    b <= LAST_COMMAND || b >= 128
  }

  /** What the types of the fields allow. */
  predicate WellFormed(p: Packet) {
    && Unsigned(p.messageId, 8) && InSigned(p.msgCreateTime, 8) && Unsigned(p.optional3, 8)
    && InSigned(p.consumerGroupId, 4) && Unsigned(p.optional2, 4) && InSigned(p.maxEnableBytes, 8)
    && InSigned(p.optional1, 8) && Unsigned(p.offset, 8)
    && Unsigned(|p.topic|, 4) && Unsigned(|p.message|, 4)
  }

  /** `MqPacketLength`. */
  function Length(p: Packet): nat {
    HEADER + |p.topic| + |p.message| + 4
  }

  /** The packet field by field, in the layout of the struct. */
  function Chunks(p: Packet, j: Junk): (cs: seq<seq<Byte>>)
    requires WellFormed(p)
    ensures |cs| == 16
  {
    [[p.command], [p.retCode], j.padding, LE(p.messageId, 8), LE(Raw(p.msgCreateTime, 8), 8), LE(p.optional3, 8),
     LE(Raw(p.consumerGroupId, 4), 4), LE(p.optional2, 4), LE(Raw(p.maxEnableBytes, 8), 8),
     LE(Raw(p.optional1, 8), 8), LE(p.offset, 8), LE(|p.topic|, 4), LE(|p.message|, 4),
     p.topic, p.message, [255, 255, 255, 255] + j.tail]
  }

  /** The first `n` fields, one after the other, and how many bytes they are. */
  function Flat(cs: seq<seq<Byte>>, n: nat): (s: seq<Byte>)
    requires n <= |cs|
    ensures |s| == Offset(cs, n)
  {
    if n == 0 then [] else Flat(cs, n - 1) + cs[n - 1]
  }

  function Offset(cs: seq<seq<Byte>>, n: nat): nat
    requires n <= |cs|
  {
    if n == 0 then 0 else Offset(cs, n - 1) + |cs[n - 1]|
  }

  /** `serializationToBuffer`: the bytes appended for one packet. */
  function Encode(p: Packet, j: Junk): seq<Byte>
    requires WellFormed(p)
  {
    Flat(Chunks(p, j), 16)
  }

  datatype Parsed = Incomplete | Malformed | Parsed(packet: Packet)

  function TopicBytes(s: seq<Byte>): nat
    requires |s| > HEADER
  {
    FromLE(s[64..68])
  }

  function MsgBytes(s: seq<Byte>): nat
    requires |s| > HEADER
  {
    FromLE(s[68..72])
  }

  function ReadPacket(s: seq<Byte>): Packet
    requires |s| > HEADER && BODY + TopicBytes(s) + MsgBytes(s) <= |s|
  {
    var t, n := TopicBytes(s), MsgBytes(s);
    Packet(s[0], s[1], FromLE(s[8..16]), Signed(FromLE(s[16..24]), 8), FromLE(s[24..32]), Signed(FromLE(s[32..36]), 4),
           FromLE(s[36..40]), Signed(FromLE(s[40..48]), 8), Signed(FromLE(s[48..56]), 8), FromLE(s[56..64]),
           s[BODY..BODY + t], s[BODY + t..BODY + t + n])
  }

  /** `serializationToMqPacket` on the readable bytes: the end check reads one byte of the marker. */
  function Parse(s: seq<Byte>): Parsed
    requires |s| > HEADER
  {
    var end := BODY + TopicBytes(s) + MsgBytes(s);
    if !KnownCommand(s[0]) then Malformed
    else if |s| < end + 12 then Incomplete
    else if s[end] != 255 then Malformed
    else Parsed(ReadPacket(s))
  }

  /** The loop of a message callback over the readable bytes: the packets it takes out, and what it leaves. */
  function Packets(s: seq<Byte>): seq<Packet> {
    if |s| <= HEADER then []
    else
      var r := Parse(s);
      if r.Parsed? then [r.packet] + Packets(s[Length(r.packet)..]) else []
  }

  function Rest(s: seq<Byte>): seq<Byte> {
    if |s| <= HEADER then s
    else
      match Parse(s)
      case Incomplete => s
      case Malformed => []
      case Parsed(p) => Rest(s[Length(p)..])
  }

  /* ---------- one packet ---------- */

  /** Field `i` sits where the fields before it end. */
  lemma {:induction false} FlatAt(cs: seq<seq<Byte>>, i: nat, n: nat)
    requires i < n <= |cs|
    ensures Offset(cs, i) + |cs[i]| <= Offset(cs, n)
    ensures Flat(cs, n)[Offset(cs, i)..Offset(cs, i) + |cs[i]|] == cs[i]
  {
    if i < n - 1 {
      FlatAt(cs, i, n - 1);
      assert Flat(cs, n)[..Offset(cs, n - 1)] == Flat(cs, n - 1);
      assert Flat(cs, n)[Offset(cs, i)..Offset(cs, i) + |cs[i]|]
          == Flat(cs, n - 1)[Offset(cs, i)..Offset(cs, i) + |cs[i]|];
    }
  }

  lemma OffsetStep(cs: seq<seq<Byte>>, i: nat)
    requires i < |cs|
    ensures Offset(cs, i + 1) == Offset(cs, i) + |cs[i]|
  {
  }

  /** The offsets of the sixteen fields of the struct. */
  lemma Offsets(p: Packet, j: Junk)
    requires WellFormed(p) && Fits(j)
    ensures var cs := Chunks(p, j);
      && Offset(cs, 0) == 0 && Offset(cs, 1) == 1 && Offset(cs, 3) == 8 && Offset(cs, 4) == 16 && Offset(cs, 5) == 24
      && Offset(cs, 6) == 32 && Offset(cs, 7) == 36 && Offset(cs, 8) == 40 && Offset(cs, 9) == 48
           && Offset(cs, 10) == 56
      && Offset(cs, 11) == 64 && Offset(cs, 12) == 68 && Offset(cs, 13) == BODY && Offset(cs, 14) == BODY + |p.topic|
      && Offset(cs, 15) == BODY + |p.topic| + |p.message| && Offset(cs, 16) == Length(p)
  {
    var cs := Chunks(p, j);
    Widths(p, j);
    hide *;
    NoOffset(cs);
    OffsetStep(cs, 0);
    OffsetStep(cs, 1);
    OffsetStep(cs, 2);
    OffsetStep(cs, 3);
    OffsetStep(cs, 4);
    OffsetStep(cs, 5);
    OffsetStep(cs, 6);
    OffsetStep(cs, 7);
    OffsetStep(cs, 8);
    OffsetStep(cs, 9);
    OffsetStep(cs, 10);
    OffsetStep(cs, 11);
    OffsetStep(cs, 12);
    OffsetStep(cs, 13);
    OffsetStep(cs, 14);
    OffsetStep(cs, 15);
  }

  lemma NoOffset(cs: seq<seq<Byte>>)
    ensures Offset(cs, 0) == 0
  {
  }

  lemma Widths(p: Packet, j: Junk)
    requires WellFormed(p) && Fits(j)
    ensures var cs := Chunks(p, j);
      && |cs[0]| == 1 && |cs[1]| == 1 && |cs[2]| == 6 && |cs[3]| == 8 && |cs[4]| == 8 && |cs[5]| == 8 && |cs[6]| == 4
      && |cs[7]| == 4 && |cs[8]| == 8 && |cs[9]| == 8 && |cs[10]| == 8 && |cs[11]| == 4 && |cs[12]| == 4
      && |cs[13]| == |p.topic| && |cs[14]| == |p.message| && |cs[15]| == 12
      && Length(p) == 84 + |p.topic| + |p.message| && BODY == 72
  {
  }

  /** One is the beginning of the other. */
  predicate Compatible(s: seq<Byte>, e: seq<Byte>) {
    s <= e || e <= s
  }

  /** A field that has arrived is there as it was written. */
  lemma FieldArrived(p: Packet, j: Junk, s: seq<Byte>, i: nat)
    requires WellFormed(p) && Fits(j) && Compatible(s, Encode(p, j)) && i < 16
    requires var cs := Chunks(p, j); Offset(cs, i) + |cs[i]| <= |s|
    ensures var cs := Chunks(p, j); s[Offset(cs, i)..Offset(cs, i) + |cs[i]|] == cs[i]
  {
    hide *;
    var cs, e := Chunks(p, j), Encode(p, j);
    EncodeIs(p, j);
    FlatAt(cs, i, 16);
    SameSlice(s, e, Offset(cs, i), Offset(cs, i) + |cs[i]|);
  }

  lemma EncodeIs(p: Packet, j: Junk)
    requires WellFormed(p)
    ensures Encode(p, j) == Flat(Chunks(p, j), 16)
  {
  }

  lemma SameSlice(s: seq<Byte>, e: seq<Byte>, a: nat, b: nat)
    requires Compatible(s, e) && a <= b <= |s| && b <= |e|
    ensures s[a..b] == e[a..b]
  {
    if s <= e {
      assert s == e[..|s|];
    } else {
      assert e == s[..|e|];
    }
  }

  lemma EncodeLength(p: Packet, j: Junk)
    requires WellFormed(p) && Fits(j)
    ensures |Encode(p, j)| == Length(p)
  {
    Offsets(p, j);
  }

  /** The numbers in the header, as soon as all of it has arrived. */
  lemma HeaderArrived(p: Packet, j: Junk, s: seq<Byte>)
    requires WellFormed(p) && Fits(j) && Compatible(s, Encode(p, j)) && |s| > HEADER
    ensures s[0] == p.command && s[1] == p.retCode
    ensures FromLE(s[8..16]) == p.messageId && Signed(FromLE(s[16..24]), 8) == p.msgCreateTime
    ensures FromLE(s[24..32]) == p.optional3 && Signed(FromLE(s[32..36]), 4) == p.consumerGroupId
    ensures FromLE(s[36..40]) == p.optional2 && Signed(FromLE(s[40..48]), 8) == p.maxEnableBytes
    ensures Signed(FromLE(s[48..56]), 8) == p.optional1 && FromLE(s[56..64]) == p.offset
    ensures TopicBytes(s) == |p.topic| && MsgBytes(s) == |p.message|
  {
    HeaderSlices(p, j, s);
    MoreHeaderSlices(p, j, s);
    RoundTrips(p);
    hide *;
    HeaderSize();
    LengthBytes(s);
  }

  lemma HeaderSlices(p: Packet, j: Junk, s: seq<Byte>)
    requires WellFormed(p) && Fits(j) && Compatible(s, Encode(p, j)) && |s| > HEADER
    ensures s[0] == p.command && s[1] == p.retCode
    ensures s[8..16] == LE(p.messageId, 8) && s[16..24] == LE(Raw(p.msgCreateTime, 8), 8)
    ensures s[24..32] == LE(p.optional3, 8) && s[32..36] == LE(Raw(p.consumerGroupId, 4), 4)
  {
    hide *;
    Offsets(p, j);
    Widths(p, j);
    Fields(p, j);
    HeaderSize();
    FieldArrived(p, j, s, 0);
    FieldArrived(p, j, s, 1);
    FieldArrived(p, j, s, 3);
    FieldArrived(p, j, s, 4);
    FieldArrived(p, j, s, 5);
    FieldArrived(p, j, s, 6);
    assert s[0] == s[0..1][0] && s[1] == s[1..2][0];
  }

  lemma MoreHeaderSlices(p: Packet, j: Junk, s: seq<Byte>)
    requires WellFormed(p) && Fits(j) && Compatible(s, Encode(p, j)) && |s| > HEADER
    ensures s[36..40] == LE(p.optional2, 4) && s[40..48] == LE(Raw(p.maxEnableBytes, 8), 8)
    ensures s[48..56] == LE(Raw(p.optional1, 8), 8) && s[56..64] == LE(p.offset, 8)
    ensures s[64..68] == LE(|p.topic|, 4) && s[68..72] == LE(|p.message|, 4)
  {
    hide *;
    Offsets(p, j);
    Widths(p, j);
    Fields(p, j);
    HeaderSize();
    FieldArrived(p, j, s, 7);
    FieldArrived(p, j, s, 8);
    FieldArrived(p, j, s, 9);
    FieldArrived(p, j, s, 10);
    FieldArrived(p, j, s, 11);
    FieldArrived(p, j, s, 12);
  }

  lemma HeaderSize()
    ensures HEADER == 80 && BODY == 72
  {
  }

  lemma LengthBytes(s: seq<Byte>)
    requires |s| > HEADER
    ensures TopicBytes(s) == FromLE(s[64..68]) && MsgBytes(s) == FromLE(s[68..72])
  {
  }

  lemma Fields(p: Packet, j: Junk)
    requires WellFormed(p)
    ensures var cs := Chunks(p, j);
      && cs[0] == [p.command] && cs[1] == [p.retCode]
      && cs[3] == LE(p.messageId, 8) && cs[4] == LE(Raw(p.msgCreateTime, 8), 8) && cs[5] == LE(p.optional3, 8)
      && cs[6] == LE(Raw(p.consumerGroupId, 4), 4) && cs[7] == LE(p.optional2, 4)
      && cs[8] == LE(Raw(p.maxEnableBytes, 8), 8) && cs[9] == LE(Raw(p.optional1, 8), 8) && cs[10] == LE(p.offset, 8)
      && cs[11] == LE(|p.topic|, 4) && cs[12] == LE(|p.message|, 4) && cs[13] == p.topic && cs[14] == p.message
      && cs[15] == [255, 255, 255, 255] + j.tail
  {
  }

  lemma RoundTrips(p: Packet)
    requires WellFormed(p)
    ensures FromLE(LE(p.messageId, 8)) == p.messageId && FromLE(LE(p.optional3, 8)) == p.optional3
    ensures FromLE(LE(p.optional2, 4)) == p.optional2 && FromLE(LE(p.offset, 8)) == p.offset
    ensures FromLE(LE(|p.topic|, 4)) == |p.topic| && FromLE(LE(|p.message|, 4)) == |p.message|
    ensures Signed(FromLE(LE(Raw(p.msgCreateTime, 8), 8)), 8) == p.msgCreateTime
    ensures Signed(FromLE(LE(Raw(p.consumerGroupId, 4), 4)), 4) == p.consumerGroupId
    ensures Signed(FromLE(LE(Raw(p.maxEnableBytes, 8), 8)), 8) == p.maxEnableBytes
    ensures Signed(FromLE(LE(Raw(p.optional1, 8), 8)), 8) == p.optional1
  {
    hide LE;
    hide FromLE;
    hide Pow256;
    UnsignedRoundTrip(p.messageId, 8);
    UnsignedRoundTrip(p.optional3, 8);
    UnsignedRoundTrip(p.optional2, 4);
    UnsignedRoundTrip(p.offset, 8);
    UnsignedRoundTrip(|p.topic|, 4);
    UnsignedRoundTrip(|p.message|, 4);
    SignedRoundTrip(p.msgCreateTime, 8);
    SignedRoundTrip(p.consumerGroupId, 4);
    SignedRoundTrip(p.maxEnableBytes, 8);
    SignedRoundTrip(p.optional1, 8);
  }

  /** Parsing what has arrived of an encoded packet, and whatever follows it: nothing before it is
      complete, and then exactly the packet, whatever the unset bytes are. */
  lemma ParseArrived(p: Packet, j: Junk, s: seq<Byte>)
    requires WellFormed(p) && Fits(j) && Compatible(s, Encode(p, j)) && |s| > HEADER
    requires p.command <= 6 || p.command >= 128
    ensures Parse(s) == if |s| < Length(p) then Incomplete else Parsed(p)
  {
    HeaderArrived(p, j, s);
    if |s| >= Length(p) {
      BodyArrived(p, j, s);
    }
    hide TopicBytes;
    hide MsgBytes;
    hide FromLE;
    hide Pow256;
  }

  /** The same in figures: a packet whose fields are in the ranges of their types and whose command is one of the
      seven known ones, or negative, is accepted when it has arrived, whatever follows it. */
  lemma ArrivedInFigures(p: Packet, j: Junk, more: seq<Byte>)
    requires p.command <= 6 || 128 <= p.command
    requires 0 <= p.messageId < 0x1_0000_0000_0000_0000 && 0 <= p.optional3 < 0x1_0000_0000_0000_0000
    requires 0 <= p.offset < 0x1_0000_0000_0000_0000 && 0 <= p.optional2 < 0x1_0000_0000
    requires -0x8000_0000_0000_0000 <= p.msgCreateTime < 0x8000_0000_0000_0000
    requires -0x8000_0000_0000_0000 <= p.maxEnableBytes < 0x8000_0000_0000_0000
    requires -0x8000_0000_0000_0000 <= p.optional1 < 0x8000_0000_0000_0000
    requires -0x8000_0000 <= p.consumerGroupId < 0x8000_0000
    requires |p.topic| < 0x1_0000_0000 && |p.message| < 0x1_0000_0000 && |j.padding| == 6 && |j.tail| == 8
    ensures WellFormed(p)
    ensures |Encode(p, j)| == 84 + |p.topic| + |p.message| && Parse(Encode(p, j) + more) == Parsed(p)
  {
    Powers();
    hide Pow256;
    EncodeLength(p, j);
    hide WellFormed;
    hide Parse;
    ParseArrived(p, j, Encode(p, j) + more);
    hide Encode;
  }

  lemma Powers()
    ensures Pow256(4) == 0x1_0000_0000 && Pow256(8) == 0x1_0000_0000_0000_0000
  {
    assert Pow256(4) == 256 * Pow256(3) && Pow256(3) == 256 * Pow256(2) && Pow256(2) == 256 * Pow256(1);
    assert Pow256(8) == 256 * Pow256(7) && Pow256(7) == 256 * Pow256(6) && Pow256(6) == 256 * Pow256(5);
    assert Pow256(5) == 256 * Pow256(4) && Pow256(1) == 256;
  }

  /** Any other first byte empties the buffer, whatever follows it. */
  lemma UnknownCommand(s: seq<Byte>)
    requires |s| > 80 && 7 <= s[0] <= 127
    ensures Parse(s) == Malformed && Packets(s) == [] && Rest(s) == []
  {
  }

  /** What parsing does, in figures. */
  lemma ParseInFigures(s: seq<Byte>)
    requires |s| > 80
    ensures var end := 72 + FromLE(s[64..68]) + FromLE(s[68..72]);
      && (Parse(s) == Malformed <==> 7 <= s[0] <= 127 || (|s| >= end + 12 && s[end] != 255))
      && (Parse(s) == Incomplete <==> !(7 <= s[0] <= 127) && |s| < end + 12)
      && (Parse(s).Parsed? ==> Length(Parse(s).packet) == end + 12)
  {
    hide FromLE;
  }

  function Value(b0: int, b1: int, b2: int, b3: int): int {
    b0 + 0x100 * b1 + 0x1_0000 * b2 + 0x100_0000 * b3
  }

  /** The first byte of an integer counts least. */
  lemma LittleEndian(s: seq<Byte>)
    ensures |s| == 4 ==> FromLE(s) == Value(s[0], s[1], s[2], s[3])
    ensures |s| == 8 ==> FromLE(s) == FromLE(s[..4]) + 0x1_0000_0000 * FromLE(s[4..])
  {
    if |s| == 4 {
      FromFour(s);
    } else if |s| == 8 {
      FromFour(s[..4]);
      assert s[1..][1..] == s[2..] && s[2..][1..] == s[3..] && s[3..][1..] == s[4..];
      assert FromLE(s) == s[0] + 256 * FromLE(s[1..]) && FromLE(s[1..]) == s[1] + 256 * FromLE(s[2..]);
      assert FromLE(s[2..]) == s[2] + 256 * FromLE(s[3..]) && FromLE(s[3..]) == s[3] + 256 * FromLE(s[4..]);
    }
  }

  lemma FromFour(s: seq<Byte>)
    requires |s| == 4
    ensures FromLE(s) == Value(s[0], s[1], s[2], s[3])
  {
    assert s[1..][1..] == s[2..] && s[2..][1..] == s[3..] && s[3..][1..] == [];
    assert FromLE(s[1..]) == s[1] + 256 * FromLE(s[2..]) && FromLE(s[2..]) == s[2] + 256 * FromLE(s[3..]);
    assert FromLE(s[3..]) == s[3];
  }

  lemma BodyArrived(p: Packet, j: Junk, s: seq<Byte>)
    requires WellFormed(p) && Fits(j) && Compatible(s, Encode(p, j)) && |s| >= Length(p)
    ensures var t, n := |p.topic|, |p.message|;
      s[BODY..BODY + t] == p.topic && s[BODY + t..BODY + t + n] == p.message && s[BODY + t + n] == 255
  {
    hide *;
    Offsets(p, j);
    Widths(p, j);
    Fields(p, j);
    HeaderSize();
    FieldArrived(p, j, s, 13);
    FieldArrived(p, j, s, 14);
    FieldArrived(p, j, s, 15);
    var end := BODY + |p.topic| + |p.message|;
    assert s[end] == s[end..end + 12][0];
  }

  /** Of what follows the message, parsing sees the first byte and the length. */
  lemma OneMarkerByte(s: seq<Byte>, s': seq<Byte>)
    requires |s'| == |s| > HEADER
    requires var end := BODY + TopicBytes(s) + MsgBytes(s); end < |s| && s'[..end] == s[..end]
    ensures var end := BODY + TopicBytes(s) + MsgBytes(s);
      Parse(s') == if s'[end] == s[end] then Parse(s)
                   else if !KnownCommand(s[0]) then Malformed
                   else if |s| < end + 12 then Incomplete
                   else if s'[end] != 255 then Malformed
                   else Parsed(ReadPacket(s))
  {
    hide FromLE;
    hide Pow256;
    var end := BODY + TopicBytes(s) + MsgBytes(s);
    assert forall a, b {:trigger s'[a..b]} :: 0 <= a <= b <= end ==>
        s'[a..b] == s'[..end][a..b] == s[..end][a..b] == s[a..b];
    assert s'[0] == s'[..end][0] && s'[1] == s'[..end][1];
    assert ReadPacket(s') == ReadPacket(s);
  }

  /** The bytes of a packet with four other bytes in the place of its end marker. */
  function WithMarker(p: Packet, j: Junk, marker: seq<Byte>): (s: seq<Byte>)
    requires WellFormed(p) && Fits(j) && |marker| == 4
    ensures |s| == Length(p)
  {
    EncodeLength(p, j);
    var end := BODY + |p.topic| + |p.message|;
    Encode(p, j)[..end] + marker + Encode(p, j)[end + 4..]
  }

  /** A complete packet is accepted exactly when the first byte of its marker is right. */
  lemma MarkerExactly(p: Packet, j: Junk, marker: seq<Byte>, more: seq<Byte>)
    requires WellFormed(p) && Fits(j) && |marker| == 4 && (p.command <= 6 || p.command >= 128)
    ensures var s := WithMarker(p, j, marker) + more;
      && (Parse(s) == Parsed(p) <==> marker[0] == 255)
      && (marker[0] != 255 ==> Parse(s) == Malformed)
  {
    var e, s := Encode(p, j) + more, WithMarker(p, j, marker) + more;
    EncodeLength(p, j);
    ParseArrived(p, j, e);
    HeaderArrived(p, j, e);
    BodyArrived(p, j, e);
    WithMarkerIs(p, j, marker, more);
    hide *;
    LengthIs(p);
    HeaderSize();
    var end := BODY + |p.topic| + |p.message|;
    OneMarkerByte(e, s);
    ParsedIs(e, p);
  }

  lemma LengthIs(p: Packet)
    ensures Length(p) == HEADER + |p.topic| + |p.message| + 4
  {
  }

  lemma ParsedIs(s: seq<Byte>, p: Packet)
    requires |s| > HEADER && Parse(s) == Parsed(p)
    ensures BODY + TopicBytes(s) + MsgBytes(s) + 12 <= |s| && KnownCommand(s[0]) && ReadPacket(s) == p
  {
  }

  lemma WithMarkerIs(p: Packet, j: Junk, marker: seq<Byte>, more: seq<Byte>)
    requires WellFormed(p) && Fits(j) && |marker| == 4
    ensures var e, s, end := Encode(p, j) + more, WithMarker(p, j, marker) + more, BODY + |p.topic| + |p.message|;
      end + 12 <= |e| == |s| && s[..end] == e[..end] && s[end] == marker[0] && s[end + 1] == marker[1]
  {
    EncodeLength(p, j);
    hide Encode;
  }

  /** A packet with three of its four marker bytes cleared is accepted as if nothing had happened. */
  lemma DamagedMarkerAccepted(p: Packet, j: Junk)
    requires WellFormed(p) && Fits(j) && (p.command <= 6 || p.command >= 128)
    ensures WithMarker(p, j, [255, 0, 0, 0]) != Encode(p, j)
    ensures Parse(WithMarker(p, j, [255, 0, 0, 0])) == Parsed(p)
  {
    hide *;
    HeaderSize();
    var e, s, end := Encode(p, j), WithMarker(p, j, [255, 0, 0, 0]), BODY + |p.topic| + |p.message|;
    MarkerExactly(p, j, [255, 0, 0, 0], []);
    WithMarkerIs(p, j, [255, 0, 0, 0], []);
    MarkerWritten(p, j);
    assert s + [] == s && e + [] == e;
    assert e[end + 1] == e[end..end + 12][1];
  }

  lemma MarkerWritten(p: Packet, j: Junk)
    requires WellFormed(p) && Fits(j)
    ensures var e, end := Encode(p, j), BODY + |p.topic| + |p.message|;
      |e| == end + 12 && e[end..end + 12] == [255, 255, 255, 255] + j.tail
  {
    hide *;
    EncodeLength(p, j);
    LengthIs(p);
    Offsets(p, j);
    Widths(p, j);
    Fields(p, j);
    HeaderSize();
    SelfCompatible(Encode(p, j));
    FieldArrived(p, j, Encode(p, j), 15);
  }

  lemma SelfCompatible(s: seq<Byte>)
    ensures Compatible(s, s)
  {
  }

  /** `getTopicAndMessage`, on a packet as it lies in the buffer. */
  function GetTopicAndMessage(s: seq<Byte>): (seq<Byte>, seq<Byte>)
    requires |s| > HEADER && BODY + TopicBytes(s) + MsgBytes(s) <= |s|
  {
    (s[BODY..BODY + TopicBytes(s)], s[BODY + TopicBytes(s)..BODY + TopicBytes(s) + MsgBytes(s)])
  }

  /** `getMessage`, which copies `topicBytes` bytes from the start of the body. */
  function GetMessage(s: seq<Byte>): seq<Byte>
    requires |s| > HEADER && BODY + TopicBytes(s) <= |s|
  {
    s[BODY..BODY + TopicBytes(s)]
  }

  /** From a packet that has arrived, whatever follows it, `getTopicAndMessage` takes both; `getMessage` takes the
      topic, so the message only when the two are the same. */
  lemma GetMessageExactly(p: Packet, j: Junk, s: seq<Byte>)
    requires WellFormed(p) && Fits(j) && Compatible(s, Encode(p, j)) && |s| >= Length(p)
    ensures |s| > HEADER && BODY + TopicBytes(s) + MsgBytes(s) <= |s|
    ensures GetTopicAndMessage(s) == (p.topic, p.message)
    ensures GetMessage(s) == p.message <==> p.topic == p.message
  {
    hide Compatible;
    hide Encode;
    hide WellFormed;
    HeaderArrived(p, j, s);
    BodyArrived(p, j, s);
  }

  /** A packet of topic 1 with the message 2, 3: `getMessage` returns 1. */
  lemma GetMessageFails(p: Packet, j: Junk)
    requires WellFormed(p) && Fits(j)
    ensures var q := p.(topic := [1], message := [2, 3]);
      && |Encode(q, j)| > HEADER && BODY + TopicBytes(Encode(q, j)) + MsgBytes(Encode(q, j)) <= |Encode(q, j)|
      && GetTopicAndMessage(Encode(q, j)).1 == [2, 3] && GetMessage(Encode(q, j)) == [1]
  {
    var q := p.(topic := [1], message := [2, 3]);
    assert WellFormed(q) by {
      assert Pow256(4) == 256 * Pow256(3) && Pow256(3) > 0;
    }
    EncodeLength(q, j);
    SelfCompatible(Encode(q, j));
    hide WellFormed;
    GetMessageExactly(q, j, Encode(q, j));
    HeaderArrived(q, j, Encode(q, j));
    BodyArrived(q, j, Encode(q, j));
    hide Encode;
    hide Compatible;
  }

  /* ---------- streams in fragments ---------- */

  /** A packet as it goes onto the wire. */
  datatype Sent = Sent(packet: Packet, junk: Junk)

  predicate Sendable(w: seq<Sent>) {
    forall i :: 0 <= i < |w| ==> WellFormed(w[i].packet) && KnownCommand(w[i].packet.command) && Fits(w[i].junk)
  }

  function Stream(w: seq<Sent>): seq<Byte>
    requires Sendable(w)
  {
    if w == [] then [] else Encode(w[0].packet, w[0].junk) + Stream(w[1..])
  }

  function PacketsOf(w: seq<Sent>): (r: seq<Packet>)
    ensures |r| == |w| && forall i :: 0 <= i < |w| ==> r[i] == w[i].packet
  {
    seq(|w|, i requires 0 <= i < |w| => w[i].packet)
  }

  /** The bytes of the first `k` packets. */
  function Bytes(w: seq<Sent>, k: nat): nat
    requires k <= |w|
  {
    if k == 0 then 0 else Bytes(w, k - 1) + Length(w[k - 1].packet)
  }

  /** How many packets are complete in the first `n` bytes. */
  function Complete(w: seq<Sent>, n: nat): (k: nat)
    ensures k <= |w|
  {
    if w == [] || n < Length(w[0].packet) then 0 else 1 + Complete(w[1..], n - Length(w[0].packet))
  }

  lemma {:induction false} BytesTail(w: seq<Sent>, k: nat)
    requires 0 < k <= |w|
    ensures Bytes(w, k) == Length(w[0].packet) + Bytes(w[1..], k - 1)
  {
    if k > 1 {
      BytesTail(w, k - 1);
    } else {
      assert Bytes(w, 0) == 0;
    }
  }

  /** `Complete` is the greatest number of whole packets that fit into `n` bytes. */
  lemma {:induction false} CompleteIsLongest(w: seq<Sent>, n: nat)
    ensures var k := Complete(w, n); Bytes(w, k) <= n && (k < |w| ==> n < Bytes(w, k + 1))
  {
    if w != [] && n >= Length(w[0].packet) {
      CompleteIsLongest(w[1..], n - Length(w[0].packet));
      var k := Complete(w, n);
      BytesTail(w, k);
      if k < |w| {
        BytesTail(w, k + 1);
      }
    } else if w != [] {
      BytesTail(w, 1);
    }
  }

  lemma {:induction false} StreamLength(w: seq<Sent>)
    requires Sendable(w)
    ensures |Stream(w)| == Bytes(w, |w|)
  {
    if w == [] {
    } else {
      EncodeLength(w[0].packet, w[0].junk);
      StreamLength(w[1..]);
      BytesTail(w, |w|);
    }
  }

  /** From the beginning `s` of the stream, `out` is taken out and `left` is left: the complete packets
      and nothing else. */
  ghost predicate Decoded(w: seq<Sent>, s: seq<Byte>, out: seq<Packet>, left: seq<Byte>)
    requires Sendable(w)
  {
    var k := Complete(w, |s|);
    && out == PacketsOf(w)[..k]
    && Bytes(w, k) <= |s| && left == s[Bytes(w, k)..]
    && left <= Stream(w[k..])
  }

  /** The loop on any beginning of a stream: it takes out exactly the complete packets and leaves the rest. */
  lemma {:induction false} DecodesLongestPrefix(w: seq<Sent>, s: seq<Byte>)
    requires Sendable(w) && s <= Stream(w)
    ensures Decoded(w, s, Packets(s), Rest(s))
  {
    if w == [] {
    } else {
      var e, p := Encode(w[0].packet, w[0].junk), w[0].packet;
      EncodeLength(p, w[0].junk);
      assert Stream(w) == e + Stream(w[1..]);
      if |s| < Length(p) {
        StopsHere(w, s);
      } else {
        var s1 := s[Length(p)..];
        assert s1 <= Stream(w[1..]) by {
          Dropped(s, e, Stream(w[1..]));
        }
        DecodesLongestPrefix(w[1..], s1);
        TakesOne(w, s);
      }
    }
  }

  lemma Dropped(s: seq<Byte>, e: seq<Byte>, t: seq<Byte>)
    requires s <= e + t && |e| <= |s|
    ensures s[|e|..] <= t && e <= s
  {
    assert s == (e + t)[..|s|];
  }

  lemma ShortPrefix(s: seq<Byte>, e: seq<Byte>, t: seq<Byte>)
    requires s <= e + t && |s| <= |e|
    ensures s <= e
  {
    assert s == (e + t)[..|s|];
  }

  lemma StopsHere(w: seq<Sent>, s: seq<Byte>)
    requires Sendable(w) && w != [] && s <= Stream(w) && |s| < Length(w[0].packet)
    ensures Decoded(w, s, Packets(s), Rest(s))
  {
    var e, p := Encode(w[0].packet, w[0].junk), w[0].packet;
    EncodeLength(p, w[0].junk);
    ShortPrefix(s, e, Stream(w[1..]));
    if |s| > HEADER {
      ParseArrived(p, w[0].junk, s);
    }
  }

  lemma TakesOne(w: seq<Sent>, s: seq<Byte>)
    requires Sendable(w) && w != [] && Sendable(w[1..]) && s <= Stream(w) && |s| >= Length(w[0].packet)
    requires var s1 := s[Length(w[0].packet)..]; Decoded(w[1..], s1, Packets(s1), Rest(s1))
    ensures Decoded(w, s, Packets(s), Rest(s))
  {
    var p, j, s1 := w[0].packet, w[0].junk, s[Length(w[0].packet)..];
    Arrives(w, s);
    LoopStep(s, p);
    DecodedStep(w, s, Packets(s1), Rest(s1));
  }

  lemma Arrives(w: seq<Sent>, s: seq<Byte>)
    requires Sendable(w) && w != [] && s <= Stream(w) && |s| >= Length(w[0].packet)
    ensures |s| > HEADER && Parse(s) == Parsed(w[0].packet)
  {
    EncodeLength(w[0].packet, w[0].junk);
    AtLeastHeader(w[0].packet);
    Dropped(s, Encode(w[0].packet, w[0].junk), Stream(w[1..]));
    ParseArrived(w[0].packet, w[0].junk, s);
  }

  lemma DecodedStep(w: seq<Sent>, s: seq<Byte>, out: seq<Packet>, left: seq<Byte>)
    requires Sendable(w) && w != [] && Sendable(w[1..]) && |s| >= Length(w[0].packet)
    requires Decoded(w[1..], s[Length(w[0].packet)..], out, left)
    ensures Decoded(w, s, [w[0].packet] + out, left)
  {
    hide *;
    var n := Length(w[0].packet);
    var k := Complete(w[1..], |s| - n);
    DecodedParts(w[1..], s[n..], out, left);
    CompleteStep(w, |s|);
    BytesTail(w, k + 1);
    assert s[n..][Bytes(w[1..], k)..] == s[n + Bytes(w[1..], k)..];
    FirstPackets(w, k);
    assert w[1..][k..] == w[k + 1..];
    DecodedWhole(w, s, [w[0].packet] + out, left, k + 1);
  }

  lemma StreamStep(w: seq<Sent>)
    requires Sendable(w) && w != []
    ensures Stream(w) == Encode(w[0].packet, w[0].junk) + Stream(w[1..])
  {
  }

  lemma AtLeastHeader(p: Packet)
    ensures Length(p) > HEADER
  {
  }

  lemma LoopStep(s: seq<Byte>, p: Packet)
    requires |s| > HEADER && Parse(s) == Parsed(p)
    ensures Length(p) <= |s| && Packets(s) == [p] + Packets(s[Length(p)..]) && Rest(s) == Rest(s[Length(p)..])
  {
    hide FromLE;
  }

  lemma CompleteStep(w: seq<Sent>, n: nat)
    requires w != [] && n >= Length(w[0].packet)
    ensures Complete(w, n) == 1 + Complete(w[1..], n - Length(w[0].packet))
  {
  }

  lemma FirstPackets(w: seq<Sent>, k: nat)
    requires k < |w|
    ensures PacketsOf(w)[..k + 1] == [w[0].packet] + PacketsOf(w[1..])[..k]
  {
  }

  /* ---------- the receiver ---------- */

  function Concat(fs: seq<seq<Byte>>): seq<Byte> {
    if fs == [] then [] else Concat(fs[..|fs| - 1]) + fs[|fs| - 1]
  }

  /** What the loop has handed over after the fragments `fs`, and what its buffer then holds. */
  function Received(fs: seq<seq<Byte>>): seq<Packet> {
    if fs == [] then []
    else
      var k := |fs| - 1;
      Received(fs[..k]) + Packets(Pending(fs[..k]) + fs[k])
  }

  function Pending(fs: seq<seq<Byte>>): seq<Byte> {
    if fs == [] then [] else Rest(Pending(fs[..|fs| - 1]) + fs[|fs| - 1])
  }

  lemma SendableTail(w: seq<Sent>, k: nat)
    requires Sendable(w) && k <= |w|
    ensures Sendable(w[k..])
  {
  }

  lemma {:induction false} BytesSum(w: seq<Sent>, a: nat, b: nat)
    requires a + b <= |w|
    ensures Bytes(w, a + b) == Bytes(w, a) + Bytes(w[a..], b)
  {
    if b == 0 {
    } else {
      BytesSum(w, a, b - 1);
      assert w[a..][b - 1] == w[a + b - 1];
    }
  }

  lemma {:induction false} BytesMonotone(w: seq<Sent>, a: nat, b: nat)
    requires a <= b <= |w|
    ensures Bytes(w, a) <= Bytes(w, b)
  {
    if a < b {
      BytesMonotone(w, a, b - 1);
    }
  }

  /** `Complete` is the only number that is greatest. */
  lemma CompleteUnique(w: seq<Sent>, n: nat, k: nat)
    requires k <= |w| && Bytes(w, k) <= n && (k < |w| ==> n < Bytes(w, k + 1))
    ensures Complete(w, n) == k
  {
    CompleteIsLongest(w, n);
    var c := Complete(w, n);
    if c < k {
      BytesMonotone(w, c + 1, k);
    } else if k < c {
      BytesMonotone(w, k + 1, c);
    }
  }

  /** However the stream is cut into fragments, after each of them the receiver has handed over exactly
      the packets that are complete, in order and unchanged, and holds exactly the bytes of the next one. */
  lemma {:induction false} AnyFragmentation(w: seq<Sent>, fs: seq<seq<Byte>>)
    requires Sendable(w) && Concat(fs) <= Stream(w)
    ensures Decoded(w, Concat(fs), Received(fs), Pending(fs))
  {
    if fs == [] {
      DecodesLongestPrefix(w, []);
    } else {
      var before, f := fs[..|fs| - 1], fs[|fs| - 1];
      AnyFragmentation(w, before);
      NextFragment(w, Concat(before), Received(before), Pending(before), f);
    }
  }

  lemma NextFragment(w: seq<Sent>, c: seq<Byte>, out: seq<Packet>, left: seq<Byte>, f: seq<Byte>)
    requires Sendable(w) && c + f <= Stream(w) && Decoded(w, c, out, left)
    ensures Decoded(w, c + f, out + Packets(left + f), Rest(left + f))
  {
    var k := Complete(w, |c|);
    SendableTail(w, k);
    StillAhead(w, c, f, k);
    DecodesLongestPrefix(w[k..], left + f);
    DecodedOnTop(w, c, out, left, f, Packets(left + f), Rest(left + f));
  }

  lemma StillAhead(w: seq<Sent>, c: seq<Byte>, f: seq<Byte>, k: nat)
    requires Sendable(w) && c + f <= Stream(w) && k <= |w| && Sendable(w[k..]) && Bytes(w, k) <= |c|
    ensures c[Bytes(w, k)..] + f <= Stream(w[k..])
  {
    hide *;
    StreamSplit(w, k);
    TailAhead(c, f, Stream(w), Stream(w[k..]), Bytes(w, k));
  }

  lemma TailAhead(c: seq<Byte>, f: seq<Byte>, s: seq<Byte>, rest: seq<Byte>, n: nat)
    requires c + f <= s && n <= |c| && n <= |s| && s == s[..n] + rest
    ensures c[n..] + f <= rest
  {
    assert rest == s[n..];
    assert c[n..] + f == (c + f)[n..];
    assert c + f == s[..|c + f|];
    assert (c + f)[n..] == s[n..][..|c + f| - n];
  }

  lemma DecodedOnTop(w: seq<Sent>, c: seq<Byte>, out: seq<Packet>, left: seq<Byte>, f: seq<Byte>,
                     out': seq<Packet>, left': seq<Byte>)
    requires Sendable(w) && Decoded(w, c, out, left)
    requires var k := Complete(w, |c|); Sendable(w[k..]) && Decoded(w[k..], left + f, out', left')
    ensures Decoded(w, c + f, out + out', left')
  {
    hide *;
    var k := Complete(w, |c|);
    DecodedParts(w, c, out, left);
    var i := Complete(w[k..], |left + f|);
    DecodedParts(w[k..], left + f, out', left');
    CompleteOnTop(w, k, |c|, |f|);
    BytesSum(w, k, i);
    Slices(w, k, i);
    Onward(c, f, Bytes(w, k), Bytes(w[k..], i));
    DecodedWhole(w, c + f, out + out', left', k + i);
  }

  lemma DecodedParts(w: seq<Sent>, s: seq<Byte>, out: seq<Packet>, left: seq<Byte>)
    requires Sendable(w) && Decoded(w, s, out, left)
    ensures var k := Complete(w, |s|);
      && out == PacketsOf(w)[..k] && Bytes(w, k) <= |s| && left == s[Bytes(w, k)..]
      && Sendable(w[k..]) && left <= Stream(w[k..])
  {
  }

  lemma DecodedWhole(w: seq<Sent>, s: seq<Byte>, out: seq<Packet>, left: seq<Byte>, k: nat)
    requires Sendable(w) && k == Complete(w, |s|) && Sendable(w[k..])
    requires out == PacketsOf(w)[..k] && Bytes(w, k) <= |s| && left == s[Bytes(w, k)..] && left <= Stream(w[k..])
    ensures Decoded(w, s, out, left)
  {
  }

  lemma Onward(c: seq<Byte>, f: seq<Byte>, a: nat, b: nat)
    requires a <= |c| && b <= |c| - a + |f|
    ensures (c[a..] + f)[b..] == (c + f)[a + b..]
  {
  }

  lemma CompleteOnTop(w: seq<Sent>, k: nat, n: nat, m: nat)
    requires k == Complete(w, n)
    ensures Bytes(w, k) <= n
    ensures var i := Complete(w[k..], n - Bytes(w, k) + m); Complete(w, n + m) == k + i
  {
    hide Complete;
    hide Bytes;
    CompleteIsLongest(w, n);
    var i := Complete(w[k..], n - Bytes(w, k) + m);
    BytesSum(w, k, i);
    CompleteIsLongest(w[k..], n - Bytes(w, k) + m);
    if k + i < |w| {
      BytesSum(w, k, i + 1);
    }
    CompleteUnique(w, n + m, k + i);
  }

  lemma Slices(w: seq<Sent>, k: nat, i: nat)
    requires k + i <= |w|
    ensures PacketsOf(w)[..k] + PacketsOf(w[k..])[..i] == PacketsOf(w)[..k + i]
    ensures w[k..][i..] == w[k + i..]
  {
  }

  lemma SplitLater(e: seq<Byte>, t: seq<Byte>, n: nat, u: seq<Byte>)
    requires n <= |t| && t == t[..n] + u
    ensures e + t == (e + t)[..|e| + n] + u
  {
    assert (e + t)[..|e| + n] == e + t[..n];
  }

  lemma {:induction false} StreamSplit(w: seq<Sent>, k: nat)
    requires Sendable(w) && k <= |w| && Sendable(w[k..])
    ensures Bytes(w, k) <= |Stream(w)| && Stream(w) == Stream(w)[..Bytes(w, k)] + Stream(w[k..])
  {
    if k == 0 {
      assert w[0..] == w;
    } else {
      var e, t := Encode(w[0].packet, w[0].junk), Stream(w[1..]);
      EncodeLength(w[0].packet, w[0].junk);
      assert w[1..][k - 1..] == w[k..];
      StreamSplit(w[1..], k - 1);
      BytesTail(w, k);
      assert Stream(w) == e + t;
      hide *;
      SplitLater(e, t, Bytes(w[1..], k - 1), Stream(w[k..]));
    }
  }

  /** Once the whole stream has arrived, everything sent has been handed over and nothing is left. */
  lemma EverythingArrives(w: seq<Sent>, fs: seq<seq<Byte>>)
    requires Sendable(w) && Concat(fs) == Stream(w)
    ensures Received(fs) == PacketsOf(w) && Pending(fs) == []
  {
    AnyFragmentation(w, fs);
    StreamLength(w);
    CompleteUnique(w, |Concat(fs)|, |w|);
  }
}
