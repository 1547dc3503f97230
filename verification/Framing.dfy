/**
 Models the size-prefixed framing of src/services/osc/connectionManager.ts: sendThroughState writes a
 packet behind its length as a big-endian 32-bit number, as the section "OSC Packets" of the Open
 Sound Control 1.0 specification asks of stream transports, and onData cuts received chunks back into packets.
 */
module Framing {

  type Byte = b: int | 0 <= b < 256

  type Packet = seq<Byte>

  const U32_LIMIT := 0x1_0000_0000

  // ---------- Writing ----------

  function WriteUInt32BE(n: nat): seq<Byte>
    requires n < U32_LIMIT
  {
    [n / 0x100_0000, n / 0x1_0000 % 0x100, n / 0x100 % 0x100, n % 0x100]
  }

  function ReadUInt32BE(bytes: seq<Byte>): nat
    requires |bytes| >= 4
  {
    var b0: int, b1: int, b2: int, b3: int := bytes[0], bytes[1], bytes[2], bytes[3];
    ((b0 * 0x100 + b1) * 0x100 + b2) * 0x100 + b3
  }

  lemma LengthRoundTrip(n: nat, rest: seq<Byte>)
    requires n < U32_LIMIT
    ensures ReadUInt32BE(WriteUInt32BE(n) + rest) == n
  {
    var b := WriteUInt32BE(n) + rest;
    assert b[0] == n / 0x100_0000 && b[1] == n / 0x1_0000 % 0x100 && b[2] == n / 0x100 % 0x100 && b[3] == n % 0x100;
    assert n / 0x1_0000 == n / 0x100 / 0x100 && n / 0x100_0000 == n / 0x100 / 0x100 / 0x100;
  }

  predicate Sendable(packet: Packet) {
    |packet| < U32_LIMIT
  }

  function Frame(packet: Packet): seq<Byte>
    requires Sendable(packet)
  {
    WriteUInt32BE(|packet|) + packet
  }

  function FrameAll(packets: seq<Packet>): seq<Byte>
    requires forall p | p in packets :: Sendable(p)
  {
    if packets == [] then [] else Frame(packets[0]) + FrameAll(packets[1..])
  }

  // ---------- Reading ----------

  /** The buffer starts with a complete frame. */
  predicate HasFrame(buffer: seq<Byte>) {
    |buffer| >= 4 && |buffer| >= 4 + ReadUInt32BE(buffer)
  }

  function FirstPacket(buffer: seq<Byte>): Packet
    requires HasFrame(buffer)
  {
    buffer[4..4 + ReadUInt32BE(buffer)]
  }

  function AfterFirstFrame(buffer: seq<Byte>): seq<Byte>
    requires HasFrame(buffer)
  {
    buffer[4 + ReadUInt32BE(buffer)..]
  }

  datatype Decoded = Decoded(packets: seq<Packet>, rest: seq<Byte>)

  function Decode(bytes: seq<Byte>): Decoded
    decreases |bytes|
  {
    if !HasFrame(bytes) then Decoded([], bytes)
    else
      var later := Decode(AfterFirstFrame(bytes));
      Decoded([FirstPacket(bytes)] + later.packets, later.rest)
  }

  /** What onData emits and keeps when fed one chunk after another. */
  function Feed(chunks: seq<seq<Byte>>): Decoded {
    if chunks == [] then Decoded([], [])
    else
      var n := |chunks| - 1;
      var before := Feed(chunks[..n]);
      var step := Decode(before.rest + chunks[n]);
      Decoded(before.packets + step.packets, step.rest)
  }

  function Concat(chunks: seq<seq<Byte>>): seq<Byte> {
    if chunks == [] then [] else Concat(chunks[..|chunks| - 1]) + chunks[|chunks| - 1]
  }

  // ---------- The theorems ----------

  lemma {:induction false} LeftoverHasNoFrame(bytes: seq<Byte>)
    ensures !HasFrame(Decode(bytes).rest)
    decreases |bytes|
  {
    if HasFrame(bytes) {
      LeftoverHasNoFrame(AfterFirstFrame(bytes));
    }
  }

  /** Decoding more bytes continues from the leftover. */
  lemma {:induction false} DecodeContinues(bytes: seq<Byte>, more: seq<Byte>)
    ensures var first := Decode(bytes);
            var second := Decode(first.rest + more);
            Decode(bytes + more) == Decoded(first.packets + second.packets, second.rest)
    decreases |bytes|
  {
    if HasFrame(bytes) {
      FrameAtFront(bytes, more);
      hide HasFrame, FirstPacket, AfterFirstFrame;
      DecodeContinues(AfterFirstFrame(bytes), more);
      var later := Decode(AfterFirstFrame(bytes));
      Associate([FirstPacket(bytes)], later.packets, Decode(later.rest + more).packets);
    } else {
      assert Decode(bytes) == Decoded([], bytes);
    }
  }

  lemma Associate<T>(a: seq<T>, b: seq<T>, c: seq<T>)
    ensures a + (b + c) == (a + b) + c
  {
  }

  lemma FrameAtFront(bytes: seq<Byte>, more: seq<Byte>)
    requires HasFrame(bytes)
    ensures HasFrame(bytes + more)
    ensures FirstPacket(bytes + more) == FirstPacket(bytes)
    ensures AfterFirstFrame(bytes + more) == AfterFirstFrame(bytes) + more
  {
    assert forall i | 0 <= i < 4 :: (bytes + more)[i] == bytes[i];
  }

  /** What is emitted, and what is left over, depends only on the bytes and not on how they were cut into chunks. */
  lemma {:induction false} ChunkingIsInvisible(chunks: seq<seq<Byte>>)
    ensures Feed(chunks) == Decode(Concat(chunks))
  {
    if chunks != [] {
      var n := |chunks| - 1;
      ChunkingIsInvisible(chunks[..n]);
      DecodeContinues(Concat(chunks[..n]), chunks[n]);
    }
  }

  lemma {:induction false} DecodeInvertsFrames(packets: seq<Packet>)
    requires forall p | p in packets :: Sendable(p)
    ensures Decode(FrameAll(packets)) == Decoded(packets, [])
  {
    if packets != [] {
      var p, later := packets[0], FrameAll(packets[1..]);
      var bytes := Frame(p) + later;
      assert bytes == WriteUInt32BE(|p|) + (p + later);
      LengthRoundTrip(|p|, p + later);
      assert FirstPacket(bytes) == p && AfterFirstFrame(bytes) == later;
      DecodeInvertsFrames(packets[1..]);
      assert packets == [p] + packets[1..];
    }
  }

  /** Framed packets survive any chunking, in order, with nothing left over. */
  lemma FramingRoundTrip(packets: seq<Packet>, chunks: seq<seq<Byte>>)
    requires forall p | p in packets :: Sendable(p)
    requires Concat(chunks) == FrameAll(packets)
    ensures Feed(chunks) == Decoded(packets, [])
  {
    ChunkingIsInvisible(chunks);
    DecodeInvertsFrames(packets);
  }

  /** Nothing received is lost or invented: the emitted packets and the leftover are the bytes received. */
  lemma {:induction false} DecodeLosesNothing(bytes: seq<Byte>)
    ensures forall p | p in Decode(bytes).packets :: Sendable(p)
    ensures FrameAll(Decode(bytes).packets) + Decode(bytes).rest == bytes
    decreases |bytes|
  {
    if HasFrame(bytes) {
      var later := AfterFirstFrame(bytes);
      DecodeLosesNothing(later);
      FrameOfFirstPacket(bytes);
      var packets := Decode(bytes).packets;
      assert packets[1..] == Decode(later).packets && packets[0] == FirstPacket(bytes);
    }
  }

  lemma FrameOfFirstPacket(bytes: seq<Byte>)
    requires HasFrame(bytes)
    ensures Sendable(FirstPacket(bytes))
    ensures Frame(FirstPacket(bytes)) + AfterFirstFrame(bytes) == bytes
  {
    var n := ReadUInt32BE(bytes);
    var b0: int, b1: int, b2: int, b3: int := bytes[0], bytes[1], bytes[2], bytes[3];
    assert n % 0x100 == b3 && n / 0x100 == (b0 * 0x100 + b1) * 0x100 + b2;
    assert n / 0x100 % 0x100 == b2 && n / 0x100 / 0x100 == b0 * 0x100 + b1;
    assert n / 0x1_0000 == n / 0x100 / 0x100 && n / 0x100_0000 == n / 0x100 / 0x100 / 0x100;
    assert WriteUInt32BE(n) == bytes[..4];
  }

  // ---------- What is on the wire ----------

  /** The bytes begin with n as a big-endian 32-bit number: the most significant byte first. */
  predicate BeginsWithLength(bytes: seq<Byte>, n: nat) {
    && |bytes| >= 4
    && bytes[0] as int * 0x100_0000 + bytes[1] as int * 0x1_0000 + bytes[2] as int * 0x100 + bytes[3] as int == n
  }

  /** The bytes begin with this packet, behind its length. */
  predicate BeginsWithPacket(bytes: seq<Byte>, packet: Packet) {
    && |bytes| >= 4 + |packet|
    && BeginsWithLength(bytes, |packet|)
    && bytes[4..4 + |packet|] == packet
  }

  /** The bytes are these packets, each behind its length, and then a rest that holds no whole one. */
  ghost predicate AreCutInto(bytes: seq<Byte>, packets: seq<Packet>, rest: seq<Byte>)
    decreases |packets|
  {
    if packets == [] then rest == bytes && forall p :: !BeginsWithPacket(bytes, p)
    else BeginsWithPacket(bytes, packets[0]) && AreCutInto(bytes[4 + |packets[0]|..], packets[1..], rest)
  }

  /** Byte k of a length is its digit of weight 256 to the power of 3 - k. */
  lemma DigitsOfLength(bytes: seq<Byte>, n: nat)
    requires |bytes| >= 4
    ensures BeginsWithLength(bytes, n) <==>
              && n < U32_LIMIT
              && bytes[0] == n / 0x100_0000 && bytes[1] == n / 0x1_0000 % 0x100
              && bytes[2] == n / 0x100 % 0x100 && bytes[3] == n % 0x100
  {
    var b0: int, b1: int, b2: int, b3: int := bytes[0], bytes[1], bytes[2], bytes[3];
    if BeginsWithLength(bytes, n) {
      assert n == ((b0 * 0x100 + b1) * 0x100 + b2) * 0x100 + b3;
      assert n % 0x100 == b3 && n / 0x100 == (b0 * 0x100 + b1) * 0x100 + b2;
      assert n / 0x100 % 0x100 == b2 && n / 0x100 / 0x100 == b0 * 0x100 + b1;
    }
    assert n / 0x1_0000 == n / 0x100 / 0x100 && n / 0x100_0000 == n / 0x100 / 0x100 / 0x100;
  }

  lemma ReadsLength(bytes: seq<Byte>, n: nat)
    requires |bytes| >= 4
    ensures ReadUInt32BE(bytes) == n <==> BeginsWithLength(bytes, n)
  {
  }

  lemma FrameBeginsWithPacket(packet: Packet)
    requires Sendable(packet)
    ensures BeginsWithPacket(Frame(packet), packet) && |Frame(packet)| == 4 + |packet|
  {
    LengthRoundTrip(|packet|, packet);
    ReadsLength(Frame(packet), |packet|);
  }

  lemma FrameAtFrontIff(bytes: seq<Byte>)
    ensures HasFrame(bytes) ==> BeginsWithPacket(bytes, FirstPacket(bytes))
    ensures forall p | BeginsWithPacket(bytes, p) :: HasFrame(bytes) && p == FirstPacket(bytes)
  {
    if |bytes| >= 4 {
      ReadsLength(bytes, ReadUInt32BE(bytes));
    }
  }

  /** Decoding is cutting: it emits just the packets that stand in the bytes and keeps what is no whole one. */
  lemma {:induction false} DecodeCutsIff(bytes: seq<Byte>, packets: seq<Packet>, rest: seq<Byte>)
    ensures Decode(bytes) == Decoded(packets, rest) <==> AreCutInto(bytes, packets, rest)
    decreases |bytes|
  {
    FrameAtFrontIff(bytes);
    hide BeginsWithPacket;
    if HasFrame(bytes) {
      if packets != [] {
        var later := Decode(AfterFirstFrame(bytes));
        DecodeCutsIff(AfterFirstFrame(bytes), packets[1..], rest);
        assert packets == [packets[0]] + packets[1..];
        assert ([FirstPacket(bytes)] + later.packets)[1..] == later.packets;
      }
    } else {
      assert Decode(bytes) == Decoded([], bytes);
    }
  }

  /** A zero, a zero, a zero, n and then n bytes are one packet, whatever follows. */
  lemma ShortPacketIsEmitted(packet: Packet, more: seq<Byte>)
    requires |packet| < 0x100
    ensures Decode([0, 0, 0, |packet|] + packet + more) ==
            Decoded([packet] + Decode(more).packets, Decode(more).rest)
  {
    var bytes := [0, 0, 0, |packet|] + packet + more;
    ShortPacketBegins(packet, more);
    hide BeginsWithPacket, Decode;
    FirstIsCut(bytes, packet, more);
  }

  lemma FirstIsCut(bytes: seq<Byte>, packet: Packet, more: seq<Byte>)
    requires BeginsWithPacket(bytes, packet) && bytes[4 + |packet|..] == more
    ensures Decode(bytes) == Decoded([packet] + Decode(more).packets, Decode(more).rest)
  {
    FrameAtFrontIff(bytes);
    assert HasFrame(bytes) && FirstPacket(bytes) == packet;
    ReadsLength(bytes, |packet|);
    assert AfterFirstFrame(bytes) == more;
    hide HasFrame, FirstPacket, AfterFirstFrame, BeginsWithPacket;
  }

  lemma ShortPacketBegins(packet: Packet, more: seq<Byte>)
    requires |packet| < 0x100
    ensures var bytes := [0, 0, 0, |packet|] + packet + more;
            BeginsWithPacket(bytes, packet) && bytes[4 + |packet|..] == more
  {
    var bytes := [0, 0, 0, |packet|] + packet + more;
    assert bytes[..4] == [0, 0, 0, |packet|] && bytes[4..4 + |packet|] == packet;
    assert bytes[0] == 0 && bytes[1] == 0 && bytes[2] == 0 && bytes[3] == |packet|;
  }

  /** The first place in which two sequences differ, if any: a longer packet's prefix has the greater byte there. */
  lemma LongerPacketsComeLater(p: Packet, q: Packet) returns (k: nat)
    requires Sendable(p) && Sendable(q) && |p| < |q|
    ensures k < 4 && Frame(p)[..k] == Frame(q)[..k] && Frame(p)[k] < Frame(q)[k]
  {
    FrameBeginsWithPacket(p);
    FrameBeginsWithPacket(q);
    var a, b := Frame(p), Frame(q);
    hide Frame;
    k := if a[0] != b[0] then 0 else if a[1] != b[1] then 1 else if a[2] != b[2] then 2 else 3;
  }
}
