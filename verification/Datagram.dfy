/** HTTP/3 datagrams of a CONNECT-IP stream (section 2.1 of RFC 9297): quarter stream id, context
    id, packet; and the bare packets that arrive in capsules. */
module Datagram {
  import opened Bytes
  import Varint

  const CONTEXT_ID: nat := 0

  function QuarterStreamId(streamId: nat): nat {
    streamId / 4
  }

  function EncodeIpDatagram(streamId: nat, packet: bytes): bytes
    requires QuarterStreamId(streamId) <= Varint.MAX_VARINT
  {
    Varint.Put(QuarterStreamId(streamId)) + Varint.Put(CONTEXT_ID) + packet
  }

  /** A datagram too short for its ids is an error; one of another stream or context is not ours. */
  datatype Decoded = TooShort | NotOurs | Packet(packet: bytes)

  function DecodeIpDatagram(datagram: bytes, expectStreamId: nat): Decoded {
    match Varint.Get(datagram)
    case Short => TooShort
    case Varint(qsid, used) =>
      if qsid != QuarterStreamId(expectStreamId) then NotOurs
      else
        match Varint.Get(datagram[used..])
        case Short => TooShort
        case Varint(ctx, used2) => if ctx != CONTEXT_ID then NotOurs else Packet(datagram[used + used2..])
  }

  /** A packet sent on stream `s` and read as stream `t` arrives, whole, exactly when the two are
      in the same group of four. Every 64-bit stream id qualifies. */
  lemma DecodeEncode(s: nat, t: nat, packet: bytes)
    requires s <= 0xffff_ffff_ffff_ffff
    ensures DecodeIpDatagram(EncodeIpDatagram(s, packet), t)
              == if s / 4 == t / 4 then Packet(packet) else NotOurs
  {
    var q, c := Varint.Put(QuarterStreamId(s)), Varint.Put(CONTEXT_ID);
    var d := EncodeIpDatagram(s, packet);
    assert d == q + (c + packet);
    Varint.GetPut(QuarterStreamId(s), c + packet);
    assert d[|q|..] == c + packet;
    Varint.GetPut(CONTEXT_ID, packet);
    assert d[|q| + |c|..] == packet;
  }

  predicate LooksLikeIpPacket(data: bytes) {
    data != [] && data[0] / 16 in {4, 6} && |data| >= 20
  }

  function StripDatagramContext(payload: bytes): Option<bytes> {
    if payload == [] then None
    else
      match Varint.Get(payload)
      case Varint(ctx, used) =>
        if ctx == CONTEXT_ID && LooksLikeIpPacket(payload[used..]) then Some(payload[used..])
        else if LooksLikeIpPacket(payload) then Some(payload) else None
      case Short => if LooksLikeIpPacket(payload) then Some(payload) else None
  }

  /** The one bare packet that is mistaken for a framed one: its first two bytes read as a two-byte
      zero and what follows looks like a packet too. */
  predicate LooksFramed(p: bytes) {
    |p| >= 2 && p[0] == 0x40 && p[1] == 0 && LooksLikeIpPacket(p[2..])
  }

  lemma BarePacketVarint(p: bytes)
    requires LooksLikeIpPacket(p)
    ensures Varint.Get(p) == Varint.Varint((p[0] - 64) as nat * 256 + p[1] as nat, 2)
  {
    var low := [p[0] % 64] + p[1..2];
    assert low[..1] == [p[0] % 64] && [p[0] % 64][..0] == [];
    assert Varint.Value([p[0] % 64]) == p[0] % 64;
  }

  /** A bare IP packet comes back as it is, except in that one case. */
  lemma StripBare(p: bytes)
    requires LooksLikeIpPacket(p)
    ensures StripDatagramContext(p) == Some(p) <==> !LooksFramed(p)
  {
    BarePacketVarint(p);
    if LooksFramed(p) { assert |p[2..]| < |p|; }
  }

  /** An IP packet behind a context id always comes back. */
  lemma StripFramed(p: bytes)
    requires LooksLikeIpPacket(p)
    ensures StripDatagramContext([0] + p) == Some(p)
  {
    var b := [0] + p;
    assert [b[0] % 64] + b[1..1] == [0] && Varint.Value([0]) == 0;
    assert b[1..] == p;
  }

  /** A context id in front of `q`, in any of the lengths a varint may have. */
  predicate IsContextId(z: bytes) {
    Varint.Get(z) == Varint.Varint(CONTEXT_ID, |z|)
  }

  ghost predicate Framed(payload: bytes, q: bytes) {
    exists z :: IsContextId(z) && payload == z + q
  }

  lemma GetLooksAtFront(z: bytes, rest: bytes)
    ensures Varint.Get(z).Varint? ==> Varint.Get(z + rest) == Varint.Get(z)
  {
    var buf := z + rest;
    if Varint.Get(z).Varint? {
      assert buf[0] == z[0];
      assert buf[1..Varint.ParseLen(z[0])] == z[1..Varint.ParseLen(z[0])];
    }
  }

  lemma FrontIsEnough(buf: bytes)
    ensures Varint.Get(buf).Varint? ==> Varint.Get(buf[..Varint.Get(buf).used]) == Varint.Get(buf)
  {
    if Varint.Get(buf).Varint? {
      var n := Varint.ParseLen(buf[0]);
      assert buf[..n][0] == buf[0] && buf[..n][1..n] == buf[1..n];
    }
  }

  lemma FramedIff(payload: bytes, q: bytes)
    ensures Framed(payload, q) <==>
              match Varint.Get(payload)
              case Short => false
              case Varint(ctx, used) => ctx == CONTEXT_ID && payload[used..] == q
  {
    hide Varint.Get;
    if z :| IsContextId(z) && payload == z + q {
      GetLooksAtFront(z, q);
      assert payload[|z|..] == q;
    }
    FrontIsEnough(payload);
    match Varint.Get(payload)
    case Short =>
    case Varint(ctx, used) =>
      if ctx == CONTEXT_ID && payload[used..] == q {
        assert IsContextId(payload[..used]) && payload == payload[..used] + q;
      }
  }

  /** Every result there is: an IP packet behind a context id, or a bare one that does not read as a
      framed one. In both cases it is a suffix of what arrived. */
  lemma StripsExactly(payload: bytes, p: bytes)
    ensures StripDatagramContext(payload) == Some(p) <==>
              LooksLikeIpPacket(p)
              && (Framed(payload, p) || (payload == p && !exists q :: LooksLikeIpPacket(q) && Framed(payload, q)))
    ensures StripDatagramContext(payload) == Some(p) ==> |p| <= |payload| && p == payload[|payload| - |p|..]
  {
    FramedIff(payload, p);
    forall q
      ensures Framed(payload, q) <==>
                match Varint.Get(payload)
                case Short => false
                case Varint(ctx, used) => ctx == CONTEXT_ID && payload[used..] == q
    {
      FramedIff(payload, q);
    }
    hide Framed, Varint.Get;
  }

  /** What counts as an IP packet: version 4 or 6, and at least the shortest header. */
  lemma IpPacketIff(data: bytes)
    ensures LooksLikeIpPacket(data) <==>
              |data| >= 20 && (0x40 <= data[0] < 0x50 || 0x60 <= data[0] < 0x70)
  {}
}
