/** UDP over IPv4 packets built by hand, with their Internet checksums (RFC 1071), and the parser
    that accepts them back. */
module Checksum {
  import opened Bytes

  type Address = a: bytes | |a| == 4 witness [0, 0, 0, 0]

  const UDP: byte := 17

  /** The longest payload whose UDP length still fits its 16-bit field. */
  const MAX_UDP_PAYLOAD: nat := 65_527
  /** The longest payload whose IPv4 total length still fits its 16-bit field. */
  const MAX_IP_PAYLOAD: nat := 65_507
  /** Up to here no 32-bit sum overflows, whatever the bytes are. */
  const SUM_LIMIT: nat := 130_000
  /** From here on the length could wrap so often that the checksum does not notice. */
  const LENGTH_LIMIT: nat := 65_535 * 0x1_0000 - 8

  /** The sum of the big-endian 16-bit words of `b`, an odd last byte being a high byte. */
  function WordSum(b: bytes): nat
    decreases |b|
  {
    if b == [] then 0
    else if |b| == 1 then b[0] as nat * 256
    else U16(b, 0) as nat + WordSum(b[2..])
  }

  /** The value of a sum in 16-bit one's complement: congruent to it modulo 65535, and zero only
      for zero. */
  function Residue(s: nat): (r: u16) {
    if s == 0 then 0 else (s - 1) % 65_535 + 1
  }

  /** `r` is the residue of `s` once some multiple of 65535 separates them. */
  lemma ResidueIs(s: nat, k: nat, r: nat)
    requires s == 65_535 * k + r
    requires 1 <= r <= 65_535
    ensures Residue(s) == r
  {
    Quotient(s - 1, k, r - 1);
  }

  lemma Quotient(n: nat, k: nat, r: nat)
    requires n == 65_535 * k + r && r < 65_535
    ensures n % 65_535 == r
  {
    var q := n / 65_535;
    assert n == 65_535 * q + n % 65_535;
    assert k == q;
  }

  lemma ResidueGap(s: nat) returns (k: nat)
    ensures s == 65_535 * k + Residue(s)
    ensures s > 0 ==> Residue(s) >= 1
  {
    if s == 0 {
      k := 0;
    } else {
      k := (s - 1) / 65_535;
    }
  }

  /** Adding the high half to the low half does not change the residue. */
  lemma FoldStep(s: nat)
    ensures Residue(s % 0x1_0000 + s / 0x1_0000) == Residue(s)
  {
    var lo, hi := s % 0x1_0000, s / 0x1_0000;
    assert s == 0x1_0000 * hi + lo;
    if s > 0 {
      var k := ResidueGap(s);
      var t := lo + hi;
      assert t == 65_535 * (k - hi) + Residue(s);
      ResidueIs(t, k - hi, Residue(s));
    }
  }

  method OnesComplementSum(b: bytes, start: u32) returns (sum: u32)
    requires start as nat + WordSum(b) < 0x1_0000_0000
    ensures sum as nat == start as nat + WordSum(b)
  {
    sum := start;
    var i := 0;
    assert b[0..] == b;
    while i + 1 < |b|
      invariant 0 <= i <= |b|
      invariant sum as nat + WordSum(b[i..]) == start as nat + WordSum(b)
    {
      assert b[i..][2..] == b[i + 2..];
      sum := sum + U16(b, i);
      i := i + 2;
    }
    if i < |b| {
      sum := sum + b[i] as nat * 256;
    }
  }

  method Fold(start: u32) returns (r: u16)
    ensures r == 65_535 - Residue(start)
  {
    var sum := start;
    while sum / 0x1_0000 != 0
      invariant 0 <= sum < 0x1_0000_0000
      invariant Residue(sum) == Residue(start)
      decreases sum
    {
      FoldStep(sum);
      sum := sum % 0x1_0000 + sum / 0x1_0000;
    }
    if sum > 0 { ResidueIs(sum, 0, sum); }
    r := 65_535 - sum;
  }

  /** The bytes of the packet, with the two checksums open. */
  function IpHeader(total: u16, ident: u16, src: Address, dst: Address, sum: u16): (r: bytes)
    ensures |r| == 20
  {
    IpBefore(total, ident) + Be16(sum) + (src + dst)
  }

  function IpBefore(total: u16, ident: u16): (r: bytes)
    ensures |r| == 10
  {
    [0x45, 0] + Be16(total) + Be16(ident) + [0, 0, 64, UDP]
  }

  function UdpBefore(sport: u16, dport: u16, len: u16): (r: bytes)
    ensures |r| == 6
  {
    Be16(sport) + Be16(dport) + Be16(len)
  }

  function Datagram(sport: u16, dport: u16, len: u16, sum: u16, payload: bytes): (r: bytes)
    ensures |r| == 8 + |payload|
  {
    UdpBefore(sport, dport, len) + Be16(sum) + payload
  }

  /** What a checksum field must hold so that the sum with it is all ones. */
  function Complement(s: nat): u16 {
    65_535 - Residue(s)
  }

  function NonZero(sum: u16): u16 {
    if sum == 0 then 65_535 else sum
  }

  /** The length fields keep the low 16 bits, the pseudo-header sum the whole length. */
  function Packet(ident: u16, src: Address, dst: Address, sport: u16, dport: u16, payload: bytes): bytes {
    var udpLen := 8 + |payload|;
    var total := (20 + udpLen) % 0x1_0000;
    var len := udpLen % 0x1_0000;
    var pseudo := WordSum(src + dst) + UDP as nat + udpLen;
    IpHeader(total, ident, src, dst, Complement(WordSum(IpHeader(total, ident, src, dst, 0))))
    + Datagram(sport, dport, len,
               NonZero(Complement(pseudo + WordSum(Datagram(sport, dport, len, 0, payload)))), payload)
  }

  /** The example of section 3 of RFC 1071. */
  lemma PublishedExample()
    ensures WordSum([0x00, 0x01, 0xf2, 0x03, 0xf4, 0xf5, 0xf6, 0xf7]) == 0x2_ddf0
    ensures Residue(0x2_ddf0) == 0xddf2
  {
    var b := [0x00, 0x01, 0xf2, 0x03, 0xf4, 0xf5, 0xf6, 0xf7];
    assert b[2..] == [0xf2, 0x03, 0xf4, 0xf5, 0xf6, 0xf7] && b[4..] == [0xf4, 0xf5, 0xf6, 0xf7] && b[6..] == [0xf6, 0xf7];
    assert WordSum(b[6..]) == 0xf6f7;
    assert WordSum(b[4..]) == 0xf4f5 + WordSum(b[4..][2..]) && b[4..][2..] == b[6..];
    assert WordSum(b[2..]) == 0xf203 + WordSum(b[2..][2..]) && b[2..][2..] == b[4..];
  }

  lemma {:induction false} WordSumAppend(a: bytes, b: bytes)
    requires |a| % 2 == 0
    ensures WordSum(a + b) == WordSum(a) + WordSum(b)
    decreases |a|
  {
    if a == [] {
      assert a + b == b;
    } else {
      assert (a + b)[2..] == a[2..] + b;
      WordSumAppend(a[2..], b);
    }
  }

  lemma WordSumBe16(n: u16)
    ensures WordSum(Be16(n)) == n
  {
    assert Be16(n)[2..] == [];
  }

  /** A checksum field adds its value to the sum of the words around it. */
  lemma WordSumWithField(before: bytes, sum: u16, after: bytes)
    requires |before| % 2 == 0
    ensures WordSum(before + Be16(sum) + after) == WordSum(before) + sum as nat + WordSum(after)
  {
    WordSumAppend(before + Be16(sum), after);
    WordSumAppend(before, Be16(sum));
    WordSumBe16(sum);
  }

  lemma {:induction false} WordSumBound(b: bytes)
    ensures WordSum(b) <= 32_768 * (|b| + 1)
    decreases |b|
  {
    if |b| > 1 { WordSumBound(b[2..]); }
  }

  /** The pieces pushed one by one are the header with its checksum open. */
  lemma HeaderBytes(total: u16, ident: u16, src: Address, dst: Address)
    ensures [0x45, 0] + Be16(total) + Be16(ident) + [0, 0] + [64] + [UDP] + [0, 0] + src + dst
         == IpHeader(total, ident, src, dst, 0)
    ensures WordSum(IpHeader(total, ident, src, dst, 0)) < 0x10_0000
  {
    WordSumBound(IpHeader(total, ident, src, dst, 0));
    hide WordSum;
    assert Be16(0) == [0, 0];
  }

  lemma FillHeader(total: u16, ident: u16, src: Address, dst: Address, sum: u16)
    ensures var open := IpHeader(total, ident, src, dst, 0);
            open[..10] + Be16(sum) + open[12..] == IpHeader(total, ident, src, dst, sum)
  {
    hide IpBefore;
  }

  lemma DatagramBytes(pkt: bytes, sport: u16, dport: u16, len: u16, payload: bytes)
    requires |pkt| == 20
    ensures pkt + Be16(sport) + Be16(dport) + Be16(len) + [0, 0] + payload
         == pkt + Datagram(sport, dport, len, 0, payload)
  {
    assert Be16(0) == [0, 0];
    hide Be16;
  }

  lemma FillDatagram(header: bytes, sport: u16, dport: u16, len: u16, sum: u16, payload: bytes)
    requires |header| == 20
    ensures var open := header + Datagram(sport, dport, len, 0, payload);
            open[..26] + Be16(sum) + open[28..] == header + Datagram(sport, dport, len, sum, payload)
  {
    hide UdpBefore;
  }

  lemma Parts(total: u16, ident: u16, src: Address, dst: Address, sum: u16, rest: bytes)
    ensures var pkt := IpHeader(total, ident, src, dst, sum) + rest;
            pkt[..20] == IpHeader(total, ident, src, dst, sum) && pkt[12..20] == src + dst && pkt[20..] == rest
  {
    hide IpBefore, Be16;
  }

  /** The sum over pseudo-header and datagram, with the checksum open. */
  function OpenSum(src: Address, dst: Address, sport: u16, dport: u16, payload: bytes): nat {
    WordSum(src + dst) + UDP as nat + (8 + |payload|)
    + WordSum(Datagram(sport, dport, (8 + |payload|) % 0x1_0000, 0, payload))
  }

  lemma ShortSumsFit(src: Address, dst: Address, sport: u16, dport: u16, payload: bytes)
    requires |payload| <= SUM_LIMIT
    ensures OpenSum(src, dst, sport, dport, payload) < 0x1_0000_0000
  {
    hide WordSum;
    WordSumBound(src + dst);
    WordSumBound(Datagram(sport, dport, (8 + |payload|) % 0x1_0000, 0, payload));
  }

  method BuildUdpIpv4(src: Address, dst: Address, sport: u16, dport: u16, payload: bytes, ident: u16)
    returns (pkt: bytes)
    requires OpenSum(src, dst, sport, dport, payload) < 0x1_0000_0000
    ensures pkt == Packet(ident, src, dst, sport, dport, payload)
  {
    hide Residue, WordSum, IpHeader, Datagram, Be16;
    var udpLen := 8 + |payload|;
    var totalLen := 20 + udpLen;
    ghost var total, len := totalLen % 0x1_0000, udpLen % 0x1_0000;
    pkt := [0x45, 0x00];
    pkt := pkt + Be16(totalLen % 0x1_0000);
    pkt := pkt + Be16(ident);
    pkt := pkt + [0x00, 0x00];
    pkt := pkt + [64];
    pkt := pkt + [UDP];
    pkt := pkt + [0x00, 0x00];
    pkt := pkt + src;
    pkt := pkt + dst;
    HeaderBytes(total, ident, src, dst);
    assert pkt[0..20] == pkt;
    var ipSum := OnesComplementSum(pkt[0..20], 0);
    var ipCsum := Fold(ipSum);
    pkt := pkt[..10] + Be16(ipCsum) + pkt[12..];
    FillHeader(total, ident, src, dst, ipCsum);
    ghost var header := pkt;

    pkt := pkt + Be16(sport);
    pkt := pkt + Be16(dport);
    pkt := pkt + Be16(udpLen % 0x1_0000);
    pkt := pkt + [0x00, 0x00];
    pkt := pkt + payload;
    DatagramBytes(header, sport, dport, len, payload);
    ghost var datagram := Datagram(sport, dport, len, 0, payload);
    Parts(total, ident, src, dst, ipCsum, datagram);
    var sum := OnesComplementSum(pkt[12..20], 0);
    sum := sum + 17;
    sum := sum + udpLen;
    sum := OnesComplementSum(pkt[20..], sum);
    var udpCsum := Fold(sum);
    if udpCsum == 0 {
      udpCsum := 0xffff;
    }
    pkt := pkt[..26] + Be16(udpCsum) + pkt[28..];
    FillDatagram(header, sport, dport, len, udpCsum, payload);
  }

  /** Returns the payload when the packet is unfragmented UDP from `src`:`sport` to `dport`. */
  function UdpPayload(packet: bytes, src: Address, sport: u16, dport: u16): Option<bytes> {
    if |packet| < 20 || packet[0] / 16 != 4 then None
    else
      var ihl := packet[0] as nat % 16 * 4;
      if ihl < 20 || |packet| < ihl + 8 || packet[9] != UDP then None
      else if U16(packet, 6) % 0x2000 != 0 then None
      else if packet[12..16] != src then None
      else
        var udp := packet[ihl..];
        if U16(udp, 0) != sport || U16(udp, 2) != dport then None
        else
          var len := U16(udp, 4) as nat;
          if len < 8 || len > |udp| then None else Some(udp[8..len])
  }

  /** What a receiver sums to check the IPv4 header, and the UDP datagram with its pseudo-header. */
  predicate HeaderChecks(packet: bytes)
    requires |packet| >= 20
  {
    Residue(WordSum(packet[..20])) == 65_535
  }

  function UdpLength(packet: bytes): u16
    requires |packet| >= 28
  {
    U16(packet, 24)
  }

  predicate UdpChecks(packet: bytes)
    requires |packet| >= 28
  {
    Residue(WordSum(packet[12..20]) + UDP as nat + UdpLength(packet) as nat + WordSum(packet[20..])) == 65_535
  }

  /** A non-zero sum and its complement add up to all ones. */
  lemma ComplementChecks(s: nat)
    requires s > 0
    ensures Residue(s + Complement(s) as nat) == 65_535
    ensures Residue(s + NonZero(Complement(s)) as nat) == 65_535
  {
    var k := ResidueGap(s);
    ResidueIs(s + Complement(s) as nat, k, 65_535);
    if Complement(s) == 0 {
      ResidueIs(s + 65_535, k + 1, 65_535);
    }
  }

  /** Each time the length wraps, the check is one off. */
  lemma OffByWraps(s: nat, k: nat)
    requires s > 0x1_0000 * k && Residue(s) == 65_535
    ensures Residue(s - 0x1_0000 * k) == 65_535 <==> k % 65_535 == 0
  {
    var g := ResidueGap(s);
    var a, r := k / 65_535, k % 65_535;
    assert k == 65_535 * a + r;
    var q := g + 1 - k - a;
    assert s - 0x1_0000 * k == 65_535 * q - r;
    ResidueIs(s - 0x1_0000 * k, q - 1, 65_535 - r);
  }

  /** The parts of a built packet. */
  function Total(payload: bytes): u16 {
    (28 + |payload|) % 0x1_0000
  }

  function Len(payload: bytes): u16 {
    (8 + |payload|) % 0x1_0000
  }

  lemma PacketParts(ident: u16, src: Address, dst: Address, sport: u16, dport: u16, payload: bytes)
    returns (ipSum: u16, udpSum: u16)
    ensures Packet(ident, src, dst, sport, dport, payload)
         == IpHeader(Total(payload), ident, src, dst, ipSum) + Datagram(sport, dport, Len(payload), udpSum, payload)
    ensures ipSum == Complement(WordSum(IpHeader(Total(payload), ident, src, dst, 0)))
    ensures udpSum == NonZero(Complement(WordSum(src + dst) + UDP as nat + (8 + |payload|)
                                         + WordSum(Datagram(sport, dport, Len(payload), 0, payload))))
  {
    hide WordSum, Residue, IpHeader, Datagram;
    ipSum := Complement(WordSum(IpHeader(Total(payload), ident, src, dst, 0)));
    udpSum := NonZero(Complement(WordSum(src + dst) + UDP as nat + (8 + |payload|)
                                 + WordSum(Datagram(sport, dport, Len(payload), 0, payload))));
  }

  lemma HeaderSum(total: u16, ident: u16, src: Address, dst: Address, sum: u16)
    ensures WordSum(IpHeader(total, ident, src, dst, sum))
         == WordSum(IpHeader(total, ident, src, dst, 0)) + sum as nat
    ensures WordSum(IpHeader(total, ident, src, dst, 0)) > 0
  {
    var before, after := IpBefore(total, ident), src + dst;
    assert WordSum(before) > 0;
    hide WordSum, IpBefore;
    WordSumWithField(before, sum, after);
    WordSumWithField(before, 0, after);
  }

  lemma DatagramSum(sport: u16, dport: u16, len: u16, sum: u16, payload: bytes)
    ensures WordSum(Datagram(sport, dport, len, sum, payload))
         == WordSum(Datagram(sport, dport, len, 0, payload)) + sum as nat
  {
    hide WordSum, UdpBefore;
    WordSumWithField(UdpBefore(sport, dport, len), sum, payload);
    WordSumWithField(UdpBefore(sport, dport, len), 0, payload);
  }

  lemma LengthField(header: bytes, sport: u16, dport: u16, len: u16, sum: u16, payload: bytes)
    requires |header| == 20
    ensures U16(header + Datagram(sport, dport, len, sum, payload), 24) == len
    ensures U16(header + Datagram(sport, dport, len, sum, payload), 26) == sum
  {
    var d := Datagram(sport, dport, len, sum, payload);
    assert d[4..6] == Be16(len) && d[6..8] == Be16(sum);
  }

  lemma WrapsIff(n: nat)
    requires n < LENGTH_LIMIT + 8
    ensures n / 0x1_0000 % 65_535 == 0 <==> n <= 0xffff
  {
    assert 0 <= n / 0x1_0000 < 65_535;
  }

  /** The header of every built packet sums to all ones. */
  lemma BuiltHeaderChecks(ident: u16, src: Address, dst: Address, sport: u16, dport: u16, payload: bytes)
    ensures |Packet(ident, src, dst, sport, dport, payload)| == 28 + |payload|
    ensures HeaderChecks(Packet(ident, src, dst, sport, dport, payload))
  {
    hide WordSum, Residue, IpHeader, Datagram, Packet;
    var ipSum, udpSum := PacketParts(ident, src, dst, sport, dport, payload);
    var total := Total(payload);
    Parts(total, ident, src, dst, ipSum, Datagram(sport, dport, Len(payload), udpSum, payload));
    HeaderSum(total, ident, src, dst, ipSum);
    ComplementChecks(WordSum(IpHeader(total, ident, src, dst, 0)));
  }

  /** So does its datagram under the pseudo-header, for exactly the payloads whose length wraps a
      multiple of 65535 times: up to four gigabytes, those the length field can hold. And the field is
      never the zero that would mean no checksum. */
  lemma BuiltDatagramChecksIff(ident: u16, src: Address, dst: Address, sport: u16, dport: u16, payload: bytes)
    ensures |Packet(ident, src, dst, sport, dport, payload)| == 28 + |payload|
    ensures U16(Packet(ident, src, dst, sport, dport, payload), 26) != 0
    ensures UdpChecks(Packet(ident, src, dst, sport, dport, payload)) <==> (8 + |payload|) / 0x1_0000 % 65_535 == 0
    ensures |payload| < LENGTH_LIMIT ==>
              (UdpChecks(Packet(ident, src, dst, sport, dport, payload)) <==> |payload| <= MAX_UDP_PAYLOAD)
  {
    hide WordSum, Residue, IpHeader, Datagram, Packet, Complement;
    var ipSum, udpSum := PacketParts(ident, src, dst, sport, dport, payload);
    var header, len := IpHeader(Total(payload), ident, src, dst, ipSum), Len(payload);
    var open := WordSum(src + dst) + UDP as nat + (8 + |payload|) + WordSum(Datagram(sport, dport, len, 0, payload));
    Parts(Total(payload), ident, src, dst, ipSum, Datagram(sport, dport, len, udpSum, payload));
    LengthField(header, sport, dport, len, udpSum, payload);
    DatagramSum(sport, dport, len, udpSum, payload);
    ComplementChecks(open);
    var n := 8 + |payload|;
    var k := n / 0x1_0000;
    assert n == 0x1_0000 * k + len as nat;
    OffByWraps(open + udpSum as nat, k);
    if |payload| < LENGTH_LIMIT { WrapsIff(n); }
  }

  /** The parser returns exactly the payload to the addressee of a built packet and to nobody else,
      for exactly the payloads whose length the UDP field can hold. */
  lemma PayloadComesBackIff(ident: u16, src: Address, dst: Address, sport: u16, dport: u16, payload: bytes,
                            src': Address, sport': u16, dport': u16)
    ensures UdpPayload(Packet(ident, src, dst, sport, dport, payload), src', sport', dport') == Some(payload)
       <==> src' == src && sport' == sport && dport' == dport && |payload| <= MAX_UDP_PAYLOAD
  {
    hide Packet, Complement, NonZero;
    var ipSum, udpSum := PacketParts(ident, src, dst, sport, dport, payload);
    HeaderFields(Total(payload), ident, src, dst, ipSum, Datagram(sport, dport, Len(payload), udpSum, payload));
    DatagramFields(sport, dport, Len(payload), udpSum, payload);
    hide IpHeader, Datagram, U16;
    var pkt := Packet(ident, src, dst, sport, dport, payload);
    var udp := Datagram(sport, dport, Len(payload), udpSum, payload);
    assert pkt[20..] == udp && pkt[0] as nat % 16 * 4 == 20;
    if |payload| <= MAX_UDP_PAYLOAD {
      assert udp[8..Len(payload)] == payload;
    }
  }

  lemma HeaderFields(total: u16, ident: u16, src: Address, dst: Address, sum: u16, rest: bytes)
    ensures var pkt := IpHeader(total, ident, src, dst, sum) + rest;
            && pkt[0] == 0x45 && pkt[9] == UDP && U16(pkt, 6) == 0 && U16(pkt, 2) == total
            && pkt[12..16] == src && pkt[20..] == rest
  {
    var header := IpHeader(total, ident, src, dst, sum);
    var pkt := header + rest;
    assert header[..10] == IpBefore(total, ident);
    assert pkt[12..16] == src;
  }

  lemma DatagramFields(sport: u16, dport: u16, len: u16, sum: u16, payload: bytes)
    ensures var udp := Datagram(sport, dport, len, sum, payload);
            && U16(udp, 0) == sport && U16(udp, 2) == dport && U16(udp, 4) == len && udp[8..] == payload
  {
    assert Datagram(sport, dport, len, sum, payload)[..6] == UdpBefore(sport, dport, len);
  }

  /** The IPv4 total length is the packet's length for exactly the payloads that fit it. */
  lemma TotalLengthIff(ident: u16, src: Address, dst: Address, sport: u16, dport: u16, payload: bytes)
    ensures var pkt := Packet(ident, src, dst, sport, dport, payload);
            && |pkt| == 28 + |payload|
            && (U16(pkt, 2) as nat == |pkt| <==> |payload| <= MAX_IP_PAYLOAD)
  {
    hide Packet, Complement, NonZero;
    var ipSum, udpSum := PacketParts(ident, src, dst, sport, dport, payload);
    HeaderFields(Total(payload), ident, src, dst, ipSum, Datagram(sport, dport, Len(payload), udpSum, payload));
  }

  /** An unfragmented UDP datagram from `src`:`sport` to `dport` with this payload, behind an IPv4
      header with any options and in front of anything. */
  ghost predicate Carries(packet: bytes, src: Address, sport: u16, dport: u16, payload: bytes,
                          header: bytes, sum: bytes, trailer: bytes)
  {
    && |header| >= 20 && header[0] / 16 == 4 && |header| == header[0] as nat % 16 * 4
    && header[9] == UDP && U16(header, 6) % 0x2000 == 0 && header[12..16] == src
    && |sum| == 2 && |payload| <= MAX_UDP_PAYLOAD
    && packet == header + (UdpBefore(sport, dport, 8 + |payload|) + sum + payload) + trailer
  }

  lemma CarriedIsAccepted(packet: bytes, src: Address, sport: u16, dport: u16, payload: bytes,
                          header: bytes, sum: bytes, trailer: bytes)
    requires Carries(packet, src, sport, dport, payload, header, sum, trailer)
    ensures UdpPayload(packet, src, sport, dport) == Some(payload)
  {
    var before := UdpBefore(sport, dport, 8 + |payload|);
    var udp := before + sum + payload + trailer;
    Regroup(header, before + sum + payload, trailer);
    assert packet[..|header|] == header && packet[|header|..] == udp;
    assert packet[12..16] == packet[..|header|][12..16];
    assert packet[6] == header[6] && packet[7] == header[7];
    assert udp[..6] == before;
    assert U16(udp, 0) == sport && U16(udp, 2) == dport && U16(udp, 4) == 8 + |payload| by {
      assert udp[0] == before[0] && udp[1] == before[1] && udp[2] == before[2] && udp[3] == before[3];
      assert udp[4] == before[4] && udp[5] == before[5];
    }
    assert udp[..8 + |payload|] == before + sum + payload;
    assert udp[8..8 + |payload|] == udp[..8 + |payload|][8..] == payload;
  }

  lemma AcceptedIsCarried(packet: bytes, src: Address, sport: u16, dport: u16, payload: bytes)
    returns (header: bytes, sum: bytes, trailer: bytes)
    requires UdpPayload(packet, src, sport, dport) == Some(payload)
    ensures Carries(packet, src, sport, dport, payload, header, sum, trailer)
  {
    var ihl := packet[0] as nat % 16 * 4;
    var udp := packet[ihl..];
    header := packet[..ihl];
    sum, trailer := udp[6..8], udp[8 + |payload|..];
    assert header[12..16] == packet[12..16];
    assert packet == header + udp;
    var before := UdpBefore(sport, dport, 8 + |payload|);
    assert udp[..6] == before;
    hide UdpBefore;
    assert udp[..8 + |payload|] == before + sum + payload by {
      assert udp[..8 + |payload|] == udp[..6] + udp[6..8] + udp[8..8 + |payload|];
    }
    Regroup(header, udp[..8 + |payload|], trailer);
  }

  /** For every packet whatever: the parser accepts it, with this payload, exactly when it is such a
      datagram. */
  lemma AcceptsExactly(packet: bytes, src: Address, sport: u16, dport: u16, payload: bytes)
    ensures UdpPayload(packet, src, sport, dport) == Some(payload) <==>
              exists header, sum, trailer :: Carries(packet, src, sport, dport, payload, header, sum, trailer)
  {
    hide UdpPayload, Carries;
    if UdpPayload(packet, src, sport, dport) == Some(payload) {
      var header, sum, trailer := AcceptedIsCarried(packet, src, sport, dport, payload);
    }
    if header, sum, trailer :| Carries(packet, src, sport, dport, payload, header, sum, trailer) {
      CarriedIsAccepted(packet, src, sport, dport, payload, header, sum, trailer);
    }
  }
}
