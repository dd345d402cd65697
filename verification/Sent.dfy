/** What each capsule on the wire means, said without the parser, and that a receiver gets exactly the
    capsules that were sent (sections 3.5 of RFC 9297 and 4.7 of RFC 9484). */
module Sent {
  import opened Bytes
  import opened Capsules
  import Varint

  /** The bytes of one address entry; its request id may be a varint of any length. */
  ghost predicate SpellsAddress(b: bytes, a: AssignedAddress) {
    && AddressLen(a.ipVersion) == Some(|a.address|)
    && exists k :: 0 < k <= |b| && Varint.Get(b[..k]) == Varint.Varint(a.requestId, k)
                   && b[k..] == [a.ipVersion] + a.address + [a.prefixLen]
  }

  ghost predicate SpellsAddresses(b: bytes, addresses: seq<AssignedAddress>)
    decreases |addresses|
  {
    if addresses == [] then b == []
    else exists n :: 0 < n <= |b| && SpellsAddress(b[..n], addresses[0]) && SpellsAddresses(b[n..], addresses[1..])
  }

  ghost predicate SpellsRoutes(b: bytes, routes: seq<Route>) {
    (forall i :: 0 <= i < |routes| ==> GoodRoute(routes[i])) && b == EncodeRoutes(routes)
  }

  /** The capsule `c` in the form `raw`. An address request's value is not looked at. */
  ghost predicate Carries(raw: Raw, c: Capsule) {
    && Encodable(raw)
    && match c
       case Datagram(packet) => raw == Raw(0, packet)
       case AddressAssign(addresses) => raw.kind == 1 && SpellsAddresses(raw.value, addresses)
       case AddressRequest => raw.kind == 2
       case RouteAdvertisement(routes) => raw.kind == 3 && SpellsRoutes(raw.value, routes)
       case Unknown(kind, payload) => kind > 3 && raw == Raw(kind, payload)
  }

  /** A varint is read from its own bytes only. */
  lemma GetIsLocal(b: bytes, v: nat, k: nat)
    ensures Varint.Get(b) == Varint.Varint(v, k) <==> 0 < k <= |b| && Varint.Get(b[..k]) == Varint.Varint(v, k)
  {
    if 0 < k <= |b| {
      assert b[..k][0] == b[0];
      if Varint.ParseLen(b[0]) == k { assert b[..k][1..k] == b[1..k]; }
    }
  }

  lemma ReadIsSpelled(b: bytes, a: AssignedAddress, n: nat)
    requires ReadAddress(b) == Ok((a, n))
    ensures 0 < n <= |b| && SpellsAddress(b[..n], a)
  {
    hide Varint.Get;
    var k := Varint.Get(b).used;
    GetIsLocal(b, a.requestId, k);
    assert b[..n][..k] == b[..k];
    JoinEntry(b, k, n);
  }

  lemma JoinEntry(b: bytes, k: nat, n: nat)
    requires k + 2 <= n <= |b|
    ensures b[..n][k..] == [b[k]] + b[k + 1..n - 1] + [b[n - 1]]
  {}

  /** An address entry behind the varint in front of `b`. */
  lemma EntryAt(b: bytes, k: nat, n: nat, a: AssignedAddress)
    requires k <= n <= |b| && b[..n][k..] == [a.ipVersion] + a.address + [a.prefixLen]
    ensures n == k + |a.address| + 2
    ensures b[k] == a.ipVersion && b[k + 1..k + 1 + |a.address|] == a.address && b[k + 1 + |a.address|] == a.prefixLen
  {
    var entry := [a.ipVersion] + a.address + [a.prefixLen];
    assert |b[..n][k..]| == |entry| && b[..n][k..] == b[k..n];
    assert b[k] == entry[0] && b[n - 1] == entry[n - k - 1];
    SliceOfSlice(b, k, n, 1, n - k - 1);
    assert entry[1..n - k - 1] == a.address;
  }

  lemma SpelledIsRead(b: bytes, a: AssignedAddress, n: nat)
    requires 0 < n <= |b| && SpellsAddress(b[..n], a)
    ensures ReadAddress(b) == Ok((a, n))
  {
    hide Varint.Get;
    var k :| 0 < k <= n && Varint.Get(b[..n][..k]) == Varint.Varint(a.requestId, k)
             && b[..n][k..] == [a.ipVersion] + a.address + [a.prefixLen];
    assert b[..n][..k] == b[..k];
    GetIsLocal(b, a.requestId, k);
    EntryAt(b, k, n, a);
  }

  lemma ReadAddressIff(b: bytes, a: AssignedAddress, n: nat)
    ensures ReadAddress(b) == Ok((a, n)) <==> 0 < n <= |b| && SpellsAddress(b[..n], a)
  {
    hide ReadAddress, SpellsAddress;
    if ReadAddress(b) == Ok((a, n)) { ReadIsSpelled(b, a, n); }
    if 0 < n <= |b| && SpellsAddress(b[..n], a) { SpelledIsRead(b, a, n); }
  }

  /** The address list parser accepts exactly the spellings of the list it returns. */
  lemma {:induction false} AddressesIff(b: bytes, addresses: seq<AssignedAddress>)
    ensures ParseAddresses(b) == Ok(addresses) <==> SpellsAddresses(b, addresses)
    decreases |b|
  {
    hide ReadAddress, SpellsAddress;
    if b != [] {
      match ReadAddress(b)
      case Err(_) =>
        if SpellsAddresses(b, addresses) {
          var n :| 0 < n <= |b| && SpellsAddress(b[..n], addresses[0]) && SpellsAddresses(b[n..], addresses[1..]);
          ReadAddressIff(b, addresses[0], n);
        }
      case Ok((a, n)) =>
        ReadAddressIff(b, a, n);
        if ParseAddresses(b) == Ok(addresses) {
          assert addresses[0] == a && addresses[1..] == ParseAddresses(b[n..]).value;
          AddressesIff(b[n..], addresses[1..]);
        }
        if SpellsAddresses(b, addresses) {
          var m :| 0 < m <= |b| && SpellsAddress(b[..m], addresses[0]) && SpellsAddresses(b[m..], addresses[1..]);
          ReadAddressIff(b, addresses[0], m);
          AddressesIff(b[n..], addresses[1..]);
          assert addresses == [a] + addresses[1..];
        }
    } else if addresses != [] {
      assert !SpellsAddresses(b, addresses);
    }
  }

  lemma RouteIsItsBytes(b: bytes, a: Route, n: nat)
    requires ReadRoute(b) == Ok((a, n))
    ensures GoodRoute(a) && b[..n] == EncodeRoute(a)
  {}

  lemma {:induction false} RoutesIff(b: bytes, routes: seq<Route>)
    ensures ParseRoutes(b) == Ok(routes) <==> SpellsRoutes(b, routes)
    decreases |b|
  {
    hide ReadRoute, EncodeRoute, GoodRoute;
    if SpellsRoutes(b, routes) { RoutesRoundTrip(routes); }
    if b != [] && ParseRoutes(b) == Ok(routes) {
      var (a, n) := ReadRoute(b).value;
      RouteIsItsBytes(b, a, n);
      assert routes[0] == a && routes[1..] == ParseRoutes(b[n..]).value;
      RoutesIff(b[n..], routes[1..]);
      assert b == b[..n] + b[n..];
    }
  }

  /** Which capsule a kind and value mean, in both directions. */
  lemma InterpretsIff(raw: Raw, c: Capsule)
    requires Encodable(raw)
    ensures Interpret(raw.kind, raw.value) == Ok(c) <==> Carries(raw, c)
  {
    hide ParseAddresses, ParseRoutes, SpellsAddresses, SpellsRoutes;
    if c.AddressAssign? { AddressesIff(raw.value, c.addresses); }
    if c.RouteAdvertisement? { RoutesIff(raw.value, c.routes); }
  }

  ghost predicate AllCarry(raws: seq<Raw>, cs: seq<Capsule>) {
    |raws| == |cs| && forall i :: 0 <= i < |raws| ==> Carries(raws[i], cs[i])
  }

  lemma CarriedAreMeanings(raws: seq<Raw>, cs: seq<Capsule>)
    requires AllCarry(raws, cs)
    ensures AllWellFormed(raws) && Meanings(raws) == cs
  {
    hide Interpret, Carries, Encodable;
    forall i | 0 <= i < |raws|
      ensures WellFormed(raws[i]) && Interpret(raws[i].kind, raws[i].value) == Ok(cs[i])
    {
      assert Carries(raws[i], cs[i]);
      CarriedIsEncodable(raws[i], cs[i]);
      InterpretsIff(raws[i], cs[i]);
    }
  }

  lemma CarriedIsEncodable(raw: Raw, c: Capsule)
    requires Carries(raw, c)
    ensures Encodable(raw)
  {}

  /** A capsule in front of the buffer is the one the parser finds, and a drain yields it first. */
  lemma OneComesOut(raw: Raw, c: Capsule, rest: bytes)
    requires Carries(raw, c)
    ensures var f := Find(EncodeCapsule(raw) + rest);
            && f.Complete? && Interpret(f.kind, f.value) == Ok(c) && (EncodeCapsule(raw) + rest)[f.used..] == rest
    ensures Drain(EncodeCapsule(raw) + rest) == After([c], Drain(rest))
  {
    hide Interpret, Carries, Find;
    CarriedIsEncodable(raw, c);
    InterpretsIff(raw, c);
    FindEncoded(raw, rest);
    DrainOne(raw, rest);
  }

  /** However the encodings of the capsules sent are cut into chunks, and however many chunks are pushed
      before each drain, exactly those capsules come out, in order, as long as what is buffered before a
      drain stays within the cap. */
  lemma SentIsReceived(raws: seq<Raw>, cs: seq<Capsule>, batches: seq<seq<bytes>>)
    requires AllCarry(raws, cs) && AllWellFormed(raws)
    requires StaysWithinCap([], Joined(batches)) && Flatten(Joined(batches)) == EncodeAll(raws)
    ensures FeedBatches([], batches) == (cs, [])
  {
    CarriedAreMeanings(raws, cs);
    BatchingIsIndependent(raws, batches);
  }

  /** After any part of them, chunk by chunk: exactly the capsules completed so far. */
  lemma SentSoFar(raws: seq<Raw>, cs: seq<Capsule>, chunks: seq<bytes>) returns (n: nat)
    requires AllCarry(raws, cs) && AllWellFormed(raws)
    requires StaysWithinCap([], chunks) && Flatten(chunks) <= EncodeAll(raws)
    ensures n <= |cs| && Feed([], chunks).0 == cs[..n]
    ensures Reassembles(raws, n, Feed([], chunks).1)
  {
    CarriedAreMeanings(raws, cs);
    n := ChunksSoFar(raws, chunks);
  }

  /** What the two encoders of the client produce. */
  function AddressRequestCapsule(requestId: nat, ipVersion: byte, prefixLen: byte): Raw
    requires requestId <= Varint.MAX_VARINT
  {
    Raw(ADDRESS_REQUEST, Varint.Put(requestId) + [ipVersion, prefixLen])
  }

  function DatagramCapsule(packet: bytes): Raw {
    Raw(DATAGRAM, packet)
  }

  lemma EncodersCarry(packet: bytes, requestId: nat, ipVersion: byte, prefixLen: byte)
    requires |packet| <= Varint.MAX_VARINT && requestId <= Varint.MAX_VARINT
    ensures Carries(DatagramCapsule(packet), Datagram(packet))
    ensures Carries(AddressRequestCapsule(requestId, ipVersion, prefixLen), AddressRequest)
  {}

  /** A complete capsule that means nothing is taken off and ends the drain. */
  lemma MalformedEndsTheDrain(raw: Raw, rest: bytes)
    requires Encodable(raw) && forall c: Capsule :: !Carries(raw, c)
    ensures Drain(EncodeCapsule(raw) + rest) == ([], rest)
  {
    hide Interpret, Carries, Find;
    if Interpret(raw.kind, raw.value).Ok? {
      InterpretsIff(raw, Interpret(raw.kind, raw.value).value);
    }
    FindEncoded(raw, rest);
    assert (EncodeCapsule(raw) + rest)[|EncodeCapsule(raw)|..] == rest;
  }
}
