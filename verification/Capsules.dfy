/** The capsule stream of a CONNECT-IP tunnel (section 3.2 of RFC 9297, section 4.7 of RFC 9484):
    the encoder, the reassembling parser and the loop that drains it. */
module Capsules {
  import opened Bytes
  import Varint

  const ADDRESS_ASSIGN: nat := 1
  const ADDRESS_REQUEST: nat := 2
  const ROUTE_ADVERTISEMENT: nat := 3
  const DATAGRAM: nat := 0

  const MAX_CAPSULE_BUF: nat := 256 * 1024

  datatype AssignedAddress = AssignedAddress(requestId: nat, ipVersion: byte, address: bytes, prefixLen: byte)
  datatype Route = Route(ipVersion: byte, start: bytes, end: bytes, protocol: byte)

  datatype Capsule =
    | AddressAssign(addresses: seq<AssignedAddress>)
    | AddressRequest
    | Datagram(packet: bytes)
    | RouteAdvertisement(routes: seq<Route>)
    | Unknown(kind: nat, payload: bytes)

  datatype Error = TooShort | BadIpVersion(version: byte)

  datatype Result<+T> = Ok(value: T) | Err(error: Error)

  function AddressLen(version: byte): Option<nat> {
    if version == 4 then Some(4) else if version == 6 then Some(16) else None
  }

  /** One entry at the front of an address list or a route list, and the bytes it takes. */
  function ReadAddress(b: bytes): (r: Result<(AssignedAddress, nat)>)
    ensures r.Ok? ==> 0 < r.value.1 <= |b|
  {
    match Varint.Get(b)
    case Short => Err(TooShort)
    case Varint(id, n) =>
      if |b| <= n then Err(TooShort)
      else
        match AddressLen(b[n])
        case None => Err(BadIpVersion(b[n]))
        case Some(len) =>
          if |b| < n + len + 2 then Err(TooShort)
          else Ok((AssignedAddress(id, b[n], b[n + 1..n + 1 + len], b[n + 1 + len]), n + len + 2))
  }

  function ReadRoute(b: bytes): (r: Result<(Route, nat)>)
    ensures r.Ok? ==> 0 < r.value.1 <= |b|
  {
    if b == [] then Err(TooShort)
    else
      match AddressLen(b[0])
      case None => Err(BadIpVersion(b[0]))
      case Some(len) =>
        if |b| < 2 * len + 2 then Err(TooShort)
        else Ok((Route(b[0], b[1..1 + len], b[1 + len..1 + 2 * len], b[1 + 2 * len]), 2 * len + 2))
  }

  function ParseAddresses(b: bytes): Result<seq<AssignedAddress>>
    decreases |b|
  {
    if b == [] then Ok([])
    else
      match ReadAddress(b)
      case Err(e) => Err(e)
      case Ok((a, n)) =>
        match ParseAddresses(b[n..])
        case Err(e) => Err(e)
        case Ok(rest) => Ok([a] + rest)
  }

  function ParseRoutes(b: bytes): Result<seq<Route>>
    decreases |b|
  {
    if b == [] then Ok([])
    else
      match ReadRoute(b)
      case Err(e) => Err(e)
      case Ok((a, n)) =>
        match ParseRoutes(b[n..])
        case Err(e) => Err(e)
        case Ok(rest) => Ok([a] + rest)
  }

  function Prepend<T>(out: seq<T>, r: Result<seq<T>>): Result<seq<T>> {
    match r
    case Ok(rest) => Ok(out + rest)
    case Err(e) => Err(e)
  }

  lemma PrependNothing<T>(r: Result<seq<T>>)
    ensures Prepend([], r) == r
  {
    if r.Ok? { assert [] + r.value == r.value; }
  }

  lemma PrependToNothing<T>(out: seq<T>)
    ensures Prepend(out, Ok([])) == Ok(out)
  {
    assert out + [] == out;
  }

  method ParseAddressAssign(value: bytes) returns (r: Result<seq<AssignedAddress>>)
    ensures r == ParseAddresses(value)
  {
    var out: seq<AssignedAddress> := [];
    var b := value;
    PrependNothing(ParseAddresses(b));
    while |b| > 0
      invariant ParseAddresses(value) == Prepend(out, ParseAddresses(b))
      decreases |b|
    {
      match ReadAddress(b)
      case Err(e) => return Err(e);
      case Ok((a, n)) =>
        var rest := ParseAddresses(b[n..]);
        if rest.Ok? { Regroup(out, [a], rest.value); }
        out := out + [a];
        b := b[n..];
    }
    PrependToNothing(out);
    r := Ok(out);
  }

  method ParseRouteAdvertisement(value: bytes) returns (r: Result<seq<Route>>)
    ensures r == ParseRoutes(value)
  {
    var out: seq<Route> := [];
    var b := value;
    PrependNothing(ParseRoutes(b));
    while |b| > 0
      invariant ParseRoutes(value) == Prepend(out, ParseRoutes(b))
      decreases |b|
    {
      match ReadRoute(b)
      case Err(e) => return Err(e);
      case Ok((a, n)) =>
        var rest := ParseRoutes(b[n..]);
        if rest.Ok? { Regroup(out, [a], rest.value); }
        out := out + [a];
        b := b[n..];
    }
    PrependToNothing(out);
    r := Ok(out);
  }

  /** The wire form of the two lists, as RFC 9484 sections 4.7.1 and 4.7.3 lay them out. */
  predicate GoodAddress(a: AssignedAddress) {
    a.requestId <= Varint.MAX_VARINT && AddressLen(a.ipVersion) == Some(|a.address|)
  }

  function EncodeAddress(a: AssignedAddress): (r: bytes)
    requires GoodAddress(a)
    ensures r != []
  {
    Varint.Put(a.requestId) + [a.ipVersion] + a.address + [a.prefixLen]
  }

  function EncodeAddresses(addresses: seq<AssignedAddress>): bytes
    requires forall i :: 0 <= i < |addresses| ==> GoodAddress(addresses[i])
  {
    if addresses == [] then [] else EncodeAddress(addresses[0]) + EncodeAddresses(addresses[1..])
  }

  predicate GoodRoute(a: Route) {
    AddressLen(a.ipVersion) == Some(|a.start|) && |a.end| == |a.start|
  }

  function EncodeRoute(a: Route): (r: bytes)
    requires GoodRoute(a)
    ensures r != []
  {
    [a.ipVersion] + a.start + a.end + [a.protocol]
  }

  function EncodeRoutes(routes: seq<Route>): bytes
    requires forall i :: 0 <= i < |routes| ==> GoodRoute(routes[i])
  {
    if routes == [] then [] else EncodeRoute(routes[0]) + EncodeRoutes(routes[1..])
  }

  lemma ReadEncodedAddress(a: AssignedAddress, rest: bytes)
    requires GoodAddress(a)
    ensures ReadAddress(EncodeAddress(a) + rest) == Ok((a, |EncodeAddress(a)|))
  {
    var id := Varint.Put(a.requestId);
    var b := EncodeAddress(a) + rest;
    assert b == id + ([a.ipVersion] + a.address + [a.prefixLen] + rest);
    Varint.GetPut(a.requestId, [a.ipVersion] + a.address + [a.prefixLen] + rest);
    assert b[|id| + 1..|id| + 1 + |a.address|] == a.address;
  }

  lemma ReadEncodedRoute(a: Route, rest: bytes)
    requires GoodRoute(a)
    ensures ReadRoute(EncodeRoute(a) + rest) == Ok((a, |EncodeRoute(a)|))
  {
    var b, len := EncodeRoute(a) + rest, |a.start|;
    Regroup([a.ipVersion] + a.start + a.end, [a.protocol], rest);
    SliceOfSum([a.ipVersion] + a.start, a.end, [a.protocol] + rest);
    Regroup([a.ipVersion] + a.start, a.end, [a.protocol] + rest);
    SliceOfSum([a.ipVersion], a.start, a.end + ([a.protocol] + rest));
  }

  /** The address list parser returns exactly the list that was encoded, in order. */
  lemma {:induction false} AddressesRoundTrip(addresses: seq<AssignedAddress>)
    requires forall i :: 0 <= i < |addresses| ==> GoodAddress(addresses[i])
    ensures ParseAddresses(EncodeAddresses(addresses)) == Ok(addresses)
  {
    hide ReadAddress, EncodeAddress, GoodAddress;
    if addresses != [] {
      var first, rest := EncodeAddress(addresses[0]), EncodeAddresses(addresses[1..]);
      ReadEncodedAddress(addresses[0], rest);
      AddressesRoundTrip(addresses[1..]);
      assert first + rest != [] && (first + rest)[|first|..] == rest;
      assert addresses == [addresses[0]] + addresses[1..];
    }
  }

  lemma {:induction false} RoutesRoundTrip(routes: seq<Route>)
    requires forall i :: 0 <= i < |routes| ==> GoodRoute(routes[i])
    ensures ParseRoutes(EncodeRoutes(routes)) == Ok(routes)
  {
    hide ReadRoute, EncodeRoute, GoodRoute;
    if routes != [] {
      var first, rest := EncodeRoute(routes[0]), EncodeRoutes(routes[1..]);
      ReadEncodedRoute(routes[0], rest);
      RoutesRoundTrip(routes[1..]);
      assert first + rest != [] && (first + rest)[|first|..] == rest;
      assert routes == [routes[0]] + routes[1..];
    }
  }

  /** What a complete capsule means. */
  function Interpret(kind: nat, value: bytes): Result<Capsule> {
    if kind == ADDRESS_ASSIGN then
      match ParseAddresses(value)
      case Ok(addresses) => Ok(AddressAssign(addresses))
      case Err(e) => Err(e)
    else if kind == ADDRESS_REQUEST then Ok(AddressRequest)
    else if kind == ROUTE_ADVERTISEMENT then
      match ParseRoutes(value)
      case Ok(routes) => Ok(RouteAdvertisement(routes))
      case Err(e) => Err(e)
    else if kind == DATAGRAM then Ok(Datagram(value))
    else Ok(Unknown(kind, value))
  }

  /** What the parser finds at the front of its buffer: nothing complete, or a capsule's kind and
      value and the bytes they take. */
  datatype Found = Incomplete | Complete(kind: nat, value: bytes, used: nat)

  function Find(buf: bytes): (r: Found)
    ensures r.Complete? ==> 0 < r.used <= |buf|
  {
    match Varint.Get(buf)
    case Short => Incomplete
    case Varint(kind, n) =>
      match Varint.Get(buf[n..])
      case Short => Incomplete
      case Varint(len, m) =>
        if |buf| - n - m < len then Incomplete
        else Complete(kind, buf[n + m..n + m + len], n + m + len)
  }

  /** Pushing past the cap drops everything, the new bytes too. */
  function Push(buf: bytes, data: bytes): bytes {
    if |buf| + |data| > MAX_CAPSULE_BUF then [] else buf + data
  }

  /** The capsules a drain takes out, and what stays: it stops when nothing is complete and also,
      one capsule further, at one it cannot interpret. */
  function Drain(buf: bytes): (seq<Capsule>, bytes)
    decreases |buf|
  {
    match Find(buf)
    case Incomplete => ([], buf)
    case Complete(kind, value, used) =>
      match Interpret(kind, value)
      case Err(_) => ([], buf[used..])
      case Ok(c) =>
        var (cs, rest) := Drain(buf[used..]);
        ([c] + cs, rest)
  }

  /** What a receiver has when `out` came before what is still to come. */
  function After(out: seq<Capsule>, r: (seq<Capsule>, bytes)): (seq<Capsule>, bytes) {
    (out + r.0, r.1)
  }

  class CapsuleParser {
    var buf: bytes

    constructor ()
      ensures buf == []
    {
      buf := [];
    }

    method PushBytes(data: bytes)
      modifies this
      ensures buf == Push(old(buf), data)
    {
      if |buf| + |data| > MAX_CAPSULE_BUF {
        buf := [];
        return;
      }
      buf := buf + data;
    }

    /** Takes one complete capsule off the buffer. `r.None?` leaves the buffer as it was. */
    method Next() returns (r: Option<Result<Capsule>>)
      modifies this
      ensures Find(old(buf)).Incomplete? ==> r.None? && buf == old(buf)
      ensures Find(old(buf)).Complete? ==>
                var f := Find(old(buf));
                r == Some(Interpret(f.kind, f.value)) && buf == old(buf)[f.used..]
    {
      match Find(buf)
      case Incomplete => r := None;
      case Complete(kind, value, used) =>
        buf := buf[used..];
        if kind == ADDRESS_ASSIGN {
          var addresses := ParseAddressAssign(value);
          r := Some(if addresses.Ok? then Ok(AddressAssign(addresses.value)) else Err(addresses.error));
        } else if kind == ROUTE_ADVERTISEMENT {
          var routes := ParseRouteAdvertisement(value);
          r := Some(if routes.Ok? then Ok(RouteAdvertisement(routes.value)) else Err(routes.error));
        } else {
          r := Some(Interpret(kind, value));
        }
    }

    /** The receive path's loop: takes capsules until there is none, or one is malformed. */
    method DrainCapsules() returns (out: seq<Capsule>)
      modifies this
      ensures (out, buf) == Drain(old(buf))
    {
      hide Interpret, Find;
      out := [];
      assert [] + Drain(buf).0 == Drain(buf).0;
      while true
        invariant Drain(old(buf)) == After(out, Drain(buf))
        decreases |buf|
      {
        var r := Next();
        match r
        case None => break;
        case Some(Err(_)) => break;
        case Some(Ok(c)) =>
          Regroup(out, [c], Drain(buf).0);
          out := out + [c];
      }
      assert out + [] == out;
    }
  }

  /** A capsule before it is encoded. */
  datatype Raw = Raw(kind: nat, value: bytes)

  predicate Encodable(c: Raw) {
    c.kind <= Varint.MAX_VARINT && |c.value| <= Varint.MAX_VARINT
  }

  function EncodeCapsule(c: Raw): (r: bytes)
    requires Encodable(c)
    ensures r != []
  {
    Varint.Put(c.kind) + Varint.Put(|c.value|) + c.value
  }

  /** A capsule the receiver can interpret. */
  predicate WellFormed(c: Raw) {
    Encodable(c) && Interpret(c.kind, c.value).Ok?
  }

  predicate AllWellFormed(cs: seq<Raw>) {
    forall i :: 0 <= i < |cs| ==> WellFormed(cs[i])
  }

  function EncodeAll(cs: seq<Raw>): bytes
    requires AllWellFormed(cs)
  {
    if cs == [] then [] else EncodeCapsule(cs[0]) + EncodeAll(cs[1..])
  }

  function Meanings(cs: seq<Raw>): (r: seq<Capsule>)
    requires AllWellFormed(cs)
    ensures |r| == |cs|
  {
    seq(|cs|, i requires 0 <= i < |cs| => Interpret(cs[i].kind, cs[i].value).value)
  }

  lemma FindEncoded(c: Raw, rest: bytes)
    requires Encodable(c)
    ensures Find(EncodeCapsule(c) + rest) == Complete(c.kind, c.value, |EncodeCapsule(c)|)
  {
    var k, l := Varint.Put(c.kind), Varint.Put(|c.value|);
    var buf := EncodeCapsule(c) + rest;
    assert buf == k + (l + (c.value + rest));
    Varint.GetPut(c.kind, l + (c.value + rest));
    assert buf[|k|..] == l + (c.value + rest);
    Varint.GetPut(|c.value|, c.value + rest);
    assert buf[|k| + |l|..|k| + |l| + |c.value|] == c.value;
  }

  /** A proper prefix of a capsule is never taken for a complete one. */
  lemma FindCut(c: Raw, p: bytes)
    requires Encodable(c) && p <= EncodeCapsule(c) && p != EncodeCapsule(c)
    ensures Find(p) == Incomplete
  {
    var k, l := Varint.Put(c.kind), Varint.Put(|c.value|);
    var e := EncodeCapsule(c);
    assert e == k + (l + c.value);
    if |p| < |k| {
      assert p == e[..|p|] == k[..|p|];
      Varint.GetCut(c.kind, p);
    } else {
      PrefixDrop(k, p, l + c.value);
      var q := p[|k|..];
      Varint.GetPut(c.kind, q);
      if |q| < |l| {
        assert q == (l + c.value)[..|q|] == l[..|q|];
        Varint.GetCut(|c.value|, q);
      } else {
        PrefixDrop(l, q, c.value);
        Varint.GetPut(|c.value|, q[|l|..]);
      }
    }
  }

  /** `buf` is what may be left once the first `n` capsules are out: nothing after the last one, or
      else a proper prefix of the next one. */
  ghost predicate Reassembles(cs: seq<Raw>, n: nat, buf: bytes)
    requires AllWellFormed(cs)
  {
    n <= |cs| && if n == |cs| then buf == [] else buf <= EncodeCapsule(cs[n]) && buf != EncodeCapsule(cs[n])
  }

  function Meaning(c: Raw): Capsule
    requires WellFormed(c)
  {
    Interpret(c.kind, c.value).value
  }

  lemma DrainOne(c: Raw, rest: bytes)
    requires WellFormed(c)
    ensures Drain(EncodeCapsule(c) + rest) == After([Meaning(c)], Drain(rest))
  {
    hide Interpret, Find;
    FindEncoded(c, rest);
    assert (EncodeCapsule(c) + rest)[|EncodeCapsule(c)|..] == rest;
  }

  lemma DrainNone(c: Raw, p: bytes)
    requires Encodable(c) && p <= EncodeCapsule(c) && p != EncodeCapsule(c)
    ensures Drain(p) == ([], p)
  {
    hide Interpret, Find;
    FindCut(c, p);
  }

  /** What the first `n` of the capsules encode to, and what they mean. */
  lemma FirstCons(cs: seq<Raw>, n: nat)
    requires AllWellFormed(cs) && 1 <= n <= |cs|
    ensures EncodeAll(cs[..n]) == EncodeCapsule(cs[0]) + EncodeAll(cs[1..][..n - 1])
    ensures Meanings(cs)[..n] == [Meaning(cs[0])] + Meanings(cs[1..])[..n - 1]
  {
    assert cs[..n][1..] == cs[1..][..n - 1];
  }

  /** Draining any prefix of an encoded sequence yields the capsules it completes, and leaves a
      proper prefix of the next one. */
  lemma {:induction false} DrainPrefix(cs: seq<Raw>, p: bytes) returns (n: nat)
    requires AllWellFormed(cs)
    requires p <= EncodeAll(cs)
    ensures n <= |cs| && Reassembles(cs, n, Drain(p).1)
    ensures Drain(p).0 == Meanings(cs)[..n]
    ensures p == EncodeAll(cs[..n]) + Drain(p).1
  {
    hide Drain, EncodeCapsule, Interpret;
    n := 0;
    if cs == [] {
      NothingToDrain();
    } else {
      var e := EncodeCapsule(cs[0]);
      if |p| < |e| {
        assert p == EncodeAll(cs)[..|p|] == e[..|p|];
        DrainNone(cs[0], p);
      } else {
        var q := p[|e|..];
        PrefixDrop(e, p, EncodeAll(cs[1..]));
        DrainOne(cs[0], q);
        var m := DrainPrefix(cs[1..], q);
        n := m + 1;
        FirstCons(cs, n);
        Regroup(e, EncodeAll(cs[1..][..m]), Drain(q).1);
      }
    }
  }

  lemma NothingToDrain()
    ensures Drain([]) == ([], [])
  {}

  /** Receiving chunk by chunk: push, then drain. */
  function Feed(buf: bytes, chunks: seq<bytes>): (seq<Capsule>, bytes)
    decreases |chunks|
  {
    if chunks == [] then ([], buf)
    else
      var r := Drain(Push(buf, chunks[0]));
      After(r.0, Feed(r.1, chunks[1..]))
  }

  function PushAll(buf: bytes, chunks: seq<bytes>): bytes
    decreases |chunks|
  {
    if chunks == [] then buf else PushAll(Push(buf, chunks[0]), chunks[1..])
  }

  /** Receiving batch by batch: any number of pushes, then one drain. The HTTP/2 carrier's batches
      are single chunks; the QUIC carrier pushes every read of one poll. */
  function FeedBatches(buf: bytes, batches: seq<seq<bytes>>): (seq<Capsule>, bytes)
    decreases |batches|
  {
    if batches == [] then ([], buf)
    else
      var r := Drain(PushAll(buf, batches[0]));
      After(r.0, FeedBatches(r.1, batches[1..]))
  }

  method PushBatch(parser: CapsuleParser, chunks: seq<bytes>)
    modifies parser
    ensures parser.buf == PushAll(old(parser.buf), chunks)
  {
    hide Push;
    assert chunks[0..] == chunks;
    for i := 0 to |chunks|
      invariant PushAll(old(parser.buf), chunks) == PushAll(parser.buf, chunks[i..])
    {
      assert chunks[i..][1..] == chunks[i + 1..];
      parser.PushBytes(chunks[i]);
    }
  }

  method FeedAll(parser: CapsuleParser, batches: seq<seq<bytes>>) returns (out: seq<Capsule>)
    modifies parser
    ensures (out, parser.buf) == FeedBatches(old(parser.buf), batches)
  {
    hide Drain, PushAll;
    out := [];
    assert [] + FeedBatches(parser.buf, batches).0 == FeedBatches(parser.buf, batches).0 && batches[0..] == batches;
    for i := 0 to |batches|
      invariant FeedBatches(old(parser.buf), batches) == After(out, FeedBatches(parser.buf, batches[i..]))
    {
      assert batches[i..][1..] == batches[i + 1..];
      PushBatch(parser, batches[i]);
      var cs := parser.DrainCapsules();
      Regroup(out, cs, FeedBatches(parser.buf, batches[i + 1..]).0);
      out := out + cs;
    }
    assert out + [] == out;
  }

  /** Buffered plus new bytes stay within the cap before every drain. */
  predicate StaysWithinCap(buf: bytes, chunks: seq<bytes>)
    decreases |chunks|
  {
    chunks != [] ==>
      && |buf| + |chunks[0]| <= MAX_CAPSULE_BUF
      && StaysWithinCap(Drain(buf + chunks[0]).1, chunks[1..])
  }

  lemma {:induction false} EncodeAllSplit(cs: seq<Raw>, m: nat)
    requires AllWellFormed(cs) && m <= |cs|
    ensures EncodeAll(cs) == EncodeAll(cs[..m]) + EncodeAll(cs[m..])
  {
    hide Interpret, EncodeCapsule;
    if m > 0 {
      EncodeAllSplit(cs[1..], m - 1);
      assert cs[..m][1..] == cs[1..][..m - 1];
      assert cs[1..][m - 1..] == cs[m..];
      Regroup(EncodeCapsule(cs[0]), EncodeAll(cs[1..][..m - 1]), EncodeAll(cs[m..]));
    } else {
      assert cs[0..] == cs;
    }
  }

  /** Capsules `m` to `m + k` follow the first `m`: their bytes, their meanings, and what is left
      of the next one. */
  lemma JoinBytes(cs: seq<Raw>, m: nat, k: nat, tail: bytes)
    requires AllWellFormed(cs) && m + k <= |cs|
    ensures EncodeAll(cs[..m]) + (EncodeAll(cs[m..][..k]) + tail) == EncodeAll(cs[..m + k]) + tail
  {
    hide WellFormed, EncodeAll;
    EncodeAllSplit(cs[..m + k], m);
    assert cs[..m + k][..m] == cs[..m] && cs[..m + k][m..] == cs[m..][..k];
    Regroup(EncodeAll(cs[..m]), EncodeAll(cs[m..][..k]), tail);
  }

  lemma JoinMeanings(cs: seq<Raw>, m: nat, k: nat)
    requires AllWellFormed(cs) && m + k <= |cs|
    ensures Meanings(cs)[..m + k] == Meanings(cs)[..m] + Meanings(cs[m..])[..k]
  {
    hide Interpret;
  }

  lemma JoinRest(cs: seq<Raw>, m: nat, k: nat, tail: bytes)
    requires AllWellFormed(cs) && m + k <= |cs|
    requires Reassembles(cs[m..], k, tail)
    ensures Reassembles(cs, m + k, tail)
  {
    hide Interpret, EncodeCapsule;
  }

  /** One chunk: it fits, and draining completes some capsules of the sequence. */
  lemma FeedOne(cs: seq<Raw>, buf: bytes, chunk: bytes, later: bytes) returns (m: nat)
    requires AllWellFormed(cs) && |buf| + |chunk| <= MAX_CAPSULE_BUF
    requires Reassembles(cs, 0, buf) && buf + chunk + later <= EncodeAll(cs)
    ensures var r := Drain(Push(buf, chunk));
            && m <= |cs| && Reassembles(cs[m..], 0, r.1)
            && r.0 == Meanings(cs)[..m]
            && buf + chunk + later == EncodeAll(cs[..m]) + (r.1 + later)
            && r.1 + later <= EncodeAll(cs[m..])
  {
    hide Drain, Interpret, EncodeAll, EncodeCapsule;
    var p := buf + chunk;
    assert p <= EncodeAll(cs) by { assert p <= p + later; }
    m := DrainPrefix(cs, p);
    var rest := Drain(p).1;
    EncodeAllSplit(cs, m);
    Regroup(EncodeAll(cs[..m]), rest, later);
    PrefixDrop(EncodeAll(cs[..m]), p + later, EncodeAll(cs[m..]));
    assert (p + later)[|EncodeAll(cs[..m])|..] == rest + later;
  }

  lemma {:induction false} FeedFrom(cs: seq<Raw>, buf: bytes, chunks: seq<bytes>) returns (n: nat)
    requires AllWellFormed(cs) && StaysWithinCap(buf, chunks)
    requires Reassembles(cs, 0, buf) && buf + Flatten(chunks) <= EncodeAll(cs)
    ensures n <= |cs| && Reassembles(cs, n, Feed(buf, chunks).1)
    ensures Feed(buf, chunks).0 == Meanings(cs)[..n]
    ensures buf + Flatten(chunks) == EncodeAll(cs[..n]) + Feed(buf, chunks).1
    decreases |chunks|
  {
    hide Drain, Interpret, Reassembles, EncodeCapsule;
    n := 0;
    if chunks == [] {
      assert buf + Flatten(chunks) == buf && cs[..0] == [];
    } else {
      var chunk, later := chunks[0], Flatten(chunks[1..]);
      Regroup(buf, chunk, later);
      var m := FeedOne(cs, buf, chunk, later);
      var rest := Drain(Push(buf, chunk)).1;
      var k := FeedFrom(cs[m..], rest, chunks[1..]);
      n := m + k;
      JoinBytes(cs, m, k, Feed(rest, chunks[1..]).1);
      JoinMeanings(cs, m, k);
      JoinRest(cs, m, k, Feed(rest, chunks[1..]).1);
    }
  }

  /** Part of the way: after any chunks that together are a prefix of the encoding, exactly the
      capsules they complete have come out, and the buffer is a proper prefix of the next one. */
  lemma {:induction false} ChunksSoFar(cs: seq<Raw>, chunks: seq<bytes>) returns (n: nat)
    requires AllWellFormed(cs) && StaysWithinCap([], chunks)
    requires Flatten(chunks) <= EncodeAll(cs)
    ensures n <= |cs| && Feed([], chunks).0 == Meanings(cs)[..n]
    ensures Reassembles(cs, n, Feed([], chunks).1)
    ensures Flatten(chunks) == EncodeAll(cs[..n]) + Feed([], chunks).1
  {
    hide Drain, Feed, WellFormed, EncodeAll;
    assert [] + Flatten(chunks) == Flatten(chunks);
    n := FeedFrom(cs, [], chunks);
  }

  lemma FirstFits(cs: seq<Raw>)
    requires AllWellFormed(cs)
    ensures cs == [] || |EncodeAll(cs)| >= |EncodeCapsule(cs[0])|
  {}

  /** A buffer holding all the remaining capsules while it is a proper prefix of one: none remain. */
  lemma NothingPending(cs: seq<Raw>, n: nat, buf: bytes)
    requires AllWellFormed(cs) && n <= |cs|
    requires Reassembles(cs, n, buf) && buf == EncodeAll(cs[n..])
    ensures n == |cs| && buf == []
  {
    hide Interpret, EncodeCapsule;
    FirstFits(cs[n..]);
  }

  /** Chunking independence: however the encoding of a sequence of well-formed capsules is cut into
      chunks, pushing and draining chunk by chunk yields that sequence and leaves nothing. */
  lemma {:induction false} ChunkingIsIndependent(cs: seq<Raw>, chunks: seq<bytes>)
    requires AllWellFormed(cs) && StaysWithinCap([], chunks)
    requires Flatten(chunks) == EncodeAll(cs)
    ensures Feed([], chunks) == (Meanings(cs), [])
  {
    hide Drain, Feed, Interpret, EncodeCapsule;
    var n := ChunksSoFar(cs, chunks);
    EncodeAllSplit(cs, n);
    assert Feed([], chunks).1 == EncodeAll(cs[n..]);
    NothingPending(cs, n, Feed([], chunks).1);
    assert Meanings(cs)[..n] == Meanings(cs);
  }

  /** Pushes join into one, exactly when everything together stays within the cap. */
  lemma {:induction false} PushesJoinIff(buf: bytes, chunks: seq<bytes>)
    requires |buf| <= MAX_CAPSULE_BUF
    ensures |PushAll(buf, chunks)| <= MAX_CAPSULE_BUF
    ensures PushAll(buf, chunks) == buf + Flatten(chunks) <==> |buf| + |Flatten(chunks)| <= MAX_CAPSULE_BUF
    decreases |chunks|
  {
    if chunks == [] {
      assert buf + Flatten(chunks) == buf;
    } else {
      PushesJoinIff(Push(buf, chunks[0]), chunks[1..]);
      Regroup(buf, chunks[0], Flatten(chunks[1..]));
    }
  }

  /** What each batch holds. */
  function Joined(batches: seq<seq<bytes>>): seq<bytes> {
    if batches == [] then [] else [Flatten(batches[0])] + Joined(batches[1..])
  }

  lemma {:induction false} BatchesAreChunks(buf: bytes, batches: seq<seq<bytes>>)
    requires |buf| <= MAX_CAPSULE_BUF && StaysWithinCap(buf, Joined(batches))
    ensures FeedBatches(buf, batches) == Feed(buf, Joined(batches))
    decreases |batches|
  {
    hide Drain;
    if batches != [] {
      var all := Joined(batches);
      assert all[0] == Flatten(batches[0]) && all[1..] == Joined(batches[1..]);
      PushesJoinIff(buf, batches[0]);
      DrainShrinks(buf + all[0]);
      BatchesAreChunks(Drain(buf + all[0]).1, batches[1..]);
    }
  }

  lemma {:induction false} DrainShrinks(buf: bytes)
    ensures |Drain(buf).1| <= |buf|
    decreases |buf|
  {
    hide Interpret;
    match Find(buf)
    case Incomplete =>
    case Complete(_, _, used) => DrainShrinks(buf[used..]);
  }

  /** Batching independence: however the encoding is cut into chunks, and however many chunks are
      pushed before each drain, the same sequence comes out, as long as what is buffered before a
      drain stays within the cap. */
  lemma BatchingIsIndependent(cs: seq<Raw>, batches: seq<seq<bytes>>)
    requires AllWellFormed(cs) && StaysWithinCap([], Joined(batches))
    requires Flatten(Joined(batches)) == EncodeAll(cs)
    ensures FeedBatches([], batches) == (Meanings(cs), [])
  {
    hide Drain, Feed, FeedBatches, StaysWithinCap, Joined, EncodeAll, AllWellFormed;
    BatchesAreChunks([], batches);
    ChunkingIsIndependent(cs, Joined(batches));
  }

  /** A condition on lengths alone: no chunk on top of an unfinished capsule reaches the cap. */
  predicate ShortEnough(cs: seq<Raw>, chunks: seq<bytes>)
    requires AllWellFormed(cs)
  {
    && (forall i, j :: 0 <= i < |cs| && 0 <= j < |chunks| ==>
          |EncodeCapsule(cs[i])| - 1 + |chunks[j]| <= MAX_CAPSULE_BUF)
    && (forall j :: 0 <= j < |chunks| ==> |chunks[j]| <= MAX_CAPSULE_BUF)
  }

  lemma ShortLater(cs: seq<Raw>, chunks: seq<bytes>, m: nat)
    requires AllWellFormed(cs) && ShortEnough(cs, chunks) && chunks != [] && m <= |cs|
    ensures ShortEnough(cs[m..], chunks[1..])
  {
    hide EncodeCapsule, Interpret;
    var cs', chunks' := cs[m..], chunks[1..];
    forall i, j | 0 <= i < |cs'| && 0 <= j < |chunks'|
      ensures |EncodeCapsule(cs'[i])| - 1 + |chunks'[j]| <= MAX_CAPSULE_BUF
    {
      assert cs'[i] == cs[m + i] && chunks'[j] == chunks[j + 1];
    }
  }

  lemma {:induction false} ShortStays(cs: seq<Raw>, buf: bytes, chunks: seq<bytes>)
    requires AllWellFormed(cs) && ShortEnough(cs, chunks)
    requires Reassembles(cs, 0, buf) && buf + Flatten(chunks) <= EncodeAll(cs)
    ensures StaysWithinCap(buf, chunks)
    decreases |chunks|
  {
    hide Drain, Interpret, EncodeAll, EncodeCapsule;
    if chunks != [] {
      var chunk, later := chunks[0], Flatten(chunks[1..]);
      Regroup(buf, chunk, later);
      assert |buf| + |chunk| <= MAX_CAPSULE_BUF by {
        if cs != [] { assert |EncodeCapsule(cs[0])| - 1 + |chunks[0]| <= MAX_CAPSULE_BUF; }
      }
      var m := FeedOne(cs, buf, chunk, later);
      ShortLater(cs, chunks, m);
      ShortStays(cs[m..], Drain(buf + chunk).1, chunks[1..]);
    }
  }

  /** The lengths of the capsules and of the batches are enough to know that nothing is lost. */
  lemma ShortBatchesAreSafe(cs: seq<Raw>, batches: seq<seq<bytes>>)
    requires AllWellFormed(cs) && ShortEnough(cs, Joined(batches))
    requires Flatten(Joined(batches)) == EncodeAll(cs)
    ensures StaysWithinCap([], Joined(batches))
    ensures FeedBatches([], batches) == (Meanings(cs), [])
  {
    hide Drain, FeedBatches, StaysWithinCap, Joined, Interpret, EncodeCapsule;
    assert [] + Flatten(Joined(batches)) == Flatten(Joined(batches));
    ShortStays(cs, [], Joined(batches));
    BatchingIsIndependent(cs, batches);
  }

  /** One full read of the QUIC carrier. */
  const FULL_READ: nat := 65_535

  function FullDatagram(packet: bytes): (c: Raw)
    requires |packet| == 65_530
    ensures WellFormed(c) && |EncodeCapsule(c)| == FULL_READ
  {
    Raw(DATAGRAM, packet)
  }

  predicate FullPackets(packets: seq<bytes>) {
    forall i :: 0 <= i < |packets| ==> |packets[i]| == 65_530
  }

  function FullDatagrams(packets: seq<bytes>): (cs: seq<Raw>)
    requires FullPackets(packets)
    ensures |cs| == |packets| && AllWellFormed(cs)
    ensures forall i :: 0 <= i < |cs| ==> |EncodeCapsule(cs[i])| == FULL_READ
  {
    seq(|packets|, i requires 0 <= i < |packets| => FullDatagram(packets[i]))
  }

  function Encodings(cs: seq<Raw>): (r: seq<bytes>)
    requires AllWellFormed(cs)
    ensures |r| == |cs| && forall i :: 0 <= i < |cs| ==> r[i] == EncodeCapsule(cs[i])
  {
    seq(|cs|, i requires 0 <= i < |cs| => EncodeCapsule(cs[i]))
  }

  /** The cap is real: five full reads, each of them one whole datagram capsule, are all lost when
      they are pushed before one drain, and all received when there is a drain after each. */
  lemma FiveFullReadsAreLost(packets: seq<bytes>)
    requires |packets| == 5 && FullPackets(packets)
    ensures var cs := FullDatagrams(packets);
            && Flatten(Encodings(cs)) == EncodeAll(cs)
            && FeedBatches([], [Encodings(cs)]) == ([], [])
            && Feed([], Encodings(cs)) == (Meanings(cs), []) && |Meanings(cs)| == 5
  {
    hide EncodeCapsule, WellFormed, Drain, Feed, PushAll, Interpret, FullDatagrams, Encodings;
    var cs := FullDatagrams(packets);
    var pieces := Encodings(cs);
    Apart(cs, pieces);
    FiveAreTooMany(pieces);
    NothingToDrain();
    OneBatch([], pieces);
    assert [] + Flatten(pieces) == Flatten(pieces);
    ShortStays(cs, [], pieces) by { StartsEmpty(cs); }
    ChunkingIsIndependent(cs, pieces);
  }

  lemma OneBatch(buf: bytes, chunks: seq<bytes>)
    ensures FeedBatches(buf, [chunks]) == Drain(PushAll(buf, chunks))
  {
    hide Drain, PushAll;
    var once: seq<seq<bytes>> := [chunks];
    var r := Drain(PushAll(buf, chunks));
    assert once[1..] == [] && r.0 + [] == r.0;
  }

  lemma StartsEmpty(cs: seq<Raw>)
    requires AllWellFormed(cs)
    ensures Reassembles(cs, 0, [])
  {}

  lemma {:induction false} Apart(cs: seq<Raw>, pieces: seq<bytes>)
    requires AllWellFormed(cs) && |pieces| == |cs| && forall i :: 0 <= i < |cs| ==> pieces[i] == EncodeCapsule(cs[i])
    ensures Flatten(pieces) == EncodeAll(cs)
  {
    hide EncodeCapsule, Interpret;
    if cs != [] { Apart(cs[1..], pieces[1..]); }
  }

  lemma {:induction false} PushAllSnoc(buf: bytes, chunks: seq<bytes>, last: bytes)
    ensures PushAll(buf, chunks + [last]) == Push(PushAll(buf, chunks), last)
    decreases |chunks|
  {
    hide Push;
    if chunks == [] {
      assert chunks + [last] == [last];
      assert PushAll(buf, [last]) == PushAll(Push(buf, last), []);
    } else {
      assert (chunks + [last])[1..] == chunks[1..] + [last];
      PushAllSnoc(Push(buf, chunks[0]), chunks[1..], last);
    }
  }

  lemma FiveAreTooMany(pieces: seq<bytes>)
    requires |pieces| == 5 && forall i :: 0 <= i < 5 ==> |pieces[i]| == FULL_READ
    ensures PushAll([], pieces) == []
  {
    hide PushAll;
    var four, last := pieces[..4], pieces[4];
    assert pieces == four + [last];
    assert |Flatten(four)| == 4 * FULL_READ by { SameLength(four, FULL_READ); }
    PushesJoinIff([], four);
    PushAllSnoc([], four, last);
  }

  lemma {:induction false} SameLength(ss: seq<bytes>, n: nat)
    requires forall i :: 0 <= i < |ss| ==> |ss[i]| == n
    ensures |Flatten(ss)| == |ss| * n
  {
    if ss != [] { SameLength(ss[1..], n); }
  }
}
