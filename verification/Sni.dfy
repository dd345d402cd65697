/** Reading the server name out of the front of a TLS ClientHello (section 4.1.2 of RFC 8446,
    section 3 of RFC 6066), from however many bytes have arrived. */
module Sni {
  import opened Bytes

  const HANDSHAKE: byte := 0x16
  const CLIENT_HELLO: byte := 1
  const SERVER_NAME: u16 := 0
  const HOST_NAME: byte := 0

  datatype Verdict = Nothing | HostName(raw: bytes)
  datatype ListVerdict = Cut | NoHost | Host(raw: bytes)

  /** Everything up to the session id. */
  function SkipFixed(buf: bytes): Option<bytes> {
    if |buf| < 5 || buf[0] != HANDSHAKE then None
    else if |buf| < 6 || buf[5] != CLIENT_HELLO then None
    else if |buf| < 9 then None
    else if |buf| - 9 < 2 + 32 then None
    else Some(buf[43..])
  }

  function Skip8(cur: bytes): Option<bytes> {
    if cur == [] || |cur| < 1 + cur[0] as nat then None else Some(cur[1 + cur[0] as nat..])
  }

  function Skip16(cur: bytes): Option<bytes> {
    if |cur| < 2 || |cur| < 2 + U16(cur, 0) as nat then None else Some(cur[2 + U16(cur, 0) as nat..])
  }

  function SkipTotal(cur: bytes): Option<bytes> {
    if |cur| < 2 then None else Some(cur[2..])
  }

  /** The server name list: the first entry that is a host name. */
  function Names(list: bytes): ListVerdict
    decreases |list|
  {
    if |list| < 3 then NoHost
    else
      var len := U16(list, 1) as nat;
      if |list| < 3 + len then Cut
      else if list[0] != HOST_NAME then Names(list[3 + len..])
      else Host(list[3..3 + len])
  }

  /** The extensions: the first server name extension that has a host name. */
  function Extensions(cur: bytes): Verdict
    decreases |cur|
  {
    if |cur| < 4 then Nothing
    else
      var len := U16(cur, 2) as nat;
      if |cur| < 4 + len then Nothing
      else if U16(cur, 0) != SERVER_NAME then Extensions(cur[4 + len..])
      else if len < 2 then Nothing
      else
        match Names(cur[6..4 + len])
        case Cut => Nothing
        case NoHost => Extensions(cur[4 + len..])
        case Host(raw) => HostName(raw)
  }

  function FromTotal(cur: bytes): Verdict {
    match SkipTotal(cur) case None => Nothing case Some(rest) => Extensions(rest)
  }

  function FromCompression(cur: bytes): Verdict {
    match Skip8(cur) case None => Nothing case Some(rest) => FromTotal(rest)
  }

  function FromSuites(cur: bytes): Verdict {
    match Skip16(cur) case None => Nothing case Some(rest) => FromCompression(rest)
  }

  function FromSession(cur: bytes): Verdict {
    match Skip8(cur) case None => Nothing case Some(rest) => FromSuites(rest)
  }

  function Scan(buf: bytes): Verdict {
    match SkipFixed(buf) case None => Nothing case Some(rest) => FromSession(rest)
  }

  /** `plausible` stands for the host name check on the raw bytes. */
  method TlsSni<Name>(buf: bytes, plausible: bytes -> Option<Name>) returns (r: Option<Name>)
    ensures r == match Scan(buf) case Nothing => None case HostName(raw) => plausible(raw)
  {
    hide Extensions, U16;
    if |buf| < 5 || buf[0] != HANDSHAKE {
      return None;
    }
    var hs := buf[5..];
    if hs == [] || hs[0] != CLIENT_HELLO {
      return None;
    }
    if |hs| < 4 {
      return None;
    }
    var cur := hs[4..];
    if |cur| < 2 + 32 {
      return None;
    }
    cur := cur[2 + 32..];
    assert SkipFixed(buf) == Some(cur) by { assert cur == buf[43..]; }
    ghost var a := cur;
    if cur == [] || |cur| < 1 + cur[0] as nat {
      return None;
    }
    cur := cur[1 + cur[0] as nat..];
    ghost var b := cur;
    assert Skip8(a) == Some(b);
    if |cur| < 2 || |cur| < 2 + U16(cur, 0) as nat {
      return None;
    }
    cur := cur[2 + U16(cur, 0) as nat..];
    ghost var c := cur;
    assert Skip16(b) == Some(c);
    if cur == [] || |cur| < 1 + cur[0] as nat {
      return None;
    }
    cur := cur[1 + cur[0] as nat..];
    ghost var d := cur;
    assert Skip8(c) == Some(d);
    if |cur| < 2 {
      return None;
    }
    cur := cur[2..];
    assert SkipTotal(d) == Some(cur);
    r := ScanExtensions(cur, plausible);
  }

  method ScanExtensions<Name>(start: bytes, plausible: bytes -> Option<Name>) returns (r: Option<Name>)
    ensures r == match Extensions(start) case Nothing => None case HostName(raw) => plausible(raw)
  {
    var cur := start;
    while |cur| >= 4
      invariant Extensions(cur) == Extensions(start)
      decreases |cur|
    {
      var kind := U16(cur, 0);
      var len := U16(cur, 2) as nat;
      if |cur| < 4 + len {
        return None;
      }
      var ext := cur[4..4 + len];
      ghost var was := cur;
      cur := cur[4 + len..];
      if kind == SERVER_NAME {
        var list := ext;
        if |list| < 2 {
          return None;
        }
        list := list[2..];
        assert list == was[6..4 + len];
        while |list| >= 3
          invariant Names(list) == Names(was[6..4 + len])
          decreases |list|
        {
          var nameType := list[0];
          var nameLen := U16(list, 1) as nat;
          if |list| < 3 + nameLen {
            return None;
          }
          var name := list[3..3 + nameLen];
          list := list[3 + nameLen..];
          if nameType == HOST_NAME {
            return plausible(name);
          }
        }
      }
    }
    return None;
  }

  /** A ClientHello up to the end of the extension that names the host. The three lengths the scanner
      reads past (record, handshake, extension list) and the one in front of a name list are
      arbitrary bytes here. */
  datatype Entry = Entry(kind: byte, name: bytes)
  datatype Extension = Other(kind: u16, body: bytes) | Nameless(listLen: bytes, entries: seq<Entry>, stray: bytes)
  datatype Hello = Hello(record: bytes, handshake: bytes, versionRandom: bytes, session: bytes, suites: bytes,
                         compression: bytes, total: bytes, before: seq<Extension>, listLen: bytes,
                         entries: seq<Entry>, host: bytes, rest: bytes)

  /** An entry that is not a host name. */
  predicate GoodEntry(e: Entry) {
    e.kind != HOST_NAME && |e.name| < 0x1_0000
  }

  predicate GoodEntries(es: seq<Entry>) {
    forall i :: 0 <= i < |es| ==> GoodEntry(es[i])
  }

  function EncodeEntry(kind: byte, name: bytes): (r: bytes)
    requires |name| < 0x1_0000
    ensures |r| == 3 + |name|
  {
    [kind] + Be16(|name|) + name
  }

  function EncodeEntries(es: seq<Entry>): bytes
    requires GoodEntries(es)
  {
    if es == [] then [] else EncodeEntry(es[0].kind, es[0].name) + EncodeEntries(es[1..])
  }

  /** An extension of another type, or a server name extension without a host name. */
  predicate GoodExtension(e: Extension) {
    match e
    case Other(kind, body) => kind != SERVER_NAME && |body| < 0x1_0000
    case Nameless(listLen, entries, stray) =>
      |listLen| == 2 && GoodEntries(entries) && |stray| < 3
      && 2 + |EncodeEntries(entries)| + |stray| < 0x1_0000
  }

  predicate GoodExtensions(es: seq<Extension>) {
    forall i :: 0 <= i < |es| ==> GoodExtension(es[i])
  }

  function Block(kind: u16, body: bytes): (r: bytes)
    requires |body| < 0x1_0000
    ensures |r| == 4 + |body|
  {
    Be16(kind) + Be16(|body|) + body
  }

  function EncodeExtension(e: Extension): (r: bytes)
    requires GoodExtension(e)
    ensures |r| >= 4
  {
    match e
    case Other(kind, body) => Block(kind, body)
    case Nameless(listLen, entries, stray) => Block(SERVER_NAME, listLen + (EncodeEntries(entries) + stray))
  }

  function EncodeExtensions(es: seq<Extension>): bytes
    requires GoodExtensions(es)
  {
    if es == [] then [] else EncodeExtension(es[0]) + EncodeExtensions(es[1..])
  }

  predicate GoodHello(h: Hello) {
    && |h.record| == 4 && |h.handshake| == 3 && |h.versionRandom| == 34 && |h.total| == 2 && |h.listLen| == 2
    && |h.session| < 256 && |h.suites| < 0x1_0000 && |h.compression| < 256
    && GoodExtensions(h.before) && GoodEntries(h.entries) && |h.host| < 0x1_0000
    && |HostBody(h.listLen, h.entries, h.host, h.rest)| < 0x1_0000
  }

  function HostBody(listLen: bytes, entries: seq<Entry>, host: bytes, rest: bytes): bytes
    requires GoodEntries(entries) && |host| < 0x1_0000
  {
    listLen + (EncodeEntries(entries) + (EncodeEntry(HOST_NAME, host) + rest))
  }

  function Vec8(b: bytes): bytes
    requires |b| < 256
  {
    [|b|] + b
  }

  function Vec16(b: bytes): bytes
    requires |b| < 0x1_0000
  {
    Be16(|b|) + b
  }

  function Fixed(h: Hello): bytes {
    [HANDSHAKE] + h.record + [CLIENT_HELLO] + h.handshake + h.versionRandom
  }

  /** From the extensions, the extension total, the compression methods, the cipher suites and the
      session id to the end. */
  function Tail(h: Hello): bytes
    requires GoodHello(h)
  {
    EncodeExtensions(h.before) + Block(SERVER_NAME, HostBody(h.listLen, h.entries, h.host, h.rest))
  }

  function TailTotal(h: Hello): bytes
    requires GoodHello(h)
  {
    h.total + Tail(h)
  }

  function TailCompression(h: Hello): bytes
    requires GoodHello(h)
  {
    Vec8(h.compression) + TailTotal(h)
  }

  function TailSuites(h: Hello): bytes
    requires GoodHello(h)
  {
    Vec16(h.suites) + TailCompression(h)
  }

  function TailSession(h: Hello): bytes
    requires GoodHello(h)
  {
    Vec8(h.session) + TailSuites(h)
  }

  function Build(h: Hello): bytes
    requires GoodHello(h)
  {
    Fixed(h) + TailSession(h)
  }

  /** What each skip does with any number of the bytes it is meant for. */
  function Rest(p: bytes, n: nat): Option<bytes> {
    if |p| < n then None else Some(p[n..])
  }

  lemma SkipFixedPrefix(h: Hello, p: bytes, rest: bytes)
    requires |h.record| == 4 && |h.handshake| == 3 && |h.versionRandom| == 34
    requires p <= Fixed(h) + rest
    ensures |Fixed(h)| == 43
    ensures SkipFixed(p) == Rest(p, 43)
  {
    assert Fixed(h)[0] == HANDSHAKE && Fixed(h)[5] == CLIENT_HELLO;
    assert forall i :: 0 <= i < |p| && i < 43 ==> p[i] == Fixed(h)[i];
  }

  lemma Skip8Prefix(b: bytes, p: bytes, rest: bytes)
    requires |b| < 256 && p <= Vec8(b) + rest
    ensures Skip8(p) == Rest(p, |Vec8(b)|)
  {
    if p != [] { assert p[0] == (Vec8(b) + rest)[0]; }
  }

  lemma Skip16Prefix(b: bytes, p: bytes, rest: bytes)
    requires |b| < 0x1_0000 && p <= Vec16(b) + rest
    ensures Skip16(p) == Rest(p, |Vec16(b)|)
  {
    if |p| >= 2 {
      assert p[0] == (Vec16(b) + rest)[0] == Be16(|b|)[0];
      assert p[1] == (Vec16(b) + rest)[1] == Be16(|b|)[1];
    }
  }

  /** The first entry of a list, and the first extension, however much of it is there. */
  lemma EntryFields(kind: byte, name: bytes, rest: bytes)
    requires |name| < 0x1_0000
    ensures var list := EncodeEntry(kind, name) + rest;
            && list[0] == kind && U16(list, 1) as nat == |name|
            && list[3..3 + |name|] == name && list[3 + |name|..] == rest
  {
    var list := EncodeEntry(kind, name) + rest;
    assert list[1] == Be16(|name|)[0] && list[2] == Be16(|name|)[1];
  }

  lemma BlockFields(kind: u16, body: bytes, p: bytes, rest: bytes)
    requires |body| < 0x1_0000 && p <= Block(kind, body) + rest && |p| >= 4
    ensures U16(p, 0) == kind && U16(p, 2) as nat == |body|
    ensures |p| >= 4 + |body| ==> p[4..4 + |body|] == body && p[4 + |body|..] <= rest
  {
    var all := Block(kind, body) + rest;
    assert p[0] == all[0] == Be16(kind)[0] && p[1] == all[1] == Be16(kind)[1];
    assert p[2] == all[2] == Be16(|body|)[0] && p[3] == all[3] == Be16(|body|)[1];
    PrefixAt(Block(kind, body), rest, p);
    if |p| >= 4 + |body| {
      assert p[4..4 + |body|] == Block(kind, body)[4..];
    }
  }

  lemma {:induction false} NamesSkips(es: seq<Entry>, rest: bytes)
    requires GoodEntries(es)
    ensures Names(EncodeEntries(es) + rest) == Names(rest)
  {
    hide EncodeEntry, U16;
    if es == [] {
      assert EncodeEntries(es) + rest == rest;
    } else {
      var first, later := EncodeEntry(es[0].kind, es[0].name), EncodeEntries(es[1..]);
      Regroup(first, later, rest);
      EntryFields(es[0].kind, es[0].name, later + rest);
      NamesSkips(es[1..], rest);
    }
  }

  lemma NamesFindsHost(es: seq<Entry>, host: bytes, rest: bytes)
    requires GoodEntries(es) && |host| < 0x1_0000
    ensures Names(EncodeEntries(es) + (EncodeEntry(HOST_NAME, host) + rest)) == Host(host)
  {
    hide EncodeEntry, U16;
    NamesSkips(es, EncodeEntry(HOST_NAME, host) + rest);
    EntryFields(HOST_NAME, host, rest);
  }

  lemma NamesFindsNone(es: seq<Entry>, stray: bytes)
    requires GoodEntries(es) && |stray| < 3
    ensures Names(EncodeEntries(es) + stray) == NoHost
  {
    NamesSkips(es, stray);
  }

  /** An extension without a host name is passed over once it is all there. */
  lemma ExtensionsSkipsOne(e: Extension, p: bytes, rest: bytes)
    requires GoodExtension(e) && p <= EncodeExtension(e) + rest
    ensures Extensions(p) == if |p| < |EncodeExtension(e)| then Nothing else Extensions(p[|EncodeExtension(e)|..])
  {
    hide Names, Block, U16, EncodeEntries;
    if |p| >= 4 {
      match e
      case Other(kind, body) => BlockFields(kind, body, p, rest);
      case Nameless(listLen, entries, stray) =>
        var list := EncodeEntries(entries) + stray;
        BlockFields(SERVER_NAME, listLen + list, p, rest);
        NamesFindsNone(entries, stray);
        if |p| >= 4 + |listLen + list| {
          assert p[6..4 + |listLen + list|] == p[4..4 + |listLen + list|][2..] == list;
        }
    }
  }

  lemma HostExtension(listLen: bytes, entries: seq<Entry>, host: bytes, more: bytes, p: bytes, rest: bytes)
    requires |listLen| == 2 && GoodEntries(entries) && |host| < 0x1_0000
    requires |HostBody(listLen, entries, host, more)| < 0x1_0000
    requires p <= Block(SERVER_NAME, HostBody(listLen, entries, host, more)) + rest
    ensures Extensions(p) == if |p| < 4 + |HostBody(listLen, entries, host, more)| then Nothing else HostName(host)
  {
    hide Names, Block, U16, EncodeEntries, EncodeEntry;
    var body := HostBody(listLen, entries, host, more);
    if |p| >= 4 {
      BlockFields(SERVER_NAME, body, p, rest);
      NamesFindsHost(entries, host, more);
      if |p| >= 4 + |body| {
        assert p[6..4 + |body|] == p[4..4 + |body|][2..] == body[2..];
        assert body[2..] == EncodeEntries(entries) + (EncodeEntry(HOST_NAME, host) + more);
      }
    }
  }

  /** The extensions after any number of nameless ones. */
  lemma {:induction false} ExtensionsPrefix(es: seq<Extension>, listLen: bytes, entries: seq<Entry>, host: bytes,
                                            more: bytes, p: bytes, rest: bytes)
    requires GoodExtensions(es) && |listLen| == 2 && GoodEntries(entries) && |host| < 0x1_0000
    requires |HostBody(listLen, entries, host, more)| < 0x1_0000
    requires p <= EncodeExtensions(es) + Block(SERVER_NAME, HostBody(listLen, entries, host, more)) + rest
    ensures Extensions(p)
         == if |p| < |EncodeExtensions(es)| + 4 + |HostBody(listLen, entries, host, more)| then Nothing else HostName(host)
    decreases |es|
  {
    hide Extensions, EncodeExtension, GoodExtension, HostBody, Block;
    var block := Block(SERVER_NAME, HostBody(listLen, entries, host, more));
    if es == [] {
      assert EncodeExtensions(es) + block == block;
      HostExtension(listLen, entries, host, more, p, rest);
    } else {
      var first, later := EncodeExtension(es[0]), EncodeExtensions(es[1..]);
      assert first + later + block + rest == first + (later + block + rest);
      ExtensionsSkipsOne(es[0], p, later + block + rest);
      if |p| >= |first| {
        PrefixAt(first, later + block + rest, p);
        ExtensionsPrefix(es[1..], listLen, entries, host, more, p[|first|..], rest);
      }
    }
  }

  /** What a scan of part of the bytes up to the host's extension should say. */
  function Awaited(host: bytes, needed: nat, p: bytes): Verdict {
    if |p| < needed then Nothing else HostName(host)
  }

  lemma TailPrefix(h: Hello, p: bytes, rest: bytes)
    requires GoodHello(h) && p <= Tail(h) + rest
    ensures Extensions(p) == Awaited(h.host, |Tail(h)|, p)
  {
    hide Extensions, EncodeExtensions, HostBody;
    ExtensionsPrefix(h.before, h.listLen, h.entries, h.host, h.rest, p, rest);
  }

  lemma TailTotalPrefix(h: Hello, p: bytes, rest: bytes)
    requires GoodHello(h) && p <= TailTotal(h) + rest
    ensures FromTotal(p) == Awaited(h.host, |TailTotal(h)|, p)
  {
    hide Extensions, Tail;
    PassOver(h.total, Tail(h), rest, p);
    if |p| >= 2 { TailPrefix(h, p[2..], rest); }
  }

  lemma TailCompressionPrefix(h: Hello, p: bytes, rest: bytes)
    requires GoodHello(h) && p <= TailCompression(h) + rest
    ensures FromCompression(p) == Awaited(h.host, |TailCompression(h)|, p)
  {
    hide FromTotal, TailTotal, Skip8, Vec8;
    var first := Vec8(h.compression);
    PassOver(first, TailTotal(h), rest, p);
    Skip8Prefix(h.compression, p, TailTotal(h) + rest);
    if |p| >= |first| { TailTotalPrefix(h, p[|first|..], rest); }
  }

  lemma TailSuitesPrefix(h: Hello, p: bytes, rest: bytes)
    requires GoodHello(h) && p <= TailSuites(h) + rest
    ensures FromSuites(p) == Awaited(h.host, |TailSuites(h)|, p)
  {
    hide FromCompression, TailCompression, Skip16, Vec16;
    var first := Vec16(h.suites);
    PassOver(first, TailCompression(h), rest, p);
    Skip16Prefix(h.suites, p, TailCompression(h) + rest);
    if |p| >= |first| { TailCompressionPrefix(h, p[|first|..], rest); }
  }

  lemma TailSessionPrefix(h: Hello, p: bytes, rest: bytes)
    requires GoodHello(h) && p <= TailSession(h) + rest
    ensures FromSession(p) == Awaited(h.host, |TailSession(h)|, p)
  {
    hide FromSuites, TailSuites, Skip8, Vec8;
    var first := Vec8(h.session);
    PassOver(first, TailSuites(h), rest, p);
    Skip8Prefix(h.session, p, TailSuites(h) + rest);
    if |p| >= |first| { TailSuitesPrefix(h, p[|first|..], rest); }
  }

  lemma HelloPrefix(h: Hello, p: bytes, rest: bytes)
    requires GoodHello(h) && p <= Build(h) + rest
    ensures Scan(p) == Awaited(h.host, |Build(h)|, p)
  {
    hide FromSession, TailSession, SkipFixed, Fixed;
    PassOver(Fixed(h), TailSession(h), rest, p);
    SkipFixedPrefix(h, p, TailSession(h) + rest);
    if |p| >= 43 { TailSessionPrefix(h, p[43..], rest); }
  }

  /** The other direction: bytes a scan accepted, taken apart again. */
  lemma Be16Of(b: bytes, at: nat)
    requires at + 2 <= |b|
    ensures Be16(U16(b, at)) == b[at..at + 2]
  {}

  lemma EntryOf(list: bytes)
    requires |list| >= 3 && |list| >= 3 + U16(list, 1) as nat
    ensures var len := U16(list, 1) as nat;
            list == EncodeEntry(list[0], list[3..3 + len]) + list[3 + len..]
  {
    Be16Of(list, 1);
    hide Be16, U16;
  }

  lemma BlockOf(cur: bytes)
    requires |cur| >= 4 && |cur| >= 4 + U16(cur, 2) as nat
    ensures var len := U16(cur, 2) as nat;
            cur == Block(U16(cur, 0), cur[4..4 + len]) + cur[4 + len..]
  {
    Be16Of(cur, 0);
    Be16Of(cur, 2);
    hide Be16, U16;
  }

  /** A list is some entries that are not host names, then either a host name or a few stray bytes. */
  lemma {:induction false} ListOf(list: bytes) returns (es: seq<Entry>, rest: bytes)
    requires !Names(list).Cut?
    ensures GoodEntries(es)
    ensures Names(list).NoHost? ==> |rest| < 3 && list == EncodeEntries(es) + rest
    ensures Names(list).Host? ==>
              && |Names(list).raw| < 0x1_0000
              && list == EncodeEntries(es) + (EncodeEntry(HOST_NAME, Names(list).raw) + rest)
    decreases |list|
  {
    hide U16, EncodeEntry;
    es := [];
    if |list| < 3 {
      rest := list;
      assert list == [] + rest;
    } else {
      var len := U16(list, 1) as nat;
      EntryOf(list);
      var name, later := list[3..3 + len], list[3 + len..];
      if list[0] == HOST_NAME {
        rest := later;
        assert [] + (EncodeEntry(HOST_NAME, name) + rest) == EncodeEntry(HOST_NAME, name) + rest;
      } else {
        var es';
        es', rest := ListOf(later);
        es := [Entry(list[0], name)] + es';
        assert es[1..] == es';
        Regroup(EncodeEntry(list[0], name), EncodeEntries(es'), rest);
        if Names(list).Host? {
          Regroup(EncodeEntry(list[0], name), EncodeEntries(es'), EncodeEntry(HOST_NAME, Names(list).raw) + rest);
        }
      }
    }
  }

  /** Parts of an extension list that ends with the host's extension. */
  datatype Found = Found(before: seq<Extension>, listLen: bytes, entries: seq<Entry>, rest: bytes)

  predicate GoodFound(f: Found, raw: bytes) {
    && GoodExtensions(f.before) && |f.listLen| == 2 && GoodEntries(f.entries) && |raw| < 0x1_0000
    && |HostBody(f.listLen, f.entries, raw, f.rest)| < 0x1_0000
  }

  function FoundBytes(f: Found, raw: bytes): bytes
    requires GoodFound(f, raw)
  {
    EncodeExtensions(f.before) + Block(SERVER_NAME, HostBody(f.listLen, f.entries, raw, f.rest))
  }

  lemma AfterOne(e: Extension, f: Found, raw: bytes, cur: bytes, later: bytes)
    requires GoodExtension(e) && GoodFound(f, raw)
    requires cur == EncodeExtension(e) + later && FoundBytes(f, raw) <= later
    ensures GoodFound(f.(before := [e] + f.before), raw)
    ensures FoundBytes(f.(before := [e] + f.before), raw) <= cur
  {
    hide GoodExtension, EncodeExtension, HostBody, Block;
    var es := [e] + f.before;
    assert es[1..] == f.before;
    Regroup(EncodeExtension(e), EncodeExtensions(f.before), Block(SERVER_NAME, HostBody(f.listLen, f.entries, raw, f.rest)));
    var a, b := EncodeExtension(e), FoundBytes(f, raw);
    assert later == b + later[|b|..];
    Regroup(a, b, later[|b|..]);
  }

  /** A server name extension whose list was not cut. */
  lemma HostExtensionOf(cur: bytes) returns (f: Found)
    requires |cur| >= 6 && U16(cur, 0) == SERVER_NAME && U16(cur, 2) >= 2
    requires |cur| >= 4 + U16(cur, 2) as nat && Names(cur[6..4 + U16(cur, 2)]).Host?
    ensures var raw := Names(cur[6..4 + U16(cur, 2)]).raw;
            GoodFound(f, raw) && FoundBytes(f, raw) <= cur
  {
    hide U16, EncodeEntry, Names, EncodeEntries, Block;
    BlockOf(cur);
    var len := U16(cur, 2) as nat;
    var body := cur[4..4 + len];
    assert body[2..] == cur[6..4 + len] && body == body[..2] + body[2..];
    var es, rest := ListOf(body[2..]);
    f := Found([], body[..2], es, rest);
    assert HostBody(body[..2], es, Names(body[2..]).raw, rest) == body;
    assert [] + Block(SERVER_NAME, body) == Block(SERVER_NAME, body);
  }

  lemma NamelessOf(cur: bytes) returns (e: Extension)
    requires |cur| >= 6 && U16(cur, 0) == SERVER_NAME && U16(cur, 2) >= 2
    requires |cur| >= 4 + U16(cur, 2) as nat && Names(cur[6..4 + U16(cur, 2)]).NoHost?
    ensures GoodExtension(e) && cur == EncodeExtension(e) + cur[4 + U16(cur, 2)..]
  {
    hide U16, EncodeEntry, Names, EncodeEntries, Block;
    BlockOf(cur);
    var len := U16(cur, 2) as nat;
    var body := cur[4..4 + len];
    assert body[2..] == cur[6..4 + len] && body == body[..2] + body[2..];
    var es, stray := ListOf(body[2..]);
    e := Nameless(body[..2], es, stray);
  }

  lemma {:induction false} ExtensionsOf(cur: bytes) returns (f: Found)
    requires Extensions(cur).HostName?
    ensures GoodFound(f, Extensions(cur).raw) && FoundBytes(f, Extensions(cur).raw) <= cur
    decreases |cur|
  {
    hide U16, Names, Block, GoodFound, FoundBytes;
    var kind, len := U16(cur, 0), U16(cur, 2) as nat;
    var later := cur[4 + len..];
    if kind != SERVER_NAME {
      BlockOf(cur);
      f := ExtensionsOf(later);
      AfterOne(Other(kind, cur[4..4 + len]), f, Extensions(cur).raw, cur, later);
      f := f.(before := [Other(kind, cur[4..4 + len])] + f.before);
    } else if Names(cur[6..4 + len]).NoHost? {
      var e := NamelessOf(cur);
      f := ExtensionsOf(later);
      AfterOne(e, f, Extensions(cur).raw, cur, later);
      f := f.(before := [e] + f.before);
    } else {
      f := HostExtensionOf(cur);
    }
  }

  lemma Skip8Of(cur: bytes) returns (b: bytes)
    requires Skip8(cur).Some?
    ensures |b| < 256 && cur == Vec8(b) + Skip8(cur).value
  {
    b := cur[1..1 + cur[0] as nat];
  }

  lemma Skip16Of(cur: bytes) returns (b: bytes)
    requires Skip16(cur).Some?
    ensures |b| < 0x1_0000 && cur == Vec16(b) + Skip16(cur).value
  {
    Be16Of(cur, 0);
    b := cur[2..2 + U16(cur, 0) as nat];
  }

  lemma SkipFixedOf(buf: bytes) returns (record: bytes, handshake: bytes, versionRandom: bytes)
    requires SkipFixed(buf).Some?
    ensures |record| == 4 && |handshake| == 3 && |versionRandom| == 34
    ensures buf == [HANDSHAKE] + record + [CLIENT_HELLO] + handshake + versionRandom + SkipFixed(buf).value
  {
    record, handshake, versionRandom := buf[1..5], buf[6..9], buf[9..43];
  }

  lemma PrefixUnder<T>(a: seq<T>, b: seq<T>, c: seq<T>)
    requires b <= c
    ensures a + b <= a + c
  {
    assert c == b + c[|b|..];
    Regroup(a, b, c[|b|..]);
  }

  /** Whatever a scan accepts begins with a ClientHello up to the extension of that host. */
  lemma HelloOf(buf: bytes) returns (h: Hello)
    requires Scan(buf).HostName?
    ensures GoodHello(h) && h.host == Scan(buf).raw && Build(h) <= buf
  {
    hide SkipFixed, Skip8, Skip16, Extensions, Vec8, Vec16, HostBody, Block, EncodeExtensions;
    var raw := Scan(buf).raw;
    var record, handshake, versionRandom := SkipFixedOf(buf);
    var a := SkipFixed(buf).value;
    var session := Skip8Of(a);
    var b := Skip8(a).value;
    var suites := Skip16Of(b);
    var c := Skip16(b).value;
    var compression := Skip8Of(c);
    var d := Skip8(c).value;
    var e := d[2..];
    var f := ExtensionsOf(e);
    h := Hello(record, handshake, versionRandom, session, suites, compression, d[..2],
               f.before, f.listLen, f.entries, raw, f.rest);
    assert d == h.total + e;
    PrefixUnder(h.total, Tail(h), e);
    PrefixUnder(Vec8(compression), TailTotal(h), d);
    PrefixUnder(Vec16(suites), TailCompression(h), c);
    PrefixUnder(Vec8(session), TailSuites(h), b);
    PrefixUnder(Fixed(h), TailSession(h), a);
  }

  /** However much of a ClientHello has arrived: nothing is found in the first `n` bytes until the
      extension that names the host is complete, and from then on exactly its host is found, whatever
      follows. */
  lemma FoundOnceComplete(h: Hello, rest: bytes, n: nat)
    requires GoodHello(h) && n <= |Build(h) + rest|
    ensures Scan((Build(h) + rest)[..n]) == if n < |Build(h)| then Nothing else HostName(h.host)
  {
    hide Scan, GoodHello, Build;
    HelloPrefix(h, (Build(h) + rest)[..n], rest);
  }

  ghost predicate BeginsWithHello(buf: bytes, raw: bytes) {
    exists h: Hello :: GoodHello(h) && h.host == raw && Build(h) <= buf
  }

  /** The scanner finds a host in exactly the bytes that begin with a ClientHello naming it. */
  lemma FindsExactlyHellos(buf: bytes, raw: bytes)
    ensures Scan(buf) == HostName(raw) <==> BeginsWithHello(buf, raw)
  {
    hide Scan, GoodHello, Build;
    if Scan(buf) == HostName(raw) {
      var h := HelloOf(buf);
    }
    forall h: Hello | GoodHello(h) && h.host == raw && Build(h) <= buf
      ensures Scan(buf) == HostName(raw)
    {
      assert buf + [] == buf && Build(h) + buf[|Build(h)|..] == buf;
      HelloPrefix(h, buf, buf[|Build(h)|..]);
    }
  }

  /** Once a host is found, more bytes cannot change it, nor then what is made of it. */
  lemma Stable(buf: bytes, more: bytes)
    requires Scan(buf).HostName?
    ensures Scan(buf + more) == Scan(buf)
  {
    hide Scan, GoodHello, Build;
    var h := HelloOf(buf);
    var rest := buf[|Build(h)|..] + more;
    assert buf == Build(h) + buf[|Build(h)|..];
    Regroup(Build(h), buf[|Build(h)|..], more);
    HelloPrefix(h, buf + more, rest);
  }
}
