/** The padding scheme: its text, the factory parsed from it, and the record sizes the factory
    draws for each packet. */
module Padding {
  import opened Bytes
  import opened StringMap

  const CHECK_MARK: int := -1

  const DASH: byte := 45
  const COMMA: byte := 44

  /** The digest of a scheme text is not interpreted. */
  type Digest = bytes -> bytes

  datatype Factory = Factory(scheme: StringMap, rawScheme: bytes, stop: u32, md5: bytes)

  function NewFactory(raw: bytes, md5: Digest): (r: Option<Factory>)
    ensures r.Some? ==> r.value.rawScheme == raw && r.value.md5 == md5(raw)
  {
    var scheme := Parsed(raw);
    if scheme == map[] then None
    else
      var text := if Ascii("stop") in scheme then scheme[Ascii("stop")] else [];
      match Atoi(text)
      case None => None
      case Some(stop) => Some(Factory(scheme, raw, stop % 0x1_0000_0000, md5(raw)))
  }

  /** A factory in use was parsed from its own text. */
  predicate Built(f: Factory, md5: Digest) {
    NewFactory(f.rawScheme, md5) == Some(f)
  }

  /** The process-wide scheme that sessions load before each write. */
  class Store {
    const md5: Digest
    var current: Factory

    ghost predicate Valid()
      reads this
    {
      Built(current, md5)
    }

    constructor (initial: Factory, md5: Digest)
      requires Built(initial, md5)
      ensures Valid() && current == initial && this.md5 == md5
    {
      current := initial;
      this.md5 := md5;
    }

    method UpdatePaddingScheme(raw: bytes) returns (ok: bool)
      requires Valid()
      modifies this
      ensures Valid()
      ensures ok == NewFactory(raw, md5).Some?
      ensures current == NewFactory(raw, md5).GetOr(old(current))
    {
      match NewFactory(raw, md5)
      case None => ok := false;
      case Some(f) => current := f; ok := true;
    }
  }

  /** What one comma-separated item of a packet's line asks for. */
  datatype Token = Skip | Mark | Range(lo: int, hi: int)

  function TokenOf(item: bytes): (t: Token)
    ensures t.Range? ==> 1 <= t.lo <= t.hi
  {
    var minMax := Split(item, DASH);
    if |minMax| == 2 then
      match (Atoi(minMax[0]), Atoi(minMax[1]))
      case (Some(a), Some(b)) =>
        var lo, hi := if a <= b then a else b, if a <= b then b else a;
        if lo <= 0 || hi <= 0 then Skip else Range(lo, hi)
      case _ => Skip
    else if item == Ascii("c") then Mark
    else Skip
  }

  function Tokens(items: seq<bytes>): (r: seq<Token>)
    ensures |r| == |items|
  {
    seq(|items|, i requires 0 <= i < |items| => TokenOf(items[i]))
  }

  /** The items of the line for packet `pkt`; none if the scheme has no such line. */
  function Items(f: Factory, pkt: u32): seq<bytes> {
    if Itoa(pkt) in f.scheme then Split(f.scheme[Itoa(pkt)], COMMA) else []
  }

  /** A draw of sizes the tokens allow: a range of different bounds excludes its upper one. */
  predicate Draws(tokens: seq<Token>, sizes: seq<int>) {
    if tokens == [] then sizes == []
    else
      var before := tokens[..|tokens| - 1];
      match tokens[|tokens| - 1]
      case Skip => Draws(before, sizes)
      case Mark =>
        sizes != [] && sizes[|sizes| - 1] == CHECK_MARK && Draws(before, sizes[..|sizes| - 1])
      case Range(lo, hi) =>
        sizes != [] && lo <= sizes[|sizes| - 1] && (sizes[|sizes| - 1] < hi || sizes[|sizes| - 1] == lo == hi)
        && Draws(before, sizes[..|sizes| - 1])
  }

  method GenerateRecordPayloadSizes(f: Factory, pkt: u32) returns (pktSizes: seq<int>)
    ensures Draws(Tokens(Items(f, pkt)), pktSizes)
  {
    hide TokenOf, Split, Itoa;
    pktSizes := [];
    if Itoa(pkt) in f.scheme {
      var sRanges := Split(f.scheme[Itoa(pkt)], COMMA);
      for i := 0 to |sRanges|
        invariant Draws(Tokens(sRanges)[..i], pktSizes)
      {
        ghost var before := pktSizes;
        assert Tokens(sRanges)[..i + 1][..i] == Tokens(sRanges)[..i];
        match TokenOf(sRanges[i])
        case Skip =>
        case Mark =>
          pktSizes := pktSizes + [CHECK_MARK];
          assert pktSizes[..|pktSizes| - 1] == before;
        case Range(lo, hi) =>
          if lo == hi {
            pktSizes := pktSizes + [lo];
          } else {
            var drawn: int :| 0 <= drawn < hi - lo by { assert 0 <= 0 < hi - lo; }
            pktSizes := pktSizes + [drawn + lo];
          }
          assert pktSizes[..|pktSizes| - 1] == before;
      }
      assert Tokens(sRanges)[..|sRanges|] == Tokens(sRanges);
    }
  }

  /** Sizes whose padding frame can state its own length. */
  predicate SizesFit(sizes: seq<int>) {
    forall i :: 0 <= i < |sizes| ==> sizes[i] == CHECK_MARK || 1 <= sizes[i] <= 0xffff
  }

  /** No range of the scheme reaches past the 16-bit length field. */
  predicate SchemeFits(f: Factory) {
    forall k, i :: k in f.scheme && 0 <= i < |Split(f.scheme[k], COMMA)| ==>
      var t := TokenOf(Split(f.scheme[k], COMMA)[i]);
      t.Range? ==> t.hi <= 0xffff
  }

  /** Whatever is drawn from a scheme with bounded ranges is a check mark or lies in 1..65535. */
  lemma {:induction false} DrawsFit(tokens: seq<Token>, sizes: seq<int>)
    requires Draws(tokens, sizes)
    requires forall i :: 0 <= i < |tokens| ==> tokens[i].Range? ==> 1 <= tokens[i].lo <= tokens[i].hi <= 0xffff
    ensures SizesFit(sizes)
  {
    if tokens != [] {
      var before := tokens[..|tokens| - 1];
      if tokens[|tokens| - 1].Skip? {
        DrawsFit(before, sizes);
      } else {
        DrawsFit(before, sizes[..|sizes| - 1]);
        assert sizes == sizes[..|sizes| - 1] + [sizes[|sizes| - 1]];
      }
    }
  }

  lemma SchemeDrawsFit(f: Factory, pkt: u32, sizes: seq<int>)
    requires SchemeFits(f)
    requires Draws(Tokens(Items(f, pkt)), sizes)
    ensures SizesFit(sizes)
  {
    DrawsFit(Tokens(Items(f, pkt)), sizes);
  }

  /** A line without unreadable items is drawn item by item: a check mark for a mark, and for a range a
      size from its lower bound up to, but without, its upper one, unless the two are the same. */
  lemma {:induction false} DrawsItemByItem(tokens: seq<Token>, sizes: seq<int>)
    requires Skip !in tokens
    ensures Draws(tokens, sizes) <==>
              && |sizes| == |tokens|
              && forall i :: 0 <= i < |tokens| ==>
                   if tokens[i].Mark? then sizes[i] == CHECK_MARK
                   else tokens[i].lo <= sizes[i] && (sizes[i] < tokens[i].hi || sizes[i] == tokens[i].lo == tokens[i].hi)
  {
    if tokens != [] && sizes != [] {
      var (n, m) := (|tokens| - 1, |sizes| - 1);
      DrawsItemByItem(tokens[..n], sizes[..m]);
      assert tokens[n] != Skip;
    }
  }
}
