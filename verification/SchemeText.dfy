/** The text of a padding scheme, and that a session parses from it exactly what it says: the stop, and
    for each packet its ranges and check marks in order. */
module SchemeText {
  import opened Bytes
  import opened StringMap
  import opened Padding

  predicate Printable(t: Token) {
    t.Mark? || (t.Range? && 1 <= t.lo <= t.hi < INT64_LIMIT)
  }

  function PrintToken(t: Token): bytes
    requires Printable(t)
  {
    if t.Mark? then [99] else Itoa(t.lo) + [DASH] + Itoa(t.hi)
  }

  predicate PrintableLine(ts: seq<Token>) {
    ts != [] && forall i :: 0 <= i < |ts| ==> Printable(ts[i])
  }

  function PrintedTokens(ts: seq<Token>): (r: seq<bytes>)
    requires PrintableLine(ts)
    ensures |r| == |ts|
  {
    seq(|ts|, i requires 0 <= i < |ts| => PrintToken(ts[i]))
  }

  function PrintLine(ts: seq<Token>): bytes
    requires PrintableLine(ts)
  {
    Join(PrintedTokens(ts), COMMA)
  }

  /** The entries of `m` are the stop and a line for each of the packets, and perhaps entries under names
      that are no packet number. */
  ghost predicate Describes(m: StringMap, stop: nat, lines: map<u32, seq<Token>>) {
    && Clean(m)
    && stop < INT64_LIMIT && Ascii("stop") in m && m[Ascii("stop")] == Itoa(stop)
    && (forall k :: k in lines ==> PrintableLine(lines[k]))
    && (forall k: u32 :: Itoa(k) in m <==> k in lines)
    && (forall k: u32 :: k in lines ==> m[Itoa(k)] == PrintLine(lines[k]))
  }

  /** Two bounds give a range in either order, and none unless both are positive. */
  lemma TokenOfRange(a: nat, b: nat)
    requires a < INT64_LIMIT && b < INT64_LIMIT
    ensures TokenOf(Itoa(a) + [DASH] + Itoa(b))
         == if a == 0 || b == 0 then Skip else if a <= b then Range(a, b) else Range(b, a)
  {
    DigitsItoa(a);
    DigitsItoa(b);
    AtoiOfItoa(a);
    AtoiOfItoa(b);
    hide Atoi, Digits, Itoa;
    var parts := [Itoa(a), Itoa(b)];
    assert parts[1..] == [Itoa(b)];
    assert Join(parts, DASH) == Itoa(a) + [DASH] + Itoa(b);
    SplitJoin(parts, DASH);
  }

  lemma TokenOfMark()
    ensures TokenOf([99]) == Mark
  {
    assert Split([99], DASH) == [[99]] by { assert IndexOf([99][1..], DASH) == None; }
    assert Ascii("c") == [99];
  }

  lemma TokenReadsBack(t: Token)
    requires Printable(t)
    ensures TokenOf(PrintToken(t)) == t && COMMA !in PrintToken(t)
  {
    if t.Mark? {
      TokenOfMark();
    } else {
      TokenOfRange(t.lo, t.hi);
      DigitsItoa(t.lo);
      DigitsItoa(t.hi);
    }
  }

  lemma LineReadsBack(ts: seq<Token>)
    requires PrintableLine(ts)
    ensures Tokens(Split(PrintLine(ts), COMMA)) == ts
  {
    hide TokenOf, PrintToken;
    forall i | 0 <= i < |ts|
      ensures TokenOf(PrintedTokens(ts)[i]) == ts[i] && COMMA !in PrintedTokens(ts)[i]
    {
      TokenReadsBack(ts[i]);
    }
    SplitJoin(PrintedTokens(ts), COMMA);
  }

  lemma FactoryOf(raw: bytes, stop: nat, md5: Digest)
    requires stop < INT64_LIMIT && Ascii("stop") in Parsed(raw) && Parsed(raw)[Ascii("stop")] == Itoa(stop)
    ensures NewFactory(raw, md5) == Some(Factory(Parsed(raw), raw, stop % 0x1_0000_0000, md5(raw)))
  {
    AtoiOfItoa(stop);
    hide Atoi, Itoa, Ascii, Parsed;
  }

  /** Whatever the order of the lines: a session that takes up the text pads up to exactly the stop it
      names, cut to 32 bits, and cuts packet `k` by exactly the tokens of line `k`. */
  lemma SchemeReadsBack(m: StringMap, order: seq<bytes>, stop: nat, lines: map<u32, seq<Token>>, md5: Digest)
    requires Visits(order, m.Keys) && Describes(m, stop, lines)
    ensures var r := NewFactory(Printed(m, order), md5);
            && r.Some? && r.value.stop == stop % 0x1_0000_0000 && r.value.md5 == md5(r.value.rawScheme)
            && forall k: u32 :: Tokens(Items(r.value, k)) == if k in lines then lines[k] else []
  {
    RoundTripIffClean(m, order);
    FactoryOf(Printed(m, order), stop, md5);
    hide NewFactory, Atoi, Itoa, Ascii, Printed, Parsed, Clean, PrintableLine, PrintLine, Tokens, Split, Visits;
    var f := NewFactory(Printed(m, order), md5).value;
    assert Tokens([]) == [] by { NoTokens(); }
    forall k: u32
      ensures Tokens(Items(f, k)) == if k in lines then lines[k] else []
    {
      if k in lines { LineReadsBack(lines[k]); }
    }
  }

  lemma NoTokens()
    ensures Tokens([]) == []
  {}
}
