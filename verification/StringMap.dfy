/** The settings text: one `key=value` line for each entry, in whatever order the map
    iterates, and the reader that splits it again. */
module StringMap {
  import opened Bytes

  const NEWLINE: byte := 10
  const EQUALS: byte := 61

  type StringMap = map<bytes, bytes>

  /** The bytes of an ASCII literal. */
  function Ascii(s: string): bytes {
    seq(|s|, i requires 0 <= i < |s| => s[i] as int % 256)
  }

  function IndexOf(s: bytes, c: byte): (r: Option<nat>)
    ensures r.None? ==> c !in s
    ensures r.Some? ==> r.value < |s| && s[r.value] == c && c !in s[..r.value]
  {
    if s == [] then None
    else if s[0] == c then Some(0)
    else
      match IndexOf(s[1..], c)
      case None => None
      case Some(i) =>
        assert s[..i + 1] == [s[0]] + s[1..][..i];
        Some(i + 1)
  }

  lemma {:induction false} IndexAfter(a: bytes, c: byte, rest: bytes)
    requires c !in a
    ensures IndexOf(a + [c] + rest, c) == Some(|a|)
  {
    if a != [] {
      assert (a + [c] + rest)[1..] == a[1..] + [c] + rest;
      IndexAfter(a[1..], c, rest);
    }
  }

  /** Splits at every separator; the empty text has one, empty, piece. */
  function Split(s: bytes, sep: byte): (r: seq<bytes>)
    ensures |r| >= 1
    decreases |s|
  {
    match IndexOf(s, sep)
    case None => [s]
    case Some(i) => [s[..i]] + Split(s[i + 1..], sep)
  }

  function Join(lines: seq<bytes>, sep: byte): bytes {
    if lines == [] then []
    else if |lines| == 1 then lines[0]
    else lines[0] + [sep] + Join(lines[1..], sep)
  }

  lemma {:induction false} SplitPiecesAreClean(s: bytes, sep: byte)
    ensures forall i :: 0 <= i < |Split(s, sep)| ==> sep !in Split(s, sep)[i]
    decreases |s|
  {
    match IndexOf(s, sep)
    case None =>
    case Some(i) => SplitPiecesAreClean(s[i + 1..], sep);
  }

  lemma {:induction false} SplitJoin(lines: seq<bytes>, sep: byte)
    requires lines != []
    requires forall i :: 0 <= i < |lines| ==> sep !in lines[i]
    ensures Split(Join(lines, sep), sep) == lines
  {
    var s := Join(lines, sep);
    if |lines| > 1 {
      var n := |lines[0]|;
      assert s == lines[0] + [sep] + Join(lines[1..], sep);
      IndexAfter(lines[0], sep, Join(lines[1..], sep));
      assert s[..n] == lines[0];
      assert s[n + 1..] == Join(lines[1..], sep);
      SplitJoin(lines[1..], sep);
    }
  }

  /** One line of the settings text, if it has a separator; the first one counts. */
  function Entry(line: bytes): (r: Option<(bytes, bytes)>)
    ensures r.Some? ==> EQUALS !in r.value.0 && line == r.value.0 + [EQUALS] + r.value.1
  {
    match IndexOf(line, EQUALS)
    case None => None
    case Some(i) => Some((line[..i], line[i + 1..]))
  }

  /** The map the lines build up; a later line overrides an earlier one. */
  function FromLines(lines: seq<bytes>): StringMap {
    if lines == [] then map[]
    else
      var m := FromLines(lines[..|lines| - 1]);
      match Entry(lines[|lines| - 1])
      case None => m
      case Some(kv) => m[kv.0 := kv.1]
  }

  function Parsed(text: bytes): StringMap {
    FromLines(Split(text, NEWLINE))
  }

  method FromBytes(text: bytes) returns (m: StringMap)
    ensures m == Parsed(text)
  {
    m := map[];
    var lines := Split(text, NEWLINE);
    for i := 0 to |lines|
      invariant m == FromLines(lines[..i])
    {
      assert lines[..i + 1][..i] == lines[..i];
      match Entry(lines[i])
      case None =>
      case Some(kv) => m := m[kv.0 := kv.1];
    }
    assert lines[..|lines|] == lines;
  }

  function Line(m: StringMap, k: bytes): bytes
    requires k in m
  {
    k + [EQUALS] + m[k]
  }

  /** An order in which the map's keys may be visited: each key exactly once. */
  predicate Visits(order: seq<bytes>, keys: set<bytes>) {
    && (forall i :: 0 <= i < |order| ==> order[i] in keys)
    && (forall k :: k in keys ==> k in order)
    && (forall i, j :: 0 <= i < j < |order| ==> order[i] != order[j])
  }

  function Lines(m: StringMap, order: seq<bytes>): (r: seq<bytes>)
    requires forall i :: 0 <= i < |order| ==> order[i] in m
    ensures |r| == |order|
  {
    seq(|order|, i requires 0 <= i < |order| => Line(m, order[i]))
  }

  function Printed(m: StringMap, order: seq<bytes>): bytes
    requires forall i :: 0 <= i < |order| ==> order[i] in m
  {
    Join(Lines(m, order), NEWLINE)
  }

  method ToBytes(m: StringMap) returns (text: bytes, ghost order: seq<bytes>)
    ensures Visits(order, m.Keys)
    ensures text == Printed(m, order)
    ensures Parsed(text) == m <==> Clean(m)
  {
    var lines := [];
    order := [];
    var rest := m.Keys;
    while rest != {}
      invariant rest <= m.Keys
      invariant Visits(order, m.Keys - rest)
      invariant lines == Lines(m, order)
      decreases rest
    {
      var k :| k in rest;
      lines := lines + [Line(m, k)];
      order := order + [k];
      rest := rest - {k};
    }
    text := Join(lines, NEWLINE);
    RoundTripIffClean(m, order);
  }

  /** No key holds a separator and no value a newline. */
  predicate Clean(m: StringMap) {
    forall k :: k in m ==> EQUALS !in k && NEWLINE !in k && NEWLINE !in m[k]
  }

  lemma {:induction false} FromLinesIsClean(lines: seq<bytes>)
    requires forall i :: 0 <= i < |lines| ==> NEWLINE !in lines[i]
    ensures Clean(FromLines(lines))
  {
    if lines != [] {
      var last := lines[|lines| - 1];
      FromLinesIsClean(lines[..|lines| - 1]);
      match Entry(last)
      case None =>
      case Some(kv) =>
        assert forall i :: 0 <= i < |kv.0| ==> last[i] == kv.0[i];
        assert forall i :: 0 <= i < |kv.1| ==> last[|kv.0| + 1 + i] == kv.1[i];
    }
  }

  lemma EntryOfLine(m: StringMap, k: bytes)
    requires k in m && EQUALS !in k
    ensures Entry(Line(m, k)) == Some((k, m[k]))
  {
    var line := Line(m, k);
    IndexAfter(k, EQUALS, m[k]);
    assert line[..|k|] == k && line[|k| + 1..] == m[k];
  }

  lemma {:induction false} FromLinesOfLines(m: StringMap, order: seq<bytes>)
    requires Clean(m)
    requires forall i :: 0 <= i < |order| ==> order[i] in m
    ensures FromLines(Lines(m, order)) == map k | k in m && k in order :: m[k]
  {
    if order != [] {
      var n := |order| - 1;
      FromLinesOfLines(m, order[..n]);
      assert Lines(m, order)[..n] == Lines(m, order[..n]);
      EntryOfLine(m, order[n]);
      assert order == order[..n] + [order[n]];
    }
  }

  /** The settings text survives printing and reading, in every iteration order, exactly when
      the keys and values are clean. */
  lemma RoundTripIffClean(m: StringMap, order: seq<bytes>)
    requires Visits(order, m.Keys)
    ensures Parsed(Printed(m, order)) == m <==> Clean(m)
  {
    var text := Printed(m, order);
    SplitPiecesAreClean(text, NEWLINE);
    FromLinesIsClean(Split(text, NEWLINE));
    if Clean(m) {
      var lines := Lines(m, order);
      FromLinesOfLines(m, order);
      if lines == [] {
        assert Split(text, NEWLINE) == [[]];
        assert Entry([]) == None;
        assert FromLines([[]]) == FromLines([[]][..0]) == map[];
      } else {
        forall i | 0 <= i < |lines| ensures NEWLINE !in lines[i] {
          assert lines[i] == Line(m, order[i]);
        }
        SplitJoin(lines, NEWLINE);
      }
      assert Parsed(text) == FromLines(lines);
      assert (map k | k in m && k in order :: m[k]) == m;
    }
  }

  /** Decimal text as the source's 64-bit parser reads it: an optional sign, then digits. */
  function Digits(s: bytes): (r: Option<nat>) {
    if s == [] then None
    else if !(48 <= s[|s| - 1] <= 57) then None
    else if |s| == 1 then Some((s[0] - 48) as nat)
    else
      match Digits(s[..|s| - 1])
      case None => None
      case Some(n) => Some(n * 10 + (s[|s| - 1] - 48) as nat)
  }

  const INT64_LIMIT: int := 0x8000_0000_0000_0000

  function Atoi(s: bytes): (r: Option<int>)
    ensures r.Some? ==> -INT64_LIMIT <= r.value < INT64_LIMIT
  {
    var negative := s != [] && s[0] == 45;
    var body := if s != [] && s[0] in {43, 45} then s[1..] else s;
    match Digits(body)
    case None => None
    case Some(n) =>
      var v: int := if negative then -(n as int) else n;
      if -INT64_LIMIT <= v < INT64_LIMIT then Some(v) else None
  }

  function Itoa(n: nat): bytes {
    if n < 10 then [48 + n] else Itoa(n / 10) + [48 + n % 10]
  }

  lemma {:induction false} DigitsItoa(n: nat)
    ensures Itoa(n) != [] && (forall i :: 0 <= i < |Itoa(n)| ==> 48 <= Itoa(n)[i] <= 57)
    ensures Digits(Itoa(n)) == Some(n)
  {
    if n >= 10 {
      DigitsItoa(n / 10);
      assert Itoa(n)[..|Itoa(n)| - 1] == Itoa(n / 10);
    }
  }

  /** Exactly the non-empty texts of decimal digits are numbers. */
  lemma {:induction false} DigitsIff(s: bytes)
    ensures Digits(s).Some? <==> s != [] && forall i :: 0 <= i < |s| ==> 48 <= s[i] <= 57
  {
    if |s| > 1 { DigitsIff(s[..|s| - 1]); }
  }

  /** The number a decimal text gives, with and without a sign, as far as 64 bits hold it. */
  lemma AtoiOfItoa(n: nat)
    ensures Atoi(Itoa(n)) == Atoi([43] + Itoa(n)) == if n < INT64_LIMIT then Some(n) else None
    ensures var v: int := n;
            Atoi([45] + Itoa(n)) == if n <= INT64_LIMIT then Some(-v) else None
  {
    DigitsItoa(n);
    assert ([43] + Itoa(n))[1..] == Itoa(n) && ([45] + Itoa(n))[1..] == Itoa(n);
  }
}
