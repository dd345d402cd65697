/** QUIC variable-length integers (section 16 of RFC 9000): the top two bits of the first byte give
    the length, 1, 2, 4 or 8, and the rest is big-endian. */
module Varint {
  import opened Bytes

  const MAX_VARINT: nat := 0x3fff_ffff_ffff_ffff

  function Pow256(n: nat): (r: nat)
    ensures r >= 1
  {
    if n == 0 then 1 else 256 * Pow256(n - 1)
  }

  /** The `len` low bytes of `n`, big-endian, and the value of such bytes. */
  function Be(n: nat, len: nat): (r: bytes)
    ensures |r| == len
  {
    if len == 0 then [] else Be(n / 256, len - 1) + [n % 256]
  }

  function Value(b: bytes): nat {
    if b == [] then 0 else Value(b[..|b| - 1]) * 256 + b[|b| - 1] as int
  }

  lemma {:induction false} ValueOfBe(n: nat, len: nat)
    requires n < Pow256(len)
    ensures Value(Be(n, len)) == n
  {
    if len > 0 {
      ValueOfBe(n / 256, len - 1);
      assert Be(n, len)[..len - 1] == Be(n / 256, len - 1);
    }
  }

  lemma {:induction false} TopBitsClear(n: nat, len: nat)
    requires len > 0 && n < 64 * Pow256(len - 1)
    ensures Be(n, len)[0] < 64 && n < Pow256(len)
  {
    if len > 1 { TopBitsClear(n / 256, len - 1); }
  }

  /** The length the encoder chooses. */
  function Len(v: nat): (len: nat)
    ensures len > 0
  {
    if v < 64 then 1 else if v < 16384 then 2 else if v < 0x4000_0000 then 4 else 8
  }

  function Tag(len: nat): nat {
    if len == 1 then 0 else if len == 2 then 1 else if len == 4 then 2 else 3
  }

  /** The length a first byte announces. */
  function ParseLen(first: byte): (len: nat)
    ensures 0 < len <= 8
  {
    if first < 64 then 1 else if first < 128 then 2 else if first < 192 then 4 else 8
  }

  lemma PowersOf256()
    ensures Pow256(0) == 1 && Pow256(1) == 0x100 && Pow256(3) == 0x100_0000 && Pow256(7) == 0x100_0000_0000_0000
  {
    assert Pow256(2) == 0x1_0000;
    assert Pow256(4) == 0x1_0000_0000;
    assert Pow256(5) == 0x100_0000_0000;
    assert Pow256(6) == 0x1_0000_0000_0000;
  }

  lemma FitsItsLength(v: nat)
    requires v <= MAX_VARINT
    ensures v < 64 * Pow256(Len(v) - 1) && v < Pow256(Len(v)) && Be(v, Len(v))[0] < 64
  {
    PowersOf256();
    TopBitsClear(v, Len(v));
  }

  function Put(v: nat): (r: bytes)
    requires v <= MAX_VARINT
    ensures |r| == Len(v)
  {
    FitsItsLength(v);
    var b := Be(v, Len(v));
    [b[0] + 64 * Tag(Len(v))] + b[1..]
  }

  datatype Read = Short | Varint(value: nat, used: nat)

  /** Reads a varint from the front of the buffer; `Short` if it does not hold all of one. */
  function Get(buf: bytes): (r: Read)
    ensures r.Varint? ==> 0 < r.used <= |buf|
  {
    if buf == [] || |buf| < ParseLen(buf[0]) then Short
    else Varint(Value([buf[0] % 64] + buf[1..ParseLen(buf[0])]), ParseLen(buf[0]))
  }

  lemma PutFirst(v: nat)
    requires v <= MAX_VARINT
    ensures ParseLen(Put(v)[0]) == Len(v) && Put(v)[0] % 64 == Be(v, Len(v))[0]
  {
    FitsItsLength(v);
  }

  /** Reading undoes writing, whatever follows. */
  lemma GetPut(v: nat, rest: bytes)
    requires v <= MAX_VARINT
    ensures Get(Put(v) + rest) == Varint(v, Len(v))
  {
    var b, buf := Be(v, Len(v)), Put(v) + rest;
    PutFirst(v);
    FitsItsLength(v);
    assert buf[0] == Put(v)[0];
    assert buf[1..Len(v)] == b[1..];
    assert [b[0]] + b[1..] == b;
    ValueOfBe(v, Len(v));
  }

  /** Any proper prefix of a varint is too short. */
  lemma GetCut(v: nat, p: bytes)
    requires v <= MAX_VARINT && p <= Put(v) && p != Put(v)
    ensures Get(p) == Short
  {
    PutFirst(v);
    if p != [] { assert p[0] == Put(v)[0]; }
  }

  lemma {:induction false} ValueBound(b: bytes)
    requires b != []
    ensures Value(b) < (b[0] + 1) * Pow256(|b| - 1)
  {
    if |b| > 1 {
      ValueBound(b[..|b| - 1]);
    } else {
      assert Value(b) == Value([]) * 256 + b[0];
    }
  }

  /** No encoding of the value is shorter than the one written. */
  lemma PutIsShortest(b: bytes, v: nat)
    requires v <= MAX_VARINT && Get(b).Varint? && Get(b).value == v
    ensures |Put(v)| <= Get(b).used
  {
    var n := Get(b).used;
    ValueBound([b[0] % 64] + b[1..n]);
    PowersOf256();
  }

  lemma ValueSnoc(b: bytes, last: byte)
    ensures Value(b + [last]) == Value(b) * 256 + last
  {
    assert (b + [last])[..|b|] == b;
  }

  lemma ValueOfFour(a: byte, b: byte, c: byte, d: byte)
    ensures Value([a, b]) == a as int * 256 + b
    ensures Value([a, b, c, d]) == U32([a, b, c, d], 0)
  {
    ValueSnoc([], a);
    ValueSnoc([a], b);
    ValueSnoc([a, b], c);
    ValueSnoc([a, b, c], d);
    assert [a, b, c] + [d] == [a, b, c, d] && [a, b] + [c] == [a, b, c] && [a] + [b] == [a, b] && [] + [a] == [a];
  }

  /** The examples of section A.1 of RFC 9000, but for the longest. */
  lemma PublishedExamples()
    ensures Get([0x9d, 0x7f, 0x3e, 0x7d]) == Varint(494_878_333, 4)
    ensures Get([0x7b, 0xbd]) == Varint(15_293, 2)
    ensures Get([0x40, 0x25]) == Varint(37, 2)
  {
    ValueOfFour(0x1d, 0x7f, 0x3e, 0x7d);
    ValueOfFour(0x3b, 0xbd, 0, 0);
    ValueOfFour(0, 0x25, 0, 0);
    hide Value;
    assert [0x9d % 64] + [0x9d, 0x7f, 0x3e, 0x7d][1..4] == [0x1d, 0x7f, 0x3e, 0x7d];
    assert [0x7b % 64] + [0x7b, 0xbd][1..2] == [0x3b, 0xbd];
    assert [0x40 % 64] + [0x40, 0x25][1..2] == [0, 0x25];
  }
}
