/** Bytes, fixed-width big-endian integers and the few facts about sequences that
    every wire format below needs. */
module Bytes {

  type byte = x: int | 0 <= x < 256
  type bytes = seq<byte>
  type u16 = x: int | 0 <= x < 0x1_0000
  type u32 = x: int | 0 <= x < 0x1_0000_0000

  datatype Option<+T> = None | Some(value: T) {
    function GetOr(default: T): T {
      if None? then default else value
    }
  }

  /** Big-endian encodings. */
  function Be16(n: u16): bytes {
    [n / 256, n % 256]
  }

  function Be32(n: u32): bytes {
    [n / 0x100_0000, n / 0x1_0000 % 256, n / 256 % 256, n % 256]
  }

  /** Big-endian reads at an offset. */
  function U16(b: bytes, at: nat): u16
    requires at + 2 <= |b|
  {
    b[at] as int * 256 + b[at + 1]
  }

  function U32(b: bytes, at: nat): u32
    requires at + 4 <= |b|
  {
    b[at] as int * 0x100_0000 + b[at + 1] as int * 0x1_0000 + b[at + 2] as int * 256 + b[at + 3]
  }

  /** The bytes of a half are its quotient and remainder. */
  lemma Halves(n: u32)
    ensures var (hi, lo) := (n / 0x1_0000, n % 0x1_0000);
            && n / 0x100_0000 == hi / 256 && n / 256 % 256 == lo / 256 && n % 256 == lo % 256
  {
    var (hi, lo) := (n / 0x1_0000, n % 0x1_0000);
    assert n == 0x100_0000 * (hi / 256) + (0x1_0000 * (hi % 256) + lo);
    assert n == 256 * (256 * hi + lo / 256) + lo % 256;
    assert n / 256 == 256 * hi + lo / 256;
  }

  lemma Be32RoundTrip(n: u32)
    ensures U32(Be32(n), 0) == n
  {
    Halves(n);
    var (hi, lo) := (n / 0x1_0000, n % 0x1_0000);
    assert hi == 256 * (hi / 256) + hi % 256 && lo == 256 * (lo / 256) + lo % 256;
  }

  /** The most significant byte comes first. */
  lemma BigEndian()
    ensures Be32(0x0102_0304) == [1, 2, 3, 4] && Be16(0x0102) == [1, 2]
    ensures U32([1, 2, 3, 4], 0) == 0x0102_0304 && U16([1, 2], 0) == 0x0102
  {}

  /** `n` zero bytes. */
  function Zeros(n: nat): (r: bytes)
    ensures |r| == n
  {
    seq(n, _ => 0)
  }

  /** The concatenation of a sequence of sequences. */
  function Flatten<T>(ss: seq<seq<T>>): seq<T> {
    if ss == [] then [] else ss[0] + Flatten(ss[1..])
  }

  lemma {:induction false} FlattenAppend<T>(a: seq<seq<T>>, b: seq<seq<T>>)
    ensures Flatten(a + b) == Flatten(a) + Flatten(b)
  {
    if a == [] {
      assert a + b == b;
    } else {
      assert (a + b)[1..] == a[1..] + b;
      FlattenAppend(a[1..], b);
    }
  }

  lemma FlattenCons<T>(s: seq<T>, ss: seq<seq<T>>)
    ensures Flatten([s] + ss) == s + Flatten(ss)
  {
    assert ([s] + ss)[1..] == ss;
  }

  lemma FlattenSingle<T>(s: seq<T>)
    ensures Flatten([s]) == s
  {
    assert Flatten([s]) == s + Flatten([]);
  }

  /** Dropping a common prefix commutes with being a prefix. */
  lemma PrefixDrop<T>(a: seq<T>, p: seq<T>, b: seq<T>)
    requires p <= a + b
    requires |a| <= |p|
    ensures p == a + p[|a|..] && p[|a|..] <= b
  {
    assert forall i :: 0 <= i < |a| ==> p[i] == (a + b)[i];
    assert p == a + p[|a|..];
    assert p[|a|..] == (a + b)[..|p|][|a|..];
    assert (a + b)[..|p|][|a|..] == b[..|p| - |a|];
  }

  lemma Regroup<T>(a: seq<T>, b: seq<T>, c: seq<T>)
    ensures a + (b + c) == (a + b) + c
  {}

  /** What a prefix of a sum shows of its parts. */
  lemma PrefixAt<T>(a: seq<T>, b: seq<T>, p: seq<T>)
    requires p <= a + b
    ensures |p| >= |a| ==> a <= p && p[|a|..] <= b
    ensures |p| < |a| ==> p <= a
  {
    if |p| >= |a| {
      PrefixDrop(a, p, b);
    } else {
      assert p == (a + b)[..|p|] == a[..|p|];
    }
  }

  /** Passing over the first part of what is needed. */
  lemma PassOver<T>(first: seq<T>, later: seq<T>, rest: seq<T>, p: seq<T>)
    requires p <= first + later + rest
    ensures p <= first + (later + rest)
    ensures |p| >= |first| ==> p[|first|..] <= later + rest
  {
    Regroup(first, later, rest);
    PrefixAt(first, later + rest, p);
  }

  lemma DropDrop<T>(s: seq<T>, a: nat, b: nat)
    requires a + b <= |s|
    ensures s[a..][b..] == s[a + b..]
  {}

  lemma SliceOfSlice<T>(s: seq<T>, lo: nat, hi: nat, a: nat, b: nat)
    requires lo <= hi <= |s| && a <= b <= hi - lo
    ensures s[lo..hi][a..b] == s[lo + a..lo + b]
  {
    var t := s[lo..hi];
    forall i | 0 <= i < b - a
      ensures t[a..b][i] == s[lo + a..lo + b][i]
    {
      assert t[a + i] == s[lo + (a + i)];
    }
  }

  lemma SliceOfSum<T>(a: seq<T>, b: seq<T>, c: seq<T>)
    ensures (a + b + c)[|a|..|a| + |b|] == b
    ensures (a + b + c)[|a| + |b|..|a| + |b| + |c|] == c
  {
    var s := a + b + c;
    assert s[..|a| + |b|] == a + b;
    assert s[|a|..|a| + |b|] == s[..|a| + |b|][|a|..];
  }
}
