/** How one write is cut into records of scheme-chosen sizes, padded with waste frames. */
module Records {
  import opened Bytes
  import opened Frames
  import opened Padding

  /** Sizes are check marks or positive. */
  predicate Positive(sizes: seq<int>) {
    forall i :: 0 <= i < |sizes| ==> sizes[i] == CHECK_MARK || 1 <= sizes[i]
  }

  lemma {:induction false} DrawsArePositive(tokens: seq<Token>, sizes: seq<int>)
    requires Draws(tokens, sizes)
    requires forall i :: 0 <= i < |tokens| ==> tokens[i].Range? ==> 1 <= tokens[i].lo
    ensures Positive(sizes)
  {
    if tokens != [] {
      var before := tokens[..|tokens| - 1];
      if tokens[|tokens| - 1].Skip? {
        DrawsArePositive(before, sizes);
      } else {
        DrawsArePositive(before, sizes[..|sizes| - 1]);
        assert sizes == sizes[..|sizes| - 1] + [sizes[|sizes| - 1]];
      }
    }
  }

  /** The bytes of a padding frame with `len` zero bytes of data. */
  function Waste(len: nat): bytes {
    Header(CMD_WASTE, 0, len) + Zeros(len)
  }

  /** The record that ends the payload: padded up to `l` when a whole header fits. */
  function LastRecord(b: bytes, l: nat): bytes {
    if l - |b| - HEADER_SIZE > 0 then b + Waste(l - |b| - HEADER_SIZE) else b
  }

  /** The record a size `l` makes of the payload left: all payload, the last of it with padding,
      or padding alone. */
  function RecordOf(b: bytes, l: int): bytes
    requires 1 <= l
  {
    if |b| > l then b[..l] else if |b| > 0 then LastRecord(b, l) else Waste(l)
  }

  /** The payload left after a first size that does not end the list. */
  function Next(b: bytes, size: int): bytes
    requires size == CHECK_MARK || 1 <= size
  {
    if size == CHECK_MARK then b else if |b| > size then b[size..] else []
  }

  /** The records of a padded write of `b`, one for each size until a check mark finds nothing
      left, and one for whatever remains. */
  function Cut(b: bytes, sizes: seq<int>): seq<bytes>
    requires Positive(sizes)
    decreases sizes
  {
    if sizes == [] then
      if b == [] then [] else [b]
    else if sizes[0] == CHECK_MARK then
      if b == [] then [] else Cut(b, sizes[1..])
    else [RecordOf(b, sizes[0])] + Cut(Next(b, sizes[0]), sizes[1..])
  }

  /** The records `done` come first, and `b` is what sizes `i` onwards still have to cut. */
  predicate CutSoFar(payload: bytes, sizes: seq<int>, i: nat, done: seq<bytes>, b: bytes)
    requires Positive(sizes) && i <= |sizes|
  {
    Cut(payload, sizes) == done + Cut(b, sizes[i..])
  }

  lemma CutOneMore(payload: bytes, sizes: seq<int>, i: nat, done: seq<bytes>, b: bytes)
    requires Positive(sizes) && i < |sizes| && CutSoFar(payload, sizes, i, done, b)
    requires sizes[i] == CHECK_MARK ==> b != []
    ensures sizes[i] == CHECK_MARK ==> CutSoFar(payload, sizes, i + 1, done, b)
    ensures sizes[i] != CHECK_MARK ==>
              var record := RecordOf(b, sizes[i]);
              && CutSoFar(payload, sizes, i + 1, done + [record], Next(b, sizes[i]))
              && done + [record] <= Cut(payload, sizes)
  {
    hide RecordOf;
    assert sizes[i..][1..] == sizes[i + 1..];
    if sizes[i] != CHECK_MARK {
      Regroup(done, [RecordOf(b, sizes[i])], Cut(Next(b, sizes[i]), sizes[i + 1..]));
    }
  }

  lemma CutStart(payload: bytes, sizes: seq<int>)
    requires Positive(sizes)
    ensures CutSoFar(payload, sizes, 0, [], payload)
  {
    assert sizes[0..] == sizes;
  }

  /** Once the loop over the sizes is left, the rest goes out as one record. */
  lemma CutLeft(payload: bytes, sizes: seq<int>, i: nat, done: seq<bytes>, b: bytes)
    requires Positive(sizes) && i <= |sizes| && CutSoFar(payload, sizes, i, done, b)
    requires i == |sizes| || (sizes[i] == CHECK_MARK && b == [])
    ensures Cut(payload, sizes) == if b == [] then done else done + [b]
  {}

  predicate AllWaste(fs: seq<Frame>) {
    forall i :: 0 <= i < |fs| ==> fs[i].cmd == CMD_WASTE && WellFramed(fs[i])
  }

  /** The padding owed by the record that ends the payload, or that follows it. */
  function Owed(n: nat, l: int): int {
    if n == 0 then l else l - n - HEADER_SIZE
  }

  function OwedFrames(n: nat, l: int): seq<Frame> {
    if Owed(n, l) > 0 then [Frame(CMD_WASTE, 0, Zeros(Owed(n, l)))] else []
  }

  /** The waste frames a padded write adds. */
  function Added(n: nat, sizes: seq<int>): (fs: seq<Frame>)
    requires Positive(sizes)
    ensures SizesFit(sizes) ==> AllWaste(fs)
  {
    if sizes == [] then []
    else if sizes[0] == CHECK_MARK then
      if n == 0 then [] else Added(n, sizes[1..])
    else if n > sizes[0] then Added(n - sizes[0], sizes[1..])
    else
      OwedFrames(n, sizes[0]) + Added(0, sizes[1..])
  }

  lemma OwedCarries(b: bytes, l: int, rest: seq<Frame>)
    requires 1 <= l && |b| <= l
    ensures RecordOf(b, l) + EncodeAll(rest) == b + EncodeAll(OwedFrames(|b|, l) + rest)
  {
    var pad := Owed(|b|, l);
    if pad > 0 {
      var f := Frame(CMD_WASTE, 0, Zeros(pad));
      EncodeAllAppend([f], rest);
      EncodeAllSingle(f);
      assert Encode(f) == Waste(pad);
    } else {
      assert [] + rest == rest;
    }
  }

  /** The stream so far is the payload and whole waste frames, and one more size keeps it so. */
  predicate Carries(b: bytes, sizes: seq<int>)
    requires Positive(sizes)
  {
    Flatten(Cut(b, sizes)) == b + EncodeAll(Added(|b|, sizes))
  }

  lemma Unfold(b: bytes, sizes: seq<int>)
    requires sizes != [] && Positive(sizes) && sizes[0] != CHECK_MARK
    ensures Positive(sizes[1..])
    ensures Cut(b, sizes) == [RecordOf(b, sizes[0])] + Cut(Next(b, sizes[0]), sizes[1..])
    ensures Added(|b|, sizes)
              == if |b| > sizes[0] then Added(|b| - sizes[0], sizes[1..])
                 else OwedFrames(|b|, sizes[0]) + Added(0, sizes[1..])
  {
    hide RecordOf, OwedFrames, AllWaste, SizesFit;
  }

  lemma PayloadRecordCarries(b: bytes, sizes: seq<int>)
    requires sizes != [] && Positive(sizes) && 1 <= sizes[0] < |b|
    requires Carries(b[sizes[0]..], sizes[1..])
    ensures Carries(b, sizes)
  {
    hide Flatten, EncodeAll, Cut, Added, AllWaste, SizesFit;
    var head, tail := b[..sizes[0]], b[sizes[0]..];
    Unfold(b, sizes);
    FlattenCons(head, Cut(tail, sizes[1..]));
    Regroup(head, tail, EncodeAll(Added(|tail|, sizes[1..])));
    assert head + tail == b;
  }

  lemma PaddedRecordCarries(b: bytes, sizes: seq<int>)
    requires sizes != [] && Positive(sizes) && 1 <= sizes[0] && |b| <= sizes[0]
    requires Carries([], sizes[1..])
    ensures Carries(b, sizes)
  {
    hide Flatten, EncodeAll, RecordOf, OwedFrames, AllWaste, SizesFit, Cut, Added;
    Unfold(b, sizes);
    FlattenCons(RecordOf(b, sizes[0]), Cut([], sizes[1..]));
    OwedCarries(b, sizes[0], Added(0, sizes[1..]));
  }

  /** Padding and record boundaries are invisible in the byte stream: the records concatenate to
      the payload followed by whole waste frames. */
  lemma {:induction false} CutCarriesPayload(b: bytes, sizes: seq<int>)
    requires Positive(sizes)
    ensures Carries(b, sizes)
    decreases sizes
  {
    if sizes == [] {
      if b != [] { FlattenSingle(b); }
    } else if sizes[0] != CHECK_MARK || b != [] {
      CutCarriesPayload(Next(b, sizes[0]), sizes[1..]);
      if sizes[0] != CHECK_MARK {
        if |b| > sizes[0] { PayloadRecordCarries(b, sizes); } else { PaddedRecordCarries(b, sizes); }
      }
    }
  }

  /** The sizes without the check marks. */
  function NonMarks(sizes: seq<int>): seq<int> {
    if sizes == [] then []
    else if sizes[0] == CHECK_MARK then NonMarks(sizes[1..])
    else [sizes[0]] + NonMarks(sizes[1..])
  }

  function Sum(ls: seq<int>): int {
    if ls == [] then 0 else ls[0] + Sum(ls[1..])
  }

  /** Payload bytes left before the `i`-th record. */
  function Left(n: nat, ls: seq<int>, i: nat): nat
    requires i <= |ls|
  {
    if n > Sum(ls[..i]) then n - Sum(ls[..i]) else 0
  }

  /** The length the scheme intends for a record of size `l` with `r` payload bytes left. */
  function RecordLength(l: int, r: nat): int {
    if r > l || 0 < r < l - HEADER_SIZE then l
    else if r > 0 then r
    else l + HEADER_SIZE
  }

  /** A check mark at `p` is reached with no payload left. */
  predicate Stops(n: nat, sizes: seq<int>, p: int) {
    0 <= p < |sizes| && sizes[p] == CHECK_MARK && n <= Sum(NonMarks(sizes[..p]))
  }

  predicate FirstStop(n: nat, sizes: seq<int>, p: int) {
    Stops(n, sizes, p) && forall q :: 0 <= q < p ==> !Stops(n, sizes, q)
  }

  predicate AllPositive(ls: seq<int>) {
    forall i :: 0 <= i < |ls| ==> 1 <= ls[i]
  }

  lemma {:induction false} NonMarksPositive(sizes: seq<int>)
    requires Positive(sizes)
    ensures AllPositive(NonMarks(sizes))
  {
    if sizes != [] { NonMarksPositive(sizes[1..]); }
  }

  lemma {:induction false} SumPositive(ls: seq<int>)
    requires AllPositive(ls)
    ensures Sum(ls) >= 0
  {
    if ls != [] { SumPositive(ls[1..]); }
  }

  /** Passing the first size moves every later stop down by one. */
  lemma StopsShift(n: nat, sizes: seq<int>, p: nat)
    requires sizes != [] && Positive(sizes) && p < |sizes| - 1
    ensures var m := if sizes[0] == CHECK_MARK then n else if n > sizes[0] then n - sizes[0] else 0;
            Stops(m, sizes[1..], p) == Stops(n, sizes, p + 1)
  {
    assert sizes[..p + 1][1..] == sizes[1..][..p];
    NonMarksPositive(sizes[1..][..p]);
    SumPositive(NonMarks(sizes[1..][..p]));
  }

  lemma LawShift(n: nat, l: int, rest: seq<int>, i: nat)
    requires l >= 1 && AllPositive(rest) && i <= |rest|
    ensures Left(n, [l] + rest, i + 1) == Left(if n > l then n - l else 0, rest, i)
  {
    assert ([l] + rest)[..i + 1][1..] == rest[..i];
    SumPositive(rest[..i]);
  }

  lemma FirstRecordLength(b: bytes, l: int)
    requires 1 <= l
    ensures |RecordOf(b, l)| == RecordLength(l, |b|)
  {}

  lemma LeftStart(n: nat, ls: seq<int>)
    ensures Left(n, ls, 0) == n
  {
    assert ls[..0] == [];
  }

  /** The record-size law: the length of the record each size makes. */
  lemma {:induction false} RecordLengths(b: bytes, sizes: seq<int>, i: nat)
    requires Positive(sizes) && i < |Cut(b, sizes)| && i < |NonMarks(sizes)|
    ensures |Cut(b, sizes)[i]| == RecordLength(NonMarks(sizes)[i], Left(|b|, NonMarks(sizes), i))
    decreases sizes
  {
    hide RecordOf, RecordLength, Left, Sum;
    var l, rest := sizes[0], sizes[1..];
    if l == CHECK_MARK {
      RecordLengths(b, rest, i);
    } else if i == 0 {
      LeftStart(|b|, NonMarks(sizes));
      FirstRecordLength(b, l);
    } else {
      RecordLengths(Next(b, l), rest, i - 1);
      NonMarksPositive(rest);
      LawShift(|b|, l, NonMarks(rest), i - 1);
    }
  }

  /** The record-size law: a record past all the sizes is the last, and is the payload they left. */
  lemma {:induction false} LeftoverLength(b: bytes, sizes: seq<int>, i: nat)
    requires Positive(sizes) && |NonMarks(sizes)| <= i < |Cut(b, sizes)|
    ensures i == |NonMarks(sizes)| && |Cut(b, sizes)[i]| == |b| - Sum(NonMarks(sizes)) > 0
    decreases sizes
  {
    hide RecordOf;
    if sizes != [] {
      var l, rest := sizes[0], sizes[1..];
      NonMarksPositive(rest);
      SumPositive(NonMarks(rest));
      LeftoverLength(Next(b, l), rest, if l == CHECK_MARK then i else i - 1);
    }
  }

  /** The record-size law: how many records there are. */
  lemma {:induction false} RecordCount(b: bytes, sizes: seq<int>)
    requires Positive(sizes)
    ensures var rs, ls := Cut(b, sizes), NonMarks(sizes);
            && (forall p :: FirstStop(|b|, sizes, p) ==> |rs| == |NonMarks(sizes[..p])|)
            && ((forall p :: !Stops(|b|, sizes, p)) ==> |rs| == |ls| + if |b| > Sum(ls) then 1 else 0)
    decreases sizes
  {
    if sizes != [] {
      var l, rest := sizes[0], sizes[1..];
      var b', rs, ls := Next(b, l), Cut(b, sizes), NonMarks(sizes);
      RecordCount(b', rest);
      forall p | 0 <= p < |rest| ensures Stops(|b'|, rest, p) == Stops(|b|, sizes, p + 1) {
        StopsShift(|b|, sizes, p);
      }
      NonMarksPositive(rest);
      SumPositive(NonMarks(rest));
      if l == CHECK_MARK && b == [] {
        assert Stops(0, sizes, 0) && NonMarks(sizes[..0]) == [];
        assert forall p :: FirstStop(|b|, sizes, p) ==> p == 0;
      } else {
        assert !Stops(|b|, sizes, 0) by { assert NonMarks(sizes[..0]) == []; }
        forall p | FirstStop(|b|, sizes, p) ensures |rs| == |NonMarks(sizes[..p])| {
          assert sizes[..p][1..] == rest[..p - 1];
          forall q | 0 <= q < p - 1 ensures !Stops(|b'|, rest, q) {
            assert !Stops(|b|, sizes, q + 1);
          }
          assert FirstStop(|b'|, rest, p - 1);
        }
        if forall p :: !Stops(|b|, sizes, p) {
          forall p: int ensures !Stops(|b'|, rest, p) {
            if 0 <= p < |rest| { assert !Stops(|b|, sizes, p + 1); }
          }
        }
      }
    }
  }
}
