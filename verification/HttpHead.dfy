/** Reading an HTTP request head in chunks: every read is searched only from three bytes before
    where the last search stopped. */
module HttpHead {
  import opened Bytes

  const HEAD_LIMIT: nat := 16 * 1024
  const CHUNK: nat := 2048

  datatype Outcome = Head(head: bytes, pipelined: bytes) | Closed | Failed | TooLarge

  /** A blank line starts at `j`. */
  predicate BlankLineAt(b: bytes, j: nat) {
    j + 4 <= |b| && b[j] == 13 && b[j + 1] == 10 && b[j + 2] == 13 && b[j + 3] == 10
  }

  /** The first blank line at or after `from`. */
  function Position(b: bytes, from: nat): (r: Option<nat>)
    ensures r.Some? ==> from <= r.value && BlankLineAt(b, r.value)
    ensures r.Some? ==> forall j :: from <= j < r.value ==> !BlankLineAt(b, j)
    ensures r.None? ==> forall j :: from <= j ==> !BlankLineAt(b, j)
    decreases |b| - from
  {
    if |b| < from + 4 then None else if BlankLineAt(b, from) then Some(from) else Position(b, from + 1)
  }

  /** The full search: the end of the first blank line. */
  function FindHeadEnd(b: bytes): Option<nat> {
    match Position(b, 0) case None => None case Some(at) => Some(at + 4)
  }

  ghost predicate NoBlankLine(b: bytes) {
    forall j: nat :: !BlankLineAt(b, j)
  }

  /** What the reader may say after `n` reads, in terms of everything read. */
  ghost predicate Reads(chunks: seq<bytes>, fails: bool, n: nat, r: Outcome)
    requires n <= |chunks|
  {
    var all := Flatten(chunks[..n]);
    match r
    case Head(head, pipelined) =>
      && n > 0 && head + pipelined == all && FindHeadEnd(all) == Some(|head|)
      && NoBlankLine(Flatten(chunks[..n - 1])) && |Flatten(chunks[..n - 1])| <= HEAD_LIMIT
    case TooLarge =>
      && n > 0 && NoBlankLine(all) && |all| > HEAD_LIMIT && |Flatten(chunks[..n - 1])| <= HEAD_LIMIT
    case Closed =>
      NoBlankLine(all) && |all| <= HEAD_LIMIT && (if n == |chunks| then !fails else chunks[n] == [])
    case Failed =>
      NoBlankLine(all) && |all| <= HEAD_LIMIT && n == |chunks| && fails
  }

  lemma FlattenSnoc(chunks: seq<bytes>, n: nat)
    requires n < |chunks|
    ensures Flatten(chunks[..n + 1]) == Flatten(chunks[..n]) + chunks[n]
  {
    assert chunks[..n + 1] == chunks[..n] + [chunks[n]];
    FlattenAppend(chunks[..n], [chunks[n]]);
    FlattenSingle(chunks[n]);
  }

  /** Blank lines stay where they are when bytes are appended, and a new one ends in the new bytes. */
  lemma BlankLinesStay(b: bytes, more: bytes, j: nat)
    ensures j + 4 <= |b| ==> BlankLineAt(b + more, j) == BlankLineAt(b, j)
  {}

  /** The slice that is rescanned shows the blank lines of the whole from `from` on. */
  lemma BlankLinesOfSlice(b: bytes, from: nat, j: nat)
    requires from <= |b|
    ensures BlankLineAt(b[from..], j) == BlankLineAt(b, from + j)
  {}

  /** The rescan of the overlap finds what the full search would. */
  lemma RescanFindsFirst(searched: bytes, chunk: bytes)
    requires NoBlankLine(searched)
    ensures var from := if |searched| < 3 then 0 else |searched| - 3;
            var all := searched + chunk;
            && (Position(all[from..], 0).None? ==> NoBlankLine(all))
            && (Position(all[from..], 0).Some? ==> FindHeadEnd(all) == Some(from + Position(all[from..], 0).value + 4)
                                                   && from + Position(all[from..], 0).value + 4 <= |all|)
  {
    var from := if |searched| < 3 then 0 else |searched| - 3;
    var all := searched + chunk;
    forall j: nat | j < from
      ensures !BlankLineAt(all, j)
    {
      BlankLinesStay(searched, chunk, j);
    }
    forall j: nat
      ensures BlankLineAt(all[from..], j) == BlankLineAt(all, from + j)
    {
      BlankLinesOfSlice(all, from, j);
    }
    match Position(all[from..], 0)
    case None =>
      forall j: nat
        ensures !BlankLineAt(all, j)
      {
        if j >= from { assert !BlankLineAt(all[from..], j - from); }
      }
    case Some(pos) =>
      forall j: nat | j < from + pos
        ensures !BlankLineAt(all, j)
      {
        if j >= from { assert !BlankLineAt(all[from..], j - from); }
      }
      assert BlankLineAt(all, from + pos);
  }

  lemma NothingRead(chunks: seq<bytes>)
    ensures Flatten(chunks[..0]) == [] && NoBlankLine([])
  {}

  /** `chunks` is what the reads return, in order; after them, or at an empty one, the stream has
      ended, unless the read after them `fails`. */
  method ReadHead(chunks: seq<bytes>, fails: bool) returns (r: Outcome, n: nat)
    requires forall i :: 0 <= i < |chunks| ==> |chunks[i]| <= CHUNK
    ensures n <= |chunks| && Reads(chunks, fails, n, r)
    ensures r.Head? ==> |r.head| + |r.pipelined| <= HEAD_LIMIT + CHUNK
  {
    NothingRead(chunks);
    hide Flatten, NoBlankLine, Position, BlankLineAt, FindHeadEnd;
    var head: bytes := [];
    var searched := 0;
    n := 0;
    while true
      invariant n <= |chunks| && head == Flatten(chunks[..n]) && searched == |head|
      invariant NoBlankLine(head) && |head| <= HEAD_LIMIT
      decreases |chunks| - n
    {
      if n == |chunks| && fails {
        return Failed, n;
      }
      if n == |chunks| || chunks[n] == [] {
        return Closed, n;
      }
      FlattenSnoc(chunks, n);
      RescanFindsFirst(head, chunks[n]);
      head := head + chunks[n];
      n := n + 1;
      var from := if searched < 3 then 0 else searched - 3;
      match Position(head[from..], 0)
      case Some(pos) =>
        var end := from + pos + 4;
        assert head == head[..end] + head[end..];
        return Head(head[..end], head[end..]), n;
      case None =>
        searched := |head|;
        if |head| > HEAD_LIMIT {
          return TooLarge, n;
        }
    }
  }

  lemma {:induction false} FlattenPrefix(chunks: seq<bytes>, n: nat)
    requires n <= |chunks|
    ensures Flatten(chunks) == Flatten(chunks[..n]) + Flatten(chunks[n..])
  {
    assert chunks == chunks[..n] + chunks[n..];
    FlattenAppend(chunks[..n], chunks[n..]);
  }

  lemma FirstStays(b: bytes, more: bytes)
    requires FindHeadEnd(b).Some?
    ensures FindHeadEnd(b + more) == FindHeadEnd(b)
  {
    var at := Position(b, 0).value;
    forall j: nat | j <= at
      ensures BlankLineAt(b + more, j) == BlankLineAt(b, j)
    {
      BlankLinesStay(b, more, j);
    }
  }

  lemma EndsLater(b: bytes, more: bytes, end: nat)
    requires NoBlankLine(b) && FindHeadEnd(b + more) == Some(end)
    ensures end > |b|
  {
    BlankLinesStay(b, more, end - 4);
  }

  /** The stream ended without a blank line. */
  lemma ClosedMeansNone(chunks: seq<bytes>, fails: bool, n: nat, r: Outcome)
    requires n <= |chunks| && Reads(chunks, fails, n, r)
    requires forall i :: 0 <= i < |chunks| ==> 0 < |chunks[i]| <= CHUNK
    ensures r.Closed? || r.Failed? ==> FindHeadEnd(Flatten(chunks)).None?
  {
    if r.Closed? || r.Failed? { assert chunks[..n] == chunks; }
  }

  lemma HeadIsPrefix(chunks: seq<bytes>, fails: bool, n: nat, r: Outcome)
    requires n <= |chunks| && Reads(chunks, fails, n, r) && r.Head?
    requires forall i :: 0 <= i < |chunks| ==> 0 < |chunks[i]| <= CHUNK
    ensures FindHeadEnd(Flatten(chunks)) == Some(|r.head|) && r.head <= Flatten(chunks)
    ensures |r.head| <= HEAD_LIMIT + CHUNK
  {
    var seen := Flatten(chunks[..n]);
    FlattenPrefix(chunks, n);
    hide Flatten, Position;
    FirstStays(seen, Flatten(chunks[n..]));
    FlattenSnoc(chunks, n - 1);
    Regroup(r.head, r.pipelined, Flatten(chunks[n..]));
  }

  /** How the stream was cut into reads does not matter: a head that ends within the limit is
      returned exactly, and one that ends too far beyond it is refused. */
  lemma {:induction false} ChunkingIsIndependent(chunks: seq<bytes>, fails: bool, n: nat, r: Outcome, end: nat)
    requires forall i :: 0 <= i < |chunks| ==> 0 < |chunks[i]| <= CHUNK
    requires n <= |chunks| && Reads(chunks, fails, n, r)
    requires FindHeadEnd(Flatten(chunks)) == Some(end)
    ensures end <= HEAD_LIMIT ==> r.Head? && end <= |Flatten(chunks)| && r.head == Flatten(chunks)[..end]
    ensures end > HEAD_LIMIT + CHUNK ==> r.TooLarge?
  {
    ClosedMeansNone(chunks, fails, n, r);
    FlattenPrefix(chunks, n);
    hide Flatten, FindHeadEnd;
    if r.Head? {
      HeadIsPrefix(chunks, fails, n, r);
    } else {
      EndsLater(Flatten(chunks[..n]), Flatten(chunks[n..]), end);
    }
  }
}
