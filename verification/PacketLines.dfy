/** Which line of the padding scheme cuts which write: the n-th write a session sends goes by line n of
    the scheme in force, until the first write whose number reaches that scheme's stop. */
module PacketLines {
  import opened Bytes
  import opened Padding
  import opened Records
  import opened Writer

  /** A session's writes, each with the scheme in force and the sizes drawn, and its changes of mode. */
  datatype Op = Write(b: bytes, scheme: Factory, sizes: seq<int>) | SetBuffering(on: bool)

  ghost predicate Next(w: SendState, op: Op, w': SendState) {
    match op
    case Write(b, scheme, sizes) => Sends(w, b, scheme, sizes, w')
    case SetBuffering(on) => w' == w.(buffering := on)
  }

  ghost predicate IsRun(run: seq<SendState>, ops: seq<Op>) {
    && |run| == |ops| + 1
    && run[0] == SendState(false, [], true, 0, [], false)
    && forall i :: 0 <= i < |ops| ==> Next(run[i], ops[i], run[i + 1])
  }

  /** Operation `i` is a write that goes to the connection. */
  predicate GoesOut(run: seq<SendState>, ops: seq<Op>, i: nat)
    requires |run| == |ops| + 1
  {
    i < |ops| && ops[i].Write? && !run[i].buffering
  }

  /** How many writes went to the connection before operation `i`. */
  function SentBefore(run: seq<SendState>, ops: seq<Op>, i: nat): nat
    requires |run| == |ops| + 1 && i <= |ops|
  {
    if i == 0 then 0 else SentBefore(run, ops, i - 1) + if GoesOut(run, ops, i - 1) then 1 else 0
  }

  /** Every write before operation `i` was numbered below the stop of its scheme. */
  ghost predicate BelowStop(run: seq<SendState>, ops: seq<Op>, i: nat)
    requires |run| == |ops| + 1 && i <= |ops|
  {
    forall j: nat :: j < i && GoesOut(run, ops, j) ==> SentBefore(run, ops, j) + 1 < ops[j].scheme.stop
  }

  /** Before operation `i` the session still pads exactly if no write reached its stop, and then its
      counter says how many writes there were. */
  ghost predicate Counts(run: seq<SendState>, ops: seq<Op>, i: nat)
    requires |run| == |ops| + 1 && i <= |ops|
  {
    && (run[i].sendPadding <==> BelowStop(run, ops, i))
    && (run[i].sendPadding ==> run[i].pktCounter == SentBefore(run, ops, i) < 0xffff_ffff)
  }

  lemma OneMore(run: seq<SendState>, ops: seq<Op>, i: nat)
    requires IsRun(run, ops) && i < |ops|
    ensures BelowStop(run, ops, i + 1) <==>
              BelowStop(run, ops, i) && (GoesOut(run, ops, i) ==> SentBefore(run, ops, i) + 1 < ops[i].scheme.stop)
  {}

  lemma {:induction false} RunCounts(run: seq<SendState>, ops: seq<Op>, i: nat)
    requires IsRun(run, ops) && i <= |ops|
    ensures Counts(run, ops, i)
  {
    hide Carried, Attempted, Draws, BelowStop, SchemeFits, SizesFit;
    if i == 0 {
      NothingSent(run, ops);
    } else {
      RunCounts(run, ops, i - 1);
      OneMore(run, ops, i - 1);
      assert Next(run[i - 1], ops[i - 1], run[i]);
    }
  }

  lemma NothingSent(run: seq<SendState>, ops: seq<Op>)
    requires |run| == |ops| + 1
    ensures BelowStop(run, ops, 0)
  {}

  /** The write numbered n is padded if and only if no write up to it reached the stop of its scheme. Then
      it is cut at sizes drawn from line n of the scheme in force; otherwise it is one plain record. */
  lemma LineByNumber(run: seq<SendState>, ops: seq<Op>, i: nat)
    requires IsRun(run, ops) && GoesOut(run, ops, i)
    ensures Positive(ops[i].sizes)
    ensures var (n, w, op) := (SentBefore(run, ops, i) + 1, run[i], ops[i]);
            var attempted := if BelowStop(run, ops, i + 1) then Cut(w.buffer + op.b, op.sizes) else [w.buffer + op.b];
            && Carried(w.records, w.broken, attempted, run[i + 1].records, run[i + 1].broken)
            && (BelowStop(run, ops, i + 1) ==> n < op.scheme.stop && Draws(Tokens(Items(op.scheme, n)), op.sizes))
  {
    RunCounts(run, ops, i);
    OneMore(run, ops, i);
    hide Carried, Draws, BelowStop, SchemeFits, SizesFit, Cut, Tokens, Items;
    assert Next(run[i], ops[i], run[i + 1]);
  }

  lemma {:induction false} NumbersGrow(run: seq<SendState>, ops: seq<Op>, j: nat, i: nat)
    requires |run| == |ops| + 1 && j <= i <= |ops|
    ensures SentBefore(run, ops, j) <= SentBefore(run, ops, i)
  {
    if j < i { NumbersGrow(run, ops, j, i - 1); }
  }

  /** While the scheme stays the same, exactly the writes numbered below its stop are padded. */
  lemma OneScheme(run: seq<SendState>, ops: seq<Op>, i: nat)
    requires IsRun(run, ops) && GoesOut(run, ops, i)
    requires forall j: nat :: j <= i && GoesOut(run, ops, j) ==> ops[j].scheme == ops[i].scheme
    ensures BelowStop(run, ops, i + 1) <==> SentBefore(run, ops, i) + 1 < ops[i].scheme.stop
  {
    forall j: nat | j < i + 1 && GoesOut(run, ops, j)
      ensures SentBefore(run, ops, j) <= SentBefore(run, ops, i) && ops[j].scheme == ops[i].scheme
    {
      NumbersGrow(run, ops, j, i);
    }
  }
}
