/** What a single call of the pipe's read or write does, in every run and in terms of the call itself:
    how much a read takes, when a write is done, and which error a closed pipe reports. */
module PipeCalls {
  import opened Bytes
  import opened Pipe

  /** Reader `r` called read with room for `cap` bytes at step `i`, and not again before step `j`. */
  ghost predicate ReadCalled(steps: seq<Step>, i: nat, j: nat, r: Tid, cap: nat) {
    && i < j <= |steps| && steps[i] == StartRead(r, cap)
    && forall m :: i < m < j ==> !(steps[m].StartRead? && steps[m].r == r)
  }

  /** Writer `w` called write at step `i`, and not again before step `j`. */
  ghost predicate WriteCalled(steps: seq<Step>, i: nat, j: nat, w: Tid) {
    && i < j <= |steps| && steps[i] == StartWrite(w)
    && forall m :: i < m < j ==> steps[m] != StartWrite(w)
  }

  predicate Reading(r: Reader) {
    r.Selecting? || r.HoldsSlice?
  }

  lemma CapKept(s: Pipe, step: Step, s': Pipe, r: Tid)
    requires Next(s, step, s') && !(step.StartRead? && step.r == r) && Reading(s'.R(r))
    ensures Reading(s.R(r)) && s'.R(r).cap == s.R(r).cap
  {
    hide Tail;
  }

  lemma {:induction false} CapIsTheCallers(run: seq<Pipe>, steps: seq<Step>, i: nat, j: nat, r: Tid, cap: nat)
    requires IsRun(run, steps) && ReadCalled(steps, i, j, r, cap)
    ensures Reading(run[j].R(r)) ==> run[j].R(r).cap == cap
    decreases j
  {
    assert Next(run[j - 1], steps[j - 1], run[j]);
    if i < j - 1 && Reading(run[j].R(r)) {
      CapKept(run[j - 1], steps[j - 1], run[j], r);
      CapIsTheCallers(run, steps, i, j - 1, r, cap);
    }
  }

  lemma DataKept(s: Pipe, step: Step, s': Pipe, w: Tid)
    requires Next(s, step, s') && step != StartWrite(w) && !s'.W(w).WriterIdle?
    ensures !s.W(w).WriterIdle? && s'.W(w).data == s.W(w).data
  {
    hide Tail;
  }

  lemma {:induction false} DataIsTheCallers(run: seq<Pipe>, steps: seq<Step>, i: nat, j: nat, w: Tid)
    requires IsRun(run, steps) && WriteCalled(steps, i, j, w)
    ensures !run[j].W(w).WriterIdle? ==> run[j].W(w).data == run[i].Mem(w)
    decreases j
  {
    assert Next(run[j - 1], steps[j - 1], run[j]);
    if i < j - 1 && !run[j].W(w).WriterIdle? {
      DataKept(run[j - 1], steps[j - 1], run[j], w);
      DataIsTheCallers(run, steps, i, j - 1, w);
    }
  }

  /** A writer past the mutex has data left, unless it had none to begin with. */
  ghost predicate HasMore(s: Pipe) {
    forall w :: Holding(s.W(w)) ==> s.W(w).n < |s.W(w).data| || s.W(w).data == []
  }

  lemma MoreKept(s: Pipe, step: Step, s': Pipe)
    requires HasMore(s) && Next(s, step, s')
    ensures HasMore(s')
  {
    hide Tail;
    forall w | Holding(s'.W(w))
      ensures s'.W(w).n < |s'.W(w).data| || s'.W(w).data == []
    {
      assert Holding(s.W(w)) ==> s.W(w).n < |s.W(w).data| || s.W(w).data == [];
    }
  }

  lemma {:induction false} RunHasMore(run: seq<Pipe>, steps: seq<Step>, j: nat)
    requires IsRun(run, steps) && j <= |steps|
    ensures HasMore(run[j])
    decreases j
  {
    if j > 0 {
      RunHasMore(run, steps, j - 1);
      assert Next(run[j - 1], steps[j - 1], run[j]);
      MoreKept(run[j - 1], steps[j - 1], run[j]);
    }
  }

  lemma InvAt(run: seq<Pipe>, steps: seq<Step>, j: nat)
    requires IsRun(run, steps) && j <= |steps|
    ensures Inv(run[j])
  {
    RunKeepsInv(run[..j + 1], steps[..j]);
  }

  /** Where reader `r` copies: the one writer waiting for it, and what that writer has left. */
  lemma CopySees(s: Pipe, r: Tid)
    requires Inv(s) && HasMore(s) && s.R(r).HoldsSlice?
    ensures s.mutex.Some? && s.W(s.mutex.value).AwaitingAck?
    ensures var w := s.mutex.value;
            && s.W(w).n <= |s.W(w).data| && (s.W(w).n < |s.W(w).data| || s.W(w).data == [])
            && s.R(r).from == w && s.Mem(w) == s.W(w).data && s.R(r).offset == s.W(w).n
  {
    assert Busy(s.R(r)) && Holding(s.W(s.mutex.value));
  }

  function Took(writer: Writer, cap: nat): nat
    requires Holding(writer) && writer.n <= |writer.data|
  {
    if cap < |writer.data| - writer.n then cap else |writer.data| - writer.n
  }

  lemma CopyTakes(s: Pipe, r: Tid, cap: nat, writer: Writer)
    requires s.R(r).HoldsSlice? && s.R(r).cap == cap && Holding(writer) && writer.n <= |writer.data|
    requires s.Mem(s.R(r).from) == writer.data && s.R(r).offset == writer.n
    ensures var got := writer.data[writer.n..writer.n + Took(writer, cap)];
            AfterCopy(s, r).copies == s.copies + [got] && AfterCopy(s, r).R(r) == Acking(got)
  {
    var left := writer.data[writer.n..];
    assert Tail(s.Mem(s.R(r).from), s.R(r).offset) == left;
    assert left[..Took(writer, cap)] == writer.data[writer.n..writer.n + Took(writer, cap)];
    assert left[..|left|] == left;
  }

  /** A read that gets a slice takes the smaller of its room and what the writer has left: the writer's
      bytes from where the last reader stopped. It takes nothing only if it has no room or the write was
      of nothing. */
  lemma ReadTakes(run: seq<Pipe>, steps: seq<Step>, i: nat, j: nat, r: Tid, cap: nat)
    requires IsRun(run, steps) && ReadCalled(steps, i, j, r, cap) && j < |steps| && steps[j] == Copy(r)
    ensures run[j].mutex.Some? && run[j].W(run[j].mutex.value).AwaitingAck?
    ensures var writer := run[j].W(run[j].mutex.value);
            && writer.n <= |writer.data|
            && (var got := writer.data[writer.n..writer.n + Took(writer, cap)];
                && run[j + 1].copies == run[j].copies + [got] && run[j + 1].R(r) == Acking(got)
                && (got == [] <==> cap == 0 || writer.data == []))
  {
    assert Next(run[j], steps[j], run[j + 1]);
    InvAt(run, steps, j);
    RunHasMore(run, steps, j);
    CapIsTheCallers(run, steps, i, j, r, cap);
    hide IsRun, Inv, HasMore, ReadCalled, AfterCopy;
    CopySees(run[j], r);
    CopyTakes(run[j], r, cap, run[j].W(run[j].mutex.value));
  }

  /** An acknowledgement moves the writer on by what the reader took: the write returns, with no error
      and all its bytes, exactly when nothing is left; otherwise it offers the rest. */
  lemma AckFinishesIff(run: seq<Pipe>, steps: seq<Step>, i: nat, j: nat, r: Tid, w: Tid)
    requires IsRun(run, steps) && WriteCalled(steps, i, j, w) && j < |steps| && steps[j] == Ack(r, w)
    ensures run[j].R(r).Acking? && run[j].W(w).AwaitingAck?
    ensures var data, n := run[i].Mem(w), run[j].W(w).n + |run[j].R(r).copied|;
            && run[j].W(w).data == data && n <= |data|
            && (n == |data| ==>
                  && run[j + 1].history == run[j].history + [WriteResult(data, n, None)]
                  && run[j + 1].W(w).WriterIdle? && run[j + 1].mutex.None?)
            && (n < |data| ==>
                  run[j + 1].history == run[j].history && run[j + 1].W(w) == Offering(data, n)
                  && run[j + 1].mutex == Some(w))
            && run[j + 1].R(r).ReaderIdle?
  {
    assert Next(run[j], steps[j], run[j + 1]);
    InvAt(run, steps, j);
    DataIsTheCallers(run, steps, i, j, w);
    hide IsRun, WriteCalled, Consumed, InFlight, Flatten;
    var s := run[j];
    assert Busy(s.R(r)) && Holding(s.W(w));
  }

  /** The first close of an end, if there is one: what `CloseWithError` was called with. */
  function FirstReadClose(steps: seq<Step>): Option<Option<Error>> {
    if steps == [] then None
    else
      var before := FirstReadClose(steps[..|steps| - 1]);
      var last := steps[|steps| - 1];
      if before.None? && last.StoreReadError? then Some(last.error) else before
  }

  function FirstWriteClose(steps: seq<Step>): Option<Option<Error>> {
    if steps == [] then None
    else
      var before := FirstWriteClose(steps[..|steps| - 1]);
      var last := steps[|steps| - 1];
      if before.None? && last.StoreWriteError? then Some(last.error) else before
  }

  /** What the read end then stores, and the write end. */
  function ReadStored(close: Option<Option<Error>>): Option<Error> {
    match close
    case None => None
    case Some(None) => Some(ClosedPipe)
    case Some(Some(e)) => Some(e)
  }

  function WriteStored(close: Option<Option<Error>>): Option<Error> {
    match close
    case None => None
    case Some(None) => Some(Eof)
    case Some(Some(e)) => Some(e)
  }

  lemma StoreMoves(s: Pipe, step: Step, s': Pipe)
    requires Next(s, step, s')
    ensures s'.rerr == if s.rerr.None? && step.StoreReadError? then ReadStored(Some(step.error)) else s.rerr
    ensures s'.werr == if s.werr.None? && step.StoreWriteError? then WriteStored(Some(step.error)) else s.werr
    ensures s'.closed == (s.closed || step.CloseDone?)
  {
    hide Tail;
  }

  lemma {:induction false} StoredIsFirst(run: seq<Pipe>, steps: seq<Step>, j: nat)
    requires IsRun(run, steps) && j <= |steps|
    ensures run[j].rerr == ReadStored(FirstReadClose(steps[..j]))
    ensures run[j].werr == WriteStored(FirstWriteClose(steps[..j]))
    ensures run[j].closed <==> CloseDone in steps[..j]
    decreases j
  {
    if j > 0 {
      StoredIsFirst(run, steps, j - 1);
      assert Next(run[j - 1], steps[j - 1], run[j]);
      StoreMoves(run[j - 1], steps[j - 1], run[j]);
      assert steps[..j][..j - 1] == steps[..j - 1] && steps[..j] == steps[..j - 1] + [steps[j - 1]];
    }
  }

  /** The error a read fails with: the deadline; or, on a closed pipe, what the write end was first
      closed with, end of file if that was no error, unless the read end was closed as well. */
  lemma ReadErrorIs(run: seq<Pipe>, steps: seq<Step>, j: nat)
    requires IsRun(run, steps) && j < |steps| && (steps[j].RefuseRead? || steps[j].StopRead?)
    ensures !steps[j].late ==> CloseDone in steps[..j]
    ensures var (read, write) := (FirstReadClose(steps[..j]), FirstWriteClose(steps[..j]));
            run[j + 1].readErrors == run[j].readErrors + [
              if steps[j].late then DeadlineExceeded
              else if read.Some? || write.None? then ClosedPipe
              else if write.value.None? then Eof else write.value.value]
  {
    assert Next(run[j], steps[j], run[j + 1]);
    StoredIsFirst(run, steps, j);
    hide IsRun, FirstReadClose, FirstWriteClose;
  }

  /** The error a write fails with, and the count of a write that had the mutex: what readers took of
      it. A read end closed without an error is reported as a closed pipe. */
  lemma WriteErrorIs(run: seq<Pipe>, steps: seq<Step>, i: nat, j: nat, w: Tid)
    requires IsRun(run, steps) && j < |steps| && (steps[j].RefuseWrite? || steps[j].StopWrite?) && steps[j].w == w
    ensures !steps[j].late ==> CloseDone in steps[..j]
    ensures var (read, write) := (FirstReadClose(steps[..j]), FirstWriteClose(steps[..j]));
            var error := if steps[j].late then DeadlineExceeded
                         else if write.Some? || read.None? || read.value.None? then ClosedPipe else read.value.value;
            && run[j + 1].writeErrors == run[j].writeErrors + [error]
            && (steps[j].RefuseWrite? ==> run[j + 1].history == run[j].history)
            && (steps[j].StopWrite? && WriteCalled(steps, i, j, w) ==>
                  && run[j].W(w).Offering? && run[j].W(w).n <= |run[i].Mem(w)|
                  && run[j + 1].history == run[j].history + [WriteResult(run[i].Mem(w), run[j].W(w).n, Some(error))]
                  && InFlight(run[j]) == run[i].Mem(w)[..run[j].W(w).n] && run[j + 1].mutex.None?)
  {
    assert Next(run[j], steps[j], run[j + 1]);
    StoredIsFirst(run, steps, j);
    if steps[j].StopWrite? && WriteCalled(steps, i, j, w) {
      DataIsTheCallers(run, steps, i, j, w);
      InvAt(run, steps, j);
      assert Holding(run[j].W(w));
    }
    hide IsRun, FirstReadClose, FirstWriteClose, WriteCalled, Consumed, Flatten;
  }

  lemma OfferSees(s: Pipe, w: Tid)
    requires Inv(s) && s.W(w).Offering?
    ensures s.W(w).n <= |s.W(w).data| && s.Mem(w) == s.W(w).data
  {
    assert Holding(s.W(w));
  }

  /** Whenever a writer offers and a reader selects, the handoff between them can go through, in three
      steps: the reader gets its bytes, and the write returns if they were the last ones. */
  lemma HandoffGoesThrough(s: Pipe, w: Tid, r: Tid) returns (offered: Pipe, copied: Pipe, acked: Pipe)
    requires Inv(s) && s.W(w).Offering? && s.R(r).Selecting?
    ensures Next(s, Offer(w, r), offered) && Next(offered, Copy(r), copied) && Next(copied, Ack(r, w), acked)
    ensures s.W(w).n <= |s.W(w).data|
    ensures var (data, n, took) := (s.W(w).data, s.W(w).n, Took(s.W(w), s.R(r).cap));
            && acked.copies == s.copies + [data[n..n + took]] && acked.R(r).ReaderIdle?
            && (n + took == |data| ==> acked.W(w).WriterIdle? && acked.history == s.history + [WriteResult(data, n + took, None)])
            && (n + took < |data| ==> acked.W(w) == Offering(data, n + took) && acked.history == s.history)
  {
    OfferSees(s, w);
    hide Inv, Next;
    var (data, n, cap) := (s.W(w).data, s.W(w).n, s.R(r).cap);
    offered := AfterOffer(s, w, r);
    copied := AfterCopy(offered, r);
    CopyTakes(offered, r, cap, AwaitingAck(data, n, r));
    CopyShape(offered, r);
    assert copied.history == s.history && copied.W(w) == AwaitingAck(data, n, r);
    hide AfterCopy, Tail, AfterOffer;
    acked := AfterAck(copied, r, w);
    AckMoves(copied, r, w, data, n);
    HandoffSteps(s, w, r);
    hide AfterAck;
  }

  lemma HandoffSteps(s: Pipe, w: Tid, r: Tid)
    ensures s.W(w).Offering? && s.R(r).Selecting? ==> Next(s, Offer(w, r), AfterOffer(s, w, r))
    ensures forall t: Pipe :: t.R(r).HoldsSlice? ==> Next(t, Copy(r), AfterCopy(t, r))
    ensures forall t: Pipe :: t.R(r).Acking? && t.W(w).AwaitingAck? ==> Next(t, Ack(r, w), AfterAck(t, r, w))
  {
    hide AfterCopy, AfterAck, AfterOffer;
  }

  lemma AckMoves(s: Pipe, r: Tid, w: Tid, data: bytes, n: nat)
    requires s.W(w) == AwaitingAck(data, n, r) && s.R(r).Acking?
    ensures var (s', all) := (AfterAck(s, r, w), n + |s.R(r).copied|);
            && s'.R(r).ReaderIdle? && s'.copies == s.copies
            && (all >= |data| ==> s'.W(w).WriterIdle? && s'.history == s.history + [WriteResult(data, all, None)])
            && (all < |data| ==> s'.W(w) == Offering(data, all) && s'.history == s.history)
  {}
}
