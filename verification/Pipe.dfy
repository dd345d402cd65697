/** The synchronous pipe under every stream, as a step relation: any number of readers and
    writers, two unbuffered channels, a mutex among the writers, and closes and deadlines that
    may strike whenever a thread is in a select. */
module Pipe {
  import opened Bytes

  type Tid = nat

  datatype Error = ClosedPipe | Eof | DeadlineExceeded | Custom(code: int)

  /** A writer: passed the first select and wants the mutex; at the second select; or waiting on
      the acknowledgement channel. `partner` names the reader it waits for and is only a trace. */
  datatype Writer =
    | WriterIdle
    | WantsLock(data: bytes)
    | Offering(data: bytes, n: nat)
    | AwaitingAck(data: bytes, n: nat, partner: Tid)

  /** A reader: at its select with room for `cap` bytes; holding the slice of writer `from`,
      starting at `offset`, not yet copied; or sending the count of the bytes it copied. */
  datatype Reader =
    | ReaderIdle
    | Selecting(cap: nat)
    | HoldsSlice(cap: nat, from: Tid, offset: nat)
    | Acking(copied: bytes)

  datatype WriteResult = WriteResult(data: bytes, n: nat, error: Option<Error>)

  /** `memory` is what each writer's argument slice holds now; its caller may reuse it as soon as
      the write has returned. `copies` and `history` list the results of reads, in the order they
      copied, and of the writes that got the mutex, in the order they returned. */
  datatype Pipe = Pipe(
    writers: map<Tid, Writer>, readers: map<Tid, Reader>, memory: map<Tid, bytes>,
    mutex: Option<Tid>, closed: bool, rerr: Option<Error>, werr: Option<Error>,
    copies: seq<bytes>, history: seq<WriteResult>, readErrors: seq<Error>, writeErrors: seq<Error>)
  {
    function W(t: Tid): Writer { if t in writers then writers[t] else WriterIdle }
    function R(t: Tid): Reader { if t in readers then readers[t] else ReaderIdle }
    function Mem(t: Tid): bytes { if t in memory then memory[t] else [] }
  }

  function Fresh(): Pipe {
    Pipe(map[], map[], map[], None, false, None, None, [], [], [], [])
  }

  function ReadCloseError(s: Pipe): Error {
    if s.rerr.None? && s.werr.Some? then s.werr.value else ClosedPipe
  }

  function WriteCloseError(s: Pipe): Error {
    if s.werr.None? && s.rerr.Some? then s.rerr.value else ClosedPipe
  }

  /** The mutex holder returns: it releases the mutex and reports its count. */
  function WriteReturns(s: Pipe, w: Tid, data: bytes, n: nat, error: Option<Error>): Pipe {
    s.(writers := s.writers[w := WriterIdle], mutex := None, history := s.history + [WriteResult(data, n, error)],
       writeErrors := if error.Some? then s.writeErrors + [error.value] else s.writeErrors)
  }

  function AfterOffer(s: Pipe, w: Tid, r: Tid): Pipe
    requires s.W(w).Offering? && s.R(r).Selecting?
  {
    s.(writers := s.writers[w := AwaitingAck(s.W(w).data, s.W(w).n, r)],
       readers := s.readers[r := HoldsSlice(s.R(r).cap, w, s.W(w).n)])
  }

  function AfterCopy(s: Pipe, r: Tid): Pipe
    requires s.R(r).HoldsSlice?
  {
    var slice := Tail(s.Mem(s.R(r).from), s.R(r).offset);
    var copied := if s.R(r).cap < |slice| then slice[..s.R(r).cap] else slice;
    s.(readers := s.readers[r := Acking(copied)], copies := s.copies + [copied])
  }

  /** The writer advances by the count; with nothing left it returns. */
  function AfterAck(s: Pipe, r: Tid, w: Tid): Pipe
    requires s.R(r).Acking? && s.W(w).AwaitingAck?
  {
    var data, n := s.W(w).data, s.W(w).n + |s.R(r).copied|;
    var s1 := s.(readers := s.readers[r := ReaderIdle]);
    if n < |data| then s1.(writers := s.writers[w := Offering(data, n)])
    else WriteReturns(s1, w, data, n, None)
  }

  function ReadFails(s: Pipe, r: Tid, error: Error): Pipe {
    s.(readers := s.readers[r := ReaderIdle], readErrors := s.readErrors + [error])
  }

  datatype Step =
    | StartWrite(w: Tid)            // the first select takes its default case
    | RefuseWrite(w: Tid, late: bool) // the first select finds the pipe closed, or the deadline passed
    | Lock(w: Tid)
    | StartRead(r: Tid, cap: nat)
    | RefuseRead(r: Tid, late: bool)
    | Offer(w: Tid, r: Tid)         // the slice goes through the write channel
    | Copy(r: Tid)
    | Ack(r: Tid, w: Tid)           // the count goes through the read channel
    | StopWrite(w: Tid, late: bool) // the second select takes the closed or the deadline case
    | StopRead(r: Tid, late: bool)
    | StoreReadError(error: Option<Error>)
    | StoreWriteError(error: Option<Error>)
    | CloseDone
    | Reuse(w: Tid, content: bytes) // the caller overwrites its buffer between writes

  ghost predicate Next(s: Pipe, step: Step, s': Pipe) {
    match step
    case StartWrite(w) =>
      s.W(w).WriterIdle? && !s.closed && s' == s.(writers := s.writers[w := WantsLock(s.Mem(w))])
    case RefuseWrite(w, late) =>
      && s.W(w).WriterIdle? && (late || s.closed)
      && s' == s.(writeErrors := s.writeErrors + [if late then DeadlineExceeded else WriteCloseError(s)])
    case Lock(w) =>
      && s.W(w).WantsLock? && s.mutex.None?
      && s' == s.(writers := s.writers[w := Offering(s.W(w).data, 0)], mutex := Some(w))
    case StartRead(r, cap) =>
      s.R(r).ReaderIdle? && !s.closed && s' == s.(readers := s.readers[r := Selecting(cap)])
    case RefuseRead(r, late) =>
      && s.R(r).ReaderIdle? && (late || s.closed)
      && s' == s.(readErrors := s.readErrors + [if late then DeadlineExceeded else ReadCloseError(s)])
    case Offer(w, r) =>
      s.W(w).Offering? && s.R(r).Selecting? && s' == AfterOffer(s, w, r)
    case Copy(r) =>
      s.R(r).HoldsSlice? && s' == AfterCopy(s, r)
    case Ack(r, w) =>
      s.R(r).Acking? && s.W(w).AwaitingAck? && s' == AfterAck(s, r, w)
    case StopWrite(w, late) =>
      && s.W(w).Offering? && (late || s.closed)
      && s' == WriteReturns(s, w, s.W(w).data, s.W(w).n,
                            Some(if late then DeadlineExceeded else WriteCloseError(s)))
    case StopRead(r, late) =>
      && s.R(r).Selecting? && (late || s.closed)
      && s' == ReadFails(s, r, if late then DeadlineExceeded else ReadCloseError(s))
    case StoreReadError(error) =>
      s' == s.(rerr := if s.rerr.Some? then s.rerr else Some(error.GetOr(ClosedPipe)))
    case StoreWriteError(error) =>
      s' == s.(werr := if s.werr.Some? then s.werr else Some(error.GetOr(Eof)))
    case CloseDone =>
      (s.rerr.Some? || s.werr.Some?) && s' == s.(closed := true)
    case Reuse(w, content) =>
      s.W(w).WriterIdle? && s' == s.(memory := s.memory[w := content])
  }

  function Tail(b: bytes, offset: nat): bytes {
    if offset <= |b| then b[offset..] else []
  }

  predicate Busy(r: Reader) {
    r.HoldsSlice? || r.Acking?
  }

  predicate Holding(w: Writer) {
    w.Offering? || w.AwaitingAck?
  }

  /** The bytes the finished writes reported as consumed. */
  function Consumed(history: seq<WriteResult>): bytes {
    if history == [] then []
    else
      var last := history[|history| - 1];
      Consumed(history[..|history| - 1]) + if last.n <= |last.data| then last.data[..last.n] else last.data
  }

  /** What readers have taken of the write in progress. */
  function InFlight(s: Pipe): bytes {
    if s.mutex.None? then []
    else
      match s.W(s.mutex.value)
      case Offering(data, n) => if n <= |data| then data[..n] else data
      case AwaitingAck(data, n, r) =>
        (if n <= |data| then data[..n] else data) + if s.R(r).Acking? then s.R(r).copied else []
      case _ => []
  }

  /** The mutex holder is the one writer past the mutex, and a writer's caller has not touched
      its buffer. */
  ghost predicate WritersInv(s: Pipe) {
    && (forall w: Tid :: Holding(s.W(w)) <==> s.mutex == Some(w))
    && (forall w :: !s.W(w).WriterIdle? ==> s.Mem(w) == s.W(w).data)
    && (forall w :: Holding(s.W(w)) ==> s.W(w).n <= |s.W(w).data|)
  }

  /** A reader has a slice or a count exactly when the mutex holder waits for that reader, and it
      refers to the part of that holder's data not yet consumed. */
  ghost predicate HandshakeInv(s: Pipe) {
    && (forall r :: Busy(s.R(r)) ==> s.mutex.Some? && s.W(s.mutex.value).AwaitingAck?
                                     && s.W(s.mutex.value).partner == r)
    && (forall w :: s.W(w).AwaitingAck? ==> Busy(s.R(s.W(w).partner)))
    && (forall r :: s.R(r).HoldsSlice? ==>
          s.R(r).from == s.mutex.value && s.R(r).offset == s.W(s.mutex.value).n)
    && (forall r :: s.R(r).Acking? ==>
          s.R(r).copied <= Tail(s.W(s.mutex.value).data, s.W(s.mutex.value).n))
  }

  ghost predicate BytesInv(s: Pipe) {
    && Flatten(s.copies) == Consumed(s.history) + InFlight(s)
    && (forall i :: 0 <= i < |s.history| ==>
          s.history[i].n <= |s.history[i].data| &&
          (s.history[i].error.None? ==> s.history[i].n == |s.history[i].data|))
  }

  /** Every failure is a deadline, the other end's stored close error, or, once this end is
      closed too, the plain closed-pipe error. */
  predicate Explained(e: Error, own: Option<Error>, other: Option<Error>) {
    e == DeadlineExceeded || other == Some(e) || (e == ClosedPipe && own.Some?)
  }

  predicate AllExplained(errors: seq<Error>, own: Option<Error>, other: Option<Error>) {
    forall i :: 0 <= i < |errors| ==> Explained(errors[i], own, other)
  }

  ghost predicate ErrorsInv(s: Pipe) {
    && (s.closed ==> s.rerr.Some? || s.werr.Some?)
    && AllExplained(s.readErrors, s.rerr, s.werr)
    && AllExplained(s.writeErrors, s.werr, s.rerr)
  }

  ghost predicate Inv(s: Pipe) {
    WritersInv(s) && HandshakeInv(s) && BytesInv(s) && ErrorsInv(s)
  }

  predicate Sticks(before: Option<Error>, after: Option<Error>) {
    before.Some? ==> after == before
  }

  /** The errors reported so far stay explained, and a new one may be added. */
  lemma StillExplained(errors: seq<Error>, own: Option<Error>, other: Option<Error>,
                       errors': seq<Error>, own': Option<Error>, other': Option<Error>)
    requires AllExplained(errors, own, other) && Sticks(own, own') && Sticks(other, other')
    requires errors' == errors || (|errors'| == |errors| + 1 && errors <= errors' && Explained(errors'[|errors|], own', other'))
    ensures AllExplained(errors', own', other')
  {
    forall i | 0 <= i < |errors'| ensures Explained(errors'[i], own', other') {
      if i < |errors| { assert errors'[i] == errors[i]; }
    }
  }

  /** What a step may do to the errors. */
  ghost predicate ErrorsMove(s: Pipe, s': Pipe) {
    && Sticks(s.rerr, s'.rerr) && Sticks(s.werr, s'.werr)
    && (s.closed ==> s'.closed)
    && (s'.closed ==> s.closed || s'.rerr.Some? || s'.werr.Some?)
    && (s'.readErrors == s.readErrors
        || (s'.readErrors == s.readErrors + [DeadlineExceeded])
        || (s.closed && s'.readErrors == s.readErrors + [ReadCloseError(s)]))
    && (s'.writeErrors == s.writeErrors
        || (s'.writeErrors == s.writeErrors + [DeadlineExceeded])
        || (s.closed && s'.writeErrors == s.writeErrors + [WriteCloseError(s)]))
  }

  lemma StepMovesErrors(s: Pipe, step: Step, s': Pipe)
    requires Next(s, step, s')
    ensures ErrorsMove(s, s')
  {}

  lemma ErrorsKept(s: Pipe, step: Step, s': Pipe)
    requires ErrorsInv(s) && Next(s, step, s')
    ensures ErrorsInv(s')
  {
    hide Next, AllExplained;
    StepMovesErrors(s, step, s');
    StillExplained(s.readErrors, s.rerr, s.werr, s'.readErrors, s'.rerr, s'.werr);
    StillExplained(s.writeErrors, s.werr, s.rerr, s'.writeErrors, s'.werr, s'.rerr);
  }

  /** Steps that leave the mutex, its holder and the busy reader alone. */
  predicate Quiet(step: Step) {
    !(step.Lock? || step.Offer? || step.Copy? || step.Ack? || step.StopWrite?)
  }

  ghost predicate SameHandoff(s: Pipe, s': Pipe) {
    && s'.mutex == s.mutex && s'.copies == s.copies && s'.history == s.history
    && (forall w: Tid :: Holding(s.W(w)) || Holding(s'.W(w)) ==> s'.W(w) == s.W(w))
    && (forall r: Tid :: Busy(s.R(r)) || Busy(s'.R(r)) ==> s'.R(r) == s.R(r))
  }

  lemma QuietStep(s: Pipe, step: Step, s': Pipe)
    requires Next(s, step, s') && Quiet(step)
    ensures SameHandoff(s, s')
  {}

  lemma QuietWriters(s: Pipe, step: Step, s': Pipe)
    requires WritersInv(s) && Next(s, step, s') && Quiet(step)
    ensures WritersInv(s')
  {}

  lemma QuietHandshake(s: Pipe, s': Pipe)
    requires WritersInv(s) && HandshakeInv(s) && SameHandoff(s, s')
    ensures HandshakeInv(s')
  {
    forall r | Busy(s'.R(r)) ensures s.mutex.Some? && s'.W(s.mutex.value) == s.W(s.mutex.value) {
      assert Holding(s.W(s.mutex.value));
    }
    forall w | s'.W(w).AwaitingAck? ensures Busy(s'.R(s'.W(w).partner)) {
      assert Holding(s'.W(w)) && s'.W(w) == s.W(w);
    }
  }

  lemma QuietBytes(s: Pipe, s': Pipe)
    requires WritersInv(s) && HandshakeInv(s) && BytesInv(s) && SameHandoff(s, s')
    ensures BytesInv(s')
  {
    if s.mutex.Some? {
      var w := s.mutex.value;
      assert Holding(s.W(w));
      if s.W(w).AwaitingAck? { assert Busy(s.R(s.W(w).partner)); }
    }
  }

  /** The handoff in progress, if any: its writer, its reader and nobody else. */
  lemma OneHandoff(s: Pipe, w: Tid, r: Tid)
    requires WritersInv(s) && HandshakeInv(s)
    requires s.W(w).AwaitingAck? && Busy(s.R(r))
    ensures s.mutex == Some(w) && s.W(w).partner == r
    ensures forall r' :: Busy(s.R(r')) ==> r' == r
    ensures forall w' :: Holding(s.W(w')) ==> w' == w
  {
    assert Holding(s.W(w));
  }

  lemma NoHandoff(s: Pipe, w: Tid)
    requires WritersInv(s) && HandshakeInv(s) && s.W(w).Offering?
    ensures s.mutex == Some(w) && (forall r :: !Busy(s.R(r)))
    ensures forall w' :: Holding(s.W(w')) ==> w' == w
  {
    assert Holding(s.W(w));
  }

  lemma Unlocked(s: Pipe)
    requires WritersInv(s) && HandshakeInv(s) && s.mutex.None?
    ensures (forall r :: !Busy(s.R(r))) && (forall w :: !Holding(s.W(w)))
  {}

  ghost predicate Handoff(s: Pipe) {
    WritersInv(s) && HandshakeInv(s) && BytesInv(s)
  }

  lemma ConsumedSnoc(history: seq<WriteResult>, last: WriteResult)
    requires last.n <= |last.data|
    ensures Consumed(history + [last]) == Consumed(history) + last.data[..last.n]
  {
    assert (history + [last])[..|history|] == history;
  }

  /** Only writer `w` and reader `r` changed. */
  ghost predicate OnlyTouches(s: Pipe, s': Pipe, w: Tid, r: Tid) {
    && (forall w' :: w' != w ==> s'.W(w') == s.W(w'))
    && (forall r' :: r' != r ==> s'.R(r') == s.R(r'))
  }

  lemma LockKeeps(s: Pipe, w: Tid, s': Pipe)
    requires Handoff(s) && s.W(w).WantsLock? && s.mutex.None?
    requires s' == s.(writers := s.writers[w := Offering(s.W(w).data, 0)], mutex := Some(w))
    ensures Handoff(s')
  {
    Unlocked(s);
    assert OnlyTouches(s, s', w, 0) && s'.R(0) == s.R(0);
    assert InFlight(s') == [];
  }

  lemma OfferKeeps(s: Pipe, w: Tid, r: Tid)
    requires Handoff(s) && s.W(w).Offering? && s.R(r).Selecting?
    ensures Handoff(AfterOffer(s, w, r))
  {
    NoHandoff(s, w);
    assert OnlyTouches(s, AfterOffer(s, w, r), w, r);
    assert InFlight(AfterOffer(s, w, r)) == InFlight(s) + [] == InFlight(s);
  }

  lemma CopyShape(s: Pipe, r: Tid)
    requires s.R(r).HoldsSlice?
    ensures var s' := AfterCopy(s, r);
            && s'.writers == s.writers && s'.mutex == s.mutex && s'.memory == s.memory
            && (forall r' :: r' != r ==> s'.R(r') == s.R(r'))
            && s'.R(r).Acking? && s'.R(r).copied <= Tail(s.Mem(s.R(r).from), s.R(r).offset)
  {
    hide Tail;
  }

  lemma CopyKeeps(s: Pipe, r: Tid)
    requires Handoff(s) && s.R(r).HoldsSlice?
    ensures Handoff(AfterCopy(s, r))
  {
    hide Flatten, Consumed, InFlight, BytesInv, Tail, AfterCopy;
    assert Busy(s.R(r));
    var w, s' := s.mutex.value, AfterCopy(s, r);
    OneHandoff(s, w, r);
    assert Holding(s.W(w));
    CopyShape(s, r);
    assert OnlyTouches(s, s', w, r) && s'.W(w) == s.W(w);
    assert forall w' :: s'.Mem(w') == s.Mem(w');
    CopyAppends(s, r, w);
  }

  lemma CopyAppends(s: Pipe, r: Tid, w: Tid)
    requires s.mutex == Some(w) && s.W(w).AwaitingAck? && s.W(w).partner == r && s.R(r).HoldsSlice?
    requires s.W(w).n <= |s.W(w).data| && BytesInv(s)
    ensures BytesInv(AfterCopy(s, r))
  {
    var s' := AfterCopy(s, r);
    var copied := s'.R(r).copied;
    assert InFlight(s) == s.W(w).data[..s.W(w).n] by { assert InFlight(s) == s.W(w).data[..s.W(w).n] + []; }
    assert InFlight(s') == InFlight(s) + copied;
    CopiedAppends(s.copies, copied, Consumed(s.history), InFlight(s));
  }

  lemma CopiedAppends(copies: seq<bytes>, copied: bytes, consumed: bytes, flight: bytes)
    requires Flatten(copies) == consumed + flight
    ensures Flatten(copies + [copied]) == consumed + (flight + copied)
  {
    FlattenAppend(copies, [copied]);
    FlattenSingle(copied);
  }

  /** With its holder done or back at its select, no reader is busy. */
  ghost predicate Released(s: Pipe, s': Pipe, w: Tid, r: Tid) {
    && s.W(w).AwaitingAck? && OnlyTouches(s, s', w, r) && s'.memory == s.memory && s'.R(r).ReaderIdle?
    && (s'.W(w).WriterIdle? || (s'.W(w).Offering? && s'.W(w).data == s.W(w).data && s'.W(w).n <= |s.W(w).data|))
    && (s'.W(w).Offering? <==> s'.mutex == Some(w)) && (s'.W(w).WriterIdle? <==> s'.mutex == None)
  }

  lemma AckShape(s: Pipe, r: Tid, w: Tid)
    requires s.R(r).Acking? && s.W(w).AwaitingAck? && s.mutex == Some(w)
    ensures Released(s, AfterAck(s, r, w), w, r)
  {}

  lemma AckFits(s: Pipe, r: Tid, w: Tid)
    requires WritersInv(s) && HandshakeInv(s) && s.R(r).Acking? && s.mutex == Some(w) && s.W(w).AwaitingAck?
    ensures s.W(w).n <= |s.W(w).data| && s.R(r).copied <= Tail(s.W(w).data, s.W(w).n)
  {
    assert Holding(s.W(w));
  }

  lemma AckKeepsWriters(s: Pipe, s': Pipe, w: Tid, r: Tid)
    requires WritersInv(s) && s.W(w).AwaitingAck? && (forall w' :: Holding(s.W(w')) ==> w' == w)
    requires Released(s, s', w, r)
    ensures WritersInv(s')
  {
    assert forall w' :: s'.Mem(w') == s.Mem(w');
  }

  lemma AckKeepsHandshake(s: Pipe, s': Pipe, w: Tid, r: Tid)
    requires (forall r' :: Busy(s.R(r')) ==> r' == r) && (forall w' :: Holding(s.W(w')) ==> w' == w)
    requires Released(s, s', w, r)
    ensures HandshakeInv(s')
  {
    assert forall r' :: !Busy(s'.R(r'));
    assert forall w' :: !s'.W(w').AwaitingAck?;
  }

  lemma SliceStep(data: bytes, n: nat, copied: bytes)
    requires n <= |data| && copied <= data[n..]
    ensures data[..n] + copied == data[..n + |copied|]
  {
    assert copied == data[n..][..|copied|];
  }

  lemma AckMovesBytes(s: Pipe, r: Tid, w: Tid)
    requires s.mutex == Some(w) && s.W(w).AwaitingAck? && s.W(w).partner == r && s.R(r).Acking?
    requires s.W(w).n <= |s.W(w).data| && s.R(r).copied <= Tail(s.W(w).data, s.W(w).n) && BytesInv(s)
    ensures BytesInv(AfterAck(s, r, w))
  {
    hide Flatten, Consumed;
    var data, n, copied := s.W(w).data, s.W(w).n, s.R(r).copied;
    SliceStep(data, n, copied);
    if n + |copied| >= |data| {
      ConsumedSnoc(s.history, WriteResult(data, n + |copied|, None));
    }
  }

  lemma StopWriteKeeps(s: Pipe, w: Tid, error: Error)
    requires Handoff(s) && s.W(w).Offering?
    ensures Handoff(WriteReturns(s, w, s.W(w).data, s.W(w).n, Some(error)))
  {
    hide Flatten, Consumed, InFlight, BytesInv, Tail;
    NoHandoff(s, w);
    var s' := WriteReturns(s, w, s.W(w).data, s.W(w).n, Some(error));
    assert OnlyTouches(s, s', w, 0) && s'.R(0) == s.R(0);
    StopMovesBytes(s, w, error);
  }

  lemma StopMovesBytes(s: Pipe, w: Tid, error: Error)
    requires s.mutex == Some(w) && s.W(w).Offering? && s.W(w).n <= |s.W(w).data| && BytesInv(s)
    ensures BytesInv(WriteReturns(s, w, s.W(w).data, s.W(w).n, Some(error)))
  {
    hide Flatten, Consumed;
    ConsumedSnoc(s.history, WriteResult(s.W(w).data, s.W(w).n, Some(error)));
  }

  lemma StepKeepsInv(s: Pipe, step: Step, s': Pipe)
    requires Inv(s) && Next(s, step, s')
    ensures Inv(s')
  {
    hide WritersInv, HandshakeInv, BytesInv, ErrorsInv, AfterOffer, AfterCopy, AfterAck, Released, Tail;
    ErrorsKept(s, step, s');
    match step
    case Lock(w) => LockKeeps(s, w, s');
    case Offer(w, r) => OfferKeeps(s, w, r);
    case Copy(r) => CopyKeeps(s, r);
    case Ack(r, w) =>
      OneHandoff(s, w, r);
      AckShape(s, r, w);
      AckKeepsWriters(s, s', w, r);
      AckKeepsHandshake(s, s', w, r);
      AckFits(s, r, w);
      AckMovesBytes(s, r, w);
    case StopWrite(w, late) =>
      StopWriteKeeps(s, w, if late then DeadlineExceeded else WriteCloseError(s));
    case _ =>
      QuietStep(s, step, s');
      QuietWriters(s, step, s');
      QuietHandshake(s, s');
      QuietBytes(s, s');
  }

  ghost predicate IsRun(run: seq<Pipe>, steps: seq<Step>) {
    && |run| == |steps| + 1
    && run[0] == Fresh()
    && forall i :: 0 <= i < |steps| ==> Next(run[i], steps[i], run[i + 1])
  }

  lemma {:induction false} RunKeepsInv(run: seq<Pipe>, steps: seq<Step>)
    requires IsRun(run, steps)
    ensures Inv(run[|steps|])
    decreases |steps|
  {
    if steps != [] {
      var n := |steps| - 1;
      RunKeepsInv(run[..n + 1], steps[..n]);
      StepKeepsInv(run[n], steps[n], run[n + 1]);
    }
  }

  /** Refinement: in every run the bytes readers copied are, in order, those the returned writes
      reported, followed by what has been taken of the write in progress; a write that reports no
      error consumed everything. */
  lemma BytesReadAreBytesConsumed(run: seq<Pipe>, steps: seq<Step>)
    requires IsRun(run, steps)
    ensures var s := run[|steps|];
            && Flatten(s.copies) == Consumed(s.history) + InFlight(s)
            && (forall i :: 0 <= i < |s.history| ==>
                  s.history[i].n <= |s.history[i].data| &&
                  (s.history[i].error.None? ==> s.history[i].n == |s.history[i].data|))
  {
    RunKeepsInv(run, steps);
  }

  /** A reader between the two channels is the only one, the writer it took its slice from waits
      for it, and that writer's caller has not got its buffer back: it still holds the data. */
  lemma BusyReaderHasWaitingWriter(run: seq<Pipe>, steps: seq<Step>, r: Tid)
    requires IsRun(run, steps)
    requires Busy(run[|steps|].R(r))
    ensures var s := run[|steps|];
            && s.mutex.Some?
            && (var w := s.mutex.value;
                && s.W(w).AwaitingAck? && s.W(w).partner == r
                && (s.R(r).HoldsSlice? ==> s.R(r).from == w)
                && s.Mem(w) == s.W(w).data
                && (forall r' :: Busy(s.R(r')) ==> r' == r))
  {
    RunKeepsInv(run, steps);
    assert Holding(run[|steps|].W(run[|steps|].mutex.value));
  }

  /** Conversely, a writer waits for an acknowledgement only while its reader owes it one. */
  lemma WaitingWriterHasBusyReader(run: seq<Pipe>, steps: seq<Step>, w: Tid)
    requires IsRun(run, steps)
    requires run[|steps|].W(w).AwaitingAck?
    ensures Busy(run[|steps|].R(run[|steps|].W(w).partner)) && run[|steps|].mutex == Some(w)
  {
    RunKeepsInv(run, steps);
    assert Holding(run[|steps|].W(w));
  }

  /** While the read end has not been closed, every failed read reports the deadline or the first
      error the write end was closed with; afterwards also the plain closed-pipe error. The write
      end is symmetric. */
  lemma CloseErrors(run: seq<Pipe>, steps: seq<Step>, e: Error)
    requires IsRun(run, steps)
    ensures var s := run[|steps|];
            && (e in s.readErrors ==> Explained(e, s.rerr, s.werr))
            && (e in s.writeErrors ==> Explained(e, s.werr, s.rerr))
  {
    RunKeepsInv(run, steps);
  }

  /** A stored close error is never replaced. */
  lemma {:induction false} FirstErrorWins(run: seq<Pipe>, steps: seq<Step>, i: nat)
    requires IsRun(run, steps) && i <= |steps|
    ensures run[i].rerr.Some? ==> run[|steps|].rerr == run[i].rerr
    ensures run[i].werr.Some? ==> run[|steps|].werr == run[i].werr
    ensures run[i].closed ==> run[|steps|].closed
    decreases |steps|
  {
    if i < |steps| {
      var n := |steps| - 1;
      FirstErrorWins(run[..n + 1], steps[..n], i);
      assert Next(run[n], steps[n], run[n + 1]);
    }
  }
}
