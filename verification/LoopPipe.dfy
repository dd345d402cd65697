/** The pipe of one stream as its session's receive loop uses it: the loop is the pipe's only writer
    and writes each push it handles, while any readers read and anyone closes or sets deadlines. */
module LoopPipe {
  import opened Bytes
  import P = Pipe

  /** The thread of the receive loop. */
  const LOOP: P.Tid := 0

  /** A push being written to the pipe. `taken` is how much of it the loop will report as taken,
      `before` what the stream had been handed and `history` the pipe's writes before it. */
  datatype Push = Push(data: bytes, before: bytes, taken: nat, history: seq<P.WriteResult>, started: bool)

  /** The pipe and the push the loop is writing to it, if any. */
  datatype State = State(pipe: P.Pipe, push: Option<Push>)
  {
    function Read(): bytes { Flatten(pipe.copies) }
  }

  const FRESH := State(P.Fresh(), None)

  /** How much of the push the pipe has taken once the write has returned. */
  function Taken(p: Push, pipe: P.Pipe): nat {
    if |pipe.history| > |p.history| then pipe.history[|pipe.history| - 1].n else 0
  }

  predicate StartsWrite(p: P.Step) {
    p.StartWrite? || p.RefuseWrite?
  }

  /** The loop turns to a push for a stream that has been handed `handed`. */
  ghost predicate Begins(s: State, data: bytes, taken: nat, handed: bytes, s': State) {
    && s.push.None?
    && P.Next(s.pipe, P.Reuse(LOOP, data), s'.pipe)
    && s'.push == Some(Push(data, handed, if taken < |data| then taken else |data|, s.pipe.history, false))
  }

  /** The pipe's own steps; only the loop's push is ever written. */
  ghost predicate Moves(s: State, p: P.Step, s': State) {
    && !p.Reuse?
    && (StartsWrite(p) ==> p.w == LOOP && s.push.Some? && !s.push.value.started)
    && P.Next(s.pipe, p, s'.pipe)
    && s'.push == if StartsWrite(p) then Some(s.push.value.(started := true)) else s.push
  }

  /** The write of the push has returned, having taken what the loop reports. */
  ghost predicate Ends(s: State, s': State) {
    && s.push.Some? && s.push.value.started && s.pipe.W(LOOP).WriterIdle?
    && s.push.value.taken == Taken(s.push.value, s.pipe)
    && s' == s.(push := None)
  }

  ghost predicate OnlyLoopWrites(pipe: P.Pipe) {
    forall w: P.Tid :: w != LOOP ==> pipe.W(w).WriterIdle?
  }

  /** Where the write of a push stands: not begun, refused, under way, or returned. */
  ghost predicate Progress(pipe: P.Pipe, p: Push) {
    if pipe.W(LOOP).WriterIdle? then
      || (pipe.history == p.history && (!p.started ==> pipe.Mem(LOOP) == p.data))
      || (p.started && |pipe.history| == |p.history| + 1 && p.history <= pipe.history
          && pipe.history[|p.history|].data == p.data)
    else p.started && pipe.history == p.history && pipe.W(LOOP).data == p.data
  }

  /** Between pushes the pipe has consumed what the stream was handed; during one, the push is what
      comes next in the stream's payload. */
  ghost predicate PushInv(s: State, handed: bytes, payload: bytes) {
    match s.push
    case None => s.pipe.W(LOOP).WriterIdle? && P.Consumed(s.pipe.history) == handed
    case Some(p) =>
      && p.taken <= |p.data| && handed == p.before + p.data[..p.taken]
      && p.before + p.data <= payload
      && P.Consumed(p.history) == p.before
      && Progress(s.pipe, p)
  }

  ghost predicate Inv(s: State, handed: bytes, payload: bytes) {
    P.Inv(s.pipe) && OnlyLoopWrites(s.pipe) && PushInv(s, handed, payload)
  }

  lemma FreshInv(payload: bytes)
    ensures Inv(FRESH, [], payload)
  {}

  /** Between pushes the payload may grow by what is never handed over. */
  lemma IdleKeeps(s: State, handed: bytes, payload: bytes, payload': bytes)
    requires Inv(s, handed, payload) && (s.push.Some? ==> payload' == payload)
    ensures Inv(s, handed, payload')
  {
    hide P.Inv;
  }

  lemma BeginPipe(pipe: P.Pipe, pipe': P.Pipe, data: bytes)
    requires P.Inv(pipe) && P.Next(pipe, P.Reuse(LOOP, data), pipe') && OnlyLoopWrites(pipe)
    ensures P.Inv(pipe') && OnlyLoopWrites(pipe') && pipe'.W(LOOP).WriterIdle?
    ensures pipe'.Mem(LOOP) == data && pipe'.history == pipe.history
  {
    P.StepKeepsInv(pipe, P.Reuse(LOOP, data), pipe');
    hide P.Inv;
    assert forall w :: pipe'.W(w) == pipe.W(w);
  }

  lemma BeginKeeps(s: State, data: bytes, taken: nat, handed: bytes, s': State, payload: bytes, payload': bytes)
    requires Inv(s, handed, payload) && Begins(s, data, taken, handed, s') && handed + data <= payload'
    ensures Inv(s', handed + data[..if taken < |data| then taken else |data|], payload')
  {
    hide P.Inv, P.Next, OnlyLoopWrites, P.Consumed;
    BeginPipe(s.pipe, s'.pipe, data);
  }

  lemma MovesOnly(s: State, p: P.Step, s': State)
    requires Moves(s, p, s') && OnlyLoopWrites(s.pipe)
    ensures OnlyLoopWrites(s'.pipe)
  {
    hide P.Tail;
    forall w: P.Tid | w != LOOP
      ensures s'.pipe.W(w).WriterIdle?
    {
      assert s.pipe.W(w).WriterIdle?;
    }
  }

  /** The pipe's steps move the write of the push along. */
  lemma MovesPush(s: State, p: P.Step, s': State)
    requires Moves(s, p, s') && P.WritersInv(s.pipe) && OnlyLoopWrites(s.pipe)
    requires s.push.Some? && Progress(s.pipe, s.push.value)
    ensures Progress(s'.pipe, s'.push.value)
  {
    hide P.Tail;
  }

  lemma MovesIdle(s: State, p: P.Step, s': State)
    requires Moves(s, p, s') && P.WritersInv(s.pipe) && OnlyLoopWrites(s.pipe)
    requires s.push.None? && s.pipe.W(LOOP).WriterIdle?
    ensures s'.pipe.W(LOOP).WriterIdle? && s'.pipe.history == s.pipe.history
  {
    hide P.Tail;
  }

  lemma PipeWriters(pipe: P.Pipe)
    requires P.Inv(pipe)
    ensures P.WritersInv(pipe)
  {}

  lemma MoveKeeps(s: State, p: P.Step, s': State, handed: bytes, payload: bytes)
    requires Inv(s, handed, payload) && Moves(s, p, s')
    ensures Inv(s', handed, payload)
  {
    MovesOnly(s, p, s');
    hide P.Inv, P.Next, P.Consumed, Progress, OnlyLoopWrites;
    P.StepKeepsInv(s.pipe, p, s'.pipe);
    PipeWriters(s.pipe);
    if s.push.None? { MovesIdle(s, p, s'); } else { MovesPush(s, p, s'); }
  }

  /** What a returned or refused write has consumed. */
  lemma Returned(pipe: P.Pipe, p: Push)
    requires P.BytesInv(pipe) && Progress(pipe, p) && pipe.W(LOOP).WriterIdle?
    ensures Taken(p, pipe) <= |p.data|
    ensures P.Consumed(pipe.history) == P.Consumed(p.history) + p.data[..Taken(p, pipe)]
  {
    if |pipe.history| > |p.history| {
      var last := pipe.history[|p.history|];
      assert pipe.history == p.history + [last];
      P.ConsumedSnoc(p.history, last);
    } else {
      assert P.Consumed(p.history) + p.data[..0] == P.Consumed(p.history);
    }
  }

  lemma EndKeeps(s: State, s': State, handed: bytes, payload: bytes)
    requires Inv(s, handed, payload) && Ends(s, s')
    ensures Inv(s', handed, payload)
  {
    Returned(s.pipe, s.push.value);
  }

  /** Nothing is in flight while the loop is not writing; otherwise part of the push is. */
  lemma InFlightIsOfThePush(pipe: P.Pipe)
    requires P.Inv(pipe) && OnlyLoopWrites(pipe)
    ensures pipe.W(LOOP).WriterIdle? ==> P.InFlight(pipe) == []
    ensures !pipe.W(LOOP).WriterIdle? ==> P.InFlight(pipe) <= pipe.W(LOOP).data
  {
    if pipe.mutex.Some? {
      var w := pipe.mutex.value;
      assert P.Holding(pipe.W(w)) && w == LOOP;
      match pipe.W(w)
      case Offering(_, _) =>
      case AwaitingAck(data, n, r) =>
        assert P.Busy(pipe.R(r));
        if pipe.R(r).Acking? { P.SliceStep(data, n, pipe.R(r).copied); }
    }
  }

  /** What was read is what was handed over between pushes, and at any time the beginning of the
      stream's payload. */
  lemma ReadSoFar(s: State, handed: bytes, payload: bytes)
    requires Inv(s, handed, payload) && handed <= payload
    ensures s.Read() <= payload
    ensures s.push.None? ==> s.Read() == handed
  {
    InFlightIsOfThePush(s.pipe);
    if s.push.Some? && s.pipe.W(LOOP).WriterIdle? { Returned(s.pipe, s.push.value); }
    hide P.InFlight, Flatten, P.Consumed;
    assert P.Consumed(s.pipe.history) + [] == P.Consumed(s.pipe.history);
  }

  /** Between pushes the loop can always turn to the next one; it is then the next thing written, whole;
      and the push is over when its write has returned with the count foreseen. */
  lemma PushCanBegin(s: State, data: bytes, taken: nat, handed: bytes, payload: bytes) returns (begun: State, started: State)
    requires Inv(s, handed, payload) && s.push.None?
    ensures Begins(s, data, taken, handed, begun)
    ensures !s.pipe.closed ==> Moves(begun, P.StartWrite(LOOP), started) && started.pipe.W(LOOP) == P.WantsLock(data)
    ensures s.pipe.closed ==> Moves(begun, P.RefuseWrite(LOOP, false), started)
    ensures taken == 0 && s.pipe.closed ==> Ends(started, started.(push := None))
  {
    var pipe := s.pipe.(memory := s.pipe.memory[LOOP := data]);
    begun := State(pipe, Some(Push(data, handed, if taken < |data| then taken else |data|, s.pipe.history, false)));
    var push := Some(begun.push.value.(started := true));
    if s.pipe.closed {
      started := State(pipe.(writeErrors := pipe.writeErrors + [P.WriteCloseError(pipe)]), push);
    } else {
      started := State(pipe.(writers := pipe.writers[LOOP := P.WantsLock(data)]), push);
    }
  }
}
