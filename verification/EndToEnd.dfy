/** One stream all the way: the client's writes, the wire, the server's loop, and the pipe from which
    the server's readers read. */
module EndToEnd {
  import opened Bytes
  import opened Frames
  import opened Padding
  import opened Receiver
  import opened Traces
  import Delivery
  import LoopPipe
  import Up = Multiplex
  import P = Pipe

  datatype Sys = Sys(up: Up.Sys, stream: LoopPipe.State)

  ghost predicate Init(s: Sys) {
    Up.Init(s.up) && s.stream == LoopPipe.FRESH
  }

  /** The next frame is data for the stream, whose pipe is open. */
  function Pending(up: Up.Sys, sid: u32): Option<bytes> {
    Delivery.Pending(up.w.Wire(), up.at, up.server, sid)
  }

  datatype Step =
    | Net(u: Up.Step)
    | Begin(env: Env, md5: Digest)
    | Inside(p: P.Step)
    | End

  /** While it writes a push the loop handles no other frame; everything else goes on. */
  ghost predicate Next(s: Sys, step: Step, s': Sys, sid: u32) {
    match step
    case Net(u) =>
      && (u.Receive? ==> s.stream.push.None? && Pending(s.up, sid).None?)
      && Up.Next(s.up, u, s'.up) && s'.stream == s.stream
    case Begin(env, md5) =>
      && Pending(s.up, sid).Some?
      && Up.Next(s.up, Up.Receive(env, md5), s'.up)
      && LoopPipe.Begins(s.stream, Pending(s.up, sid).value, env.taken, s.up.server.Handed(sid), s'.stream)
    case Inside(p) => s'.up == s.up && LoopPipe.Moves(s.stream, p, s'.stream)
    case End => s'.up == s.up && LoopPipe.Ends(s.stream, s'.stream)
  }

  ghost predicate Inv(s: Sys, sid: u32) {
    && Up.Inv(s.up)
    && LoopPipe.Inv(s.stream, s.up.server.Handed(sid), Payload(s.up.got, sid))
  }

  /** Only receiving changes what the server has handled and handed over. */
  lemma NetMoves(s: Up.Sys, u: Up.Step, s': Up.Sys)
    requires Up.Next(s, u, s') && !u.Receive?
    ensures s'.got == s.got && s'.server.handed == s.server.handed
  {
    hide Up.Allowed, Handle;
  }

  lemma NetKeeps(s: Sys, u: Up.Step, s': Sys, sid: u32)
    requires Inv(s, sid) && Next(s, Net(u), s', sid)
    ensures Inv(s', sid)
  {
    hide Up.Inv, LoopPipe.Inv, Handle, Payload;
    Up.StepKeepsInv(s.up, u, s'.up);
    if u.Receive? {
      Delivery.PendingHands(s.up.w.Wire(), s.up.at, s.up.server, u.env, u.md5, sid);
    } else {
      NetMoves(s.up, u, s'.up);
    }
    LoopPipe.IdleKeeps(s.stream, s.up.server.Handed(sid), Payload(s.up.got, sid), Payload(s'.up.got, sid));
  }

  /** An open stream has been handed everything handled so far. */
  lemma OpenHasAll(up: Up.Sys, sid: u32)
    requires Up.Inv(up) && Delivery.Open(up.server, sid)
    ensures up.server.Handed(sid) == Payload(up.got, sid)
  {}

  /** What beginning a push does to the server. */
  lemma BeginHands(up: Up.Sys, env: Env, md5: Digest, up': Up.Sys, sid: u32)
    requires Up.Inv(up) && Pending(up, sid).Some? && Up.Next(up, Up.Receive(env, md5), up')
    ensures var data := Pending(up, sid).value;
            && up'.server.Handed(sid) == up.server.Handed(sid) + data[..if env.taken < |data| then env.taken else |data|]
            && up.server.Handed(sid) + data == Payload(up'.got, sid)
  {
    hide Up.Inv, Handle;
    Delivery.PendingHands(up.w.Wire(), up.at, up.server, env, md5, sid);
    Snoc(up.got, Parse(up.w.Wire()[up.at..]).frame);
    hide Payload;
    OpenHasAll(up, sid);
  }

  lemma BeginKeeps(s: Sys, env: Env, md5: Digest, s': Sys, sid: u32)
    requires Inv(s, sid) && Next(s, Begin(env, md5), s', sid)
    ensures Inv(s', sid)
  {
    hide Up.Inv, Up.Next, LoopPipe.Inv, Payload, Pending;
    BeginHands(s.up, env, md5, s'.up, sid);
    Up.StepKeepsInv(s.up, Up.Receive(env, md5), s'.up);
    LoopPipe.BeginKeeps(s.stream, Pending(s.up, sid).value, env.taken, s.up.server.Handed(sid), s'.stream,
                        Payload(s.up.got, sid), Payload(s'.up.got, sid));
  }

  lemma StepKeepsInv(s: Sys, step: Step, s': Sys, sid: u32)
    requires Inv(s, sid) && Next(s, step, s', sid)
    ensures Inv(s', sid)
  {
    hide Up.Inv, Up.Next, LoopPipe.Inv, LoopPipe.Begins, LoopPipe.Moves, LoopPipe.Ends, Payload;
    match step
    case Net(u) => NetKeeps(s, u, s', sid);
    case Begin(env, md5) => BeginKeeps(s, env, md5, s', sid);
    case Inside(p) => LoopPipe.MoveKeeps(s.stream, p, s'.stream, s.up.server.Handed(sid), Payload(s.up.got, sid));
    case End => LoopPipe.EndKeeps(s.stream, s'.stream, s.up.server.Handed(sid), Payload(s.up.got, sid));
  }

  ghost predicate IsRun(run: seq<Sys>, steps: seq<Step>, sid: u32) {
    && |run| == |steps| + 1
    && Init(run[0])
    && forall i :: 0 <= i < |steps| ==> Next(run[i], steps[i], run[i + 1], sid)
  }

  lemma InitInv(s: Sys, sid: u32)
    requires Init(s)
    ensures Inv(s, sid)
  {
    assert Flatten(s.up.w.records) == [] && EncodeAll([]) == [];
    LoopPipe.FreshInv(Payload(s.up.got, sid));
  }

  lemma {:induction false} RunKeepsInv(run: seq<Sys>, steps: seq<Step>, sid: u32)
    requires IsRun(run, steps, sid)
    ensures Inv(run[|steps|], sid)
    decreases |steps|
  {
    hide Inv, Init, Next;
    if steps == [] {
      InitInv(run[0], sid);
    } else {
      var n := |steps| - 1;
      RunKeepsInv(run[..n + 1], steps[..n], sid);
      StepKeepsInv(run[n], steps[n], run[n + 1], sid);
    }
  }

  /** End to end, to the last reader: in every run, the bytes that reads of the stream returned on the
      server are a prefix of the bytes the client wrote on it. */
  lemma ReadIsPrefixOfWritten(run: seq<Sys>, steps: seq<Step>, sid: u32)
    requires IsRun(run, steps, sid)
    ensures run[|steps|].stream.Read() <= run[|steps|].up.Written(sid)
  {
    hide Init, Next, LoopPipe.Inv, Payload;
    var s := run[|steps|];
    RunKeepsInv(run, steps, sid);
    Up.SentPrefixFacts(s.up, s.up.got, sid);
    assert s.up.server.Handed(sid) <= Payload(s.up.got, sid);
    LoopPipe.ReadSoFar(s.stream, s.up.server.Handed(sid), Payload(s.up.got, sid));
  }

  /** And all of them: once the server has read the whole of an unbroken wire, the client's buffer is
      flushed and the loop is not in a write, a stream whose pipe is open has had everything read that
      was written on it. */
  lemma AllWrittenIsRead(run: seq<Sys>, steps: seq<Step>, sid: u32)
    requires IsRun(run, steps, sid) && run[|steps|].stream.push.None?
    requires var up := run[|steps|].up;
             !up.w.broken && up.w.buffer == [] && up.at == |up.w.Wire()| && Delivery.Open(up.server, sid)
    ensures run[|steps|].stream.Read() == run[|steps|].up.Written(sid)
  {
    hide Init, Next, LoopPipe.Inv, Payload;
    var s := run[|steps|];
    RunKeepsInv(run, steps, sid);
    Up.AllHandedOver(s.up, sid);
    OpenHasAll(s.up, sid);
    LoopPipe.ReadSoFar(s.stream, s.up.server.Handed(sid), Payload(s.up.got, sid));
  }
}
