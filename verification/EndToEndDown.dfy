/** One stream all the way back: the server's writes, the wire, the client's loop, and the pipe from
    which the client's readers read, with the client's own traffic running beside it. */
module EndToEndDown {
  import opened Bytes
  import opened Frames
  import opened Padding
  import opened Receiver
  import opened Traces
  import Delivery
  import Duplex
  import LoopPipe
  import P = Pipe

  datatype Sys = Sys(net: Duplex.Sys, stream: LoopPipe.State)

  ghost predicate Init(s: Sys) {
    Duplex.Init(s.net) && s.stream == LoopPipe.FRESH
  }

  /** The next frame is data for the stream, whose pipe is open. */
  function Pending(net: Duplex.Sys, sid: u32): Option<bytes> {
    Delivery.Pending(net.wire, net.at, net.client, sid)
  }

  datatype Step =
    | Net(d: Duplex.Step)
    | Begin(env: Env, md5: Digest)
    | Inside(p: P.Step)
    | End

  /** While it writes a push the client's loop handles no other frame; everything else goes on. */
  ghost predicate Next(s: Sys, step: Step, s': Sys, sid: u32) {
    match step
    case Net(d) =>
      && (d.Receive? ==> s.stream.push.None? && Pending(s.net, sid).None?)
      && Duplex.Next(s.net, d, s'.net) && s'.stream == s.stream
    case Begin(env, md5) =>
      && Pending(s.net, sid).Some?
      && Duplex.Next(s.net, Duplex.Receive(env, md5), s'.net)
      && LoopPipe.Begins(s.stream, Pending(s.net, sid).value, env.taken, s.net.client.Handed(sid), s'.stream)
    case Inside(p) => s'.net == s.net && LoopPipe.Moves(s.stream, p, s'.stream)
    case End => s'.net == s.net && LoopPipe.Ends(s.stream, s'.stream)
  }

  ghost predicate Inv(s: Sys, sid: u32) {
    && Duplex.Inv(s.net, sid)
    && LoopPipe.Inv(s.stream, s.net.client.Handed(sid), Payload(s.net.got, sid))
  }

  predicate WritesTo(step: Step, sid: u32) {
    step.Net? && step.d.ServerWrite? && step.d.sid == sid
  }

  /** Only receiving changes what the client has handled and handed over. */
  lemma NetMoves(s: Duplex.Sys, d: Duplex.Step, s': Duplex.Sys)
    requires Duplex.Next(s, d, s') && !d.Receive?
    ensures s'.got == s.got && s'.client.handed == s.client.handed
  {
    hide Duplex.Up.Next, Handle, Encode;
  }

  lemma NetKeeps(s: Sys, d: Duplex.Step, s': Sys, sid: u32)
    requires Inv(s, sid) && Next(s, Net(d), s', sid)
    requires WritesTo(Net(d), sid) ==> sid in s.net.up.usable
    ensures Inv(s', sid)
  {
    hide Duplex.Inv, LoopPipe.Inv, Handle, Payload;
    Duplex.StepKeepsInv(s.net, d, s'.net, sid);
    if d.Receive? {
      Delivery.PendingHands(s.net.wire, s.net.at, s.net.client, d.env, d.md5, sid);
    } else {
      NetMoves(s.net, d, s'.net);
    }
    LoopPipe.IdleKeeps(s.stream, s.net.client.Handed(sid), Payload(s.net.got, sid), Payload(s'.net.got, sid));
  }

  /** What beginning a push does to the client. */
  lemma BeginHands(net: Duplex.Sys, env: Env, md5: Digest, net': Duplex.Sys, sid: u32)
    requires Duplex.Inv(net, sid) && Pending(net, sid).Some? && Duplex.Next(net, Duplex.Receive(env, md5), net')
    ensures var data := Pending(net, sid).value;
            && net'.client.Handed(sid) == net.client.Handed(sid) + data[..if env.taken < |data| then env.taken else |data|]
            && net.client.Handed(sid) + data == Payload(net'.got, sid)
  {
    hide Duplex.WireInv, Duplex.WrittenInv, Duplex.UpOpened, Duplex.Up.Inv, Handle;
    Delivery.PendingHands(net.wire, net.at, net.client, env, md5, sid);
    Snoc(net.got, Parse(net.wire[net.at..]).frame);
  }

  lemma BeginKeeps(s: Sys, env: Env, md5: Digest, s': Sys, sid: u32)
    requires Inv(s, sid) && Next(s, Begin(env, md5), s', sid)
    ensures Inv(s', sid)
  {
    hide Duplex.Inv, Duplex.Next, LoopPipe.Inv, Payload, Pending;
    BeginHands(s.net, env, md5, s'.net, sid);
    Duplex.StepKeepsInv(s.net, Duplex.Receive(env, md5), s'.net, sid);
    LoopPipe.BeginKeeps(s.stream, Pending(s.net, sid).value, env.taken, s.net.client.Handed(sid), s'.stream,
                        Payload(s.net.got, sid), Payload(s'.net.got, sid));
  }

  lemma StepKeepsInv(s: Sys, step: Step, s': Sys, sid: u32)
    requires Inv(s, sid) && Next(s, step, s', sid)
    requires WritesTo(step, sid) ==> sid in s.net.up.usable
    ensures Inv(s', sid)
  {
    hide Duplex.Inv, Duplex.Next, LoopPipe.Inv, LoopPipe.Begins, LoopPipe.Moves, LoopPipe.Ends, Payload;
    match step
    case Net(d) => NetKeeps(s, d, s', sid);
    case Begin(env, md5) => BeginKeeps(s, env, md5, s', sid);
    case Inside(p) => LoopPipe.MoveKeeps(s.stream, p, s'.stream, s.net.client.Handed(sid), Payload(s.net.got, sid));
    case End => LoopPipe.EndKeeps(s.stream, s'.stream, s.net.client.Handed(sid), Payload(s.net.got, sid));
  }

  ghost predicate IsRun(run: seq<Sys>, steps: seq<Step>, sid: u32) {
    && |run| == |steps| + 1
    && Init(run[0])
    && forall i :: 0 <= i < |steps| ==> Next(run[i], steps[i], run[i + 1], sid)
  }

  /** The server writes on the stream only while the client has it in its map. */
  ghost predicate WritesOpened(run: seq<Sys>, steps: seq<Step>, sid: u32)
    requires |run| == |steps| + 1
  {
    forall i :: 0 <= i < |steps| && WritesTo(steps[i], sid) ==> sid in run[i].net.up.usable
  }

  /** The server writes on the stream only after it has read something from it. */
  ghost predicate Patient(run: seq<Sys>, steps: seq<Step>, sid: u32)
    requires |run| == |steps| + 1
  {
    forall i :: 0 <= i < |steps| && WritesTo(steps[i], sid) ==> run[i].net.up.server.Handed(sid) != []
  }

  lemma InitInv(s: Sys, sid: u32)
    requires Init(s)
    ensures Inv(s, sid)
  {
    Duplex.FreshInv(s.net, sid);
    LoopPipe.FreshInv(Payload(s.net.got, sid));
  }

  lemma {:induction false} RunKeepsInv(run: seq<Sys>, steps: seq<Step>, sid: u32)
    requires IsRun(run, steps, sid) && WritesOpened(run, steps, sid)
    ensures Inv(run[|steps|], sid)
    decreases |steps|
  {
    hide Inv, Init, Next;
    if steps == [] {
      InitInv(run[0], sid);
    } else {
      var n := |steps| - 1;
      RunKeepsInv(run[..n + 1], steps[..n], sid);
      StepKeepsInv(run[n], steps[n], run[n + 1], sid);
    }
  }

  /** Back to the last reader: if the server wrote on the stream only while the client had it in its
      map, the bytes that the client's reads of it returned are a prefix of the bytes the server wrote
      on it; all of them once the client has read the whole of an unbroken wire and its loop is not in
      a write, while the stream's pipe is open. */
  lemma ReadIsPrefixOfWritten(run: seq<Sys>, steps: seq<Step>, sid: u32)
    requires IsRun(run, steps, sid) && WritesOpened(run, steps, sid)
    ensures var s := run[|steps|];
            && s.stream.Read() <= s.net.Written(sid)
            && (!s.net.broken && s.net.at == |s.net.wire| && s.stream.push.None? && Delivery.Open(s.net.client, sid)
                ==> s.stream.Read() == s.net.Written(sid))
  {
    hide Init, Next, LoopPipe.Inv, Payload;
    var s := run[|steps|];
    RunKeepsInv(run, steps, sid);
    Duplex.HandledIsPrefix(s.net, sid);
    LoopPipe.ReadSoFar(s.stream, s.net.client.Handed(sid), Payload(s.net.got, sid));
  }

  lemma {:induction false} RunKeepsUp(run: seq<Sys>, steps: seq<Step>, sid: u32, i: nat)
    requires IsRun(run, steps, sid) && i <= |steps|
    ensures Duplex.Up.Inv(run[i].net.up) && Duplex.UpOpened(run[i].net)
    decreases i
  {
    hide Duplex.Up.Inv, Duplex.UpOpened, Duplex.Next, Duplex.Init, LoopPipe.Begins, LoopPipe.Moves, LoopPipe.Ends;
    if i == 0 {
      Duplex.FreshUp(run[0].net);
    } else {
      RunKeepsUp(run, steps, sid, i - 1);
      match steps[i - 1]
      case Net(d) => Duplex.UpStep(run[i - 1].net, d, run[i].net);
      case Begin(env, md5) => Duplex.UpStep(run[i - 1].net, Duplex.Receive(env, md5), run[i].net);
      case Inside(_) =>
      case End =>
    }
  }

  /** So it is for a server that reads first. */
  lemma PatientServerIsRead(run: seq<Sys>, steps: seq<Step>, sid: u32)
    requires IsRun(run, steps, sid) && Patient(run, steps, sid)
    ensures WritesOpened(run, steps, sid)
    ensures run[|steps|].stream.Read() <= run[|steps|].net.Written(sid)
  {
    hide Init, Next, Duplex.Up.Inv, Duplex.UpOpened;
    forall i | 0 <= i < |steps| && WritesTo(steps[i], sid)
      ensures sid in run[i].net.up.usable
    {
      RunKeepsUp(run, steps, sid, i);
      Duplex.ReadMeansOpened(run[i].net, sid);
    }
    ReadIsPrefixOfWritten(run, steps, sid);
  }
}
