/** When a stream is in a session's map, and when its pipe is open, in terms of what happened in the
    run: on the server of `ClientToServer`, and on the client of `Duplex`. */
module StreamLife {
  import opened Bytes
  import opened Frames
  import opened Padding
  import opened Receiver
  import opened Traces
  import opened Delivery
  import C = ClientToServer
  import Commands
  import Duplex
  import Runs
  import Up = Multiplex

  predicate Reads(s: Up.Sys, step: Up.Step, cmd: byte, sid: u32) {
    step.Receive? && C.NextRead(s).Some? && C.NextRead(s).value.cmd == cmd && C.NextRead(s).value.sid == sid
  }

  /** The server reads a FIN for the stream, or its own side deletes it. */
  predicate Removed(s: Up.Sys, step: Up.Step, sid: u32) {
    Reads(s, step, CMD_FIN, sid) || step == Up.ServerDelete(sid)
  }

  /** The stream's pipe is closed on the server, or takes only part of a push. */
  predicate Shut(s: Up.Sys, step: Up.Step, sid: u32) {
    || step == Up.ServerClosePipe(sid)
    || (Reads(s, step, CMD_PSH, sid) && step.env.taken < |C.NextRead(s).value.data|)
  }

  lemma {:induction false} NonWasteHas(fs: seq<Frame>, i: nat)
    requires i < |fs| && fs[i].cmd != CMD_WASTE
    ensures fs[i] in NonWaste(fs)
  {
    if i > 0 { NonWasteHas(fs[1..], i - 1); }
  }

  lemma ReadsNext(s: Up.Sys, step: Up.Step, s': Up.Sys)
    requires Up.Next(s, step, s') && step.Receive?
    ensures C.NextRead(s).Some?
    ensures s'.server == Handle(s.server, C.NextRead(s).value, step.env, step.md5) && s'.got == s.got + [C.NextRead(s).value]
  {
    hide Handle;
  }

  lemma NoAcknowledgement(s: Up.Sys, f: Frame)
    requires Up.SumInv(s) && Up.OrderInv(s) && f in s.sent
    ensures f.cmd != CMD_SYNACK
  {
    hide Orderly, Payload, Announced;
    var i :| 0 <= i < |s.sent| && s.sent[i] == f;
    if f.cmd != CMD_WASTE {
      NonWasteHas(s.sent, i);
      assert f in s.submitted;
    }
  }

  /** What the server can read: a client's frames, a SYN only with the settings there and its stream not. */
  lemma ReadsClientFrames(s: Up.Sys, step: Up.Step, s': Up.Sys)
    requires Up.Inv(s) && Up.Next(s, step, s') && step.Receive?
    ensures C.NextRead(s).Some?
    ensures var f := C.NextRead(s).value;
            && s'.server == Handle(s.server, f, step.env, step.md5) && s'.got == s.got + [f]
            && f.cmd != CMD_SYNACK
            && (f.cmd == CMD_SYN ==> !Commands.Refused(s.server, f) && f.sid !in s.server.streams)
  {
    ReadsNext(s, step, s');
    C.FirstReadIsSettings(s, step, s');
    Up.NextFrame(s);
    hide Up.Next, Handle, Greeted, Payload, Up.OrderInv, Up.SumInv, Parse, EncodeAll;
    var f := C.NextRead(s).value;
    Up.SentPrefixFacts(s, s.got + [f], 0);
    Snoc(s.got, f);
    assert f == s.sent[|s.got|];
    NoAcknowledgement(s, f);
  }

  /** One step of the system, on the server's map and on which of its pipes are open. */
  lemma StepStreams(s: Up.Sys, step: Up.Step, s': Up.Sys, sid: u32)
    requires Up.Inv(s) && Up.Next(s, step, s')
    ensures sid in s'.server.streams <==>
              Reads(s, step, CMD_SYN, sid) || (sid in s.server.streams && !Removed(s, step, sid))
    ensures Open(s'.server, sid) <==>
              Reads(s, step, CMD_SYN, sid) || (Open(s.server, sid) && !Removed(s, step, sid) && !Shut(s, step, sid))
  {
    if step.Receive? {
      hide Up.Next, Up.Inv, Handle, C.NextRead;
      ReadsClientFrames(s, step, s');
      Commands.StreamsAfter(s.server, C.NextRead(s).value, step.env, step.md5, sid);
    } else {
      hide Up.Inv, Up.Allowed, C.NextRead;
    }
  }

  ghost predicate StaysInMap(run: seq<Up.Sys>, steps: seq<Up.Step>, i: nat, sid: u32)
    requires |run| == |steps| + 1
  {
    && i < |steps| && Reads(run[i], steps[i], CMD_SYN, sid)
    && forall j :: i < j < |steps| ==> !Removed(run[j], steps[j], sid)
  }

  ghost predicate StaysOpen(run: seq<Up.Sys>, steps: seq<Up.Step>, i: nat, sid: u32)
    requires |run| == |steps| + 1
  {
    && i < |steps| && Reads(run[i], steps[i], CMD_SYN, sid)
    && forall j :: i < j < |steps| ==> !Removed(run[j], steps[j], sid) && !Shut(run[j], steps[j], sid)
  }

  lemma InvAt(run: seq<Up.Sys>, steps: seq<Up.Step>, i: nat)
    requires C.IsRun(run, steps) && i <= |steps|
    ensures Up.Inv(run[i])
  {
    hide Up.Inv, Up.Next, Up.Init;
    C.RunKeepsInv(run[..i + 1], steps[..i]);
  }

  /** In every run a stream is in the server's map if and only if its SYN was handled and since then
      neither a FIN for it was handled nor the server deleted it. */
  lemma InMapIff(run: seq<Up.Sys>, steps: seq<Up.Step>, sid: u32)
    requires C.IsRun(run, steps)
    ensures sid in run[|steps|].server.streams <==> exists i :: StaysInMap(run, steps, i, sid)
  {
    hide Up.Next, Up.Inv, Reads, Removed;
    var n := |steps|;
    var flag := seq(n + 1, i requires 0 <= i <= n => sid in run[i].server.streams);
    var sets := seq(n, i requires 0 <= i < n => Reads(run[i], steps[i], CMD_SYN, sid));
    var clears := seq(n, i requires 0 <= i < n => Removed(run[i], steps[i], sid));
    forall i | 0 <= i < n
      ensures flag[i + 1] <==> sets[i] || (flag[i] && !clears[i])
    {
      InvAt(run, steps, i);
      StepStreams(run[i], steps[i], run[i + 1], sid);
    }
    Runs.Latch(flag, sets, clears, n);
    if i :| 0 <= i < n && sets[i] && forall j :: i < j < n ==> !clears[j] {
      assert forall j :: i < j < n ==> !clears[j] && clears[j] == Removed(run[j], steps[j], sid);
      assert StaysInMap(run, steps, i, sid);
    }
    if i: nat :| StaysInMap(run, steps, i, sid) {
      assert sets[i] && forall j :: i < j < n ==> !clears[j];
    }
  }

  /** And its pipe is open if and only if, besides, nobody on the server closed it and it took every
      push in full. */
  lemma OpenIff(run: seq<Up.Sys>, steps: seq<Up.Step>, sid: u32)
    requires C.IsRun(run, steps)
    ensures Open(run[|steps|].server, sid) <==> exists i :: StaysOpen(run, steps, i, sid)
  {
    hide Up.Next, Up.Inv, Reads, Removed, Shut;
    var n := |steps|;
    var flag := seq(n + 1, i requires 0 <= i <= n => Open(run[i].server, sid));
    var sets := seq(n, i requires 0 <= i < n => Reads(run[i], steps[i], CMD_SYN, sid));
    var clears := seq(n, i requires 0 <= i < n => Removed(run[i], steps[i], sid) || Shut(run[i], steps[i], sid));
    forall i | 0 <= i < n
      ensures flag[i + 1] <==> sets[i] || (flag[i] && !clears[i])
    {
      InvAt(run, steps, i);
      StepStreams(run[i], steps[i], run[i + 1], sid);
    }
    Runs.Latch(flag, sets, clears, n);
    if i :| 0 <= i < n && sets[i] && forall j :: i < j < n ==> !clears[j] {
      assert forall j :: i < j < n ==> !clears[j] && clears[j] == (Removed(run[j], steps[j], sid) || Shut(run[j], steps[j], sid));
      assert StaysOpen(run, steps, i, sid);
    }
    if i: nat :| StaysOpen(run, steps, i, sid) {
      assert sets[i] && forall j :: i < j < n ==> !clears[j];
    }
  }

  lemma AnnouncedMoves(s: Up.Sys, step: Up.Step, s': Up.Sys, sid: u32)
    requires Up.Next(s, step, s')
    ensures sid in Announced(s'.got) <==> sid in Announced(s.got) || Reads(s, step, CMD_SYN, sid)
  {
    hide Up.Next, C.NextRead, Announced;
    if step.Receive? {
      ReadsNext(s, step, s');
      Snoc(s.got, C.NextRead(s).value);
    } else {
      SameGot(s, step, s');
    }
  }

  /** A stream counts as announced exactly from the moment its SYN was handled. */
  lemma {:induction false} AnnouncedIff(run: seq<Up.Sys>, steps: seq<Up.Step>, n: nat, sid: u32)
    requires C.IsRun(run, steps) && n <= |steps|
    ensures sid in Announced(run[n].got) <==> exists i :: 0 <= i < n && Reads(run[i], steps[i], CMD_SYN, sid)
  {
    hide Up.Next, Reads;
    if n > 0 {
      hide Announced, Up.Init;
      AnnouncedIff(run, steps, n - 1, sid);
      AnnouncedMoves(run[n - 1], steps[n - 1], run[n], sid);
    }
  }

  lemma SameGot(s: Up.Sys, step: Up.Step, s': Up.Sys)
    requires Up.Next(s, step, s') && !step.Receive?
    ensures s'.got == s.got
  {
    hide Up.Allowed;
  }

  /** The frame a client's step submits. */
  function FrameOf(step: Up.Step): seq<Frame> {
    match step
    case Run(settings, _) => [Frame(CMD_SETTINGS, 0, settings)]
    case Announce(sid, _) => [Frame(CMD_SYN, sid, [])]
    case Write(sid, data, _) => [Frame(CMD_PSH, sid, data)]
    case Finish(sid, _) => [Frame(CMD_FIN, sid, [])]
    case HeartResponse(sid, _) => [Frame(CMD_HEART_RESPONSE, sid, [])]
    case _ => []
  }

  function FramesOf(steps: seq<Up.Step>): seq<Frame> {
    if steps == [] then [] else FramesOf(steps[..|steps| - 1]) + FrameOf(steps[|steps| - 1])
  }

  lemma SubmitMoves(s: Up.Sys, step: Up.Step, s': Up.Sys)
    requires Up.Next(s, step, s')
    ensures s'.submitted == s.submitted + FrameOf(step)
  {
    hide Handle;
  }

  lemma NothingSubmitted(s: Up.Sys)
    requires Up.Init(s)
    ensures s.submitted == FramesOf([])
  {}

  /** What is submitted is one frame for each write, open, close and answer of the client, in order. */
  lemma {:induction false} SubmittedIs(run: seq<Up.Sys>, steps: seq<Up.Step>, n: nat)
    requires C.IsRun(run, steps) && n <= |steps|
    ensures run[n].submitted == FramesOf(steps[..n])
  {
    hide Up.Next, Up.Init, FrameOf;
    if n > 0 {
      SubmittedIs(run, steps, n - 1);
      SubmitMoves(run[n - 1], steps[n - 1], run[n]);
      assert steps[..n][..n - 1] == steps[..n - 1];
    } else {
      NothingSubmitted(run[0]);
    }
  }

  /** The bytes the client's steps write on a stream. */
  function WrittenBy(steps: seq<Up.Step>, sid: u32): bytes {
    if steps == [] then []
    else
      var last := steps[|steps| - 1];
      WrittenBy(steps[..|steps| - 1], sid) + if last.Write? && last.sid == sid then last.data else []
  }

  lemma WriteAppends(s: Up.Sys, step: Up.Step, s': Up.Sys, sid: u32)
    requires Up.Next(s, step, s')
    ensures s'.Written(sid) == s.Written(sid) + if step.Write? && step.sid == sid then step.data else []
  {
    hide Up.Allowed, Handle;
  }

  lemma WrittenBySnoc(steps: seq<Up.Step>, n: nat, sid: u32)
    requires 0 < n <= |steps|
    ensures var last := steps[n - 1];
            WrittenBy(steps[..n], sid)
              == WrittenBy(steps[..n - 1], sid) + if last.Write? && last.sid == sid then last.data else []
  {
    assert steps[..n][..n - 1] == steps[..n - 1];
  }

  lemma NothingWritten(s: Up.Sys, sid: u32)
    requires Up.Init(s)
    ensures s.Written(sid) == WrittenBy([], sid)
  {}

  lemma {:induction false} WrittenIsWritten(run: seq<Up.Sys>, steps: seq<Up.Step>, n: nat, sid: u32)
    requires C.IsRun(run, steps) && n <= |steps|
    ensures run[n].Written(sid) == WrittenBy(steps[..n], sid)
  {
    hide Up.Next, Up.Init, WrittenBy;
    if n > 0 {
      WrittenIsWritten(run, steps, n - 1, sid);
      WriteAppends(run[n - 1], steps[n - 1], run[n], sid);
      WrittenBySnoc(steps, n, sid);
    } else {
      NothingWritten(run[0], sid);
    }
  }

  /** Nothing but the steps of a run: once an unbroken, flushed wire is read to its end, a stream whose
      SYN was submitted and which nobody disturbed after that has been handed exactly the bytes that the
      client's writes on it carried. */
  lemma UndisturbedGetsAll(run: seq<Up.Sys>, steps: seq<Up.Step>, sid: u32)
    requires C.IsRun(run, steps)
    requires var s := run[|steps|];
             !s.w.broken && s.w.buffer == [] && s.at == |s.w.Wire()| && sid in Announced(s.submitted)
    requires forall i, j :: 0 <= i < j < |steps| && Reads(run[i], steps[i], CMD_SYN, sid) ==>
               !Removed(run[j], steps[j], sid) && !Shut(run[j], steps[j], sid)
    ensures Open(run[|steps|].server, sid)
    ensures run[|steps|].server.Handed(sid) == WrittenBy(steps, sid)
  {
    hide Up.Next, Up.Inv, Reads, Removed, Shut, Announced, NonWaste;
    var n := |steps|;
    var s := run[n];
    InvAt(run, steps, n);
    Up.AllGot(s);
    NonWasteFacts(s.sent, sid);
    AnnouncedIff(run, steps, n, sid);
    var i :| 0 <= i < n && Reads(run[i], steps[i], CMD_SYN, sid);
    assert StaysOpen(run, steps, i, sid);
    OpenIff(run, steps, sid);
    Up.AllHandedOver(s, sid);
    WrittenIsWritten(run, steps, n, sid);
    assert steps[..n] == steps;
  }

  /** The frame the client can read next. */
  function NextOf(s: Duplex.Sys): Option<Frame> {
    if s.at > |s.wire| then None
    else match Parse(s.wire[s.at..]) case More => None case Got(f, _) => Some(f)
  }

  predicate ClientReads(s: Duplex.Sys, step: Duplex.Step, cmd: byte, sid: u32) {
    step.Receive? && NextOf(s).Some? && NextOf(s).value.cmd == cmd && NextOf(s).value.sid == sid
  }

  predicate Inserts(step: Duplex.Step, sid: u32) {
    step == Duplex.Uplink(Up.Insert(sid))
  }

  /** The client reads a FIN for the stream, or an error acknowledgement while its pipe is open, or its
      own side deletes it. */
  predicate RemovedThere(s: Duplex.Sys, step: Duplex.Step, sid: u32) {
    || ClientReads(s, step, CMD_FIN, sid) || step == Duplex.ClientDelete(sid)
    || (ClientReads(s, step, CMD_SYNACK, sid) && NextOf(s).value.data != [] && Open(s.client, sid))
  }

  predicate ShutThere(s: Duplex.Sys, step: Duplex.Step, sid: u32) {
    || step == Duplex.ClientClosePipe(sid)
    || (ClientReads(s, step, CMD_PSH, sid) && step.env.taken < |NextOf(s).value.data|)
  }

  lemma ReadsServerFrames(s: Duplex.Sys, step: Duplex.Step, s': Duplex.Sys)
    requires Duplex.WireInv(s) && Duplex.Next(s, step, s') && step.Receive?
    ensures NextOf(s).Some? && NextOf(s).value.cmd != CMD_SYN
    ensures s'.client == Handle(s.client, NextOf(s).value, step.env, step.md5)
  {
    hide Handle, Duplex.WireInv;
    Duplex.NextFrame(s);
  }

  lemma StepStreamsThere(s: Duplex.Sys, step: Duplex.Step, s': Duplex.Sys, sid: u32)
    requires Duplex.WireInv(s) && Duplex.Next(s, step, s')
    ensures sid in s'.client.streams <==>
              Inserts(step, sid) || (sid in s.client.streams && !RemovedThere(s, step, sid))
    ensures Open(s'.client, sid) <==>
              Inserts(step, sid) || (Open(s.client, sid) && !RemovedThere(s, step, sid) && !ShutThere(s, step, sid))
  {
    if step.Receive? {
      hide Duplex.Next, Duplex.WireInv, Handle, NextOf;
      ReadsServerFrames(s, step, s');
      Commands.StreamsAfter(s.client, NextOf(s).value, step.env, step.md5, sid);
    } else {
      hide Up.Next, Duplex.WireInv, NextOf, Encode;
    }
  }

  ghost predicate StaysInClientsMap(run: seq<Duplex.Sys>, steps: seq<Duplex.Step>, i: nat, sid: u32)
    requires |run| == |steps| + 1
  {
    && i < |steps| && Inserts(steps[i], sid)
    && forall j :: i < j < |steps| ==> !RemovedThere(run[j], steps[j], sid)
  }

  ghost predicate StaysOpenThere(run: seq<Duplex.Sys>, steps: seq<Duplex.Step>, i: nat, sid: u32)
    requires |run| == |steps| + 1
  {
    && i < |steps| && Inserts(steps[i], sid)
    && forall j :: i < j < |steps| ==> !RemovedThere(run[j], steps[j], sid) && !ShutThere(run[j], steps[j], sid)
  }

  lemma {:induction false} WireAt(run: seq<Duplex.Sys>, steps: seq<Duplex.Step>, i: nat)
    requires Duplex.IsRun(run, steps) && i <= |steps|
    ensures Duplex.WireInv(run[i])
  {
    if i > 0 {
      hide Duplex.Next, Duplex.Init, Duplex.WireInv;
      WireAt(run, steps, i - 1);
      Duplex.StepKeepsWire(run[i - 1], steps[i - 1], run[i]);
    }
  }

  /** The same on the client, whatever the server sends: a stream is in the map if and only if OpenStream
      put it there and since then no FIN and, while its pipe was open, no error was handled for it and the
      client did not delete it. */
  lemma InClientsMapIff(run: seq<Duplex.Sys>, steps: seq<Duplex.Step>, sid: u32)
    requires Duplex.IsRun(run, steps)
    ensures sid in run[|steps|].client.streams <==> exists i :: StaysInClientsMap(run, steps, i, sid)
  {
    hide Duplex.Next, Duplex.WireInv, RemovedThere, Inserts;
    var n := |steps|;
    var flag := seq(n + 1, i requires 0 <= i <= n => sid in run[i].client.streams);
    var sets := seq(n, i requires 0 <= i < n => Inserts(steps[i], sid));
    var clears := seq(n, i requires 0 <= i < n => RemovedThere(run[i], steps[i], sid));
    forall i | 0 <= i < n
      ensures flag[i + 1] <==> sets[i] || (flag[i] && !clears[i])
    {
      WireAt(run, steps, i);
      StepStreamsThere(run[i], steps[i], run[i + 1], sid);
    }
    Runs.Latch(flag, sets, clears, n);
    if i :| 0 <= i < n && sets[i] && forall j :: i < j < n ==> !clears[j] {
      assert forall j :: i < j < n ==> !clears[j] && clears[j] == RemovedThere(run[j], steps[j], sid);
      assert StaysInClientsMap(run, steps, i, sid);
    }
    if i: nat :| StaysInClientsMap(run, steps, i, sid) {
      assert sets[i] && forall j :: i < j < n ==> !clears[j];
    }
  }

  lemma OpenThereIff(run: seq<Duplex.Sys>, steps: seq<Duplex.Step>, sid: u32)
    requires Duplex.IsRun(run, steps)
    ensures Open(run[|steps|].client, sid) <==> exists i :: StaysOpenThere(run, steps, i, sid)
  {
    hide Duplex.Next, Duplex.WireInv, RemovedThere, ShutThere, Inserts;
    var n := |steps|;
    var flag := seq(n + 1, i requires 0 <= i <= n => Open(run[i].client, sid));
    var sets := seq(n, i requires 0 <= i < n => Inserts(steps[i], sid));
    var clears := seq(n, i requires 0 <= i < n => RemovedThere(run[i], steps[i], sid) || ShutThere(run[i], steps[i], sid));
    forall i | 0 <= i < n
      ensures flag[i + 1] <==> sets[i] || (flag[i] && !clears[i])
    {
      WireAt(run, steps, i);
      StepStreamsThere(run[i], steps[i], run[i + 1], sid);
    }
    Runs.Latch(flag, sets, clears, n);
    if i :| 0 <= i < n && sets[i] && forall j :: i < j < n ==> !clears[j] {
      assert forall j :: i < j < n ==>
               !clears[j] && clears[j] == (RemovedThere(run[j], steps[j], sid) || ShutThere(run[j], steps[j], sid));
      assert StaysOpenThere(run, steps, i, sid);
    }
    if i: nat :| StaysOpenThere(run, steps, i, sid) {
      assert sets[i] && forall j :: i < j < n ==> !clears[j];
    }
  }

  /** The bytes the server's steps write on a stream. */
  function WrittenBack(steps: seq<Duplex.Step>, sid: u32): bytes {
    if steps == [] then []
    else
      var last := steps[|steps| - 1];
      WrittenBack(steps[..|steps| - 1], sid) + if last.ServerWrite? && last.sid == sid then last.data else []
  }

  lemma WriteAppendsBack(s: Duplex.Sys, step: Duplex.Step, s': Duplex.Sys, sid: u32)
    requires Duplex.Next(s, step, s')
    ensures s'.Written(sid) == s.Written(sid) + if step.ServerWrite? && step.sid == sid then step.data else []
  {
    hide Up.Next, Handle, Encode;
  }

  lemma NothingWrittenBack(s: Duplex.Sys, sid: u32)
    requires Duplex.Init(s)
    ensures s.Written(sid) == WrittenBack([], sid)
  {
    hide Up.Init;
  }

  lemma {:induction false} WrittenBackIsWritten(run: seq<Duplex.Sys>, steps: seq<Duplex.Step>, n: nat, sid: u32)
    requires Duplex.IsRun(run, steps) && n <= |steps|
    ensures run[n].Written(sid) == WrittenBack(steps[..n], sid)
  {
    hide Duplex.Next, Duplex.Init;
    if n > 0 {
      WrittenBackIsWritten(run, steps, n - 1, sid);
      WriteAppendsBack(run[n - 1], steps[n - 1], run[n], sid);
      assert steps[..n][..n - 1] == steps[..n - 1];
    } else {
      NothingWrittenBack(run[0], sid);
    }
  }

  /** The frame a server's step sends. */
  function FrameBack(step: Duplex.Step): seq<Frame> {
    match step
    case ServerWrite(sid, data, _) => [Frame(CMD_PSH, sid, data)]
    case Control(f, _) => [f]
    case _ => []
  }

  function FramesBack(steps: seq<Duplex.Step>): seq<Frame> {
    if steps == [] then [] else FramesBack(steps[..|steps| - 1]) + FrameBack(steps[|steps| - 1])
  }

  lemma SendMoves(s: Duplex.Sys, step: Duplex.Step, s': Duplex.Sys)
    requires Duplex.Next(s, step, s')
    ensures s'.sent == if s.broken then s.sent else s.sent + FrameBack(step)
    ensures s.broken ==> s'.broken
  {
    hide Up.Next, Handle, Encode;
  }

  lemma NothingSent(s: Duplex.Sys)
    requires Duplex.Init(s)
    ensures s.sent == FramesBack([])
  {
    hide Up.Init;
  }

  /** What the server sent is one frame for each of its writes and control frames, in order, up to where
      the connection broke. */
  lemma {:induction false} SentIs(run: seq<Duplex.Sys>, steps: seq<Duplex.Step>, n: nat)
    requires Duplex.IsRun(run, steps) && n <= |steps|
    ensures run[n].sent <= FramesBack(steps[..n])
    ensures !run[n].broken ==> run[n].sent == FramesBack(steps[..n])
  {
    hide Duplex.Next, Duplex.Init, FrameBack;
    if n > 0 {
      SentIs(run, steps, n - 1);
      SendMoves(run[n - 1], steps[n - 1], run[n]);
      assert steps[..n][..n - 1] == steps[..n - 1];
    } else {
      NothingSent(run[0]);
    }
  }

  /** Once the client has read an unbroken wire to its end, a stream that OpenStream inserted before the
      server wrote on it, and which nobody disturbed after that, has been handed exactly the bytes that
      the server's writes on it carried. */
  lemma UndisturbedGetsAllBack(run: seq<Duplex.Sys>, steps: seq<Duplex.Step>, i: nat, sid: u32)
    requires Duplex.IsRun(run, steps) && Duplex.WritesOpened(run, steps, sid)
    requires !run[|steps|].broken && run[|steps|].at == |run[|steps|].wire|
    requires StaysOpenThere(run, steps, i, sid)
    ensures run[|steps|].client.Handed(sid) == WrittenBack(steps, sid)
  {
    hide Duplex.Next, StaysOpenThere, Duplex.WritesOpened;
    OpenThereIff(run, steps, sid);
    Duplex.DeliveredIsPrefixOfWritten(run, steps, sid);
    WrittenBackIsWritten(run, steps, |steps|, sid);
    assert steps[..|steps|] == steps;
  }
}
