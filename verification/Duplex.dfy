/** The other direction of a session: what the server writes on its streams and the client's loop
    hands on, with the client's opens, writes and closes running beside it. */
module Duplex {
  import opened Bytes
  import opened Frames
  import opened Padding
  import opened Receiver
  import opened Traces
  import Delivery
  import Up = Multiplex

  /** `up` is the whole client-to-server system. The server neither pads nor buffers, so `wire` is
      the encodings of `sent`, up to where the connection broke; `got` are the frames the client
      has handled and `written` the bytes written on each of the server's streams. */
  datatype Sys = Sys(
    up: Up.Sys, client: RecvState, wire: bytes, broken: bool, at: nat,
    sent: seq<Frame>, got: seq<Frame>, written: map<u32, bytes>)
  {
    function Written(sid: u32): bytes {
      if sid in written then written[sid] else []
    }
  }

  ghost predicate Init(s: Sys) {
    && Up.Init(s.up)
    && s.client.isClient && s.client.streams == map[] && s.client.handed == map[] && !s.client.ended
    && s.wire == [] && !s.broken && s.at == 0 && s.sent == s.got == [] && s.written == map[]
  }

  /** One write to the connection, of which `kept` bytes get through. */
  function Send(s: Sys, f: Frame, kept: nat): Sys {
    if s.broken then s
    else
      var e := Encode(f);
      s.(wire := s.wire + if kept < |e| then e[..kept] else e, broken := kept < |e|, sent := s.sent + [f])
  }

  /** `Control` is any frame a server writes besides data: settings, acknowledgements, FINs, alerts. */
  datatype Step =
    | Uplink(u: Up.Step)
    | ServerWrite(sid: u32, data: bytes, kept: nat)
    | Control(f: Frame, kept: nat)
    | Receive(env: Env, md5: Digest)
    | ClientClosePipe(sid: u32)
    | ClientDelete(sid: u32)
    | ClientStop

  /** OpenStream puts the stream into the client's map after it sent the SYN, and once. The server may
      write on any stream it knows. */
  ghost predicate Next(s: Sys, step: Step, s': Sys) {
    match step
    case Uplink(u) =>
      && Up.Next(s.up, u, s'.up)
      && (u.Insert? ==> u.sid !in s.up.usable)
      && s' == s.(up := s'.up,
                  client := if u.Insert? then s.client.(streams := s.client.streams[u.sid := true]) else s.client)
    case ServerWrite(sid, data, kept) =>
      && sid in Announced(s.up.got) && |data| <= 0xffff
      && s' == AfterWrite(s, sid, data, kept)
    case Control(f, kept) =>
      && WellFramed(f) && f.cmd != CMD_PSH && f.cmd != CMD_SYN
      && s' == Send(s, f, kept)
    case Receive(env, md5) =>
      !s.client.ended && s.at <= |s.wire| &&
      (match Parse(s.wire[s.at..])
       case More => false
       case Got(f, used) =>
         s' == Advance(s, f, used, Handle(s.client, f, env, md5)))
    case ClientClosePipe(sid) =>
      sid in s.client.streams && s' == s.(client := s.client.(streams := s.client.streams[sid := false]))
    case ClientDelete(sid) => s' == s.(client := s.client.(streams := s.client.streams - {sid}))
    case ClientStop => s' == s.(client := s.client.(ended := true))
  }

  function Advance(s: Sys, f: Frame, used: nat, client: RecvState): Sys {
    s.(client := client, at := s.at + used, got := s.got + [f])
  }

  ghost predicate WireInv(s: Sys) {
    && s.wire <= EncodeAll(s.sent)
    && (!s.broken ==> s.wire == EncodeAll(s.sent))
    && (forall i :: 0 <= i < |s.sent| ==> WellFramed(s.sent[i]) && s.sent[i].cmd != CMD_SYN)
    && s.got <= s.sent && s.at == |EncodeAll(s.got)| <= |s.wire|
  }

  ghost predicate WrittenInv(s: Sys) {
    && (forall sid :: Payload(s.sent, sid) <= s.Written(sid))
    && (!s.broken ==> forall sid :: Payload(s.sent, sid) == s.Written(sid))
  }

  /** The client writes only on streams it has put into its map. */
  ghost predicate UpOpened(s: Sys) {
    forall sid :: sid in s.up.written ==> sid in s.up.usable
  }

  /** Stream `x` of the client has a prefix of the payload handled, all of it while its pipe is open. */
  ghost predicate Tracks(client: RecvState, got: seq<Frame>, inMap: set<u32>, x: u32) {
    && client.Handed(x) <= Payload(got, x)
    && (Delivery.Open(client, x) ==> client.Handed(x) == Payload(got, x))
    && (x in client.streams ==> x in inMap)
  }

  /** What holds as long as the server wrote on `x` only when the client had it in its map. */
  ghost predicate Inv(s: Sys, x: u32) {
    && Up.Inv(s.up) && UpOpened(s) && WireInv(s) && WrittenInv(s)
    && (x !in s.up.usable ==> Payload(s.sent, x) == [])
    && Tracks(s.client, s.got, s.up.usable, x)
  }

  lemma SendKeepsWire(s: Sys, f: Frame, kept: nat)
    requires WireInv(s) && WellFramed(f) && f.cmd != CMD_SYN
    ensures WireInv(Send(s, f, kept))
  {
    if !s.broken {
      EncodeAllAppend(s.sent, [f]);
      EncodeAllSingle(f);
    }
  }

  /** What a step of the client does to what it has opened and written. */
  lemma UplinkMoves(s: Up.Sys, u: Up.Step, s': Up.Sys)
    requires Up.Next(s, u, s')
    ensures s'.usable == if u.Insert? then s.usable + {u.sid} else s.usable
    ensures s'.written.Keys <= s.written.Keys + s'.usable
  {
    hide Up.Allowed, Handle;
  }

  /** The wire holds what was sent, whatever the server writes when. */
  lemma StepKeepsWire(s: Sys, step: Step, s': Sys)
    requires WireInv(s) && Next(s, step, s')
    ensures WireInv(s')
  {
    hide WireInv, Up.Next, Handle, Send, Parse;
    match step
    case Uplink(_) => SameWire(s, s');
    case ServerWrite(sid, data, kept) =>
      SendKeepsWire(s, Frame(CMD_PSH, sid, data), kept);
      SameButWritten(Send(s, Frame(CMD_PSH, sid, data), kept), s');
    case Control(f, kept) => SendKeepsWire(s, f, kept);
    case Receive(_, _) => AdvanceKeepsWire(s, s');
    case _ => SameWire(s, s');
  }

  lemma AdvanceKeepsWire(s: Sys, s': Sys)
    requires WireInv(s) && Parse(s.wire[s.at..]).Got?
    requires var p := Parse(s.wire[s.at..]);
             s' == Advance(s, p.frame, p.used, s'.client)
    ensures WireInv(s')
  {
    NextFrame(s);
  }

  lemma UplinkKeeps(s: Sys, u: Up.Step, s': Sys, x: u32)
    requires Inv(s, x) && Next(s, Uplink(u), s')
    ensures Inv(s', x)
  {
    hide Up.Inv, Up.Next, WireInv, Payload;
    Up.StepKeepsInv(s.up, u, s'.up);
    UplinkMoves(s.up, u, s'.up);
    assert WireInv(s') by { SameWire(s, s'); }
    GotIsPrefix(s, x);
    assert s'.client.Handed(x) == s.client.Handed(x);
  }

  lemma SameWire(s: Sys, s': Sys)
    requires WireInv(s) && s' == s.(up := s'.up, client := s'.client)
    ensures WireInv(s')
  {}

  lemma GotIsPrefix(s: Sys, sid: u32)
    requires WireInv(s)
    ensures Payload(s.got, sid) <= Payload(s.sent, sid)
  {
    PrefixFacts(s.sent, |s.got|, sid);
    assert s.sent[..|s.got|] == s.got;
  }

  /** A stream the server read from is one the client has opened. */
  lemma ReadMeansOpened(s: Sys, sid: u32)
    requires Up.Inv(s.up) && UpOpened(s) && s.up.server.Handed(sid) != []
    ensures sid in s.up.usable
  {
    Up.SentPrefixFacts(s.up, s.up.got, sid);
    assert s.up.server.Handed(sid) <= Payload(s.up.got, sid);
    assert s.up.Written(sid) != [];
  }

  /** The state after the server wrote `data` on `sid`. */
  function AfterWrite(s: Sys, sid: u32, data: bytes, kept: nat): Sys
  {
    Send(s, Frame(CMD_PSH, sid, data), kept).(written := s.written[sid := s.Written(sid) + data])
  }

  /** Payloads after a write, seen through the connection's state. */
  lemma PayloadAfterWrite(s: Sys, sid: u32, data: bytes, kept: nat, x: u32)
    ensures var s' := AfterWrite(s, sid, data, kept);
            && (s.broken ==> s'.broken)
            && s'.Written(x) == (if x == sid then s.Written(x) + data else s.Written(x))
            && Payload(s'.sent, x) == (if s.broken || x != sid then Payload(s.sent, x) else Payload(s.sent, x) + data)
  {
    hide Encode;
    Snoc(s.sent, Frame(CMD_PSH, sid, data));
    hide Payload;
    if !s.broken && x != sid { assert Payload(s.sent, x) + [] == Payload(s.sent, x); }
  }

  lemma WriteKeepsWritten(s: Sys, sid: u32, data: bytes, kept: nat)
    requires WrittenInv(s)
    ensures WrittenInv(AfterWrite(s, sid, data, kept))
  {
    hide AfterWrite, Payload;
    forall x
      ensures Payload(AfterWrite(s, sid, data, kept).sent, x) <= AfterWrite(s, sid, data, kept).Written(x)
      ensures !s.broken ==> Payload(AfterWrite(s, sid, data, kept).sent, x) == AfterWrite(s, sid, data, kept).Written(x)
    {
      PayloadAfterWrite(s, sid, data, kept, x);
      assert Payload(s.sent, x) <= s.Written(x);
    }
    PayloadAfterWrite(s, sid, data, kept, sid);
  }

  lemma ServerWriteKeeps(s: Sys, sid: u32, data: bytes, kept: nat, x: u32)
    requires Inv(s, x) && |data| <= 0xffff && (sid == x ==> x in s.up.usable)
    ensures Inv(AfterWrite(s, sid, data, kept), x)
  {
    hide Up.Inv, WireInv, WrittenInv, Payload, Encode;
    var f := Frame(CMD_PSH, sid, data);
    SendKeepsWire(s, f, kept);
    WriteKeepsWritten(s, sid, data, kept);
    PayloadAfterWrite(s, sid, data, kept, x);
    assert WireInv(AfterWrite(s, sid, data, kept)) by { SameButWritten(Send(s, f, kept), AfterWrite(s, sid, data, kept)); }
  }

  lemma SameButWritten(s: Sys, s': Sys)
    requires WireInv(s) && s' == s.(written := s'.written)
    ensures WireInv(s')
  {}

  lemma ControlSends(s: Sys, f: Frame, kept: nat, x: u32)
    requires f.cmd != CMD_PSH
    ensures var s' := Send(s, f, kept);
            && s' == s.(wire := s'.wire, broken := s'.broken, sent := s'.sent)
            && (s.broken ==> s'.broken) && Payload(s'.sent, x) == Payload(s.sent, x)
  {
    hide Encode;
    Snoc(s.sent, f);
    assert Payload(s.sent, x) + [] == Payload(s.sent, x);
    hide Payload;
  }

  lemma SamePayloads(s: Sys, s': Sys)
    requires WrittenInv(s) && s'.written == s.written && (s.broken ==> s'.broken)
    requires forall sid :: Payload(s'.sent, sid) == Payload(s.sent, sid)
    ensures WrittenInv(s')
  {
    hide Payload;
    assert forall sid :: s'.Written(sid) == s.Written(sid);
  }

  lemma ControlKeeps(s: Sys, f: Frame, kept: nat, x: u32)
    requires Inv(s, x) && WellFramed(f) && f.cmd != CMD_PSH && f.cmd != CMD_SYN
    ensures Inv(Send(s, f, kept), x)
  {
    SendKeepsWire(s, f, kept);
    hide Up.Inv, WireInv, WrittenInv, Payload, Send;
    forall sid
      ensures Payload(Send(s, f, kept).sent, sid) == Payload(s.sent, sid)
    {
      ControlSends(s, f, kept, sid);
    }
    ControlSends(s, f, kept, x);
    SamePayloads(s, Send(s, f, kept));
  }

  lemma HandleTracks(client: RecvState, got: seq<Frame>, inMap: set<u32>, f: Frame, env: Env, md5: Digest, x: u32)
    requires Tracks(client, got, inMap, x) && f.cmd != CMD_SYN
    ensures Tracks(Handle(client, f, env, md5), got + [f], inMap, x)
  {
    hide Payload, HandlePush;
    Snoc(got, f);
    if f.cmd == CMD_PSH {
      Delivery.PushHands(client, f, env, x);
      assert Payload(got, x) <= Payload(got + [f], x);
    } else {
      Delivery.OthersShrink(client, f, env, md5);
      hide Handle;
      assert Payload(got + [f], x) == Payload(got, x) + [] == Payload(got, x);
    }
  }

  /** The next frame the client reads is the next one sent. */
  lemma NextFrame(s: Sys)
    requires WireInv(s) && Parse(s.wire[s.at..]).Got?
    ensures var p := Parse(s.wire[s.at..]);
            && s.got + [p.frame] <= s.sent && p.frame.cmd != CMD_SYN
            && s.at + p.used == |EncodeAll(s.got + [p.frame])| <= |s.wire|
  {
    var m := |s.got|;
    var rest := s.wire[s.at..];
    assert s.sent == s.got + s.sent[m..];
    EncodeAllAppend(s.got, s.sent[m..]);
    PrefixDrop(EncodeAll(s.got), s.wire, EncodeAll(s.sent[m..]));
    ParsePrefix(s.sent[m..], rest);
    EncodeAllAppend(s.got, [s.sent[m]]);
    EncodeAllSingle(s.sent[m]);
  }

  lemma ReceiveKeeps(s: Sys, f: Frame, used: nat, env: Env, md5: Digest, x: u32)
    requires Inv(s, x) && Parse(s.wire[s.at..]) == Got(f, used)
    ensures Inv(Advance(s, f, used, Handle(s.client, f, env, md5)), x)
  {
    hide Up.Inv, Payload, Handle, Tracks;
    NextFrame(s);
    HandleTracks(s.client, s.got, s.up.usable, f, env, md5, x);
  }

  lemma ClientChangeKeeps(s: Sys, client: RecvState, x: u32)
    requires Inv(s, x) && Delivery.Shrinks(s.client, client)
    ensures Inv(s.(client := client), x)
  {
    hide Up.Inv, Payload;
  }

  lemma StepKeepsInv(s: Sys, step: Step, s': Sys, x: u32)
    requires Inv(s, x) && Next(s, step, s')
    requires step.ServerWrite? && step.sid == x ==> x in s.up.usable
    ensures Inv(s', x)
  {
    hide Inv, Up.Next, Handle, Send;
    match step
    case Uplink(u) => UplinkKeeps(s, u, s', x);
    case ServerWrite(sid, data, kept) => ServerWriteKeeps(s, sid, data, kept, x);
    case Control(f, kept) => ControlKeeps(s, f, kept, x);
    case Receive(env, md5) =>
      var p := Parse(s.wire[s.at..]);
      ReceiveKeeps(s, p.frame, p.used, env, md5, x);
    case ClientClosePipe(_) => ClientChangeKeeps(s, s'.client, x);
    case ClientDelete(_) => ClientChangeKeeps(s, s'.client, x);
    case ClientStop => ClientChangeKeeps(s, s'.client, x);
  }

  ghost predicate Goes(run: seq<Sys>, steps: seq<Step>) {
    && |run| == |steps| + 1
    && forall i :: 0 <= i < |steps| ==> Next(run[i], steps[i], run[i + 1])
  }

  ghost predicate IsRun(run: seq<Sys>, steps: seq<Step>) {
    Goes(run, steps) && Init(run[0])
  }

  /** The server writes on `x` only while the client has it in its map. */
  ghost predicate WritesOpened(run: seq<Sys>, steps: seq<Step>, x: u32)
    requires |run| == |steps| + 1
  {
    forall i :: 0 <= i < |steps| && steps[i].ServerWrite? && steps[i].sid == x ==> x in run[i].up.usable
  }

  /** The server writes on `x` only after it has read something from it, as one does that reads the
      destination first. */
  ghost predicate Patient(run: seq<Sys>, steps: seq<Step>, x: u32)
    requires |run| == |steps| + 1
  {
    forall i :: 0 <= i < |steps| && steps[i].ServerWrite? && steps[i].sid == x ==> run[i].up.server.Handed(x) != []
  }

  lemma FreshInv(s: Sys, x: u32)
    requires Init(s)
    ensures Inv(s, x)
  {
    assert Flatten(s.up.w.records) == [] && EncodeAll([]) == [];
  }

  lemma {:induction false} RunKeepsInv(run: seq<Sys>, steps: seq<Step>, x: u32)
    requires IsRun(run, steps) && WritesOpened(run, steps, x)
    ensures Inv(run[|steps|], x)
    decreases |steps|
  {
    hide Inv, Init, Next;
    if steps == [] {
      FreshInv(run[0], x);
    } else {
      var n := |steps| - 1;
      RunKeepsInv(run[..n + 1], steps[..n], x);
      StepKeepsInv(run[n], steps[n], run[n + 1], x);
    }
  }

  /** The client's side of the system stays sound whatever the server writes. */
  lemma UpStep(s: Sys, step: Step, s': Sys)
    requires Up.Inv(s.up) && UpOpened(s) && Next(s, step, s')
    ensures Up.Inv(s'.up) && UpOpened(s')
  {
    hide Up.Inv, Up.Next, Handle, Encode;
    if step.Uplink? {
      Up.StepKeepsInv(s.up, step.u, s'.up);
      UplinkMoves(s.up, step.u, s'.up);
    }
  }

  lemma {:induction false} RunKeepsUp(run: seq<Sys>, steps: seq<Step>, i: nat)
    requires IsRun(run, steps) && i <= |steps|
    ensures Up.Inv(run[i].up) && UpOpened(run[i])
    decreases i
  {
    hide Up.Inv, UpOpened, Next, Init;
    if i == 0 {
      FreshUp(run[0]);
    } else {
      RunKeepsUp(run, steps, i - 1);
      UpStep(run[i - 1], steps[i - 1], run[i]);
    }
  }

  lemma FreshUp(s: Sys)
    requires Init(s)
    ensures Up.Inv(s.up) && UpOpened(s)
  {
    FreshInv(s, 0);
  }

  /** What the client has handled is a prefix of what the server wrote, and all of it once an unbroken
      wire is read to its end. */
  lemma HandledIsPrefix(s: Sys, sid: u32)
    requires WireInv(s) && WrittenInv(s)
    ensures Payload(s.got, sid) <= s.Written(sid)
    ensures !s.broken && s.at == |s.wire| ==> Payload(s.got, sid) == s.Written(sid)
  {
    GotIsPrefix(s, sid);
    assert Payload(s.sent, sid) <= s.Written(sid);
    if !s.broken && s.at == |s.wire| {
      assert s.sent == s.got + s.sent[|s.got|..];
      EncodeAllAppend(s.got, s.sent[|s.got|..]);
      Up.NothingEncodesToNothing(s.sent[|s.got|..]);
      assert s.got == s.sent;
    }
  }

  /** Server to client, stream by stream: if the server wrote on a stream only while the client had
      it in its map, the bytes the client's loop hands to that stream are a prefix of the bytes the
      server wrote on it; all of them once the client has read the whole of an unbroken wire, while
      the stream's pipe is open. */
  lemma DeliveredIsPrefixOfWritten(run: seq<Sys>, steps: seq<Step>, sid: u32)
    requires IsRun(run, steps) && WritesOpened(run, steps, sid)
    ensures var s := run[|steps|];
            && s.client.Handed(sid) <= s.Written(sid)
            && (!s.broken && s.at == |s.wire| && Delivery.Open(s.client, sid) ==> s.client.Handed(sid) == s.Written(sid))
  {
    hide Init, Next, Up.Inv, WireInv, WrittenInv;
    RunKeepsInv(run, steps, sid);
    HandledIsPrefix(run[|steps|], sid);
  }

  /** A server that reads first never writes on a stream the client does not have, so its bytes
      arrive as above. */
  lemma PatientServerIsSafe(run: seq<Sys>, steps: seq<Step>, sid: u32)
    requires IsRun(run, steps) && Patient(run, steps, sid)
    ensures WritesOpened(run, steps, sid)
    ensures run[|steps|].client.Handed(sid) <= run[|steps|].Written(sid)
  {
    hide Init, Next, Up.Inv, UpOpened;
    forall i | 0 <= i < |steps| && steps[i].ServerWrite? && steps[i].sid == sid
      ensures sid in run[i].up.usable
    {
      RunKeepsUp(run, steps, i);
      ReadMeansOpened(run[i], sid);
    }
    DeliveredIsPrefixOfWritten(run, steps, sid);
  }
}
