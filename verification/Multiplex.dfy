/** A client session, the connection and the server's receive loop as one system. Each step is
    what one thread does while it holds a lock, so a run is any interleaving of the client's
    opens, writes and closes with the server's reads and closes. */
module Multiplex {
  import opened Bytes
  import opened Frames
  import opened Padding
  import opened Records
  import opened Traces
  import opened Writer
  import opened Receiver
  import opened Delivery

  /** `w` and `lastId` are the client's; `server` and `at` the server's, `at` being the number of
      wire bytes it has read. The rest are traces: the frames submitted to the connection, those
      the connection was meant to carry (with the padding), those held in the start-up buffer,
      the frames the server has handled, and the bytes written on each stream. */
  datatype Sys = Sys(
    w: SendState, ran: bool, lastId: nat, usable: set<u32>,
    server: RecvState, at: nat,
    submitted: seq<Frame>, sent: seq<Frame>, pending: seq<Frame>, got: seq<Frame>,
    written: map<u32, bytes>)
  {
    function Written(sid: u32): bytes {
      if sid in written then written[sid] else []
    }
  }

  ghost predicate Init(s: Sys) {
    && s.w == SendState(false, [], true, 0, [], false)
    && !s.ran && s.lastId == 0 && s.usable == {}
    && !s.server.isClient && s.server.streams == map[] && s.server.handed == map[]
    && !s.server.gotSettings && s.server.out == [] && !s.server.ended && s.at == 0
    && s.submitted == s.sent == s.pending == s.got == [] && s.written == map[]
  }

  /** The choices of one write: the scheme's stop and sizes, and the outcome on the connection. */
  datatype Draw = Draw(stop: u32, sizes: seq<int>, after: SendState)

  ghost predicate Allowed(w: SendState, f: Frame, d: Draw) {
    SizesFit(d.sizes) && Positive(d.sizes) && Writes(w, Encode(f), d.stop, d.sizes, d.after)
  }

  /** The padding a write appends. */
  function Extra(w: SendState, f: Frame, d: Draw): seq<Frame>
    requires Positive(d.sizes)
  {
    if Pads(w.sendPadding, w.pktCounter, d.stop) then Added(|w.buffer + Encode(f)|, d.sizes) else []
  }

  /** The traces after frame `f` was written with draw `d`. */
  function Submit(s: Sys, f: Frame, d: Draw): Sys
    requires Positive(d.sizes)
  {
    if s.w.buffering then
      s.(w := d.after, submitted := s.submitted + [f], pending := s.pending + [f])
    else
      s.(w := d.after, submitted := s.submitted + [f], pending := [],
         sent := if s.w.broken then s.sent else s.sent + (s.pending + [f] + Extra(s.w, f, d)))
  }

  datatype Step =
    | Run(settings: bytes, d: Draw)
    | Allocate
    | Announce(sid: u32, d: Draw)
    | Unbuffer
    | Insert(sid: u32)
    | Write(sid: u32, data: bytes, d: Draw)
    | Finish(sid: u32, d: Draw)
    | HeartResponse(sid: u32, d: Draw)
    | Receive(env: Env, md5: Digest)
    | ServerClosePipe(sid: u32)
    | ServerDelete(sid: u32)
    | ServerStop

  ghost predicate Next(s: Sys, step: Step, s': Sys) {
    match step
    case Run(settings, d) =>
      var f := Frame(CMD_SETTINGS, 0, settings);
      var s1 := s.(w := s.w.(buffering := true), ran := true);
      !s.ran && 0 < |settings| <= 0xffff && Allowed(s1.w, f, d) && s' == Submit(s1, f, d)
    case Allocate =>
      s.ran && s.lastId < 0xffff_ffff && s' == s.(lastId := s.lastId + 1)
    case Announce(sid, d) =>
      var f := Frame(CMD_SYN, sid, []);
      && s.ran && 1 <= sid <= s.lastId && sid !in Announced(s.submitted)
      && Allowed(s.w, f, d) && s' == Submit(s, f, d)
    case Unbuffer =>
      Announced(s.submitted) != {} && s' == s.(w := s.w.(buffering := false))
    case Insert(sid) =>
      sid in Announced(s.submitted) && s' == s.(usable := s.usable + {sid})
    case Write(sid, data, d) =>
      var f := Frame(CMD_PSH, sid, data);
      && sid in s.usable && |data| <= 0xffff && Allowed(s.w, f, d)
      && s' == Submit(s, f, d).(written := s.written[sid := s.Written(sid) + data])
    case Finish(sid, d) =>
      var f := Frame(CMD_FIN, sid, []);
      s.ran && Allowed(s.w, f, d) && s' == Submit(s, f, d)
    case HeartResponse(sid, d) =>
      var f := Frame(CMD_HEART_RESPONSE, sid, []);
      s.ran && Allowed(s.w, f, d) && s' == Submit(s, f, d)
    case Receive(env, md5) =>
      !s.server.ended && s.at <= |s.w.Wire()| &&
      (match Parse(s.w.Wire()[s.at..])
       case More => false
       case Got(f, used) =>
         s' == Advance(s, f, used, Handle(s.server, f, env, md5)))
    case ServerClosePipe(sid) =>
      sid in s.server.streams && s' == s.(server := s.server.(streams := s.server.streams[sid := false]))
    case ServerDelete(sid) =>
      s' == s.(server := s.server.(streams := s.server.streams - {sid}))
    case ServerStop =>
      s' == s.(server := s.server.(ended := true))
  }

  ghost predicate Kind(f: Frame) {
    f.cmd in {CMD_SETTINGS, CMD_SYN, CMD_PSH, CMD_FIN, CMD_HEART_RESPONSE} && WellFramed(f)
  }

  /** Buffer and wire hold the encodings of the traces. */
  ghost predicate WireInv(s: Sys) {
    && s.w.buffer == EncodeAll(s.pending)
    && s.w.Wire() <= EncodeAll(s.sent)
    && (!s.w.broken ==> s.w.Wire() == EncodeAll(s.sent))
  }

  /** Padding aside, what was sent and what is buffered is what was submitted. */
  ghost predicate SumInv(s: Sys) {
    && AllWellFramed(s.sent)
    && NonWaste(s.sent) <= s.submitted
    && (!s.w.broken ==> NonWaste(s.sent) + s.pending == s.submitted)
    && (s.w.buffering ==> !s.w.broken)
    && (s.pending != [] ==> !s.w.broken)
  }

  /** What is submitted begins with the settings, on the wire too. */
  ghost predicate FirstInv(s: Sys) {
    && s.ran == (s.submitted != [])
    && (s.submitted == [] ==> !s.w.broken)
    && (s.ran ==> s.submitted[0].cmd == CMD_SETTINGS && s.submitted[0].data != [])
    && (s.sent != [] ==> s.submitted != [] && s.sent[0] == s.submitted[0])
  }

  /** What is submitted is orderly and carries the bytes written. */
  ghost predicate OrderInv(s: Sys) {
    && (forall i :: 0 <= i < |s.submitted| ==> Kind(s.submitted[i]))
    && Orderly(s.submitted)
    && (forall sid :: Payload(s.submitted, sid) == s.Written(sid))
    && s.usable <= Announced(s.submitted)
  }

  ghost predicate ReadInv(s: Sys) {
    s.got <= s.sent && s.at == |EncodeAll(s.got)| <= |s.w.Wire()|
  }

  ghost predicate Inv(s: Sys) {
    WireInv(s) && SumInv(s) && FirstInv(s) && OrderInv(s) && ReadInv(s) && Tracks(s.server, s.got) && Greeted(s.server, s.got)
  }

  /** What the frames of one flush encode to. */
  lemma FlushEncodes(s: Sys, f: Frame, d: Draw)
    requires s.w.buffer == EncodeAll(s.pending) && Positive(d.sizes)
    ensures Flatten(Attempted(s.w, Encode(f), d.stop, d.sizes)) == EncodeAll(s.pending + [f] + Extra(s.w, f, d))
  {
    var payload, extra := s.w.buffer + Encode(f), Extra(s.w, f, d);
    EncodeAllAppend(s.pending, [f]);
    EncodeAllSingle(f);
    EncodeAllAppend(s.pending + [f], extra);
    if Pads(s.w.sendPadding, s.w.pktCounter, d.stop) {
      CutCarriesPayload(payload, d.sizes);
    } else {
      FlattenSingle(payload);
    }
  }

  /** A write keeps the wire and the traces together, and only appends to both. */
  lemma WireKept(s: Sys, f: Frame, d: Draw)
    requires WireInv(s) && (s.w.buffering ==> !s.w.broken) && Allowed(s.w, f, d)
    ensures var s' := Submit(s, f, d);
            WireInv(s') && s.w.Wire() <= s'.w.Wire() && s.sent <= s'.sent
  {
    if s.w.buffering {
      EncodeAllAppend(s.pending, [f]);
      EncodeAllSingle(f);
    } else if !s.w.broken {
      var attempted := Attempted(s.w, Encode(f), d.stop, d.sizes);
      FlushEncodes(s, f, d);
      FlattenAppend(s.w.records, attempted);
      EncodeAllAppend(s.sent, s.pending + [f] + Extra(s.w, f, d));
      var grown := d.after.records[|s.w.records|..];
      assert d.after.records == s.w.records + grown;
      FlattenAppend(s.w.records, grown);
    }
  }

  lemma {:induction false} AllWasteVanishes(fs: seq<Frame>)
    requires AllWaste(fs)
    ensures NonWaste(fs) == []
  {
    if fs != [] { AllWasteVanishes(fs[1..]); }
  }

  lemma FlushSums(sent: seq<Frame>, pending: seq<Frame>, f: Frame, extra: seq<Frame>, submitted: seq<Frame>)
    requires NonWaste(sent) + pending == submitted && AllWaste(extra)
    requires forall i :: 0 <= i < |submitted| ==> Kind(submitted[i])
    requires Kind(f)
    ensures NonWaste(sent + (pending + [f] + extra)) == submitted + [f]
    ensures AllWellFramed(pending + [f] + extra)
  {
    forall i | 0 <= i < |pending| ensures Kind(pending[i]) {
      assert submitted[|NonWaste(sent)| + i] == pending[i];
    }
    NonWasteIdentity(pending + [f]);
    AllWasteVanishes(extra);
    NonWasteAppend(pending + [f], extra);
    NonWasteAppend(sent, pending + [f] + extra);
    assert NonWaste(sent) + (pending + [f] + []) == submitted + [f];
  }

  lemma SumKept(s: Sys, f: Frame, d: Draw)
    requires SumInv(s) && OrderInv(s) && Kind(f) && Allowed(s.w, f, d)
    ensures SumInv(Submit(s, f, d))
  {
    if !s.w.buffering && !s.w.broken {
      FlushSums(s.sent, s.pending, f, Extra(s.w, f, d), s.submitted);
    }
  }

  /** A frame the client may submit now. */
  ghost predicate InOrder(s: Sys, f: Frame) {
    && Kind(f)
    && (f.cmd == CMD_SYN ==> f.sid !in Announced(s.submitted))
    && (f.cmd == CMD_PSH ==> f.sid in Announced(s.submitted))
    && (s.submitted == [] ==> f.cmd == CMD_SETTINGS && f.data != [])
  }

  /** The whole state after a frame was submitted. */
  function AfterSubmit(s: Sys, f: Frame, d: Draw): Sys
    requires Positive(d.sizes)
  {
    Submit(s, f, d).(ran := true,
      written := if f.cmd == CMD_PSH then s.written[f.sid := s.Written(f.sid) + f.data] else s.written)
  }

  lemma OrderKept(s: Sys, f: Frame, d: Draw)
    requires OrderInv(s) && InOrder(s, f) && Positive(d.sizes)
    ensures OrderInv(AfterSubmit(s, f, d))
  {
    Snoc(s.submitted, f);
    var s' := AfterSubmit(s, f, d);
    assert s'.submitted == s.submitted + [f];
    forall sid ensures Payload(s'.submitted, sid) == s'.Written(sid) {
      assert Payload(s.submitted, sid) == s.Written(sid);
    }
  }

  lemma FirstKept(s: Sys, f: Frame, d: Draw)
    requires FirstInv(s) && SumInv(s) && InOrder(s, f) && Positive(d.sizes)
    ensures FirstInv(AfterSubmit(s, f, d))
  {
    if !s.w.buffering && !s.w.broken && s.sent == [] {
      assert NonWaste(s.sent) == [] && s.pending == s.submitted;
    }
  }

  lemma SubmitKeepsInv(s: Sys, f: Frame, d: Draw)
    requires Inv(s) && InOrder(s, f) && Allowed(s.w, f, d)
    ensures Inv(AfterSubmit(s, f, d))
  {
    var s' := AfterSubmit(s, f, d);
    WireKept(s, f, d);
    SumKept(s, f, d);
    OrderKept(s, f, d);
    FirstKept(s, f, d);
    assert WireInv(s') && SumInv(s');
  }

  /** The next frame the server reads is the next one sent. */
  lemma NextFrame(s: Sys)
    requires WireInv(s) && ReadInv(s) && AllWellFramed(s.sent) && Parse(s.w.Wire()[s.at..]).Got?
    ensures var p := Parse(s.w.Wire()[s.at..]);
            && s.got + [p.frame] <= s.sent
            && s.at + p.used == |EncodeAll(s.got + [p.frame])| <= |s.w.Wire()|
  {
    var m := |s.got|;
    var rest := s.w.Wire()[s.at..];
    assert s.sent == s.got + s.sent[m..];
    EncodeAllAppend(s.got, s.sent[m..]);
    PrefixDrop(EncodeAll(s.got), s.w.Wire(), EncodeAll(s.sent[m..]));
    ParsePrefix(s.sent[m..], rest);
    EncodeAllAppend(s.got, [s.sent[m]]);
    EncodeAllSingle(s.sent[m]);
  }

  /** Any frames at the front of those sent are orderly and carry a prefix of what was written. */
  lemma SentPrefixFacts(s: Sys, fs: seq<Frame>, sid: u32)
    requires SumInv(s) && OrderInv(s) && fs <= s.sent
    ensures Orderly(fs) && Payload(fs, sid) <= s.Written(sid)
  {
    var kept := NonWaste(s.sent);
    NonWasteFacts(s.sent, sid);
    PrefixFacts(s.submitted, |kept|, sid);
    assert s.submitted[..|kept|] == kept;
    PrefixFacts(s.sent, |fs|, sid);
    assert s.sent[..|fs|] == fs;
    assert Payload(s.submitted, sid) == s.Written(sid);
  }

  /** The server, having read frame `f`, is in state `server`. */
  function Advance(s: Sys, f: Frame, used: nat, server: RecvState): Sys {
    s.(server := server, at := s.at + used, got := s.got + [f])
  }

  lemma AdvanceKeepsInv(s: Sys, f: Frame, used: nat, server: RecvState)
    requires Inv(s)
    requires s.got + [f] <= s.sent && s.at + used == |EncodeAll(s.got + [f])| <= |s.w.Wire()|
    requires Tracks(server, s.got + [f]) && Greeted(server, s.got + [f])
    ensures Inv(Advance(s, f, used, server))
  {}

  lemma ReceiveKeepsInv(s: Sys, f: Frame, used: nat, env: Env, md5: Digest)
    requires Inv(s) && Parse(s.w.Wire()[s.at..]) == Got(f, used)
    ensures Inv(Advance(s, f, used, Handle(s.server, f, env, md5)))
  {
    NextFrame(s);
    SentPrefixFacts(s, s.got + [f], 0);
    HandleTracks(s.server, s.got, f, env, md5);
    assert s.got == [] ==> f == s.sent[0];
    HandleGreeted(s.server, s.got, f, env, md5);
    AdvanceKeepsInv(s, f, used, Handle(s.server, f, env, md5));
  }

  /** Steps that write nothing. */
  lemma QuietStepKeepsInv(s: Sys, step: Step, s': Sys)
    requires Inv(s) && Next(s, step, s')
    requires step.Allocate? || step.Unbuffer? || step.Insert?
    ensures Inv(s')
  {
    hide Tracks, Greeted, Payload, Announced, Orderly, NonWaste, EncodeAll, Handle, Writes;
  }

  lemma StartBuffering(s: Sys)
    requires Inv(s) && !s.ran
    ensures Inv(s.(w := s.w.(buffering := true)))
  {
    hide Tracks, Greeted, Payload, Announced, Orderly, NonWaste, EncodeAll;
  }

  lemma ServerChangeKeepsInv(s: Sys, server: RecvState)
    requires Inv(s) && Shrinks(s.server, server) && Greeted(server, s.got)
    ensures Inv(s.(server := server))
  {
    hide Tracks, Greeted, Shrinks, WireInv, SumInv, FirstInv, OrderInv, Payload, Announced, Orderly;
    ShrinkTracks(s.server, s.got, server);
    SameClient(s, s.(server := server));
  }

  lemma SameClient(s: Sys, s': Sys)
    requires WireInv(s) && SumInv(s) && FirstInv(s) && OrderInv(s)
    requires s' == s.(server := s'.server)
    ensures WireInv(s') && SumInv(s') && FirstInv(s') && OrderInv(s')
  {
    assert forall sid :: s'.Written(sid) == s.Written(sid);
  }

  lemma ServerStepKeepsInv(s: Sys, step: Step, s': Sys)
    requires Inv(s) && Next(s, step, s')
    requires step.ServerClosePipe? || step.ServerDelete? || step.ServerStop?
    ensures Inv(s')
  {
    hide Tracks, WireInv, SumInv, FirstInv, OrderInv, Handle, Writes;
    ServerChangeKeepsInv(s, s'.server);
  }

  /** The frame a writing step submits, and its draw. */
  function Submission(step: Step): Option<(Frame, Draw)> {
    match step
    case Run(settings, d) => Some((Frame(CMD_SETTINGS, 0, settings), d))
    case Announce(sid, d) => Some((Frame(CMD_SYN, sid, []), d))
    case Write(sid, data, d) => Some((Frame(CMD_PSH, sid, data), d))
    case Finish(sid, d) => Some((Frame(CMD_FIN, sid, []), d))
    case HeartResponse(sid, d) => Some((Frame(CMD_HEART_RESPONSE, sid, []), d))
    case _ => None
  }

  function Prepared(s: Sys, step: Step): Sys {
    if step.Run? then s.(w := s.w.(buffering := true)) else s
  }

  lemma WriteStepSubmits(s: Sys, step: Step, s': Sys)
    requires FirstInv(s) && OrderInv(s) && Next(s, step, s') && Submission(step).Some?
    ensures var (f, d) := Submission(step).value;
            && Allowed(Prepared(s, step).w, f, d) && InOrder(Prepared(s, step), f)
            && s' == AfterSubmit(Prepared(s, step), f, d)
  {
    hide Writes, Payload, Orderly, Handle;
    var (f, d) := Submission(step).value;
    match step
    case Run(_, _) => assert InOrder(Prepared(s, step), f);
    case Announce(_, _) => assert InOrder(s, f);
    case Write(_, _, _) => assert InOrder(s, f);
    case Finish(_, _) => assert InOrder(s, f);
    case HeartResponse(_, _) => assert InOrder(s, f);
  }

  lemma StepKeepsInv(s: Sys, step: Step, s': Sys)
    requires Inv(s) && Next(s, step, s')
    ensures Inv(s')
  {
    hide WireInv, SumInv, FirstInv, OrderInv, ReadInv, Tracks, Greeted, Handle, Writes, Allowed, InOrder, AfterSubmit;
    if Submission(step).Some? {
      hide Next;
      var (f, d) := Submission(step).value;
      WriteStepSubmits(s, step, s');
      if step.Run? { StartBuffering(s) by { NotYetRun(s, step, s'); } }
      SubmitKeepsInv(Prepared(s, step), f, d);
    } else if step.Receive? {
      var p := Parse(s.w.Wire()[s.at..]);
      ReceiveKeepsInv(s, p.frame, p.used, step.env, step.md5);
    } else if step.Allocate? || step.Unbuffer? || step.Insert? {
      hide Next;
      QuietStepKeepsInv(s, step, s');
    } else {
      hide Next;
      ServerStepKeepsInv(s, step, s');
    }
  }

  lemma NotYetRun(s: Sys, step: Step, s': Sys)
    requires Next(s, step, s') && step.Run?
    ensures !s.ran
  {}

  /** A server that has read the whole of an unbroken wire, with nothing in the client's buffer, has
      handled all that was submitted. */
  lemma AllGot(s: Sys)
    requires Inv(s) && !s.w.broken && s.w.buffer == [] && s.at == |s.w.Wire()|
    ensures s.got == s.sent && NonWaste(s.sent) == s.submitted
  {
    hide Tracks, Greeted, OrderInv;
    NothingEncodesToNothing(s.pending);
    assert s.sent == s.got + s.sent[|s.got|..];
    EncodeAllAppend(s.got, s.sent[|s.got|..]);
    NothingEncodesToNothing(s.sent[|s.got|..]);
    assert NonWaste(s.sent) + [] == NonWaste(s.sent);
  }

  lemma AllHandedOver(s: Sys, sid: u32)
    requires Inv(s)
    requires !s.w.broken && s.w.buffer == [] && s.at == |s.w.Wire()| && Open(s.server, sid)
    ensures s.server.Handed(sid) == s.Written(sid)
  {
    AllGot(s);
    NonWasteFacts(s.sent, sid);
    assert Payload(s.submitted, sid) == s.Written(sid);
  }

  /** What a session's own write does is one of the writes considered here. */
  lemma SendsIsAllowed(w: SendState, f: Frame, scheme: Factory, sizes: seq<int>, w': SendState)
    requires Sends(w, Encode(f), scheme, sizes, w') && SchemeFits(scheme)
    ensures Allowed(w, f, Draw(scheme.stop, sizes, w'))
  {
    hide Writes, SchemeFits, SizesFit, Draws;
  }

  lemma NothingEncodesToNothing(fs: seq<Frame>)
    requires EncodeAll(fs) == []
    ensures fs == []
  {}
}
