/** What holds in every run of a client session against the server's loop. */
module ClientToServer {
  import opened Bytes
  import opened Frames
  import opened Traces
  import opened Writer
  import opened Receiver
  import opened Delivery
  import opened Multiplex

  /** A run of the system: any sequence of steps from a fresh session. */
  ghost predicate IsRun(run: seq<Sys>, steps: seq<Step>) {
    && |run| == |steps| + 1
    && Init(run[0])
    && forall i :: 0 <= i < |steps| ==> Next(run[i], steps[i], run[i + 1])
  }

  function Last<T>(run: seq<T>): T
    requires run != []
  {
    run[|run| - 1]
  }

  lemma InitInv(s: Sys)
    requires Init(s)
    ensures Inv(s)
  {
    assert Flatten(s.w.records) == [] && EncodeAll([]) == [];
  }

  lemma {:induction false} RunKeepsInv(run: seq<Sys>, steps: seq<Step>)
    requires IsRun(run, steps)
    ensures Inv(Last(run))
    decreases |steps|
  {
    hide Inv, Init, Next;
    if steps == [] {
      InitInv(run[0]);
    } else {
      var n := |steps| - 1;
      RunKeepsInv(run[..n + 1], steps[..n]);
      StepKeepsInv(run[n], steps[n], run[n + 1]);
    }
  }

  /** End to end: in every run, whatever padding is drawn, however the steps interleave and
      wherever the connection breaks, the bytes the server hands to a stream are a prefix of the
      bytes the client wrote on that stream. */
  lemma DeliveredIsPrefixOfWritten(run: seq<Sys>, steps: seq<Step>, sid: u32)
    requires IsRun(run, steps)
    ensures Last(run).server.Handed(sid) <= Last(run).Written(sid)
  {
    var s := Last(run);
    RunKeepsInv(run, steps);
    SentPrefixFacts(s, s.got, sid);
    assert s.server.Handed(sid) <= Payload(s.got, sid);
  }

  /** Nothing is held back: once the server has read the whole wire of a connection that has not
      broken, and the start-up buffer is flushed, a stream whose pipe is open has all its bytes. */
  lemma AllWrittenIsDelivered(run: seq<Sys>, steps: seq<Step>, sid: u32)
    requires IsRun(run, steps)
    requires var s := Last(run);
             !s.w.broken && s.w.buffer == [] && s.at == |s.w.Wire()| && Open(s.server, sid)
    ensures Last(run).server.Handed(sid) == Last(run).Written(sid)
  {
    RunKeepsInv(run, steps);
    AllHandedOver(Last(run), sid);
  }

  /** Padding transparency: at every point of every run on an unbroken connection, dropping the
      waste frames from all bytes sent so far and appending the start-up buffer gives exactly the
      encodings of all submitted frames. */
  lemma PaddingIsTransparent(run: seq<Sys>, steps: seq<Step>)
    requires IsRun(run, steps) && !Last(run).w.broken
    ensures var s := Last(run);
            && NonWaste(ParseAll(s.w.Wire())) + ParseAll(s.w.buffer) == s.submitted
            && EncodeAll(NonWaste(ParseAll(s.w.Wire()))) + s.w.buffer == EncodeAll(s.submitted)
  {
    hide Init, Next;
    var s := Last(run);
    RunKeepsInv(run, steps);
    ParseAllPrefix(s.sent, s.w.Wire());
    forall i | 0 <= i < |s.pending| ensures WellFramed(s.pending[i]) {
      assert s.submitted[|NonWaste(s.sent)| + i] == s.pending[i];
    }
    ParseAllPrefix(s.pending, s.w.buffer);
    EncodeAllAppend(NonWaste(s.sent), s.pending);
  }

  /** After the connection broke, what did reach the wire is still only whole submitted frames in
      order, with padding, and perhaps part of one more. */
  lemma BrokenWireIsPrefix(run: seq<Sys>, steps: seq<Step>)
    requires IsRun(run, steps)
    ensures NonWaste(ParseAll(Last(run).w.Wire())) <= Last(run).submitted
  {
    var s := Last(run);
    RunKeepsInv(run, steps);
    ParseAllPrefix(s.sent, s.w.Wire());
    NonWastePrefix(ParseAll(s.w.Wire()), s.sent);
  }

  /** The client's settings come first on the wire, and no alert was ever written. */
  lemma SettingsComeFirst(run: seq<Sys>, steps: seq<Step>)
    requires IsRun(run, steps)
    ensures var s := Last(run);
            && NoAlerts(s.server.out) && (s.got != [] ==> s.server.gotSettings)
            && (ParseAll(s.w.Wire()) != [] ==> ParseAll(s.w.Wire())[0].cmd == CMD_SETTINGS)
  {
    var s := Last(run);
    RunKeepsInv(run, steps);
    ParseAllPrefix(s.sent, s.w.Wire());
  }

  /** The frame the server can read next. */
  function NextRead(s: Sys): Option<Frame> {
    if s.at > |s.w.Wire()| then None
    else match Parse(s.w.Wire()[s.at..]) case More => None case Got(f, _) => Some(f)
  }

  lemma FirstReadIsSettings(s: Sys, step: Step, s': Sys)
    requires Inv(s) && Next(s, step, s') && step.Receive?
    ensures NextRead(s).Some?
    ensures NextRead(s).value.cmd == CMD_SYN ==> s.server.gotSettings
    ensures s.got == [] ==> NextRead(s).value.cmd == CMD_SETTINGS
  {
    hide Handle, OrderInv, Tracks;
    NextFrame(s);
  }

  /** So in no run does the server reach the branch that alerts, whether or not the alert could be
      written: whenever the frame it reads is a SYN it has the settings, and the first it reads is the
      settings. */
  lemma NoMissingSettingsAlert(run: seq<Sys>, steps: seq<Step>, i: nat)
    requires IsRun(run, steps) && i < |steps| && steps[i].Receive?
    ensures NextRead(run[i]).Some?
    ensures NextRead(run[i]).value.cmd == CMD_SYN ==> run[i].server.gotSettings
    ensures run[i].got == [] ==> NextRead(run[i]).value.cmd == CMD_SETTINGS
  {
    hide Inv, NextRead;
    RunKeepsInv(run[..i + 1], steps[..i]);
    assert run[..i + 1][i] == run[i];
    assert Next(run[i], steps[i], run[i + 1]);
    hide Next;
    FirstReadIsSettings(run[i], steps[i], run[i + 1]);
  }
}
