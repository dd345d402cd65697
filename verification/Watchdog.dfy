/** The stream-open watchdog: OpenStream arms a three-second watcher, a SYNACK or the next open
    cancels it, and a watcher that times out closes the session. */
module Watchdog {
  import opened Bytes

  /** The watcher's goroutine: in its select; past it by the timeout case, about to close the
      session; or gone. */
  datatype Routine = Selecting | TimingOut | Gone

  /** `acked` records whether a SYNACK was processed since the watcher was armed, and is only a
      trace, as is `fired`. */
  datatype Watcher = Watcher(cancelled: bool, expired: bool, routine: Routine, acked: bool, fired: bool)

  datatype State = State(synDone: Option<nat>, watchers: seq<Watcher>, lastId: nat, peerV2: bool, closed: bool)

  function Fresh(): State {
    State(None, [], 0, false, false)
  }

  /** Calling a watcher's done function: only the first call closes its channel. */
  function Cancel(s: State, w: nat): State
    requires w < |s.watchers|
  {
    s.(watchers := s.watchers[w := s.watchers[w].(cancelled := true)])
  }

  function Arm(s: State): State {
    s.(watchers := s.watchers + [Watcher(false, false, Selecting, false, false)], synDone := Some(|s.watchers|))
  }

  function AckAll(ws: seq<Watcher>): (r: seq<Watcher>)
    ensures |r| == |ws|
  {
    seq(|ws|, i requires 0 <= i < |ws| => ws[i].(acked := true))
  }

  datatype Step = OpenStream | SynAck | ServerSettings(v2: bool)
    | Expire(w: nat) | TakeCancel(w: nat) | TakeTimeout(w: nat) | Close(w: nat) | CloseElsewhere

  function Put(s: State, w: nat, x: Watcher): State
    requires w < |s.watchers|
  {
    s.(watchers := s.watchers[w := x])
  }

  ghost predicate Next(s: State, step: Step, s': State) {
    match step
    case OpenStream =>
      && !s.closed && s.lastId < 0xffff_ffff
      && (s.synDone.Some? ==> s.synDone.value < |s.watchers|)
      && (var s1 := s.(lastId := s.lastId + 1);
          s' == if s1.lastId >= 2 && s.peerV2 then Arm(if s.synDone.Some? then Cancel(s1, s.synDone.value) else s1)
                else s1)
    case SynAck =>
      && (s.synDone.Some? ==> s.synDone.value < |s.watchers|)
      && (var s1 := if s.synDone.Some? then Cancel(s, s.synDone.value).(synDone := None) else s;
          s' == s1.(watchers := AckAll(s1.watchers)))
    case ServerSettings(v2) => s' == s.(peerV2 := v2)
    case Expire(w) => w < |s.watchers| && s' == Put(s, w, s.watchers[w].(expired := true))
    case TakeCancel(w) =>
      && w < |s.watchers| && s.watchers[w].routine.Selecting? && s.watchers[w].cancelled
      && s' == Put(s, w, s.watchers[w].(routine := Gone))
    case TakeTimeout(w) =>
      && w < |s.watchers| && s.watchers[w].routine.Selecting? && s.watchers[w].expired
      && s' == Put(s, w, s.watchers[w].(routine := TimingOut))
    case Close(w) =>
      && w < |s.watchers| && s.watchers[w].routine.TimingOut?
      && s' == Put(s, w, s.watchers[w].(routine := Gone, fired := true)).(closed := true)
    case CloseElsewhere => s' == s.(closed := true)
  }

  /** A watcher is cancelled exactly when a SYNACK was processed since it was armed or a later open
      has armed another; the one left over is the one held. */
  ghost predicate Inv(s: State) {
    && (s.synDone.Some? ==> s.synDone.value == |s.watchers| - 1)
    && (forall w :: 0 <= w < |s.watchers| ==>
          (s.watchers[w].cancelled <==> s.watchers[w].acked || w < |s.watchers| - 1))
    && (forall w :: 0 <= w < |s.watchers| ==> (!s.watchers[w].cancelled <==> s.synDone == Some(w)))
    && (forall w :: 0 <= w < |s.watchers| ==>
          (s.watchers[w].routine.TimingOut? || s.watchers[w].fired ==> s.watchers[w].expired))
  }

  /** A watcher's own steps touch neither its cancellation nor its trace of SYNACKs. */
  lemma PutKeeps(s: State, w: nat, x: Watcher)
    requires Inv(s) && w < |s.watchers|
    requires x.cancelled == s.watchers[w].cancelled && x.acked == s.watchers[w].acked
    requires x.routine.TimingOut? || x.fired ==> x.expired
    ensures Inv(Put(s, w, x))
  {}

  lemma ArmKeeps(s: State)
    requires Inv(s)
    ensures Inv(Arm(if s.synDone.Some? then Cancel(s, s.synDone.value) else s))
  {}

  lemma AckKeeps(s: State)
    requires Inv(s)
    ensures var s1 := if s.synDone.Some? then Cancel(s, s.synDone.value).(synDone := None) else s;
            Inv(s1.(watchers := AckAll(s1.watchers)))
  {
    var s1 := if s.synDone.Some? then Cancel(s, s.synDone.value).(synDone := None) else s;
    forall w | 0 <= w < |s.watchers| ensures s1.watchers[w].cancelled {}
  }

  lemma StepKeepsInv(s: State, step: Step, s': State)
    requires Inv(s) && Next(s, step, s')
    ensures Inv(s')
  {
    match step
    case OpenStream => ArmKeeps(s.(lastId := s.lastId + 1));
    case SynAck => AckKeeps(s);
    case Expire(w) => PutKeeps(s, w, s'.watchers[w]);
    case TakeCancel(w) => PutKeeps(s, w, s'.watchers[w]);
    case TakeTimeout(w) => PutKeeps(s, w, s'.watchers[w]);
    case Close(w) => PutKeeps(s, w, s'.watchers[w]);
    case _ =>
  }

  ghost predicate IsRun(run: seq<State>, steps: seq<Step>) {
    && |run| == |steps| + 1
    && run[0] == Fresh()
    && forall i :: 0 <= i < |steps| ==> Next(run[i], steps[i], run[i + 1])
  }

  lemma {:induction false} RunKeepsInv(run: seq<State>, steps: seq<Step>)
    requires IsRun(run, steps)
    ensures Inv(run[|steps|])
    decreases |steps|
  {
    if steps != [] {
      var n := |steps| - 1;
      RunKeepsInv(run[..n + 1], steps[..n]);
      StepKeepsInv(run[n], steps[n], run[n + 1]);
    }
  }

  /** At most one watcher is armed, and it is the one held in `synDone`. */
  lemma ArmedIsHeld(run: seq<State>, steps: seq<Step>, w: nat)
    requires IsRun(run, steps) && w < |run[|steps|].watchers|
    ensures !run[|steps|].watchers[w].cancelled <==> run[|steps|].synDone == Some(w)
  {
    RunKeepsInv(run, steps);
  }

  /** The watcher that closes the session has timed out, and it was still armed exactly when no
      SYNACK was processed since it was armed and no later open replaced it. */
  lemma ClosesUnackedIffArmed(run: seq<State>, steps: seq<Step>, w: nat, s': State)
    requires IsRun(run, steps) && Next(run[|steps|], Close(w), s')
    ensures var s := run[|steps|];
            && s.watchers[w].expired
            && (!s.watchers[w].cancelled <==> !s.watchers[w].acked && w == |s.watchers| - 1)
  {
    RunKeepsInv(run, steps);
  }

  /** The streams opened by some steps, and whether the last server settings among them named version 2. */
  function OpenedBy(steps: seq<Step>): nat {
    if steps == [] then 0
    else OpenedBy(steps[..|steps| - 1]) + if steps[|steps| - 1].OpenStream? then 1 else 0
  }

  function LatestIsV2(steps: seq<Step>): bool {
    if steps == [] then false
    else if steps[|steps| - 1].ServerSettings? then steps[|steps| - 1].v2
    else LatestIsV2(steps[..|steps| - 1])
  }

  lemma KnowsMore(s: State, step: Step, s': State)
    requires Next(s, step, s')
    ensures s'.lastId == s.lastId + if step.OpenStream? then 1 else 0
    ensures s'.peerV2 == if step.ServerSettings? then step.v2 else s.peerV2
  {
    hide AckAll;
  }

  lemma {:induction false} WhatOpensKnow(run: seq<State>, steps: seq<Step>, i: nat)
    requires IsRun(run, steps) && i <= |steps|
    ensures run[i].lastId == OpenedBy(steps[..i]) && run[i].peerV2 == LatestIsV2(steps[..i])
  {
    hide Next;
    if i > 0 {
      WhatOpensKnow(run, steps, i - 1);
      assert steps[..i][..i - 1] == steps[..i - 1];
      KnowsMore(run[i - 1], steps[i - 1], run[i]);
    }
  }

  /** An open arms a watcher, cancelling the one before, if and only if it is not the session's first and
      the server has said it speaks version 2; otherwise it leaves the watchers alone. */
  lemma ArmsIff(run: seq<State>, steps: seq<Step>, i: nat)
    requires IsRun(run, steps) && i < |steps| && steps[i] == OpenStream
    ensures var (before, after) := (run[i], run[i + 1]);
            if OpenedBy(steps[..i]) >= 1 && LatestIsV2(steps[..i]) then
              && |after.watchers| == |before.watchers| + 1 && after.synDone == Some(|before.watchers|)
              && after.watchers[|before.watchers|] == Watcher(false, false, Selecting, false, false)
              && (forall w :: 0 <= w < |before.watchers| ==> after.watchers[w] == before.watchers[w].(cancelled := true))
            else after.watchers == before.watchers && after.synDone == before.synDone
  {
    WhatOpensKnow(run, steps, i);
    RunKeepsInv(run[..i + 1], steps[..i]);
    assert Next(run[i], steps[i], run[i + 1]);
    assert Inv(run[i]);
  }

  /** A SYNACK cancels the watcher that is armed, so that none is. */
  lemma AckDisarms(run: seq<State>, steps: seq<Step>, i: nat)
    requires IsRun(run, steps) && i < |steps| && steps[i] == SynAck
    ensures var (before, after) := (run[i], run[i + 1]);
            && after.synDone.None? && |after.watchers| == |before.watchers|
            && forall w :: 0 <= w < |before.watchers| ==>
                 after.watchers[w] == before.watchers[w].(cancelled := true, acked := true)
  {
    RunKeepsInv(run[..i + 1], steps[..i]);
    assert Next(run[i], steps[i], run[i + 1]);
    assert Inv(run[i]);
  }

  /** A cancelled watcher can still close the session: the SYNACK may come after its goroutine
      left the select by the timeout case. */
  lemma AckedWatcherCanClose() returns (run: seq<State>, steps: seq<Step>)
    ensures IsRun(run, steps) && steps != [] && steps[|steps| - 1] == Close(0)
    ensures var s := run[|steps| - 1];
            |s.watchers| == 1 && s.watchers[0].acked && !s.closed && run[|steps|].closed
  {
    var x := Watcher(false, false, Selecting, false, false);
    var s0 := Fresh();
    var s1 := s0.(peerV2 := true);
    var s2 := s1.(lastId := 1);
    var s3 := s2.(lastId := 2, watchers := [x], synDone := Some(0));
    var s4 := s3.(watchers := [x.(expired := true)]);
    var s5 := s3.(watchers := [x.(expired := true, routine := TimingOut)]);
    var s6 := s5.(synDone := None, watchers := [x.(expired := true, routine := TimingOut, cancelled := true, acked := true)]);
    var s7 := s6.(closed := true, watchers := [Watcher(true, true, Gone, true, true)]);
    run := [s0, s1, s2, s3, s4, s5, s6, s7];
    steps := [ServerSettings(true), OpenStream, OpenStream, Expire(0), TakeTimeout(0), SynAck, Close(0)];
    assert Next(s5, SynAck, s6) by {
      assert AckAll(Cancel(s5, 0).watchers) == s6.watchers;
    }
    assert forall i :: 0 <= i < |steps| ==> Next(run[i], steps[i], run[i + 1]);
  }
}
