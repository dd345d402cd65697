/** The pipe deadline: a replaceable channel closed by a timer callback that runs without the
    mutex. Channels and timers are numbered; each step is one action of one thread. */
module Deadline {
  import opened Bytes
  import Runs

  type Chan = nat
  type TimerId = nat

  /** A timer is armed; has fired with its callback still to read the `cancel` field; has read it,
      with the channel still to close; or is finished or stopped. `target` is the channel in the
      field when it was armed, and is only a trace. */
  datatype Status = Armed | Fired | Loaded(ch: Chan) | Finished | Stopped
  datatype Timer = Timer(status: Status, target: Chan)

  /** The thread inside `Set`: has the mutex; waits for channel `on`; has dropped the timer; has
      seen whether the channel is closed. */
  datatype Setter = NoSetter | Locked | Waiting(on: Chan) | Dropped | Decided(wasClosed: bool)

  datatype When = Never | Later | Past

  /** `panicked` records a close of a closed channel. `held` are the channels waiters were given. */
  datatype State = State(
    timer: Option<TimerId>, cancel: Chan, chans: nat, closed: set<Chan>,
    timers: seq<Timer>, setter: Setter, held: set<Chan>, panicked: bool)

  function Fresh(): State {
    State(None, 0, 1, {}, [], NoSetter, {}, false)
  }

  function Close(s: State, c: Chan): State {
    if c in s.closed then s.(panicked := true) else s.(closed := s.closed + {c})
  }

  /** A new channel replaces a closed one. */
  function Renew(s: State, wasClosed: bool): State {
    if wasClosed then s.(cancel := s.chans, chans := s.chans + 1) else s
  }

  function Act(s: State, wasClosed: bool, t: When): State {
    var s1 := s.(setter := NoSetter);
    match t
    case Never => Renew(s1, wasClosed)
    case Later =>
      var s2 := Renew(s1, wasClosed);
      s2.(timer := Some(|s2.timers|), timers := s2.timers + [Timer(Armed, s2.cancel)])
    case Past => if wasClosed then s1 else Close(s1, s1.cancel)
  }

  datatype Step = Lock | Stop | Wake | Decide | Finish(at: When) | Fire(t: TimerId) | Load(t: TimerId) | Callback(t: TimerId) | Wait

  function SetStatus(s: State, t: TimerId, status: Status): State
    requires t < |s.timers|
  {
    s.(timers := s.timers[t := s.timers[t].(status := status)])
  }

  ghost predicate Next(s: State, step: Step, s': State) {
    match step
    case Lock => s.setter.NoSetter? && s' == s.(setter := Locked)
    case Stop =>
      && s.setter.Locked?
      && (s.timer.Some? ==> s.timer.value < |s.timers|)
      && (s' == if s.timer.None? then s.(setter := Dropped)
                else if s.timers[s.timer.value].status.Armed? then
                  SetStatus(s, s.timer.value, Stopped).(setter := Dropped)
                else s.(setter := Waiting(s.cancel)))
    case Wake => s.setter.Waiting? && s.setter.on in s.closed && s' == s.(setter := Dropped)
    case Decide => s.setter.Dropped? && s' == s.(timer := None, setter := Decided(s.cancel in s.closed))
    case Finish(t) => s.setter.Decided? && s' == Act(s, s.setter.wasClosed, t)
    case Fire(t) => t < |s.timers| && s.timers[t].status.Armed? && s' == SetStatus(s, t, Fired)
    case Load(t) => t < |s.timers| && s.timers[t].status.Fired? && s' == SetStatus(s, t, Loaded(s.cancel))
    case Callback(t) =>
      && t < |s.timers| && s.timers[t].status.Loaded?
      && s' == Close(SetStatus(s, t, Finished), s.timers[t].status.ch)
    case Wait => s.setter.NoSetter? && s' == s.(held := s.held + {s.cancel})
  }

  predicate Live(status: Status) {
    status.Armed? || status.Fired? || status.Loaded?
  }

  ghost predicate Inv(s: State) {
    && !s.panicked
    && s.cancel == s.chans - 1
    && (forall c :: c in s.held || c in s.closed ==> c < s.chans)
    && (forall c: Chan :: c < s.cancel ==> c in s.closed)
    && (s.timer.Some? ==> s.timer.value < |s.timers|)
    // a live timer is the one in the field, and what it will close is open and what it was armed for
    && (forall t :: 0 <= t < |s.timers| && Live(s.timers[t].status) ==>
          s.timer == Some(t) && s.timers[t].target == s.cancel && s.cancel !in s.closed && !s.setter.Decided?)
    // and what its callback has read is still in the field
    && (forall t :: 0 <= t < |s.timers| && s.timers[t].status.Loaded? ==> s.timers[t].status.ch == s.cancel)
    // a timer in the field that is not live has closed the channel, unless Set just stopped it
    && (s.timer.Some? && s.timers[s.timer.value].status.Finished? ==> s.cancel in s.closed)
    && (s.timer.Some? && s.timers[s.timer.value].status.Stopped? ==> s.setter.Dropped?)
    && (s.setter.Waiting? ==> s.setter.on == s.cancel && s.timer.Some? && !s.timers[s.timer.value].status.Armed?)
    && (s.setter.Dropped? ==> forall t :: 0 <= t < |s.timers| ==> !Live(s.timers[t].status))
    && (s.setter.Decided? ==> s.timer.None? && s.setter.wasClosed == (s.cancel in s.closed))
  }

  lemma TimerKeepsInv(s: State, step: Step, s': State)
    requires Inv(s) && Next(s, step, s') && (step.Fire? || step.Load? || step.Callback?)
    ensures Inv(s')
  {}

  lemma FinishKeepsInv(s: State, step: Step, s': State)
    requires Inv(s) && Next(s, step, s') && step.Finish?
    ensures Inv(s')
  {}

  lemma OthersKeepInv(s: State, step: Step, s': State)
    requires Inv(s) && Next(s, step, s') && (step.Lock? || step.Stop? || step.Wake? || step.Decide? || step.Wait?)
    ensures Inv(s')
  {}

  lemma StepKeepsInv(s: State, step: Step, s': State)
    requires Inv(s) && Next(s, step, s')
    ensures Inv(s')
  {
    hide Inv, Next;
    if step.Finish? {
      FinishKeepsInv(s, step, s');
    } else if step.Fire? || step.Load? || step.Callback? {
      TimerKeepsInv(s, step, s');
    } else {
      OthersKeepInv(s, step, s');
    }
  }

  ghost predicate IsRun(run: seq<State>, steps: seq<Step>) {
    && |run| == |steps| + 1
    && run[0] == Fresh()
    && forall i :: 0 <= i < |steps| ==> Next(run[i], steps[i], run[i + 1])
  }

  lemma {:induction false} RunKeepsInv(run: seq<State>, steps: seq<Step>)
    requires IsRun(run, steps)
    ensures Inv(run[|steps|])
    decreases |steps|
  {
    if steps != [] {
      var n := |steps| - 1;
      RunKeepsInv(run[..n + 1], steps[..n]);
      StepKeepsInv(run[n], steps[n], run[n + 1]);
    }
  }

  /** No run closes a channel twice, whether from a callback or from `Set`. */
  lemma NoDoubleClose(run: seq<State>, steps: seq<Step>)
    requires IsRun(run, steps)
    ensures !run[|steps|].panicked
  {
    RunKeepsInv(run, steps);
  }

  /** The channel a callback closes is the one its timer was armed for, and the one every waiter
      that is still waiting holds. */
  lemma CallbackClosesWhatWaitersHold(run: seq<State>, steps: seq<Step>, t: TimerId, s': State)
    requires IsRun(run, steps) && Next(run[|steps|], Callback(t), s')
    ensures var s := run[|steps|];
            && s.timer == Some(t)
            && s'.closed == s.closed + {s.timers[t].target}
            && (forall c :: c in s.held && c !in s.closed ==> c == s.timers[t].target)
  {
    RunKeepsInv(run, steps);
  }

  /** Waiters of replaced channels were all released: only the current channel can be open. */
  lemma OpenChannelIsCurrent(run: seq<State>, steps: seq<Step>, c: Chan)
    requires IsRun(run, steps)
    requires c in run[|steps|].held && c !in run[|steps|].closed
    ensures c == run[|steps|].cancel
  {
    RunKeepsInv(run, steps);
  }

  /** `Set` never waits in vain: the channel it waits for is closed, or the callback that will close it
      has only that, or that and its read of the field, left to do. */
  lemma WaitingSetIsWoken(run: seq<State>, steps: seq<Step>)
    requires IsRun(run, steps) && run[|steps|].setter.Waiting?
    ensures var s := run[|steps|];
            || Next(s, Wake, s.(setter := Dropped))
            || (exists t, s1 :: Next(s, Callback(t), s1) && s.setter.on in s1.closed)
            || (exists t, s1, s2 :: Next(s, Load(t), s1) && Next(s1, Callback(t), s2) && s.setter.on in s2.closed)
  {
    RunKeepsInv(run, steps);
    var s := run[|steps|];
    if s.setter.on !in s.closed {
      var t := s.timer.value;
      if s.timers[t].status.Loaded? {
        var s1 := Close(SetStatus(s, t, Finished), s.cancel);
        assert Next(s, Callback(t), s1) && s.setter.on in s1.closed;
      } else {
        var s1 := SetStatus(s, t, Loaded(s.cancel));
        var s2 := Close(SetStatus(s1, t, Finished), s.cancel);
        assert Next(s, Load(t), s1) && Next(s1, Callback(t), s2) && s.setter.on in s2.closed;
      }
    }
  }

  /** When `Set` returns, the channel later waiters get is closed exactly for a time in the past,
      and a timer is armed for it exactly for a time to come. */
  lemma SetTakesEffect(run: seq<State>, steps: seq<Step>, t: When, s': State)
    requires IsRun(run, steps) && Next(run[|steps|], Finish(t), s')
    ensures (s'.cancel in s'.closed) == t.Past?
    ensures s'.timer.Some? == t.Later?
    ensures t.Later? ==> s'.timers[s'.timer.value] == Timer(Armed, s'.cancel)
    ensures forall i :: 0 <= i < |s'.timers| && Live(s'.timers[i].status) ==> s'.timer == Some(i)
  {
    RunKeepsInv(run, steps);
    StepKeepsInv(run[|steps|], Finish(t), s');
  }

  /** The step releases everybody who waits on the current channel. */
  predicate Releases(step: Step) {
    step.Callback? || step == Finish(Past)
  }

  /** The step puts an open channel in place. */
  predicate Rearms(step: Step) {
    step == Finish(Never) || step == Finish(Later)
  }

  lemma ChannelMoves(s: State, step: Step, s': State)
    requires Inv(s) && Next(s, step, s')
    ensures s'.cancel in s'.closed <==> Releases(step) || (s.cancel in s.closed && !Rearms(step))
  {}

  ghost predicate StaysReleased(steps: seq<Step>, i: nat) {
    i < |steps| && Releases(steps[i]) && forall j :: i < j < |steps| ==> !Rearms(steps[j])
  }

  /** In every run the deadline counts as passed, that is, its current channel is closed, if and only if a
      timer's callback ran, or a past time was set, and no other time was set since. */
  lemma PassedIff(run: seq<State>, steps: seq<Step>)
    requires IsRun(run, steps)
    ensures run[|steps|].cancel in run[|steps|].closed <==> exists i :: StaysReleased(steps, i)
  {
    hide Next, Inv, Releases, Rearms;
    var n := |steps|;
    var flag := seq(n + 1, i requires 0 <= i <= n => run[i].cancel in run[i].closed);
    var sets := seq(n, i requires 0 <= i < n => Releases(steps[i]));
    var clears := seq(n, i requires 0 <= i < n => Rearms(steps[i]));
    forall i | 0 <= i < n
      ensures flag[i + 1] <==> sets[i] || (flag[i] && !clears[i])
    {
      RunKeepsInv(run[..i + 1], steps[..i]);
      ChannelMoves(run[i], steps[i], run[i + 1]);
    }
    Runs.Latch(flag, sets, clears, n);
    if i :| 0 <= i < n && sets[i] && forall j :: i < j < n ==> !clears[j] {
      assert forall j :: i < j < n ==> !clears[j] && clears[j] == Rearms(steps[j]);
      assert StaysReleased(steps, i);
    }
    if i: nat :| StaysReleased(steps, i) {
      assert sets[i] && forall j :: i < j < n ==> !clears[j];
    }
  }

  lemma HeldMoves(s: State, step: Step, s': State)
    requires Next(s, step, s')
    ensures s'.held == if step.Wait? then s.held + {s.cancel} else s.held
    ensures s.closed <= s'.closed
  {}

  /** The channels waiters hold are exactly those that were current when one of them asked, and one that
      was closed stays closed. */
  lemma {:induction false} HeldIff(run: seq<State>, steps: seq<Step>, n: nat, c: Chan)
    requires IsRun(run, steps) && n <= |steps|
    ensures c in run[n].held <==> exists i :: 0 <= i < n && steps[i].Wait? && run[i].cancel == c
    ensures forall i :: 0 <= i <= n && c in run[i].closed ==> c in run[n].closed
  {
    if n > 0 {
      hide Next;
      HeldIff(run, steps, n - 1, c);
      HeldMoves(run[n - 1], steps[n - 1], run[n]);
    }
  }
}
