/** What has become of a client's session and its streams, in terms of what happened in the run: which
    ids are in the map, and which hooks have run. A stream's hook returns its session to the pool, so one
    that should run and does not loses it. */
module SessionEvents {
  import opened Bytes
  import opened Lifecycle
  import Runs

  /** The step in which the thread that closes stream `o` gets to its hook. */
  predicate ReachesHook(s: Session, step: Step, o: Obj) {
    || step == StreamHook(o)
    || (step.SweepOne? && step.sid in s.streams && s.streams[step.sid] == o && o < |s.all| && !s.all[o].Dead())
  }

  function Fate(s: Session, o: Obj): (bool, bool, bool, nat) {
    if o < |s.all| then (s.all[o].installed, s.all[o].hook, s.all[o].winner.Done?, s.all[o].hookRuns)
    else (false, false, false, 0)
  }

  lemma FateOfTarget(s: Session, step: Step, s': Session, o: Obj)
    requires Next(s, step, s') && Target(s, step) == Some(o)
    ensures var ((installed, hook, done, runs), reached) := (Fate(s, o), ReachesHook(s, step, o));
            Fate(s', o) == (
              installed || step == InstallHook(o), (hook && !reached) || step == InstallHook(o), done || reached,
              runs + if reached && hook then 1 else 0)
    ensures ReachesHook(s, step, o) ==> !Fate(s, o).2
    ensures step == InstallHook(o) ==> !Fate(s, o).0
  {
    TargetUpdated(s, step, s');
    TargetReady(s, step, s');
    FirstInstall(s, step, s', o);
    hide Next;
  }

  lemma FirstInstall(s: Session, step: Step, s': Session, o: Obj)
    requires Next(s, step, s')
    ensures step == InstallHook(o) ==> !Fate(s, o).0
  {}

  lemma FateOfOthers(s: Session, step: Step, s': Session, o: Obj)
    requires Next(s, step, s') && Target(s, step) != Some(o)
    ensures Fate(s', o) == Fate(s, o)
  {
    if Target(s, step).Some? { TargetUpdated(s, step, s'); }
  }

  /** One step, on one stream: its hook is installed, or reached, or neither. */
  lemma FateMoves(s: Session, step: Step, s': Session, o: Obj)
    requires Next(s, step, s')
    ensures var ((installed, hook, done, runs), reached) := (Fate(s, o), ReachesHook(s, step, o));
            Fate(s', o) == (
              installed || step == InstallHook(o), (hook && !reached) || step == InstallHook(o), done || reached,
              runs + if reached && hook then 1 else 0)
    ensures ReachesHook(s, step, o) ==> !Fate(s, o).2
    ensures step == InstallHook(o) ==> !Fate(s, o).0
  {
    if Target(s, step) == Some(o) {
      FateOfTarget(s, step, s', o);
    } else {
      FateOfOthers(s, step, s', o);
      hide Next;
    }
  }

  ghost predicate Installed(steps: seq<Step>, n: nat, o: Obj)
    requires n <= |steps|
  {
    exists i :: 0 <= i < n && steps[i] == InstallHook(o)
  }

  ghost predicate Reached(run: seq<Session>, steps: seq<Step>, n: nat, o: Obj)
    requires |run| == |steps| + 1 && n <= |steps|
  {
    exists j :: 0 <= j < n && ReachesHook(run[j], steps[j], o)
  }

  /** The hook was reached when it had been installed. */
  ghost predicate ReachedInstalled(run: seq<Session>, steps: seq<Step>, n: nat, o: Obj)
    requires |run| == |steps| + 1 && n <= |steps|
  {
    exists j :: 0 <= j < n && ReachesHook(run[j], steps[j], o) && Installed(steps, j, o)
  }

  lemma OneMore(run: seq<Session>, steps: seq<Step>, n: nat, o: Obj)
    requires |run| == |steps| + 1 && n < |steps|
    ensures Installed(steps, n + 1, o) <==> Installed(steps, n, o) || steps[n] == InstallHook(o)
    ensures Reached(run, steps, n + 1, o) <==> Reached(run, steps, n, o) || ReachesHook(run[n], steps[n], o)
    ensures ReachedInstalled(run, steps, n + 1, o) <==>
              ReachedInstalled(run, steps, n, o) || (ReachesHook(run[n], steps[n], o) && Installed(steps, n, o))
    ensures ReachedInstalled(run, steps, n, o) ==> Reached(run, steps, n, o) && Installed(steps, n, o)
  {
    hide ReachesHook;
  }

  lemma {:induction false} FateIs(run: seq<Session>, steps: seq<Step>, n: nat, o: Obj)
    requires IsRun(run, steps) && n <= |steps|
    ensures Fate(run[n], o) == (
              Installed(steps, n, o), Installed(steps, n, o) && !ReachedInstalled(run, steps, n, o),
              Reached(run, steps, n, o), if ReachedInstalled(run, steps, n, o) then 1 else 0)
  {
    if n > 0 {
      assert Next(run[n - 1], steps[n - 1], run[n]);
      hide IsRun, Next, ReachesHook, Installed, Reached, ReachedInstalled, Fate;
      FateIs(run, steps, n - 1, o);
      OneMore(run, steps, n - 1, o);
      FateMoves(run[n - 1], steps[n - 1], run[n], o);
    }
  }

  /** In every run a stream's hook has run exactly once if the thread that closes the stream, or the
      sweep, reached it when it had been installed, and never otherwise; it is still to run exactly if it
      was installed and not reached since; and the stream is done exactly if it was reached. */
  lemma HookRanIff(run: seq<Session>, steps: seq<Step>, o: Obj)
    requires IsRun(run, steps) && o < |run[|steps|].all|
    ensures var (st, n) := (run[|steps|].all[o], |steps|);
            && st.hookRuns == (if ReachedInstalled(run, steps, n, o) then 1 else 0)
            && (st.hook <==> Installed(steps, n, o) && !ReachedInstalled(run, steps, n, o))
            && (st.winner.Done? <==> Reached(run, steps, n, o))
  {
    FateIs(run, steps, |steps|, o);
  }

  ghost predicate Between(steps: seq<Step>, i: nat, m: nat, step: Step)
    requires m <= |steps|
  {
    exists k :: i < k < m && steps[k] == step
  }

  lemma WinnerMoves(s: Session, step: Step, s': Session, o: Obj)
    requires Next(s, step, s') && o < |s.all| && step != StreamHook(o)
    requires s.all[o].winner.BeforeHook? || s.all[o].winner.Finishing?
    ensures o < |s'.all| && s'.all[o].winner == if step == StreamDelete(o) then BeforeHook else s.all[o].winner
    ensures step == StreamDelete(o) ==> s.all[o].winner.Finishing?
  {
    if Target(s, step).Some? {
      TargetUpdated(s, step, s');
      TargetReady(s, step, s');
    }
  }

  /** A stream being closed, from where it looks whether the session is open until it reaches its hook. */
  lemma {:induction false} WhileFinishing(run: seq<Session>, steps: seq<Step>, i: nat, m: nat, o: Obj)
    requires IsRun(run, steps) && i < m <= |steps| && steps[i] == StreamFin(o) && !Between(steps, i, m, StreamHook(o))
    ensures o < |run[m].all|
    ensures run[m].all[o].winner
         == if run[i].Die() || Between(steps, i, m, StreamDelete(o)) then BeforeHook else Finishing
    ensures run[i].Die() ==> !Between(steps, i, m, StreamDelete(o))
    decreases m
  {
    assert Next(run[m - 1], steps[m - 1], run[m]);
    if i < m - 1 {
      hide Next, IsRun;
      WhileFinishing(run, steps, i, m - 1, o);
      WinnerMoves(run[m - 1], steps[m - 1], run[m], o);
    }
  }

  /** A closing stream takes its id out of the map before its hook runs if and only if the session had not
      begun to close when it looked. */
  lemma DeletesIffOpen(run: seq<Session>, steps: seq<Step>, i: nat, j: nat, o: Obj)
    requires IsRun(run, steps) && i < j < |steps| && steps[i] == StreamFin(o) && steps[j] == StreamHook(o)
    requires !Between(steps, i, j, StreamHook(o))
    ensures Between(steps, i, j, StreamDelete(o)) <==> !run[i].Die()
  {
    WhileFinishing(run, steps, i, j, o);
    assert Next(run[j], steps[j], run[j + 1]);
  }

  /** The session's own hook has run exactly if its closer got to it, and then once. */
  lemma {:induction false} SessionHookRanIff(run: seq<Session>, steps: seq<Step>, n: nat)
    requires IsRun(run, steps) && n <= |steps|
    ensures run[n].sessionHookRuns == if CloseHook in steps[..n] then 1 else 0
  {
    if n > 0 {
      SessionHookRanIff(run, steps, n - 1);
      MapMoves(run[n - 1], steps[n - 1], run[n], 0);
      RunKeepsInv(run[..n], steps[..n - 1]);
      assert steps[..n] == steps[..n - 1] + [steps[n - 1]];
    }
  }

  /** The step puts id `sid` into the map, or finds it there. */
  predicate PutsIn(s: Session, step: Step, sid: Sid) {
    || step == Syn(sid)
    || (step.OpenInsert? && step.o < |s.all| && s.all[step.o].sid == sid && !s.Die())
  }

  predicate TakesOut(s: Session, step: Step, sid: Sid) {
    || step == FinRemove(sid) || step == SweepEnd
    || (step.StreamDelete? && step.o < |s.all| && s.all[step.o].sid == sid)
  }

  lemma MapMoves(s: Session, step: Step, s': Session, sid: Sid)
    requires Next(s, step, s')
    ensures sid in s'.streams <==> PutsIn(s, step, sid) || (sid in s.streams && !TakesOut(s, step, sid))
    ensures s'.sessionHookRuns == s.sessionHookRuns + if step.CloseHook? then 1 else 0
    ensures step.CloseHook? ==> s.closer.Dying?
  {}

  ghost predicate StaysIn(run: seq<Session>, steps: seq<Step>, i: nat, sid: Sid)
    requires |run| == |steps| + 1
  {
    && i < |steps| && PutsIn(run[i], steps[i], sid)
    && forall j :: i < j < |steps| ==> !TakesOut(run[j], steps[j], sid)
  }

  /** In every run an id is in the session's map if and only if OpenStream or a SYN put it there and since
      then neither a FIN, nor a stream closed under that id while the session was alive, nor the end of the
      sweep took it out. */
  lemma InMapIff(run: seq<Session>, steps: seq<Step>, sid: Sid)
    requires IsRun(run, steps)
    ensures sid in run[|steps|].streams <==> exists i :: StaysIn(run, steps, i, sid)
  {
    hide Next, PutsIn, TakesOut;
    var n := |steps|;
    var flag := seq(n + 1, i requires 0 <= i <= n => sid in run[i].streams);
    var sets := seq(n, i requires 0 <= i < n => PutsIn(run[i], steps[i], sid));
    var clears := seq(n, i requires 0 <= i < n => TakesOut(run[i], steps[i], sid));
    forall i | 0 <= i < n
      ensures flag[i + 1] <==> sets[i] || (flag[i] && !clears[i])
    {
      MapMoves(run[i], steps[i], run[i + 1], sid);
    }
    Runs.Latch(flag, sets, clears, n);
    if i :| 0 <= i < n && sets[i] && forall j :: i < j < n ==> !clears[j] {
      assert forall j :: i < j < n ==> !clears[j] && clears[j] == TakesOut(run[j], steps[j], sid);
      assert StaysIn(run, steps, i, sid);
    }
    if i: nat :| StaysIn(run, steps, i, sid) {
      assert sets[i] && forall j :: i < j < n ==> !clears[j];
    }
  }
}
