/** What has become of a pooled session, in terms of what happened in the run: when a stream's hook returns
    it, and when it is idle. */
module PoolEvents {
  import opened Bytes
  import opened IdleList
  import opened Pool
  import Runs

  lemma {:induction false} CancelledIff(run: seq<Pool>, steps: seq<Step>, disableReuse: bool, i: nat)
    requires IsRun(run, steps, disableReuse) && i <= |steps|
    ensures run[i].cancelled <==> Cancel in steps[..i]
  {
    if i > 0 {
      CancelledIff(run, steps, disableReuse, i - 1);
      assert Next(run[i - 1], steps[i - 1], run[i], disableReuse);
      hide Insert, Remove, CleanedTo;
      assert steps[..i] == steps[..i - 1] + [steps[i - 1]];
    }
  }

  /** A stream's hook goes on to return the session if and only if the session is open, the pool reuses
      sessions and the client was not closed before; otherwise the session is closed then. */
  lemma HookReturnsIff(run: seq<Pool>, steps: seq<Step>, disableReuse: bool, i: nat, l: nat)
    requires IsRun(run, steps, disableReuse) && i < |steps| && steps[i] == RunHook(l)
    ensures l < |run[i].loans| && |run[i + 1].loans| == |run[i].loans|
    ensures var s := run[i].loans[l].session;
            && (run[i + 1].loans[l].phase.Returning? <==>
                  s !in run[i].closed && !disableReuse && Cancel !in steps[..i])
            && (!run[i + 1].loans[l].phase.Returning? ==> s in run[i + 1].closed && !Holds(run[i + 1], l, s))
            && run[i + 1].idle == run[i].idle && run[i + 1].loans[l].session == s
  {
    CancelledIff(run, steps, disableReuse, i);
    assert Next(run[i], steps[i], run[i + 1], disableReuse);
  }

  predicate Returns(p: Pool, step: Step, s: nat) {
    step.Return? && step.l < |p.loans| && p.loans[step.l].session == s
  }

  /** The session is lent again, its own hook drops it, or a cleanup does not keep it. */
  ghost predicate Leaves(p: Pool, step: Step, s: nat) {
    || (step.TakeIdle? && p.idle != [] && p.idle[0].session == s)
    || step == SessionHook(s)
    || (step.Cleanup? && s !in Kept(p.idle, |p.idle|, step.min, step.expTime))
  }

  lemma CleanedAreKept(es: seq<Entry>, es': seq<Entry>, min: int, expTime: int, s: nat)
    requires CleanedTo(es, es', min, expTime)
    ensures s in Sessions(es') <==> s in Kept(es, |es|, min, expTime)
  {
    var kept := Kept(es, |es|, min, expTime);
    if s in kept {
      var i :| 0 <= i < |kept| && kept[i] == s;
      assert es'[i].session == s;
    }
  }

  lemma IdleMoves(p: Pool, step: Step, p': Pool, disableReuse: bool, s: nat)
    requires Inv(p) && Next(p, step, p', disableReuse)
    ensures s in Sessions(p'.idle) <==> Returns(p, step, s) || (s in Sessions(p.idle) && !Leaves(p, step, s))
  {
    hide Accounted, LateOnly, Sessions, Sorted, Insert, Remove, CleanedTo, Kept;
    match step
    case Return(l, now) => InsertFacts(p.idle, Entry(p.loans[l].session, now));
    case TakeIdle => FirstIsNewest(p.idle);
    case SessionHook(x) => RemoveFacts(p.idle, x);
    case Cleanup(min, expTime, idle) =>
      CleanedFacts(p.idle, idle, min, expTime);
      CleanedAreKept(p.idle, idle, min, expTime, s);
    case _ =>
  }

  ghost predicate StaysIdle(run: seq<Pool>, steps: seq<Step>, i: nat, s: nat)
    requires |run| == |steps| + 1
  {
    && i < |steps| && Returns(run[i], steps[i], s)
    && forall j :: i < j < |steps| ==> !Leaves(run[j], steps[j], s)
  }

  /** In every run a session is idle if and only if a stream returned it and since then it was not lent,
      its own hook did not drop it, and every cleanup kept it. */
  lemma IdleIff(run: seq<Pool>, steps: seq<Step>, disableReuse: bool, s: nat)
    requires IsRun(run, steps, disableReuse)
    ensures s in Sessions(run[|steps|].idle) <==> exists i :: StaysIdle(run, steps, i, s)
  {
    hide Next, Inv, Sessions, Returns, Leaves;
    var n := |steps|;
    var flag := seq(n + 1, i requires 0 <= i <= n => s in Sessions(run[i].idle));
    var sets := seq(n, i requires 0 <= i < n => Returns(run[i], steps[i], s));
    var clears := seq(n, i requires 0 <= i < n => Leaves(run[i], steps[i], s));
    NoSessions();
    forall i | 0 <= i < n
      ensures flag[i + 1] <==> sets[i] || (flag[i] && !clears[i])
    {
      RunKeepsInv(run[..i + 1], steps[..i], disableReuse);
      IdleMoves(run[i], steps[i], run[i + 1], disableReuse, s);
    }
    Runs.Latch(flag, sets, clears, n);
    if i :| 0 <= i < n && sets[i] && forall j :: i < j < n ==> !clears[j] {
      assert forall j :: i < j < n ==> !clears[j] && clears[j] == Leaves(run[j], steps[j], s);
      assert StaysIdle(run, steps, i, s);
    }
    if i: nat :| StaysIdle(run, steps, i, s) {
      assert sets[i] && forall j :: i < j < n ==> !clears[j];
    }
  }

  /** Whether the hook of loan `l` is installed is whether somebody installed it. */
  predicate HookIs(p: Pool, l: nat, installed: bool) {
    if l >= |p.loans| || p.loans[l].phase.Opening? then !installed
    else p.loans[l].phase.Alive? || p.loans[l].phase.Dying? ==> p.loans[l].phase.hook == installed
  }

  lemma HookMoves(p: Pool, step: Step, p': Pool, disableReuse: bool, l: nat, installed: bool)
    requires HookIs(p, l, installed) && Next(p, step, p', disableReuse)
    ensures HookIs(p', l, installed || step == InstallHook(l))
  {
    hide Insert, Remove, CleanedTo, Sessions;
  }

  lemma {:induction false} HookIsInstalled(run: seq<Pool>, steps: seq<Step>, disableReuse: bool, i: nat, l: nat)
    requires IsRun(run, steps, disableReuse) && i <= |steps|
    ensures HookIs(run[i], l, InstallHook(l) in steps[..i])
  {
    if i > 0 {
      hide Next, HookIs;
      HookIsInstalled(run, steps, disableReuse, i - 1, l);
      HookMoves(run[i - 1], steps[i - 1], run[i], disableReuse, l, InstallHook(l) in steps[..i - 1]);
      assert steps[..i] == steps[..i - 1] + [steps[i - 1]];
    } else {
      NoLoans(l);
    }
  }

  lemma NoLoans(l: nat)
    ensures HookIs(Fresh(), l, false)
  {}

  /** A dying stream runs its hook if it was installed by then, before or after the stream died, and is
      stranded otherwise. */
  lemma StrandsIff(run: seq<Pool>, steps: seq<Step>, disableReuse: bool, i: nat, l: nat)
    requires IsRun(run, steps, disableReuse) && i < |steps|
    ensures steps[i] == RunHook(l) ==> InstallHook(l) in steps[..i]
    ensures steps[i] == NoHook(l) ==> InstallHook(l) !in steps[..i] && WasStranded(run[i + 1], run[i].loans[l].session)
  {
    HookIsInstalled(run, steps, disableReuse, i, l);
    assert Next(run[i], steps[i], run[i + 1], disableReuse);
    if steps[i] == NoHook(l) { assert run[i + 1].loans[l] == Loan(run[i].loans[l].session, Stranded); }
  }

  /** A whole life: the stream dies before its hook is installed, the hook comes in time all the same and
      returns the session, and the next stream gets it. */
  lemma LateHookReturns() returns (run: seq<Pool>, steps: seq<Step>)
    ensures IsRun(run, steps, false)
    ensures steps == [Create, OpenOk(0), Die(0), InstallHook(0), RunHook(0), Return(0, 5), TakeIdle]
    ensures run[6].idle == [Entry(1, 5)] && Holds(run[7], 1, 1)
  {
    var back := One(Returned).(idle := [Entry(1, 5)]);
    run := [Fresh(), One(Opening), One(Alive(false)), One(Dying(false)), One(Dying(true)), One(Returning), back,
            Lend(One(Returned), 1)];
    steps := [Create, OpenOk(0), Die(0), InstallHook(0), RunHook(0), Return(0, 5), TakeIdle];
    LendOne();
    SetOne(Opening, Alive(false));
    SetOne(Alive(false), Dying(false));
    SetOne(Dying(false), Dying(true));
    SetOne(Dying(true), Returning);
    SetOne(Returning, Returned);
    assert Next(run[5], Return(0, 5), run[6], false);
    assert Next(run[6], TakeIdle, run[7], false);
    assert forall i :: 0 <= i < |steps| ==> Next(run[i], steps[i], run[i + 1], false);
  }
}
