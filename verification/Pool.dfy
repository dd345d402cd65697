/** The session pool under concurrency: streams created on idle or new sessions, returned by their
    hooks, dropped by session hooks and cleaned up, with every lock section one step. */
module Pool {
  import opened Bytes
  import opened IdleList

  /** One call of CreateStream and the life of its stream: OpenStream is running; the stream is
      alive; it has died but its hook is still to be looked at; the hook has decided to return the
      session and wants the list lock; and the ways it ends. `hook` says the hook is installed. */
  datatype Phase =
    | Opening | Alive(hook: bool) | Dying(hook: bool) | Returning
    | Returned | Stranded | Discarded | Failed

  datatype Loan = Loan(session: nat, phase: Phase)

  predicate Holding(p: Phase) {
    p.Opening? || p.Alive? || p.Dying? || p.Returning?
  }

  /** `closed` are the sessions whose Close has begun, `dropped` those whose hook has then taken
      them off the list, `late` those returned to the list after that, and `cleaned` those a
      cleanup took off the list to close. The last two are traces. */
  datatype Pool = Pool(
    counter: nat, idle: seq<Entry>, loans: seq<Loan>, closed: set<nat>, dropped: set<nat>,
    cancelled: bool, late: set<nat>, cleaned: set<nat>)

  function Fresh(): Pool {
    Pool(0, [], [], {}, {}, false, {}, {})
  }

  datatype Step =
    | Create | TakeIdle | OpenOk(l: nat) | OpenFail(l: nat) | InstallHook(l: nat) | Die(l: nat)
    | NoHook(l: nat) | RunHook(l: nat) | Return(l: nat, now: int)
    | CloseSession(s: nat) | SessionHook(s: nat)
    | Cleanup(min: int, expTime: int, idle: seq<Entry>) | Cancel

  function SetPhase(p: Pool, l: nat, phase: Phase): Pool
    requires l < |p.loans|
  {
    p.(loans := p.loans[l := p.loans[l].(phase := phase)])
  }

  function Lend(p: Pool, session: nat): Pool {
    p.(loans := p.loans + [Loan(session, Opening)])
  }

  predicate At(p: Pool, l: nat, phase: Phase) {
    l < |p.loans| && p.loans[l].phase == phase
  }

  /** `disableReuse` is the client's setting: without reuse nothing is ever idle. */
  ghost predicate Next(p: Pool, step: Step, p': Pool, disableReuse: bool) {
    match step
    case Create => p.counter < MAX_UINT64 && p' == Lend(p, p.counter + 1).(counter := p.counter + 1)
    case TakeIdle => !disableReuse && p.idle != [] && p' == Lend(p, p.idle[0].session).(idle := p.idle[1..])
    case OpenOk(l) => At(p, l, Opening) && p' == SetPhase(p, l, Alive(false))
    case OpenFail(l) =>
      At(p, l, Opening) && p' == SetPhase(p, l, Failed).(closed := p.closed + {p.loans[l].session})
    case InstallHook(l) =>
      || (At(p, l, Alive(false)) && p' == SetPhase(p, l, Alive(true)))
      || (At(p, l, Dying(false)) && p' == SetPhase(p, l, Dying(true)))
    case Die(l) =>
      l < |p.loans| && p.loans[l].phase.Alive? && p' == SetPhase(p, l, Dying(p.loans[l].phase.hook))
    case NoHook(l) => At(p, l, Dying(false)) && p' == SetPhase(p, l, Stranded)
    case RunHook(l) =>
      && At(p, l, Dying(true))
      && p' == (if p.loans[l].session in p.closed then SetPhase(p, l, Discarded)
                else if disableReuse || p.cancelled then
                  SetPhase(p, l, Discarded).(closed := p.closed + {p.loans[l].session})
                else SetPhase(p, l, Returning))
    case Return(l, now) =>
      && At(p, l, Returning)
      && (var s := p.loans[l].session;
          p' == SetPhase(p, l, Returned).(idle := Insert(p.idle, Entry(s, now)),
                                          late := if s in p.dropped then p.late + {s} else p.late))
    case CloseSession(s) => p' == p.(closed := p.closed + {s})
    case SessionHook(s) =>
      s in p.closed && s !in p.dropped && p' == p.(idle := Remove(p.idle, s), dropped := p.dropped + {s})
    case Cleanup(min, expTime, idle) =>
      && CleanedTo(p.idle, idle, min, expTime)
      && p' == p.(idle := idle, cleaned := p.cleaned + (Sessions(p.idle) - Sessions(idle)))
    case Cancel => p' == p.(cancelled := true)
  }

  predicate Holds(p: Pool, l: nat, s: nat) {
    l < |p.loans| && Holding(p.loans[l].phase) && p.loans[l].session == s
  }

  /** A session is lent to at most one stream, and never while idle. */
  ghost predicate Exclusive(p: Pool) {
    && Sorted(p.idle)
    && (forall s :: s in Sessions(p.idle) ==> s <= p.counter)
    && (forall l :: 0 <= l < |p.loans| ==> p.loans[l].session <= p.counter)
    && (forall l, s :: Holds(p, l, s) ==> s !in Sessions(p.idle))
    && (forall l, l', s :: Holds(p, l, s) && Holds(p, l', s) ==> l == l')
  }

  predicate WasStranded(p: Pool, s: nat) {
    exists l :: 0 <= l < |p.loans| && p.loans[l] == Loan(s, Stranded)
  }

  ghost predicate IsHeld(p: Pool, s: nat) {
    exists l :: Holds(p, l, s)
  }

  /** A session is idle, lent, closed, taken off by a cleanup to be closed, or its stream died
      before the hook was installed. */
  ghost predicate AccountedFor(p: Pool, s: nat) {
    s in Sessions(p.idle) || IsHeld(p, s) || s in p.closed || s in p.cleaned || WasStranded(p, s)
  }

  ghost predicate Accounted(p: Pool) {
    forall s :: 1 <= s <= p.counter ==> AccountedFor(p, s)
  }

  /** An idle session whose session hook has run was returned after that hook. */
  ghost predicate LateOnly(p: Pool) {
    && p.dropped <= p.closed
    && (forall s :: s in Sessions(p.idle) && s in p.dropped ==> s in p.late)
  }

  /** A session whose stream died before its hook was installed is out of the pool. */
  ghost predicate StrandedOut(p: Pool) {
    forall s :: WasStranded(p, s) ==> s !in Sessions(p.idle) && !IsHeld(p, s)
  }

  ghost predicate Inv(p: Pool) {
    Exclusive(p) && Accounted(p) && LateOnly(p)
  }

  /** The loan a step works on. */
  function Target(step: Step): Option<nat> {
    match step
    case OpenOk(l) => Some(l)
    case OpenFail(l) => Some(l)
    case InstallHook(l) => Some(l)
    case Die(l) => Some(l)
    case NoHook(l) => Some(l)
    case RunHook(l) => Some(l)
    case Return(l, _) => Some(l)
    case _ => None
  }

  /** A step on a loan changes that loan's phase, from one that holds the session; it gives the
      session up only by returning it, closing it or stranding it. */
  lemma LoanMoves(p: Pool, step: Step, p': Pool, disableReuse: bool)
    requires Next(p, step, p', disableReuse) && Target(step).Some?
    ensures var l := Target(step).value;
            && l < |p.loans| && Holding(p.loans[l].phase)
            && |p'.loans| == |p.loans| && p'.loans == p.loans[l := p.loans[l].(phase := p'.loans[l].phase)]
            && (Holding(p'.loans[l].phase) || p'.loans[l].phase.Stranded? || p.loans[l].session in p'.closed
                || step.Return?)
            && p'.counter == p.counter && p.closed <= p'.closed && p'.cleaned == p.cleaned && p'.dropped == p.dropped
    ensures !step.Return? ==> p'.idle == p.idle && p'.late == p.late
    ensures step.Return? ==>
              && p'.idle == Insert(p.idle, Entry(p.loans[step.l].session, step.now))
              && !Holding(p'.loans[step.l].phase)
              && p.late <= p'.late
              && (p.loans[step.l].session in p.dropped ==> p.loans[step.l].session in p'.late)
  {
    hide Insert;
  }

  lemma LoanKeeps(p: Pool, step: Step, p': Pool, disableReuse: bool)
    requires Inv(p) && Next(p, step, p', disableReuse) && Target(step).Some?
    ensures Inv(p')
  {
    LoanMoves(p, step, p', disableReuse);
    hide Next, Sessions, Sorted, Insert;
    var l := Target(step).value;
    var s := p.loans[l].session;
    if step.Return? { InsertFacts(p.idle, Entry(s, step.now)); }
    assert Holds(p, l, s);
    assert forall l', s' :: Holds(p', l', s') ==> Holds(p, l', s');
    forall s' | 1 <= s' <= p'.counter
      ensures AccountedFor(p', s')
    {
      assert AccountedFor(p, s');
      if IsHeld(p, s') {
        var l' :| Holds(p, l', s');
        if l' != l || Holding(p'.loans[l].phase) { assert Holds(p', l', s'); }
        if p'.loans[l].phase.Stranded? { assert p'.loans[l] == Loan(s, Stranded); }
      } else if WasStranded(p, s') {
        var l' :| 0 <= l' < |p.loans| && p.loans[l'] == Loan(s', Stranded);
        assert p'.loans[l'] == Loan(s', Stranded);
      }
    }
  }

  /** Lending a session nobody has. */
  lemma LendKeeps(p: Pool, p': Pool, s: nat)
    requires Inv(p)
    requires p'.loans == p.loans + [Loan(s, Opening)] && p'.closed == p.closed && p'.cleaned == p.cleaned
    requires p'.dropped == p.dropped && p'.late == p.late
    requires Sorted(p'.idle) && Sessions(p'.idle) == Sessions(p.idle) - {s}
    requires !IsHeld(p, s)
    requires s <= p'.counter && (p'.counter == p.counter || p'.counter == p.counter + 1 == s)
    ensures Inv(p')
  {
    hide Sessions, Sorted;
    assert forall l, x :: Holds(p', l, x) ==> Holds(p, l, x) || (l == |p.loans| && x == s);
    forall x | 1 <= x <= p'.counter
      ensures AccountedFor(p', x)
    {
      assert x == s || AccountedFor(p, x);
      if x == s {
        assert Holds(p', |p.loans|, s);
      } else if IsHeld(p, x) {
        var l :| Holds(p, l, x);
        assert Holds(p', l, x);
      } else if WasStranded(p, x) {
        var l :| 0 <= l < |p.loans| && p.loans[l] == Loan(x, Stranded);
        assert p'.loans[l] == Loan(x, Stranded);
      }
    }
  }

  /** Taking sessions off the list, with a reason. */
  lemma ShrinkKeeps(p: Pool, p': Pool)
    requires Inv(p)
    requires p'.loans == p.loans && p'.counter == p.counter && p'.late == p.late
    requires p.closed <= p'.closed && p.cleaned <= p'.cleaned && p'.dropped <= p'.closed
    requires Sorted(p'.idle) && Sessions(p'.idle) <= Sessions(p.idle)
    requires Sessions(p.idle) - Sessions(p'.idle) <= p'.closed + p'.cleaned
    requires forall s :: s in p'.dropped && s in Sessions(p'.idle) ==> s in p.dropped
    ensures Inv(p')
  {
    hide Sessions, Sorted;
    assert forall l, x :: Holds(p', l, x) <==> Holds(p, l, x);
    forall x | 1 <= x <= p'.counter
      ensures AccountedFor(p', x)
    {
      assert AccountedFor(p, x);
      if x in Sessions(p.idle) && x !in Sessions(p'.idle) {
        assert x in Sessions(p.idle) - Sessions(p'.idle);
      } else if IsHeld(p, x) {
        var l :| Holds(p, l, x);
        assert Holds(p', l, x);
      } else if WasStranded(p, x) {
        var l :| 0 <= l < |p.loans| && p.loans[l] == Loan(x, Stranded);
        assert p'.loans[l] == Loan(x, Stranded);
      }
    }
  }

  lemma StepKeepsInv(p: Pool, step: Step, p': Pool, disableReuse: bool)
    requires Inv(p) && Next(p, step, p', disableReuse)
    ensures Inv(p')
  {
    if Target(step).Some? {
      LoanKeeps(p, step, p', disableReuse);
    } else {
      hide Sessions, Sorted, Insert, Remove, Accounted, CleanedTo, Kept;
      match step
      case Create => LendKeeps(p, p', p.counter + 1);
      case TakeIdle =>
        FirstIsNewest(p.idle);
        LendKeeps(p, p', p.idle[0].session) by { FirstIsIdle(p.idle); }
      case SessionHook(s) =>
        RemoveFacts(p.idle, s);
        ShrinkKeeps(p, p');
      case Cleanup(min, expTime, idle) =>
        CleanedFacts(p.idle, idle, min, expTime);
        ShrinkKeeps(p, p');
      case _ => ShrinkKeeps(p, p');
    }
  }

  lemma FirstIsIdle(es: seq<Entry>)
    requires es != []
    ensures es[0].session in Sessions(es)
  {}

  lemma CleanedFacts(es: seq<Entry>, es': seq<Entry>, min: int, expTime: int)
    requires Sorted(es) && CleanedTo(es, es', min, expTime)
    ensures Sorted(es') && Sessions(es') <= Sessions(es)
  {
    CleanedIsSorted(es, es', min, expTime);
  }

  ghost predicate IsRun(run: seq<Pool>, steps: seq<Step>, disableReuse: bool) {
    && |run| == |steps| + 1
    && run[0] == Fresh()
    && forall i :: 0 <= i < |steps| ==> Next(run[i], steps[i], run[i + 1], disableReuse)
  }

  lemma {:induction false} RunKeepsInv(run: seq<Pool>, steps: seq<Step>, disableReuse: bool)
    requires IsRun(run, steps, disableReuse)
    ensures Inv(run[|steps|])
    decreases |steps|
  {
    if steps != [] {
      var n := |steps| - 1;
      RunKeepsInv(run[..n + 1], steps[..n], disableReuse);
      StepKeepsInv(run[n], steps[n], run[n + 1], disableReuse);
    }
  }

  /** Exclusivity: in every reachable state a session is in the idle list at most once, is lent to
      at most one stream, and is never both. */
  lemma LentOnceAndNeverIdle(run: seq<Pool>, steps: seq<Step>, disableReuse: bool, l: nat, s: nat)
    requires IsRun(run, steps, disableReuse) && Holds(run[|steps|], l, s)
    ensures s !in Sessions(run[|steps|].idle)
    ensures forall l' :: Holds(run[|steps|], l', s) ==> l' == l
  {
    RunKeepsInv(run, steps, disableReuse);
  }

  lemma IdleAtMostOnce(run: seq<Pool>, steps: seq<Step>, disableReuse: bool, i: nat, j: nat)
    requires IsRun(run, steps, disableReuse) && i < j < |run[|steps|].idle|
    ensures run[|steps|].idle[i].session != run[|steps|].idle[j].session
  {
    RunKeepsInv(run, steps, disableReuse);
    OnlyOnce(run[|steps|].idle, i);
  }

  /** The session handed out is the idle one with the largest number, nobody else has it, and the
      new stream is its only holder. */
  lemma TakesNewest(run: seq<Pool>, steps: seq<Step>, disableReuse: bool, p': Pool)
    requires IsRun(run, steps, disableReuse) && Next(run[|steps|], TakeIdle, p', disableReuse)
    ensures var p := run[|steps|];
            var s := p'.loans[|p.loans|].session;
            && s in Sessions(p.idle) && (forall x :: x in Sessions(p.idle) ==> x <= s)
            && s !in Sessions(p'.idle) && !IsHeld(p, s)
            && (forall l :: Holds(p', l, s) ==> l == |p.loans|)
  {
    var p := run[|steps|];
    RunKeepsInv(run, steps, disableReuse);
    StepKeepsInv(p, TakeIdle, p', disableReuse);
    FirstIsNewest(p.idle);
    FirstIsIdle(p.idle);
    assert Holds(p', |p.loans|, p.idle[0].session);
  }

  lemma LoanKeepsOut(p: Pool, step: Step, p': Pool, disableReuse: bool)
    requires Inv(p) && StrandedOut(p) && Next(p, step, p', disableReuse) && Target(step).Some?
    ensures StrandedOut(p')
  {
    LoanMoves(p, step, p', disableReuse);
    hide Next, Sessions, Sorted, Insert, Accounted;
    var l := Target(step).value;
    var s := p.loans[l].session;
    if step.Return? { InsertFacts(p.idle, Entry(s, step.now)); }
    assert Holds(p, l, s);
    forall x | WasStranded(p', x)
      ensures x !in Sessions(p'.idle) && !IsHeld(p', x)
    {
      var i :| 0 <= i < |p'.loans| && p'.loans[i] == Loan(x, Stranded);
      if i != l { assert WasStranded(p, x) by { assert p.loans[i] == Loan(x, Stranded); } }
      assert forall k :: Holds(p', k, x) ==> Holds(p, k, x);
    }
  }

  lemma LendKeepsOut(p: Pool, p': Pool, s: nat)
    requires StrandedOut(p) && !WasStranded(p, s)
    requires p'.loans == p.loans + [Loan(s, Opening)]
    requires Sessions(p'.idle) <= Sessions(p.idle)
    ensures StrandedOut(p')
  {
    hide Sessions;
    forall x | WasStranded(p', x)
      ensures x !in Sessions(p'.idle) && !IsHeld(p', x)
    {
      var i :| 0 <= i < |p'.loans| && p'.loans[i] == Loan(x, Stranded);
      assert WasStranded(p, x) by { assert p.loans[i] == Loan(x, Stranded); }
      forall k: nat | Holds(p', k, x)
        ensures Holds(p, k, x)
      {
        assert k < |p.loans|;
      }
    }
  }

  lemma ShrinkKeepsOut(p: Pool, p': Pool)
    requires StrandedOut(p) && p'.loans == p.loans && Sessions(p'.idle) <= Sessions(p.idle)
    ensures StrandedOut(p')
  {
    hide Sessions;
    assert forall k, x :: Holds(p', k, x) <==> Holds(p, k, x);
    forall x | WasStranded(p', x)
      ensures WasStranded(p, x)
    {}
    assert forall x :: IsHeld(p', x) ==> IsHeld(p, x);
  }

  lemma StepKeepsOut(p: Pool, step: Step, p': Pool, disableReuse: bool)
    requires Inv(p) && StrandedOut(p) && Next(p, step, p', disableReuse)
    ensures StrandedOut(p')
  {
    if Target(step).Some? {
      LoanKeepsOut(p, step, p', disableReuse);
    } else {
      hide Sessions, Sorted, Insert, Remove, Accounted, CleanedTo, Kept;
      match step
      case Create => LendKeepsOut(p, p', p.counter + 1);
      case TakeIdle =>
        FirstIsNewest(p.idle);
        FirstIsIdle(p.idle);
        LendKeepsOut(p, p', p.idle[0].session);
      case SessionHook(s) =>
        RemoveFacts(p.idle, s);
        ShrinkKeepsOut(p, p');
      case Cleanup(min, expTime, idle) =>
        CleanedFacts(p.idle, idle, min, expTime);
        ShrinkKeepsOut(p, p');
      case _ => ShrinkKeepsOut(p, p');
    }
  }

  lemma {:induction false} RunKeepsOut(run: seq<Pool>, steps: seq<Step>, disableReuse: bool)
    requires IsRun(run, steps, disableReuse)
    ensures StrandedOut(run[|steps|])
    decreases |steps|
  {
    if steps != [] {
      hide Next;
      var n := |steps| - 1;
      RunKeepsInv(run[..n + 1], steps[..n], disableReuse);
      RunKeepsOut(run[..n + 1], steps[..n], disableReuse);
      StepKeepsOut(run[n], steps[n], run[n + 1], disableReuse);
    }
  }

  /** A stranded session stays one. */
  lemma StrandedStays(p: Pool, step: Step, p': Pool, disableReuse: bool, s: nat)
    requires WasStranded(p, s) && Next(p, step, p', disableReuse)
    ensures WasStranded(p', s)
  {
    var i :| 0 <= i < |p.loans| && p.loans[i] == Loan(s, Stranded);
    if Target(step).Some? { LoanMoves(p, step, p', disableReuse); }
    hide CleanedTo, Remove, Insert;
    assert p'.loans[i] == Loan(s, Stranded);
  }

  /** No session is lost, with one exact exception: one that is neither idle, lent, closed nor about to be closed
      by a cleanup is one whose stream died before its hook was installed and that nobody closed. */
  lemma NoSessionIsLost(run: seq<Pool>, steps: seq<Step>, disableReuse: bool, s: nat)
    requires IsRun(run, steps, disableReuse) && 1 <= s <= run[|steps|].counter
    ensures AccountedFor(run[|steps|], s)
    ensures var p := run[|steps|];
            !(s in Sessions(p.idle) || IsHeld(p, s) || s in p.closed || s in p.cleaned)
            <==> WasStranded(p, s) && s !in p.closed && s !in p.cleaned
  {
    hide Next;
    RunKeepsInv(run, steps, disableReuse);
    RunKeepsOut(run, steps, disableReuse);
    assert AccountedFor(run[|steps|], s);
  }

  /** And it is lost for good: however the run goes on, a stranded session is never idle nor lent. */
  lemma {:induction false} StrandedForGood(run: seq<Pool>, steps: seq<Step>, disableReuse: bool, i: nat, s: nat)
    requires IsRun(run, steps, disableReuse) && i <= |steps| && WasStranded(run[i], s)
    ensures WasStranded(run[|steps|], s)
    ensures s !in Sessions(run[|steps|].idle) && !IsHeld(run[|steps|], s)
    decreases |steps|
  {
    hide Next, WasStranded;
    if i < |steps| {
      var n := |steps| - 1;
      StrandedForGood(run[..n + 1], steps[..n], disableReuse, i, s);
      StrandedStays(run[n], steps[n], run[n + 1], disableReuse, s);
    }
    RunKeepsOut(run, steps, disableReuse);
  }

  /** The pool with one session and one loan. */
  function One(phase: Phase): Pool {
    Pool(1, [], [Loan(1, phase)], {}, {}, false, {}, {})
  }

  lemma LendOne()
    ensures Next(Fresh(), Create, One(Opening), false)
  {}

  lemma SetOne(a: Phase, b: Phase)
    ensures SetPhase(One(a), 0, b) == One(b)
  {}

  lemma ReturnLate(lost: Pool, after: Pool)
    requires lost == One(Returning).(closed := {1}, dropped := {1})
    requires after == One(Returned).(closed := {1}, dropped := {1}, idle := [Entry(1, 0)], late := {1})
    ensures Next(lost, Return(0, 0), after, false)
  {
    SetOne(Returning, Returned);
    assert lost.late + {1} == {1};
  }

  /** It happens: a stream that dies between OpenStream and the installation of its hook leaves an
      open session behind. */
  lemma EarlyDeathStrands() returns (run: seq<Pool>, steps: seq<Step>)
    ensures IsRun(run, steps, false)
    ensures var p := run[|steps|];
            p.counter == 1 && 1 !in Sessions(p.idle) && !IsHeld(p, 1) && 1 !in p.closed && 1 !in p.cleaned
    ensures WasStranded(run[|steps|], 1)
  {
    var p := [Fresh(), One(Opening), One(Alive(false)), One(Dying(false)), One(Stranded)];
    run, steps := p, [Create, OpenOk(0), Die(0), NoHook(0)];
    assert Next(p[0], Create, p[1], false) by { LendOne(); }
    assert Next(p[1], OpenOk(0), p[2], false) by { SetOne(Opening, Alive(false)); }
    assert Next(p[2], Die(0), p[3], false) by { SetOne(Alive(false), Dying(false)); }
    assert Next(p[3], NoHook(0), p[4], false) by { SetOne(Dying(false), Stranded); }
    assert forall l :: !Holds(p[4], l, 1);
    assert p[4].loans[0] == Loan(1, Stranded);
  }

  /** A session whose hook has taken it off the list is idle again only if a stream returned it
      after that. */
  lemma DeadIdleWasReturnedLate(run: seq<Pool>, steps: seq<Step>, disableReuse: bool, s: nat)
    requires IsRun(run, steps, disableReuse)
    requires s in Sessions(run[|steps|].idle) && s in run[|steps|].dropped
    ensures s in run[|steps|].closed && s in run[|steps|].late
  {
    RunKeepsInv(run, steps, disableReuse);
  }

  /** A stream returns its session after that session's own hook has run. */
  predicate LateReturn(p: Pool, step: Step) {
    step.Return? && step.l < |p.loans| && p.loans[step.l].session in p.dropped
  }

  lemma LateMoves(p: Pool, step: Step, p': Pool, disableReuse: bool)
    requires Next(p, step, p', disableReuse) && !LateReturn(p, step)
    ensures p'.late == p.late
  {
    hide Insert, Remove, CleanedTo;
  }

  lemma LateReturnIsIdle(p: Pool, step: Step, p': Pool, disableReuse: bool)
    requires Exclusive(p) && Next(p, step, p', disableReuse) && LateReturn(p, step)
    ensures !(Sessions(p'.idle) !! p'.dropped)
  {
    hide Sessions, Sorted, Insert;
    var s := p.loans[step.l].session;
    InsertFacts(p.idle, Entry(s, step.now));
    assert s in Sessions(p'.idle) && s in p'.dropped;
  }

  lemma {:induction false} NoneLate(run: seq<Pool>, steps: seq<Step>, disableReuse: bool, i: nat)
    requires IsRun(run, steps, disableReuse) && i <= |steps|
    requires forall j :: 0 <= j < |steps| ==> !LateReturn(run[j], steps[j])
    ensures run[i].late == {}
    decreases i
  {
    if i > 0 {
      hide Next, LateReturn;
      NoneLate(run, steps, disableReuse, i - 1);
      LateMoves(run[i - 1], steps[i - 1], run[i], disableReuse);
    }
  }

  /** A closed session whose hook has run is never idle again in exactly the runs in which no stream
      returns its session after that session's hook. */
  lemma DeadNeverIdleIff(run: seq<Pool>, steps: seq<Step>, disableReuse: bool)
    requires IsRun(run, steps, disableReuse)
    ensures (forall i :: 0 <= i <= |steps| ==> Sessions(run[i].idle) !! run[i].dropped)
       <==> forall i :: 0 <= i < |steps| ==> !LateReturn(run[i], steps[i])
  {
    hide Next, LateReturn, Sessions, Exclusive, Accounted;
    forall i | 0 <= i <= |steps|
      ensures Inv(run[i])
    {
      RunKeepsInv(run[..i + 1], steps[..i], disableReuse);
      assert run[..i + 1][i] == run[i];
    }
    if forall i :: 0 <= i < |steps| ==> !LateReturn(run[i], steps[i]) {
      forall i | 0 <= i <= |steps|
        ensures Sessions(run[i].idle) !! run[i].dropped
      {
        NoneLate(run, steps, disableReuse, i);
      }
    } else {
      var i :| 0 <= i < |steps| && LateReturn(run[i], steps[i]);
      LateReturnIsIdle(run[i], steps[i], run[i + 1], disableReuse);
    }
  }

  /** That can happen, because the stream hook looks whether the session is closed before it takes
      the list lock. */
  lemma ClosedSessionCanBeIdle() returns (run: seq<Pool>, steps: seq<Step>)
    ensures IsRun(run, steps, false)
    ensures 1 in Sessions(run[|steps|].idle) && 1 in run[|steps|].dropped
  {
    var lost := One(Returning).(closed := {1}, dropped := {1});
    var p := [Fresh(), One(Opening), One(Alive(false)), One(Alive(true)), One(Dying(true)), One(Returning),
              One(Returning).(closed := {1}), lost,
              One(Returned).(closed := {1}, dropped := {1}, idle := [Entry(1, 0)], late := {1})];
    run := p;
    steps := [Create, OpenOk(0), InstallHook(0), Die(0), RunHook(0), CloseSession(1), SessionHook(1), Return(0, 0)];
    assert Next(p[0], Create, p[1], false) by { LendOne(); }
    assert Next(p[1], OpenOk(0), p[2], false) by { SetOne(Opening, Alive(false)); }
    assert Next(p[2], InstallHook(0), p[3], false) by { SetOne(Alive(false), Alive(true)); }
    assert Next(p[3], Die(0), p[4], false) by { SetOne(Alive(true), Dying(true)); }
    assert Next(p[4], RunHook(0), p[5], false) by { SetOne(Dying(true), Returning); }
    assert Next(p[5], CloseSession(1), p[6], false);
    assert Next(p[6], SessionHook(1), p[7], false);
    assert Next(p[7], Return(0, 0), p[8], false) by { ReturnLate(lost, p[8]); }
    hide Next, One;
    assert p[8].idle[0].session == 1;
  }
}
