/** Closing a session against opening and closing its streams, on the client, under every
    interleaving. Each step is what one thread does between two points where another may run:
    a lock section, the winner's part of a `Once`, or a hook. */
module Lifecycle {
  import opened Bytes

  type Sid = u32
  type Obj = nat

  /** How far the thread that won a stream's `dieOnce` has got. */
  datatype Winner = Nobody | Won | Finishing | BeforeHook | Done

  /** One stream object. `inserted` says OpenStream has put it in the map, `late` that a SYN put it
      there after the session's sweep. */
  datatype Stream = Stream(
    sid: Sid, opening: bool, inserted: bool, late: bool, installed: bool, hook: bool, winner: Winner, hookRuns: nat)
  {
    predicate Dead() { !winner.Nobody? }
  }

  /** How far the thread that won the session's `dieOnce` has got; while it sweeps it holds the
      stream lock, and `todo` are the streams it has still to close. */
  datatype Closer = Open | Dying | HookRan | Sweeping(todo: set<Sid>) | Swept

  /** `streams` is the session's map; `closing` the stream the receive loop took out of the map
      for a FIN and is about to close. */
  datatype Session = Session(
    closer: Closer, sessionHookRuns: nat, lastId: nat, streams: map<Sid, Obj>, all: seq<Stream>,
    closing: Option<Obj>)
  {
    predicate Die() { !closer.Open? }
    predicate Unlocked() { !closer.Sweeping? }
  }

  function Fresh(): Session {
    Session(Open, 0, 0, map[], [], None)
  }

  datatype Step =
    | OpenBegin | OpenInsert(o: Obj) | InstallHook(o: Obj)
    | StreamClose(o: Obj) | StreamFin(o: Obj) | StreamDelete(o: Obj) | StreamHook(o: Obj)
    | FinRemove(sid: Sid) | FinClose
    | Syn(sid: Sid)
    | CloseBegin | CloseHook | SweepStart | SweepOne(sid: Sid) | SweepEnd

  function Put(s: Session, o: Obj, st: Stream): Session
    requires o < |s.all|
  {
    s.(all := s.all[o := st])
  }

  function RunHook(st: Stream): Stream {
    st.(winner := Done, hook := false, hookRuns := st.hookRuns + if st.hook then 1 else 0)
  }

  /** closeLocally: the winner goes on to the hook. */
  function CloseLocally(st: Stream): Stream {
    if st.Dead() then st else st.(winner := BeforeHook)
  }

  ghost predicate Next(s: Session, step: Step, s': Session) {
    match step
    case OpenBegin =>
      && !s.Die() && s.lastId < 0xffff_ffff
      && s' == s.(lastId := s.lastId + 1, all := s.all + [Stream(s.lastId + 1, true, false, false, false, false, Nobody, 0)])
    case OpenInsert(o) =>
      && o < |s.all| && s.all[o].opening && s.Unlocked()
      && s' == (if s.Die() then Put(s, o, s.all[o].(opening := false))
                else Put(s, o, s.all[o].(opening := false, inserted := true)).(streams := s.streams[s.all[o].sid := o]))
    case InstallHook(o) =>
      o < |s.all| && s.all[o].inserted && !s.all[o].installed && s' == Put(s, o, s.all[o].(installed := true, hook := true))
    case StreamClose(o) =>
      && o < |s.all| && !s.all[o].opening && !s.all[o].Dead()
      && s' == Put(s, o, s.all[o].(winner := Won))
    case StreamFin(o) =>
      && o < |s.all| && s.all[o].winner.Won?
      && s' == Put(s, o, s.all[o].(winner := if s.Die() then BeforeHook else Finishing))
    case StreamDelete(o) =>
      && o < |s.all| && s.all[o].winner.Finishing? && s.Unlocked()
      && s' == Put(s, o, s.all[o].(winner := BeforeHook)).(streams := s.streams - {s.all[o].sid})
    case StreamHook(o) =>
      o < |s.all| && s.all[o].winner.BeforeHook? && s' == Put(s, o, RunHook(s.all[o]))
    case FinRemove(sid) =>
      && s.Unlocked() && s.closing.None?
      && s' == s.(streams := s.streams - {sid}, closing := if sid in s.streams then Some(s.streams[sid]) else None)
    case FinClose =>
      && s.closing.Some? && s.closing.value < |s.all|
      && s' == Put(s, s.closing.value, CloseLocally(s.all[s.closing.value])).(closing := None)
    case Syn(sid) =>
      && s.Unlocked() && s.closing.None?
      && s' == (if sid in s.streams then s
                else s.(streams := s.streams[sid := |s.all|],
                        all := s.all + [Stream(sid, false, false, s.closer.Swept?, false, false, Nobody, 0)]))
    case CloseBegin => s.closer.Open? && s' == s.(closer := Dying)
    case CloseHook => s.closer.Dying? && s' == s.(closer := HookRan, sessionHookRuns := s.sessionHookRuns + 1)
    case SweepStart => s.closer.HookRan? && s' == s.(closer := Sweeping(s.streams.Keys))
    case SweepOne(sid) =>
      && s.closer.Sweeping? && sid in s.closer.todo && sid in s.streams && s.streams[sid] < |s.all|
      && (var o := s.streams[sid];
          s' == Put(s, o, if s.all[o].Dead() then s.all[o] else RunHook(s.all[o])).(closer := Sweeping(s.closer.todo - {sid})))
    case SweepEnd =>
      s.closer == Sweeping({}) && s' == s.(closer := Swept, streams := map[])
  }

  /** The map and the receive loop refer to streams that exist. */
  ghost predicate MapInv(s: Session) {
    && (forall sid :: sid in s.streams ==> s.streams[sid] < |s.all|)
    && (s.closing.Some? ==> s.closing.value < |s.all|)
  }

  /** Hooks have run at most once, and only behind a `Once`. */
  ghost predicate HooksInv(s: Session) {
    && s.sessionHookRuns == (if s.closer.Open? || s.closer.Dying? then 0 else 1)
    && (forall o :: 0 <= o < |s.all| ==> s.all[o].hookRuns == 0 || (s.all[o].hookRuns == 1 && s.all[o].winner.Done?))
  }

  /** The sweep has closed what is not left to do; after it, only a late SYN puts streams in the map. */
  ghost predicate SweepInv(s: Session)
    requires MapInv(s)
  {
    && (s.closer.Sweeping? ==>
          (forall sid :: sid in s.streams && sid !in s.closer.todo ==> s.all[s.streams[sid]].Dead()))
    && (s.closer.Swept? ==> (forall sid :: sid in s.streams ==> s.all[s.streams[sid]].late))
  }

  /** A stream OpenStream inserted is in the map until somebody has closed it, except while the
      receive loop, having removed it, is about to. */
  predicate Accounted(s: Session, o: Obj)
    requires o < |s.all|
  {
    s.all[o].Dead() || s.closing == Some(o) || (s.all[o].sid in s.streams && s.streams[s.all[o].sid] == o)
  }

  /** Id `x` is the client's own: at most one stream has it, OpenStream made that one, and if it is
      inserted it is accounted for. */
  ghost predicate OwnInv(s: Session, x: Sid)
    requires MapInv(s)
  {
    && (forall o :: 0 <= o < |s.all| && s.all[o].sid == x ==> x <= s.lastId && !s.all[o].late)
    && (forall o, o' :: 0 <= o < o' < |s.all| && s.all[o].sid == x ==> s.all[o'].sid != x)
    && (x in s.streams ==> s.all[s.streams[x]].sid == x)
    && (forall o :: 0 <= o < |s.all| && s.all[o].sid == x && s.all[o].inserted ==> Accounted(s, o))
  }

  ghost predicate Inv(s: Session) {
    MapInv(s) && HooksInv(s) && SweepInv(s)
  }

  lemma MapKept(s: Session, step: Step, s': Session)
    requires MapInv(s) && Next(s, step, s')
    ensures MapInv(s')
  {}

  /** What a step may do to one stream: it stays who it is, a closed one stays closed, and its
      hook runs only as the winner finishes. */
  predicate Evolves(a: Stream, b: Stream) {
    && b.sid == a.sid && b.late == a.late
    && (a.Dead() ==> b.Dead())
    && (a.winner.Done? ==> b.winner.Done? && b.hookRuns == a.hookRuns)
    && (b.hookRuns == a.hookRuns || (b.hookRuns == a.hookRuns + 1 && b.winner.Done?))
  }

  /** The stream a step works on. */
  function Target(s: Session, step: Step): Option<Obj> {
    match step
    case OpenInsert(o) => Some(o)
    case InstallHook(o) => Some(o)
    case StreamClose(o) => Some(o)
    case StreamFin(o) => Some(o)
    case StreamDelete(o) => Some(o)
    case StreamHook(o) => Some(o)
    case FinClose => s.closing
    case SweepOne(sid) => if sid in s.streams then Some(s.streams[sid]) else None
    case _ => None
  }

  /** What the step makes of its target. */
  function Updated(s: Session, step: Step, st: Stream): Stream {
    match step
    case OpenInsert(_) => st.(opening := false, inserted := st.inserted || !s.Die())
    case InstallHook(_) => st.(installed := true, hook := true)
    case StreamClose(_) => st.(winner := Won)
    case StreamFin(_) => st.(winner := if s.Die() then BeforeHook else Finishing)
    case StreamDelete(_) => st.(winner := BeforeHook)
    case StreamHook(_) => RunHook(st)
    case FinClose => CloseLocally(st)
    case SweepOne(_) => if st.Dead() then st else RunHook(st)
    case _ => st
  }

  lemma TargetUpdated(s: Session, step: Step, s': Session)
    requires Next(s, step, s') && Target(s, step).Some?
    ensures var t := Target(s, step).value;
            && t < |s.all| && s'.all == s.all[t := Updated(s, step, s.all[t])]
            && s'.lastId == s.lastId
  {
    hide RunHook, CloseLocally;
  }

  /** The guards under which a step reaches its target. */
  lemma TargetReady(s: Session, step: Step, s': Session)
    requires Next(s, step, s') && Target(s, step).Some?
    ensures var t := Target(s, step).value;
            && t < |s.all|
            && (step.OpenInsert? ==> s.all[t].opening)
            && (step.StreamClose? ==> !s.all[t].Dead())
            && (step.StreamFin? ==> s.all[t].winner.Won?)
            && (step.StreamDelete? ==> s.all[t].winner.Finishing?)
            && (step.StreamHook? ==> s.all[t].winner.BeforeHook?)
  {
    hide RunHook, CloseLocally, Put;
  }

  lemma TargetEvolves(s: Session, step: Step, s': Session)
    requires Next(s, step, s') && Target(s, step).Some?
    ensures var t := Target(s, step).value;
            && t < |s.all| && s'.all == s.all[t := Updated(s, step, s.all[t])]
            && Evolves(s.all[t], Updated(s, step, s.all[t]))
            && s'.lastId == s.lastId
  {
    TargetUpdated(s, step, s');
    TargetReady(s, step, s');
    hide Next;
  }

  lemma OthersAppend(s: Session, step: Step, s': Session)
    requires Next(s, step, s') && Target(s, step).None?
    ensures s'.all == s.all
            || (|s'.all| == |s.all| + 1 && s.all <= s'.all
                && s'.all[|s.all|].hookRuns == 0)
    ensures s.lastId <= s'.lastId
  {}

  /** No step changes a stream's id or reopens it; new streams come after the old ones. */
  lemma StreamsEvolve(s: Session, step: Step, s': Session)
    requires Next(s, step, s')
    ensures |s.all| <= |s'.all| && s.lastId <= s'.lastId
    ensures forall o :: 0 <= o < |s.all| ==> Evolves(s.all[o], s'.all[o])
    ensures forall o :: |s.all| <= o < |s'.all| ==> s'.all[o].hookRuns == 0
  {
    hide Next;
    if Target(s, step).Some? {
      TargetEvolves(s, step, s');
    } else {
      OthersAppend(s, step, s');
    }
  }

  lemma SessionHookKept(s: Session, step: Step, s': Session)
    requires s.sessionHookRuns == (if s.closer.Open? || s.closer.Dying? then 0 else 1)
    requires Next(s, step, s')
    ensures s'.sessionHookRuns == (if s'.closer.Open? || s'.closer.Dying? then 0 else 1)
  {}

  lemma HooksKept(s: Session, step: Step, s': Session)
    requires HooksInv(s) && Next(s, step, s')
    ensures HooksInv(s')
  {
    SessionHookKept(s, step, s');
    hide Next;
    StreamsEvolve(s, step, s');
  }

  /** How the sweep and the map move together. */
  lemma SweepMoves(s: Session, step: Step, s': Session)
    requires MapInv(s) && Next(s, step, s')
    ensures s'.closer.Sweeping? ==>
              || (s.closer.HookRan? && s'.closer.todo == s'.streams.Keys)
              || (s.closer.Sweeping? && s'.streams == s.streams
                  && (s'.closer.todo == s.closer.todo
                      || (step.SweepOne? && step.sid in s.streams && s'.closer.todo == s.closer.todo - {step.sid}
                          && s.streams[step.sid] < |s'.all| && s'.all[s.streams[step.sid]].Dead())))
    ensures s'.closer.Swept? ==>
              || s'.streams == map[]
              || (s.closer.Swept? && forall sid :: sid in s'.streams ==>
                    || (sid in s.streams && s'.streams[sid] == s.streams[sid])
                    || (s'.streams[sid] < |s'.all| && s'.all[s'.streams[sid]].late))
  {}

  lemma SweepKept(s: Session, step: Step, s': Session)
    requires MapInv(s) && SweepInv(s) && Next(s, step, s') && MapInv(s')
    ensures SweepInv(s')
  {
    hide Next;
    StreamsEvolve(s, step, s');
    SweepMoves(s, step, s');
  }

  /** A new stream has the client's next id, or the id of the SYN that made it. */
  lemma NewStreams(s: Session, step: Step, s': Session)
    requires Next(s, step, s')
    ensures |s'.all| <= |s.all| + 1
    ensures forall o :: |s.all| <= o < |s'.all| ==>
              && !s'.all[o].inserted
              && (s'.all[o].late ==> step.Syn? && s.closer.Swept?)
              && (if step.Syn? then !s'.all[o].opening && s'.all[o].sid == step.sid && step.sid !in s.streams && s.closing.None?
                  else s'.all[o].sid == s'.lastId == s.lastId + 1)
  {
    if Target(s, step).Some? {
      TargetUpdated(s, step, s');
    }
  }

  /** The map at `x` changes only as these steps say, unless a SYN names `x`. */
  lemma MapAt(s: Session, step: Step, s': Session, x: Sid)
    requires MapInv(s) && Next(s, step, s') && (step.Syn? ==> step.sid != x)
    ensures x in s'.streams ==>
              || (x in s.streams && s'.streams[x] == s.streams[x])
              || (step.OpenInsert? && step.o < |s.all| && s.all[step.o].sid == x && s'.streams[x] == step.o)
    ensures x in s.streams && x !in s'.streams ==>
              || (step.StreamDelete? && step.o < |s.all| && s.all[step.o].sid == x && s.all[step.o].Dead())
              || (step.FinRemove? && s'.closing == Some(s.streams[x]))
              || s.closer == Sweeping({})
  {}

  lemma ClosingMoves(s: Session, step: Step, s': Session)
    requires MapInv(s) && Next(s, step, s') && s.closing.Some?
    ensures s'.closing == s.closing
            || (s.closing.value < |s'.all| && s'.all[s.closing.value].Dead())
  {}

  /** A stream becomes inserted only by the step that puts it into the map. */
  lemma InsertedMoves(s: Session, step: Step, s': Session, o: Obj)
    requires Next(s, step, s') && o < |s.all| && o < |s'.all| && s'.all[o].inserted && !s.all[o].inserted
    ensures s'.streams == s.streams[s.all[o].sid := o]
  {}

  lemma OwnAccounted(s: Session, step: Step, s': Session, x: Sid, o: Obj)
    requires MapInv(s) && SweepInv(s) && OwnInv(s, x) && Next(s, step, s') && MapInv(s')
    requires step.Syn? ==> step.sid != x
    requires o < |s.all| && o < |s'.all| && s.all[o].sid == x && s'.all[o].inserted
    ensures Accounted(s', o)
  {
    StreamsEvolve(s, step, s');
    MapAt(s, step, s', x);
    if s.closing == Some(o) { ClosingMoves(s, step, s'); }
    if !s.all[o].inserted { InsertedMoves(s, step, s', o); }
    hide Next;
  }

  /** Every step but a SYN that names `x` keeps it the client's own. */
  lemma OwnKept(s: Session, step: Step, s': Session, x: Sid)
    requires MapInv(s) && SweepInv(s) && OwnInv(s, x) && Next(s, step, s') && MapInv(s')
    requires step.Syn? ==> step.sid != x
    ensures OwnInv(s', x)
  {
    hide Next, SweepInv;
    StreamsEvolve(s, step, s');
    NewStreams(s, step, s');
    MapAt(s, step, s', x);
    forall o | 0 <= o < |s'.all| && s'.all[o].sid == x && s'.all[o].inserted
      ensures Accounted(s', o)
    {
      OwnAccounted(s, step, s', x, o);
    }
  }

  lemma StepKeepsInv(s: Session, step: Step, s': Session)
    requires Inv(s) && Next(s, step, s')
    ensures Inv(s')
  {
    hide MapInv, HooksInv, SweepInv;
    MapKept(s, step, s');
    HooksKept(s, step, s');
    SweepKept(s, step, s');
  }

  ghost predicate Goes(run: seq<Session>, steps: seq<Step>) {
    && |run| == |steps| + 1
    && forall i :: 0 <= i < |steps| ==> Next(run[i], steps[i], run[i + 1])
  }

  ghost predicate IsRun(run: seq<Session>, steps: seq<Step>) {
    Goes(run, steps) && run[0] == Fresh()
  }

  lemma {:induction false} RunKeepsInv(run: seq<Session>, steps: seq<Step>)
    requires IsRun(run, steps)
    ensures Inv(run[|steps|])
    decreases |steps|
  {
    if steps != [] {
      var n := |steps| - 1;
      RunKeepsInv(run[..n + 1], steps[..n]);
      StepKeepsInv(run[n], steps[n], run[n + 1]);
    }
  }

  /** No SYN of the run named `x`. */
  predicate NoSynFor(steps: seq<Step>, x: Sid) {
    forall i :: 0 <= i < |steps| && steps[i].Syn? ==> steps[i].sid != x
  }

  lemma {:induction false} RunKeepsOwn(run: seq<Session>, steps: seq<Step>, x: Sid)
    requires IsRun(run, steps) && NoSynFor(steps, x)
    ensures MapInv(run[|steps|]) && SweepInv(run[|steps|]) && OwnInv(run[|steps|], x)
    decreases |steps|
  {
    RunKeepsInv(run, steps);
    if steps != [] {
      var n := |steps| - 1;
      RunKeepsOwn(run[..n + 1], steps[..n], x);
      OwnKept(run[n], steps[n], run[n + 1], x);
    }
  }

  /** The session's hook and every stream's hook run at most once, in every run. */
  lemma HooksRunAtMostOnce(run: seq<Session>, steps: seq<Step>, o: Obj)
    requires IsRun(run, steps) && o < |run[|steps|].all|
    ensures run[|steps|].sessionHookRuns <= 1 && run[|steps|].all[o].hookRuns <= 1
  {
    RunKeepsInv(run, steps);
  }

  /** What is in the stream map after the sweep was put there by a SYN that named the id, after the
      sweep. */
  lemma OnlySynsFillTheSweptMap(run: seq<Session>, steps: seq<Step>, x: Sid)
    requires IsRun(run, steps) && run[|steps|].closer.Swept?
    ensures var s := run[|steps|];
            && (x in s.streams ==> s.streams[x] < |s.all| && s.all[s.streams[x]].late)
            && (NoSynFor(steps, x) ==> x !in s.streams)
  {
    RunKeepsInv(run, steps);
    if NoSynFor(steps, x) { RunKeepsOwn(run, steps, x); }
  }

  /** No SYN of the run was handled after the sweep. */
  ghost predicate NoSynSwept(run: seq<Session>, steps: seq<Step>)
    requires |run| == |steps| + 1
  {
    forall i :: 0 <= i < |steps| && steps[i].Syn? ==> !run[i].closer.Swept?
  }

  lemma {:induction false} NothingLate(run: seq<Session>, steps: seq<Step>, i: nat)
    requires IsRun(run, steps) && i <= |steps| && NoSynSwept(run, steps)
    ensures forall o :: 0 <= o < |run[i].all| ==> !run[i].all[o].late
    decreases i
  {
    if i > 0 {
      hide Next;
      NothingLate(run, steps, i - 1);
      StreamsEvolve(run[i - 1], steps[i - 1], run[i]);
      NewStreams(run[i - 1], steps[i - 1], run[i]);
    }
  }

  lemma SynFillsMap(s: Session, step: Step, s': Session)
    requires Next(s, step, s') && step.Syn?
    ensures s'.streams != map[] && s'.closer == s.closer
  {
    assert step.sid in s'.streams;
  }

  /** After the sweep the stream map is empty, and stays so, in exactly the runs in which no SYN is
      handled after the sweep. */
  lemma SweptMapStaysEmptyIff(run: seq<Session>, steps: seq<Step>)
    requires IsRun(run, steps)
    ensures (forall i :: 0 <= i <= |steps| && run[i].closer.Swept? ==> run[i].streams == map[])
       <==> NoSynSwept(run, steps)
  {
    hide Next;
    if NoSynSwept(run, steps) {
      forall i | 0 <= i <= |steps| && run[i].closer.Swept?
        ensures run[i].streams == map[]
      {
        RunKeepsInv(run[..i + 1], steps[..i]);
        assert run[..i + 1][i] == run[i];
        NothingLate(run, steps, i);
      }
    } else {
      var i :| 0 <= i < |steps| && steps[i].Syn? && run[i].closer.Swept?;
      assert Next(run[i], steps[i], run[i + 1]);
      SynFillsMap(run[i], steps[i], run[i + 1]);
    }
  }

  /** The client's own streams have ids it has given out, each at most one, and are never late; and a
      stream is in the map only under its own id. */
  ghost predicate NamesInv(s: Session)
    requires MapInv(s)
  {
    && (forall o :: 0 <= o < |s.all| && Ours(s.all[o]) ==> s.all[o].sid <= s.lastId && !s.all[o].late)
    && (forall o, o' :: 0 <= o < o' < |s.all| && Ours(s.all[o]) && Ours(s.all[o']) ==> s.all[o].sid != s.all[o'].sid)
    && (forall sid :: sid in s.streams ==> s.all[s.streams[sid]].sid == sid)
  }

  /** OpenStream made it and has not failed. */
  predicate Ours(st: Stream) {
    st.opening || st.inserted
  }

  /** A stream becomes the client's own only when it is made. */
  lemma OursStay(s: Session, step: Step, s': Session)
    requires Next(s, step, s')
    ensures |s.all| <= |s'.all|
    ensures forall o :: 0 <= o < |s.all| && Ours(s'.all[o]) ==> Ours(s.all[o])
    ensures forall o :: 0 <= o < |s.all| && s.all[o].inserted ==> s'.all[o].inserted
    ensures forall o :: |s.all| <= o < |s'.all| && step.Syn? ==> !Ours(s'.all[o])
    ensures forall o :: 0 <= o < |s.all| && s.all[o].opening && !s'.all[o].opening ==> step == OpenInsert(o)
  {
    if Target(s, step).Some? {
      TargetUpdated(s, step, s');
      TargetReady(s, step, s');
      hide Next, Put;
    } else {
      OthersAppend(s, step, s');
      NewStreams(s, step, s');
      hide Next;
    }
  }

  /** What the map holds after a step, anywhere. */
  lemma MapOnly(s: Session, step: Step, s': Session)
    requires MapInv(s) && Next(s, step, s')
    ensures forall sid :: sid in s'.streams ==>
              || (sid in s.streams && s'.streams[sid] == s.streams[sid])
              || (step.OpenInsert? && step.o < |s.all| && s.all[step.o].sid == sid && s'.streams[sid] == step.o)
              || (step == Syn(sid) && s'.streams[sid] == |s.all| < |s'.all| && s'.all[|s.all|].sid == sid)
  {}

  lemma NamesKept(s: Session, step: Step, s': Session)
    requires MapInv(s) && NamesInv(s) && Next(s, step, s') && MapInv(s')
    ensures NamesInv(s')
  {
    hide Next;
    StreamsEvolve(s, step, s');
    NewStreams(s, step, s');
    OursStay(s, step, s');
    MapOnly(s, step, s');
  }

  lemma {:induction false} RunKeepsNames(run: seq<Session>, steps: seq<Step>)
    requires IsRun(run, steps)
    ensures Inv(run[|steps|]) && NamesInv(run[|steps|])
    decreases |steps|
  {
    RunKeepsInv(run, steps);
    if steps != [] {
      hide Next;
      var n := |steps| - 1;
      RunKeepsNames(run[..n + 1], steps[..n]);
      NamesKept(run[n], steps[n], run[n + 1]);
    }
  }

  /** Its close can no longer take an id out of the map. */
  predicate PastDelete(st: Stream) {
    st.winner.BeforeHook? || st.winner.Done?
  }

  /** Every other stream with this one's id is past its delete. */
  predicate Alone(s: Session, o: Obj)
    requires o < |s.all|
  {
    forall o' :: 0 <= o' < |s.all| && o' != o && s.all[o'].sid == s.all[o].sid ==> PastDelete(s.all[o'])
  }

  /** An inserted stream nothing can take out of the map unnoticed. */
  ghost predicate Safe(s: Session, o: Obj) {
    && MapInv(s) && SweepInv(s) && NamesInv(s)
    && o < |s.all| && s.all[o].inserted && Accounted(s, o) && (s.all[o].Dead() || Alone(s, o))
  }

  lemma PastDeleteStays(s: Session, step: Step, s': Session)
    requires Next(s, step, s')
    ensures |s.all| <= |s'.all|
    ensures forall o :: 0 <= o < |s.all| && PastDelete(s.all[o]) ==> PastDelete(s'.all[o])
  {}

  /** What can take an id out of the map. */
  lemma MapLoses(s: Session, step: Step, s': Session, x: Sid)
    requires MapInv(s) && Next(s, step, s') && x in s.streams
    ensures x in s'.streams ==>
              || s'.streams[x] == s.streams[x]
              || (step.OpenInsert? && step.o < |s.all| && s.all[step.o].opening && s.all[step.o].sid == x)
    ensures x !in s'.streams ==>
              || (step.StreamDelete? && step.o < |s.all| && s.all[step.o].sid == x && s.all[step.o].winner.Finishing?)
              || (step.FinRemove? && s'.closing == Some(s.streams[x]))
              || s.closer == Sweeping({})
  {}

  lemma SafeAccounted(s: Session, step: Step, s': Session, o: Obj)
    requires Safe(s, o) && Next(s, step, s') && MapInv(s')
    ensures o < |s'.all| && s'.all[o].sid == s.all[o].sid && Accounted(s', o)
  {
    var x := s.all[o].sid;
    StreamsEvolve(s, step, s');
    if s.closing == Some(o) { ClosingMoves(s, step, s'); }
    if x in s.streams { MapLoses(s, step, s', x); }
    hide Next;
  }

  lemma SafeKept(s: Session, step: Step, s': Session, o: Obj)
    requires Safe(s, o) && Next(s, step, s')
    ensures Safe(s', o)
  {
    hide Next, NamesInv, SweepInv;
    MapKept(s, step, s');
    SweepKept(s, step, s');
    NamesKept(s, step, s');
    SafeAccounted(s, step, s', o);
    OursStay(s, step, s');
    StreamsEvolve(s, step, s');
    if !s'.all[o].Dead() {
      PastDeleteStays(s, step, s');
      NewStreams(s, step, s');
      InsertedIsNamed(s, o);
    }
  }

  lemma InsertedIsNamed(s: Session, o: Obj)
    requires MapInv(s) && NamesInv(s) && o < |s.all| && s.all[o].inserted
    ensures s.all[o].sid <= s.lastId && !s.all[o].late
  {}

  lemma {:induction false} GoesSafely(run: seq<Session>, steps: seq<Step>, o: Obj)
    requires Goes(run, steps) && Safe(run[0], o)
    ensures Safe(run[|steps|], o)
    decreases |steps|
  {
    hide Next, Safe;
    if steps != [] {
      var n := |steps| - 1;
      GoesSafely(run[..n + 1], steps[..n], o);
      SafeKept(run[n], steps[n], run[n + 1], o);
    }
  }

  /** A stream still being opened is in nobody's hands. */
  ghost predicate OpeningInv(s: Session) {
    forall o :: 0 <= o < |s.all| && s.all[o].opening ==>
      s.all[o].winner.Nobody? && s.closing != Some(o) && forall sid :: sid in s.streams ==> s.streams[sid] != o
  }

  /** Only these steps touch a stream being opened, or put it anywhere. */
  lemma OpeningUntouched(s: Session, step: Step, s': Session, o: Obj)
    requires MapInv(s) && OpeningInv(s) && Next(s, step, s') && MapInv(s')
    requires o < |s'.all| && s'.all[o].opening
    ensures s'.all[o].winner.Nobody? && s'.closing != Some(o)
  {
    if o < |s.all| { assert s.all[o].opening; }
  }

  lemma OpeningKept(s: Session, step: Step, s': Session)
    requires MapInv(s) && OpeningInv(s) && Next(s, step, s') && MapInv(s')
    ensures OpeningInv(s')
  {
    forall o | 0 <= o < |s'.all| && s'.all[o].opening
      ensures s'.all[o].winner.Nobody? && s'.closing != Some(o)
      ensures forall sid :: sid in s'.streams ==> s'.streams[sid] != o
    {
      OpeningUntouched(s, step, s', o);
      OpeningNotInMap(s, step, s', o);
    }
  }

  lemma OpeningNotInMap(s: Session, step: Step, s': Session, o: Obj)
    requires MapInv(s) && OpeningInv(s) && Next(s, step, s')
    requires o < |s'.all| && s'.all[o].opening
    ensures forall sid :: sid in s'.streams ==> s'.streams[sid] != o
  {
    OursStay(s, step, s');
    OpenedStaysOpened(s, step, s', o);
    MapOnly(s, step, s');
    if step.Syn? { assert |s.all| == |s'.all| || !s'.all[|s.all|].opening by { NewStreams(s, step, s'); } }
    hide Next;
  }

  /** A stream being opened was so before, unless it is new; the insert ends it. */
  lemma OpenedStaysOpened(s: Session, step: Step, s': Session, o: Obj)
    requires Next(s, step, s') && o < |s'.all| && s'.all[o].opening
    ensures o < |s.all| ==> s.all[o].opening
    ensures step != OpenInsert(o)
    ensures o >= |s.all| ==> s'.streams == s.streams
  {}

  lemma {:induction false} RunKeepsOpening(run: seq<Session>, steps: seq<Step>)
    requires IsRun(run, steps)
    ensures MapInv(run[|steps|]) && OpeningInv(run[|steps|])
    decreases |steps|
  {
    RunKeepsInv(run, steps);
    if steps != [] {
      hide Next, OpeningInv;
      var n := |steps| - 1;
      RunKeepsOpening(run[..n + 1], steps[..n]);
      OpeningKept(run[n], steps[n], run[n + 1]);
    } else {
      assert OpeningInv(Fresh());
    }
  }

  /** `o` was inserted, and no SYN before that named its id: it is accounted for ever after. */
  lemma SafeFromInsert(run: seq<Session>, steps: seq<Step>, i: nat, o: Obj)
    requires IsRun(run, steps) && i <= |steps|
    requires o < |run[i].all| && run[i].all[o].inserted && NoSynFor(steps[..i], run[i].all[o].sid)
    ensures Safe(run[|steps|], o)
  {
    hide Next;
    var before, stepsBefore := run[..i + 1], steps[..i];
    assert before[i] == run[i];
    RunKeepsOwn(before, stepsBefore, run[i].all[o].sid);
    RunKeepsNames(before, stepsBefore);
    GoesSafely(run[i..], steps[i..], o);
  }

  /** The sweep misses nothing: what OpenStream inserted is, at any time after, closed, being closed
      by the receive loop, or in the map for the sweep to find, unless a SYN named its id before it
      was inserted. */
  lemma InsertedIsAccounted(run: seq<Session>, steps: seq<Step>, i: nat, o: Obj)
    requires IsRun(run, steps) && i <= |steps|
    requires o < |run[i].all| && run[i].all[o].inserted && NoSynFor(steps[..i], run[i].all[o].sid)
    ensures o < |run[|steps|].all| && Accounted(run[|steps|], o)
  {
    SafeFromInsert(run, steps, i, o);
  }

  /** Closed, or the one the receive loop has just removed and is about to close. */
  predicate Closed(s: Session, o: Obj)
    requires o < |s.all|
  {
    s.all[o].Dead() || s.closing == Some(o)
  }

  /** So once the sweep is over it has been closed. */
  lemma SweptStreamsAreClosed(run: seq<Session>, steps: seq<Step>, i: nat, o: Obj)
    requires IsRun(run, steps) && i <= |steps| && run[|steps|].closer.Swept?
    requires o < |run[i].all| && run[i].all[o].inserted && NoSynFor(steps[..i], run[i].all[o].sid)
    ensures o < |run[|steps|].all| && Closed(run[|steps|], o)
  {
    SafeFromInsert(run, steps, i, o);
    SafeIsClosed(run[|steps|], o);
  }

  lemma SafeIsClosed(s: Session, o: Obj)
    requires Safe(s, o) && s.closer.Swept?
    ensures Closed(s, o)
  {
    InsertedIsNamed(s, o);
  }

  /** Whatever happens next, `o` stays accounted for; and whatever happens until the sweep is over,
      it is closed by then. */
  ghost predicate AlwaysAccounted(s: Session, o: Obj) {
    forall run: seq<Session>, steps: seq<Step> :: Goes(run, steps) && run[0] == s ==> o < |run[|steps|].all| && Accounted(run[|steps|], o)
  }

  ghost predicate AlwaysClosedBySweep(s: Session, o: Obj) {
    forall run: seq<Session>, steps: seq<Step> :: Goes(run, steps) && run[0] == s && run[|steps|].closer.Swept? ==>
      o < |run[|steps|].all| && Closed(run[|steps|], o)
  }

  lemma Prepend(s: Session, step: Step, run: seq<Session>, steps: seq<Step>)
    requires Goes(run, steps) && Next(s, step, run[0])
    ensures Goes([s] + run, [step] + steps)
    ensures ([s] + run)[|[step] + steps|] == run[|steps|]
  {
    hide Next;
    var all, allSteps := [s] + run, [step] + steps;
    forall i | 0 <= i < |allSteps|
      ensures Next(all[i], allSteps[i], all[i + 1])
    {
      if i > 0 { assert Next(run[i - 1], steps[i - 1], run[i]); }
    }
  }

  /** `o` is in no map and nobody has closed it, in a session nobody closes yet. */
  ghost predicate Adrift(s: Session, o: Obj) {
    && MapInv(s) && o < |s.all| && !Closed(s, o)
    && (forall sid :: sid in s.streams ==> s.streams[sid] != o)
  }

  /** Closing another stream with its id takes an open stream out of the map. */
  lemma TakenOut(s: Session, o: Obj, o': Obj) returns (run: seq<Session>, steps: seq<Step>)
    requires MapInv(s) && s.closer.Open? && o < |s.all| && o' < |s.all| && o' != o
    requires s.all[o'].sid == s.all[o].sid && !PastDelete(s.all[o']) && !s.all[o'].opening
    requires !Closed(s, o) && (forall sid :: sid in s.streams && s.streams[sid] == o ==> sid == s.all[o].sid)
    ensures Goes(run, steps) && run[0] == s
    ensures run[|steps|].closer.Open? && Adrift(run[|steps|], o)
    decreases if s.all[o'].winner.Nobody? then 2 else if s.all[o'].winner.Won? then 1 else 0
  {
    if s.all[o'].winner.Finishing? {
      var s1 := Put(s, o', s.all[o'].(winner := BeforeHook)).(streams := s.streams - {s.all[o'].sid});
      run, steps := [s, s1], [StreamDelete(o')];
    } else {
      var won := s.all[o'].winner.Won?;
      var s1 := Put(s, o', s.all[o'].(winner := if won then Finishing else Won));
      var step := if won then StreamFin(o') else StreamClose(o');
      assert Next(s, step, s1);
      var run1, steps1 := TakenOut(s1, o, o');
      Prepend(s, step, run1, steps1);
      run, steps := [s] + run1, [step] + steps1;
    }
  }

  /** A sweep closes what is in the map, and nothing else. */
  lemma SweepsOn(s: Session, o: Obj) returns (run: seq<Session>, steps: seq<Step>)
    requires Adrift(s, o) && s.closer.Sweeping? && s.closer.todo <= s.streams.Keys
    ensures Goes(run, steps) && run[0] == s
    ensures run[|steps|].closer.Swept? && Adrift(run[|steps|], o)
    decreases s.closer.todo
  {
    var todo := s.closer.todo;
    if todo == {} {
      run, steps := [s, s.(closer := Swept, streams := map[])], [SweepEnd];
    } else {
      var sid :| sid in todo;
      var x := s.streams[sid];
      var s1 := Put(s, x, if s.all[x].Dead() then s.all[x] else RunHook(s.all[x])).(closer := Sweeping(todo - {sid}));
      assert Next(s, SweepOne(sid), s1);
      var run1, steps1 := SweepsOn(s1, o);
      Prepend(s, SweepOne(sid), run1, steps1);
      run, steps := [s] + run1, [SweepOne(sid)] + steps1;
    }
  }

  lemma ClosesAndSweeps(s: Session, o: Obj) returns (run: seq<Session>, steps: seq<Step>)
    requires Adrift(s, o) && s.closer.Open?
    ensures Goes(run, steps) && run[0] == s
    ensures run[|steps|].closer.Swept? && Adrift(run[|steps|], o)
  {
    var s1 := s.(closer := Dying);
    var s2 := s1.(closer := HookRan, sessionHookRuns := s.sessionHookRuns + 1);
    var s3 := s2.(closer := Sweeping(s.streams.Keys));
    run, steps := SweepsOn(s3, o);
    Prepend(s2, SweepStart, run, steps);
    run, steps := [s2] + run, [SweepStart] + steps;
    Prepend(s1, CloseHook, run, steps);
    run, steps := [s1] + run, [CloseHook] + steps;
    Prepend(s, CloseBegin, run, steps);
    run, steps := [s] + run, [CloseBegin] + steps;
  }

  lemma {:induction false} Chain(a: seq<Session>, aSteps: seq<Step>, b: seq<Session>, bSteps: seq<Step>)
    returns (run: seq<Session>, steps: seq<Step>)
    requires Goes(a, aSteps) && Goes(b, bSteps) && a[|aSteps|] == b[0]
    ensures Goes(run, steps) && run[0] == a[0] && run[|steps|] == b[|bSteps|]
    decreases |aSteps|
  {
    hide Next;
    if aSteps == [] {
      run, steps := b, bSteps;
    } else {
      run, steps := Chain(a[1..], aSteps[1..], b, bSteps);
      assert Next(a[0], aSteps[0], a[1]);
      Prepend(a[0], aSteps[0], run, steps);
      run, steps := [a[0]] + run, [aSteps[0]] + steps;
    }
  }

  /** The state OpenInsert leaves. */
  lemma JustInserted(run: seq<Session>, steps: seq<Step>, n: nat, o: Obj)
    requires IsRun(run, steps) && |steps| == n + 1 && steps[n] == OpenInsert(o) && !run[n].Die()
    ensures var s := run[n + 1];
            && MapInv(s) && SweepInv(s) && NamesInv(s) && s.closer.Open?
            && o < |s.all| && s.all[o].inserted && !Closed(s, o) && Accounted(s, o)
  {
    RunKeepsNames(run, steps);
    RunKeepsOpening(run[..n + 1], steps[..n]);
    assert Next(run[n], steps[n], run[n + 1]);
    assert run[n].all[o].opening;
  }

  lemma AloneIsAlways(s: Session, o: Obj)
    requires Safe(s, o)
    ensures AlwaysAccounted(s, o) && AlwaysClosedBySweep(s, o)
  {
    hide Next;
    forall run: seq<Session>, steps: seq<Step> | Goes(run, steps) && run[0] == s
      ensures o < |run[|steps|].all| && Accounted(run[|steps|], o)
      ensures run[|steps|].closer.Swept? ==> Closed(run[|steps|], o)
    {
      GoesSafely(run, steps, o);
      if run[|steps|].closer.Swept? { SafeIsClosed(run[|steps|], o); }
    }
  }

  lemma NotAloneIsLost(s: Session, o: Obj)
    requires MapInv(s) && NamesInv(s) && s.closer.Open?
    requires o < |s.all| && s.all[o].inserted && !Closed(s, o) && !Alone(s, o)
    ensures !AlwaysAccounted(s, o) && !AlwaysClosedBySweep(s, o)
  {
    var o' :| 0 <= o' < |s.all| && o' != o && s.all[o'].sid == s.all[o].sid && !PastDelete(s.all[o']);
    var a, aSteps := TakenOut(s, o, o');
    hide Next;
    assert !Accounted(a[|aSteps|], o);
    var b, bSteps := ClosesAndSweeps(a[|aSteps|], o);
    var run, steps := Chain(a, aSteps, b, bSteps);
    assert !Closed(run[|steps|], o);
  }

  /** The exact condition, at the moment OpenStream inserts: the stream stays accounted for in every
      continuation, and every continuation has closed it by the end of the sweep, if and only if every
      other stream with its id is past its delete. */
  lemma InsertIsSafeIff(run: seq<Session>, steps: seq<Step>, n: nat, o: Obj)
    requires IsRun(run, steps) && |steps| == n + 1 && steps[n] == OpenInsert(o) && !run[n].Die()
    ensures o < |run[n + 1].all|
    ensures AlwaysAccounted(run[n + 1], o) <==> Alone(run[n + 1], o)
    ensures AlwaysClosedBySweep(run[n + 1], o) <==> Alone(run[n + 1], o)
  {
    hide Next, AlwaysAccounted, AlwaysClosedBySweep, Alone, NamesInv, SweepInv;
    JustInserted(run, steps, n, o);
    if Alone(run[n + 1], o) { AloneIsAlways(run[n + 1], o); } else { NotAloneIsLost(run[n + 1], o); }
  }

  /** A run that loses the first: the SYN branch does not look whether the session died, so a SYN
      handled after the sweep leaves a stream in the map. */
  lemma SynAfterSweepStays() returns (run: seq<Session>, steps: seq<Step>)
    ensures IsRun(run, steps)
    ensures run[|steps|].closer.Swept? && 7 in run[|steps|].streams
  {
    var s0 := Fresh();
    var s1 := s0.(closer := Dying);
    var s2 := s1.(closer := HookRan, sessionHookRuns := 1);
    var s3 := s2.(closer := Sweeping({}));
    var s4 := s3.(closer := Swept, streams := map[]);
    var s5 := s4.(streams := map[7 := 0],
                  all := [Stream(7, false, false, true, false, false, Nobody, 0)]);
    run := [s0, s1, s2, s3, s4, s5];
    steps := [CloseBegin, CloseHook, SweepStart, SweepEnd, Syn(7)];
    assert s2.streams.Keys == {};
    assert s4.streams[7 := |s4.all|] == map[7 := 0];
    assert forall i :: 0 <= i < |steps| ==> Next(run[i], steps[i], run[i + 1]);
  }

  /** A run that loses the second: a stream a SYN created under an id the client
      uses next is closed by deleting that id, which takes the client's own open stream out of the map. */
  lemma SynCanHideStream() returns (run: seq<Session>, steps: seq<Step>, o: Obj)
    ensures IsRun(run, steps)
    ensures o < |run[|steps|].all| && run[|steps|].all[o].inserted && !Accounted(run[|steps|], o)
  {
    var x := Stream(1, false, false, false, false, false, Nobody, 0);
    var y := Stream(1, true, false, false, false, false, Nobody, 0);
    var y1 := y.(opening := false, inserted := true);
    var s0 := Fresh();
    var s1 := s0.(streams := map[1 := 0], all := [x]);
    var s2 := s1.(lastId := 1, all := [x, y]);
    var s3 := s2.(streams := map[1 := 1], all := [x, y1]);
    var s4 := s3.(all := [x.(winner := Won), y1]);
    var s5 := s4.(all := [x.(winner := Finishing), y1]);
    var s6 := s5.(streams := map[], all := [x.(winner := BeforeHook), y1]);
    run := [s0, s1, s2, s3, s4, s5, s6];
    steps := [Syn(1), OpenBegin, OpenInsert(1), StreamClose(0), StreamFin(0), StreamDelete(0)];
    o := 1;
    assert Next(s0, steps[0], s1) by { assert s0.streams[1 := |s0.all|] == map[1 := 0]; }
    assert Next(s2, steps[2], s3) by { assert s2.streams[1 := 1] == map[1 := 1]; }
    assert Next(s5, steps[5], s6) by { assert s5.streams - {1} == map[]; }
    assert Next(s1, steps[1], s2) && Next(s3, steps[3], s4) && Next(s4, steps[4], s5);
    hide Next;
    assert forall i :: 0 <= i < |steps| ==> Next(run[i], steps[i], run[i + 1]);
  }
}
