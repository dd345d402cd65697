/** The reconnect loop of the nested tunnel: which hop a failed session is blamed on, and when the
    loop gives up an outer edge and scans for another. */
module Mim {
  import opened Bytes

  const QUIC_PORT: nat := 443
  const MAX_OUTER_FAILS: nat := 2

  datatype Addr = Addr(ip: nat, port: nat)

  datatype Settings = Settings(forcedPeer: Option<Addr>, forcedInner: Option<Addr>)

  /** How an inner edge answers through the outer tunnel, and which task ends a session. */
  datatype Answer = NoForwarder | Refused | Serves
  datatype Winner = OuterExit | InnerExit | LocalExit

  /** What the network does to one session. */
  datatype Weather = Weather(outerUp: bool, hasStack: bool, answers: Addr -> Answer, clean: bool, winner: Winner)

  datatype Ending = Ended(edge: Addr) | OuterFailed | InnerFailed

  /** Inner candidates on the outer hop's own address are only dialled when there is no other. */
  predicate AllowSame(peer: Addr, candidates: seq<Addr>) {
    forall i :: 0 <= i < |candidates| ==> candidates[i].ip == peer.ip
  }

  predicate Eligible(peer: Addr, candidates: seq<Addr>, c: Addr) {
    AllowSame(peer, candidates) || c.ip != peer.ip
  }

  predicate AnyEligible(peer: Addr, candidates: seq<Addr>) {
    exists i :: 0 <= i < |candidates| && Eligible(peer, candidates, candidates[i])
  }

  predicate AnyServes(peer: Addr, candidates: seq<Addr>, answers: Addr -> Answer) {
    exists i :: 0 <= i < |candidates| && Eligible(peer, candidates, candidates[i]) && answers(candidates[i]) == Serves
  }

  /** The first eligible candidate that serves, from position `at`. */
  function FirstServing(peer: Addr, candidates: seq<Addr>, answers: Addr -> Answer, at: nat): (r: Option<nat>)
    requires at <= |candidates|
    ensures r.Some? ==>
              && at <= r.value < |candidates|
              && Eligible(peer, candidates, candidates[r.value]) && answers(candidates[r.value]) == Serves
              && forall i :: at <= i < r.value && Eligible(peer, candidates, candidates[i]) ==> answers(candidates[i]) != Serves
    ensures r.None? ==>
              forall i :: at <= i < |candidates| && Eligible(peer, candidates, candidates[i]) ==> answers(candidates[i]) != Serves
    decreases |candidates| - at
  {
    if at == |candidates| then None
    else if Eligible(peer, candidates, candidates[at]) && answers(candidates[at]) == Serves then Some(at)
    else FirstServing(peer, candidates, answers, at + 1)
  }

  /** Both hops were up and a session ran through `edge`. */
  function Settle(edge: Addr, w: Weather): Ending {
    if w.clean then Ended(edge) else if w.winner == OuterExit then OuterFailed else InnerFailed
  }

  function EndingOf(peer: Addr, candidates: seq<Addr>, w: Weather): Ending {
    if !w.outerUp || (!w.hasStack && AnyEligible(peer, candidates)) then OuterFailed
    else
      match FirstServing(peer, candidates, w.answers, 0)
      case None => InnerFailed
      case Some(i) => Settle(candidates[i], w)
  }

  method RunSession(peer: Addr, candidates: seq<Addr>, w: Weather) returns (e: Ending)
    ensures e == EndingOf(peer, candidates, w)
  {
    if !w.outerUp {
      return OuterFailed;
    }
    var chosen: Option<Addr> := None;
    var allowSame := AllowSame(peer, candidates);
    var i := 0;
    while i < |candidates|
      invariant 0 <= i <= |candidates|
      invariant !w.hasStack ==> forall j :: 0 <= j < i ==> !Eligible(peer, candidates, candidates[j])
      invariant chosen.None?
      invariant FirstServing(peer, candidates, w.answers, i) == FirstServing(peer, candidates, w.answers, 0)
    {
      var inner := candidates[i];
      if allowSame || inner.ip != peer.ip {
        assert Eligible(peer, candidates, inner);
        if !w.hasStack {
          return OuterFailed;
        }
        match w.answers(inner) {
          case NoForwarder =>
          case Refused =>
          case Serves =>
            chosen := Some(inner);
            break;
        }
      }
      i := i + 1;
    }
    match chosen {
      case None => return InnerFailed;
      case Some(edge) => return if w.clean then Ended(edge) else if w.winner == OuterExit then OuterFailed else InnerFailed;
    }
  }

  /** Only the hop that failed pays: what a session is blamed on, in terms of what happened. */
  lemma OnlyTheDeadHopPays(peer: Addr, candidates: seq<Addr>, w: Weather)
    ensures EndingOf(peer, candidates, w).OuterFailed? <==>
              || !w.outerUp
              || (!w.hasStack && AnyEligible(peer, candidates))
              || (AnyServes(peer, candidates, w.answers) && !w.clean && w.winner == OuterExit)
    ensures candidates != [] ==> AnyEligible(peer, candidates)
    ensures EndingOf(peer, candidates, w).Ended? ==>
              var edge := EndingOf(peer, candidates, w).edge;
              edge in candidates && w.answers(edge) == Serves
              && (edge.ip == peer.ip ==> AllowSame(peer, candidates))
  {
    if candidates != [] {
      if AllowSame(peer, candidates) {
        assert Eligible(peer, candidates, candidates[0]);
      } else {
        var i :| 0 <= i < |candidates| && candidates[i].ip != peer.ip;
        assert Eligible(peer, candidates, candidates[i]);
      }
    }
  }

  /** Candidate `i` is the first eligible one that serves. */
  predicate FirstServes(peer: Addr, candidates: seq<Addr>, answers: Addr -> Answer, i: nat) {
    && i < |candidates| && Eligible(peer, candidates, candidates[i]) && answers(candidates[i]) == Serves
    && forall j :: 0 <= j < i && Eligible(peer, candidates, candidates[j]) ==> answers(candidates[j]) != Serves
  }

  /** The outer hop was the one that failed: it never came up, had no stack to dial through, or died
      under a session. */
  predicate OuterDied(peer: Addr, candidates: seq<Addr>, w: Weather) {
    || !w.outerUp
    || (!w.hasStack && candidates != [])
    || (AnyServes(peer, candidates, w.answers) && !w.clean && w.winner == OuterExit)
  }

  predicate RanCleanly(peer: Addr, candidates: seq<Addr>, w: Weather) {
    w.outerUp && w.hasStack && w.clean && AnyServes(peer, candidates, w.answers)
  }

  /** When a session counts as completed, and through which edge: the first eligible candidate that
      serves, behind an outer hop that is up and has its stack, in a session that ends cleanly. */
  lemma EndedIff(peer: Addr, candidates: seq<Addr>, w: Weather, edge: Addr)
    ensures EndingOf(peer, candidates, w) == Ended(edge) <==>
              && w.outerUp && w.hasStack && w.clean
              && exists i: nat :: FirstServes(peer, candidates, w.answers, i) && candidates[i] == edge
  {
    if i: nat :| FirstServes(peer, candidates, w.answers, i) && candidates[i] == edge {
      var r := FirstServing(peer, candidates, w.answers, 0);
      assert r.Some? && FirstServes(peer, candidates, w.answers, r.value);
      assert r.value == i;
    }
    if EndingOf(peer, candidates, w) == Ended(edge) {
      var i := FirstServing(peer, candidates, w.answers, 0).value;
      assert FirstServes(peer, candidates, w.answers, i) && candidates[i] == edge;
    }
  }

  /** The three endings by what the network did; exactly one of them applies. */
  lemma EndingByWeather(peer: Addr, candidates: seq<Addr>, w: Weather)
    ensures EndingOf(peer, candidates, w).OuterFailed? <==> OuterDied(peer, candidates, w)
    ensures EndingOf(peer, candidates, w).Ended? <==> RanCleanly(peer, candidates, w)
    ensures EndingOf(peer, candidates, w).InnerFailed? <==>
              && w.outerUp && (w.hasStack || candidates == [])
              && (!AnyServes(peer, candidates, w.answers) || (!w.clean && w.winner != OuterExit))
  {
    OnlyTheDeadHopPays(peer, candidates, w);
  }

  /** The inner edges to try: the remembered one in front, unless it is in the pool already. */
  function Candidates(s: Settings, peer: Addr, lastInner: Option<Addr>, pool: seq<Addr>): seq<Addr> {
    var known := if lastInner.Some? && lastInner.value !in pool then [lastInner.value] + pool else pool;
    if s.forcedInner.Some? then [s.forcedInner.value]
    else if known == [] && s.forcedPeer.Some? then [Addr(peer.ip, QUIC_PORT)]
    else known
  }

  /** One turn of the loop: what a scan would find, the pool of inner edges, and the session's fate. */
  datatype Round = Round(scan: Option<Addr>, pool: seq<Addr>, weather: Weather)

  /** What a turn did. */
  datatype Entry =
    | NoGateway
    | Session(peer: Addr, scanned: bool, candidates: seq<Addr>, ending: Ending)

  datatype State = State(lastPeer: Option<Addr>, lastInner: Option<Addr>, outerFails: nat, cachedPeer: Option<Addr>)

  function Start(cached: Option<Addr>): State {
    State(None, None, 0, cached)
  }

  function Or(a: Option<Addr>, b: Option<Addr>): Option<Addr> {
    if a.Some? then a else b
  }

  function Step(s: Settings, st: State, r: Round): (State, Entry) {
    var known := if st.outerFails < MAX_OUTER_FAILS then Or(st.lastPeer, st.cachedPeer) else None;
    var cachedPeer := if st.outerFails < MAX_OUTER_FAILS then st.cachedPeer else None;
    if known.None? && r.scan.None? then (st.(cachedPeer := cachedPeer), NoGateway)
    else
      var peer := if known.Some? then known.value else r.scan.value;
      var fails := if known.Some? then st.outerFails else 0;
      var candidates := Candidates(s, peer, st.lastInner, r.pool);
      var ending := EndingOf(peer, candidates, r.weather);
      (match ending
         case Ended(edge) => State(Some(peer), Some(edge), 0, cachedPeer)
         case OuterFailed => State(Some(peer), st.lastInner, fails + 1, cachedPeer)
         case InnerFailed => State(Some(peer), None, fails, cachedPeer),
       Session(peer, known.None?, candidates, ending))
  }

  /** The loop after some turns: its variables, and what it did. */
  function Run(s: Settings, cached: Option<Addr>, rounds: seq<Round>): (r: (State, seq<Entry>))
    ensures |r.1| == |rounds|
  {
    if rounds == [] then (Start(cached), [])
    else
      var (st, log) := Run(s, cached, rounds[..|rounds| - 1]);
      var (st', entry) := Step(s, st, rounds[|rounds| - 1]);
      (st', log + [entry])
  }

  function Log(s: Settings, cached: Option<Addr>, rounds: seq<Round>): (r: seq<Entry>)
    ensures |r| == |rounds|
  {
    Run(s, cached, rounds).1
  }

  method RunMim(s: Settings, cached: Option<Addr>, rounds: seq<Round>) returns (log: seq<Entry>)
    ensures log == Log(s, cached, rounds)
  {
    hide EndingOf, Candidates;
    var lastPeer: Option<Addr> := None;
    var lastInner: Option<Addr> := None;
    var outerFails: nat := 0;
    var cachedPeer := cached;
    log := [];
    for i := 0 to |rounds|
      invariant Run(s, cached, rounds[..i]) == (State(lastPeer, lastInner, outerFails, cachedPeer), log)
    {
      assert rounds[..i + 1][..i] == rounds[..i];
      var round := rounds[i];
      var known: Option<Addr> := None;
      if outerFails < MAX_OUTER_FAILS {
        known := Or(lastPeer, cachedPeer);
      } else {
        cachedPeer := None;
      }
      var peer: Addr;
      match known {
        case Some(p) => peer := p;
        case None =>
          match round.scan {
            case Some(p) => peer := p;
            case None =>
              log := log + [NoGateway];
              continue;
          }
          outerFails := 0;
      }
      lastPeer := Some(peer);
      var candidates := Candidates(s, peer, lastInner, round.pool);
      var ending := RunSession(peer, candidates, round.weather);
      match ending {
        case Ended(edge) =>
          lastInner := Some(edge);
          outerFails := 0;
        case OuterFailed =>
          outerFails := outerFails + 1;
        case InnerFailed =>
          lastInner := None;
      }
      log := log + [Session(peer, known.None?, candidates, ending)];
    }
    assert rounds[..|rounds|] == rounds;
  }

  /** What the log says on its own: the last outer edge, the outer failures held against it, and the
      inner edge worth trying again. */
  function LastPeer(log: seq<Entry>): Option<Addr> {
    if log == [] then None
    else if log[|log| - 1].Session? then Some(log[|log| - 1].peer)
    else LastPeer(log[..|log| - 1])
  }

  function Blame(log: seq<Entry>): nat {
    if log == [] then 0
    else
      var before := Blame(log[..|log| - 1]);
      match log[|log| - 1]
      case NoGateway => before
      case Session(_, scanned, _, ending) =>
        var kept := if scanned then 0 else before;
        if ending.Ended? then 0 else if ending.OuterFailed? then kept + 1 else kept
  }

  function Remembered(log: seq<Entry>): Option<Addr> {
    if log == [] then None
    else
      match log[|log| - 1]
      case NoGateway => Remembered(log[..|log| - 1])
      case Session(_, _, _, ending) =>
        if ending.Ended? then Some(ending.edge)
        else if ending.OuterFailed? then Remembered(log[..|log| - 1])
        else None
  }

  lemma Snoc(log: seq<Entry>, e: Entry)
    ensures LastPeer(log + [e]) == if e.Session? then Some(e.peer) else LastPeer(log)
    ensures Blame(log + [e]) == match e
              case NoGateway => Blame(log)
              case Session(_, scanned, _, ending) =>
                var kept := if scanned then 0 else Blame(log);
                if ending.Ended? then 0 else if ending.OuterFailed? then kept + 1 else kept
    ensures Remembered(log + [e]) == match e
              case NoGateway => Remembered(log)
              case Session(_, _, _, ending) =>
                if ending.Ended? then Some(ending.edge) else if ending.OuterFailed? then Remembered(log) else None
  {
    assert (log + [e])[..|log|] == log;
  }

  /** The loop's variables are what the log says. */
  ghost predicate Follows(st: State, log: seq<Entry>, cached: Option<Addr>) {
    && st.lastPeer == LastPeer(log)
    && st.lastInner == Remembered(log)
    && st.outerFails == Blame(log) <= MAX_OUTER_FAILS
    && (st.lastPeer.None? ==> st.cachedPeer == cached && st.outerFails == 0)
  }

  lemma StepFollows(s: Settings, st: State, r: Round, log: seq<Entry>, cached: Option<Addr>)
    requires Follows(st, log, cached)
    ensures Follows(Step(s, st, r).0, log + [Step(s, st, r).1], cached)
  {
    hide EndingOf, Candidates, LastPeer, Blame, Remembered;
    Snoc(log, Step(s, st, r).1);
  }

  lemma {:induction false} StateFollowsLog(s: Settings, cached: Option<Addr>, rounds: seq<Round>)
    ensures Follows(Run(s, cached, rounds).0, Run(s, cached, rounds).1, cached)
  {
    if rounds != [] {
      hide Step, Follows;
      var n := |rounds| - 1;
      StateFollowsLog(s, cached, rounds[..n]);
      StepFollows(s, Run(s, cached, rounds[..n]).0, rounds[n], Run(s, cached, rounds[..n]).1, cached);
    }
  }

  /** The log only grows. */
  lemma {:induction false} LogPrefix(s: Settings, cached: Option<Addr>, rounds: seq<Round>, i: nat)
    requires i <= |rounds|
    ensures Log(s, cached, rounds)[..i] == Log(s, cached, rounds[..i])
  {
    if i < |rounds| {
      hide Step;
      var shorter := rounds[..|rounds| - 1];
      LogPrefix(s, cached, shorter, i);
      assert shorter[..i] == rounds[..i];
      assert Log(s, cached, rounds)[..i] == Log(s, cached, shorter)[..i];
    } else {
      assert rounds[..i] == rounds;
    }
  }

  predicate Scans(e: Entry) {
    e.NoGateway? || e.scanned
  }

  /** Turn `i` of any run, from what the log says about the turns before it: a scan starts exactly
      when there is no edge to try yet, or when the present one has two outer failures against it;
      otherwise the session uses the present edge. A scan that finds nothing ends the turn. */
  lemma RescansIff(s: Settings, cached: Option<Addr>, rounds: seq<Round>, i: nat)
    requires i < |rounds|
    ensures var log := Log(s, cached, rounds);
            var known := LastPeer(log[..i]);
            && (Scans(log[i]) <==> if known.None? then cached.None? else Blame(log[..i]) >= 2)
            && (!Scans(log[i]) ==> log[i].Session? && Some(log[i].peer) == Or(known, cached))
            && (Scans(log[i]) ==>
                  if rounds[i].scan.Some? then log[i].Session? && Some(log[i].peer) == rounds[i].scan else log[i].NoGateway?)
            && (log[i].Session? ==> log[i].candidates == Candidates(s, log[i].peer, Remembered(log[..i]), rounds[i].pool))
  {
    hide EndingOf, Candidates;
    var log := Log(s, cached, rounds);
    LogPrefix(s, cached, rounds, i);
    LogPrefix(s, cached, rounds, i + 1);
    StateFollowsLog(s, cached, rounds[..i]);
    assert rounds[..i + 1][..i] == rounds[..i];
    assert log[i] == log[..i + 1][i];
  }

  predicate OuterFailure(e: Entry) {
    e.Session? && e.ending.OuterFailed?
  }

  /** A completed session, or a scan that found a new edge. */
  predicate Clears(e: Entry) {
    e.Session? && (e.ending.Ended? || e.scanned)
  }

  ghost predicate Quiet(log: seq<Entry>, after: nat) {
    forall m :: after < m < |log| ==> !Clears(log[m])
  }

  ghost predicate Strike(log: seq<Entry>, j: nat) {
    j < |log| && OuterFailure(log[j]) && Quiet(log, j) && Some(log[j].peer) == LastPeer(log)
  }

  /** Two outer failures of the present edge, and nothing that clears it since the first. */
  ghost predicate TwoStrikes(log: seq<Entry>, j: nat, k: nat) {
    j < k && Strike(log, j) && Strike(log, k)
  }

  /** Sessions without a scan stay on the edge of the session before. */
  ghost predicate Keeps(log: seq<Entry>) {
    forall i :: 0 <= i < |log| ==> KeepsAt(log, i)
  }

  ghost predicate KeepsAt(log: seq<Entry>, i: nat)
    requires i < |log|
  {
    !Scans(log[i]) && LastPeer(log[..i]).Some? ==> log[i].Session? && Some(log[i].peer) == LastPeer(log[..i])
  }

  lemma KeepsFacts(log: seq<Entry>)
    requires Keeps(log) && log != []
    ensures KeepsAt(log, |log| - 1) && Keeps(log[..|log| - 1])
  {
    var shorter := log[..|log| - 1];
    forall i | 0 <= i < |shorter|
      ensures KeepsAt(shorter, i)
    {
      assert KeepsAt(log, i) && shorter[..i] == log[..i];
    }
  }

  lemma {:induction false} NoPeerNoBlame(log: seq<Entry>)
    ensures LastPeer(log).None? ==> Blame(log) == 0 && forall i :: 0 <= i < |log| ==> log[i].NoGateway?
  {
    if log != [] { NoPeerNoBlame(log[..|log| - 1]); }
  }

  /** A strike stands after one more turn that clears nothing. */
  lemma StrikeStays(log: seq<Entry>, j: nat)
    requires Keeps(log) && log != [] && Strike(log[..|log| - 1], j) && !Clears(log[|log| - 1])
    ensures Strike(log, j)
  {
    KeepsFacts(log);
  }

  lemma StrikeBefore(log: seq<Entry>, j: nat)
    requires Keeps(log) && Strike(log, j) && j < |log| - 1
    ensures Strike(log[..|log| - 1], j) && !Clears(log[|log| - 1])
  {
    KeepsFacts(log);
    NoPeerNoBlame(log[..|log| - 1]);
    assert log[..|log| - 1][j] == log[j];
  }

  lemma {:induction false} BlameIsAStrike(log: seq<Entry>)
    requires Keeps(log)
    ensures Blame(log) >= 1 <==> exists j :: Strike(log, j)
  {
    if log != [] {
      var n := |log| - 1;
      KeepsFacts(log);
      BlameIsAStrike(log[..n]);
      if OuterFailure(log[n]) {
        assert Strike(log, n);
      } else {
        if j: nat :| Strike(log[..n], j) && !Clears(log[n]) { StrikeStays(log, j); }
        if j: nat :| Strike(log, j) { StrikeBefore(log, j); }
      }
    }
  }

  lemma {:induction false} BlameIsTwoStrikes(log: seq<Entry>)
    requires Keeps(log)
    ensures Blame(log) >= 2 <==> exists j, k :: TwoStrikes(log, j, k)
  {
    if log != [] {
      var n := |log| - 1;
      KeepsFacts(log);
      BlameIsAStrike(log[..n]);
      BlameIsTwoStrikes(log[..n]);
      if Blame(log) >= 2 {
        if OuterFailure(log[n]) {
          var j :| Strike(log[..n], j);
          StrikeStays(log, j);
          assert TwoStrikes(log, j, n);
        } else {
          var j, k :| TwoStrikes(log[..n], j, k);
          StrikeStays(log, j);
          StrikeStays(log, k);
          assert TwoStrikes(log, j, k);
        }
      }
      if j: nat, k: nat :| TwoStrikes(log, j, k) {
        StrikeBefore(log, j);
        if k < n {
          StrikeBefore(log, k);
          assert TwoStrikes(log[..n], j, k);
        }
      }
    }
  }

  lemma RunKeeps(s: Settings, cached: Option<Addr>, rounds: seq<Round>)
    ensures Keeps(Log(s, cached, rounds))
  {
    forall i | 0 <= i < |rounds|
      ensures KeepsAt(Log(s, cached, rounds), i)
    {
      RescansIff(s, cached, rounds, i);
    }
  }

  /** Failure attribution over whole runs: once an outer edge is chosen, a scan starts exactly when
      that edge has failed twice as the outer hop with no completed session in between. */
  lemma RescanIffTwoStrikes(s: Settings, cached: Option<Addr>, rounds: seq<Round>, i: nat)
    requires i < |rounds|
    requires LastPeer(Log(s, cached, rounds)[..i]).Some?
    ensures Scans(Log(s, cached, rounds)[i]) <==> exists j, k :: TwoStrikes(Log(s, cached, rounds)[..i], j, k)
  {
    hide Log, TwoStrikes;
    RescansIff(s, cached, rounds, i);
    LogPrefix(s, cached, rounds, i);
    RunKeeps(s, cached, rounds[..i]);
    BlameIsTwoStrikes(Log(s, cached, rounds)[..i]);
  }

  /** What a turn's log entry owes to that turn's weather. */
  lemma EndingAt(s: Settings, cached: Option<Addr>, rounds: seq<Round>, i: nat)
    requires i < |rounds| && Log(s, cached, rounds)[i].Session?
    ensures var e := Log(s, cached, rounds)[i];
            && e.ending == EndingOf(e.peer, e.candidates, rounds[i].weather)
            && (e.ending.OuterFailed? <==> OuterDied(e.peer, e.candidates, rounds[i].weather))
            && (e.ending.Ended? <==> RanCleanly(e.peer, e.candidates, rounds[i].weather))
  {
    hide EndingOf, Candidates, OuterDied, RanCleanly;
    var log := Log(s, cached, rounds);
    LogPrefix(s, cached, rounds, i + 1);
    assert rounds[..i + 1][..i] == rounds[..i] && log[i] == log[..i + 1][i];
    EndingByWeather(log[i].peer, log[i].candidates, rounds[i].weather);
  }

  ghost predicate WeatherKills(log: seq<Entry>, rounds: seq<Round>, j: nat)
    requires |log| == |rounds|
  {
    j < |log| && log[j].Session? && OuterDied(log[j].peer, log[j].candidates, rounds[j].weather)
  }

  /** Turn `m` forgives the edge: it found a new one, or its session ran through both hops and ended
      cleanly. */
  ghost predicate WeatherForgives(log: seq<Entry>, rounds: seq<Round>, m: nat)
    requires |log| == |rounds|
  {
    && m < |log| && log[m].Session?
    && (log[m].scanned || RanCleanly(log[m].peer, log[m].candidates, rounds[m].weather))
  }

  /** Before turn `i` the present edge died twice as the outer hop, and nothing forgave it since. */
  ghost predicate DiedTwice(log: seq<Entry>, rounds: seq<Round>, i: nat, j: nat, k: nat)
    requires |log| == |rounds| && i <= |log|
  {
    && j < k < i && WeatherKills(log, rounds, j) && WeatherKills(log, rounds, k)
    && Some(log[j].peer) == Some(log[k].peer) == LastPeer(log[..i])
    && forall m :: j < m < i ==> !WeatherForgives(log, rounds, m)
  }

  lemma StrikesAreDeaths(s: Settings, cached: Option<Addr>, rounds: seq<Round>, i: nat, j: nat, k: nat)
    requires i <= |rounds|
    ensures var log := Log(s, cached, rounds);
            TwoStrikes(log[..i], j, k) <==> DiedTwice(log, rounds, i, j, k)
  {
    hide Log, OuterDied, RanCleanly, LastPeer;
    var log := Log(s, cached, rounds);
    forall m: nat | m < i
      ensures OuterFailure(log[..i][m]) <==> WeatherKills(log, rounds, m)
      ensures Clears(log[..i][m]) <==> WeatherForgives(log, rounds, m)
    {
      if log[m].Session? { EndingAt(s, cached, rounds, m); }
    }
  }

  /** The same in terms of what the network did: a scan starts exactly after two turns whose weather
      killed the present outer edge, with no cleanly ended session, and no new edge, in between. */
  lemma RescanIffDiedTwice(s: Settings, cached: Option<Addr>, rounds: seq<Round>, i: nat)
    requires i < |rounds|
    requires LastPeer(Log(s, cached, rounds)[..i]).Some?
    ensures var log := Log(s, cached, rounds);
            Scans(log[i]) <==> exists j, k :: DiedTwice(log, rounds, i, j, k)
  {
    hide Log, TwoStrikes, DiedTwice;
    var log := Log(s, cached, rounds);
    RescanIffTwoStrikes(s, cached, rounds, i);
    if j: nat, k: nat :| TwoStrikes(log[..i], j, k) {
      StrikesAreDeaths(s, cached, rounds, i, j, k);
      assert DiedTwice(log, rounds, i, j, k);
    }
    if j: nat, k: nat :| DiedTwice(log, rounds, i, j, k) {
      StrikesAreDeaths(s, cached, rounds, i, j, k);
    }
  }

  /** Turn `j` completed a session through `edge`, and only outer failures came after it. */
  ghost predicate StillGood(log: seq<Entry>, j: nat, edge: Addr) {
    && j < |log| && log[j].Session? && log[j].ending == Ended(edge)
    && forall m :: j < m < |log| ==> log[m].NoGateway? || OuterFailure(log[m])
  }

  /** The remembered inner edge is the one of the last completed session, unless the inner hop failed
      since. */
  lemma {:induction false} RememberedIff(log: seq<Entry>, edge: Addr)
    ensures Remembered(log) == Some(edge) <==> exists j :: StillGood(log, j, edge)
  {
    if log != [] {
      var n := |log| - 1;
      RememberedIff(log[..n], edge);
      if log[n].Session? && log[n].ending == Ended(edge) { assert StillGood(log, n, edge); }
      if j: nat :| StillGood(log[..n], j, edge) {
        assert log[..n][j] == log[j];
        if log[n].NoGateway? || OuterFailure(log[n]) { assert StillGood(log, j, edge); }
      }
      if j: nat :| StillGood(log, j, edge) {
        if j < n { assert StillGood(log[..n], j, edge); }
      }
    }
  }

  /** The inner edges a turn tries: a pinned one alone; otherwise the pool in its order, with the
      remembered edge in front if the pool lacks it; and the outer edge's own address only when a pinned
      outer edge leaves nothing else. */
  lemma CandidatesExactly(s: Settings, peer: Addr, known: Option<Addr>, pool: seq<Addr>)
    ensures var candidates := Candidates(s, peer, known, pool);
            && (s.forcedInner.Some? ==> candidates == [s.forcedInner.value])
            && (s.forcedInner.None? && (pool != [] || known.Some?) ==>
                  && pool <= candidates[|candidates| - |pool|..] && |candidates| <= |pool| + 1
                  && (forall c :: c in candidates <==> c in pool || known == Some(c)))
            && (s.forcedInner.None? && pool == [] && known.None? ==>
                  candidates == if s.forcedPeer.Some? then [Addr(peer.ip, QUIC_PORT)] else [])
  {}

  /** Inner failures and completed sessions, however many, never start a scan nor change the edge. */
  lemma {:induction false} InnerFailuresNeverRescan(s: Settings, cached: Option<Addr>, rounds: seq<Round>, i: nat, n: nat)
    requires i < n < |rounds|
    requires Log(s, cached, rounds)[i].Session?
    requires forall m :: i <= m < n ==> !OuterFailure(Log(s, cached, rounds)[m])
    ensures var log := Log(s, cached, rounds);
            !Scans(log[n]) && log[n].peer == log[i].peer
    decreases n
  {
    hide Log;
    var log := Log(s, cached, rounds);
    RescansIff(s, cached, rounds, n);
    BlameStaysLow(s, cached, rounds, i, n);
  }

  lemma {:induction false} BlameStaysLow(s: Settings, cached: Option<Addr>, rounds: seq<Round>, i: nat, n: nat)
    requires i < n <= |rounds|
    requires Log(s, cached, rounds)[i].Session?
    requires forall m :: i <= m < n ==> !OuterFailure(Log(s, cached, rounds)[m])
    ensures var log := Log(s, cached, rounds);
            Blame(log[..n]) <= 1 && LastPeer(log[..n]) == Some(log[i].peer)
    decreases n
  {
    hide Log;
    var log := Log(s, cached, rounds);
    assert log[..n][..n - 1] == log[..n - 1] && log[..n][n - 1] == log[n - 1];
    RescansIff(s, cached, rounds, n - 1);
    if n - 1 > i {
      BlameStaysLow(s, cached, rounds, i, n - 1);
    } else {
      NoPeerNoBlame(log[..i]);
    }
  }

  /** The remembered inner edge is always tried, but it is in front only when the pool does not hold
      it further back. */
  lemma RememberedEdgeIsFirstIff(s: Settings, peer: Addr, known: Addr, pool: seq<Addr>)
    requires s.forcedInner.None?
    ensures var candidates := Candidates(s, peer, Some(known), pool);
            && known in candidates
            && (candidates[0] == known <==> known !in pool || pool[0] == known)
  {}

  /** A run in which two outer failures with an inner failure between them start a scan: failures in
      a row are not needed. */
  lemma InnerFailureDoesNotForgive()
    ensures var a := Addr(1, QUIC_PORT);
            var down := Round(Some(a), [], Weather(false, true, _ => Refused, true, LocalExit));
            var refused := Round(Some(a), [], Weather(true, true, _ => Refused, true, LocalExit));
            var log := Log(Settings(None, None), None, [down, refused, down, refused]);
            !Scans(log[2]) && Scans(log[3]) && log[1].Session? && log[1].ending == InnerFailed
  {
    var a := Addr(1, QUIC_PORT);
    var s := Settings(None, None);
    var down := Round(Some(a), [], Weather(false, true, _ => Refused, true, LocalExit));
    var refused := Round(Some(a), [], Weather(true, true, _ => Refused, true, LocalExit));
    var all := [down, refused, down, refused];
    assert all[..3] == [down, refused, down] && all[..3][..2] == [down, refused] && all[..3][..2][..1] == [down];
    assert [down][..0] == [] && Run(s, None, []) == (Start(None), []);
    assert Step(s, Start(None), down) == (State(Some(a), None, 1, None), Session(a, true, [], OuterFailed));
    assert Run(s, None, [down]).0 == State(Some(a), None, 1, None);
    assert Run(s, None, [down, refused]).0 == State(Some(a), None, 1, None);
    assert Run(s, None, [down, refused, down]).0 == State(Some(a), None, 2, None);
  }
}
