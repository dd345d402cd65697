/** The list of idle sessions, ordered by key so that the newest session comes first, and the
    client operations that change it under its lock. */
module IdleList {
  import opened Bytes

  const MAX_UINT64: nat := 0xffff_ffff_ffff_ffff

  datatype Entry = Entry(session: nat, idleSince: int)
  {
    /** Newer sessions have smaller keys. */
    function Key(): int { MAX_UINT64 - session }
  }

  predicate Sorted(es: seq<Entry>) {
    forall i, j :: 0 <= i < j < |es| ==> es[i].Key() < es[j].Key()
  }

  /** The ordered list's insert: a value with an equal key is replaced. */
  function Insert(es: seq<Entry>, e: Entry): seq<Entry> {
    if es == [] then [e]
    else if e.Key() < es[0].Key() then [e] + es
    else if e.Key() == es[0].Key() then [e] + es[1..]
    else [es[0]] + Insert(es[1..], e)
  }

  function Remove(es: seq<Entry>, session: nat): seq<Entry> {
    if es == [] then []
    else if es[0].session == session then es[1..]
    else [es[0]] + Remove(es[1..], session)
  }

  function Sessions(es: seq<Entry>): set<nat> {
    set i | 0 <= i < |es| :: es[i].session
  }

  lemma SessionsCons(es: seq<Entry>)
    requires es != []
    ensures Sessions(es) == {es[0].session} + Sessions(es[1..])
  {
    forall x | x in Sessions(es) ensures x in {es[0].session} + Sessions(es[1..]) {
      var i :| 0 <= i < |es| && es[i].session == x;
      if i > 0 { assert es[1..][i - 1].session == x; }
    }
    forall x | x in Sessions(es[1..]) ensures x in Sessions(es) {
      var i :| 0 <= i < |es| - 1 && es[1..][i].session == x;
      assert es[i + 1].session == x;
    }
  }

  /** A session is in the list at most once. */
  lemma OnlyOnce(es: seq<Entry>, i: nat)
    requires Sorted(es) && i < |es|
    ensures forall j :: 0 <= j < |es| && es[j].session == es[i].session ==> j == i
  {
    forall j | 0 <= j < |es| && j != i ensures es[j].session != es[i].session {
      assert es[if j < i then j else i].Key() < es[if j < i then i else j].Key();
    }
  }

  lemma SortedCons(e: Entry, es: seq<Entry>)
    requires Sorted(es) && forall s :: s in Sessions(es) ==> s < e.session
    ensures Sorted([e] + es) && Sessions([e] + es) == {e.session} + Sessions(es)
  {
    SessionsCons([e] + es);
    forall j | 0 <= j < |es| ensures e.Key() < es[j].Key() {
      assert es[j].session in Sessions(es);
    }
  }

  lemma SortedUncons(es: seq<Entry>)
    requires Sorted(es) && es != []
    ensures Sorted(es[1..]) && Sessions(es) == {es[0].session} + Sessions(es[1..])
    ensures forall s :: s in Sessions(es[1..]) ==> s < es[0].session
  {
    SessionsCons(es);
    forall s | s in Sessions(es[1..]) ensures s < es[0].session {
      var i :| 0 <= i < |es| - 1 && es[1..][i].session == s;
      assert es[0].Key() < es[i + 1].Key();
    }
  }

  lemma {:induction false} InsertFacts(es: seq<Entry>, e: Entry)
    requires Sorted(es)
    ensures Sorted(Insert(es, e)) && Sessions(Insert(es, e)) == Sessions(es) + {e.session}
  {
    hide Sorted, Sessions;
    if es == [] {
      SortedCons(e, []) by { NoSessions(); }
      NoSessions();
      assert [e] + [] == [e];
    } else {
      SortedUncons(es);
      if e.Key() < es[0].Key() {
        SortedCons(e, es);
      } else if e.Key() == es[0].Key() {
        SortedCons(e, es[1..]);
      } else {
        InsertFacts(es[1..], e);
        SortedCons(es[0], Insert(es[1..], e));
      }
    }
  }

  lemma NoSessions()
    ensures Sorted([]) && Sessions([]) == {}
  {}

  lemma {:induction false} RemoveFacts(es: seq<Entry>, session: nat)
    requires Sorted(es)
    ensures Sorted(Remove(es, session)) && Sessions(Remove(es, session)) == Sessions(es) - {session}
  {
    hide Sorted, Sessions;
    if es == [] {
      NoSessions();
    } else {
      SortedUncons(es);
      if es[0].session != session {
        RemoveFacts(es[1..], session);
        SortedCons(es[0], Remove(es[1..], session));
      }
    }
  }

  /** The entries after an insert: the new one, with its time, in place of any other of its session. */
  lemma {:induction false} InsertEntries(es: seq<Entry>, x: Entry)
    requires Sorted(es)
    ensures forall e :: e in Insert(es, x) <==> e == x || (e in es && e.session != x.session)
  {
    if es != [] {
      SortedUncons(es);
      hide Sorted;
      EntriesAreSessions(es[1..]);
      if x.Key() > es[0].Key() { InsertEntries(es[1..], x); }
      forall e
        ensures e in es <==> e == es[0] || e in es[1..]
      {}
    }
  }

  lemma {:induction false} RemoveEntries(es: seq<Entry>, session: nat)
    requires Sorted(es)
    ensures forall e :: e in Remove(es, session) <==> e in es && e.session != session
  {
    if es != [] {
      SortedUncons(es);
      hide Sorted;
      EntriesAreSessions(es[1..]);
      if es[0].session != session { RemoveEntries(es[1..], session); }
      forall e
        ensures e in es <==> e == es[0] || e in es[1..]
      {}
    }
  }

  lemma EntriesAreSessions(es: seq<Entry>)
    ensures forall e :: e in es ==> e.session in Sessions(es)
  {}

  /** The first entry is the newest session, and taking it leaves the others. */
  lemma FirstIsNewest(es: seq<Entry>)
    requires Sorted(es) && es != []
    ensures forall s :: s in Sessions(es) ==> s <= es[0].session
    ensures Sorted(es[1..]) && Sessions(es[1..]) == Sessions(es) - {es[0].session}
  {
    SortedUncons(es);
  }

  /** Whether the cleanup keeps the entry at rank `i` (the number of newer idle sessions): the
      newest `min` stay, and so does whatever has not expired. */
  predicate Keeps(es: seq<Entry>, i: nat, min: int, expTime: int)
    requires i < |es|
  {
    i < min || es[i].idleSince >= expTime
  }

  /** The sessions kept, and those closed, among the newest `n`. */
  function Kept(es: seq<Entry>, n: nat, min: int, expTime: int): seq<nat>
    requires n <= |es|
  {
    if n == 0 then []
    else Kept(es, n - 1, min, expTime) + if Keeps(es, n - 1, min, expTime) then [es[n - 1].session] else []
  }

  function Closed(es: seq<Entry>, n: nat, min: int, expTime: int): seq<nat>
    requires n <= |es|
  {
    if n == 0 then []
    else Closed(es, n - 1, min, expTime) + if Keeps(es, n - 1, min, expTime) then [] else [es[n - 1].session]
  }

  /** `e` is an expired entry of the list with a new time. */
  predicate Refreshed(es: seq<Entry>, e: Entry, expTime: int) {
    exists i :: 0 <= i < |es| && es[i].session == e.session && es[i].idleSince < expTime
  }

  /** The list after a cleanup: the kept sessions in order, only expired ones with a new time. */
  predicate CleanedTo(es: seq<Entry>, es': seq<Entry>, min: int, expTime: int) {
    && |es'| == |Kept(es, |es|, min, expTime)|
    && (forall i :: 0 <= i < |es'| ==> es'[i].session == Kept(es, |es|, min, expTime)[i])
    && (forall i :: 0 <= i < |es'| ==> es'[i] in es || Refreshed(es, es'[i], expTime))
  }

  lemma OneMore(es: seq<Entry>, n: nat, min: int, expTime: int)
    requires n < |es|
    ensures Kept(es, n + 1, min, expTime)
              == Kept(es, n, min, expTime) + if Keeps(es, n, min, expTime) then [es[n].session] else []
    ensures Closed(es, n + 1, min, expTime)
              == Closed(es, n, min, expTime) + if Keeps(es, n, min, expTime) then [] else [es[n].session]
    ensures Keeps(es, n, min, expTime) <==> es[n].idleSince >= expTime || |Kept(es, n, min, expTime)| < min
  {
    KeptCount(es, n, min, expTime);
  }

  lemma {:induction false} KeptCount(es: seq<Entry>, n: nat, min: int, expTime: int)
    requires n <= |es|
    ensures |Kept(es, n, min, expTime)| + |Closed(es, n, min, expTime)| == n
    ensures n <= min ==> |Kept(es, n, min, expTime)| == n
    ensures n >= min ==> |Kept(es, n, min, expTime)| >= min
  {
    if n > 0 { KeptCount(es, n - 1, min, expTime); }
  }

  /** Every visited entry goes to the side the rule says, and nothing else does. */
  lemma {:induction false} Placed(es: seq<Entry>, n: nat, min: int, expTime: int, i: nat)
    requires i < n <= |es|
    ensures es[i].session in if Keeps(es, i, min, expTime) then Kept(es, n, min, expTime) else Closed(es, n, min, expTime)
  {
    hide Keeps;
    if i < n - 1 { Placed(es, n - 1, min, expTime, i); }
  }

  lemma {:induction false} KeptOrigin(es: seq<Entry>, n: nat, min: int, expTime: int, s: nat) returns (i: nat)
    requires n <= |es| && s in Kept(es, n, min, expTime)
    ensures i < n && es[i].session == s && Keeps(es, i, min, expTime)
  {
    hide Keeps;
    if s in Kept(es, n - 1, min, expTime) { i := KeptOrigin(es, n - 1, min, expTime, s); } else { i := n - 1; }
  }

  lemma {:induction false} ClosedOrigin(es: seq<Entry>, n: nat, min: int, expTime: int, s: nat) returns (i: nat)
    requires n <= |es| && s in Closed(es, n, min, expTime)
    ensures i < n && es[i].session == s && !Keeps(es, i, min, expTime)
  {
    hide Keeps;
    if s in Closed(es, n - 1, min, expTime) { i := ClosedOrigin(es, n - 1, min, expTime, s); } else { i := n - 1; }
  }

  /** In a sorted list the rule alone says where a session goes. */
  lemma PlacedIff(es: seq<Entry>, min: int, expTime: int, i: nat)
    requires Sorted(es) && i < |es|
    ensures es[i].session in Kept(es, |es|, min, expTime) <==> Keeps(es, i, min, expTime)
    ensures es[i].session in Closed(es, |es|, min, expTime) <==> !Keeps(es, i, min, expTime)
  {
    Placed(es, |es|, min, expTime, i);
    OnlyOnce(es, i);
    if es[i].session in Kept(es, |es|, min, expTime) {
      var j := KeptOrigin(es, |es|, min, expTime, es[i].session);
    }
    if es[i].session in Closed(es, |es|, min, expTime) {
      var j := ClosedOrigin(es, |es|, min, expTime, es[i].session);
    }
  }

  /** A cleanup splits the idle sessions into kept and closed ones: every session goes to exactly
      one side, every closed one had expired, every unexpired one is kept, and as many as the
      minimum asks for remain if there were that many. */
  lemma CleanupPartitions(es: seq<Entry>, min: int, expTime: int, i: nat)
    requires Sorted(es) && i < |es|
    ensures var kept, closed := Kept(es, |es|, min, expTime), Closed(es, |es|, min, expTime);
            && (es[i].session in kept) != (es[i].session in closed)
            && (es[i].session in closed ==> es[i].idleSince < expTime)
            && |kept| + |closed| == |es|
            && |kept| >= (if |es| <= min then |es| else min)
  {
    KeptCount(es, |es|, min, expTime);
    PlacedIff(es, min, expTime, i);
  }

  /** An expired session is closed exactly when enough newer ones were kept before it. */
  lemma ClosedIffEnoughKept(es: seq<Entry>, min: int, expTime: int, i: nat)
    requires Sorted(es) && i < |es| && es[i].idleSince < expTime
    ensures es[i].session in Closed(es, |es|, min, expTime) <==> |Kept(es, i, min, expTime)| >= min
  {
    KeptCount(es, i, min, expTime);
    PlacedIff(es, min, expTime, i);
  }

  lemma Nothing(es: seq<Entry>, min: int, expTime: int)
    ensures Kept(es, 0, min, expTime) == [] && Closed(es, 0, min, expTime) == []
  {}

  class Client {
    const minIdleSession: int
    var idleSession: seq<Entry>

    ghost predicate Valid()
      reads this
    {
      Sorted(idleSession)
    }

    constructor (minIdleSession: int)
      ensures Valid() && idleSession == [] && this.minIdleSession == minIdleSession
    {
      this.minIdleSession, idleSession := minIdleSession, [];
    }

    /** Hands out the newest idle session, which is then no longer idle. */
    method GetIdleSession() returns (idle: Option<nat>)
      requires Valid()
      modifies this
      ensures Valid()
      ensures idle.None? ==> old(idleSession) == [] && idleSession == []
      ensures idle.Some? ==>
                && idle.value in Sessions(old(idleSession))
                && (forall s :: s in Sessions(old(idleSession)) ==> s <= idle.value)
                && Sessions(idleSession) == Sessions(old(idleSession)) - {idle.value}
                && idleSession == old(idleSession)[1..]
    {
      idle := None;
      if |idleSession| != 0 {
        FirstIsNewest(idleSession);
        idle := Some(idleSession[0].session);
        assert idleSession[0].session in Sessions(idleSession);
        idleSession := Remove(idleSession, idleSession[0].session);
      }
    }

    /** The stream hook's return of a session to the pool. */
    method PutIdleSession(session: nat, now: int)
      requires Valid()
      modifies this
      ensures Valid() && Sessions(idleSession) == Sessions(old(idleSession)) + {session}
      ensures forall e :: e in idleSession <==>
                e == Entry(session, now) || (e in old(idleSession) && e.session != session)
    {
      InsertEntries(idleSession, Entry(session, now));
      InsertFacts(idleSession, Entry(session, now));
      idleSession := Insert(idleSession, Entry(session, now));
    }

    /** The session hook's removal of a session that died. */
    method DropIdleSession(session: nat)
      requires Valid()
      modifies this
      ensures Valid() && Sessions(idleSession) == Sessions(old(idleSession)) - {session}
      ensures forall e :: e in idleSession <==> e in old(idleSession) && e.session != session
    {
      RemoveEntries(idleSession, session);
      RemoveFacts(idleSession, session);
      idleSession := Remove(idleSession, session);
    }

    /** One pass over the idle list, newest first, that counts what it keeps. */
    method IdleCleanupExpTime(expTime: int) returns (sessionToClose: seq<nat>)
      requires Valid()
      modifies this
      ensures Valid()
      ensures sessionToClose == Closed(old(idleSession), |old(idleSession)|, minIdleSession, expTime)
      ensures CleanedTo(old(idleSession), idleSession, minIdleSession, expTime)
    {
      Nothing(idleSession, minIdleSession, expTime);
      hide Kept, Closed, Keeps;
      var activeCount := 0;
      sessionToClose := [];
      ghost var es := idleSession;
      ghost var n := 0;  // entries visited
      var at := 0;       // the cursor, past the entries kept
      while at < |idleSession|
        invariant n <= |es| && at <= |idleSession|
        invariant at == activeCount == |Kept(es, n, minIdleSession, expTime)|
        invariant idleSession[at..] == es[n..]
        invariant forall i :: 0 <= i < at ==> idleSession[i].session == Kept(es, n, minIdleSession, expTime)[i]
        invariant forall i :: 0 <= i < at ==> idleSession[i] in es || Refreshed(es, idleSession[i], expTime)
        invariant sessionToClose == Closed(es, n, minIdleSession, expTime)
        decreases |idleSession| - at
      {
        OneMore(es, n, minIdleSession, expTime);
        var entry := idleSession[at];
        assert entry == idleSession[at..][0] == es[n..][0];
        ghost var later := idleSession[at + 1..];
        assert later == idleSession[at..][1..] == es[n..][1..] == es[n + 1..];
        if !(entry.idleSince < expTime) {
          activeCount := activeCount + 1;
          at := at + 1;
        } else if activeCount < minIdleSession {
          var now: int := *;
          assert Refreshed(es, entry.(idleSince := now), expTime);
          idleSession := idleSession[at := entry.(idleSince := now)];
          activeCount := activeCount + 1;
          at := at + 1;
        } else {
          sessionToClose := sessionToClose + [entry.session];
          idleSession := idleSession[..at] + idleSession[at + 1..];
        }
        n := n + 1;
        assert idleSession[at..] == later;
      }
      assert |idleSession[at..]| == |es[n..]| == 0;
      CleanedIsSorted(es, idleSession, minIdleSession, expTime);
    }
  }

  lemma {:induction false} KeptDescends(es: seq<Entry>, n: nat, min: int, expTime: int)
    requires n <= |es| && Sorted(es)
    ensures forall i, j :: 0 <= i < j < |Kept(es, n, min, expTime)| ==>
              Kept(es, n, min, expTime)[i] > Kept(es, n, min, expTime)[j]
  {
    if n > 0 {
      KeptDescends(es, n - 1, min, expTime);
      var before := Kept(es, n - 1, min, expTime);
      forall i | 0 <= i < |before| ensures before[i] > es[n - 1].session {
        var k := KeptOrigin(es, n - 1, min, expTime, before[i]);
        assert es[k].Key() < es[n - 1].Key();
      }
    }
  }

  lemma CleanedIsSorted(es: seq<Entry>, es': seq<Entry>, min: int, expTime: int)
    requires Sorted(es)
    requires |es'| == |Kept(es, |es|, min, expTime)|
    requires forall i :: 0 <= i < |es'| ==> es'[i].session == Kept(es, |es|, min, expTime)[i]
    ensures Sorted(es') && Sessions(es') <= Sessions(es)
  {
    KeptDescends(es, |es|, min, expTime);
    forall i | 0 <= i < |es'| ensures es'[i].session in Sessions(es) {
      var k := KeptOrigin(es, |es|, min, expTime, es'[i].session);
    }
  }
}
