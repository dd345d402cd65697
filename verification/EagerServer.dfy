/** A server that writes on a stream before the client has put it into its map: how a session gets
    there, and what is lost. */
module EagerServer {
  import opened Bytes
  import opened Frames
  import opened Padding
  import opened Receiver
  import opened Traces
  import StringMap
  import opened Writer
  import Delivery
  import Up = Multiplex
  import Both = Duplex

  /** The frame the server has just written reaches the client. */
  lemma Arrives(s: Both.Sys, sid: u32, data: bytes, env: Env, md5: Digest) returns (s1: Both.Sys, s2: Both.Sys)
    requires !s.broken && !s.client.ended && s.at == |s.wire|
    requires sid in Announced(s.up.got) && |data| <= 0xffff
    ensures Both.Next(s, Both.ServerWrite(sid, data, HEADER_SIZE + |data|), s1)
    ensures Both.Next(s1, Both.Receive(env, md5), s2)
    ensures s1.up == s.up && s2.up == s.up && !s2.broken && s2.at == |s2.wire|
    ensures s2.client == HandlePush(s.client, Frame(CMD_PSH, sid, data), env)
    ensures s2.Written(sid) == s.Written(sid) + data
  {
    var f := Frame(CMD_PSH, sid, data);
    ParseEncode(f, []);
    hide HandlePush, Parse, Encode;
    s1 := Both.AfterWrite(s, sid, data, HEADER_SIZE + |data|);
    assert |Encode(f)| == HEADER_SIZE + |data| by { EncodedLength(f); }
    assert s1.wire == s.wire + Encode(f) && s1.wire[s.at..] == Encode(f) == Encode(f) + [];
    s2 := Both.Advance(s1, f, |Encode(f)|, Handle(s1.client, f, env, md5));
  }

  lemma EncodedLength(f: Frame)
    ensures |Encode(f)| == HEADER_SIZE + |f.data|
  {}

  /** The client inserts a stream it has announced. */
  lemma Inserts(s: Both.Sys, sid: u32) returns (s': Both.Sys)
    requires sid in Announced(s.up.submitted) && sid !in s.up.usable
    ensures Both.Next(s, Both.Uplink(Up.Insert(sid)), s')
    ensures s' == s.(up := s'.up, client := s.client.(streams := s.client.streams[sid := true]))
    ensures s'.up.got == s.up.got
  {
    s' := s.(up := s.up.(usable := s.up.usable + {sid}),
             client := s.client.(streams := s.client.streams[sid := true]));
  }

  lemma DroppedOrTaken(client: RecvState, sid: u32, data: bytes, env: Env)
    requires data != [] && env.taken >= |data|
    ensures var client' := HandlePush(client, Frame(CMD_PSH, sid, data), env);
            && client'.ended == client.ended
            && (sid !in client.streams ==> client' == client)
            && (Delivery.Open(client, sid) ==> client'.Handed(sid) == client.Handed(sid) + data)
  {
    assert data[..|data|] == data;
  }

  /** A byte that differs from `b`. */
  function Other(b: byte): byte {
    if b == 0 then 1 else 0
  }

  lemma LosesBytesFrom(s: Both.Sys, sid: u32, data: bytes, env: Env, md5: Digest)
    returns (run: seq<Both.Sys>, steps: seq<Both.Step>)
    requires !s.broken && !s.client.ended && s.at == |s.wire| && 0 < |data| <= 0xffff && env.taken >= |data|
    requires sid in Announced(s.up.got) && sid in Announced(s.up.submitted) && sid !in s.up.usable
    requires sid !in s.client.streams && s.client.Handed(sid) == [] == s.Written(sid)
    ensures Both.Goes(run, steps) && run[0] == s
    ensures steps != [] && steps[0] == Both.ServerWrite(sid, data, HEADER_SIZE + |data|)
    ensures !(run[|steps|].client.Handed(sid) <= run[|steps|].Written(sid))
  {
    hide Both.Next, HandlePush, Announced;
    var next := [Other(data[0])];
    var s1, s2 := Arrives(s, sid, data, env, md5);
    DroppedOrTaken(s.client, sid, data, env);
    var s3 := Inserts(s2, sid);
    assert s3.client.Handed(sid) == [] && s3.Written(sid) == s2.Written(sid) == [] + data;
    var s4, s5 := Arrives(s3, sid, next, env, md5);
    DroppedOrTaken(s3.client, sid, next, env);
    assert s5.client.Handed(sid) == [] + next && s5.Written(sid) == data + next;
    assert (data + next)[0] != next[0];
    run := [s, s1, s2, s3, s4, s5];
    steps := [Both.ServerWrite(sid, data, HEADER_SIZE + |data|), Both.Receive(env, md5), Both.Uplink(Up.Insert(sid)),
              Both.ServerWrite(sid, next, HEADER_SIZE + 1), Both.Receive(env, md5)];
  }

  /** A run and what it goes on to. */
  lemma Extend(run: seq<Both.Sys>, steps: seq<Both.Step>, more: seq<Both.Sys>, moreSteps: seq<Both.Step>)
    requires Both.Goes(run, steps) && Both.Goes(more, moreSteps) && run[|steps|] == more[0]
    ensures Both.Goes(run + more[1..], steps + moreSteps)
    ensures (run + more[1..])[|steps + moreSteps|] == more[|moreSteps|]
  {
    hide Both.Next;
    var all, allSteps := run + more[1..], steps + moreSteps;
    forall i | 0 <= i < |allSteps|
      ensures Both.Next(all[i], allSteps[i], all[i + 1])
    {
      if i >= |steps| {
        var j := i - |steps|;
        assert all[i] == more[j] && all[i + 1] == more[j + 1] && allSteps[i] == moreSteps[j];
      }
    }
  }

  lemma {:induction false} AnnouncedGrows(fs: seq<Frame>, n: nat)
    requires n <= |fs|
    ensures Announced(fs[..n]) <= Announced(fs)
  {
    if n < |fs| {
      AnnouncedGrows(fs[..|fs| - 1], n);
      assert fs[..|fs| - 1][..n] == fs[..n];
    } else {
      assert fs[..n] == fs;
    }
  }

  /** What the server knows the client has submitted. */
  lemma KnownIsSubmitted(s: Up.Sys)
    requires Up.SumInv(s) && s.got <= s.sent
    ensures Announced(s.got) <= Announced(s.submitted)
  {
    AnnouncedGrows(s.sent, |s.got|);
    assert s.sent[..|s.got|] == s.got;
    NonWasteFacts(s.sent, 0);
    var kept := NonWaste(s.sent);
    AnnouncedGrows(s.submitted, |kept|);
    assert s.submitted[..|kept|] == kept;
  }

  /** The condition is exact: in any run so far, however it came about, in which the server knows a
      stream that the client does not have in its map yet and the client has read all there is, any
      write on that stream can be lost while later bytes arrive. */
  lemma WritingTooSoonCanLoseBytes(run: seq<Both.Sys>, steps: seq<Both.Step>, sid: u32, data: bytes, env: Env, md5: Digest)
    returns (run': seq<Both.Sys>, steps': seq<Both.Step>)
    requires Both.IsRun(run, steps) && Both.WritesOpened(run, steps, sid)
    requires var s := run[|steps|];
             && !s.broken && !s.client.ended && s.at == |s.wire|
             && sid in Announced(s.up.got) && sid !in s.up.usable
    requires 0 < |data| <= 0xffff && env.taken >= |data|
    ensures Both.IsRun(run', steps') && run < run' && steps < steps'
    ensures steps'[|steps|] == Both.ServerWrite(sid, data, HEADER_SIZE + |data|)
    ensures !(run'[|steps'|].client.Handed(sid) <= run'[|steps'|].Written(sid))
  {
    hide Both.Next, Both.Init;
    var s := run[|steps|];
    Both.RunKeepsInv(run, steps, sid);
    hide Up.WireInv, Up.OrderInv, Up.FirstInv, Delivery.Tracks, Delivery.Greeted, Announced, Payload;
    Both.GotIsPrefix(s, sid);
    KnownIsSubmitted(s.up);
    assert s.Written(sid) == Payload(s.sent, sid) == [];
    var more, moreSteps := LosesBytesFrom(s, sid, data, env, md5);
    Extend(run, steps, more, moreSteps);
    run', steps' := run + more[1..], steps + moreSteps;
  }

  ghost predicate UpGoes(us: seq<Up.Sys>, steps: seq<Up.Step>) {
    && |us| == |steps| + 1
    && forall i :: 0 <= i < |steps| ==> Up.Next(us[i], steps[i], us[i + 1])
  }

  /** Each stream is inserted once. */
  ghost predicate InsertsOnce(us: seq<Up.Sys>, steps: seq<Up.Step>)
    requires |us| == |steps| + 1
  {
    forall i :: 0 <= i < |steps| && steps[i].Insert? ==> steps[i].sid !in us[i].usable
  }

  /** A write under a scheme that has stopped padding. */
  function PlainAfter(w: SendState, f: Frame): SendState {
    if w.buffering then w.(buffer := w.buffer + Encode(f))
    else SendState(false, [], false, if w.sendPadding then NextPkt(w.pktCounter) else w.pktCounter,
                   w.records + [w.buffer + Encode(f)], false)
  }

  function PlainDraw(w: SendState, f: Frame): Up.Draw {
    Up.Draw(0, [], PlainAfter(w, f))
  }

  lemma PlainIsAllowed(s: Up.Sys, f: Frame)
    requires !s.w.broken
    ensures Up.Allowed(s.w, f, PlainDraw(s.w, f)) && Up.Extra(s.w, f, PlainDraw(s.w, f)) == []
  {}

  lemma ThreeFrames(a: Frame, b: Frame, c: Frame)
    requires a.cmd == CMD_SETTINGS && b.cmd == c.cmd == CMD_SYN
    ensures Announced([a]) == {} && Announced([a, b]) == {b.sid} && Announced([a, b, c]) == {b.sid, c.sid}
  {
    assert [a][..0] == [] && [a, b][..1] == [a] && [a, b, c][..2] == [a, b];
  }

  /** The client starts, opens a first stream, and announces a second, which flushes its buffer. */
  lemma AnnouncesTwo(u0: Up.Sys, settings: bytes) returns (us: seq<Up.Sys>, steps: seq<Up.Step>)
    requires Up.Init(u0) && 0 < |settings| <= 0xffff
    ensures UpGoes(us, steps) && us[0] == u0 && InsertsOnce(us, steps)
    ensures var u := us[|steps|];
            var frames := [Frame(CMD_SETTINGS, 0, settings), Frame(CMD_SYN, 1, []), Frame(CMD_SYN, 2, [])];
            && !u.w.broken && u.sent == frames && u.got == [] && u.server == u0.server && u.usable == {1}
            && Announced(frames) == {1, 2}
  {
    var f0, f1, f2 := Frame(CMD_SETTINGS, 0, settings), Frame(CMD_SYN, 1, []), Frame(CMD_SYN, 2, []);
    ThreeFrames(f0, f1, f2);
    hide Announced, Encode, Up.Allowed;
    var r := u0.(w := u0.w.(buffering := true), ran := true);
    PlainIsAllowed(r, f0);
    var u1 := Up.Submit(r, f0, PlainDraw(r.w, f0));
    var u2 := u1.(lastId := 1);
    PlainIsAllowed(u2, f1);
    var u3 := Up.Submit(u2, f1, PlainDraw(u2.w, f1));
    assert u1.submitted == [f0] == u1.pending && u3.submitted == [f0, f1] == u3.pending;
    var u4 := u3.(w := u3.w.(buffering := false));
    var u5 := u4.(usable := u4.usable + {1});
    var u6 := u5.(lastId := 2);
    PlainIsAllowed(u6, f2);
    var u7 := Up.Submit(u6, f2, PlainDraw(u6.w, f2));
    assert u7.sent == [] + ([f0, f1] + [f2] + []) == [f0, f1, f2];
    us := [u0, u1, u2, u3, u4, u5, u6, u7];
    steps := [Up.Run(settings, PlainDraw(r.w, f0)), Up.Allocate, Up.Announce(1, PlainDraw(u2.w, f1)), Up.Unbuffer,
              Up.Insert(1), Up.Allocate, Up.Announce(2, PlainDraw(u6.w, f2))];
  }

  /** On an unbroken wire the server can read the next frame sent. */
  lemma ReadsNext(u: Up.Sys, env: Env, md5: Digest) returns (u': Up.Sys)
    requires Up.Inv(u) && !u.w.broken && !u.server.ended && |u.got| < |u.sent|
    ensures Up.Next(u, Up.Receive(env, md5), u') && Up.Inv(u')
    ensures var f := u.sent[|u.got|];
            u' == u.(server := Handle(u.server, f, env, md5), got := u.got + [f], at := u'.at)
  {
    hide Up.OrderInv, Up.FirstInv, Delivery.Tracks, Delivery.Greeted, Handle;
    var m := |u.got|;
    var f, rest := u.sent[m], EncodeAll(u.sent[m + 1..]);
    assert u.sent == u.got + u.sent[m..];
    EncodeAllAppend(u.got, u.sent[m..]);
    assert u.sent[m..][1..] == u.sent[m + 1..];
    assert u.w.Wire()[u.at..] == Encode(f) + rest;
    ParseEncode(f, rest);
    u' := Up.Advance(u, f, |Encode(f)|, Handle(u.server, f, env, md5));
    Up.StepKeepsInv(u, Up.Receive(env, md5), u');
  }

  /** Neither the settings nor a SYN that follows them end the server's loop. */
  lemma ServerGoesOn(server: RecvState, f: Frame, env: Env, md5: Digest)
    requires !server.ended && env.writes >= 2
    requires f.cmd == CMD_SETTINGS || (f.cmd == CMD_SYN && server.gotSettings)
    ensures !Handle(server, f, env, md5).ended
  {
    hide StringMap.Parsed, StringMap.Atoi, StringMap.Ascii, Lookup;
  }

  lemma SettingsKnown(u: Up.Sys)
    requires Up.Inv(u) && u.got != []
    ensures u.server.gotSettings
  {}

  /** The server reads the three frames, the last of which makes it know stream 2. */
  lemma ServerLearns(u: Up.Sys, env: Env, md5: Digest) returns (us: seq<Up.Sys>, steps: seq<Up.Step>)
    requires Up.Inv(u) && !u.w.broken && !u.server.ended && env.writes >= 2
    requires |u.sent| == 3 && u.got == []
    requires u.sent[0].cmd == CMD_SETTINGS && u.sent[1].cmd == u.sent[2].cmd == CMD_SYN
    ensures UpGoes(us, steps) && us[0] == u && (forall i :: 0 <= i < |steps| ==> !steps[i].Insert?)
    ensures us[|steps|].got == u.sent && us[|steps|].usable == u.usable
  {
    hide Handle, Up.Next, Up.Inv;
    ServerGoesOn(u.server, u.sent[0], env, md5);
    var u1 := ReadsNext(u, env, md5);
    SettingsKnown(u1);
    ServerGoesOn(u1.server, u.sent[1], env, md5);
    var u2 := ReadsNext(u1, env, md5);
    SettingsKnown(u2);
    ServerGoesOn(u2.server, u.sent[2], env, md5);
    var u3 := ReadsNext(u2, env, md5);
    assert u3.got == [u.sent[0]] + [u.sent[1]] + [u.sent[2]] == u.sent;
    us, steps := [u, u1, u2, u3], [Up.Receive(env, md5), Up.Receive(env, md5), Up.Receive(env, md5)];
  }

  /** A run of the client's direction is a run of both, with nothing written by the server. */
  lemma {:induction false} Lift(s: Both.Sys, us: seq<Up.Sys>, ups: seq<Up.Step>)
    returns (run: seq<Both.Sys>, steps: seq<Both.Step>)
    requires UpGoes(us, ups) && InsertsOnce(us, ups) && us[0] == s.up
    ensures Both.Goes(run, steps) && run[0] == s
    ensures forall i :: 0 <= i < |steps| ==> steps[i].Uplink?
    ensures run[|steps|] == s.(up := us[|ups|], client := s.client.(streams := run[|steps|].client.streams))
    decreases |ups|
  {
    hide Up.Next;
    if ups == [] {
      run, steps := [s], [];
    } else {
      var u := ups[0];
      var s1 := s.(up := us[1],
                   client := if u.Insert? then s.client.(streams := s.client.streams[u.sid := true]) else s.client);
      assert Up.Next(us[0], ups[0], us[1]);
      assert Both.Next(s, Both.Uplink(u), s1);
      hide Both.Next;
      var run1, steps1 := Lift(s1, us[1..], ups[1..]);
      run, steps := [s] + run1, [Both.Uplink(u)] + steps1;
      Extend([s, s1], [Both.Uplink(u)], run1, steps1);
      assert [s, s1] + run1[1..] == run;
    }
  }

  /** From every fresh session, whatever its settings: a run in which the server writes `data` on a
      stream the client is just opening, and the client gets later bytes without them. */
  lemma EagerServerLosesBytes(start: Both.Sys, settings: bytes, data: bytes, env: Env, md5: Digest)
    returns (run: seq<Both.Sys>, steps: seq<Both.Step>)
    requires Both.Init(start) && 0 < |settings| <= 0xffff && 0 < |data| <= 0xffff
    requires env.writes >= 2 && env.taken >= |data|
    ensures Both.IsRun(run, steps) && run[0] == start
    ensures !(run[|steps|].client.Handed(2) <= run[|steps|].Written(2))
  {
    hide Both.Next, Up.Next, Up.Inv, Announced;
    var us, ups := AnnouncesTwo(start.up, settings);
    Both.FreshInv(start, 2);
    UpKeepsInv(us, ups);
    var vs, vps := ServerLearns(us[|ups|], env, md5);
    var run1, steps1 := Lift(start, us, ups);
    var run2, steps2 := Lift(run1[|steps1|], vs, vps);
    Extend(run1, steps1, run2, steps2);
    run, steps := run1 + run2[1..], steps1 + steps2;
    assert run[0] == start;
    run, steps := WritingTooSoonCanLoseBytes(run, steps, 2, data, env, md5);
  }

  lemma {:induction false} UpKeepsInv(us: seq<Up.Sys>, steps: seq<Up.Step>)
    requires UpGoes(us, steps) && Up.Inv(us[0])
    ensures Up.Inv(us[|steps|])
    decreases |steps|
  {
    hide Up.Next, Up.Inv;
    if steps != [] {
      var n := |steps| - 1;
      UpKeepsInv(us[..n + 1], steps[..n]);
      Up.StepKeepsInv(us[n], steps[n], us[n + 1]);
    }
  }
}
