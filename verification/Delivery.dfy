/** What a session that has handled some frames has handed to its streams, and that a server whose
    client sends its settings first never alerts. */
module Delivery {
  import opened Bytes
  import opened Frames
  import opened Padding
  import opened Receiver
  import opened Traces
  import StringMap

  /** The stream is in the map and its pipe takes data. */
  predicate Open(st: RecvState, sid: u32) {
    sid in st.streams && st.streams[sid]
  }

  /** A server that has handled the frames `got` has handed every stream a prefix of its payload,
      and all of it while the stream's pipe is open. */
  ghost predicate Tracks(server: RecvState, got: seq<Frame>) {
    && (forall sid :: server.Handed(sid) <= Payload(got, sid))
    && (forall sid :: Open(server, sid) ==> server.Handed(sid) == Payload(got, sid))
    && (forall sid :: sid !in Announced(got) ==> sid !in server.streams && server.Handed(sid) == [])
  }

  predicate NoAlerts(out: seq<Frame>) {
    forall i :: 0 <= i < |out| ==> out[i].cmd != CMD_ALERT
  }

  /** The server has the client's settings before anything else, so it never raises an alert. */
  ghost predicate Greeted(server: RecvState, got: seq<Frame>) {
    && !server.isClient
    && (got != [] ==> server.gotSettings)
    && NoAlerts(server.out)
  }

  /** What a push does to one stream: nothing, or its pipe takes some of the data, and stays open
      only if it takes all. */
  lemma PushHands(st: RecvState, f: Frame, env: Env, sid: u32)
    ensures var st' := HandlePush(st, f, env);
            && st'.streams.Keys == st.streams.Keys
            && (st'.Handed(sid) == st.Handed(sid)
                || (sid == f.sid && Open(st, sid) && st.Handed(sid) <= st'.Handed(sid) <= st.Handed(sid) + f.data))
            && (Open(st', sid) ==>
                  Open(st, sid) && st'.Handed(sid) == st.Handed(sid) + if sid == f.sid then f.data else [])
  {
    var st' := HandlePush(st, f, env);
    assert st.Handed(sid) + [] == st.Handed(sid);
    assert f.data[..|f.data|] == f.data;
  }

  lemma PushTracks(server: RecvState, got: seq<Frame>, f: Frame, env: Env)
    requires Tracks(server, got) && f.cmd == CMD_PSH
    ensures Tracks(HandlePush(server, f, env), got + [f])
  {
    hide Payload, Announced, HandlePush;
    Snoc(got, f);
    var server' := HandlePush(server, f, env);
    forall sid ensures server'.Handed(sid) <= Payload(got + [f], sid)
                       && (Open(server', sid) ==> server'.Handed(sid) == Payload(got + [f], sid))
                       && (sid !in Announced(got) ==> sid !in server'.streams && server'.Handed(sid) == [])
    {
      PushHands(server, f, env, sid);
      assert server.Handed(sid) <= Payload(got, sid);
    }
  }

  /** A stream is announced once, so the stream a SYN creates starts with no payload behind it. */
  lemma SynTracks(server: RecvState, got: seq<Frame>, f: Frame, env: Env)
    requires Tracks(server, got) && f.cmd == CMD_SYN && Orderly(got + [f])
    ensures Tracks(HandleSyn(server, f, env), got + [f])
  {
    hide Payload, Announced, Orderly, StringMap.Ascii;
    Snoc(got, f);
    NoPayloadBeforeAnnounced(got, f.sid);
  }

  /** Streams only left the map, or had their pipe closed, and nothing was handed over. */
  ghost predicate Shrinks(server: RecvState, server': RecvState) {
    && server'.handed == server.handed
    && server'.streams.Keys <= server.streams.Keys
    && (forall sid :: sid in server'.streams && server'.streams[sid] ==> server.streams[sid])
  }

  lemma ShrinkTracks(server: RecvState, got: seq<Frame>, server': RecvState)
    requires Tracks(server, got) && Shrinks(server, server')
    ensures Tracks(server', got)
  {
    assert forall sid :: server'.Handed(sid) == server.Handed(sid);
  }

  lemma SettingsShrink(server: RecvState, f: Frame, env: Env)
    ensures Shrinks(server, HandleSettings(server, f, env))
  {
    hide StringMap.Parsed, StringMap.Atoi, StringMap.Ascii, Lookup;
  }

  lemma OthersShrink(server: RecvState, f: Frame, env: Env, md5: Digest)
    requires f.cmd != CMD_PSH && f.cmd != CMD_SYN
    ensures Shrinks(server, Handle(server, f, env, md5))
  {
    hide HandleSettings, StringMap.Parsed, StringMap.Atoi, Lookup, NewFactory;
    if f.cmd == CMD_SETTINGS { SettingsShrink(server, f, env); }
  }

  lemma OthersTrack(server: RecvState, got: seq<Frame>, f: Frame)
    requires Tracks(server, got) && f.cmd != CMD_PSH && f.cmd != CMD_SYN
    ensures Tracks(server, got + [f])
  {
    Snoc(got, f);
  }

  /** Handling the next orderly frame keeps every stream's bytes a prefix of its payload. */
  lemma HandleTracks(server: RecvState, got: seq<Frame>, f: Frame, env: Env, md5: Digest)
    requires Tracks(server, got) && Orderly(got + [f])
    ensures Tracks(Handle(server, f, env, md5), got + [f])
  {
    hide Tracks, Orderly, HandlePush, HandleSyn, HandleSynAck, HandleFin, HandleSettings, HandleAlert,
         HandleUpdatePadding, HandleServerSettings;
    if f.cmd == CMD_PSH { PushTracks(server, got, f, env); }
    else if f.cmd == CMD_SYN { SynTracks(server, got, f, env); }
    else {
      OthersTrack(server, got, f);
      OthersShrink(server, f, env, md5);
      ShrinkTracks(server, got + [f], Handle(server, f, env, md5));
    }
  }

  lemma SendAlertFree(st: RecvState, f: Frame, ok: bool)
    requires NoAlerts(st.out) && f.cmd != CMD_ALERT
    ensures var st' := Send(st, f, ok);
            NoAlerts(st'.out) && st'.gotSettings == st.gotSettings && st'.isClient == st.isClient
  {}

  lemma SettingsGreet(server: RecvState, f: Frame, env: Env)
    requires !server.isClient && NoAlerts(server.out)
    ensures var server' := HandleSettings(server, f, env);
            && !server'.isClient && NoAlerts(server'.out)
            && server'.gotSettings == (server.gotSettings || f.data != [])
  {
    hide StringMap.Parsed, StringMap.Atoi, StringMap.Ascii, Lookup, NoAlerts, Send;
    if f.data != [] {
      var st1 := server.(gotSettings := true);
      var differs := Lookup(StringMap.Parsed(f.data), "padding-md5") != server.scheme.md5;
      SendAlertFree(st1, Frame(CMD_UPDATE_PADDING, 0, server.scheme.rawScheme), env.writes > 0);
      var st2 := if differs then Send(st1, Frame(CMD_UPDATE_PADDING, 0, server.scheme.rawScheme), env.writes > 0) else st1;
      match StringMap.Atoi(Lookup(StringMap.Parsed(f.data), "v"))
      case Some(v) =>
        SendAlertFree(st2.(peerVersion := v % 256), Frame(CMD_SERVER_SETTINGS, 0, StringMap.Ascii("v=2")),
                      env.writes > if differs then 1 else 0);
      case None =>
    }
  }

  lemma OthersGreet(server: RecvState, f: Frame, env: Env, md5: Digest)
    requires !server.isClient && server.gotSettings && NoAlerts(server.out) && f.cmd != CMD_SETTINGS
    ensures var server' := Handle(server, f, env, md5);
            !server'.isClient && server'.gotSettings && NoAlerts(server'.out)
  {
    hide StringMap.Parsed, StringMap.Atoi, StringMap.Ascii, Lookup, NewFactory, HandleSettings;
  }

  lemma HandleGreeted(server: RecvState, got: seq<Frame>, f: Frame, env: Env, md5: Digest)
    requires Greeted(server, got)
    requires got == [] ==> f.cmd == CMD_SETTINGS && f.data != []
    ensures Greeted(Handle(server, f, env, md5), got + [f])
  {
    assert NoAlerts(server.out);
    if f.cmd == CMD_SETTINGS {
      hide HandleSettings;
      SettingsGreet(server, f, env);
    } else {
      hide Handle;
      OthersGreet(server, f, env, md5);
    }
  }

  /** The data of the next frame to handle, if it is a push whose stream has an open pipe. */
  function Pending(wire: bytes, at: nat, st: RecvState, sid: u32): Option<bytes> {
    if at > |wire| then None
    else
      match Parse(wire[at..])
      case More => None
      case Got(f, _) =>
        if f.cmd == CMD_PSH && f.sid == sid && f.data != [] && Open(st, sid) then Some(f.data) else None
  }

  lemma OtherFrames(st: RecvState, f: Frame, env: Env, md5: Digest, sid: u32)
    requires !(f.cmd == CMD_PSH && f.sid == sid && f.data != [] && Open(st, sid))
    ensures Handle(st, f, env, md5).Handed(sid) == st.Handed(sid)
  {
    if f.cmd == CMD_PSH {
      PushHands(st, f, env, sid);
    } else if f.cmd == CMD_SYN {
      hide StringMap.Ascii;
    } else {
      OthersShrink(st, f, env, md5);
      hide Handle;
    }
  }

  lemma PushIsHanded(st: RecvState, f: Frame, env: Env, sid: u32)
    requires f.cmd == CMD_PSH && f.sid == sid && f.data != [] && Open(st, sid)
    ensures HandlePush(st, f, env).Handed(sid)
         == st.Handed(sid) + f.data[..if env.taken < |f.data| then env.taken else |f.data|]
  {}

  /** Handling a frame hands the stream what its pipe took of the pending push, and nothing when
      none is pending. */
  lemma PendingHands(wire: bytes, at: nat, st: RecvState, env: Env, md5: Digest, sid: u32)
    requires at <= |wire| && Parse(wire[at..]).Got?
    ensures var f, pending := Parse(wire[at..]).frame, Pending(wire, at, st, sid);
            && (pending.None? ==> Handle(st, f, env, md5).Handed(sid) == st.Handed(sid))
            && (pending.Some? ==>
                  && f.cmd == CMD_PSH && f.sid == sid && f.data == pending.value && Open(st, sid)
                  && Handle(st, f, env, md5).Handed(sid)
                     == st.Handed(sid) + f.data[..if env.taken < |f.data| then env.taken else |f.data|])
  {
    var f := Parse(wire[at..]).frame;
    hide HandlePush, HandleSyn, HandleSynAck, HandleFin, HandleSettings, HandleAlert, HandleUpdatePadding,
         HandleServerSettings;
    if Pending(wire, at, st, sid).Some? {
      PushIsHanded(st, f, env, sid);
    } else {
      OtherFrames(st, f, env, md5, sid);
    }
  }
}
