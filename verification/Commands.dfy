/** What the commands of the protocol do to a session, said field by field and over whole loops instead
    of branch by branch: which frames open, close and end things, what is answered, and what is adopted. */
module Commands {
  import opened Bytes
  import opened Frames
  import opened Padding
  import opened Receiver
  import Delivery
  import StringMap

  /** A server does not accept a stream before the settings. */
  predicate Refused(st: RecvState, f: Frame) {
    f.cmd == CMD_SYN && !st.isClient && !st.gotSettings
  }

  predicate Opens(st: RecvState, f: Frame, sid: u32) {
    f.cmd == CMD_SYN && f.sid == sid && !Refused(st, f) && sid !in st.streams
  }

  /** A FIN, or an acknowledgement that carries an error, for a stream that is still open. */
  predicate Removes(st: RecvState, f: Frame, sid: u32) {
    f.sid == sid && (f.cmd == CMD_FIN || (f.cmd == CMD_SYNACK && f.data != [] && Delivery.Open(st, sid)))
  }

  /** A push the stream's pipe did not take in full. */
  predicate Shuts(f: Frame, env: Env, sid: u32) {
    f.cmd == CMD_PSH && f.sid == sid && env.taken < |f.data|
  }

  /** The state `st'` has the streams it should have after frame `f`. */
  predicate StreamsFollow(st: RecvState, f: Frame, env: Env, st': RecvState, sid: u32) {
    && (sid in st'.streams <==> Opens(st, f, sid) || (sid in st.streams && !Removes(st, f, sid)))
    && (Delivery.Open(st', sid) <==>
          Opens(st, f, sid) || (Delivery.Open(st, sid) && !Removes(st, f, sid) && !Shuts(f, env, sid)))
  }

  lemma StreamCommands(st: RecvState, f: Frame, env: Env, sid: u32)
    ensures f.cmd == CMD_PSH ==> StreamsFollow(st, f, env, HandlePush(st, f, env), sid)
    ensures f.cmd == CMD_SYN ==> StreamsFollow(st, f, env, HandleSyn(st, f, env), sid)
    ensures f.cmd == CMD_FIN ==> StreamsFollow(st, f, env, HandleFin(st, f), sid)
  {
    hide StringMap.Ascii;
  }

  lemma AckCommand(st: RecvState, f: Frame, env: Env, sid: u32)
    requires f.cmd == CMD_SYNACK
    ensures StreamsFollow(st, f, env, HandleSynAck(st, f, env), sid)
  {}

  lemma OtherCommands(st: RecvState, f: Frame, env: Env, md5: Digest, sid: u32)
    requires f.cmd !in {CMD_PSH, CMD_SYN, CMD_FIN, CMD_SYNACK}
    ensures Handle(st, f, env, md5).streams == st.streams && Handle(st, f, env, md5).handed == st.handed
  {
    hide StringMap.Parsed, StringMap.Atoi, StringMap.Ascii, Lookup, NewFactory, HandleSettings;
    if f.cmd == CMD_SETTINGS { SettingsKeep(st, f, env); }
  }

  lemma SettingsKeep(st: RecvState, f: Frame, env: Env)
    ensures var st' := HandleSettings(st, f, env);
            && st'.streams == st.streams && st'.handed == st.handed && st'.isClient == st.isClient
            && st'.scheme == st.scheme && (st.ended ==> st'.ended)
            && (st'.gotSettings <==> st.gotSettings || (f.data != [] && !st.isClient))
  {
    hide StringMap.Parsed, StringMap.Atoi, StringMap.Ascii, Lookup;
  }

  /** What the commands about streams leave alone. */
  predicate SameSession(st: RecvState, st': RecvState) {
    && st'.isClient == st.isClient && (st.ended ==> st'.ended) && st'.gotSettings == st.gotSettings
    && st'.scheme == st.scheme && st'.peerVersion == st.peerVersion
  }

  lemma StreamCommandsKeep(st: RecvState, f: Frame, env: Env)
    ensures SameSession(st, HandlePush(st, f, env)) && SameSession(st, HandleSyn(st, f, env))
    ensures SameSession(st, HandleFin(st, f)) && SameSession(st, HandleSynAck(st, f, env))
  {
    hide StringMap.Ascii;
  }

  /** The streams after one frame: which are in the map, and which of them are open. */
  lemma StreamsAfter(st: RecvState, f: Frame, env: Env, md5: Digest, sid: u32)
    ensures StreamsFollow(st, f, env, Handle(st, f, env, md5), sid)
  {
    hide StreamsFollow, HandlePush, HandleSyn, HandleFin, HandleSynAck, HandleSettings, HandleAlert,
         HandleUpdatePadding, HandleServerSettings;
    if f.cmd in {CMD_PSH, CMD_SYN, CMD_FIN} {
      StreamCommands(st, f, env, sid);
    } else if f.cmd == CMD_SYNACK {
      AckCommand(st, f, env, sid);
    } else {
      OtherCommands(st, f, env, md5, sid);
      SameStreams(st, f, env, Handle(st, f, env, md5), sid);
    }
  }

  lemma SameStreams(st: RecvState, f: Frame, env: Env, st': RecvState, sid: u32)
    requires f.cmd !in {CMD_PSH, CMD_SYN, CMD_FIN, CMD_SYNACK} && st'.streams == st.streams
    ensures StreamsFollow(st, f, env, st', sid)
  {}

  /** A SYN a session accepts opens its stream, with nothing handed over and nothing else touched; a SYN
      for a stream that is there changes nothing. */
  lemma SynOpens(st: RecvState, f: Frame, env: Env, md5: Digest)
    requires f.cmd == CMD_SYN && !Refused(st, f)
    ensures var st' := Handle(st, f, env, md5);
            && f.sid in st'.streams && st'.handed == st.handed && st'.ended == st.ended && st'.out == st.out
            && (f.sid in st.streams ==> st' == st)
            && (f.sid !in st.streams ==>
                  Delivery.Open(st', f.sid) && st'.streams.Keys == st.streams.Keys + {f.sid}
                  && forall sid :: sid in st.streams ==> st'.streams[sid] == st.streams[sid])
  {}

  /** The loop's own frames in answer to one frame, if all of its writes succeed. */
  function Replies(st: RecvState, f: Frame): seq<Frame> {
    if Refused(st, f) then [Frame(CMD_ALERT, 0, StringMap.Ascii("client did not send its settings"))]
    else if f.cmd == CMD_HEART_REQUEST then [Frame(CMD_HEART_RESPONSE, f.sid, [])]
    else if f.cmd == CMD_SYNACK && Removes(st, f, f.sid) then [Frame(CMD_FIN, f.sid, [])]
    else if f.cmd == CMD_SETTINGS && f.data != [] && !st.isClient then
      (if Lookup(StringMap.Parsed(f.data), "padding-md5") != st.scheme.md5
       then [Frame(CMD_UPDATE_PADDING, 0, st.scheme.rawScheme)] else [])
      + (if Speaks(f, 2) then [Frame(CMD_SERVER_SETTINGS, 0, StringMap.Ascii("v=2"))] else [])
    else []
  }

  /** The settings in the frame name a version of at least `least`. */
  predicate Speaks(f: Frame, least: int) {
    var v := StringMap.Atoi(Lookup(StringMap.Parsed(f.data), "v"));
    v.Some? && v.value >= least
  }

  /** What is answered is the replies as far as the writes succeeded, and the loop ends exactly if a
      write failed, an alert came with a text, or a stream was refused. */
  lemma AnswersAndEnds(st: RecvState, f: Frame, env: Env, md5: Digest)
    ensures var (st', replies) := (Handle(st, f, env, md5), Replies(st, f));
            && (!st.ended ==> st'.out == st.out + if env.writes < |replies| then replies[..env.writes] else replies)
            && (st'.ended <==>
                  st.ended || env.writes < |replies| || (f.cmd == CMD_ALERT && f.data != []) || Refused(st, f))
  {
    hide StringMap.Parsed, StringMap.Atoi, StringMap.Ascii, Lookup, NewFactory;
    if f.cmd == CMD_SETTINGS {
      hide Handle;
      SettingsAnswer(st, f, env);
      HandlesSettings(st, f, env, md5);
    } else {
      hide HandleSettings;
    }
  }

  lemma HandlesSettings(st: RecvState, f: Frame, env: Env, md5: Digest)
    requires f.cmd == CMD_SETTINGS
    ensures Handle(st, f, env, md5) == HandleSettings(st, f, env)
  {}

  lemma SettingsAnswer(st: RecvState, f: Frame, env: Env)
    requires f.cmd == CMD_SETTINGS
    ensures var (st', replies) := (HandleSettings(st, f, env), Replies(st, f));
            && (!st.ended ==> st'.out == st.out + if env.writes < |replies| then replies[..env.writes] else replies)
            && (st'.ended <==> st.ended || env.writes < |replies|)
  {
    hide StringMap.Parsed, StringMap.Atoi, StringMap.Ascii, Lookup;
    var replies := Replies(st, f);
    if |replies| == 2 {
      assert replies == [replies[0]] + [replies[1]];
      Regroup(st.out, [replies[0]], [replies[1]]);
    }
    assert replies[..0] == [] && st.out + [] == st.out;
    if replies != [] { assert replies[..1] == [replies[0]]; }
  }

  /** The loop's state after `i` of its frames. */
  function At(st: RecvState, fs: seq<Frame>, envs: seq<Env>, md5: Digest, i: nat): RecvState
    requires |envs| == |fs| && i <= |fs|
  {
    HandleAll(st, fs[..i], envs[..i], md5)
  }

  lemma AtNext(st: RecvState, fs: seq<Frame>, envs: seq<Env>, md5: Digest, i: nat)
    requires |envs| == |fs| && i < |fs|
    ensures At(st, fs, envs, md5, 0) == st
    ensures At(st, fs, envs, md5, i + 1) == Handle(At(st, fs, envs, md5, i), fs[i], envs[i], md5)
  {
    hide Handle;
    assert fs[..i + 1][..i] == fs[..i] && envs[..i + 1][..i] == envs[..i];
  }

  /** What no frame changes. */
  lemma Keeps(st: RecvState, f: Frame, env: Env, md5: Digest)
    ensures var st' := Handle(st, f, env, md5);
            && st'.isClient == st.isClient && (st.ended ==> st'.ended)
            && (st'.gotSettings <==> st.gotSettings || (f.cmd == CMD_SETTINGS && f.data != [] && !st.isClient))
  {
    hide HandlePush, HandleSyn, HandleFin, HandleSynAck, HandleSettings, StringMap.Parsed, StringMap.Atoi,
         StringMap.Ascii, Lookup, NewFactory;
    StreamCommandsKeep(st, f, env);
    if f.cmd == CMD_SETTINGS { SettingsKeep(st, f, env); }
  }

  /** The ids of the heartbeat requests, or of the responses, among some frames. */
  function Beats(fs: seq<Frame>, cmd: byte): seq<u32> {
    if fs == [] then []
    else Beats(fs[..|fs| - 1], cmd) + if fs[|fs| - 1].cmd == cmd then [fs[|fs| - 1].sid] else []
  }

  lemma {:induction false} BeatsAppend(a: seq<Frame>, b: seq<Frame>, cmd: byte)
    ensures Beats(a + b, cmd) == Beats(a, cmd) + Beats(b, cmd)
  {
    if b == [] {
      assert a + b == a;
    } else {
      var n := |b| - 1;
      BeatsAppend(a, b[..n], cmd);
      assert (a + b)[..|a + b| - 1] == a + b[..n];
    }
  }

  lemma RepliesBeat(st: RecvState, f: Frame)
    ensures Beats(Replies(st, f), CMD_HEART_RESPONSE) == if f.cmd == CMD_HEART_REQUEST then [f.sid] else []
  {
    hide StringMap.Parsed, StringMap.Atoi, StringMap.Ascii, Lookup;
    var r := Replies(st, f);
    if |r| == 1 {
      BeatsOfOne(r[0]);
      assert r == [r[0]];
    } else if |r| == 2 {
      BeatsOfOne(r[0]);
      BeatsOfOne(r[1]);
      BeatsAppend([r[0]], [r[1]], CMD_HEART_RESPONSE);
      assert r == [r[0]] + [r[1]];
    }
  }

  lemma BeatsOfOne(f: Frame)
    ensures Beats([f], CMD_HEART_RESPONSE) == if f.cmd == CMD_HEART_RESPONSE then [f.sid] else []
  {
    assert [f][..0] == [];
  }

  lemma BeatsAfter(st: RecvState, f: Frame, env: Env, md5: Digest)
    requires !Handle(st, f, env, md5).ended
    ensures !st.ended
    ensures Beats(Handle(st, f, env, md5).out, CMD_HEART_RESPONSE)
         == Beats(st.out, CMD_HEART_RESPONSE) + if f.cmd == CMD_HEART_REQUEST then [f.sid] else []
  {
    hide Handle, Replies, Beats;
    Keeps(st, f, env, md5);
    AnswersAndEnds(st, f, env, md5);
    RepliesBeat(st, f);
    BeatsAppend(st.out, Replies(st, f), CMD_HEART_RESPONSE);
  }

  /** While the loop goes on, every heartbeat request it has handled has been answered, in order and
      under its own id, and nothing else has been. */
  lemma {:induction false} HeartbeatsAreAnswered(st: RecvState, fs: seq<Frame>, envs: seq<Env>, md5: Digest)
    requires |envs| == |fs| && !HandleAll(st, fs, envs, md5).ended
    ensures Beats(HandleAll(st, fs, envs, md5).out, CMD_HEART_RESPONSE)
         == Beats(st.out, CMD_HEART_RESPONSE) + Beats(fs, CMD_HEART_REQUEST)
  {
    hide Handle;
    if fs != [] {
      var n := |fs| - 1;
      var before := HandleAll(st, fs[..n], envs[..n], md5);
      BeatsAfter(before, fs[n], envs[n], md5);
      HeartbeatsAreAnswered(st, fs[..n], envs[..n], md5);
      Regroup(Beats(st.out, CMD_HEART_RESPONSE), Beats(fs[..n], CMD_HEART_REQUEST),
              if fs[n].cmd == CMD_HEART_REQUEST then [fs[n].sid] else []);
    } else {
      assert Beats(st.out, CMD_HEART_RESPONSE) + [] == Beats(st.out, CMD_HEART_RESPONSE);
    }
  }

  /** Frame `i` ends the loop. */
  predicate EndsAt(st: RecvState, f: Frame, env: Env) {
    env.writes < |Replies(st, f)| || (f.cmd == CMD_ALERT && f.data != []) || Refused(st, f)
  }

  /** The loop has ended exactly if one of its frames ended it. */
  lemma {:induction false} EndedIff(st: RecvState, fs: seq<Frame>, envs: seq<Env>, md5: Digest)
    requires |envs| == |fs|
    ensures HandleAll(st, fs, envs, md5).ended <==>
              st.ended || exists i :: 0 <= i < |fs| && EndsAt(At(st, fs, envs, md5, i), fs[i], envs[i])
  {
    hide Handle, EndsAt, HandleAll;
    EndedUpTo(st, fs, envs, md5, |fs|);
    assert fs[..|fs|] == fs && envs[..|fs|] == envs;
  }

  lemma EndsNow(st: RecvState, f: Frame, env: Env, md5: Digest)
    ensures Handle(st, f, env, md5).ended <==> st.ended || EndsAt(st, f, env)
  {
    hide Handle, Replies;
    AnswersAndEnds(st, f, env, md5);
  }

  lemma {:induction false} EndedUpTo(st: RecvState, fs: seq<Frame>, envs: seq<Env>, md5: Digest, n: nat)
    requires |envs| == |fs| && n <= |fs|
    ensures At(st, fs, envs, md5, n).ended <==>
              st.ended || exists i :: 0 <= i < n && EndsAt(At(st, fs, envs, md5, i), fs[i], envs[i])
  {
    hide Handle, EndsAt, At;
    if n == 0 {
      Nothing(st, fs, envs, md5);
    } else {
      EndedUpTo(st, fs, envs, md5, n - 1);
      AtNext(st, fs, envs, md5, n - 1);
      EndsNow(At(st, fs, envs, md5, n - 1), fs[n - 1], envs[n - 1], md5);
    }
  }

  lemma Nothing(st: RecvState, fs: seq<Frame>, envs: seq<Env>, md5: Digest)
    requires |envs| == |fs|
    ensures At(st, fs, envs, md5, 0) == st
  {}

  /** The scheme a frame makes a client adopt. */
  function Adopts(isClient: bool, f: Frame, md5: Digest): Option<Factory> {
    if isClient && f.cmd == CMD_UPDATE_PADDING && f.data != [] then NewFactory(f.data, md5) else None
  }

  /** The last scheme the frames make a client adopt; a server never adopts one. */
  function LastAdopted(isClient: bool, fs: seq<Frame>, md5: Digest): Option<Factory> {
    if fs == [] then None
    else if Adopts(isClient, fs[|fs| - 1], md5).Some? then Adopts(isClient, fs[|fs| - 1], md5)
    else LastAdopted(isClient, fs[..|fs| - 1], md5)
  }

  lemma SchemeAfter(st: RecvState, f: Frame, env: Env, md5: Digest)
    ensures Handle(st, f, env, md5).scheme == Adopts(st.isClient, f, md5).GetOr(st.scheme)
  {
    hide HandlePush, HandleSyn, HandleFin, HandleSynAck, HandleSettings, StringMap.Parsed, StringMap.Atoi,
         StringMap.Ascii, Lookup, NewFactory;
    StreamCommandsKeep(st, f, env);
    if f.cmd == CMD_SETTINGS { SettingsKeep(st, f, env); }
  }

  lemma {:induction false} SchemeIsLastAdopted(st: RecvState, fs: seq<Frame>, envs: seq<Env>, md5: Digest)
    requires |envs| == |fs|
    ensures var st' := HandleAll(st, fs, envs, md5);
            st'.isClient == st.isClient && st'.scheme == LastAdopted(st.isClient, fs, md5).GetOr(st.scheme)
  {
    hide Handle, Adopts;
    if fs != [] {
      var n := |fs| - 1;
      SchemeIsLastAdopted(st, fs[..n], envs[..n], md5);
      SchemeAfter(HandleAll(st, fs[..n], envs[..n], md5), fs[n], envs[n], md5);
      Keeps(HandleAll(st, fs[..n], envs[..n], md5), fs[n], envs[n], md5);
    }
  }

  /** The settings have been received exactly if a frame of settings with a text was. */
  lemma {:induction false} SettingsReceivedIff(st: RecvState, fs: seq<Frame>, envs: seq<Env>, md5: Digest)
    requires |envs| == |fs| && !st.isClient
    ensures var st' := HandleAll(st, fs, envs, md5);
            && !st'.isClient
            && (st'.gotSettings <==>
                  st.gotSettings || exists i :: 0 <= i < |fs| && fs[i].cmd == CMD_SETTINGS && fs[i].data != [])
  {
    hide Handle;
    if fs != [] {
      var n := |fs| - 1;
      SettingsReceivedIff(st, fs[..n], envs[..n], md5);
      Keeps(HandleAll(st, fs[..n], envs[..n], md5), fs[n], envs[n], md5);
    }
  }

  /** The version a frame announces to a session that went on after it: a client takes any number the
      server's settings give, a server one of at least two. */
  predicate Announces(isClient: bool, f: Frame) {
    && f.cmd == (if isClient then CMD_SERVER_SETTINGS else CMD_SETTINGS) && f.data != []
    && Speaks(f, if isClient then -StringMap.INT64_LIMIT else 2)
  }

  function VersionOf(f: Frame): byte
    requires Announces(true, f) || Announces(false, f)
  {
    StringMap.Atoi(Lookup(StringMap.Parsed(f.data), "v")).value % 256
  }

  lemma VersionAfter(st: RecvState, f: Frame, env: Env, md5: Digest)
    requires !Handle(st, f, env, md5).ended
    ensures Handle(st, f, env, md5).peerVersion
         == if Announces(st.isClient, f) then VersionOf(f) else st.peerVersion
  {
    hide HandlePush, HandleSyn, HandleFin, HandleSynAck, StringMap.Parsed, StringMap.Atoi, StringMap.Ascii,
         Lookup, NewFactory;
    StreamCommandsKeep(st, f, env);
  }

  /** Frame `i` is the last to announce a version. */
  predicate LastAnnounces(isClient: bool, fs: seq<Frame>, i: nat) {
    i < |fs| && Announces(isClient, fs[i]) && forall j :: i < j < |fs| ==> !Announces(isClient, fs[j])
  }

  /** While the loop goes on, the peer's version is the last one announced, cut to a byte. */
  lemma {:induction false} VersionIsLastAnnounced(st: RecvState, fs: seq<Frame>, envs: seq<Env>, md5: Digest)
    requires |envs| == |fs| && !HandleAll(st, fs, envs, md5).ended
    ensures HandleAll(st, fs, envs, md5).isClient == st.isClient
    ensures forall i: nat :: LastAnnounces(st.isClient, fs, i) ==>
              HandleAll(st, fs, envs, md5).peerVersion == VersionOf(fs[i])
    ensures (forall i :: 0 <= i < |fs| ==> !Announces(st.isClient, fs[i])) ==>
              HandleAll(st, fs, envs, md5).peerVersion == st.peerVersion
  {
    hide Handle, Announces, VersionOf;
    if fs != [] {
      var n := |fs| - 1;
      var before := HandleAll(st, fs[..n], envs[..n], md5);
      Keeps(before, fs[n], envs[n], md5);
      VersionIsLastAnnounced(st, fs[..n], envs[..n], md5);
      VersionAfter(before, fs[n], envs[n], md5);
      forall i: nat | LastAnnounces(st.isClient, fs, i) && i < n
        ensures LastAnnounces(st.isClient, fs[..n], i) && fs[..n][i] == fs[i]
      {}
    }
  }
}
