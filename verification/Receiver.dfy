/** The receive loop of a session: reads a header, reads data if the command carries any, and
    dispatches. The same loop runs on the client and on the server. */
module Receiver {
  import opened Bytes
  import opened Frames
  import opened Padding
  import StringMap

  /** What the loop reads and changes. `streams` is the session's stream map; a stream in it is
      mapped to whether its pipe is still open. `handed` records, for each stream id, the bytes
      its pipe has taken. `out` records the frames the loop has written. */
  datatype RecvState = RecvState(
    isClient: bool,
    streams: map<u32, bool>,
    handed: map<u32, bytes>,
    gotSettings: bool,
    peerVersion: byte,
    scheme: Factory,
    out: seq<Frame>,
    ended: bool)
  {
    function Handed(sid: u32): bytes {
      if sid in handed then handed[sid] else []
    }
  }

  /** What the surroundings decide during one frame: how many bytes of a push the pipe takes
      before its reader closes it, and how many of the loop's own writes succeed. */
  datatype Env = Env(taken: nat, writes: nat)

  function Lookup(m: StringMap.StringMap, key: string): bytes {
    if StringMap.Ascii(key) in m then m[StringMap.Ascii(key)] else []
  }

  /** Writes `f`; an error ends the loop. */
  function Send(st: RecvState, f: Frame, ok: bool): RecvState {
    if ok then st.(out := st.out + [f]) else st.(ended := true)
  }

  function HandlePush(st: RecvState, f: Frame, env: Env): RecvState {
    if f.data != [] && f.sid in st.streams && st.streams[f.sid] then
      var taken := if env.taken < |f.data| then env.taken else |f.data|;
      st.(handed := st.handed[f.sid := st.Handed(f.sid) + f.data[..taken]],
          streams := st.streams[f.sid := taken == |f.data|])
    else st
  }

  function HandleSyn(st: RecvState, f: Frame, env: Env): RecvState {
    if !st.isClient && !st.gotSettings then
      Send(st, Frame(CMD_ALERT, 0, StringMap.Ascii("client did not send its settings")), env.writes > 0).(ended := true)
    else if f.sid !in st.streams then st.(streams := st.streams[f.sid := true])
    else st
  }

  /** An error acknowledgement closes its stream and tells the peer. */
  function HandleSynAck(st: RecvState, f: Frame, env: Env): RecvState {
    if f.data != [] && f.sid in st.streams && st.streams[f.sid] then
      Send(st, Frame(CMD_FIN, f.sid, []), env.writes > 0).(streams := st.streams - {f.sid})
    else st
  }

  function HandleFin(st: RecvState, f: Frame): RecvState {
    st.(streams := st.streams - {f.sid})
  }

  /** The server's answer to the client's settings: its own scheme unless the digests agree, and
      its settings to a client of version 2 or later. */
  function HandleSettings(st: RecvState, f: Frame, env: Env): RecvState {
    if f.data == [] || st.isClient then st
    else
      var m := StringMap.Parsed(f.data);
      var st1 := st.(gotSettings := true);
      var differs := Lookup(m, "padding-md5") != st.scheme.md5;
      var st2 := if differs then Send(st1, Frame(CMD_UPDATE_PADDING, 0, st.scheme.rawScheme), env.writes > 0) else st1;
      if st2.ended then st2
      else
        match StringMap.Atoi(Lookup(m, "v"))
        case Some(v) =>
          if v >= 2 then
            Send(st2.(peerVersion := v % 256), Frame(CMD_SERVER_SETTINGS, 0, StringMap.Ascii("v=2")),
                 env.writes > if differs then 1 else 0)
          else st2
        case None => st2
  }

  function HandleAlert(st: RecvState, f: Frame): RecvState {
    if f.data != [] then st.(ended := true) else st
  }

  function HandleUpdatePadding(st: RecvState, f: Frame, md5: Digest): RecvState {
    if f.data != [] && st.isClient then st.(scheme := NewFactory(f.data, md5).GetOr(st.scheme)) else st
  }

  function HandleServerSettings(st: RecvState, f: Frame): RecvState {
    if f.data != [] && st.isClient then
      match StringMap.Atoi(Lookup(StringMap.Parsed(f.data), "v"))
      case Some(v) => st.(peerVersion := v % 256)
      case None => st
    else st
  }

  function Handle(st: RecvState, f: Frame, env: Env, md5: Digest): RecvState {
    if f.cmd == CMD_PSH then HandlePush(st, f, env)
    else if f.cmd == CMD_SYN then HandleSyn(st, f, env)
    else if f.cmd == CMD_SYNACK then HandleSynAck(st, f, env)
    else if f.cmd == CMD_FIN then HandleFin(st, f)
    else if f.cmd == CMD_SETTINGS then HandleSettings(st, f, env)
    else if f.cmd == CMD_ALERT then HandleAlert(st, f)
    else if f.cmd == CMD_UPDATE_PADDING then HandleUpdatePadding(st, f, md5)
    else if f.cmd == CMD_HEART_REQUEST then Send(st, Frame(CMD_HEART_RESPONSE, f.sid, []), env.writes > 0)
    else if f.cmd == CMD_SERVER_SETTINGS then HandleServerSettings(st, f)
    else st
  }

  /** The loop over a list of frames, stopping where it returns. */
  function HandleAll(st: RecvState, fs: seq<Frame>, envs: seq<Env>, md5: Digest): RecvState
    requires |envs| == |fs|
  {
    if fs == [] then st
    else
      var n := |fs| - 1;
      Handle(HandleAll(st, fs[..n], envs[..n], md5), fs[n], envs[n], md5)
  }

  class Session {
    const isClient: bool
    const md5: Digest
    var streams: map<u32, bool>
    var handed: map<u32, bytes>
    var receivedSettings: bool
    var peerVersion: byte
    var scheme: Factory
    var out: seq<Frame>
    var ended: bool
    var closed: bool

    ghost function State(): RecvState
      reads this
    {
      RecvState(isClient, streams, handed, receivedSettings, peerVersion, scheme, out, ended)
    }

    constructor (isClient: bool, scheme: Factory, md5: Digest)
      ensures this.isClient == isClient && this.md5 == md5 && !closed
      ensures State() == RecvState(isClient, map[], map[], false, 0, scheme, [], false)
    {
      this.isClient, this.md5 := isClient, md5;
      streams, handed, receivedSettings, peerVersion := map[], map[], false, 0;
      this.scheme, out, ended, closed := scheme, [], false, false;
    }

    /** Writes one frame; whether the connection takes it is not this loop's choice. */
    method WriteControlFrame(f: Frame) returns (ok: bool)
      requires !ended
      modifies this`out, this`ended
      ensures State() == Send(old(State()), f, ok)
    {
      ok := *;
      if ok { out := out + [f]; } else { ended := true; }
    }

    method OnPush(f: Frame) returns (ghost env: Env)
      modifies this`streams, this`handed
      ensures State() == HandlePush(old(State()), f, env)
    {
      env := Env(0, 0);
      if |f.data| > 0 && f.sid in streams && streams[f.sid] {
        var taken: nat :| taken <= |f.data| by { assert 0 <= |f.data|; }
        var before := if f.sid in handed then handed[f.sid] else [];
        handed := handed[f.sid := before + f.data[..taken]];
        streams := streams[f.sid := taken == |f.data|];
        env := Env(taken, 0);
      }
    }

    method OnSyn(f: Frame) returns (ghost env: Env)
      requires !ended
      modifies this`streams, this`out, this`ended
      ensures State() == HandleSyn(old(State()), f, env)
    {
      env := Env(0, 0);
      if !isClient && !receivedSettings {
        var ok := WriteControlFrame(Frame(CMD_ALERT, 0, StringMap.Ascii("client did not send its settings")));
        ended := true;
        env := Env(0, if ok then 1 else 0);
      } else if f.sid !in streams {
        streams := streams[f.sid := true];
      }
    }

    method OnSynAck(f: Frame) returns (ghost env: Env)
      requires !ended
      modifies this`streams, this`out, this`ended
      ensures State() == HandleSynAck(old(State()), f, env)
    {
      env := Env(0, 0);
      if |f.data| > 0 && f.sid in streams && streams[f.sid] {
        var ok := WriteControlFrame(Frame(CMD_FIN, f.sid, []));
        streams := streams - {f.sid};
        env := Env(0, if ok then 1 else 0);
      }
    }

    method OnSettings(f: Frame) returns (ghost env: Env)
      requires !ended
      modifies this`receivedSettings, this`peerVersion, this`out, this`ended
      ensures State() == HandleSettings(old(State()), f, env)
    {
      env := Env(0, 0);
      if |f.data| > 0 && !isClient {
        receivedSettings := true;
        var m := StringMap.FromBytes(f.data);
        var differs := Lookup(m, "padding-md5") != scheme.md5;
        if differs {
          var ok := WriteControlFrame(Frame(CMD_UPDATE_PADDING, 0, scheme.rawScheme));
          if !ok { return; }
          env := Env(0, 1);
        }
        match StringMap.Atoi(Lookup(m, "v"))
        case None =>
        case Some(v) =>
          if v >= 2 {
            peerVersion := v % 256;
            var ok := WriteControlFrame(Frame(CMD_SERVER_SETTINGS, 0, StringMap.Ascii("v=2")));
            if ok { env := Env(0, if differs then 2 else 1); }
          }
      }
    }

    method OnUpdatePadding(f: Frame)
      modifies this`scheme
      ensures State() == HandleUpdatePadding(old(State()), f, md5)
    {
      if |f.data| > 0 && isClient {
        match NewFactory(f.data, md5)
        case Some(p) => scheme := p;
        case None =>
      }
    }

    method OnServerSettings(f: Frame)
      modifies this`peerVersion
      ensures State() == HandleServerSettings(old(State()), f)
    {
      if |f.data| > 0 && isClient {
        var m := StringMap.FromBytes(f.data);
        match StringMap.Atoi(Lookup(m, "v"))
        case Some(v) => peerVersion := v % 256;
        case None =>
      }
    }

    method Dispatch(f: Frame) returns (ghost env: Env)
      requires !ended
      modifies this`streams, this`handed, this`receivedSettings, this`peerVersion, this`scheme, this`out, this`ended
      ensures State() == Handle(old(State()), f, env, md5)
    {
      env := Env(0, 0);
      if f.cmd == CMD_PSH {
        env := OnPush(f);
      } else if f.cmd == CMD_SYN {
        env := OnSyn(f);
      } else if f.cmd == CMD_SYNACK {
        env := OnSynAck(f);
      } else if f.cmd == CMD_FIN {
        streams := streams - {f.sid};
      } else if f.cmd == CMD_SETTINGS {
        env := OnSettings(f);
      } else if f.cmd == CMD_ALERT {
        if |f.data| > 0 { ended := true; }
      } else if f.cmd == CMD_UPDATE_PADDING {
        OnUpdatePadding(f);
      } else if f.cmd == CMD_HEART_REQUEST {
        var ok := WriteControlFrame(Frame(CMD_HEART_RESPONSE, f.sid, []));
        env := Env(0, if ok then 1 else 0);
      } else if f.cmd == CMD_SERVER_SETTINGS {
        OnServerSettings(f);
      }
    }

    /** One more frame of the loop that began in `first`. */
    method DispatchNext(ghost first: RecvState, ghost handled: seq<Frame>, ghost envs: seq<Env>, f: Frame)
      returns (ghost handled': seq<Frame>, ghost envs': seq<Env>)
      requires !ended
      requires |envs| == |handled| && State() == HandleAll(first, handled, envs, md5)
      modifies this`streams, this`handed, this`receivedSettings, this`peerVersion, this`scheme, this`out, this`ended
      ensures handled' == handled + [f] && |envs'| == |handled'|
      ensures State() == HandleAll(first, handled', envs', md5)
    {
      ghost var env := Dispatch(f);
      handled', envs' := handled + [f], envs + [env];
      assert handled'[..|handled|] == handled && envs'[..|handled|] == envs;
    }

    /** Reads a header and the data its command carries; fails where the connection ends first. */
    method ReadFrame(input: bytes, at: nat) returns (f: Frame, used: nat, ok: bool)
      requires at <= |input|
      ensures ok ==> Parse(input[at..]) == Got(f, used)
      ensures !ok ==> Parse(input[at..]) == More
    {
      f, used, ok := Frame(0, 0, []), 0, false;
      ghost var rest := input[at..];
      if |input| - at < HEADER_SIZE { return; }
      var cmd, sid := input[at], U32(input, at + 1);
      assert cmd == rest[0] && sid == U32(rest, 1) && U16(input, at + 5) == U16(rest, 5);
      var len := if ReadsData(cmd) then U16(input, at + 5) else 0;
      if |input| - at < HEADER_SIZE + len { return; }
      var data := input[at + HEADER_SIZE..at + HEADER_SIZE + len];
      assert data == rest[HEADER_SIZE..HEADER_SIZE + len];
      f, used, ok := Frame(cmd, sid, data), HEADER_SIZE + len, true;
    }

    /** The loop on a connection that delivers `input` and then ends: it handles the complete
        frames in order, all of them unless a frame makes it return or it finds, before reading the
        next one, that another thread has closed the session; and it closes the session. */
    method RecvLoop(input: bytes) returns (ghost handled: seq<Frame>, ghost envs: seq<Env>, ghost died: bool)
      requires !ended && !closed
      modifies this
      ensures closed
      ensures handled <= ParseAll(input) && (!ended && !died ==> handled == ParseAll(input))
      ensures |envs| == |handled|
      ensures State() == HandleAll(old(State()), handled, envs, md5)
    {
      NothingRead(input);
      hide Handle, ParseAll, ReadSoFar;
      var at := 0;
      handled, envs, died := [], [], false;
      while !ended
        invariant at <= |input|
        invariant ReadSoFar(input, at, handled) && handled <= ParseAll(input)
        invariant |envs| == |handled| && State() == HandleAll(old(State()), handled, envs, md5)
        decreases |input| - at, !ended
      {
        var isClosed: bool := *;
        if isClosed {
          died := true;
          break;
        }
        var f, used, ok := ReadFrame(input, at);
        if !ok {
          AllRead(input, at, handled);
          break;
        }
        ReadOneMore(input, at, f, used, handled);
        at := at + used;
        handled, envs := DispatchNext(old(State()), handled, envs, f);
        ReadIsPrefix(input, at, handled);
      }
      closed := true;
    }
  }

  /** The frames read up to offset `at`. */
  ghost predicate ReadSoFar(input: bytes, at: nat, handled: seq<Frame>)
    requires at <= |input|
  {
    ParseAll(input) == handled + ParseAll(input[at..])
  }

  lemma NothingRead(input: bytes)
    ensures ReadSoFar(input, 0, [])
  {
    assert input[0..] == input;
  }

  lemma ReadIsPrefix(input: bytes, at: nat, handled: seq<Frame>)
    requires at <= |input| && ReadSoFar(input, at, handled)
    ensures handled <= ParseAll(input)
  {
    hide ParseAll;
  }

  lemma AllRead(input: bytes, at: nat, handled: seq<Frame>)
    requires at <= |input| && ReadSoFar(input, at, handled) && Parse(input[at..]) == More
    ensures handled == ParseAll(input)
  {}

  lemma ReadOneMore(input: bytes, at: nat, f: Frame, used: nat, handled: seq<Frame>)
    requires at <= |input| && ReadSoFar(input, at, handled)
    requires Parse(input[at..]) == Got(f, used)
    ensures at + used <= |input| && ReadSoFar(input, at + used, handled + [f])
  {
    assert input[at + used..] == input[at..][used..];
    assert ParseAll(input[at..]) == [f] + ParseAll(input[at + used..]);
  }
}
