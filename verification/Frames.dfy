/** The AnyTLS frame format: a command byte, a 32-bit stream id, a 16-bit length, data.
    Whether the receiver reads the data at all depends on the command. */
module Frames {
  import opened Bytes

  const CMD_WASTE: byte := 0
  const CMD_SYN: byte := 1
  const CMD_PSH: byte := 2
  const CMD_FIN: byte := 3
  const CMD_SETTINGS: byte := 4
  const CMD_ALERT: byte := 5
  const CMD_UPDATE_PADDING: byte := 6
  const CMD_SYNACK: byte := 7
  const CMD_HEART_REQUEST: byte := 8
  const CMD_HEART_RESPONSE: byte := 9
  const CMD_SERVER_SETTINGS: byte := 10

  const HEADER_SIZE: nat := 7

  datatype Frame = Frame(cmd: byte, sid: u32, data: bytes)

  /** The header a frame with `len` data bytes carries. The length field is the 16-bit
      conversion of `len`, so it wraps for longer data. */
  function Header(cmd: byte, sid: u32, len: nat): (r: bytes)
    ensures |r| == HEADER_SIZE
  {
    [cmd] + Be32(sid) + Be16(len % 0x1_0000)
  }

  function Encode(f: Frame): bytes {
    Header(f.cmd, f.sid, |f.data|) + f.data
  }

  function EncodeAll(fs: seq<Frame>): bytes {
    if fs == [] then [] else Encode(fs[0]) + EncodeAll(fs[1..])
  }

  /** The commands whose branch of the receive loop reads the data that follows. */
  predicate ReadsData(cmd: byte) {
    cmd in {CMD_WASTE, CMD_PSH, CMD_SETTINGS, CMD_ALERT, CMD_UPDATE_PADDING, CMD_SYNACK, CMD_SERVER_SETTINGS}
  }

  /** Of the known commands exactly the opening, closing and keep-alive ones carry no data. */
  lemma CarriesDataIff(cmd: byte)
    ensures ReadsData(cmd) <==> cmd <= 10 && cmd != 1 && cmd != 3 && cmd != 8 && cmd != 9
  {}

  /** The frames the receiver reads back: the length fits its field, and data is only
      attached to a command that reads it. */
  predicate WellFramed(f: Frame) {
    |f.data| <= 0xffff && (f.data != [] ==> ReadsData(f.cmd))
  }

  predicate AllWellFramed(fs: seq<Frame>) {
    forall i :: 0 <= i < |fs| ==> WellFramed(fs[i])
  }

  datatype Parsed = More | Got(frame: Frame, used: nat)

  /** Reading one frame from the front of the received bytes; `More` while a read blocks. */
  function Parse(buf: bytes): (r: Parsed)
    ensures r.Got? ==> HEADER_SIZE <= r.used <= |buf|
  {
    if |buf| < HEADER_SIZE then More
    else
      var need := if ReadsData(buf[0]) then U16(buf, 5) else 0;
      if |buf| < HEADER_SIZE + need then More
      else Got(Frame(buf[0], U32(buf, 1), buf[HEADER_SIZE..HEADER_SIZE + need]), HEADER_SIZE + need)
  }

  /** All the complete frames at the front of the received bytes. */
  function ParseAll(buf: bytes): seq<Frame>
    decreases |buf|
  {
    match Parse(buf)
    case More => []
    case Got(f, used) => [f] + ParseAll(buf[used..])
  }

  lemma HeaderFields(cmd: byte, sid: u32, len: nat, tail: bytes)
    ensures var b := Header(cmd, sid, len) + tail;
            b[0] == cmd && U32(b, 1) == sid && U16(b, 5) == len % 0x1_0000
  {
    Be32RoundTrip(sid);
    var b := Header(cmd, sid, len) + tail;
    assert b[1] == Be32(sid)[0] && b[2] == Be32(sid)[1] && b[3] == Be32(sid)[2] && b[4] == Be32(sid)[3];
    assert b[5] == Be16(len % 0x1_0000)[0] && b[6] == Be16(len % 0x1_0000)[1];
  }

  /** A well-framed frame at the front of the input is read back, whatever follows it. */
  lemma ParseEncode(f: Frame, rest: bytes)
    requires WellFramed(f)
    ensures Parse(Encode(f) + rest) == Got(f, |Encode(f)|)
  {
    var b := Encode(f) + rest;
    assert b == Header(f.cmd, f.sid, |f.data|) + (f.data + rest);
    HeaderFields(f.cmd, f.sid, |f.data|, f.data + rest);
    assert b[HEADER_SIZE..HEADER_SIZE + |f.data|] == f.data;
  }

  /** A frame survives the wire exactly when it is well framed: a longer payload, or data
      on a command that does not read it, is lost or leaves the receiver out of step. */
  lemma RoundTripIffWellFramed(f: Frame)
    ensures Parse(Encode(f)) == Got(f, |Encode(f)|) <==> WellFramed(f)
  {
    assert Encode(f) + [] == Encode(f);
    if WellFramed(f) {
      ParseEncode(f, []);
    } else {
      HeaderFields(f.cmd, f.sid, |f.data|, f.data);
    }
  }

  /** A proper prefix of a well-framed frame keeps the receiver waiting. */
  lemma ParseCut(f: Frame, p: bytes)
    requires WellFramed(f)
    requires p <= Encode(f) && p != Encode(f)
    ensures Parse(p) == More
  {
    if HEADER_SIZE <= |p| {
      HeaderFields(f.cmd, f.sid, |f.data|, f.data);
      assert p[0] == Encode(f)[0] && p[5] == Encode(f)[5] && p[6] == Encode(f)[6];
    }
  }

  lemma {:induction false} EncodeAllAppend(a: seq<Frame>, b: seq<Frame>)
    ensures EncodeAll(a + b) == EncodeAll(a) + EncodeAll(b)
  {
    if a == [] {
      assert a + b == b;
    } else {
      assert (a + b)[1..] == a[1..] + b;
      EncodeAllAppend(a[1..], b);
    }
  }

  lemma EncodeAllSingle(f: Frame)
    ensures EncodeAll([f]) == Encode(f)
  {
    assert EncodeAll([f]) == Encode(f) + EncodeAll([]);
  }

  /** What one read yields on any prefix of an encoded sequence: its first frame, or more
      bytes are needed. */
  lemma ParsePrefix(fs: seq<Frame>, p: bytes)
    requires AllWellFramed(fs)
    requires p <= EncodeAll(fs)
    ensures Parse(p).Got? ==> fs != [] && Parse(p) == Got(fs[0], |Encode(fs[0])|)
    ensures Parse(p).More? ==> p == EncodeAll(fs) == [] || (fs != [] && |p| < |Encode(fs[0])|)
  {
    if fs != [] {
      var e := Encode(fs[0]);
      if |p| < |e| {
        assert p == EncodeAll(fs)[..|p|] == e[..|p|];
        ParseCut(fs[0], p);
      } else {
        PrefixDrop(e, p, EncodeAll(fs[1..]));
        ParseEncode(fs[0], p[|e|..]);
      }
    }
  }

  /** The receive framing inverts the sender's on any delivered prefix: the complete frames
      read are a prefix of those sent, and all of them once every byte has arrived. */
  lemma {:induction false} ParseAllPrefix(fs: seq<Frame>, p: bytes)
    requires AllWellFramed(fs)
    requires p <= EncodeAll(fs)
    ensures ParseAll(p) <= fs
    ensures EncodeAll(ParseAll(p)) <= p
    ensures p == EncodeAll(fs) ==> ParseAll(p) == fs
    decreases |p|
  {
    ParsePrefix(fs, p);
    match Parse(p)
    case More =>
    case Got(f, used) =>
      var e := Encode(fs[0]);
      PrefixDrop(e, p, EncodeAll(fs[1..]));
      ParseAllPrefix(fs[1..], p[used..]);
      assert fs == [fs[0]] + fs[1..];
      assert ParseAll(p) == [f] + ParseAll(p[used..]);
      assert ParseAll(p)[1..] == ParseAll(p[used..]);
  }

  /** What is left of a frame sequence when the padding frames are dropped. */
  function NonWaste(fs: seq<Frame>): seq<Frame> {
    if fs == [] then []
    else if fs[0].cmd == CMD_WASTE then NonWaste(fs[1..])
    else [fs[0]] + NonWaste(fs[1..])
  }

  lemma {:induction false} NonWasteAppend(a: seq<Frame>, b: seq<Frame>)
    ensures NonWaste(a + b) == NonWaste(a) + NonWaste(b)
  {
    if a == [] {
      assert a + b == b;
    } else {
      assert (a + b)[1..] == a[1..] + b;
      NonWasteAppend(a[1..], b);
    }
  }

  lemma NonWastePrefix(a: seq<Frame>, b: seq<Frame>)
    requires a <= b
    ensures NonWaste(a) <= NonWaste(b)
  {
    assert b == a + b[|a|..];
    NonWasteAppend(a, b[|a|..]);
  }

  lemma {:induction false} NonWasteIdentity(fs: seq<Frame>)
    requires forall i :: 0 <= i < |fs| ==> fs[i].cmd != CMD_WASTE
    ensures NonWaste(fs) == fs
  {
    if fs != [] {
      NonWasteIdentity(fs[1..]);
    }
  }
}
