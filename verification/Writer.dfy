/** The sending half of a session: the start-up buffer, the padded writes and the connection. */
module Writer {
  import opened Bytes
  import opened Frames
  import opened Padding
  import opened Records
  import StringMap

  /** The fields a write reads and updates, with the records the connection was handed so far.
      `broken` says a connection write has failed; no later one succeeds. */
  datatype SendState = SendState(
    buffering: bool, buffer: bytes, sendPadding: bool, pktCounter: u32, records: seq<bytes>, broken: bool)
  {
    function Wire(): bytes { Flatten(records) }
  }

  /** The atomic counter wraps. */
  function NextPkt(pktCounter: u32): u32 {
    if pktCounter == 0xffff_ffff then 0 else pktCounter + 1
  }

  predicate Pads(sendPadding: bool, pktCounter: u32, stop: u32) {
    sendPadding && NextPkt(pktCounter) < stop
  }

  /** The records an unbuffered write of `b` hands to the connection if nothing fails. */
  function Attempted(w: SendState, b: bytes, stop: u32, sizes: seq<int>): seq<bytes>
    requires Positive(sizes)
  {
    if Pads(w.sendPadding, w.pktCounter, stop) then Cut(w.buffer + b, sizes) else [w.buffer + b]
  }

  /** The connection took all the attempted records, or broke after some prefix of their bytes. */
  predicate Carried(records: seq<bytes>, broken: bool, attempted: seq<bytes>, records': seq<bytes>, broken': bool) {
    && (broken ==> broken' && records' == records)
    && (!broken' ==> records' == records + attempted)
    && (!broken && broken' ==>
         records <= records' && Flatten(records') <= Flatten(records + attempted))
  }

  /** What one write of `b` does, for the sizes drawn. */
  predicate Writes(w: SendState, b: bytes, stop: u32, sizes: seq<int>, w': SendState)
    requires Positive(sizes)
  {
    if w.buffering then w' == w.(buffer := w.buffer + b)
    else
      && !w'.buffering && w'.buffer == []
      && w'.sendPadding == Pads(w.sendPadding, w.pktCounter, stop)
      && w'.pktCounter == (if w.sendPadding then NextPkt(w.pktCounter) else w.pktCounter)
      && Carried(w.records, w.broken, Attempted(w, b, stop, sizes), w'.records, w'.broken)
  }

  /** One write under the scheme in force: a padded one is cut at sizes drawn from the scheme's line for
      its packet, counted from one. */
  ghost predicate Sends(w: SendState, b: bytes, scheme: Factory, sizes: seq<int>, w': SendState) {
    && Positive(sizes) && Writes(w, b, scheme.stop, sizes, w')
    && (SchemeFits(scheme) ==> SizesFit(sizes))
    && (!w.buffering && Pads(w.sendPadding, w.pktCounter, scheme.stop) ==>
          Draws(Tokens(Items(scheme, NextPkt(w.pktCounter))), sizes))
  }

  class ClientSession {
    const padding: Store
    var buffering: bool
    var buffer: bytes
    var sendPadding: bool
    var pktCounter: u32
    var records: seq<bytes>
    var broken: bool
    var closed: bool

    ghost function State(): SendState
      reads this
    {
      SendState(buffering, buffer, sendPadding, pktCounter, records, broken)
    }

    constructor (padding: Store)
      ensures State() == SendState(false, [], true, 0, [], false) && !closed && this.padding == padding
    {
      this.padding := padding;
      buffering, buffer, sendPadding, pktCounter := false, [], true, 0;
      records, broken, closed := [], false, false;
    }

    /** One write to the connection: it may fail after part of the bytes, and then stays broken. */
    method ConnWrite(b: bytes) returns (k: nat, ok: bool)
      modifies this`records, this`broken
      ensures ok ==> !old(broken) && !broken && k == |b| && records == old(records) + [b]
      ensures !ok ==> broken && k <= |b|
      ensures !ok ==> records == if old(broken) then old(records) else old(records) + [b[..k]]
    {
      var fails: bool := *;
      if broken {
        k, ok := 0, false;
      } else if fails {
        k :| 0 <= k <= |b| by { assert 0 <= 0 <= |b|; }
        records, broken, ok := records + [b[..k]], true, false;
      } else {
        records, k, ok := records + [b], |b|, true;
      }
    }

    /** The loop of `WriteConn`'s padded branch: one record for each size, and the rest. */
    method WriteRecords(payload: bytes, pktSizes: seq<int>) returns (n: nat, ok: bool)
      requires Positive(pktSizes)
      modifies this`records, this`broken
      ensures Carried(old(records), old(broken), Cut(payload, pktSizes), records, broken)
      ensures ok == (!broken || Cut(payload, pktSizes) == [])
      ensures ok ==> n == |payload|
    {
      hide RecordOf, Flatten, CutSoFar, Cut;
      n := 0;
      var b := payload;
      ghost var first, done := records, [];
      var i := 0;
      CutStart(payload, pktSizes);
      while i < |pktSizes|
        invariant 0 <= i <= |pktSizes|
        invariant CutSoFar(payload, pktSizes, i, done, b)
        invariant records == first + done
        invariant broken == old(broken) && (broken ==> done == [])
        invariant n + |b| == |payload|
      {
        var l := pktSizes[i];
        if l == CHECK_MARK && |b| == 0 { break; }
        CutOneMore(payload, pktSizes, i, done, b);
        if l != CHECK_MARK {
          var record := RecordOf(b, l);
          var k, written := ConnWrite(record);
          if !written {
            CarriedPart(first, done, record, k, Cut(payload, pktSizes));
            return 0, false;
          }
          done := done + [record];
          n := n + if |b| > l then l else |b|;
          b := if |b| > l then b[l..] else [];
        }
        i := i + 1;
      }
      CutLeft(payload, pktSizes, i, done, b);
      ok := true;
      if |b| > 0 {
        var n2;
        n2, ok := ConnWrite(b);
        if !ok {
          CarriedPart(first, done, b, n2, Cut(payload, pktSizes));
        }
        n := n + n2;
      }
    }

    /** The padded branch of `WriteConn`, with the sizes drawn from the scheme. */
    method WritePadded(b: bytes, paddingF: Factory, pkt: u32) returns (n: nat, ok: bool, ghost sizes: seq<int>)
      modifies this`records, this`broken
      ensures Positive(sizes)
      ensures SchemeFits(paddingF) ==> SizesFit(sizes)
      ensures Draws(Tokens(Items(paddingF, pkt)), sizes)
      ensures Carried(old(records), old(broken), Cut(b, sizes), records, broken)
      ensures ok == (!broken || Cut(b, sizes) == [])
      ensures ok ==> n == |b|
    {
      var pktSizes := GenerateRecordPayloadSizes(paddingF, pkt);
      sizes := pktSizes;
      DrawsArePositive(Tokens(Items(paddingF, pkt)), sizes);
      if SchemeFits(paddingF) { SchemeDrawsFit(paddingF, pkt, sizes); }
      n, ok := WriteRecords(b, pktSizes);
    }

    /** The part of `WriteConn` after the start-up buffer: padded while the counter is below stop. */
    method WriteOut(b: bytes) returns (n: nat, ok: bool, ghost sizes: seq<int>)
      requires padding.Valid()
      modifies this`sendPadding, this`pktCounter, this`records, this`broken
      ensures Positive(sizes)
      ensures SchemeFits(padding.current) ==> SizesFit(sizes)
      ensures sendPadding == Pads(old(sendPadding), old(pktCounter), padding.current.stop)
      ensures pktCounter == if old(sendPadding) then NextPkt(old(pktCounter)) else old(pktCounter)
      ensures sendPadding ==> Draws(Tokens(Items(padding.current, pktCounter)), sizes)
      ensures var attempted := if sendPadding then Cut(b, sizes) else [b];
              && Carried(old(records), old(broken), attempted, records, broken)
              && ok == (!broken || attempted == [])
      ensures ok ==> n == |b|
    {
      sizes := [];
      if sendPadding {
        pktCounter := NextPkt(pktCounter);
        var paddingF := padding.current;
        if pktCounter < paddingF.stop {
          n, ok, sizes := WritePadded(b, paddingF, pktCounter);
          return;
        } else {
          sendPadding := false;
        }
      }
      n, ok := ConnWrite(b);
      if !ok {
        CarriedPart(old(records), [], b, n, [b]);
        assert old(records) + [] == old(records);
      }
    }

    method WriteConn(bytes: bytes) returns (n: nat, ok: bool, ghost sizes: seq<int>)
      requires padding.Valid()
      modifies this`buffer, this`sendPadding, this`pktCounter, this`records, this`broken
      ensures Positive(sizes)
      ensures Sends(old(State()), bytes, padding.current, sizes, State())
      ensures ok == (old(buffering) || !broken || Attempted(old(State()), bytes, padding.current.stop, sizes) == [])
      ensures ok ==> n == if old(buffering) then |bytes| else |old(buffer)| + |bytes|
    {
      var b := bytes;
      if buffering {
        buffer := buffer + b;
        return |b|, true, [];
      } else if |buffer| > 0 {
        b := buffer + b;
        buffer := [];
      }
      assert b == old(buffer) + bytes;
      n, ok, sizes := WriteOut(b);
    }

    method WriteControlFrame(f: Frame) returns (n: nat, ok: bool, ghost sizes: seq<int>)
      requires padding.Valid()
      modifies this
      ensures Positive(sizes)
      ensures Sends(old(State()), Encode(f), padding.current, sizes, State())
      ensures ok == (old(buffering) || !broken || Attempted(old(State()), Encode(f), padding.current.stop, sizes) == [])
      ensures ok ==> n == |f.data|
      ensures closed == (old(closed) || !ok)
    {
      n, ok, sizes := WriteConn(Encode(f));
      if !ok {
        closed := true;
        return 0, false, sizes;
      }
      n := |f.data|;
    }

    method WriteDataFrame(sid: u32, data: bytes) returns (n: nat, ok: bool, ghost sizes: seq<int>)
      requires padding.Valid()
      modifies this
      ensures Positive(sizes)
      ensures Sends(old(State()), Encode(Frame(CMD_PSH, sid, data)), padding.current, sizes, State())
      ensures ok == (old(buffering) || !broken || Attempted(old(State()), Encode(Frame(CMD_PSH, sid, data)), padding.current.stop, sizes) == [])
      ensures n == if ok then |data| else 0
      ensures closed == old(closed)
    {
      n, ok, sizes := WriteConn(Encode(Frame(CMD_PSH, sid, data)));
      n := if ok then |data| else 0;
    }

    /** The client's start: its settings go into the start-up buffer. */
    method Run() returns (ghost settings: Frame, ghost order: seq<bytes>)
      requires padding.Valid()
      modifies this
      ensures StringMap.Visits(order, ClientSettings(padding.current.md5).Keys)
      ensures settings == Frame(CMD_SETTINGS, 0, StringMap.Printed(ClientSettings(padding.current.md5), order))
      ensures State() == old(State()).(buffering := true, buffer := old(buffer) + Encode(settings))
      ensures closed == old(closed)
    {
      var data;
      data, order := StringMap.ToBytes(ClientSettings(padding.current.md5));
      settings := Frame(CMD_SETTINGS, 0, data);
      buffering := true;
      var n, ok, sizes := WriteControlFrame(Frame(CMD_SETTINGS, 0, data));
    }
  }

  function ClientSettings(md5: bytes): StringMap.StringMap {
    map[StringMap.Ascii("v") := StringMap.Ascii("2"),
        StringMap.Ascii("client") := StringMap.Ascii("anytls/0.0.13"),
        StringMap.Ascii("padding-md5") := md5]
  }

  /** A write that breaks in the middle of a record leaves a prefix of the intended bytes. */
  lemma CarriedPart(first: seq<bytes>, done: seq<bytes>, record: bytes, k: nat, attempted: seq<bytes>)
    requires done + [record] <= attempted && k <= |record|
    ensures Flatten(first + done + [record[..k]]) <= Flatten(first + attempted)
    ensures first <= first + done + [record[..k]]
  {
    var sent, rest := first + done, attempted[|done| + 1..];
    FlattenAppend(sent, [record[..k]]);
    FlattenSingle(record[..k]);
    FlattenAppend(sent, [record] + rest);
    FlattenCons(record, rest);
    assert first + attempted == sent + ([record] + rest);
  }
}
