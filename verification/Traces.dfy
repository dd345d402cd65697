/** Facts about frame sequences: which streams they announce, in which order, and what payload
    they carry for each stream. Padding frames make no difference to any of them. */
module Traces {
  import opened Bytes
  import opened Frames

  /** The streams opened in a sequence of frames. */
  function Announced(fs: seq<Frame>): set<u32> {
    if fs == [] then {}
    else
      var last := fs[|fs| - 1];
      Announced(fs[..|fs| - 1]) + if last.cmd == CMD_SYN then {last.sid} else {}
  }

  /** Each stream is announced once, and before any of its data. */
  predicate Orderly(fs: seq<Frame>) {
    fs == [] ||
    var before, last := fs[..|fs| - 1], fs[|fs| - 1];
    && Orderly(before)
    && (last.cmd == CMD_SYN ==> last.sid !in Announced(before))
    && (last.cmd == CMD_PSH ==> last.sid in Announced(before))
  }

  /** The data pushed on one stream. */
  function Payload(fs: seq<Frame>, sid: u32): bytes {
    if fs == [] then []
    else
      var last := fs[|fs| - 1];
      Payload(fs[..|fs| - 1], sid) + if last.cmd == CMD_PSH && last.sid == sid then last.data else []
  }

  lemma Snoc(fs: seq<Frame>, f: Frame)
    ensures Announced(fs + [f]) == Announced(fs) + if f.cmd == CMD_SYN then {f.sid} else {}
    ensures forall sid :: Payload(fs + [f], sid)
                            == Payload(fs, sid) + if f.cmd == CMD_PSH && f.sid == sid then f.data else []
    ensures Orderly(fs + [f]) <==> Orderly(fs) && (f.cmd == CMD_SYN ==> f.sid !in Announced(fs))
                                     && (f.cmd == CMD_PSH ==> f.sid in Announced(fs))
  {
    assert (fs + [f])[..|fs|] == fs;
  }

  lemma {:induction false} NoPayloadBeforeAnnounced(fs: seq<Frame>, sid: u32)
    requires Orderly(fs) && sid !in Announced(fs)
    ensures Payload(fs, sid) == []
  {
    if fs != [] { NoPayloadBeforeAnnounced(fs[..|fs| - 1], sid); }
  }

  /** Earlier frames of an orderly sequence are orderly and carry a prefix of each payload. */
  lemma {:induction false} PrefixFacts(fs: seq<Frame>, n: nat, sid: u32)
    requires n <= |fs|
    ensures Orderly(fs) ==> Orderly(fs[..n])
    ensures Payload(fs[..n], sid) <= Payload(fs, sid)
  {
    if n < |fs| {
      var before := fs[..|fs| - 1];
      PrefixFacts(before, n, sid);
      assert before[..n] == fs[..n];
    } else {
      assert fs[..n] == fs;
    }
  }

  lemma {:induction false} NonWasteFacts(fs: seq<Frame>, sid: u32)
    ensures Announced(NonWaste(fs)) == Announced(fs)
    ensures Payload(NonWaste(fs), sid) == Payload(fs, sid)
    ensures Orderly(NonWaste(fs)) <==> Orderly(fs)
  {
    if fs != [] {
      var before, last := fs[..|fs| - 1], fs[|fs| - 1];
      NonWasteFacts(before, sid);
      assert fs == before + [last];
      NonWasteAppend(before, [last]);
      if last.cmd == CMD_WASTE {
        assert NonWaste([last]) == NonWaste([last][1..]) == [];
        assert NonWaste(before) + [] == NonWaste(before);
      } else {
        assert NonWaste([last]) == [last] + NonWaste([last][1..]) == [last];
        Snoc(NonWaste(before), last);
        NonWasteFacts(before, last.sid);
      }
    }
  }
}
