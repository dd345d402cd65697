/** The DNS probe carried inside a tunnel: its query, recognising the reply to it, and reading the
    first TXT record of that reply (section 4.1 of RFC 1035). */
module Dns {
  import opened Bytes
  import StringMap

  const DOT: byte := 46
  const TXT: u16 := 16
  const MAX_LABEL: nat := 63

  function Min(a: nat, b: nat): nat {
    if a < b then a else b
  }

  function Labels(name: bytes): seq<bytes> {
    StringMap.Split(name, DOT)
  }

  /** Labels on the wire; empty ones are left out. */
  function WireLabels(labels: seq<bytes>): bytes
    requires forall i :: 0 <= i < |labels| ==> |labels[i]| < 256
  {
    if labels == [] then []
    else if labels[0] == [] then WireLabels(labels[1..])
    else [|labels[0]|] + labels[0] + WireLabels(labels[1..])
  }

  /** Labels longer than 63 bytes lose their tail. */
  function Clipped(labels: seq<bytes>): (r: seq<bytes>)
    ensures |r| == |labels|
    ensures forall i :: 0 <= i < |r| ==> |r[i]| <= MAX_LABEL
  {
    seq(|labels|, i requires 0 <= i < |labels| => labels[i][..Min(|labels[i]|, MAX_LABEL)])
  }

  function Question(labels: seq<bytes>, qtype: u16, qclass: u16): bytes
    requires forall i :: 0 <= i < |labels| ==> |labels[i]| < 256
  {
    WireLabels(labels) + [0] + Be16(qtype) + Be16(qclass)
  }

  function Query(id: u16, name: bytes, qtype: u16, qclass: u16): bytes {
    Be16(id) + [1, 0] + Be16(1) + Zeros(6) + Question(Clipped(Labels(name)), qtype, qclass)
  }

  lemma WireLabelsSnoc(labels: seq<bytes>, piece: bytes)
    requires forall i :: 0 <= i < |labels| ==> |labels[i]| < 256
    requires |piece| < 256
    ensures WireLabels(labels + [piece])
         == WireLabels(labels) + if piece == [] then [] else [|piece|] + piece
  {
    if labels == [] {
      assert [piece][1..] == [];
    } else {
      assert (labels + [piece])[1..] == labels[1..] + [piece];
      WireLabelsSnoc(labels[1..], piece);
    }
  }

  method BuildQuery(id: u16, name: bytes, qtype: u16, qclass: u16) returns (q: bytes)
    ensures q == Query(id, name, qtype, qclass)
  {
    hide Labels, WireLabels, Be16;
    var labels := Labels(name);
    q := Be16(id);
    q := q + [1, 0];
    q := q + Be16(1);
    q := q + [0, 0, 0, 0, 0, 0];
    ghost var head := Be16(id) + [1, 0] + Be16(1) + Zeros(6);
    assert Zeros(6) == [0, 0, 0, 0, 0, 0];
    NoLabels();
    for i := 0 to |labels|
      invariant q == head + WireLabels(Clipped(labels)[..i])
    {
      var piece := labels[i];
      var kept := piece[..Min(|piece|, MAX_LABEL)];
      WireLabelsSnoc(Clipped(labels)[..i], kept);
      assert Clipped(labels)[..i + 1] == Clipped(labels)[..i] + [kept];
      if piece == [] {
        assert q + [] == q;
        continue;
      }
      q := q + [Min(|piece|, MAX_LABEL)];
      q := q + piece[..Min(|piece|, MAX_LABEL)];
    }
    assert Clipped(labels)[..|labels|] == Clipped(labels);
    q := q + [0];
    q := q + Be16(qtype);
    q := q + Be16(qclass);
  }

  lemma NoLabels()
    ensures forall s: seq<bytes> :: WireLabels(s[..0]) == []
  {}

  function Lower(c: byte): byte {
    if 65 <= c <= 90 then c + 32 else c
  }

  predicate SameIgnoringCase(a: bytes, b: bytes) {
    |a| == |b| && forall i :: 0 <= i < |a| ==> Lower(a[i]) == Lower(b[i])
  }

  /** Two bytes count as the same exactly if they are equal or the two cases of one ASCII letter. */
  lemma SameLetterIff(a: byte, b: byte)
    ensures Lower(a) == Lower(b) <==>
              a == b || (65 <= a <= 90 && b == a + 32) || (65 <= b <= 90 && a == b + 32)
  {}

  /** Where the question's name ends, if `labels` are spelled out from `pos` on. */
  function MatchLabels(msg: bytes, pos: nat, labels: seq<bytes>): Option<nat>
    decreases |labels|
  {
    if labels == [] then Some(pos)
    else
      var piece := labels[0];
      if piece == [] then MatchLabels(msg, pos, labels[1..])
      else if pos >= |msg| || msg[pos] as nat != |piece| then None
      else if pos + 1 + |piece| > |msg| || !SameIgnoringCase(msg[pos + 1..pos + 1 + |piece|], piece) then None
      else MatchLabels(msg, pos + 1 + |piece|, labels[1..])
  }

  predicate Matches(msg: bytes, id: u16, name: bytes, qtype: u16, qclass: u16) {
    && |msg| >= 12 && U16(msg, 0) == id && msg[2] >= 0x80 && U16(msg, 4) == 1
    && match MatchLabels(msg, 12, Labels(name))
       case None => false
       case Some(pos) =>
         pos + 5 <= |msg| && msg[pos] == 0 && U16(msg, pos + 1) == qtype && U16(msg, pos + 3) == qclass
  }

  method QuestionMatches(msg: bytes, id: u16, name: bytes, qtype: u16, qclass: u16) returns (r: bool)
    ensures r == Matches(msg, id, name, qtype, qclass)
  {
    hide Labels, U16, SameIgnoringCase;
    if |msg| < 12 {
      return false;
    }
    if U16(msg, 0) != id {
      return false;
    }
    if msg[2] / 0x80 == 0 {
      return false;
    }
    if U16(msg, 4) != 1 {
      return false;
    }
    var labels := Labels(name);
    var pos: nat := 12;
    assert labels[0..] == labels;
    for i := 0 to |labels|
      invariant MatchLabels(msg, 12, labels) == MatchLabels(msg, pos, labels[i..])
    {
      var piece := labels[i];
      assert labels[i..][1..] == labels[i + 1..];
      if piece == [] {
        continue;
      }
      if pos >= |msg| {
        return false;
      }
      var len := msg[pos] as nat;
      if len != |piece| {
        return false;
      }
      pos := pos + 1;
      if pos + len > |msg| {
        return false;
      }
      var end := pos + len;
      if !SameIgnoringCase(msg[pos..end], piece) {
        return false;
      }
      pos := end;
    }
    if pos >= |msg| || msg[pos] != 0 {
      return false;
    }
    pos := pos + 1;
    if pos + 4 > |msg| {
      return false;
    }
    r := U16(msg, pos) == qtype && U16(msg, pos + 2) == qclass;
  }

  /** Spellings of the labels that differ at most in case. */
  ghost predicate SameNames(vs: seq<bytes>, labels: seq<bytes>) {
    |vs| == |labels| && forall i :: 0 <= i < |vs| ==> SameIgnoringCase(vs[i], labels[i])
  }

  ghost predicate Short(vs: seq<bytes>) {
    forall i :: 0 <= i < |vs| ==> |vs[i]| < 256
  }

  lemma SameNamesCons(vs: seq<bytes>, labels: seq<bytes>)
    requires |vs| == |labels| > 0
    ensures SameNames(vs, labels) <==> SameIgnoringCase(vs[0], labels[0]) && SameNames(vs[1..], labels[1..])
  {
    hide SameIgnoringCase;
    if SameIgnoringCase(vs[0], labels[0]) && SameNames(vs[1..], labels[1..]) {
      forall i | 0 <= i < |vs|
        ensures SameIgnoringCase(vs[i], labels[i])
      {
        if i > 0 { assert SameIgnoringCase(vs[1..][i - 1], labels[1..][i - 1]); }
      }
    } else if SameNames(vs, labels) {
      forall i | 0 <= i < |vs| - 1
        ensures SameIgnoringCase(vs[1..][i], labels[1..][i])
      {
        assert SameIgnoringCase(vs[i + 1], labels[i + 1]);
      }
    }
  }

  lemma SameOfEmpty(a: bytes, b: bytes)
    ensures SameIgnoringCase(a, b) ==> |a| == |b|
    ensures a == b == [] ==> SameIgnoringCase(a, b)
  {}

  lemma FirstPieceAt(msg: bytes, pos: nat, v: bytes, w: bytes)
    requires |v| < 256 && pos + 1 + |v| + |w| <= |msg|
    requires msg[pos..pos + 1 + |v| + |w|] == [|v|] + v + w
    ensures msg[pos] as nat == |v| && msg[pos + 1..pos + 1 + |v|] == v
    ensures msg[pos + 1 + |v|..pos + 1 + |v| + |w|] == w
  {
    var at := msg[pos..pos + 1 + |v| + |w|];
    assert msg[pos] == at[0];
    SliceOfSlice(msg, pos, pos + 1 + |v| + |w|, 1, 1 + |v|);
    SliceOfSlice(msg, pos, pos + 1 + |v| + |w|, 1 + |v|, 1 + |v| + |w|);
    SliceOfSum([at[0]], v, w);
  }

  /** Reading spelled labels: accepted exactly when they are the expected ones up to case. */
  lemma {:induction false} LabelsAt(msg: bytes, pos: nat, vs: seq<bytes>, labels: seq<bytes>)
    requires Short(vs) && |vs| == |labels| && pos + |WireLabels(vs)| <= |msg|
    requires msg[pos..pos + |WireLabels(vs)|] == WireLabels(vs)
    requires forall i :: 0 <= i < |vs| ==> (vs[i] == [] <==> labels[i] == [])
    ensures MatchLabels(msg, pos, labels) == if SameNames(vs, labels) then Some(pos + |WireLabels(vs)|) else None
    decreases |vs|
  {
    if vs != [] {
      var v, w := vs[0], WireLabels(vs[1..]);
      SameNamesCons(vs, labels);
      hide SameIgnoringCase, SameNames;
      SameOfEmpty(v, labels[0]);
      if v == [] {
        LabelsAt(msg, pos, vs[1..], labels[1..]);
      } else {
        FirstPieceAt(msg, pos, v, w);
        LabelsAt(msg, pos + 1 + |v|, vs[1..], labels[1..]);
      }
    }
  }

  lemma JoinSlices(msg: bytes, pos: nat, n: nat, m: nat)
    requires pos + 1 + n + m <= |msg|
    ensures msg[pos..pos + 1 + n + m] == [msg[pos]] + msg[pos + 1..pos + 1 + n] + msg[pos + 1 + n..pos + 1 + n + m]
  {}

  lemma {:induction false} LabelsOf(msg: bytes, pos: nat, labels: seq<bytes>) returns (vs: seq<bytes>)
    requires pos <= |msg| && MatchLabels(msg, pos, labels).Some?
    ensures Short(vs) && SameNames(vs, labels)
    ensures MatchLabels(msg, pos, labels) == Some(pos + |WireLabels(vs)|)
    ensures pos + |WireLabels(vs)| <= |msg| && msg[pos..pos + |WireLabels(vs)|] == WireLabels(vs)
    decreases |labels|
  {
    vs := [];
    if labels != [] {
      var n := |labels[0]|;
      if n == 0 {
        var later := LabelsOf(msg, pos, labels[1..]);
        vs := [[]] + later;
        assert vs[1..] == later;
        SameNamesCons(vs, labels);
      } else {
        hide SameIgnoringCase, SameNames;
        var v := msg[pos + 1..pos + 1 + n];
        var later := LabelsOf(msg, pos + 1 + n, labels[1..]);
        vs := [v] + later;
        assert vs[1..] == later;
        SameNamesCons(vs, labels);
        JoinSlices(msg, pos, n, |WireLabels(later)|);
      }
    }
  }

  /** A response that repeats one question. */
  function Echo(id: u16, flags: bytes, counts: bytes, vs: seq<bytes>, qtype: u16, qclass: u16, rest: bytes): bytes
    requires forall i :: 0 <= i < |vs| ==> |vs[i]| < 256
  {
    Be16(id) + flags + Be16(1) + counts + Question(vs, qtype, qclass) + rest
  }

  ghost predicate GoodEcho(flags: bytes, counts: bytes, vs: seq<bytes>) {
    |flags| == 2 && flags[0] >= 0x80 && |counts| == 6 && Short(vs)
  }

  lemma HeaderParts(id: u16, flags: bytes, counts: bytes, rest: bytes)
    requires |flags| == 2 && |counts| == 6
    ensures var msg := Be16(id) + flags + Be16(1) + counts + rest;
            && |msg| == 12 + |rest| && U16(msg, 0) == id && msg[2] == flags[0] && U16(msg, 4) == 1
            && msg[12..] == rest
  {}

  lemma QuestionParts(msg: bytes, at: nat, w: bytes, qtype: u16, qclass: u16, rest: bytes)
    requires at <= |msg| && msg[at..] == w + [0] + Be16(qtype) + Be16(qclass) + rest
    ensures var pos := at + |w|;
            && pos + 5 <= |msg| && msg[at..pos] == w && msg[pos] == 0
            && U16(msg, pos + 1) == qtype && U16(msg, pos + 3) == qclass && msg[pos + 5..] == rest
  {
    var tail := msg[at..];
    var pos := at + |w|;
    assert msg[at..pos] == tail[..|w|] == w;
    assert msg[pos] == tail[|w|] && msg[pos + 1] == tail[|w| + 1] && msg[pos + 2] == tail[|w| + 2]
        && msg[pos + 3] == tail[|w| + 3] && msg[pos + 4] == tail[|w| + 4];
    assert msg[pos + 5..] == tail[|w| + 5..] == rest;
  }

  lemma EchoParts(id: u16, flags: bytes, counts: bytes, vs: seq<bytes>, qtype: u16, qclass: u16, rest: bytes)
    requires Short(vs) && |flags| == 2 && |counts| == 6
    ensures var msg := Echo(id, flags, counts, vs, qtype, qclass, rest);
            var pos := 12 + |WireLabels(vs)|;
            && U16(msg, 0) == id && msg[2] == flags[0] && U16(msg, 4) == 1
            && pos + 5 <= |msg| && msg[12..pos] == WireLabels(vs) && msg[pos] == 0
            && U16(msg, pos + 1) == qtype && U16(msg, pos + 3) == qclass
  {
    hide WireLabels, U16;
    var msg := Echo(id, flags, counts, vs, qtype, qclass, rest);
    Regroup(Be16(id) + flags + Be16(1) + counts, Question(vs, qtype, qclass), rest);
    HeaderParts(id, flags, counts, Question(vs, qtype, qclass) + rest);
    QuestionParts(msg, 12, WireLabels(vs), qtype, qclass, rest);
  }

  /** An echo is recognised exactly when it spells the expected name up to case. */
  lemma EchoMatchesIff(id: u16, flags: bytes, counts: bytes, vs: seq<bytes>, name: bytes, qtype: u16, qclass: u16,
                       rest: bytes)
    requires Short(vs) && |flags| == 2 && |counts| == 6 && |vs| == |Labels(name)|
    requires forall i :: 0 <= i < |vs| ==> (vs[i] == [] <==> Labels(name)[i] == [])
    ensures Matches(Echo(id, flags, counts, vs, qtype, qclass, rest), id, name, qtype, qclass)
       <==> flags[0] >= 0x80 && SameNames(vs, Labels(name))
  {
    hide Echo, SameNames, Labels, U16;
    EchoParts(id, flags, counts, vs, qtype, qclass, rest);
    LabelsAt(Echo(id, flags, counts, vs, qtype, qclass, rest), 12, vs, Labels(name));
  }

  /** Whatever is recognised is such an echo. */
  lemma EchoOf(msg: bytes, id: u16, name: bytes, qtype: u16, qclass: u16)
    returns (flags: bytes, counts: bytes, vs: seq<bytes>, rest: bytes)
    requires Matches(msg, id, name, qtype, qclass)
    ensures GoodEcho(flags, counts, vs) && SameNames(vs, Labels(name))
    ensures msg == Echo(id, flags, counts, vs, qtype, qclass, rest)
  {
    hide Labels, WireLabels, SameNames, MatchLabels, U16, Be16;
    vs := LabelsOf(msg, 12, Labels(name));
    var pos := 12 + |WireLabels(vs)|;
    flags, counts, rest := msg[2..4], msg[6..12], msg[pos + 5..];
    WholeHeader(msg);
    WholeQuestion(msg, pos);
    var header := Be16(id) + flags + Be16(1) + counts;
    assert msg[12..] == Question(vs, qtype, qclass) + rest;
    Regroup(header, Question(vs, qtype, qclass), rest);
  }

  lemma WholeHeader(msg: bytes)
    requires |msg| >= 12
    ensures msg == Be16(U16(msg, 0)) + msg[2..4] + Be16(U16(msg, 4)) + msg[6..12] + msg[12..]
  {
    Be16Slice(msg, 0);
    Be16Slice(msg, 4);
    hide U16, Be16;
  }

  lemma WholeQuestion(msg: bytes, pos: nat)
    requires 12 <= pos && pos + 5 <= |msg|
    ensures msg[12..]
         == msg[12..pos] + [msg[pos]] + Be16(U16(msg, pos + 1)) + Be16(U16(msg, pos + 3)) + msg[pos + 5..]
  {
    Be16Slice(msg, pos + 1);
    Be16Slice(msg, pos + 3);
    hide U16, Be16;
  }

  lemma Be16Slice(b: bytes, at: nat)
    requires at + 2 <= |b|
    ensures Be16(U16(b, at)) == b[at..at + 2]
  {}

  ghost predicate IsEcho(msg: bytes, id: u16, name: bytes, qtype: u16, qclass: u16, flags: bytes, counts: bytes,
                         vs: seq<bytes>, rest: bytes)
  {
    GoodEcho(flags, counts, vs) && SameNames(vs, Labels(name)) && msg == Echo(id, flags, counts, vs, qtype, qclass, rest)
  }

  /** The reply check accepts exactly the responses that repeat our one question up to case. */
  lemma MatchesExactlyEchoes(msg: bytes, id: u16, name: bytes, qtype: u16, qclass: u16)
    ensures Matches(msg, id, name, qtype, qclass)
       <==> exists flags, counts, vs, rest :: IsEcho(msg, id, name, qtype, qclass, flags, counts, vs, rest)
  {
    hide Matches, Labels, Echo;
    if Matches(msg, id, name, qtype, qclass) {
      var flags, counts, vs, rest := EchoOf(msg, id, name, qtype, qclass);
      assert IsEcho(msg, id, name, qtype, qclass, flags, counts, vs, rest);
    }
    if flags, counts, vs, rest :| IsEcho(msg, id, name, qtype, qclass, flags, counts, vs, rest) {
      SameLengths(vs, Labels(name));
      EchoMatchesIff(id, flags, counts, vs, name, qtype, qclass, rest);
    }
  }

  lemma SameLengths(vs: seq<bytes>, labels: seq<bytes>)
    requires SameNames(vs, labels)
    ensures forall i :: 0 <= i < |vs| ==> (vs[i] == [] <==> labels[i] == [])
  {
    forall i | 0 <= i < |vs|
      ensures vs[i] == [] <==> labels[i] == []
    {
      assert SameIgnoringCase(vs[i], labels[i]);
    }
  }

  lemma ClippedIsSameIff(labels: seq<bytes>)
    ensures SameNames(Clipped(labels), labels) <==> forall i :: 0 <= i < |labels| ==> |labels[i]| <= MAX_LABEL
  {
    var vs := Clipped(labels);
    forall i | 0 <= i < |labels|
      ensures SameIgnoringCase(vs[i], labels[i]) <==> |labels[i]| <= MAX_LABEL
    {
      if |labels[i]| <= MAX_LABEL { assert vs[i] == labels[i]; }
    }
  }

  /** The query that was sent, sent back as a response, is recognised exactly when no label of the
      name had to be clipped. */
  lemma OwnQueryMatchesIff(id: u16, flags: bytes, counts: bytes, name: bytes, qtype: u16, qclass: u16, rest: bytes)
    requires |flags| == 2 && flags[0] >= 0x80 && |counts| == 6
    ensures Matches(Echo(id, flags, counts, Clipped(Labels(name)), qtype, qclass, rest), id, name, qtype, qclass)
       <==> forall i :: 0 <= i < |Labels(name)| ==> |Labels(name)[i]| <= MAX_LABEL
    ensures Query(id, name, qtype, qclass)
         == Echo(id, [1, 0], Zeros(6), Clipped(Labels(name)), qtype, qclass, [])
  {
    hide Echo, Labels, Matches;
    var labels, vs := Labels(name), Clipped(Labels(name));
    EchoMatchesIff(id, flags, counts, vs, name, qtype, qclass, rest);
    ClippedIsSameIff(labels);
    QueryIsEcho(id, name, qtype, qclass);
  }

  lemma QueryIsEcho(id: u16, name: bytes, qtype: u16, qclass: u16)
    ensures Query(id, name, qtype, qclass) == Echo(id, [1, 0], Zeros(6), Clipped(Labels(name)), qtype, qclass, [])
  {
    hide Question, Labels;
    var q := Query(id, name, qtype, qclass);
    assert q + [] == q;
  }
}
