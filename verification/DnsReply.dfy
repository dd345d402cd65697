/** Reading the text of the first TXT record out of a DNS reply, however much of it is there
    (sections 4.1.3, 4.1.4 and 3.3.14 of RFC 1035), and the probe's whole way back. */
module DnsReply {
  import opened Bytes
  import Checksum
  import Dns

  /** The bytes taken by the possibly compressed name in front of `b`. */
  function NameLen(b: bytes): (r: Option<nat>)
    ensures r.Some? ==> 0 < r.value <= |b|
    decreases |b|
  {
    if b == [] then None
    else
      var len := b[0] as nat;
      if len >= 0xc0 then if |b| < 2 then None else Some(2)
      else if len == 0 then Some(1)
      else if |b| < 1 + len then None
      else
        match NameLen(b[1 + len..])
        case None => None
        case Some(n) => Some(1 + len + n)
  }

  /** The strings of one TXT record, joined. */
  function Strings(b: bytes): Option<bytes>
    decreases |b|
  {
    if b == [] then Some([])
    else if |b| < 1 + b[0] as nat then None
    else
      match Strings(b[1 + b[0] as nat..])
      case None => None
      case Some(later) => Some(b[1..1 + b[0] as nat] + later)
  }

  function NonEmpty(text: Option<bytes>): Option<bytes> {
    if text == Some([]) then None else text
  }

  function FromAnswers(b: bytes, n: nat): Option<bytes>
    decreases n
  {
    if n == 0 then None
    else
      match NameLen(b)
      case None => None
      case Some(k) =>
        if |b| < k + 10 then None
        else
          var end := k + 10 + U16(b, k + 8) as nat;
          if |b| < end then None
          else if U16(b, k) == Dns.TXT then NonEmpty(Strings(b[k + 10..end]))
          else FromAnswers(b[end..], n - 1)
  }

  function FromQuestions(b: bytes, questions: nat, answers: nat): Option<bytes>
    decreases questions
  {
    if questions == 0 then FromAnswers(b, answers)
    else
      match NameLen(b)
      case None => None
      case Some(k) => if |b| < k + 4 then None else FromQuestions(b[k + 4..], questions - 1, answers)
  }

  function FirstTxt(msg: bytes): Option<bytes> {
    if |msg| < 12 then None else FromQuestions(msg[12..], U16(msg, 4) as nat, U16(msg, 6) as nat)
  }

  lemma U16Drop(b: bytes, k: nat, at: nat)
    requires k + at + 2 <= |b|
    ensures U16(b[k..], at) == U16(b, k + at)
  {}

  /** Past the end there is no name. */
  function NameEnd(buf: bytes, pos: nat): Option<nat> {
    if pos > |buf| then None
    else match NameLen(buf[pos..]) case None => None case Some(n) => Some(pos + n)
  }

  method SkipName(buf: bytes, start: nat) returns (r: Option<nat>)
    ensures r == NameEnd(buf, start)
  {
    var pos := start;
    while true
      invariant NameEnd(buf, start) == NameEnd(buf, pos)
      invariant pos > start ==> pos <= |buf|
      decreases |buf| - pos
    {
      if pos >= |buf| {
        return None;
      }
      var len := buf[pos] as nat;
      if len >= 0xc0 {
        return if pos + 2 <= |buf| then Some(pos + 2) else None;
      }
      if len == 0 {
        return Some(pos + 1);
      }
      if pos + 1 + len <= |buf| {
        DropDrop(buf, pos, 1 + len);
      }
      pos := pos + 1 + len;
      if pos > |buf| {
        return None;
      }
    }
  }

  /** The text of the record data `msg[from..end]`. */
  method JoinStrings(msg: bytes, from: nat, end: nat) returns (r: Option<bytes>)
    requires from <= end <= |msg|
    ensures r == Strings(msg[from..end])
  {
    var out: bytes := [];
    var p := from;
    PrependNothing(Strings(msg[p..end]));
    while p < end
      invariant from <= p <= end
      invariant Strings(msg[from..end]) == Prepend(out, Strings(msg[p..end]))
    {
      var len := msg[p] as nat;
      var start := p + 1;
      var stop := start + len;
      if stop > end {
        return None;
      }
      SliceOfSlice(msg, p, end, 1 + len, end - p);
      SliceOfSlice(msg, p, end, 1, 1 + len);
      var later := Strings(msg[stop..end]);
      if later.Some? { Regroup(out, msg[start..stop], later.value); }
      out := out + msg[start..stop];
      p := stop;
    }
    r := Some(out);
    assert out + [] == out;
  }

  function Prepend(out: bytes, r: Option<bytes>): Option<bytes> {
    match r case None => None case Some(later) => Some(out + later)
  }

  lemma PrependNothing(r: Option<bytes>)
    ensures Prepend([], r) == r
  {
    if r.Some? { assert [] + r.value == r.value; }
  }

  /** What is left to read at `pos`, which may lie beyond the end. */
  function QuestionsAt(msg: bytes, pos: nat, questions: nat, answers: nat): Option<bytes> {
    if pos > |msg| then None else FromQuestions(msg[pos..], questions, answers)
  }

  function AnswersAt(msg: bytes, pos: nat, answers: nat): Option<bytes> {
    if pos > |msg| then None else FromAnswers(msg[pos..], answers)
  }

  lemma PastTheEnd(msg: bytes, pos: nat, questions: nat, answers: nat)
    requires pos <= |msg| && questions > 0
    ensures NameEnd(msg, pos).None? ==> QuestionsAt(msg, pos, questions, answers).None?
    ensures NameEnd(msg, pos).Some? ==>
              QuestionsAt(msg, pos, questions, answers)
              == QuestionsAt(msg, NameEnd(msg, pos).value + 4, questions - 1, answers)
  {
    if NameEnd(msg, pos).Some? && NameEnd(msg, pos).value + 4 <= |msg| {
      DropDrop(msg, pos, NameLen(msg[pos..]).value + 4);
    }
  }

  lemma AfterAnswer(msg: bytes, pos: nat, answers: nat)
    requires pos <= |msg| && answers > 0
    ensures NameEnd(msg, pos).None? ==> AnswersAt(msg, pos, answers).None?
    ensures NameEnd(msg, pos).Some? ==>
              var at := NameEnd(msg, pos).value;
              && (at + 10 > |msg| ==> AnswersAt(msg, pos, answers).None?)
              && (at + 10 <= |msg| ==>
                    var end := at + 10 + U16(msg, at + 8) as nat;
                    && (end > |msg| ==> AnswersAt(msg, pos, answers).None?)
                    && (end <= |msg| ==>
                          AnswersAt(msg, pos, answers) == if U16(msg, at) == Dns.TXT then NonEmpty(Strings(msg[at + 10..end]))
                                                          else AnswersAt(msg, end, answers - 1)))
  {
    hide NameLen, U16, Strings;
    if NameEnd(msg, pos).Some? && NameEnd(msg, pos).value + 10 <= |msg| {
      var k := NameLen(msg[pos..]).value;
      var at := pos + k;
      U16Drop(msg, pos, k);
      U16Drop(msg, pos, k + 8);
      var end := at + 10 + U16(msg, at + 8) as nat;
      if end <= |msg| {
        SuffixSlices(msg, pos, k + 10, end - pos);
      }
    }
  }

  lemma SuffixSlices(msg: bytes, pos: nat, a: nat, b: nat)
    requires a <= b && pos + b <= |msg|
    ensures msg[pos..][a..b] == msg[pos + a..pos + b] && msg[pos..][b..] == msg[pos + b..]
  {
    DropDrop(msg, pos, b);
    SliceOfSlice(msg, pos, |msg|, a, b);
    assert msg[pos..|msg|] == msg[pos..];
  }

  method FirstTxtRecord(msg: bytes) returns (r: Option<bytes>)
    ensures r == FirstTxt(msg)
  {
    hide NameEnd, Strings, FromAnswers, U16;
    if |msg| < 12 {
      return None;
    }
    var qd := U16(msg, 4) as nat;
    var an := U16(msg, 6) as nat;
    var pos: nat := 12;
    for i := 0 to qd
      invariant FirstTxt(msg) == QuestionsAt(msg, pos, qd - i, an)
    {
      hide QuestionsAt;
      var next := SkipName(msg, pos);
      if pos <= |msg| { PastTheEnd(msg, pos, qd - i, an); }
      NoNameBeyond(msg, pos, qd - i, an);
      match next {
        case None => return None;
        case Some(end) => pos := end + 4;
      }
    }
    for i := 0 to an
      invariant FirstTxt(msg) == AnswersAt(msg, pos, an - i)
    {
      hide AnswersAt;
      var next := SkipName(msg, pos);
      if pos <= |msg| { AfterAnswer(msg, pos, an - i); }
      NoNameBeyond(msg, pos, 0, an - i);
      match next {
        case None => return None;
        case Some(end) => pos := end;
      }
      if pos + 10 > |msg| {
        return None;
      }
      var rtype := U16(msg, pos);
      var rdlen := U16(msg, pos + 8) as nat;
      pos := pos + 10;
      var end := pos + rdlen;
      if end > |msg| {
        return None;
      }
      if rtype == Dns.TXT {
        var out := JoinStrings(msg, pos, end);
        match out {
          case None => return None;
          case Some(text) => return if text == [] then None else Some(text);
        }
      }
      pos := end;
    }
    NoneLeft(msg, pos);
    r := None;
  }

  lemma NoNameBeyond(msg: bytes, pos: nat, questions: nat, answers: nat)
    ensures pos > |msg| ==>
              NameEnd(msg, pos).None? && QuestionsAt(msg, pos, questions, answers).None? && AnswersAt(msg, pos, answers).None?
  {}

  lemma NoneLeft(msg: bytes, pos: nat)
    ensures AnswersAt(msg, pos, 0).None?
  {}

  /** A name as a reply may spell it: labels, then the root or a pointer. */
  datatype Name = Name(labels: seq<bytes>, end: bytes)

  predicate GoodLabels(labels: seq<bytes>) {
    forall i :: 0 <= i < |labels| ==> 0 < |labels[i]| < 0xc0
  }

  predicate GoodName(name: Name) {
    GoodLabels(name.labels) && (name.end == [0] || (|name.end| == 2 && name.end[0] >= 0xc0))
  }

  function NameBytes(name: Name): (r: bytes)
    requires GoodName(name)
    decreases |name.labels|
  {
    if name.labels == [] then name.end
    else [|name.labels[0]|] + name.labels[0] + NameBytes(Name(name.labels[1..], name.end))
  }

  datatype Asked = Asked(name: Name, kindAndClass: bytes)

  predicate GoodAsked(q: Asked) {
    GoodName(q.name) && |q.kindAndClass| == 4
  }

  function AskedBytes(q: Asked): bytes
    requires GoodAsked(q)
  {
    NameBytes(q.name) + q.kindAndClass
  }

  datatype Record = Record(name: Name, kind: u16, classAndTtl: bytes, data: bytes)

  predicate GoodRecord(r: Record) {
    GoodName(r.name) && |r.classAndTtl| == 6 && |r.data| < 0x1_0000
  }

  function RecordBytes(r: Record): bytes
    requires GoodRecord(r)
  {
    NameBytes(r.name) + Fields(r.kind, r.classAndTtl, r.data)
  }

  function Fields(kind: u16, classAndTtl: bytes, data: bytes): (r: bytes)
    requires |data| < 0x1_0000
    ensures |r| == 4 + |classAndTtl| + |data|
  {
    Be16(kind) + classAndTtl + Be16(|data|) + data
  }

  predicate ShortStrings(strings: seq<bytes>) {
    forall i :: 0 <= i < |strings| ==> |strings[i]| < 256
  }

  /** The data of a TXT record. */
  function TxtData(strings: seq<bytes>): bytes
    requires ShortStrings(strings)
  {
    if strings == [] then [] else [|strings[0]|] + strings[0] + TxtData(strings[1..])
  }

  predicate Skipped(r: Record) {
    GoodRecord(r) && r.kind != Dns.TXT
  }

  predicate AllAsked(qs: seq<Asked>) {
    forall i :: 0 <= i < |qs| ==> GoodAsked(qs[i])
  }

  predicate AllSkipped(rs: seq<Record>) {
    forall i :: 0 <= i < |rs| ==> Skipped(rs[i])
  }

  function AllAskedBytes(qs: seq<Asked>): bytes
    requires AllAsked(qs)
  {
    if qs == [] then [] else AskedBytes(qs[0]) + AllAskedBytes(qs[1..])
  }

  function AllSkippedBytes(rs: seq<Record>): bytes
    requires AllSkipped(rs)
  {
    if rs == [] then [] else RecordBytes(rs[0]) + AllSkippedBytes(rs[1..])
  }

  /** A reply up to the end of its first TXT record. */
  datatype Reply = Reply(id: u16, flags: bytes, answers: u16, counts: bytes, questions: seq<Asked>,
                         before: seq<Record>, name: Name, classAndTtl: bytes, strings: seq<bytes>)

  predicate GoodReply(m: Reply) {
    && |m.flags| == 2 && |m.counts| == 4 && |m.questions| < 0x1_0000 && |m.before| < m.answers as nat
    && AllAsked(m.questions) && AllSkipped(m.before)
    && ShortStrings(m.strings) && GoodRecord(TxtRecord(m))
  }

  function TxtRecord(m: Reply): Record
    requires ShortStrings(m.strings)
  {
    Record(m.name, Dns.TXT, m.classAndTtl, TxtData(m.strings))
  }

  function Header(m: Reply): bytes
    requires GoodReply(m)
  {
    Be16(m.id) + m.flags + Be16(|m.questions|) + Be16(m.answers) + m.counts
  }

  function Answers(m: Reply): bytes
    requires GoodReply(m)
  {
    AllSkippedBytes(m.before) + RecordBytes(TxtRecord(m))
  }

  function Body(m: Reply): bytes
    requires GoodReply(m)
  {
    AllAskedBytes(m.questions) + Answers(m)
  }

  function ReplyBytes(m: Reply): bytes
    requires GoodReply(m)
  {
    Header(m) + Body(m)
  }

  lemma FirstByte(p: bytes, first: byte, a: bytes, rest: bytes)
    requires p <= [first] + a + rest && p != []
    ensures p[0] == first
    ensures |p| >= 1 + |a| ==> p[1..1 + |a|] == a && p[1 + |a|..] <= rest
  {
    PrefixAt([first] + a, rest, p);
    if |p| >= 1 + |a| {
      assert p[..1 + |a|] == [first] + a;
      assert p[1..1 + |a|] == p[..1 + |a|][1..];
    }
  }

  /** However much of a name is there. */
  lemma {:induction false} NameLenPrefix(name: Name, p: bytes, rest: bytes)
    requires GoodName(name) && p <= NameBytes(name) + rest
    ensures NameLen(p) == if |p| < |NameBytes(name)| then None else Some(|NameBytes(name)|)
    decreases |name.labels|
  {
    if name.labels == [] {
      if p != [] { assert p[0] == (name.end + rest)[0] == name.end[0]; }
    } else if p != [] {
      var l, later := name.labels[0], NameBytes(Name(name.labels[1..], name.end));
      Regroup([|l|] + l, later, rest);
      FirstByte(p, |l|, l, later + rest);
      if |p| >= 1 + |l| {
        NameLenPrefix(Name(name.labels[1..], name.end), p[1 + |l|..], rest);
      }
    }
  }

  lemma {:induction false} StringsOfData(strings: seq<bytes>)
    requires ShortStrings(strings)
    ensures Strings(TxtData(strings)) == Some(Flatten(strings))
  {
    if strings != [] {
      var s, later := strings[0], TxtData(strings[1..]);
      FirstByte(TxtData(strings), |s|, s, later);
      PrefixAt([|s|] + s, later, TxtData(strings));
      assert TxtData(strings)[1 + |s|..] == later;
      StringsOfData(strings[1..]);
    }
  }

  /** However much of a record is there. */
  lemma RecordName(r: Record, p: bytes, rest: bytes)
    requires GoodRecord(r) && p <= RecordBytes(r) + rest
    ensures var k := |NameBytes(r.name)|;
            && |RecordBytes(r)| == k + 10 + |r.data|
            && NameLen(p) == (if |p| < k then None else Some(k))
            && (|p| >= k ==> p[k..] <= Fields(r.kind, r.classAndTtl, r.data) + rest)
  {
    hide Fields, NameLen, NameBytes;
    var name, fields := NameBytes(r.name), Fields(r.kind, r.classAndTtl, r.data);
    PassOver(name, fields, rest, p);
    NameLenPrefix(r.name, p, fields + rest);
  }

  lemma RecordKind(r: Record, p: bytes, k: nat, rest: bytes)
    requires GoodRecord(r) && k + 10 <= |p| && p[k..] <= Fields(r.kind, r.classAndTtl, r.data) + rest
    ensures U16(p, k) == r.kind && U16(p, k + 8) as nat == |r.data|
  {
    FieldsAt(r.kind, r.classAndTtl, r.data, p[k..], rest);
    hide U16, Fields;
    U16Drop(p, k, 0);
    U16Drop(p, k, 8);
  }

  lemma RecordData(r: Record, p: bytes, k: nat, rest: bytes)
    requires GoodRecord(r) && k + 10 + |r.data| <= |p| && p[k..] <= Fields(r.kind, r.classAndTtl, r.data) + rest
    ensures p[k + 10..k + 10 + |r.data|] == r.data && p[k + 10 + |r.data|..] <= rest
  {
    hide U16, Fields;
    FieldsAt(r.kind, r.classAndTtl, r.data, p[k..], rest);
    SuffixSlices(p, k, 10, 10 + |r.data|);
  }

  lemma FieldsAt(kind: u16, six: bytes, data: bytes, q: bytes, rest: bytes)
    requires |six| == 6 && |data| < 0x1_0000 && |q| >= 10
    requires q <= Fields(kind, six, data) + rest
    ensures U16(q, 0) == kind && U16(q, 8) as nat == |data|
    ensures |q| >= 10 + |data| ==> q[10..10 + |data|] == data && q[10 + |data|..] <= rest
  {
    var f := Be16(kind) + six + Be16(|data|);
    var whole := f + data + rest;
    assert q[0] == whole[0] == f[0] && q[1] == whole[1] == f[1];
    assert q[8] == whole[8] == f[8] && q[9] == whole[9] == f[9];
    PrefixAt(f + data, rest, q);
    if |q| >= 10 + |data| {
      assert q[..10 + |data|] == f + data;
      assert q[10..10 + |data|] == q[..10 + |data|][10..];
    }
  }

  /** What a reader of some of the bytes should say. */
  function Awaited(text: bytes, needed: nat, p: bytes): Option<bytes> {
    if |p| < needed || text == [] then None else Some(text)
  }

  lemma SkippedPrefix(r: Record, n: nat, p: bytes, rest: bytes)
    requires Skipped(r) && n > 0 && p <= RecordBytes(r) + rest
    ensures FromAnswers(p, n) == if |p| < |RecordBytes(r)| then None else FromAnswers(p[|RecordBytes(r)|..], n - 1)
  {
    hide RecordBytes, NameBytes, NameLen, Strings, U16, Fields;
    var k := |NameBytes(r.name)|;
    RecordName(r, p, rest);
    if k + 10 <= |p| { RecordKind(r, p, k, rest); }
    if |RecordBytes(r)| <= |p| { RecordData(r, p, k, rest); }
  }

  lemma TxtPrefix(m: Reply, n: nat, p: bytes, rest: bytes)
    requires GoodReply(m) && n > 0 && p <= RecordBytes(TxtRecord(m)) + rest
    ensures FromAnswers(p, n) == Awaited(Flatten(m.strings), |RecordBytes(TxtRecord(m))|, p)
  {
    hide RecordBytes, NameBytes, NameLen, Strings, U16, Fields, Flatten, TxtData;
    var r, k := TxtRecord(m), |NameBytes(TxtRecord(m).name)|;
    RecordName(r, p, rest);
    if k + 10 <= |p| { RecordKind(r, p, k, rest); }
    if |RecordBytes(r)| <= |p| { RecordData(r, p, k, rest); }
    StringsOfData(m.strings);
  }

  lemma {:induction false} AnswersPrefix(before: seq<Record>, m: Reply, n: nat, p: bytes, rest: bytes)
    requires AllSkipped(before) && GoodReply(m) && n > |before|
    requires p <= AllSkippedBytes(before) + RecordBytes(TxtRecord(m)) + rest
    ensures FromAnswers(p, n)
         == Awaited(Flatten(m.strings), |AllSkippedBytes(before)| + |RecordBytes(TxtRecord(m))|, p)
    decreases |before|
  {
    hide RecordBytes, FromAnswers, Flatten;
    var txt := RecordBytes(TxtRecord(m));
    if before == [] {
      assert AllSkippedBytes(before) + txt == txt;
      TxtPrefix(m, n, p, rest);
    } else {
      var first, later := RecordBytes(before[0]), AllSkippedBytes(before[1..]);
      Regroup(first, later, txt);
      PassOver(first, later + txt, rest, p);
      SkippedPrefix(before[0], n, p, later + txt + rest);
      if |p| >= |first| {
        AnswersPrefix(before[1..], m, n - 1, p[|first|..], rest);
      }
    }
  }

  lemma AskedPrefix(q: Asked, n: nat, answers: nat, p: bytes, rest: bytes)
    requires GoodAsked(q) && n > 0 && p <= AskedBytes(q) + rest
    ensures FromQuestions(p, n, answers)
         == if |p| < |AskedBytes(q)| then None else FromQuestions(p[|AskedBytes(q)|..], n - 1, answers)
  {
    hide NameBytes, NameLen;
    Regroup(NameBytes(q.name), q.kindAndClass, rest);
    NameLenPrefix(q.name, p, q.kindAndClass + rest);
  }

  lemma {:induction false} QuestionsPrefix(qs: seq<Asked>, m: Reply, p: bytes, rest: bytes)
    requires AllAsked(qs) && GoodReply(m)
    requires p <= AllAskedBytes(qs) + Answers(m) + rest
    ensures FromQuestions(p, |qs|, m.answers as nat)
         == Awaited(Flatten(m.strings), |AllAskedBytes(qs)| + |Answers(m)|, p)
    decreases |qs|
  {
    hide AskedBytes, FromAnswers, Flatten, TxtRecord, GoodRecord, GoodAsked, RecordBytes;
    if qs == [] {
      assert AllAskedBytes(qs) + Answers(m) == Answers(m);
      AnswersPrefix(m.before, m, m.answers as nat, p, rest);
    } else {
      hide Answers, FromQuestions, GoodReply;
      var first, later := AskedBytes(qs[0]), AllAskedBytes(qs[1..]);
      Regroup(first, later, Answers(m));
      PassOver(first, later + Answers(m), rest, p);
      AskedPrefix(qs[0], |qs|, m.answers as nat, p, later + Answers(m) + rest);
      if |p| >= |first| {
        QuestionsPrefix(qs[1..], m, p[|first|..], rest);
      }
    }
  }

  lemma HeaderPrefix(m: Reply, p: bytes, rest: bytes)
    requires GoodReply(m) && p <= Header(m) + rest && |p| >= 12
    ensures |Header(m)| == 12 && U16(p, 4) as nat == |m.questions| && U16(p, 6) == m.answers && p[12..] <= rest
  {
    var h := Header(m);
    var whole := h + rest;
    assert p[4] == whole[4] == h[4] && p[5] == whole[5] == h[5];
    assert p[6] == whole[6] == h[6] && p[7] == whole[7] == h[7];
    PrefixAt(h, rest, p);
  }

  /** However much of a reply has arrived, whatever follows it: no text until its first TXT record is
      complete, and from then on the joined strings of exactly that record, unless they are empty. */
  lemma TextOnceComplete(m: Reply, p: bytes, rest: bytes)
    requires GoodReply(m) && p <= ReplyBytes(m) + rest
    ensures FirstTxt(p) == Awaited(Flatten(m.strings), |ReplyBytes(m)|, p)
  {
    assert |Header(m)| == 12;
    hide Body, FromQuestions, GoodReply, Header, Flatten;
    PassOver(Header(m), Body(m), rest, p);
    if |p| >= 12 {
      HeaderPrefix(m, p, Body(m) + rest);
      BodyPrefix(m, p[12..], rest);
    }
  }

  lemma BodyPrefix(m: Reply, p: bytes, rest: bytes)
    requires GoodReply(m) && p <= Body(m) + rest
    ensures FromQuestions(p, |m.questions|, m.answers as nat) == Awaited(Flatten(m.strings), |Body(m)|, p)
  {
    hide Answers, FromQuestions, Flatten, AllAskedBytes;
    QuestionsPrefix(m.questions, m, p, rest);
  }

  lemma {:induction false} PlainName(vs: seq<bytes>)
    requires GoodLabels(vs)
    ensures Dns.WireLabels(vs) + [0] == NameBytes(Name(vs, [0]))
  {
    if vs != [] {
      PlainName(vs[1..]);
      Regroup([|vs[0]|] + vs[0], Dns.WireLabels(vs[1..]), [0]);
    }
  }

  /** A reply to one plainly spelled question. */
  predicate Answering(m: Reply, vs: seq<bytes>, qtype: u16, qclass: u16) {
    GoodLabels(vs) && m.questions == [Asked(Name(vs, [0]), Be16(qtype) + Be16(qclass))]
  }

  lemma ReplyIsEcho(m: Reply, vs: seq<bytes>, qtype: u16, qclass: u16, rest: bytes)
    requires GoodReply(m) && Answering(m, vs, qtype, qclass)
    ensures ReplyBytes(m) + rest
         == Dns.Echo(m.id, m.flags, Be16(m.answers) + m.counts, vs, qtype, qclass, Answers(m) + rest)
  {
    hide Dns.WireLabels, NameBytes, Be16;
    PlainName(vs);
    var q := Dns.Question(vs, qtype, qclass);
    Regroup(NameBytes(Name(vs, [0])), Be16(qtype), Be16(qclass));
    assert AllAskedBytes(m.questions) == q by { OneAsked(m.questions[0]); }
    Regroup(Be16(m.id) + m.flags + Be16(1), Be16(m.answers), m.counts);
    Regroup(Header(m), Body(m), rest);
    Regroup(q, Answers(m), rest);
    Regroup(Header(m), q, Answers(m) + rest);
  }

  lemma OneAsked(q: Asked)
    requires GoodAsked(q)
    ensures AllAskedBytes([q]) == AskedBytes(q)
  {
    assert AllAskedBytes([q][1..]) == [];
  }

  /** The probe's way back: a reply that answers its question, sent in a packet from the resolver to
      its port, is recognised and read, in any case of the name and whatever surrounds the record. */
  lemma ReplyComesBack(m: Reply, vs: seq<bytes>, name: bytes, qtype: u16, qclass: u16, rest: bytes,
                       ident: u16, resolver: Checksum.Address, me: Checksum.Address, dnsPort: u16, sport: u16)
    requires GoodReply(m) && Answering(m, vs, qtype, qclass)
    requires m.flags[0] >= 0x80 && Dns.SameNames(vs, Dns.Labels(name))
    requires |ReplyBytes(m) + rest| <= Checksum.MAX_UDP_PAYLOAD
    ensures var msg := ReplyBytes(m) + rest;
            var packet := Checksum.Packet(ident, resolver, me, dnsPort, sport, msg);
            && Checksum.UdpPayload(packet, resolver, dnsPort, sport) == Some(msg)
            && Dns.Matches(msg, m.id, name, qtype, qclass)
            && FirstTxt(msg) == if Flatten(m.strings) == [] then None else Some(Flatten(m.strings))
  {
    hide Dns.Matches, Dns.Echo, Dns.Labels, Checksum.Packet, Checksum.UdpPayload, FirstTxt, Flatten, ReplyBytes;
    var msg := ReplyBytes(m) + rest;
    Checksum.PayloadComesBackIff(ident, resolver, me, dnsPort, sport, msg, resolver, dnsPort, sport);
    ReplyIsEcho(m, vs, qtype, qclass, rest);
    Dns.SameLengths(vs, Dns.Labels(name));
    Dns.EchoMatchesIff(m.id, m.flags, Be16(m.answers) + m.counts, vs, name, qtype, qclass, Answers(m) + rest);
    TextOnceComplete(m, msg, rest);
  }
}
