/** Messages as they are written, byte by byte, and what collecting addresses makes of them: RFC 1035, section 4.1. */
module Packets {
  import opened Basics
  import opened Discovery

  type Bytes = seq<Byte>

  /** A domain name: labels, and a pointer to the rest of it if it ends with one. */
  datatype DomainName = DomainName(labels: seq<Bytes>, pointer: Option<(Byte, Byte)>)

  datatype Entry = Entry(name: DomainName, kind: nat, sort: Bytes, life: Bytes, data: Bytes)

  datatype Asked = Asked(name: DomainName, kind: Bytes, sort: Bytes)

  datatype Message = Message(id: Bytes, flags: Bytes, questions: seq<Asked>, answers: seq<Entry>,
    authorities: seq<Entry>, additions: seq<Entry>)

  predicate ValidName(n: DomainName) {
    && |n.labels| <= 127 && (forall l <- n.labels :: 1 <= |l| <= 63)
    && (n.pointer.Some? ==> n.pointer.value.0 >= 192)
  }

  predicate ValidEntry(e: Entry) {
    ValidName(e.name) && e.kind < 65536 && |e.sort| == 2 && |e.life| == 4 && |e.data| < 65536
  }

  predicate ValidAsked(q: Asked) { ValidName(q.name) && |q.kind| == |q.sort| == 2 }

  predicate ValidMessage(m: Message) {
    && |m.id| == |m.flags| == 2
    && |m.questions| < 65536 && |m.answers| < 65536 && |m.authorities| < 65536 && |m.additions| < 65536
    && (forall q <- m.questions :: ValidAsked(q)) && (forall e <- Entries(m) :: ValidEntry(e))
  }

  function Entries(m: Message): seq<Entry> { m.answers + m.authorities + m.additions }

  /** The more significant byte comes first. */
  function Two(n: nat): Bytes
    requires n < 65536
  {
    [n / 256, n % 256]
  }

  function LabelBytes(labels: seq<Bytes>): Bytes
    requires forall l <- labels :: 1 <= |l| <= 63
  {
    if labels == [] then [] else [|labels[0]|] + labels[0] + LabelBytes(labels[1..])
  }

  function EndBytes(pointer: Option<(Byte, Byte)>): Bytes {
    if pointer.None? then [0] else [pointer.value.0, pointer.value.1]
  }

  function NameBytes(n: DomainName): Bytes
    requires ValidName(n)
  {
    LabelBytes(n.labels) + EndBytes(n.pointer)
  }

  function EntryBytes(e: Entry): Bytes
    requires ValidEntry(e)
  {
    NameBytes(e.name) + (Two(e.kind) + e.sort + e.life + Two(|e.data|) + e.data)
  }

  function EntriesBytes(entries: seq<Entry>): Bytes
    requires forall e <- entries :: ValidEntry(e)
  {
    if entries == [] then [] else EntryBytes(entries[0]) + EntriesBytes(entries[1..])
  }

  function OneAsked(q: Asked): Bytes
    requires ValidAsked(q)
  {
    NameBytes(q.name) + (q.kind + q.sort)
  }

  function AskedBytes(questions: seq<Asked>): Bytes
    requires forall q <- questions :: ValidAsked(q)
  {
    if questions == [] then [] else OneAsked(questions[0]) + AskedBytes(questions[1..])
  }

  function HeaderBytes(m: Message): Bytes
    requires ValidMessage(m)
  {
    m.id + m.flags + Two(|m.questions|) + Two(|m.answers|) + Two(|m.authorities|) + Two(|m.additions|)
  }

  function Contents(entries: seq<Entry>): (r: seq<Record>)
    ensures |r| == |entries| && forall i :: 0 <= i < |r| ==> r[i] == Record(entries[i].kind, entries[i].data)
  {
    seq(|entries|, i requires 0 <= i < |entries| => Record(entries[i].kind, entries[i].data))
  }

  /** A piece of the bytes stands at a position. */
  predicate Stands(d: Bytes, i: nat, piece: Bytes) { i + |piece| <= |d| && d[i..i + |piece|] == piece }

  lemma StandsSplit(d: Bytes, i: nat, a: Bytes, b: Bytes)
    ensures Stands(d, i, a + b) <==> Stands(d, i, a) && Stands(d, i + |a|, b)
  {
    if i + |a| + |b| <= |d| {
      var piece := d[i..i + |a| + |b|];
      assert piece[..|a|] == d[i..i + |a|] && piece[|a|..] == d[i + |a|..i + |a| + |b|];
      assert (a + b)[..|a|] == a && (a + b)[|a|..] == b;
      assert piece == piece[..|a|] + piece[|a|..];
    }
  }

  lemma StandsTwo(d: Bytes, i: nat, n: nat)
    requires n < 65536 && Stands(d, i, Two(n))
    ensures Read16(d, i) == n
  {
    var piece := d[i..i + 2];
    assert piece[0] == d[i] && piece[1] == d[i + 1];
  }

  lemma {:induction false} NameStands(d: Bytes, i: nat, labels: seq<Bytes>, pointer: Option<(Byte, Byte)>)
    requires (forall l <- labels :: 1 <= |l| <= 63) && (pointer.Some? ==> pointer.value.0 >= 192)
    requires Stands(d, i, LabelBytes(labels) + EndBytes(pointer))
    ensures Name(d, i, i + |LabelBytes(labels)| + |EndBytes(pointer)|, |labels|)
    decreases |labels|
  {
    hide Stands;
    StandsSplit(d, i, LabelBytes(labels), EndBytes(pointer));
    if labels == [] {
      StandsAt(d, i, EndBytes(pointer));
      assert d[i + 0] == EndBytes(pointer)[0];
    } else {
      var first, rest := [|labels[0]|] + labels[0], LabelBytes(labels[1..]);
      StandsSplit(d, i, first, rest);
      StandsAt(d, i, first);
      assert d[i + 0] == first[0] == |labels[0]|;
      assert first + (rest + EndBytes(pointer)) == LabelBytes(labels) + EndBytes(pointer);
      StandsSplit(d, i + |first|, rest, EndBytes(pointer));
      NameStands(d, i + |first|, labels[1..], pointer);
    }
  }

  lemma StandsAt(d: Bytes, i: nat, piece: Bytes)
    requires Stands(d, i, piece)
    ensures i + |piece| <= |d| && forall k :: 0 <= k < |piece| ==> d[i + k] == piece[k]
  {
    forall k | 0 <= k < |piece| ensures d[i + k] == piece[k] { assert d[i..i + |piece|][k] == d[i + k]; }
  }

  lemma NameIsShort(d: Bytes, i: nat, n: DomainName)
    requires ValidName(n) && Stands(d, i, NameBytes(n))
    ensures ShortName(d, i, i + |NameBytes(n)|)
  {
    NameStands(d, i, n.labels, n.pointer);
    assert |n.labels| < MAXIMUM_LABELS;
  }

  lemma EntryStands(d: Bytes, i: nat, e: Entry)
    requires ValidEntry(e) && Stands(d, i, EntryBytes(e))
    ensures ResourceRecord(d, i, i + |EntryBytes(e)|, Record(e.kind, e.data))
  {
    hide Stands, NameBytes, ShortName;
    var k := i + |NameBytes(e.name)|;
    var front := Two(e.kind) + e.sort + e.life;
    StandsSplit(d, i, NameBytes(e.name), front + Two(|e.data|) + e.data);
    NameIsShort(d, i, e.name);
    StandsSplit(d, k, front + Two(|e.data|), e.data);
    StandsSplit(d, k, front, Two(|e.data|));
    StandsSplit(d, k, Two(e.kind) + e.sort, e.life);
    StandsSplit(d, k, Two(e.kind), e.sort);
    StandsTwo(d, k, e.kind);
    StandsTwo(d, k + 8, |e.data|);
    assert Stands(d, k + 10, e.data) ==> d[k + 10..k + 10 + |e.data|] == e.data by { StandsIs(d, k + 10, e.data); }
  }

  lemma StandsIs(d: Bytes, i: nat, piece: Bytes)
    ensures Stands(d, i, piece) <==> i + |piece| <= |d| && d[i..i + |piece|] == piece
  {
  }

  lemma {:induction false} EntriesStand(d: Bytes, i: nat, entries: seq<Entry>)
    requires (forall e <- entries :: ValidEntry(e)) && Stands(d, i, EntriesBytes(entries))
    ensures Records(d, i, i + |EntriesBytes(entries)|, Contents(entries))
    decreases |entries|
  {
    hide ResourceRecord, EntryBytes;
    if entries != [] {
      var first, rest := EntryBytes(entries[0]), EntriesBytes(entries[1..]);
      hide Stands;
      StandsSplit(d, i, first, rest);
      EntryStands(d, i, entries[0]);
      EntriesStand(d, i + |first|, entries[1..]);
      assert Contents(entries)[1..] == Contents(entries[1..]);
    }
  }

  lemma {:induction false} AskedStand(d: Bytes, i: nat, questions: seq<Asked>)
    requires (forall q <- questions :: ValidAsked(q)) && Stands(d, i, AskedBytes(questions))
    ensures Questions(d, i, i + |AskedBytes(questions)|, |questions|)
    decreases |questions|
  {
    hide Question, OneAsked;
    if questions != [] {
      var first, rest := OneAsked(questions[0]), AskedBytes(questions[1..]);
      hide Stands;
      StandsSplit(d, i, first, rest);
      QuestionStands(d, i, questions[0]);
      AskedStand(d, i + |first|, questions[1..]);
    }
  }

  lemma QuestionStands(d: Bytes, i: nat, q: Asked)
    requires ValidAsked(q) && Stands(d, i, OneAsked(q))
    ensures Question(d, i, i + |OneAsked(q)|)
  {
    hide Stands, ShortName, NameBytes;
    StandsAt(d, i, OneAsked(q));
    StandsSplit(d, i, NameBytes(q.name), q.kind + q.sort);
    NameIsShort(d, i, q.name);
  }

  lemma HeaderStands(d: Bytes, m: Message)
    requires ValidMessage(m) && Stands(d, 0, HeaderBytes(m))
    ensures |d| >= 12 && d[2] == m.flags[0] && Read16(d, 4) == |m.questions| && RecordCount(d) == |Entries(m)|
  {
    StandsAt(d, 0, HeaderBytes(m));
    var h := HeaderBytes(m);
    assert h[2] == m.flags[0];
    assert h[4] == |m.questions| / 256 && h[5] == |m.questions| % 256;
    assert h[6] == |m.answers| / 256 && h[7] == |m.answers| % 256;
    assert h[8] == |m.authorities| / 256 && h[9] == |m.authorities| % 256;
    assert h[10] == |m.additions| / 256 && h[11] == |m.additions| % 256;
  }

  /** A message that is written whole contributes all its records if it is a response, and nothing otherwise. */
  lemma MessageReads(m: Message, tail: Bytes)
    requires ValidMessage(m)
    ensures Contribution(Front(m, Entries(m)) + tail) == if m.flags[0] >= 128 then Contents(Entries(m)) else []
  {
    var d := Front(m, Entries(m)) + tail;
    FrontHeader(m, Entries(m), tail);
    var k := FrontBody(m, Entries(m), tail);
    hide Questions, Records, Contribution, Front, Read16, RecordCount, Contents, Entries;
    if m.flags[0] >= 128 {
      assert Response(d, Contents(Entries(m)));
      ResponseContributes(d, Contents(Entries(m)));
    } else {
      NotResponse(d);
    }
  }

  lemma NotResponse(d: Bytes)
    requires |d| >= 12 && d[2] < 128
    ensures Contribution(d) == []
  {
  }

  lemma RowStands(a: Bytes, b: Bytes, c: Bytes, tail: Bytes)
    ensures var d := a + b + c + tail;
      Stands(d, 0, a) && Stands(d, |a|, b) && Stands(d, |a| + |b|, c) && Stands(d, |a| + |b| + |c|, tail)
  {
  }

  lemma BodyStands(h: Bytes, questions: seq<Asked>, entries: seq<Entry>, tail: Bytes)
    requires |h| == 12 && (forall q <- questions :: ValidAsked(q)) && (forall e <- entries :: ValidEntry(e))
    ensures var d, k := h + AskedBytes(questions) + EntriesBytes(entries) + tail, 12 + |AskedBytes(questions)|;
      Questions(d, 12, k, |questions|) && Records(d, k, k + |EntriesBytes(entries)|, Contents(entries))
  {
    hide AskedBytes, EntriesBytes, Questions, Records, Contents, Stands, ValidAsked, ValidEntry;
    var q, e := AskedBytes(questions), EntriesBytes(entries);
    var d := h + q + e + tail;
    RowStands(h, q, e, tail);
    AskedStand(d, 12, questions);
    EntriesStand(d, 12 + |q|, entries);
  }

  /** The header, the questions and some of the records. */
  function Front(m: Message, entries: seq<Entry>): Bytes
    requires ValidMessage(m) && forall e <- entries :: ValidEntry(e)
  {
    HeaderBytes(m) + AskedBytes(m.questions) + EntriesBytes(entries)
  }

  lemma FrontHeader(m: Message, entries: seq<Entry>, tail: Bytes)
    requires ValidMessage(m) && forall e <- entries :: ValidEntry(e)
    ensures var d := Front(m, entries) + tail;
      |d| >= 12 && d[2] == m.flags[0] && Read16(d, 4) == |m.questions| && RecordCount(d) == |Entries(m)|
  {
    hide Read16, RecordCount, Stands, AskedBytes, EntriesBytes, HeaderBytes;
    RowStands(HeaderBytes(m), AskedBytes(m.questions), EntriesBytes(entries), tail);
    HeaderStands(Front(m, entries) + tail, m);
  }

  lemma FrontBody(m: Message, entries: seq<Entry>, tail: Bytes) returns (k: nat)
    requires ValidMessage(m) && forall e <- entries :: ValidEntry(e)
    ensures var d := Front(m, entries) + tail;
      Questions(d, 12, k, |m.questions|) && Records(d, k, |Front(m, entries)|, Contents(entries))
  {
    hide AskedBytes, EntriesBytes, Questions, Records, Contents;
    BodyStands(HeaderBytes(m), m.questions, entries, tail);
    k := 12 + |AskedBytes(m.questions)|;
  }

  lemma {:induction false} NameEndGrows(d: Bytes, more: Bytes, at: nat, labels: nat)
    requires labels <= MAXIMUM_LABELS && NameEnd(d, at, labels).Some?
    ensures NameEnd(d + more, at, labels) == NameEnd(d, at, labels)
    decreases MAXIMUM_LABELS - labels
  {
    if 0 < d[at] < 64 { NameEndGrows(d, more, at + d[at] + 1, labels + 1); }
  }

  lemma RecordGrows(d: Bytes, more: Bytes, at: nat)
    requires RecordAt(d, at).Some?
    ensures RecordAt(d + more, at) == RecordAt(d, at)
  {
    hide NameEnd;
    NameEndGrows(d, more, at, 0);
    var k := NameEnd(d, at, 0).value;
    var end := k + 10 + Read16(d, k + 8);
    assert (d + more)[k + 10..end] == d[k + 10..end];
  }

  /** No record can be read where one is cut short. */
  lemma CutRecord(d: Bytes, at: nat, e: Entry, more: Bytes)
    requires ValidEntry(e) && Stands(d + more, at, EntryBytes(e)) && |d| < at + |EntryBytes(e)|
    ensures RecordAt(d, at).None?
  {
    hide Stands, EntryBytes, ResourceRecord;
    var r := RecordAt(d, at);
    EntryStands(d + more, at, e);
    RecordReads(d + more, at, at + |EntryBytes(e)|, Record(e.kind, e.data));
    if r.Some? {
      EndsWithin(d, at);
      hide RecordAt;
      RecordGrows(d, more, at);
    }
  }

  lemma EndsWithin(d: Bytes, at: nat)
    requires RecordAt(d, at).Some?
    ensures RecordAt(d, at).value.1 <= |d|
  {
    hide NameEnd, Read16;
  }

  lemma {:induction false} RecordsStop(d: Bytes, i: nat, j: nat, records: seq<Record>, n: nat)
    requires Records(d, i, j, records) && n > |records| && RecordAt(d, j).None?
    ensures WholeRecords(d, i, n) == records
    decreases |records|
  {
    hide RecordAt, ResourceRecord;
    if records != [] {
      var k: nat :| ResourceRecord(d, i, k, records[0]) && Records(d, k, j, records[1..]);
      RecordReads(d, i, k, records[0]);
      RecordsStop(d, k, j, records[1..], n - 1);
    }
  }

  /** A response that breaks off within a record contributes the records in front of it. */
  lemma CutMessageReads(m: Message, front: seq<Entry>, e: Entry, more: seq<Entry>, cut: nat)
    requires ValidMessage(m) && m.flags[0] >= 128 && Entries(m) == front + [e] + more
    requires (forall x <- front :: ValidEntry(x)) && ValidEntry(e) && cut < |EntryBytes(e)|
    ensures Contribution(Front(m, front) + EntryBytes(e)[..cut]) == Contents(front)
  {
    hide EntryBytes, ValidEntry, Front, Questions, Records, RecordAt, Read16, RecordCount, Contribution;
    var part := EntryBytes(e)[..cut];
    FrontHeader(m, front, part);
    var k := FrontBody(m, front, part);
    CutHere(Front(m, front), e, cut);
    assert |Entries(m)| > |front|;
    hide Entries, ValidMessage;
    Stopped(Front(m, front) + part, k, |m.questions|, |Front(m, front)|, Contents(front));
  }

  lemma CutHere(front: Bytes, e: Entry, cut: nat)
    requires ValidEntry(e) && cut < |EntryBytes(e)|
    ensures RecordAt(front + EntryBytes(e)[..cut], |front|).None?
  {
    hide EntryBytes, ValidEntry, RecordAt;
    var piece := EntryBytes(e);
    CutPiece(front, piece, cut);
    hide Stands;
    CutRecord(front + piece[..cut], |front|, e, piece[cut..]);
  }

  lemma CutPiece(front: Bytes, piece: Bytes, cut: nat)
    requires cut < |piece|
    ensures Stands(front + piece[..cut] + piece[cut..], |front|, piece)
  {
    assert piece == piece[..cut] + piece[cut..];
    assert front + piece[..cut] + piece[cut..] == front + piece;
  }

  lemma Stopped(d: Bytes, k: nat, questions: nat, j: nat, records: seq<Record>)
    requires |d| >= 12 && d[2] >= 128 && Read16(d, 4) == questions && RecordCount(d) > |records|
    requires Questions(d, 12, k, questions) && Records(d, k, j, records) && RecordAt(d, j).None?
    ensures Contribution(d) == records
  {
    hide Questions, Records, RecordAt, RecordCount, Read16, WholeRecords, QuestionsEnd;
    QuestionsRead(d, 12, k, questions);
    RecordsStop(d, k, j, records, RecordCount(d));
  }

  /** Labels from the 128th on, or a length from 64 to 191, make a name unreadable. */
  lemma {:induction false} NoName(d: Bytes, i: nat, labels: seq<Bytes>, before: nat)
    requires (forall l <- labels :: 1 <= |l| <= 63) && Stands(d, i, LabelBytes(labels)) && before <= 128
    requires before + |labels| >= 128 || (|d| > i + |LabelBytes(labels)| && 64 <= d[i + |LabelBytes(labels)|] < 192)
    ensures NameEnd(d, i, before).None?
    decreases |labels|
  {
    if labels != [] && before < 128 {
      var first, rest := [|labels[0]|] + labels[0], LabelBytes(labels[1..]);
      StandsSplit(d, i, first, rest);
      StandsAt(d, i, first);
      assert d[i + 0] == first[0] == |labels[0]|;
      NoName(d, i + |first|, labels[1..], before + 1);
    }
  }

  /** Only four bytes of data under type 1 are an address, and the first byte counts most. */
  lemma NamedIs(r: Record, a: Byte, b: Byte, c: Byte, e: Byte)
    ensures r == Record(1, [a, b, c, e]) ==> Named(r) == a * 16777216 + b * 65536 + c * 256 + e
    ensures r.kind != 1 || |r.data| != 4 ==> Named(r) == 0
  {
  }
}
