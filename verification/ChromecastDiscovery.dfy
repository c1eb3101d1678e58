/** Addresses in DNS messages: RFC 1035, section 4.1. */
module Discovery {
  import opened Basics

  type Byte = x: int | 0 <= x < 256

  const MAXIMUM_LABELS := 128

  function Read16(d: seq<Byte>, at: nat): nat
    requires at + 2 <= |d|
  {
    d[at] as int * 256 + d[at + 1]
  }

  function Read32(d: seq<Byte>, at: nat): nat
    requires at + 4 <= |d|
  {
    ((d[at] as int * 256 + d[at + 1]) * 256 + d[at + 2]) * 256 + d[at + 3]
  }

  // The format.

  /** A name of some labels that ends with the root or with a pointer. */
  ghost predicate Name(d: seq<Byte>, i: nat, j: nat, labels: nat)
    decreases labels
  {
    i < j <= |d| &&
    if labels > 0 then 0 < d[i] < 64 && Name(d, i + d[i] + 1, j, labels - 1)
    else if d[i] == 0 then j == i + 1
    else d[i] >= 192 && j == i + 2
  }

  /** A name of fewer labels than there is room for. */
  ghost predicate NameWithin(d: seq<Byte>, i: nat, j: nat, room: nat) {
    exists labels: nat :: labels < room && Name(d, i, j, labels)
  }

  ghost predicate ShortName(d: seq<Byte>, i: nat, j: nat) { NameWithin(d, i, j, MAXIMUM_LABELS) }

  /** Section 4.1.2: a name, a type and a class. */
  ghost predicate Question(d: seq<Byte>, i: nat, j: nat) {
    i + 4 <= j <= |d| && ShortName(d, i, j - 4)
  }

  ghost predicate Questions(d: seq<Byte>, i: nat, j: nat, n: nat)
    decreases n
  {
    if n == 0 then i == j <= |d| else exists k: nat :: Question(d, i, k) && Questions(d, k, j, n - 1)
  }

  datatype Record = Record(kind: nat, data: seq<Byte>) {
    predicate IsAddress() { kind == 1 && |data| == 4 }

    function Address(): nat
      requires IsAddress()
    {
      Read32(data, 0)
    }
  }

  /** Section 4.1.3: a name, a type, a class, a time to live, a length and that much data. */
  ghost predicate ResourceRecord(d: seq<Byte>, i: nat, j: nat, r: Record) {
    exists k: nat :: ShortName(d, i, k) && k + 10 + |r.data| == j <= |d| && Read16(d, k) == r.kind &&
      Read16(d, k + 8) == |r.data| && d[k + 10..j] == r.data
  }

  ghost predicate Records(d: seq<Byte>, i: nat, j: nat, records: seq<Record>)
    decreases |records|
  {
    if records == [] then i == j <= |d|
    else exists k: nat :: ResourceRecord(d, i, k, records[0]) && Records(d, k, j, records[1..])
  }

  /** Section 4.1.1: what a header counts, over all three sections of records. */
  function RecordCount(d: seq<Byte>): nat
    requires |d| >= 12
  {
    Read16(d, 6) + Read16(d, 8) + Read16(d, 10)
  }

  /** A response: a header, its questions and its records, perhaps with bytes behind them. */
  ghost predicate Response(d: seq<Byte>, records: seq<Record>) {
    |d| >= 12 && d[2] >= 128 && |records| == RecordCount(d) &&
    exists k: nat, j: nat :: Questions(d, 12, k, Read16(d, 4)) && Records(d, k, j, records)
  }

  // Lists of addresses.

  function AddUnique(found: seq<nat>, address: nat): seq<nat> {
    if address != 0 && address !in found then found + [address] else found
  }

  function AddRecord(found: seq<nat>, r: Record): seq<nat> {
    if r.IsAddress() then AddUnique(found, r.Address()) else found
  }

  function AddRecords(found: seq<nat>, records: seq<Record>): seq<nat>
    decreases |records|
  {
    if records == [] then found else AddRecords(AddRecord(found, records[0]), records[1..])
  }

  /** The address that a record names, or zero. */
  function Named(r: Record): nat {
    if r.IsAddress() then r.Address() else 0
  }

  predicate Distinct(s: seq<nat>) {
    forall i, j :: 0 <= i < j < |s| ==> s[i] != s[j]
  }

  ghost predicate Names(records: seq<Record>, address: nat) {
    exists k :: 0 <= k < |records| && Named(records[k]) == address
  }

  /** The record at k is the first to name an address. */
  ghost predicate FirstNames(records: seq<Record>, k: nat, address: nat) {
    k < |records| && Named(records[k]) == address && forall m :: 0 <= m < k ==> Named(records[m]) != address
  }

  /** Adding keeps the old list in front and adds every address that is named, except zero, exactly once. */
  lemma {:induction false} AddsEachOnce(found: seq<nat>, records: seq<Record>)
    ensures var r := AddRecords(found, records);
      && found <= r
      && (Distinct(found) ==> Distinct(r))
      && (forall x :: |found| <= x < |r| ==> r[x] !in found)
      && (forall a: nat :: a in r <==> a in found || (a != 0 && Names(records, a)))
    decreases |records|
  {
    if records != [] {
      var first, rest := records[0], records[1..];
      AddsEachOnce(AddRecord(found, first), rest);
      forall a: nat ensures Names(records, a) <==> Named(first) == a || Names(rest, a) { NamesSplit(records, a); }
      hide Record.IsAddress, Record.Address, Names;
    }
  }

  lemma NamesSplit(records: seq<Record>, a: nat)
    requires records != []
    ensures Names(records, a) <==> Named(records[0]) == a || Names(records[1..], a)
  {
  }

  /** Records at increasing positions are the first to name each of the addresses. */
  ghost predicate Orders(records: seq<Record>, added: seq<nat>, positions: seq<nat>) {
    && |added| == |positions|
    && (forall x, y :: 0 <= x < y < |positions| ==> positions[x] < positions[y])
    && (forall x :: 0 <= x < |positions| ==> added[x] != 0 && FirstNames(records, positions[x], added[x]))
  }

  lemma AddRecordIs(found: seq<nat>, r: Record)
    ensures AddRecord(found, r) == if Named(r) != 0 && Named(r) !in found then found + [Named(r)] else found
  {
  }

  function Moved(positions: seq<nat>): (r: seq<nat>)
    ensures |r| == |positions| && forall x :: 0 <= x < |r| ==> r[x] == positions[x] + 1
  {
    seq(|positions|, x requires 0 <= x < |positions| => positions[x] + 1)
  }

  lemma OrderMoves(records: seq<Record>, added: seq<nat>, positions: seq<nat>)
    requires records != [] && Orders(records[1..], added, positions) && Named(records[0]) !in added
    ensures Orders(records, added, Moved(positions))
  {
  }

  lemma OrderGrows(records: seq<Record>, added: seq<nat>, positions: seq<nat>)
    requires records != [] && Orders(records, added, Moved(positions)) && Named(records[0]) != 0
    ensures Orders(records, [Named(records[0])] + added, [0] + Moved(positions))
  {
  }

  lemma FirstOrders(found: seq<nat>, records: seq<Record>, later: seq<nat>) returns (positions: seq<nat>)
    requires records != []
    requires var next := AddRecord(found, records[0]); var r := AddRecords(next, records[1..]);
      next <= r && (forall x :: |next| <= x < |r| ==> r[x] !in next) && Orders(records[1..], r[|next|..], later)
    requires found <= AddRecords(found, records)
    requires forall x :: |found| <= x < |AddRecords(found, records)| ==> AddRecords(found, records)[x] != 0
    ensures Orders(records, AddRecords(found, records)[|found|..], positions)
  {
    var first, next := records[0], AddRecord(found, records[0]);
    var r := AddRecords(found, records);
    AddRecordIs(found, first);
    assert r == AddRecords(next, records[1..]);
    hide AddRecord, AddRecords, Named, FirstNames, Orders, Moved;
    assert forall x :: |next| <= x < |r| ==> r[x] != 0;
    assert Named(first) !in r[|next|..];
    OrderMoves(records, r[|next|..], later);
    if next == found {
      positions := Moved(later);
    } else {
      OrderGrows(records, r[|next|..], later);
      positions := [0] + Moved(later);
      assert r[|found|..] == [Named(first)] + r[|next|..];
    }
  }

  /** The added addresses come in the order in which records first name them. */
  lemma {:induction false} AddsInOrder(found: seq<nat>, records: seq<Record>) returns (positions: seq<nat>)
    ensures found <= AddRecords(found, records)
    ensures Orders(records, AddRecords(found, records)[|found|..], positions)
    decreases |records|
  {
    hide AddRecord, Names, Distinct, Named;
    positions := [];
    AddsEachOnce(found, records);
    if records != [] {
      var next, rest := AddRecord(found, records[0]), records[1..];
      positions := AddsInOrder(next, rest);
      AddsEachOnce(next, rest);
      hide Orders;
      positions := FirstOrders(found, records, positions);
    }
  }

  // Reading.

  /** Behind a name, if it ends within so many labels. */
  function NameEnd(d: seq<Byte>, at: nat, labels: nat): (r: Option<nat>)
    requires labels <= MAXIMUM_LABELS
    ensures r.Some? ==> at < r.value <= |d|
    decreases MAXIMUM_LABELS - labels
  {
    if at >= |d| || labels == MAXIMUM_LABELS then None
    else if d[at] == 0 then Some(at + 1)
    else if d[at] >= 192 then if at + 2 <= |d| then Some(at + 2) else None
    else if d[at] >= 64 then None
    else NameEnd(d, at + d[at] + 1, labels + 1)
  }

  lemma LabelAdds(d: seq<Byte>, at: nat, j: nat, room: nat)
    requires at < |d| && 0 < d[at] < 64 && room > 0
    ensures NameWithin(d, at, j, room) <==> NameWithin(d, at + d[at] + 1, j, room - 1)
  {
    var next: nat := at + d[at] + 1;
    if NameWithin(d, next, j, room - 1) {
      var n: nat :| n < room - 1 && Name(d, next, j, n);
      assert Name(d, at, j, n + 1);
    }
    if NameWithin(d, at, j, room) {
      var n: nat :| n < room && Name(d, at, j, n);
      assert Name(d, next, j, n - 1);
    }
  }

  lemma {:induction false} NameEndExact(d: seq<Byte>, at: nat, labels: nat, j: nat)
    requires labels <= MAXIMUM_LABELS
    ensures NameEnd(d, at, labels) == Some(j) <==> NameWithin(d, at, j, MAXIMUM_LABELS - labels)
    decreases MAXIMUM_LABELS - labels
  {
    if at < |d| && 0 < d[at] < 64 && labels < MAXIMUM_LABELS {
      hide NameWithin;
      LabelAdds(d, at, j, MAXIMUM_LABELS - labels);
      NameEndExact(d, at + d[at] + 1, labels + 1, j);
    } else if NameEnd(d, at, labels) == Some(j) {
      var none: nat := 0;
      assert Name(d, at, j, none);
    }
  }

  method SkipName(d: seq<Byte>, start: nat) returns (end: Option<nat>)
    ensures end == NameEnd(d, start, 0)
    ensures forall j: nat :: end == Some(j) <==> ShortName(d, start, j)
  {
    forall j: nat ensures NameEnd(d, start, 0) == Some(j) <==> ShortName(d, start, j) { NameEndExact(d, start, 0, j); }
    var at := start;
    var labels := 0;
    while at < |d| && labels < MAXIMUM_LABELS
      invariant labels <= MAXIMUM_LABELS && NameEnd(d, at, labels) == NameEnd(d, start, 0)
    {
      var length := d[at];
      if length == 0 {
        return Some(at + 1);
      }
      if length >= 192 {
        return if at + 2 <= |d| then Some(at + 2) else None;
      }
      if length >= 64 {
        return None;
      }
      at := at + length + 1;
      labels := labels + 1;
    }
    return None;
  }

  /** Behind so many questions. */
  function QuestionsEnd(d: seq<Byte>, at: nat, n: nat): (r: Option<nat>)
    ensures r.Some? && at <= |d| ==> at <= r.value <= |d|
    decreases n
  {
    if n == 0 then Some(at)
    else
      var k := NameEnd(d, at, 0);
      if k.None? || k.value + 4 > |d| then None else QuestionsEnd(d, k.value + 4, n - 1)
  }

  /** The whole records among the next so many, up to the first that is malformed or cut short. */
  function WholeRecords(d: seq<Byte>, at: nat, n: nat): seq<Record>
    decreases n
  {
    if n == 0 then []
    else
      var r := RecordAt(d, at);
      if r.None? then [] else [r.value.0] + WholeRecords(d, r.value.1, n - 1)
  }

  function RecordAt(d: seq<Byte>, at: nat): Option<(Record, nat)> {
    var k := NameEnd(d, at, 0);
    if k.None? || k.value + 10 > |d| then None
    else
      var end := k.value + 10 + Read16(d, k.value + 8);
      if end > |d| then None else Some((Record(Read16(d, k.value), d[k.value + 10..end]), end))
  }

  /** What any packet contributes: nothing unless it is a response with sound questions. */
  function Contribution(d: seq<Byte>): seq<Record> {
    if |d| < 12 || d[2] < 128 then []
    else
      var at := QuestionsEnd(d, 12, Read16(d, 4));
      if at.None? then [] else WholeRecords(d, at.value, RecordCount(d))
  }

  method AddAddress(list: seq<nat>, address: nat) returns (r: seq<nat>)
    ensures r == AddUnique(list, address)
  {
    r := list;
    if address != 0 && address !in list {
      r := r + [address];
    }
  }

  method CollectAddresses(d: seq<Byte>, found: seq<nat>) returns (out: seq<nat>)
    ensures out == AddRecords(found, Contribution(d))
    ensures forall records :: Response(d, records) ==> out == AddRecords(found, records)
  {
    hide AddUnique, NameEnd, RecordAt, Read16, ShortName, Read32;
    forall records | Response(d, records) ensures Contribution(d) == records { ResponseContributes(d, records); }
    out := found;
    if |d| < 12 || d[2] < 128 {
      return;
    }
    var questions := Read16(d, 4);
    var records := Read16(d, 6) + Read16(d, 8) + Read16(d, 10);
    var at: nat := 12;
    for i := 0 to questions
      invariant at <= |d| && QuestionsEnd(d, at, questions - i) == QuestionsEnd(d, 12, questions)
    {
      var name := SkipName(d, at);
      if name.None? || name.value + 4 > |d| {
        return;
      }
      at := name.value + 4;
    }
    for i := 0 to records
      invariant at <= |d|
      invariant AddRecords(out, WholeRecords(d, at, records - i)) == AddRecords(found, Contribution(d))
    {
      ghost var before := at;
      var name := SkipName(d, at);
      assert name.None? || name.value + 10 > |d| ==> RecordAt(d, before).None? by { RecordAtIs(d, before); }
      if name.None? || name.value + 10 > |d| {
        return;
      }
      at := name.value;
      var kind, length := Read16(d, at), Read16(d, at + 8);
      at := at + 10;
      ghost var whole := at + length <= |d|;
      assert RecordAt(d, before) == if whole then Some((Record(kind, d[at..at + length]), at + length)) else None by {
        RecordAtIs(d, before);
      }
      if at + length > |d| {
        return;
      }
      if kind == 1 && length == 4 {
        AddressIs(d, at);
        out := AddAddress(out, Read32(d, at));
      }
      at := at + length;
    }
  }

  lemma AddressIs(d: seq<Byte>, at: nat)
    requires at + 4 <= |d|
    ensures Read32(d[at..at + 4], 0) == Read32(d, at)
  {
  }

  lemma RecordAtIs(d: seq<Byte>, at: nat)
    ensures var k := NameEnd(d, at, 0);
      RecordAt(d, at) ==
        if k.None? || k.value + 10 > |d| then None
        else
          var end := k.value + 10 + Read16(d, k.value + 8);
          if end > |d| then None else Some((Record(Read16(d, k.value), d[k.value + 10..end]), end))
  {
  }

  // Well-formed messages.

  lemma {:induction false} QuestionsRead(d: seq<Byte>, i: nat, j: nat, n: nat)
    requires Questions(d, i, j, n)
    ensures QuestionsEnd(d, i, n) == Some(j)
    decreases n
  {
    hide NameEnd;
    if n > 0 {
      var k: nat :| Question(d, i, k) && Questions(d, k, j, n - 1);
      NameEndExact(d, i, 0, k - 4);
      QuestionsRead(d, k, j, n - 1);
    }
  }

  lemma RecordReads(d: seq<Byte>, i: nat, j: nat, r: Record)
    requires ResourceRecord(d, i, j, r)
    ensures RecordAt(d, i) == Some((r, j))
  {
    hide NameEnd, Read16;
    var k: nat :| ShortName(d, i, k) && k + 10 + |r.data| == j <= |d| && Read16(d, k) == r.kind &&
      Read16(d, k + 8) == |r.data| && d[k + 10..j] == r.data;
    NameEndExact(d, i, 0, k);
  }

  lemma {:induction false} RecordsRead(d: seq<Byte>, i: nat, j: nat, records: seq<Record>)
    requires Records(d, i, j, records)
    ensures WholeRecords(d, i, |records|) == records
    decreases |records|
  {
    hide RecordAt, ResourceRecord;
    if records != [] {
      var k: nat :| ResourceRecord(d, i, k, records[0]) && Records(d, k, j, records[1..]);
      RecordReads(d, i, k, records[0]);
      RecordsRead(d, k, j, records[1..]);
    }
  }

  /** A well-formed response contributes exactly its records, in the order of the message. */
  lemma ResponseContributes(d: seq<Byte>, records: seq<Record>)
    requires Response(d, records)
    ensures Contribution(d) == records
  {
    hide Read16, Questions, Records, WholeRecords, QuestionsEnd;
    var k: nat, j: nat :| Questions(d, 12, k, Read16(d, 4)) && Records(d, k, j, records);
    QuestionsRead(d, 12, k, Read16(d, 4));
    RecordsRead(d, k, j, records);
  }

  /** Collecting from a response adds its non-zero IPv4 addresses, each once, in order of first mention. */
  lemma CollectsAddresses(d: seq<Byte>, records: seq<Record>, found: seq<nat>) returns (positions: seq<nat>)
    requires Response(d, records)
    ensures var r := AddRecords(found, Contribution(d));
      && found <= r && Orders(records, r[|found|..], positions)
      && (Distinct(found) ==> Distinct(r))
      && (forall a: nat :: a in r <==> a in found || (a != 0 && Names(records, a)))
  {
    hide Contribution, Response, Names, Orders, AddRecords;
    ResponseContributes(d, records);
    AddsEachOnce(found, records);
    positions := AddsInOrder(found, records);
  }
}
