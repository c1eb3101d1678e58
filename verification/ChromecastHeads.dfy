/** The head of a response: RFC 9112, sections 4 to 6. */
module ResponseHeads {
  import opened Basics
  import opened Letters
  import opened TextSearch

  /** A head says where it ends, how long the body is (-1 if it does not say) and whether it comes in chunks. */
  datatype Head = Head(status: nat, size: nat, length: int, chunked: bool)

  const FRESH := Head(0, 0, -1, false)

  const HEAD_END := "\r\n\r\n"

  const LENGTH_LIMIT := 0x40000000

  function HeadEnd(raw: string): Option<nat> { Find(raw, HEAD_END) }

  /** The three digits behind the first space of the status line. */
  function Status(line: string): Option<nat> {
    var space := Find(line, " ");
    if |line| < 12 || line[..5] != "HTTP/" || space.None? || space.value + 4 > |line| then None
    else
      var a, b, c := line[space.value + 1], line[space.value + 2], line[space.value + 3];
      if IsDigit(a) && IsDigit(b) && IsDigit(c) then
        Some((a as int - '0' as int) * 100 + (b as int - '0' as int) * 10 + (c as int - '0' as int))
      else None
  }

  /** A body length, within the limit that keeps it from growing without bound. */
  function Length(digits: string): Option<nat> {
    if digits == "" then Some(0)
    else
      var before, c := Length(digits[..|digits| - 1]), digits[|digits| - 1];
      if before.None? || !IsDigit(c) || before.value > LENGTH_LIMIT then None
      else Some(before.value * 10 + (c as int - '0' as int))
  }

  /** What a header changes: the last length counts, and one chunked coding is enough. */
  function Apply(name: string, value: string, head: Head): Option<Head> {
    if SameText(Trim(name), "content-length") then
      var length := Length(Trim(value));
      if length.None? then None else Some(head.(length := length.value))
    else if SameText(Trim(name), "transfer-encoding") &&
      SameText(Trim(value), "chunked") then Some(head.(chunked := true))
    else Some(head)
  }

  /** What one line changes, if it is a header. */
  function Field(line: string, head: Head): Option<Head> {
    var colon := Find(line, ":");
    if colon.None? then Some(head) else Apply(line[..colon.value], line[colon.value + 1..], head)
  }

  /** The lines behind the first one. */
  function Fields(lines: string, head: Head): Option<Head>
    decreases |lines|
  {
    var end := Find(lines, LINE_END);
    if end.None? then Some(head)
    else
      var rest := lines[end.value + 2..];
      var next := Field(Line(rest), head);
      if next.None? then None else Fields(rest, next.value)
  }

  /** The head that starts a response, once all of it is there. */
  function HeadOf(raw: string): (r: Option<Head>)
    ensures r.Some? ==> HeadEnd(raw).Some?
  {
    var end := HeadEnd(raw);
    if end.None? then None
    else
      var lines := raw[..end.value];
      var status := Status(Line(lines));
      if status.None? then None else Fields(lines, FRESH.(status := status.value, size := end.value + 4))
  }

  lemma FieldKeeps(line: string, head: Head)
    ensures var r := Field(line, head);
      r.Some? ==>
        r.value.status == head.status && r.value.size == head.size && (head.length >= -1 ==> r.value.length >= -1)
  {
  }

  lemma {:induction false} FieldsKeep(lines: string, head: Head)
    ensures var r := Fields(lines, head);
      r.Some? ==>
        r.value.status == head.status && r.value.size == head.size && (head.length >= -1 ==> r.value.length >= -1)
    decreases |lines|
  {
    hide Find, Field, Line;
    var end := Find(lines, LINE_END);
    if end.Some? {
      var rest := lines[end.value + 2..];
      FieldKeeps(Line(rest), head);
      var next := Field(Line(rest), head);
      if next.Some? { FieldsKeep(rest, next.value); }
    }
  }

  lemma HeadFits(raw: string)
    requires HeadOf(raw).Some?
    ensures HeadOf(raw).value.size == HeadEnd(raw).value + 4 <= |raw| && HeadOf(raw).value.length >= -1
  {
    hide Find, Fields, Status;
    var end := HeadEnd(raw).value;
    var lines := raw[..end];
    FieldsKeep(lines, FRESH.(status := Status(Line(lines)).value, size := end + 4));
  }

  /** A whole head reads the same, whatever arrives behind it. */
  lemma HeadGrows(raw: string, more: string)
    requires HeadEnd(raw).Some?
    ensures HeadEnd(raw + more) == HeadEnd(raw) && HeadOf(raw + more) == HeadOf(raw)
  {
    FindGrows(raw, more, HEAD_END);
    assert (raw + more)[..HeadEnd(raw).value] == raw[..HeadEnd(raw).value];
  }

  /** Nothing that a failed attempt left in the head makes a line fail or pass. */
  lemma {:induction false} FailureIsFixed(lines: string, a: Head, b: Head)
    ensures Fields(lines, a).Some? == Fields(lines, b).Some?
    decreases |lines|
  {
    hide Find, Trim, SameText, Length;
    var end := Find(lines, LINE_END);
    if end.Some? {
      var rest := lines[end.value + 2..];
      var x, y := Field(Line(rest), a), Field(Line(rest), b);
      if x.Some? && y.Some? { FailureIsFixed(rest, x.value, y.value); }
    }
  }

  method ParseLength(value: string) returns (length: Option<nat>)
    ensures length == Length(value)
  {
    var n := 0;
    for i := 0 to |value|
      invariant Length(value[..i]) == Some(n)
    {
      assert value[..i + 1][..i] == value[..i] && value[..i + 1][i] == value[i];
      if !IsDigit(value[i]) || n > LENGTH_LIMIT {
        LengthFails(value, i + 1);
        return None;
      }
      n := n * 10 + (value[i] as int - '0' as int);
    }
    assert value[..|value|] == value;
    return Some(n);
  }

  lemma {:induction false} LengthFails(digits: string, i: nat)
    requires i <= |digits| && Length(digits[..i]).None?
    ensures Length(digits).None?
    decreases |digits|
  {
    if i < |digits| {
      assert digits[..|digits| - 1][..i] == digits[..i];
      LengthFails(digits[..|digits| - 1], i);
    } else {
      assert digits[..i] == digits;
    }
  }

  method ParseStatus(line: string) returns (status: Option<nat>)
    ensures status == Status(line)
  {
    hide Find;
    var space := Find(line, " ");
    if |line| < 12 || line[..5] != "HTTP/" || space.None? || space.value + 4 > |line| {
      return None;
    }
    var first := space.value + 1;
    var n: nat := 0;
    for i := 0 to 3
      invariant forall k :: first <= k < first + i ==> IsDigit(line[k])
      invariant i == 0 ==> n == 0
      invariant i == 1 ==> n == line[first] as int - '0' as int
      invariant i == 2 ==> n == (line[first] as int - '0' as int) * 10 + (line[first + 1] as int - '0' as int)
      invariant i == 3 ==> Status(line) == Some(n)
    {
      if !IsDigit(line[first + i]) {
        return None;
      }
      n := n * 10 + (line[first + i] as int - '0' as int);
    }
    return Some(n);
  }

  method ParseFields(text: string, before: Head) returns (ok: bool, head: Head)
    ensures ok <==> Fields(text, before).Some?
    ensures ok ==> head == Fields(text, before).value
  {
    hide Find, Trim, SameText, Length, Fields;
    head := before;
    var lines := text;
    var lineEnd := Find(lines, LINE_END);
    while lineEnd.Some?
      invariant lineEnd == Find(lines, LINE_END)
      invariant Fields(lines, head) == Fields(text, before)
      decreases |lines|
    {
      FieldsStep(lines, head);
      lines := lines[lineEnd.value + 2..];
      lineEnd := Find(lines, LINE_END);
      var line := if lineEnd.None? then lines else lines[..lineEnd.value];
      var colon := Find(line, ":");
      if colon.Some? {
        var name, value := Trim(line[..colon.value]), Trim(line[colon.value + 1..]);
        if SameText(name, "content-length") {
          var length := ParseLength(value);
          if length.None? {
            return false, head;
          }
          head := head.(length := length.value);
        } else if SameText(name, "transfer-encoding") && SameText(value, "chunked") {
          head := head.(chunked := true);
        }
      }
    }
    FieldsEnd(lines, head);
    return true, head;
  }

  /** Parses into a head that an earlier, shorter attempt may have written to. */
  method ParseHead(raw: string, before: Head) returns (ok: bool, head: Head)
    ensures ok <==> HeadOf(raw).Some?
    ensures HeadEnd(raw).None? ==> head == before
    ensures ok && before == FRESH ==> head == HeadOf(raw).value
  {
    hide Find, Fields, Status;
    head := before;
    var end := HeadEnd(raw);
    if end.None? {
      return false, head;
    }
    head := head.(size := end.value + 4);
    var lines := raw[..end.value];
    var status := ParseStatus(Line(lines));
    if status.None? {
      return false, head;
    }
    head := head.(status := status.value);
    FailureIsFixed(lines, head, FRESH.(status := status.value, size := end.value + 4));
    ok, head := ParseFields(lines, head);
  }

  lemma FieldsStep(lines: string, head: Head)
    requires Find(lines, LINE_END).Some?
    ensures var rest := lines[Find(lines, LINE_END).value + 2..];
      var next := Field(Line(rest), head);
      Fields(lines, head) == if next.None? then None else Fields(rest, next.value)
  {
  }

  lemma FieldsEnd(lines: string, head: Head)
    requires Find(lines, LINE_END).None?
    ensures Fields(lines, head) == Some(head)
  {
  }

  // Printed heads.

  /** A line behind the first one; without a colon it says nothing. */
  datatype Header = Header(name: string, value: string) | Remark(text: string)

  predicate OneLine(s: string) { '\r' !in s }

  predicate ValidHeader(h: Header) {
    match h
    case Header(name, value) => OneLine(name) && OneLine(value) && ':' !in name
    case Remark(text) => text != "" && OneLine(text) && ':' !in text
  }

  function Text(h: Header): string {
    match h
    case Header(name, value) => name + ":" + value
    case Remark(text) => text
  }

  function Printed(headers: seq<Header>): string {
    if headers == [] then "" else LINE_END + Text(headers[0]) + Printed(headers[1..])
  }

  function ApplyHeader(h: Header, head: Head): Option<Head> {
    if h.Remark? then Some(head) else Apply(h.name, h.value, head)
  }

  /** What a list of headers makes of a head. */
  function ApplyAll(headers: seq<Header>, head: Head): Option<Head> {
    if headers == [] then Some(head)
    else
      var next := ApplyHeader(headers[0], head);
      if next.None? then None else ApplyAll(headers[1..], next.value)
  }

  lemma FindBehind(front: string, rest: string, p: string)
    requires OneLine(front) && p != "" && p[0] == '\r' && Find(rest, p).Some?
    ensures Find(front + rest, p) == Some(|front| + Find(rest, p).value)
  {
    var s, k := front + rest, Find(rest, p).value;
    HoldsBehind(front, rest, k, p);
    forall m | 0 <= m < |front| + k ensures !Holds(s, m, p) {
      if m < |front| {
        assert s[m] == front[m];
        HoldsAt(s, m, p, 0);
      } else {
        HoldsBehind(front, rest, m - |front|, p);
      }
    }
    hide Find;
    FindIs(s, p, |front| + k);
  }

  lemma NotBetween(line: string, rest: string)
    requires line != "" && OneLine(line) && Find(rest, HEAD_END).Some?
    ensures Find(LINE_END + line + rest, HEAD_END) == Some(2 + |line| + Find(rest, HEAD_END).value)
  {
    hide Find, Holds;
    var behind := "\n" + line;
    FindBehind(behind, rest, HEAD_END);
    var tail, s := behind + rest, LINE_END + line + rest;
    var k := Find(tail, HEAD_END).value;
    assert s == "\r" + tail;
    assert s[2] == line[0];
    HoldsBehind("\r", tail, k, HEAD_END);
    forall m | 0 <= m < 1 + k ensures !Holds(s, m, HEAD_END) {
      if m == 0 { HoldsAt(s, m, HEAD_END, 2); } else { HoldsBehind("\r", tail, m - 1, HEAD_END); }
    }
    FindIs(s, HEAD_END, 1 + k);
  }

  lemma TextIsLine(h: Header)
    requires ValidHeader(h)
    ensures Text(h) != "" && OneLine(Text(h))
  {
  }

  lemma {:induction false} HeadEndsBehind(headers: seq<Header>, rest: string)
    requires forall h <- headers :: ValidHeader(h)
    ensures Find(Printed(headers) + (HEAD_END + rest), HEAD_END) == Some(|Printed(headers)|)
    decreases |headers|
  {
    hide Find;
    var end := HEAD_END + rest;
    if headers == [] {
      assert end[0..4] == HEAD_END;
      FindIs(end, HEAD_END, 0);
      assert Printed(headers) + end == end;
    } else {
      var line, more := Text(headers[0]), Printed(headers[1..]);
      TextIsLine(headers[0]);
      assert Printed(headers) + end == LINE_END + line + (more + end);
      HeadEndsBehind(headers[1..], rest);
      hide Printed, Text, OneLine, ValidHeader;
      NotBetween(line, more + end);
    }
  }

  lemma LineReads(line: string, rest: string)
    requires OneLine(line)
    ensures Find(line + (LINE_END + rest), LINE_END) == Some(|line|)
  {
    var end := LINE_END + rest;
    assert end[0..2] == LINE_END;
    FindIs(end, LINE_END, 0);
    FindBehind(line, end, LINE_END);
  }

  lemma OnlyLine(line: string)
    requires OneLine(line)
    ensures Find(line, LINE_END).None?
  {
    var r := Find(line, LINE_END);
    if r.Some? { HoldsAt(line, r.value, LINE_END, 0); }
  }

  /** A printed line followed by printed headers is cut off in front of them. */
  lemma LineAhead(line: string, headers: seq<Header>)
    requires OneLine(line)
    ensures var s := line + Printed(headers);
      Line(s) == line && Find(s, LINE_END) == if headers == [] then None else Some(|line|)
  {
    hide Find;
    if headers == [] {
      OnlyLine(line);
      assert line + Printed(headers) == line;
    } else {
      var first := Text(headers[0]);
      LineReads(line, first + Printed(headers[1..]));
      assert Printed(headers) == LINE_END + (first + Printed(headers[1..]));
    }
  }

  lemma NoColon(line: string)
    requires ':' !in line
    ensures Find(line, ":").None?
  {
    var r := Find(line, ":");
    if r.Some? { HoldsAt(line, r.value, ":", 0); }
  }

  lemma ColonReads(h: Header, head: Head)
    requires ValidHeader(h)
    ensures Field(Text(h), head) == ApplyHeader(h, head)
  {
    hide Apply;
    if h.Remark? {
      NoColon(h.text);
      return;
    }
    var line, k := Text(h), |h.name|;
    assert line[k..k + 1] == ":";
    forall m: nat | m < k ensures !Holds(line, m, ":") { assert line[m..m + 1][0] == h.name[m]; }
    FindIs(line, ":", k);
    assert line[..k] == h.name && line[k + 1..] == h.value;
  }

  lemma {:induction false} FieldsRead(line: string, headers: seq<Header>, head: Head)
    requires OneLine(line) && forall h <- headers :: ValidHeader(h)
    ensures Fields(line + Printed(headers), head) == ApplyAll(headers, head)
    decreases |headers|
  {
    hide Find, ApplyHeader, Field, Line;
    var s := line + Printed(headers);
    LineAhead(line, headers);
    if headers != [] {
      var h, more := headers[0], headers[1..];
      var next := Text(h);
      assert ValidHeader(h) && OneLine(next);
      assert s[|line| + 2..] == next + Printed(more);
      LineAhead(next, more);
      ColonReads(h, head);
      if ApplyHeader(h, head).Some? { FieldsRead(next, more, ApplyHeader(h, head).value); }
    }
  }

  /** A printed head, whatever follows, is read as its status line and its headers in order, or not at all. */
  lemma PrintedHeadReads(line: string, headers: seq<Header>, rest: string)
    requires OneLine(line) && forall h <- headers :: ValidHeader(h)
    ensures var size := |line| + |Printed(headers)| + 4;
      HeadOf(line + Printed(headers) + HEAD_END + rest) == if Status(line).None? then None else
        ApplyAll(headers, FRESH.(status := Status(line).value, size := size))
  {
    hide Find, Status, Fields, ApplyAll, Line;
    var end := HEAD_END + rest;
    HeadEndsBehind(headers, rest);
    var raw := line + Printed(headers) + HEAD_END + rest;
    assert raw == line + (Printed(headers) + end);
    FindBehind(line, Printed(headers) + end, HEAD_END);
    var lines := line + Printed(headers);
    assert raw[..|lines|] == lines;
    LineAhead(line, headers);
    if Status(line).Some? { FieldsRead(line, headers, FRESH.(status := Status(line).value, size := |lines| + 4)); }
  }
}
