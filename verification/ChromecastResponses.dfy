/** What a response says, told by its characters: RFC 9112, sections 4 to 7. */
module Responses {
  import opened Basics
  import opened Letters
  import opened TextSearch
  import opened ResponseHeads
  import opened Chunking
  import opened Receiving
  import JsonTexts

  // Names and values.

  /** The same character, or a letter of the basic alphabet in the other case. */
  predicate SameLetter(a: char, b: char) {
    a == b || (65 <= a as int <= 90 && b as int == a as int + 32) || (65 <= b as int <= 90 && a as int == b as int + 32)
  }

  predicate Spelled(s: string, word: string) {
    |s| == |word| && forall i :: 0 <= i < |s| ==> SameLetter(s[i], word[i])
  }

  lemma SameTextIs(a: string, b: string)
    ensures SameText(a, b) <==> Spelled(a, b)
  {
    forall x: char, y: char ensures Lower(x) == Lower(y) <==> SameLetter(x, y) {
    }
  }

  /** Spaces and tabs around a text that neither starts nor ends with any; a carriage return may end it too. */
  predicate Pads(left: string, core: string, right: string) {
    && (forall i :: 0 <= i < |left| ==> left[i] as int in {9, 32})
    && (forall i :: 0 <= i < |right| ==> right[i] as int in {9, 13, 32})
    && (core != "" ==> core[0] as int !in {9, 32} && core[|core| - 1] as int !in {9, 13, 32})
  }

  lemma {:induction false} FrontIs(left: string, rest: string)
    requires forall i :: 0 <= i < |left| ==> left[i] as int in {9, 32}
    ensures TrimFront(left + rest) == TrimFront(rest)
  {
    if left == "" {
      assert left + rest == rest;
    } else {
      assert (left + rest)[1..] == left[1..] + rest;
      FrontIs(left[1..], rest);
    }
  }

  lemma {:induction false} BackIs(core: string, right: string)
    requires forall i :: 0 <= i < |right| ==> right[i] as int in {9, 13, 32}
    ensures TrimBack(core + right) == TrimBack(core)
  {
    if right == "" {
      assert core + right == core;
    } else {
      assert (core + right)[..|core + right| - 1] == core + right[..|right| - 1];
      BackIs(core, right[..|right| - 1]);
    }
  }

  lemma {:induction false} FrontOfBlanks(s: string)
    requires forall i :: 0 <= i < |s| ==> s[i] as int in {9, 13, 32}
    ensures TrimBack(TrimFront(s)) == ""
  {
    if s != "" && Blank(s[0]) {
      FrontOfBlanks(s[1..]);
    } else {
      assert "" + s == s;
      BackIs("", s);
    }
  }

  /** Trimming takes the padding and no more. */
  lemma TrimIs(left: string, core: string, right: string)
    requires Pads(left, core, right)
    ensures Trim(left + core + right) == core
  {
    assert left + core + right == left + (core + right);
    FrontIs(left, core + right);
    if core == "" {
      assert core + right == right;
      FrontOfBlanks(right);
    } else {
      assert TrimFront(core + right) == core + right;
      BackIs(core, right);
    }
  }

  lemma {:induction false} FrontParts(s: string) returns (left: string)
    ensures s == left + TrimFront(s) && forall i :: 0 <= i < |left| ==> left[i] as int in {9, 32}
    ensures TrimFront(s) != "" ==> TrimFront(s)[0] as int !in {9, 32}
  {
    if s != "" && Blank(s[0]) {
      var more := FrontParts(s[1..]);
      left := [s[0]] + more;
    } else {
      left := "";
    }
  }

  lemma {:induction false} BackParts(s: string) returns (right: string)
    ensures s == TrimBack(s) + right && forall i :: 0 <= i < |right| ==> right[i] as int in {9, 13, 32}
    ensures TrimBack(s) != "" ==> TrimBack(s)[0] == s[0] && TrimBack(s)[|TrimBack(s)| - 1] as int !in {9, 13, 32}
  {
    if s != "" && (Blank(s[|s| - 1]) || s[|s| - 1] == '\r') {
      var more := BackParts(s[..|s| - 1]);
      right := more + [s[|s| - 1]];
    } else {
      right := "";
    }
  }

  /** Every text is some padding around what trimming leaves. */
  lemma TrimParts(s: string) returns (left: string, right: string)
    ensures Pads(left, Trim(s), right) && s == left + Trim(s) + right
  {
    left := FrontParts(s);
    right := BackParts(TrimFront(s));
  }

  /** Padding around a word in any case. */
  ghost predicate Named(s: string, word: string) {
    exists left, core, right :: Pads(left, core, right) && s == left + core + right && Spelled(core, word)
  }

  lemma NamedIs(s: string, word: string)
    ensures Named(s, word) <==> SameText(Trim(s), word)
  {
    SameTextIs(Trim(s), word);
    if SameText(Trim(s), word) {
      var left, right := TrimParts(s);
    }
    if Named(s, word) {
      var left, core, right :| Pads(left, core, right) && s == left + core + right && Spelled(core, word);
      TrimIs(left, core, right);
    }
  }

  // Headers.

  /** A length is refused when it has another character than a digit, or a digit behind a number over 2^30. */
  lemma {:induction false} LengthExactly(digits: string)
    ensures Length(digits) ==
      if JsonTexts.AllDigits(digits) && JsonTexts.Whole(digits) < 10737418250 then Some(JsonTexts.Whole(digits))
        else None
  {
    if digits != "" {
      LengthExactly(digits[..|digits| - 1]);
    }
  }

  /** What a length header says, however it is padded and in whatever case. */
  lemma LengthHeader(name: string, left: string, core: string, right: string, head: Head)
    requires Named(name, "content-length") && Pads(left, core, right)
    ensures Apply(name, left + core + right, head) ==
      if JsonTexts.AllDigits(core) && JsonTexts.Whole(core) < 10737418250
        then Some(head.(length := JsonTexts.Whole(core))) else None
  {
    NamedIs(name, "content-length");
    TrimIs(left, core, right);
    LengthExactly(core);
  }

  /** Any other header only matters if it asks for chunks. */
  lemma OtherHeader(name: string, value: string, head: Head)
    requires !Named(name, "content-length")
    ensures var asks := Named(name, "transfer-encoding") && Named(value, "chunked");
      Apply(name, value, head) == Some(head.(chunked := head.chunked || asks))
  {
    NamedIs(name, "content-length");
    NamedIs(name, "transfer-encoding");
    NamedIs(value, "chunked");
  }

  ghost predicate SaysLength(h: Header) { h.Header? && Named(h.name, "content-length") }

  ghost predicate SaysChunks(h: Header) {
    h.Header? && Named(h.name, "transfer-encoding") && Named(h.value, "chunked")
  }

  predicate Number(s: string) { JsonTexts.AllDigits(Trim(s)) && JsonTexts.Whole(Trim(s)) < 10737418250 }

  lemma HeaderMeans(h: Header, head: Head)
    ensures SaysLength(h) && !Number(h.value) ==> ApplyHeader(h, head).None?
    ensures SaysLength(h) && Number(h.value) ==>
      ApplyHeader(h, head) == Some(head.(length := JsonTexts.Whole(Trim(h.value)))) && !SaysChunks(h)
    ensures !SaysLength(h) ==> ApplyHeader(h, head) == Some(head.(chunked := head.chunked || SaysChunks(h)))
  {
    if SaysLength(h) {
      var left, right := TrimParts(h.value);
      LengthHeader(h.name, left, Trim(h.value), right, head);
      NamedIs(h.name, "content-length");
      NamedIs(h.name, "transfer-encoding");
      assert |Trim(h.name)| == 14;
    } else if h.Header? {
      OtherHeader(h.name, h.value, head);
    }
  }

  ghost predicate Acceptable(headers: seq<Header>) { forall h <- headers :: SaysLength(h) ==> Number(h.value) }

  /** The last length counts, a single chunked coding is enough, and the rest is ignored. */
  lemma {:induction false} HeadersMean(headers: seq<Header>, head: Head)
    ensures ApplyAll(headers, head).Some? <==> Acceptable(headers)
    ensures Acceptable(headers) ==>
      var r := ApplyAll(headers, head).value;
      && r.status == head.status && r.size == head.size
      && r.chunked == (head.chunked || exists h <- headers :: SaysChunks(h))
      && ((forall h <- headers :: !SaysLength(h)) ==> r.length == head.length)
      && forall k | 0 <= k < |headers| && SaysLength(headers[k]) &&
          (forall m :: k < m < |headers| ==> !SaysLength(headers[m])) ::
        r.length == JsonTexts.Whole(Trim(headers[k].value))
    decreases |headers|
  {
    hide SaysLength, SaysChunks, Number, ApplyHeader, Trim;
    if headers != [] {
      var h, more := headers[0], headers[1..];
      assert headers == [h] + more;
      HeaderMeans(h, head);
      var next := ApplyHeader(h, head);
      if next.Some? {
        HeadersMean(more, next.value);
      }
    }
  }

  /** The first space, and behind it the three digits of a number. */
  predicate Shows(line: string, k: nat, n: nat)
    requires k <= |line| - 4
  {
    && line[k] == ' ' && ' ' !in line[..k] && n < 1000
    && line[k + 1] as int == 48 + n / 100 && line[k + 2] as int == 48 + n / 10 % 10 && line[k + 3] as int == 48 + n % 10
  }

  /** The status is spelled by the three digits behind the first space. */
  lemma StatusExactly(line: string, n: nat)
    ensures Status(line) == Some(n) <==>
      && |line| >= 12 && line[..5] == "HTTP/"
      && exists k :: 0 <= k <= |line| - 4 && Shows(line, k, n)
  {
    hide Status, Shows;
    if Status(line) == Some(n) { StatusNeeds(line, n); }
    if |line| >= 12 && line[..5] == "HTTP/" {
      forall k | 0 <= k <= |line| - 4 && Shows(line, k, n) ensures Status(line) == Some(n) { ShownReads(line, k, n); }
    }
  }

  lemma ShownReads(line: string, k: nat, n: nat)
    requires |line| >= 12 && line[..5] == "HTTP/" && k <= |line| - 4 && Shows(line, k, n)
    ensures Status(line) == Some(n)
  {
    Places(n);
    hide Status;
    StatusReads(line, k, n / 100, n / 10 % 10, n % 10);
  }

  lemma Places(n: nat)
    requires n < 1000
    ensures n / 100 < 10 && n / 100 * 100 + n / 10 % 10 * 10 + n % 10 == n
  {
    assert n / 100 == n / 10 / 10;
  }

  lemma StatusNeeds(line: string, n: nat)
    requires Status(line) == Some(n)
    ensures |line| >= 12 && line[..5] == "HTTP/" && exists k :: 0 <= k <= |line| - 4 && Shows(line, k, n)
  {
    var k := Find(line, " ").value;
    HoldsAt(line, k, " ", 0);
    forall m | 0 <= m < k ensures line[m] != ' ' {
      assert !Holds(line, m, " ");
      assert line[m..m + 1] == [line[m]];
    }
    Digits(line[k + 1] as int - 48, line[k + 2] as int - 48, line[k + 3] as int - 48);
    assert Shows(line, k, n);
  }

  lemma Digits(a: int, b: int, c: int)
    requires 0 <= a < 10 && 0 <= b < 10 && 0 <= c < 10
    ensures var n := a * 100 + b * 10 + c; 0 <= n < 1000 && n / 100 == a && n / 10 % 10 == b && n % 10 == c
  {
  }

  // Chunks.

  /** A size counts its digits by sixteens. */
  lemma SizeGrows(s: string, c: char, d: nat)
    requires Hex(s) && JsonTexts.DigitIs(c, d)
    ensures Hex(s + [c]) && HexNumber("") == 0 && HexNumber(s + [c]) == 16 * HexNumber(s) + d
  {
    JsonTexts.HexValueIs(c, d);
    var t := s + [c];
    assert t[..|t| - 1] == s;
  }

  /** The line of a chunk starts with one to seven digits; anything behind them is ignored. */
  lemma SizeExactly(digits: string, rest: string)
    requires Hex(digits) && (rest == "" || forall d :: !JsonTexts.DigitIs(rest[0], d))
    ensures SizeOf(digits + rest) == if 1 <= |digits| <= 7 then Some(HexNumber(digits)) else None
  {
    var line := digits + rest;
    assert line[..|digits|] == digits;
    if rest != "" {
      var v := HexValue(rest[0]);
      if v.Some? { JsonTexts.HexValueIs(rest[0], v.value); }
      assert line[|digits|] == rest[0];
    }
    LeadingIs(line, 0, |digits|);
  }

  /** A line that is no size: no digit in front, or more than seven. */
  ghost predicate NoSize(line: string) {
    && Find(line, LINE_END).None?
    && (line == "" || (forall d :: !JsonTexts.DigitIs(line[0], d)) || (|line| >= 8 && Hex(line[..8])))
  }

  lemma NoSizeIs(line: string)
    requires Find(line, LINE_END).None?
    ensures SizeOf(line).None? <==> NoSize(line)
  {
    hide Find;
    if line != "" {
      forall d: nat ensures JsonTexts.DigitIs(line[0], d) <==>
        HexValue(line[0]) == Some(d) { JsonTexts.HexValueIs(line[0], d); }
    }
    var n := Leading(line, 0);
    assert |line| >= 8 && n < 8 ==> line[..8][n] == line[n];
    if n >= 8 {
      forall k | 0 <= k < 8 ensures HexValue(line[..8][k]).Some? { assert line[..n][k] == line[..8][k]; }
    }
  }

  /** Whole chunks in a row. */
  function Row(chunks: seq<Chunk>): string {
    if chunks == [] then "" else
      var c := chunks[0];
      c.size + c.extension + LINE_END + (c.data + c.closing) + Row(chunks[1..])
  }

  ghost predicate Spoils(data: string, chunks: seq<Chunk>, line: string, tail: string) {
    (forall c <- chunks :: ValidChunk(c)) && NoSize(line) && data == Row(chunks) + (line + LINE_END + tail)
  }

  /** A body is malformed exactly if some whole chunks are followed by a line that is no size. */
  lemma MalformedExactly(data: string)
    ensures Decode(data, "") == Malformed <==> exists chunks, line, tail :: Spoils(data, chunks, line, tail)
  {
    if Decode(data, "") == Malformed {
      var chunks, line, tail := MalformedParts(data, "");
    }
    if exists chunks, line, tail :: Spoils(data, chunks, line, tail) {
      var chunks, line, tail :| Spoils(data, chunks, line, tail);
      SpoiltDecodes(data, chunks, line, tail, "");
    }
  }

  lemma {:induction false} SpoiltDecodes(data: string, chunks: seq<Chunk>, line: string, tail: string, body: string)
    requires Spoils(data, chunks, line, tail)
    ensures Decode(data, body) == Malformed
    decreases |chunks|
  {
    hide SizeOf, Find, Decode;
    var last := line + LINE_END + tail;
    if chunks == [] {
      assert data == last;
      NoSizeIs(line);
      BadLineDecodes(line, tail, body);
    } else {
      var c := chunks[0];
      assert ValidChunk(c);
      SizeReads(c.size, c.extension);
      var next := Row(chunks[1..]) + last;
      ChunkDecodes(c.size + c.extension, c.data, c.closing, next, body);
      assert data == c.size + c.extension + LINE_END + (c.data + c.closing + next);
      SpoiltDecodes(next, chunks[1..], line, tail, body + c.data);
    }
  }

  lemma BadLineDecodes(line: string, tail: string, body: string)
    requires Find(line, LINE_END).None? && SizeOf(line).None?
    ensures Decode(line + LINE_END + tail, body) == Malformed
  {
    hide SizeOf, Find;
    Chunking.LineReads(line, tail);
    assert (line + LINE_END + tail)[..|line|] == line;
  }

  lemma MalformedStarts(data: string, body: string) returns (line: string, rest: string)
    requires Decode(data, body) == Malformed
    ensures data == line + LINE_END + rest && Find(line, LINE_END).None?
    ensures SizeOf(line).Some? ==>
      var n := SizeOf(line).value;
      0 < n && n + 2 <= |rest| && Decode(rest[n + 2..], body + rest[..n]) == Malformed
  {
    hide SizeOf, Find;
    var end := Find(data, LINE_END).value;
    LineIsWhole(data, end);
    line, rest := data[..end], data[end + 2..];
  }

  lemma {:induction false} MalformedParts(data: string, body: string)
    returns (chunks: seq<Chunk>, line: string, tail: string)
    requires Decode(data, body) == Malformed
    ensures Spoils(data, chunks, line, tail)
    decreases |data|
  {
    hide SizeOf, Find, HexNumber, Decode;
    var rest;
    line, rest := MalformedStarts(data, body);
    if SizeOf(line).None? {
      NoSizeIs(line);
      chunks, tail := [], rest;
      assert Row(chunks) + (line + LINE_END + tail) == data;
    } else {
      var size, extension := SplitLine(line);
      var n := SizeOf(line).value;
      var c := Chunk(size, extension, rest[..n], rest[n..n + 2]);
      var more;
      more, line, tail := MalformedParts(rest[n + 2..], body + c.data);
      chunks := [c] + more;
      assert chunks[1..] == more;
      assert rest == c.data + c.closing + rest[n + 2..];
      var last := line + LINE_END + tail;
      assert data == Row(chunks) + last by {
        assert Row(chunks) == size + extension + LINE_END + (c.data + c.closing) + Row(more);
      }
    }
  }

  // Answers.

  /** What can be answered once the head is there, without waiting for more. */
  ghost predicate Answered(head: Head, rest: string, outcome: Outcome) {
    if head.chunked then
      || (exists chunks, line, tail :: Spoils(rest, chunks, line, tail) && outcome == Failed(BadChunks))
      || (exists chunks, size, extension, tail ::
        Encodes(chunks, size, extension) && rest == Encoded(chunks, size, extension) + tail &&
        outcome == Response(head.status, Body(chunks)))
    else if 0 <= head.length <= |rest| then outcome == Response(head.status, rest[..head.length])
    else (head.status == 204 || head.status == 304) && outcome == Response(head.status, "")
  }

  lemma AnsweredIs(head: Head, rest: string, outcome: Outcome)
    ensures Answered(head, rest, outcome) <==> JudgeBody(head, rest) == Some(outcome)
  {
    hide Decode, Encodes, Encoded, Body, Spoils;
    if head.chunked {
      MalformedExactly(rest);
      if Decode(rest, "").Whole? {
        var chunks, size, extension, tail := DecodedIsEncoded(rest, "");
        assert "" + Body(chunks) == Body(chunks);
      }
      forall chunks, size, extension, tail |
        Encodes(chunks, size, extension) && rest == Encoded(chunks, size, extension) + tail
        ensures Decode(rest, "") == Chunks.Whole(Body(chunks)) {
        DecodesEncoded(chunks, size, extension, tail, "");
        assert "" + Body(chunks) == Body(chunks);
      }
    }
  }

  /** What is known from the bytes so far. */
  ghost predicate Known(raw: string, outcome: Outcome) {
    HeadOf(raw).Some? && Answered(HeadOf(raw).value, raw[Min(HeadOf(raw).value.size, |raw|)..], outcome)
  }

  lemma KnownIs(raw: string, outcome: Outcome)
    ensures Known(raw, outcome) <==> Judge(raw) == Some(outcome)
  {
    hide HeadOf, JudgeBody, Answered;
    if HeadOf(raw).Some? {
      HeadFits(raw);
      AnsweredIs(HeadOf(raw).value, raw[HeadOf(raw).value.size..], outcome);
    }
  }

  /** What the end of the connection leaves: only a body that ends with it is complete. */
  ghost predicate Ended(raw: string, clean: bool, outcome: Outcome) {
    match outcome
    case Failed(Incomplete) => !clean
    case Failed(ClosedEarly) => clean && (HeadOf(raw).None? || HeadOf(raw).value.chunked ||
      HeadOf(raw).value.length >= 0)
    case Failed(_) => false
    case Response(status, body) =>
      && clean && HeadOf(raw).Some? && !HeadOf(raw).value.chunked && HeadOf(raw).value.length == -1
      && status == HeadOf(raw).value.status && |raw| == HeadOf(raw).value.size + |body| &&
        raw == raw[..|raw| - |body|] + body
  }

  /** Pieces are taken until the answer is known, there are over 524,288 bytes, or the connection ends. */
  lemma {:induction false} ReceivedMeans(raw: string, pieces: seq<string>, clean: bool) returns (n: nat)
    ensures n <= |pieces|
    ensures forall m, outcome :: 0 <= m < n ==> !Known(raw + Joined(pieces[..m]), outcome)
    ensures forall m :: 0 < m < n ==> |raw + Joined(pieces[..m])| <= 524288
    ensures var outcome, all := Received(raw, pieces, clean), raw + Joined(pieces[..n]);
      if n > 0 && |all| > 524288 then outcome == Failed(TooLarge)
      else Known(all, outcome) || (n == |pieces| && Ended(all, clean, outcome) && forall o :: !Known(all, o))
    decreases |pieces|
  {
    hide Judge, HeadOf, Known, Joined, Ended;
    forall o ensures Known(raw, o) <==> Judge(raw) == Some(o) { KnownIs(raw, o); }
    assert raw + Joined(pieces[..0]) == raw by { NothingJoined(); }
    if Judge(raw).Some? {
      n := 0;
    } else if pieces == [] {
      n := 0;
      EndIs(raw, clean);
    } else {
      var next, more := raw + pieces[0], pieces[1..];
      forall m: nat | 0 < m <= |pieces| ensures raw + Joined(pieces[..m]) == next + Joined(more[..m - 1]) {
        JoinedNext(raw, pieces, m);
      }
      if |next| > 524288 {
        n := 1;
        assert next + Joined(more[..0]) == next by { NothingJoined(); }
      } else {
        var k := ReceivedMeans(next, more, clean);
        n := k + 1;
        assert next + Joined(more[..0]) == next by { NothingJoined(); }
      }
    }
  }

  lemma NothingJoined()
    ensures forall pieces: seq<string> :: Joined(pieces[..0]) == ""
  {
  }

  lemma JoinedNext(raw: string, pieces: seq<string>, m: nat)
    requires 0 < m <= |pieces|
    ensures raw + Joined(pieces[..m]) == raw + pieces[0] + Joined(pieces[1..][..m - 1])
  {
    assert pieces[..m][1..] == pieces[1..][..m - 1];
  }

  lemma EndIs(raw: string, clean: bool)
    ensures Ended(raw, clean, AtEnd(raw, clean))
  {
    hide HeadOf;
    if HeadOf(raw).Some? { HeadFits(raw); }
  }
}
