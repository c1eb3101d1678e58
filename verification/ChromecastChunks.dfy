/** Chunked bodies: RFC 9112, section 7.1. */
module Chunking {
  import opened Basics
  import opened Letters
  import opened TextSearch

  datatype Chunks = Partial | Malformed | Whole(body: string)

  const MAXIMUM_DIGITS := 7

  predicate Hex(s: string) { forall k :: 0 <= k < |s| ==> HexValue(s[k]).Some? }

  function HexNumber(s: string): nat
    requires Hex(s)
  {
    if s == "" then 0 else HexNumber(s[..|s| - 1]) * 16 + HexValue(s[|s| - 1]).value
  }

  /** How many hexadecimal digits a line starts with. */
  function Leading(line: string, i: nat): (r: nat)
    requires i <= |line| && Hex(line[..i])
    ensures i <= r <= |line| && Hex(line[..r]) && (r < |line| ==> HexValue(line[r]).None?)
    decreases |line| - i
  {
    if i < |line| && HexValue(line[i]).Some? then Leading(line, i + 1) else i
  }

  function SizeOf(line: string): Option<nat> {
    var n := Leading(line, 0);
    if 0 < n <= MAXIMUM_DIGITS then Some(HexNumber(line[..n])) else None
  }

  /** The rest of a chunked body, with what is already decoded. */
  function Decode(data: string, body: string): Chunks
    decreases |data|
  {
    var line := Find(data, LINE_END);
    if line.None? then Partial
    else
      var size, rest := SizeOf(data[..line.value]), data[line.value + 2..];
      if size.None? then Malformed
      else if size.value == 0 then Whole(body)
      else if |rest| < size.value + 2 then Partial
      else Decode(rest[size.value + 2..], body + rest[..size.value])
  }

  method ReadSize(line: string) returns (size: Option<nat>)
    ensures size == SizeOf(line)
  {
    var n, digits := 0, 0;
    while digits < |line| && HexValue(line[digits]).Some?
      invariant digits <= |line| && digits <= MAXIMUM_DIGITS && Hex(line[..digits])
      invariant n == HexNumber(line[..digits]) && Leading(line, digits) == Leading(line, 0)
    {
      assert line[..digits + 1][..digits] == line[..digits] && line[..digits + 1][digits] == line[digits];
      n := n * 16 + HexValue(line[digits]).value;
      digits := digits + 1;
      if digits > MAXIMUM_DIGITS {
        return None;
      }
    }
    return if digits == 0 then None else Some(n);
  }

  method DecodeChunks(input: string) returns (complete: bool, body: string, bad: bool)
    ensures complete <==> Decode(input, "").Whole?
    ensures complete ==> body == Decode(input, "").body
    ensures bad <==> Decode(input, "").Malformed?
  {
    hide SizeOf, Find;
    var data := input;
    body := "";
    while true
      invariant Decode(data, body) == Decode(input, "")
      decreases |data|
    {
      var line := Find(data, LINE_END);
      if line.None? {
        return false, body, false;
      }
      var size := ReadSize(data[..line.value]);
      if size.None? {
        return false, body, true;
      }
      data := data[line.value + 2..];
      if size.value == 0 {
        return true, body, false;
      }
      if |data| < size.value + 2 {
        return false, body, false;
      }
      body := body + data[..size.value];
      data := data[size.value + 2..];
    }
  }

  /** A verdict on the first bytes is the verdict on all of them. */
  lemma {:induction false} DecodeGrows(data: string, more: string, body: string)
    requires !Decode(data, body).Partial?
    ensures Decode(data + more, body) == Decode(data, body)
    decreases |data|
  {
    hide SizeOf, Find;
    FindGrows(data, more, LINE_END);
    var line := Find(data, LINE_END).value;
    var size, rest := SizeOf(data[..line]), data[line + 2..];
    assert (data + more)[..line] == data[..line] && (data + more)[line + 2..] == rest + more;
    if size.Some? && size.value > 0 {
      var n := size.value;
      DecodeGrows(rest[n + 2..], more, body + rest[..n]);
      assert (rest + more)[..n] == rest[..n] && (rest + more)[n + 2..] == rest[n + 2..] + more;
    }
  }

  // Encoding.

  /** A chunk: its size in hexadecimal, an extension, its data and the two bytes that close it. */
  datatype Chunk = Chunk(size: string, extension: string, data: string, closing: string)

  predicate SizeLine(size: string, extension: string) {
    && 0 < |size| <= MAXIMUM_DIGITS && Hex(size)
    && (extension == "" || HexValue(extension[0]).None?)
    && Find(size + extension, LINE_END).None?
  }

  predicate ValidChunk(c: Chunk) {
    SizeLine(c.size, c.extension) && HexNumber(c.size) == |c.data| > 0 && |c.closing| == 2
  }

  /** Chunks, then the line of a last chunk of size zero. */
  function Encoded(chunks: seq<Chunk>, size: string, extension: string): string {
    if chunks == [] then size + extension + LINE_END
    else
      var c := chunks[0];
      c.size + c.extension + LINE_END + (c.data + c.closing + Encoded(chunks[1..], size, extension))
  }

  function Body(chunks: seq<Chunk>): string {
    if chunks == [] then "" else chunks[0].data + Body(chunks[1..])
  }

  ghost predicate Encodes(chunks: seq<Chunk>, size: string, extension: string) {
    && (forall c <- chunks :: ValidChunk(c))
    && SizeLine(size, extension) && HexNumber(size) == 0
  }

  lemma LineReads(line: string, rest: string)
    requires Find(line, LINE_END).None?
    ensures Find(line + LINE_END + rest, LINE_END) == Some(|line|)
  {
    var data := line + LINE_END + rest;
    assert data[|line|..|line| + 2] == LINE_END;
    forall m: nat | m < |line| ensures !Holds(data, m, LINE_END) {
      assert !Holds(line, m, LINE_END);
      if m + 2 <= |line| { assert data[m..m + 2] == line[m..m + 2]; } else { assert data[m..m + 2][1] == '\r'; }
    }
    FindIs(data, LINE_END, |line|);
  }

  lemma SizeReads(size: string, extension: string)
    requires SizeLine(size, extension)
    ensures SizeOf(size + extension) == Some(HexNumber(size))
  {
    hide Find;
    var line := size + extension;
    assert line[..|size|] == size;
    LeadingIs(line, 0, |size|);
  }

  lemma {:induction false} LeadingIs(line: string, i: nat, n: nat)
    requires i <= n <= |line| && Hex(line[..i]) && Hex(line[..n]) && (n < |line| ==> HexValue(line[n]).None?)
    ensures Leading(line, i) == n
    decreases n - i
  {
  }

  lemma LastLineDecodes(line: string, rest: string, body: string)
    requires Find(line, LINE_END).None? && SizeOf(line) == Some(0)
    ensures Decode(line + LINE_END + rest, body) == Whole(body)
  {
    hide SizeOf, Find;
    LineReads(line, rest);
    assert (line + LINE_END + rest)[..|line|] == line;
  }

  lemma ChunkDecodes(line: string, contents: string, closing: string, rest: string, body: string)
    requires Find(line, LINE_END).None? && SizeOf(line) == Some(|contents|) && |contents| > 0 && |closing| == 2
    ensures Decode(line + LINE_END + (contents + closing + rest), body) == Decode(rest, body + contents)
  {
    hide SizeOf, Find;
    var behind := contents + closing + rest;
    LineReads(line, behind);
    var data := line + LINE_END + behind;
    assert data[..|line|] == line && data[|line| + 2..] == behind;
    assert behind[..|contents|] == contents && behind[|contents| + 2..] == rest;
  }

  /** Every chunked encoding of a body is decoded to that body, whatever follows the last chunk. */
  lemma {:induction false} DecodesEncoded(chunks: seq<Chunk>, size: string, extension: string, tail: string,
      body: string)
    requires Encodes(chunks, size, extension)
    ensures Decode(Encoded(chunks, size, extension) + tail, body) == Whole(body + Body(chunks))
    decreases |chunks|
  {
    hide SizeOf, Find, Decode;
    if chunks == [] {
      SizeReads(size, extension);
      LastLineDecodes(size + extension, tail, body);
      assert body + Body(chunks) == body;
    } else {
      var c, next := chunks[0], Encoded(chunks[1..], size, extension);
      assert ValidChunk(c);
      SizeReads(c.size, c.extension);
      ChunkDecodes(c.size + c.extension, c.data, c.closing, next + tail, body);
      Regroup(c.size + c.extension + LINE_END, c.data + c.closing, next, tail);
      DecodesEncoded(chunks[1..], size, extension, tail, body + c.data);
      assert body + c.data + Body(chunks[1..]) == body + Body(chunks);
    }
  }

  lemma Regroup(a: string, b: string, c: string, d: string)
    ensures a + (b + c) + d == a + (b + (c + d))
  {
  }

  lemma SplitLine(line: string) returns (size: string, extension: string)
    requires SizeOf(line).Some? && Find(line, LINE_END).None?
    ensures line == size + extension && SizeLine(size, extension) && SizeOf(line) == Some(HexNumber(size))
  {
    hide Find;
    var digits := Leading(line, 0);
    size, extension := line[..digits], line[digits..];
    assert size + extension == line;
  }

  /** What is decoded starts with the line of a chunk and is the last one, or its data and what follows decodes. */
  lemma WholeStarts(data: string, before: string) returns (size: string, extension: string, rest: string)
    requires Decode(data, before).Whole?
    ensures data == size + extension + LINE_END + rest && SizeLine(size, extension)
    ensures var n := HexNumber(size);
      if n == 0 then Decode(data, before).body == before
      else n + 2 <= |rest| && Decode(data, before) == Decode(rest[n + 2..], before + rest[..n])
  {
    hide Find, SizeOf, SizeLine, HexNumber;
    var end := Find(data, LINE_END).value;
    var line := data[..end];
    rest := data[end + 2..];
    LineIsWhole(data, end);
    assert data == line + LINE_END + rest;
    size, extension := SplitLine(line);
  }

  /** Whatever is decoded was a chunked encoding, but for the two bytes that close a chunk, which go unread. */
  lemma {:induction false} DecodedIsEncoded(data: string, before: string)
    returns (chunks: seq<Chunk>, size: string, extension: string, tail: string)
    requires Decode(data, before).Whole?
    ensures Encodes(chunks, size, extension)
    ensures data == Encoded(chunks, size, extension) + tail && Decode(data, before).body == before + Body(chunks)
    decreases |data|
  {
    hide Find, SizeOf, HexNumber, Decode;
    var rest;
    size, extension, rest := WholeStarts(data, before);
    var n := HexNumber(size);
    if n == 0 {
      chunks, tail := [], rest;
      assert before + Body(chunks) == before;
    } else {
      var c := Chunk(size, extension, rest[..n], rest[n..n + 2]);
      assert rest == c.data + c.closing + rest[n + 2..];
      var more;
      more, size, extension, tail := DecodedIsEncoded(rest[n + 2..], before + c.data);
      chunks := [c] + more;
      assert chunks[1..] == more;
      Regroup(c.size + c.extension + LINE_END, c.data + c.closing, Encoded(more, size, extension), tail);
      assert before + c.data + Body(more) == before + Body(chunks);
    }
  }

  lemma LineIsWhole(data: string, end: nat)
    requires Find(data, LINE_END) == Some(end)
    ensures Find(data[..end], LINE_END).None? && end + 2 <= |data| && data[end..end + 2] == LINE_END
  {
    var r := Find(data[..end], LINE_END);
    assert data[..end] + data[end..] == data;
    if r.Some? { HoldsGrows(data[..end], data[end..], r.value, LINE_END); }
  }
}
