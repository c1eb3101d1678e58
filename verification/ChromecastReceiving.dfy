/** Reading a response from a connection, in whatever pieces it arrives. */
module Receiving {
  import opened Basics
  import opened Letters
  import opened TextSearch
  import opened ResponseHeads
  import opened Chunking

  const MAXIMUM_RESPONSE := 524288

  const BUFFER := 4096

  datatype Failure = BadChunks | Incomplete | ClosedEarly | TooLarge

  datatype Outcome = Response(status: nat, body: string) | Failed(failure: Failure)

  predicate Bodiless(status: nat) { status == 204 || status == 304 }

  /** The verdict on what has arrived so far, if there is one. */
  function Judge(raw: string): Option<Outcome> {
    var head := HeadOf(raw);
    if head.None? then None else HeadFits(raw); JudgeBody(head.value, raw[head.value.size..])
  }

  function JudgeBody(head: Head, rest: string): Option<Outcome> {
    if head.chunked then
      match Decode(rest, "")
      case Whole(body) => Some(Response(head.status, body))
      case Malformed => Some(Failed(BadChunks))
      case Partial => None
    else if 0 <= head.length <= |rest| then Some(Response(head.status, rest[..head.length]))
    else if Bodiless(head.status) then Some(Response(head.status, ""))
    else None
  }

  /** What the end of the stream means when there is no verdict yet. */
  function AtEnd(raw: string, clean: bool): Outcome {
    var head := HeadOf(raw);
    if !clean then Failed(Incomplete)
    else if head.Some? && !head.value.chunked && head.value.length < 0 then
      HeadFits(raw); Response(head.value.status, raw[head.value.size..])
    else Failed(ClosedEarly)
  }

  /** Reading on from what has arrived. */
  function Received(raw: string, pieces: seq<string>, clean: bool): Outcome
    decreases |pieces|
  {
    var verdict := Judge(raw);
    if verdict.Some? then verdict.value
    else if pieces == [] then AtEnd(raw, clean)
    else if |raw + pieces[0]| > MAXIMUM_RESPONSE then Failed(TooLarge)
    else Received(raw + pieces[0], pieces[1..], clean)
  }

  /** The same bytes in one piece. */
  function Whole(stream: string, clean: bool): Outcome {
    var verdict := Judge(stream);
    if verdict.Some? then verdict.value else AtEnd(stream, clean)
  }

  /** Reads what a connection delivers: some pieces, then a clean end or a failure. */
  method Receive(pieces: seq<string>, clean: bool) returns (outcome: Outcome)
    ensures outcome == Received("", pieces, clean)
  {
    hide HeadOf, Decode, HeadEnd;
    var raw, head, haveHead, next := "", FRESH, false, 0;
    while true
      invariant next <= |pieces|
      invariant Received(raw, pieces[next..], clean) == Received("", pieces, clean)
      invariant if haveHead then HeadOf(raw) == Some(head)
        else head == FRESH || (HeadEnd(raw).Some? && HeadOf(raw).None?)
      decreases |pieces| - next
    {
      if !haveHead {
        haveHead, head := ParseHead(raw, head);
      }
      if haveHead {
        HeadFits(raw);
        var rest := raw[head.size..];
        if head.chunked {
          var complete, decoded, bad := DecodeChunks(rest);
          if complete {
            return Response(head.status, decoded);
          }
          if bad {
            return Failed(BadChunks);
          }
        } else if head.length >= 0 && |rest| >= head.length {
          return Response(head.status, rest[..head.length]);
        } else if Bodiless(head.status) {
          return Response(head.status, "");
        }
      }
      if next == |pieces| {
        if !clean {
          return Failed(Incomplete);
        }
        return if haveHead && !head.chunked && head.length < 0 then Response(head.status, raw[head.size..])
          else Failed(ClosedEarly);
      }
      HeadStays(raw, pieces[next]);
      raw := raw + pieces[next];
      assert pieces[next..][1..] == pieces[next + 1..];
      next := next + 1;
      if |raw| > MAXIMUM_RESPONSE {
        return Failed(TooLarge);
      }
    }
  }

  lemma HeadStays(raw: string, more: string)
    ensures HeadOf(raw).Some? ==> HeadOf(raw + more) == HeadOf(raw)
    ensures HeadEnd(raw).Some? && HeadOf(raw).None? ==> HeadEnd(raw + more).Some? && HeadOf(raw + more).None?
  {
    hide HeadOf, HeadEnd;
    if HeadEnd(raw).Some? { HeadGrows(raw, more); }
  }

  // However the bytes are split.

  function Joined(pieces: seq<string>): string {
    if pieces == [] then "" else pieces[0] + Joined(pieces[1..])
  }

  /** The pieces in which reads into the buffer can deliver a stream. */
  ghost predicate Delivers(pieces: seq<string>, stream: string) {
    (forall p <- pieces :: 0 < |p| <= BUFFER) && Joined(pieces) == stream
  }

  /** A response that should have no body announces one and sends it. */
  predicate Hasty(stream: string) {
    var head := HeadOf(stream);
    head.Some? && !head.value.chunked && Bodiless(head.value.status) &&
      0 < head.value.length <= |stream| - head.value.size
  }

  /** A verdict on the first bytes stands when more arrive. */
  lemma VerdictStands(raw: string, more: string)
    requires Judge(raw).Some? && !Hasty(raw + more)
    ensures Judge(raw + more) == Judge(raw)
  {
    hide HeadOf, HeadEnd, Decode;
    HeadGrows(raw, more);
    HeadFits(raw);
    var head := HeadOf(raw).value;
    var rest := raw[head.size..];
    assert (raw + more)[head.size..] == rest + more;
    if head.chunked {
      DecodeGrows(rest, more, "");
    } else if 0 <= head.length <= |rest| {
      assert (rest + more)[..head.length] == rest[..head.length];
    }
  }

  /** Without such a response, every delivery of a stream gives what the stream gives in one piece. */
  lemma {:induction false} EveryDeliveryAgrees(raw: string, pieces: seq<string>, clean: bool)
    requires |raw + Joined(pieces)| <= MAXIMUM_RESPONSE && !Hasty(raw + Joined(pieces))
    ensures Received(raw, pieces, clean) == Whole(raw + Joined(pieces), clean)
    decreases |pieces|
  {
    hide Judge, Hasty, AtEnd;
    if pieces == [] {
      assert raw + Joined(pieces) == raw;
    } else if Judge(raw).Some? {
      VerdictStands(raw, Joined(pieces));
    } else {
      assert raw + pieces[0] + Joined(pieces[1..]) == raw + Joined(pieces);
      EveryDeliveryAgrees(raw + pieces[0], pieces[1..], clean);
    }
  }

  /** How much has arrived when at least so much has. */
  function Past(n: nat, pieces: seq<string>, goal: nat): nat
    decreases |pieces|
  {
    if n >= goal || pieces == [] then n else Past(n + |pieces[0]|, pieces[1..], goal)
  }

  /** The head is not there before all of it is, and from then on it is that of the whole stream. */
  lemma HeadArrives(raw: string, more: string)
    requires HeadOf(raw + more).Some?
    ensures if |raw| < HeadOf(raw + more).value.size then HeadOf(raw).None? else HeadOf(raw) == HeadOf(raw + more)
  {
    hide HeadOf, Find;
    var s := raw + more;
    HeadFits(s);
    var size := HeadOf(s).value.size;
    if |raw| < size {
      if HeadEnd(raw).Some? { HeadGrows(raw, more); }
    } else {
      HoldsGrows(raw, more, size - 4, HEAD_END);
      HeadGrows(raw, more);
    }
  }

  lemma NoVerdictYet(raw: string, more: string)
    requires HeadOf(raw + more).Some? && |raw| < HeadOf(raw + more).value.size
    ensures Judge(raw).None?
  {
    hide HeadOf, JudgeBody;
    HeadArrives(raw, more);
  }

  /** The verdict once the head of a hasty response is there. */
  lemma HastyVerdict(raw: string, more: string)
    requires Hasty(raw + more) && |raw| >= HeadOf(raw + more).value.size
    ensures var s := raw + more; var head := HeadOf(s).value; var end := head.size + head.length;
      Judge(raw) == Some(Response(head.status, if |raw| >= end then s[head.size..end] else ""))
  {
    hide HeadOf, Decode;
    HeadArrives(raw, more);
    var s := raw + more;
    HeadFits(s);
    var head := HeadOf(s).value;
    assert raw == s[..|raw|];
    if |raw| >= head.size + head.length {
      assert raw[head.size..][..head.length] == s[head.size..head.size + head.length];
    }
  }

  /** A hasty response is answered with its body exactly if the read that completes the head completes the body. */
  lemma {:induction false} HastyAnswer(raw: string, pieces: seq<string>, clean: bool)
    requires |raw + Joined(pieces)| <= MAXIMUM_RESPONSE && Hasty(raw + Joined(pieces))
    requires |raw| < HeadOf(raw + Joined(pieces)).value.size
    ensures var s := raw + Joined(pieces); var head := HeadOf(s).value; var end := head.size + head.length;
      Received(raw, pieces, clean) ==
        Response(head.status, if Past(|raw|, pieces, head.size) >= end then s[head.size..end] else "")
    decreases |pieces|
  {
    hide HeadOf, Judge, AtEnd;
    var s := raw + Joined(pieces);
    HeadFits(s);
    NoVerdictYet(raw, Joined(pieces));
    var size := HeadOf(s).value.size;
    assert pieces == [] ==> s == raw;
    var next, rest := raw + pieces[0], Joined(pieces[1..]);
    assert next + rest == s;
    if |next| < size {
      HastyAnswer(next, pieces[1..], clean);
    } else {
      HastyVerdict(next, rest);
      assert Past(|next|, pieces[1..], size) == |next|;
    }
  }

  function Singles(s: string): (r: seq<string>)
    ensures forall p <- r :: |p| == 1
    ensures Joined(r) == s
  {
    if s == "" then [] else [[s[0]]] + Singles(s[1..])
  }

  lemma {:induction false} JoinedParts(a: seq<string>, b: seq<string>)
    ensures Joined(a + b) == Joined(a) + Joined(b)
    decreases |a|
  {
    if a == [] {
      assert a + b == b;
    } else {
      assert (a + b)[1..] == a[1..] + b;
      JoinedParts(a[1..], b);
    }
  }

  lemma {:induction false} PastParts(n: nat, a: seq<string>, b: seq<string>, goal: nat)
    requires n + |Joined(a)| < goal
    ensures Past(n, a + b, goal) == Past(n + |Joined(a)|, b, goal)
    decreases |a|
  {
    if a == [] {
      assert a + b == b;
    } else {
      assert (a + b)[1..] == a[1..] + b;
      PastParts(n + |a[0]|, a[1..], b, goal);
    }
  }

  lemma {:induction false} PastSingles(n: nat, s: string, goal: nat)
    requires n <= goal <= n + |s|
    ensures Past(n, Singles(s), goal) == goal
    decreases |s|
  {
    if n < goal {
      assert Singles(s)[1..] == Singles(s[1..]);
      PastSingles(n + 1, s[1..], goal);
    }
  }

  lemma {:induction false} PastIsNear(n: nat, pieces: seq<string>, goal: nat)
    requires forall p <- pieces :: |p| <= BUFFER
    ensures n < goal ==> Past(n, pieces, goal) < goal + BUFFER
    decreases |pieces|
  {
    if n < goal && pieces != [] { PastIsNear(n + |pieces[0]|, pieces[1..], goal); }
  }

  /** Nothing depends on how a stream is delivered. */
  ghost predicate SplitFree(stream: string, clean: bool) {
    forall a, b :: Delivers(a, stream) && Delivers(b, stream) ==> Received("", a, clean) == Received("", b, clean)
  }

  lemma DeliveryAnswer(pieces: seq<string>, stream: string, clean: bool)
    requires Delivers(pieces, stream) && |stream| <= MAXIMUM_RESPONSE
    ensures !Hasty(stream) ==> Received("", pieces, clean) == Whole(stream, clean)
    ensures Hasty(stream) ==>
      var head := HeadOf(stream).value; var end := head.size + head.length;
      Received("", pieces, clean) == Response(head.status, if Past(0, pieces, head.size) >= end
        then stream[head.size..end] else "")
  {
    hide Received, Whole, Past, HeadOf, HeadEnd;
    assert "" + Joined(pieces) == stream;
    if Hasty(stream) {
      HeadFits(stream);
      HastyAnswer("", pieces, clean);
    } else {
      EveryDeliveryAgrees("", pieces, clean);
    }
  }

  /** A delivery byte by byte completes the head alone. */
  lemma SlowDelivery(stream: string, size: nat) returns (pieces: seq<string>)
    requires size <= |stream|
    ensures Delivers(pieces, stream) && Past(0, pieces, size) == size
  {
    pieces := Singles(stream);
    PastSingles(0, stream, size);
  }

  lemma PastBurst(before: seq<string>, burst: string, after: seq<string>, goal: nat)
    requires |Joined(before)| < goal <= |Joined(before)| + |burst|
    ensures Past(0, before + ([burst] + after), goal) == |Joined(before)| + |burst|
  {
    var n := |Joined(before)|;
    PastParts(0, before, [burst] + after, goal);
    hide Joined;
    assert ([burst] + after)[1..] == after;
    assert Past(n + |burst|, after, goal) == n + |burst|;
  }

  lemma JoinedBurst(before: seq<string>, burst: string, after: seq<string>)
    ensures Joined(before + ([burst] + after)) == Joined(before) + (burst + Joined(after))
  {
    JoinedParts(before, [burst] + after);
    assert ([burst] + after)[1..] == after;
  }

  /** A delivery can complete the head and the body at once. */
  lemma FastDelivery(stream: string, size: nat, end: nat) returns (pieces: seq<string>)
    requires 0 < size < end <= |stream| && end - size < BUFFER
    ensures Delivers(pieces, stream) && Past(0, pieces, size) == end
  {
    hide Singles, Joined, Past;
    var before, burst, after := Singles(stream[..size - 1]), stream[size - 1..end], Singles(stream[end..]);
    pieces := before + ([burst] + after);
    JoinedBurst(before, burst, after);
    PastBurst(before, burst, after, size);
    assert stream[..size - 1] + (burst + stream[end..]) == stream;
  }

  /** The two deliveries that tell a hasty response with a short body apart. */
  lemma SplitMatters(stream: string, clean: bool)
    requires Hasty(stream) && HeadOf(stream).value.length < BUFFER && |stream| <= MAXIMUM_RESPONSE
    ensures !SplitFree(stream, clean)
  {
    hide Received, HeadOf, HeadEnd, Delivers, Past;
    HeadFits(stream);
    var head := HeadOf(stream).value;
    var slow := SlowDelivery(stream, head.size);
    DeliveryAnswer(slow, stream, clean);
    var fast := FastDelivery(stream, head.size, head.size + head.length);
    DeliveryAnswer(fast, stream, clean);
    assert |stream[head.size..head.size + head.length]| > 0;
  }

  /** A response is independent of how its bytes are split exactly if it is not a short hasty one. */
  lemma SplitFreeExactly(stream: string, clean: bool)
    requires |stream| <= MAXIMUM_RESPONSE
    ensures SplitFree(stream, clean) <==> !(Hasty(stream) && HeadOf(stream).value.length < BUFFER)
  {
    if Hasty(stream) && HeadOf(stream).value.length < BUFFER {
      SplitMatters(stream, clean);
    } else {
      hide Received, Whole, HeadOf, HeadEnd, Joined;
      HeadFitsIfAny(stream);
      forall a, b | Delivers(a, stream) && Delivers(b, stream)
        ensures Received("", a, clean) == Received("", b, clean) {
        DeliveryAnswer(a, stream, clean);
        DeliveryAnswer(b, stream, clean);
        if Hasty(stream) {
          PastIsNear(0, a, HeadOf(stream).value.size);
          PastIsNear(0, b, HeadOf(stream).value.size);
        }
      }
    }
  }

  /** A response without content that announces and sends a byte nevertheless. */
  const HASTY_LINE := "HTTP/1.1 204 "

  const HASTY_HEADER := Header("content-length", "1")

  lemma StatusReads(line: string, space: nat, a: nat, b: nat, c: nat)
    requires |line| >= 12 && line[..5] == "HTTP/" && space + 4 <= |line| && line[space] == ' ' && ' ' !in line[..space]
    requires a < 10 && b < 10 && c < 10 && line[space + 1] as int == '0' as int + a
    requires line[space + 2] as int == '0' as int + b && line[space + 3] as int == '0' as int + c
    ensures Status(line) == Some(a * 100 + b * 10 + c)
  {
    assert line[space..space + 1] == " ";
    forall m: nat | m < space ensures !Holds(line, m, " ") {
      HoldsAt(line, m, " ", 0);
      assert line[m] == line[..space][m];
    }
    hide Find;
    FindIs(line, " ", space);
  }

  lemma HastyIsPrintable()
    ensures OneLine(HASTY_LINE) && ValidHeader(HASTY_HEADER)
  {
  }

  lemma HastyLineReads()
    ensures Status(HASTY_LINE) == Some(204)
  {
    hide Status;
    var line := HASTY_LINE;
    assert line[..8] == "HTTP/1.1" && line[..5] == "HTTP/";
    StatusReads(line, 8, 2, 0, 4);
  }

  lemma HastyHeaderApplies(head: Head)
    ensures Apply(HASTY_HEADER.name, HASTY_HEADER.value, head) == Some(head.(length := 1))
  {
    var name, value := HASTY_HEADER.name, HASTY_HEADER.value;
    assert Trim(name) == name;
    assert Trim(value) == value;
    assert value[..|value| - 1] == "" && Length("") == Some(0);
    assert Length(value) == Some(1);
  }

  /** Its stream is one whose result depends on how it is split. */
  lemma HastyExists() returns (stream: string)
    ensures stream == HASTY_LINE + Printed([HASTY_HEADER]) + HEAD_END + "x"
    ensures |stream| <= MAXIMUM_RESPONSE && Hasty(stream) && HeadOf(stream).value.length < BUFFER
    ensures forall clean :: !SplitFree(stream, clean)
  {
    HastyIsPrintable();
    HastyLineReads();
    var line, headers := HASTY_LINE, [HASTY_HEADER];
    assert |Printed(headers)| == 18 by { assert headers[1..] == []; }
    hide HeadOf, Status, Printed, ApplyAll, SplitFree, Apply;
    stream := line + Printed(headers) + HEAD_END + "x";
    PrintedHeadReads(line, headers, "x");
    var head := FRESH.(status := 204, size := |line| + |Printed(headers)| + 4);
    HastyHeaderApplies(head);
    ApplyOne(headers, head);
    forall clean ensures !SplitFree(stream, clean) { SplitMatters(stream, clean); }
  }

  lemma ApplyOne(headers: seq<Header>, head: Head)
    requires |headers| == 1
    ensures ApplyAll(headers, head) == ApplyHeader(headers[0], head)
  {
    hide ApplyHeader;
    assert headers[1..] == [];
  }

  lemma HeadFitsIfAny(stream: string)
    ensures HeadOf(stream).Some? ==> 4 <= HeadOf(stream).value.size <= |stream|
  {
    hide HeadOf;
    if HeadOf(stream).Some? { HeadFits(stream); }
  }

  /** How the headers frame a body: by its length, in chunks, or by the end of the stream. */
  ghost predicate Frames(head: Head, rest: string, body: string, clean: bool) {
    if head.chunked then
      exists chunks, size, extension, tail ::
        Encodes(chunks, size, extension) && rest == Encoded(chunks, size, extension) + tail && body == Body(chunks)
    else if head.length >= 0 then |body| == head.length && body <= rest && (Bodiless(head.status) ==> body == "")
    else if Bodiless(head.status) then body == ""
    else clean && body == rest
  }

  /** A well-formed response that fits is received with its status and body, however it is delivered. */
  lemma ResponseArrives(line: string, headers: seq<Header>, rest: string, body: string, pieces: seq<string>,
      clean: bool)
    requires OneLine(line) && Status(line).Some? && forall h <- headers :: ValidHeader(h)
    requires ApplyAll(headers, FRESH.(status := Status(line).value, size := |line| + |Printed(headers)| + 4)).Some?
    requires var head := FRESH.(status := Status(line).value, size := |line| + |Printed(headers)| + 4);
      Frames(ApplyAll(headers, head).value, rest, body, clean)
    requires var stream := line + Printed(headers) + HEAD_END + rest;
      |stream| <= MAXIMUM_RESPONSE && Delivers(pieces, stream)
    ensures Received("", pieces, clean) == Response(Status(line).value, body)
  {
    hide Received, Printed, Status, Delivers, ApplyAll, HeadOf, HeadEnd, Decode, Encoded, Body, Encodes;
    var stream := line + Printed(headers) + HEAD_END + rest;
    PrintedHeadReads(line, headers, rest);
    HeadFits(stream);
    var head := HeadOf(stream).value;
    StatusStays(stream, line, headers, rest);
    assert stream[head.size..] == rest;
    if head.chunked {
      var chunks, size, extension, tail :|
        Encodes(chunks, size, extension) && rest == Encoded(chunks, size, extension) + tail && body == Body(chunks);
      DecodesEncoded(chunks, size, extension, tail, "");
      assert "" + body == body;
    }
    DeliveryAnswer(pieces, stream, clean);
  }

  lemma StatusStays(stream: string, line: string, headers: seq<Header>, rest: string)
    requires OneLine(line) && Status(line).Some? && forall h <- headers :: ValidHeader(h)
    requires stream == line + Printed(headers) + HEAD_END + rest && HeadOf(stream).Some?
    ensures HeadOf(stream).value.status == Status(line).value && HeadOf(stream).value.size == |stream| - |rest|
  {
    hide Status, Fields, Find, Line, HeadOf, Printed;
    PrintedHeadReads(line, headers, rest);
    ApplyAllKeeps(headers, FRESH.(status := Status(line).value, size := |line| + |Printed(headers)| + 4));
  }

  lemma {:induction false} ApplyAllKeeps(headers: seq<Header>, head: Head)
    ensures var r := ApplyAll(headers, head); r.Some? ==> r.value.status == head.status && r.value.size == head.size
    decreases |headers|
  {
    hide Trim, SameText, Length;
    if headers != [] {
      var next := ApplyHeader(headers[0], head);
      if next.Some? { ApplyAllKeeps(headers[1..], next.value); }
    }
  }
}
