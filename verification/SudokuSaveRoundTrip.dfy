/** Saving and reading are inverse to each other. */
module SaveRoundTrip {
  import opened Cells
  import opened Solutions
  import opened Marks
  import opened Rater
  import opened GameRules
  import opened GameInvariant
  import opened SaveFormat

  lemma {:induction false} NoteBytesAt(notes: seq<set<int>>, i: nat)
    requires i < |notes|
    ensures NoteBytes(notes)[2 * i..2 * i + 2] == U16(NoteBits(notes[i]) % 65536)
  {
    hide NoteBits, U16;
    var n := |notes| - 1;
    if i < n {
      NoteBytesAt(notes[..n], i);
      assert NoteBytes(notes)[2 * i..2 * i + 2] == NoteBytes(notes[..n])[2 * i..2 * i + 2];
    }
  }

  lemma FrontSlice(front: seq<byte>, last: seq<byte>, i: nat, j: nat)
    requires i <= j <= |front|
    ensures (front + last)[i..j] == front[i..j]
  {
  }

  lemma {:induction false} MoveBytesAt(moves: seq<nat>, i: nat)
    requires i < |moves|
    ensures MoveBytes(moves)[2 * i..2 * i + 2] == U16(moves[i] % 65536)
  {
    hide U16;
    var n := |moves| - 1;
    if i < n {
      MoveBytesAt(moves[..n], i);
      FrontSlice(MoveBytes(moves[..n]), U16(moves[n] % 65536), 2 * i, 2 * i + 2);
    }
  }

  lemma {:induction false} ChangeBytesAt(changes: seq<Change>, i: nat)
    requires i < |changes|
    ensures ChangeBytes(changes)[4 * i..4 * i + 4] == ChangeRecord(changes[i])
  {
    hide ChangeRecord;
    var n := |changes| - 1;
    if i < n {
      ChangeBytesAt(changes[..n], i);
      FrontSlice(ChangeBytes(changes[..n]), ChangeRecord(changes[n]), 4 * i, 4 * i + 4);
    }
  }

  /** Where each part of a save lies. */
  lemma Parts(g: Fields)
    requires Fits8(g)
    ensures var b, m := Encode(g), 2 * |g.moves|;
      && b[0..4] == U32(MAGIC) && b[4..8] == U32(VERSION) && b[8..251] == Grids(g)
      && b[251..413] == NoteBytes(g.board.notes) && b[413..425] == Flags(g) && b[425..433] == Counts(g)
      && b[433..433 + m] == MoveBytes(g.moves) && b[433 + m..] == ChangeBytes(g.changes)
  {
  }

  lemma SubSlice(b: seq<byte>, at: nat, part: seq<byte>, i: nat, n: nat)
    requires at + |part| <= |b| && b[at..at + |part|] == part && i + n <= |part|
    ensures b[at + i..at + i + n] == part[i..i + n]
  {
    assert forall k :: 0 <= k < |part| ==> b[at + k] == part[k];
  }

  /** The log's bytes come back as the log. */
  lemma MovesRead(b: seq<byte>, at: nat, moves: seq<nat>)
    requires at + 2 * |moves| <= |b| && b[at..at + 2 * |moves|] == MoveBytes(moves)
    requires forall i :: 0 <= i < |moves| ==> moves[i] < 65536
    ensures MovesAt(b, at, |moves|) == moves
  {
    hide U16, Get16, MoveBytes;
    forall i | 0 <= i < |moves| ensures Get16(b, at + 2 * i) == moves[i] {
      MoveRead(b, at, moves, i);
    }
  }

  lemma MoveRead(b: seq<byte>, at: nat, moves: seq<nat>, i: nat)
    requires at + 2 * |moves| <= |b| && b[at..at + 2 * |moves|] == MoveBytes(moves)
    requires i < |moves| && moves[i] < 65536
    ensures Get16(b, at + 2 * i) == moves[i]
  {
    hide U16, Get16, MoveBytes;
    MoveBytesAt(moves, i);
    SubSlice(b, at, MoveBytes(moves), 2 * i, 2);
    GetAt(b, at + 2 * i, U16(moves[i] % 65536));
    U16RoundTrip(moves[i]);
  }

  lemma MasksRead(b: seq<byte>, at: nat, notes: Masks)
    requires at + 162 <= |b| && b[at..at + 162] == NoteBytes(notes)
    requires forall c: Cell :: notes[c] <= Digits()
    ensures GoodMasks(b, at) && MasksAt(b, at) == notes
  {
    hide U16, Get16, NoteBits, NotesOf;
    forall c: Cell ensures Get16(b, at + 2 * c) < 512 && NotesOf(Get16(b, at + 2 * c)) == notes[c] {
      NoteBytesAt(notes, c);
      NotesRoundTrip(notes[c]);
      SubSlice(b, at, NoteBytes(notes), 2 * c, 2);
      GetAt(b, at + 2 * c, U16(NoteBits(notes[c]) % 65536));
      U16RoundTrip(NoteBits(notes[c]));
    }
    SameMasks(MasksAt(b, at), notes);
  }

  lemma ChangeRead(b: seq<byte>, at: nat, change: Change)
    requires at + 4 <= |b| && b[at..at + 4] == ChangeRecord(change)
    requires change.value <= 9 && change.notes <= Digits()
    ensures GoodChange(b, at) && ChangeAt(b, at) == change
  {
    hide NoteBits, NotesOf, U16, Get16;
    NotesRoundTrip(change.notes);
    var bits := NoteBits(change.notes);
    var head, tail := [change.cell, change.value % 256], U16(bits % 65536);
    assert b[at..at + 4] == head + tail;
    assert b[at] == b[at..at + 4][0] && b[at + 1] == b[at..at + 4][1];
    SubSlice(b, at, head + tail, 2, 2);
    assert (head + tail)[2..4] == tail;
    hide ChangeRecord;
    GetAt(b, at + 2, tail);
    U16RoundTrip(bits);
  }

  lemma ChangesRead(b: seq<byte>, at: nat, changes: seq<Change>)
    requires at + 4 * |changes| <= |b| && b[at..at + 4 * |changes|] == ChangeBytes(changes)
    requires forall i :: 0 <= i < |changes| ==> changes[i].value <= 9 && changes[i].notes <= Digits()
    ensures GoodChanges(b, at, |changes|) && ChangesAt(b, at, |changes|) == changes
  {
    hide ChangeRecord, GoodChange, ChangeAt, ChangeBytes, GoodChanges, ChangesAt, Digits, ReadsAs;
    forall i | 0 <= i < |changes| ensures ReadsAs(b, at, changes, i) {
      ChangeReadIn(b, at, changes, i);
    }
    SameChanges(b, at, changes);
  }

  /** The change at a place in the bytes is the one at this place in the list. */
  ghost predicate ReadsAs(b: seq<byte>, at: nat, changes: seq<Change>, i: nat)
    requires at + 4 * |changes| <= |b| && i < |changes|
  {
    GoodChange(b, at + 4 * i) && ChangeAt(b, at + 4 * i) == changes[i]
  }

  lemma SameChanges(b: seq<byte>, at: nat, changes: seq<Change>)
    requires at + 4 * |changes| <= |b| && forall i :: 0 <= i < |changes| ==> ReadsAs(b, at, changes, i)
    ensures GoodChanges(b, at, |changes|) && ChangesAt(b, at, |changes|) == changes
  {
    hide GoodChange, ChangeAt;
    forall i | 0 <= i < |changes| ensures GoodChange(b, at + 4 * i) && ChangeAt(b, at + 4 * i) == changes[i] {
      assert ReadsAs(b, at, changes, i);
    }
  }

  lemma ChangeReadIn(b: seq<byte>, at: nat, changes: seq<Change>, i: nat)
    requires at + 4 * |changes| <= |b| && b[at..at + 4 * |changes|] == ChangeBytes(changes)
    requires i < |changes| && changes[i].value <= 9 && changes[i].notes <= Digits()
    ensures ReadsAs(b, at, changes, i)
  {
    hide ChangeRecord, GoodChange, ChangeAt, ChangeBytes;
    ChangeBytesAt(changes, i);
    SubSlice(b, at, ChangeBytes(changes), 4 * i, 4);
    ChangeRead(b, at + 4 * i, changes[i]);
  }

  lemma GridsRead(g: Fields, b: seq<byte>)
    requires Fits8(g) && |b| >= 251 && b[8..251] == Grids(g)
    ensures GridAt(b, 8) == g.puzzle.givens && GridAt(b, 89) == g.puzzle.solution && GridAt(b, 170) == g.board.values
  {
  }

  lemma FlagsRead(g: Fields, b: seq<byte>)
    requires Fits8(g) && |b| >= 425 && b[413..425] == Flags(g)
    requires -1 <= g.selected < 81 && g.mistakes < 256
    ensures Unsigned(b[413]) == g.selected && b[414] == g.mistakes && b[415] == (if g.notesMode then 1 else 0)
    ensures b[416] == 0 && b[417..425] == g.elapsed
  {
  }

  lemma CountsRead(g: Fields, b: seq<byte>)
    requires |b| >= 433 && b[425..433] == Counts(g) && |g.moves| < 4294967296 && |g.changes| < 4294967296
    ensures Get32(b, 425) == |g.moves| && Get32(b, 429) == |g.changes|
  {
    hide U32, Get32;
    SubSlice(b, 425, Counts(g), 0, 4);
    SubSlice(b, 425, Counts(g), 4, 4);
    GetAt(b, 425, U32(|g.moves|));
    GetAt(b, 429, U32(|g.changes|));
    U32RoundTrip(|g.moves|);
    U32RoundTrip(|g.changes|);
  }

  /** Every savable game reads back as itself. */
  lemma ReadEncode(g: Fields)
    requires Savable(g)
    ensures Fits8(g) && Readable(Encode(g)) && Read(Encode(g)) == g
  {
    hide U32, U16, Get32, Get16, Grids, NoteBytes, Flags, Counts, MoveBytes, ChangeBytes, GridAt, MasksAt, MovesAt,
      ChangesAt,
      GoodMasks, GoodChanges, ValidPuzzle, ValidElapsed, Encode, Unsigned;
    PlayableFits(g);
    Parts(g);
    var b, m := Encode(g), 2 * |g.moves|;
    GetAt(b, 0, U32(MAGIC));
    GetAt(b, 4, U32(VERSION));
    U32RoundTrip(MAGIC);
    U32RoundTrip(VERSION);
    GridsRead(g, b);
    MasksRead(b, 251, g.board.notes);
    FlagsRead(g, b);
    CountsRead(g, b);
    MovesRead(b, 433, g.moves);
    assert b[433 + m..] == b[433 + m..433 + m + 4 * |g.changes|];
    ChangesRead(b, 433 + m, g.changes);
  }

  lemma {:induction false} MovesWritten(b: seq<byte>, at: nat, n: nat)
    requires at + 2 * n <= |b|
    ensures MoveBytes(MovesAt(b, at, n)) == b[at..at + 2 * n]
  {
    hide U16, Get16;
    if n > 0 {
      MovesWritten(b, at, n - 1);
      assert MovesAt(b, at, n)[..n - 1] == MovesAt(b, at, n - 1);
      Get16RoundTrip(b, at + 2 * (n - 1));
      assert b[at..at + 2 * n] == b[at..at + 2 * (n - 1)] + b[at + 2 * (n - 1)..at + 2 * n];
    }
  }

  lemma {:induction false} MasksWritten(b: seq<byte>, at: nat, n: nat)
    requires at + 162 <= |b| && GoodMasks(b, at) && n <= 81
    ensures NoteBytes(MasksAt(b, at)[..n]) == b[at..at + 2 * n]
  {
    hide U16, Get16, NoteBits, NotesOf;
    if n > 0 {
      MasksWritten(b, at, n - 1);
      var masks, last := MasksAt(b, at)[..n], at + 2 * (n - 1);
      assert masks[..n - 1] == MasksAt(b, at)[..n - 1];
      var c: Cell := n - 1;
      assert Get16(b, at + 2 * c) < 512;
      BitsRoundTrip(Get16(b, last));
      Get16RoundTrip(b, last);
      assert b[at..at + 2 * n] == b[at..last] + b[last..at + 2 * n];
    }
  }

  lemma ChangeWritten(b: seq<byte>, at: nat)
    requires at + 4 <= |b| && GoodChange(b, at)
    ensures ChangeRecord(ChangeAt(b, at)) == b[at..at + 4]
  {
    hide U16, Get16, NoteBits, NotesOf;
    BitsRoundTrip(Get16(b, at + 2));
    Get16RoundTrip(b, at + 2);
    assert b[at..at + 4] == [b[at], b[at + 1]] + b[at + 2..at + 4];
  }

  lemma {:induction false} ChangesWritten(b: seq<byte>, at: nat, n: nat)
    requires at + 4 * n <= |b| && GoodChanges(b, at, n)
    ensures ChangeBytes(ChangesAt(b, at, n)) == b[at..at + 4 * n]
  {
    hide ChangeRecord, ChangeAt, GoodChange;
    if n > 0 {
      ChangesWritten(b, at, n - 1);
      var last := at + 4 * (n - 1);
      assert ChangesAt(b, at, n)[..n - 1] == ChangesAt(b, at, n - 1);
      ChangeWritten(b, last);
      assert b[at..at + 4 * n] == b[at..last] + b[last..at + 4 * n];
    }
  }

  lemma GridsWritten(b: seq<byte>, g: Fields)
    requires |b| >= 251 && Fits8(g)
    requires g.puzzle == Puzzle(GridAt(b, 8), GridAt(b, 89)) && g.board.values == GridAt(b, 170)
    ensures Grids(g) == b[8..251]
  {
  }

  lemma FlagsWritten(b: seq<byte>, g: Fields)
    requires |b| >= 425 && Fits8(g) && b[415] <= 1 && b[416] == 0
    requires g.selected == Unsigned(b[413]) && g.mistakes == b[414] && g.notesMode == (b[415] == 1) &&
      g.elapsed == b[417..425]
    ensures Flags(g) == b[413..425]
  {
  }

  lemma CountsWritten(b: seq<byte>, g: Fields)
    requires |b| >= 433 && |g.moves| == Get32(b, 425) && |g.changes| == Get32(b, 429)
    ensures Counts(g) == b[425..433]
  {
    hide U32, Get32;
    Get32RoundTrip(b, 425);
    Get32RoundTrip(b, 429);
    assert b[425..433] == b[425..429] + b[429..433];
  }

  lemma ReadFits(b: seq<byte>)
    requires Readable(b)
    ensures Fits8(Read(b))
  {
  }

  /** Bytes that read as a game are that game's bytes. */
  lemma EncodeRead(b: seq<byte>)
    requires Readable(b)
    ensures Fits8(Read(b)) && Encode(Read(b)) == b
  {
    hide U32, U16, Get32, Get16, Grids, NoteBytes, Flags, Counts, MoveBytes, ChangeBytes, GridAt, MasksAt,
      GoodMasks, GoodChanges, Unsigned, Fits8, ChangeAt;
    ReadFits(b);
    var g := Read(b);
    var m, n := Get32(b, 425), Get32(b, 429);
    Get32RoundTrip(b, 0);
    Get32RoundTrip(b, 4);
    GridsWritten(b, g);
    MasksWritten(b, 251, 81);
    assert g.board.notes[..81] == g.board.notes;
    FlagsWritten(b, g);
    CountsWritten(b, g);
    MovesWritten(b, 433, m);
    ChangesWritten(b, 433 + 2 * m, n);
    assert b == b[0..4] + b[4..8] + b[8..251] + b[251..413] + b[413..425] + b[425..433] + b[433..433 + 2 * m]
      + b[433 + 2 * m..433 + 2 * m + 4 * n];
  }
}
