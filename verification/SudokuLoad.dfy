/** Writing and reading the saved game step by step. */
module SavedGames {
  import opened Basics
  import opened Cells
  import opened Solutions
  import opened Rater
  import opened GameRules
  import opened GameInvariant
  import opened Games
  import opened SaveFormat
  import opened SaveRoundTrip

  /** The bytes of a game, appended field by field. */
  method EncodeGame(game: Game) returns (bytes: seq<byte>)
    requires game.Valid()
    ensures Fits8(game.F()) && bytes == Encode(game.F())
  {
    hide U32, U16, NoteBits, Playable;
    ghost var g := game.F();
    PlayableFits(g);
    bytes := U32(MAGIC) + U32(VERSION);
    bytes := bytes + Bytes(game.puzzle.givens) + Bytes(game.puzzle.solution) + Bytes(game.values[..]);
    assert bytes == U32(MAGIC) + U32(VERSION) + Grids(g);
    var notes := [];
    for c := 0 to 81
      invariant notes == NoteBytes(g.board.notes[..c])
    {
      assert g.board.notes[..c + 1][..c] == g.board.notes[..c];
      notes := notes + U16(NoteBits(game.notes[c]) % 65536);
    }
    assert g.board.notes[..81] == g.board.notes;
    bytes := bytes + notes;
    bytes := bytes + ([Signed(game.selected), game.mistakes % 256, if game.notesMode then 1 else 0, 0] + game.elapsed);
    bytes := bytes + (U32(|game.moves| % 4294967296) + U32(|game.changes| % 4294967296));
    assert bytes == Header(g);
    var log := EncodeLog(game.moves, game.changes);
    assert bytes + (MoveBytes(g.moves) + ChangeBytes(g.changes)) == bytes + MoveBytes(g.moves) + ChangeBytes(g.changes);
    bytes := bytes + log;
  }

  method EncodeLog(moves: seq<nat>, changes: seq<Change>) returns (bytes: seq<byte>)
    ensures bytes == MoveBytes(moves) + ChangeBytes(changes)
  {
    hide U16, ChangeRecord;
    bytes := [];
    for i := 0 to |moves|
      invariant bytes == MoveBytes(moves[..i])
    {
      assert moves[..i + 1][..i] == moves[..i];
      bytes := bytes + U16(moves[i] % 65536);
    }
    assert moves[..|moves|] == moves;
    var tail := [];
    for i := 0 to |changes|
      invariant tail == ChangeBytes(changes[..i])
    {
      assert changes[..i + 1][..i] == changes[..i];
      tail := tail + ChangeRecord(changes[i]);
    }
    assert changes[..|changes|] == changes;
    bytes := bytes + tail;
  }

  /** Moves through a saved file, refusing to read past its end. */
  class Reader {
    const bytes: seq<byte>
    var offset: nat

    constructor (bytes: seq<byte>)
      ensures this.bytes == bytes && offset == 0
    {
      this.bytes := bytes;
      offset := 0;
    }

    method Get(size: nat) returns (ok: bool, part: seq<byte>)
      requires offset <= |bytes|
      modifies this
      ensures ok <==> old(offset) + size <= |bytes|
      ensures ok ==> offset == old(offset) + size && part == bytes[old(offset)..offset]
      ensures offset <= |bytes|
    {
      if |bytes| - offset < size { return false, []; }
      part := bytes[offset..offset + size];
      offset := offset + size;
      ok := true;
    }
  }

  /** The fixed-size fields as stored. */
  datatype Head = Head(
    puzzle: Puzzle, values: Grid, bits: seq<nat>, selected: int, mistakes: nat, mode: nat, reserved: nat,
    elapsed: seq<byte>, moveCount: nat, changeCount: nat)

  ghost function HeadAt(b: seq<byte>): Head
    requires |b| >= 433
  {
    Head(Puzzle(GridAt(b, 8), GridAt(b, 89)), GridAt(b, 170),
         seq(81, c requires 0 <= c < 81 => Get16(b, 251 + 2 * c)),
         Unsigned(b[413]), b[414], b[415], b[416], b[417..425], Get32(b, 425), Get32(b, 429))
  }

  /** The head put together from the parts read. */
  lemma HeadOfParts(b: seq<byte>, grids: seq<byte>, notes: seq<byte>, rest: seq<byte>)
    requires |b| >= 433 && grids == b[8..251] && notes == b[251..413] && rest == b[413..433]
    ensures GridAt(grids, 0) == GridAt(b, 8) && GridAt(grids, 81) == GridAt(b, 89) &&
      GridAt(grids, 162) == GridAt(b, 170)
    ensures forall c: Cell :: Get16(notes, 2 * c) == Get16(b, 251 + 2 * c)
    ensures rest[0] == b[413] && rest[1] == b[414] && rest[2] == b[415] && rest[3] == b[416] &&
      rest[4..12] == b[417..425]
    ensures Get32(rest, 12) == Get32(b, 425) && Get32(rest, 16) == Get32(b, 429)
  {
  }

  method GetHead(r: Reader) returns (ok: bool, h: Head)
    requires r.offset == 0
    modifies r
    ensures ok <==> |r.bytes| >= 433 && Get32(r.bytes, 0) == MAGIC && Get32(r.bytes, 4) == VERSION
    ensures ok ==> r.offset == 433 && h == HeadAt(r.bytes)
  {
    hide Get16, Get32, GridAt, Unsigned;
    var zero: Grid := seq(81, _ => 0);
    h := Head(Puzzle(zero, zero), zero, [], 0, 0, 0, 0, [], 0, 0);
    var b;
    ok, b := r.Get(8);
    if ok { GetAt(r.bytes, 0, b[0..4]); GetAt(b, 0, b[0..4]); GetAt(r.bytes, 4, b[4..8]); GetAt(b, 4, b[4..8]); }
    if !ok || Get32(b, 0) != MAGIC || Get32(b, 4) != VERSION { return false, h; }
    ok, b := r.Get(243);
    if !ok { return; }
    ghost var grids := b;
    var givens, solution, values := GridAt(b, 0), GridAt(b, 81), GridAt(b, 162);
    ok, b := r.Get(162);
    if !ok { return; }
    ghost var notes := b;
    var bits := seq(81, c requires 0 <= c < 81 => Get16(b, 2 * c));
    ok, b := r.Get(20);
    if !ok { return; }
    HeadOfParts(r.bytes, grids, notes, b);
    h := Head(Puzzle(givens, solution), values, bits, Unsigned(b[0]), b[1], b[2], b[3], b[4..12], Get32(b, 12),
      Get32(b, 16));
  }

  /** What a file must be to be accepted. */
  ghost predicate Accepts(b: seq<byte>) {
    Readable(b) && Savable(Read(b))
  }

  ghost predicate LogSizes(b: seq<byte>) {
    |b| >= 433 && Get32(b, 425) <= MAXIMUM_MOVES + 1 && Get32(b, 429) <= MAXIMUM_CHANGES
    && |b| == 433 + 2 * Get32(b, 425) + 4 * Get32(b, 429)
  }

  ghost predicate GoodLog(b: seq<byte>)
    requires LogSizes(b)
  {
    var m, n := Get32(b, 425), Get32(b, 429);
    && (forall i :: 0 <= i < m ==> MovesAt(b, 433, m)[i] > 0)
    && (forall i :: 0 <= i < n ==> GoodEntry(b, GridAt(b, 8), 433 + 2 * m + 4 * i))
    && Total(MovesAt(b, 433, m)) == n
  }

  /** A change in range that touches no clue. */
  predicate GoodEntry(b: seq<byte>, givens: Grid, at: nat)
    requires at + 4 <= |b|
  {
    GoodChange(b, at) && givens[b[at]] == 0
  }

  ghost predicate GoodFlags(b: seq<byte>)
    requires |b| >= 433
  {
    -1 <= Unsigned(b[413]) < 81 && b[414] <= MAXIMUM_MISTAKES && b[415] <= 1 && b[416] == 0 && ValidElapsed(b[417..425])
  }

  ghost predicate GoodCells(b: seq<byte>)
    requires |b| >= 433
  {
    forall c: Cell :: GoodCell(GridAt(b, 8), GridAt(b, 170)[c], Get16(b, 251 + 2 * c), c)
  }

  predicate GoodCell(givens: Grid, value: nat, bits: nat, c: Cell) {
    value <= 9 && bits < 512 && (givens[c] != 0 ==> value == givens[c])
  }

  /** The reader's checks in its own order. */
  ghost predicate Checks(b: seq<byte>) {
    && |b| >= 433 && Get32(b, 0) == MAGIC && Get32(b, 4) == VERSION
    && LogSizes(b) && GoodLog(b) && GoodFlags(b)
    && ValidPuzzle(Puzzle(GridAt(b, 8), GridAt(b, 89)))
    && GoodCells(b)
  }

  lemma ChecksReadable(b: seq<byte>)
    requires Checks(b)
    ensures Readable(b)
  {
    hide Get32, Get16, GridAt, MovesAt, Unsigned, ValidElapsed, ValidPuzzle, NotesOf, GoodChange;
    var m, n := Get32(b, 425), Get32(b, 429);
    forall i | 0 <= i < n ensures GoodChange(b, 433 + 2 * m + 4 * i) {
      assert GoodEntry(b, GridAt(b, 8), 433 + 2 * m + 4 * i);
    }
    assert GoodChanges(b, 433 + 2 * m, n);
    forall c: Cell ensures Get16(b, 251 + 2 * c) < 512 {
      assert GoodCell(GridAt(b, 8), GridAt(b, 170)[c], Get16(b, 251 + 2 * c), c);
    }
    assert GoodMasks(b, 251);
  }

  lemma ChecksAccept(b: seq<byte>)
    requires Checks(b)
    ensures Accepts(b)
  {
    hide Get32, Get16, GridAt, MovesAt, Unsigned, ValidElapsed, ValidPuzzle, NotesOf;
    var m, n := Get32(b, 425), Get32(b, 429);
    ChecksReadable(b);
    var g := Read(b);
    CellsAccept(b);
    LogAccept(b);
    hide ValidBoard, ValidChange;
    MovesBounded(b, 433, m);
  }

  /** The cells that pass make a board in range that agrees with the givens. */
  lemma CellsAccept(b: seq<byte>)
    requires Checks(b) && Readable(b)
    ensures ValidBoard(Read(b).puzzle.givens, Read(b).board)
  {
    hide Get32, Get16, GridAt, MovesAt, Unsigned, ValidElapsed, ValidPuzzle, NotesOf, Digits;
    var g := Read(b);
    forall c: Cell ensures g.board.values[c] <= 9 && g.board.notes[c] <= Digits() &&
      (g.puzzle.givens[c] != 0 ==> g.board.values[c] == g.puzzle.givens[c])
    {
      BitsRoundTrip(Get16(b, 251 + 2 * c));
    }
  }

  /** The changes that pass are in range and spare the givens. */
  lemma LogAccept(b: seq<byte>)
    requires Checks(b) && Readable(b)
    ensures var g := Read(b); forall i :: 0 <= i < |g.changes| ==> ValidChange(g.puzzle.givens, g.changes[i])
  {
    hide Get32, Get16, GridAt, MovesAt, Unsigned, ValidElapsed, ValidPuzzle, NotesOf, Digits;
    var g, m := Read(b), Get32(b, 425);
    forall i | 0 <= i < |g.changes| ensures ValidChange(g.puzzle.givens, g.changes[i]) {
      var at := 433 + 2 * m + 4 * i;
      assert GoodEntry(b, GridAt(b, 8), at);
      BitsRoundTrip(Get16(b, at + 2));
    }
  }

  lemma MovesBounded(b: seq<byte>, at: nat, n: nat)
    requires at + 2 * n <= |b|
    ensures |MovesAt(b, at, n)| == n && forall i :: 0 <= i < n ==> MovesAt(b, at, n)[i] < 65536
  {
  }

  lemma AcceptedChecks(b: seq<byte>)
    requires Accepts(b)
    ensures Checks(b)
  {
    hide Get32, Get16, GridAt, Unsigned, ValidElapsed, ValidPuzzle, NotesOf;
    var g := Read(b);
    var m, n := Get32(b, 425), Get32(b, 429);
    forall i | 0 <= i < n ensures GoodEntry(b, GridAt(b, 8), 433 + 2 * m + 4 * i) {
      assert ValidChange(g.puzzle.givens, g.changes[i]);
      assert GoodChange(b, 433 + 2 * m + 4 * i);
    }
    forall c: Cell ensures GoodCell(GridAt(b, 8), GridAt(b, 170)[c], Get16(b, 251 + 2 * c), c) {
      assert g.board.values[c] <= 9;
    }
  }

  method GetMoves(r: Reader, n: nat) returns (ok: bool, moves: seq<nat>, total: nat)
    requires r.offset + 2 * n <= |r.bytes|
    modifies r
    ensures ok <==> forall i :: 0 <= i < n ==> MovesAt(r.bytes, old(r.offset), n)[i] > 0
    ensures ok ==>
      r.offset == old(r.offset) + 2 * n && moves == MovesAt(r.bytes, old(r.offset), n) && total == Total(moves)
  {
    hide Get16;
    ghost var start, all := r.offset, MovesAt(r.bytes, r.offset, n);
    moves, total := [], 0;
    for i := 0 to n
      invariant r.offset == start + 2 * i && moves == all[..i] && total == Total(moves)
      invariant forall k :: 0 <= k < i ==> all[k] > 0
    {
      var b;
      ok, b := r.Get(2);
      assert Get16(b, 0) == all[i] by { GetAt(r.bytes, start + 2 * i, b); }
      var size := Get16(b, 0);
      if size == 0 { return false, moves, total; }
      TotalOneMore(moves, size);
      moves := moves + [size];
      total := total + size;
    }
    ok := true;
  }

  method GetChanges(r: Reader, n: nat, givens: Grid) returns (ok: bool, changes: seq<Change>)
    requires r.offset + 4 * n <= |r.bytes|
    modifies r
    ensures ok <==> forall i :: 0 <= i < n ==> GoodEntry(r.bytes, givens, old(r.offset) + 4 * i)
    ensures ok ==> GoodChanges(r.bytes, old(r.offset), n) && changes == ChangesAt(r.bytes, old(r.offset), n)
  {
    hide Get16, NotesOf;
    ghost var start, bytes := r.offset, r.bytes;
    changes := [];
    for i := 0 to n
      invariant r.offset == start + 4 * i && |changes| == i
      invariant forall k :: 0 <= k < i ==> GoodEntry(bytes, givens, start + 4 * k)
      invariant forall k :: 0 <= k < i ==> changes[k] == ChangeAt(bytes, start + 4 * k)
    {
      var b;
      ok, b := r.Get(4);
      SameEntry(bytes, start + 4 * i, b, givens);
      if b[0] >= 81 || b[1] > 9 || Get16(b, 2) >= 512 || givens[b[0]] != 0 { return false, changes; }
      changes := changes + [Change(b[0], b[1], NotesOf(Get16(b, 2)))];
    }
    assert forall k :: 0 <= k < n ==> GoodEntry(bytes, givens, start + 4 * k);
    ok := true;
  }

  lemma SameEntry(bytes: seq<byte>, at: nat, b: seq<byte>, givens: Grid)
    requires at + 4 <= |bytes| && b == bytes[at..at + 4]
    ensures b[0] == bytes[at] && b[1] == bytes[at + 1] && Get16(b, 2) == Get16(bytes, at + 2)
    ensures GoodEntry(bytes, givens, at) <==> b[0] < 81 && b[1] <= 9 && Get16(b, 2) < 512 && givens[b[0]] == 0
    ensures GoodEntry(bytes, givens, at) ==> ChangeAt(bytes, at) == Change(b[0], b[1], NotesOf(Get16(b, 2)))
  {
  }

  method CellsInRange(givens: Grid, values: Grid, bits: seq<nat>) returns (ok: bool)
    requires |bits| == 81
    ensures ok <==> forall c: Cell :: GoodCell(givens, values[c], bits[c], c)
  {
    for c := 0 to 81
      invariant forall k: Cell :: k < c ==> GoodCell(givens, values[k], bits[k], k)
    {
      if !GoodCell(givens, values[c], bits[c], c) { return false; }
    }
    return true;
  }

  /** Reads a game back; every check must pass. */
  method DecodeGame(bytes: seq<byte>) returns (game: Option<Game>)
    ensures game.Some? <==> Accepts(bytes)
    ensures game.Some? ==> fresh(game.value) && game.value.Valid() && game.value.F() == Read(bytes)
  {
    hide Get32, Get16, GridAt, MovesAt, ChangesAt, Unsigned, ValidElapsed, ValidPuzzle, NotesOf, GoodEntry,
      GoodCell, Playable, Read, Readable, Savable;
    if Accepts(bytes) { AcceptedChecks(bytes); }
    var r := new Reader(bytes);
    var ok, h := GetHead(r);
    if !ok { return None; }
    if h.moveCount > MAXIMUM_MOVES + 1 || h.changeCount > MAXIMUM_CHANGES ||
      |bytes| - r.offset != h.moveCount * 2 + h.changeCount * 4
    {
      return None;
    }
    var moves, total, changes;
    ok, moves, total := GetMoves(r, h.moveCount);
    if !ok { return None; }
    ok, changes := GetChanges(r, h.changeCount, h.puzzle.givens);
    if !ok { return None; }
    if total != h.changeCount || h.selected < -1 || h.selected >= 81 || h.mistakes > MAXIMUM_MISTAKES ||
      h.mode > 1 || h.reserved != 0 || !ValidElapsed(h.elapsed)
    {
      return None;
    }
    ok := CheckPuzzle(h.puzzle);
    if !ok { return None; }
    ok := CellsInRange(h.puzzle.givens, h.values, h.bits);
    if !ok {
      assert !GoodCells(bytes);
      return None;
    }
    assert GoodCells(bytes);
    ChecksAccept(bytes);
    AcceptedFields(bytes, h);
    var notes := seq(81, c requires 0 <= c < 81 => NotesOf(h.bits[c]));
    var g := new Game.Loaded(
      Fields(h.puzzle, Board(h.values, notes), h.selected, h.mistakes, h.mode == 1, h.elapsed, changes, moves));
    return Some(g);
  }

  lemma AcceptedFields(b: seq<byte>, h: Head)
    requires Accepts(b) && h == HeadAt(b)
    ensures |h.bits| == 81 && Playable(Read(b))
    ensures Read(b) == Fields(h.puzzle, Board(h.values, seq(81, c requires 0 <= c < 81 => NotesOf(h.bits[c]))),
      h.selected,
      h.mistakes, h.mode == 1, h.elapsed, ChangesAt(b, 433 + 2 * h.moveCount, h.changeCount),
        MovesAt(b, 433, h.moveCount))
  {
  }

  /** Saving then loading gives the game back exactly when its log is within the reader's limit. */
  lemma SavedGameLoads(g: Fields)
    requires Playable(g)
    ensures Fits8(g)
    ensures |g.changes| <= MAXIMUM_CHANGES ==> Accepts(Encode(g)) && Read(Encode(g)) == g
    ensures |g.changes| > MAXIMUM_CHANGES ==> !Accepts(Encode(g))
  {
    hide Get32, Get16, GridAt, MovesAt, ChangesAt, Unsigned, ValidElapsed, ValidPuzzle, NotesOf, Encode, Read,
      Readable, Playable;
    PlayableFits(g);
    if |g.changes| <= MAXIMUM_CHANGES { ReadEncode(g); }
    else { TooManyChanges(g); }
  }

  lemma {:induction false} TotalBound(moves: seq<nat>)
    requires forall i :: 0 <= i < |moves| ==> moves[i] < 65536
    ensures Total(moves) <= 65536 * |moves|
  {
    if moves != [] { TotalBound(moves[..|moves| - 1]); }
  }

  lemma TooManyChanges(g: Fields)
    requires Playable(g) && Fits8(g) && |g.changes| > MAXIMUM_CHANGES
    ensures !Accepts(Encode(g))
  {
    hide U32, Get32, Get16, GridAt, MovesAt, ChangesAt, Unsigned, ValidElapsed, ValidPuzzle, NotesOf, Encode, Counts;
    TotalBound(g.moves);
    Parts(g);
    CountsRead(g, Encode(g));
    if Accepts(Encode(g)) { AcceptedChecks(Encode(g)); }
  }

  /** Accepted bytes are exactly the bytes of the game they load as. */
  lemma LoadedGameSaves(b: seq<byte>)
    requires Accepts(b)
    ensures Fits8(Read(b)) && Encode(Read(b)) == b
    ensures forall g: Fields :: Savable(g) && Fits8(g) && Encode(g) == b ==> g == Read(b)
  {
    hide Readable, Encode, Read, Savable, Fits8;
    EncodeRead(b);
    forall g: Fields | Savable(g) && Fits8(g) && Encode(g) == b ensures g == Read(b) { ReadEncode(g); }
  }
}
