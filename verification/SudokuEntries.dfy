/** What playing a cell does, cell by cell and digit by digit. */
module Entries {
  import opened Pigeonhole
  import opened Cells
  import opened Solutions
  import opened Marks
  import opened GameRules
  import opened UndoHistory

  /** The third mistake loses; until then the right digits in all cells win. */
  ghost predicate IsStatus(g: Fields, status: Status) {
    match status
    case Lost => g.mistakes >= 3
    case Won => g.mistakes < 3 && forall c: Cell :: g.board.values[c] == g.puzzle.solution[c]
    case Playing => g.mistakes < 3 && exists c: Cell :: g.board.values[c] != g.puzzle.solution[c]
  }

  /** In play, a cell that no clue fills and that does not show its digit yet. */
  ghost predicate MayChange(g: Fields, c: int) {
    && 0 <= c < 81 && g.puzzle.givens[c] == 0 && g.board.values[c] != g.puzzle.solution[c] && IsStatus(g, Playing)
  }

  /** Nothing but the board, the mistakes and the log changes. */
  predicate SameGame(g: Fields, f: Fields) {
    f.puzzle == g.puzzle && f.selected == g.selected && f.notesMode == g.notesMode && f.elapsed == g.elapsed
  }

  predicate Right(g: Fields, digit: int)
    requires 0 <= g.selected < 81
  {
    digit == g.puzzle.solution[g.selected]
  }

  /** A digit that goes into the selected cell, outside note mode. */
  ghost predicate GoesIn(g: Fields, digit: int) {
    IsDigit(digit) && !g.notesMode && MayChange(g, g.selected) && g.board.values[g.selected] != digit
  }

  /** A digit that is noted in the selected cell, or no longer is. */
  ghost predicate IsNoted(g: Fields, digit: int) {
    IsDigit(digit) && g.notesMode && MayChange(g, g.selected) && g.board.values[g.selected] == 0
  }

  /** The notes that go: all of the cell itself, and those of a right digit in the empty cells that it sees. */
  predicate Leaves(g: Fields, digit: int, k: Cell, e: int)
    requires 0 <= g.selected < 81
  {
    k == g.selected || (Right(g, digit) && e == digit && Sees(g.selected, k) && g.board.values[k] == 0)
  }

  /** A unit through the selected cell with all its digits right. */
  ghost predicate IsDone(g: Fields, f: Fields, u: int) {
    0 <= u < 27 && InUnit(g.selected, u) && forall k: Cell :: InUnit(k, u) ==> f.board.values[k] == g.puzzle.solution[k]
  }

  /** The selected cell shows the digit; a right one leaves the notes of empty cells in sight, else it is a mistake. */
  ghost predicate PutIn(g: Fields, digit: int, f: Fields, move: Move)
    requires 0 <= g.selected < 81
  {
    && SameGame(g, f) && f.mistakes == g.mistakes + (if Right(g, digit) then 0 else 1)
    && (forall k: Cell :: f.board.values[k] == if k == g.selected then digit else g.board.values[k])
    && (forall k: Cell, e :: e in f.board.notes[k] <==> e in g.board.notes[k] && !Leaves(g, digit, k, e))
    && move.changed && (move.mistake <==> !Right(g, digit))
    && forall u :: u in move.completed <==> Right(g, digit) && IsDone(g, f, u)
  }

  /** The digit joins or leaves the notes of the selected cell. */
  ghost predicate Noted(g: Fields, digit: int, f: Fields, move: Move)
    requires 0 <= g.selected < 81
  {
    && SameGame(g, f) && f.mistakes == g.mistakes && f.board.values == g.board.values && move == Move(true, false, {})
    && forall k: Cell, e :: e in f.board.notes[k] <==> (e in g.board.notes[k]) != (k == g.selected && e == digit)
  }

  ghost predicate Entered(g: Fields, digit: int, f: Fields, move: Move) {
    if GoesIn(g, digit) then PutIn(g, digit, f, move)
    else if IsNoted(g, digit) then Noted(g, digit, f, move)
    else f == g && move == Move(false, false, {})
  }

  /** The selected cell is emptied of its digit and its notes. */
  ghost predicate Emptied(g: Fields, f: Fields, move: Move) {
    if MayChange(g, g.selected) && (g.board.values[g.selected] != 0 || exists e :: e in g.board.notes[g.selected]) then
      && SameGame(g, f) && f.mistakes == g.mistakes && move == Move(true, false, {})
      && (forall k: Cell :: f.board.values[k] == if k == g.selected then 0 else g.board.values[k])
      && forall k: Cell, e :: e in f.board.notes[k] <==> e in g.board.notes[k] && k != g.selected
    else f == g && move == Move(false, false, {})
  }

  lemma StatusIs(g: Fields)
    ensures forall status :: StatusOf(g) == status <==> IsStatus(g, status)
  {
    if g.board.values != g.puzzle.solution { var c: Cell :| g.board.values[c] != g.puzzle.solution[c]; }
  }

  lemma MayChangeIs(g: Fields, c: int)
    ensures Editable(g, c) <==> MayChange(g, c)
  {
    StatusIs(g);
  }

  lemma FinishLeaves(g: Fields, board: Board, changes: seq<Change>)
    requires LogFits(g.changes, g.moves)
    ensures var f := Finish(g, board, changes); f.board == board && SameGame(g, f) && f.mistakes == g.mistakes
  {
  }

  /** What entering a digit means. */
  lemma EnterMeans(g: Fields, digit: int)
    requires LogFits(g.changes, g.moves)
    ensures Entered(g, digit, Enter(g, digit).0, Enter(g, digit).1)
  {
    hide MayChange, Finish, Editable, UnitComplete, ErasedChanges, LogFits;
    MayChangeIs(g, g.selected);
    if GoesIn(g, digit) {
      EnterPuts(g, digit);
    } else if IsNoted(g, digit) {
      SelectedIs(g);
      var cell, b := g.selected, g.board;
      FinishLeaves(g, Board(b.values, b.notes[cell := Toggle(b.notes[cell], digit)]), [Record(b, cell)]);
    }
  }

  lemma UnitIs(values: Grid, solution: Grid, u: Unit)
    ensures UnitComplete(values, solution, u) <==> forall k: Cell :: InUnit(k, u) ==> values[k] == solution[k]
  {
    hide InUnit, CellAt, PositionOf;
    forall k: Cell | InUnit(k, u) ensures 0 <= PositionOf(u, k) < 9 && At(u, PositionOf(u, k)) == k { PlaceIs(u, k); }
    if forall k: Cell :: InUnit(k, u) ==> values[k] == solution[k] {
      forall i: Position ensures values[At(u, i)] == solution[At(u, i)] { assert InUnit(At(u, i), u); }
    }
  }

  lemma PlaceIs(u: Unit, k: Cell)
    requires InUnit(k, u)
    ensures 0 <= PositionOf(u, k) < 9 && At(u, PositionOf(u, k)) == k
  {
    PositionOfInverse(u, k);
    assert At(u, PositionOf(u, k)) == CellAt(u, PositionOf(u, k));
  }

  lemma EnterPuts(g: Fields, digit: int)
    requires LogFits(g.changes, g.moves) && GoesIn(g, digit)
    ensures PutIn(g, digit, Enter(g, digit).0, Enter(g, digit).1)
  {
    hide Finish, Sees, InUnit, MayChange, ErasedChanges, LogFits, UnitComplete;
    MayChangeIs(g, g.selected);
    hide Editable;
    assert 0 <= g.selected < 81 by { SelectedIs(g); }
    var cell, b := g.selected, g.board;
    var placed := Board(b.values[cell := digit], b.notes[cell := {}]);
    if Right(g, digit) {
      var marks := ErasedChanges(placed, cell, digit, |b.values|);
      FinishLeaves(g, EraseMarks(placed, cell, digit), [Record(b, cell)] + marks);
      forall u: Unit { UnitIs(placed.values, g.puzzle.solution, u); }
    } else {
      FinishLeaves(g.(mistakes := g.mistakes + 1), placed, [Record(b, cell)]);
    }
  }

  lemma SelectedIs(g: Fields)
    requires MayChange(g, g.selected)
    ensures 0 <= g.selected < 81 && g.puzzle.givens[g.selected] == 0
  {
  }

  /** What erasing means. */
  lemma EraseMeans(g: Fields)
    requires LogFits(g.changes, g.moves)
    ensures Emptied(g, Erase(g).0, Erase(g).1)
  {
    hide Finish, MayChange, LogFits;
    MayChangeIs(g, g.selected);
    if MayChange(g, g.selected) {
      SelectedIs(g);
      var cell, b := g.selected, g.board;
      FinishLeaves(g, Board(b.values[cell := 0], b.notes[cell := {}]), [Record(b, cell)]);
      if b.notes[cell] != {} { var e := Member(b.notes[cell]); }
    }
  }

  // Over a whole game.

  /** The wrong digits put in. */
  ghost function Mistakes(g: Fields, ops: seq<Op>): set<nat>
    requires Good(g)
  {
    set i: nat | i < |ops| && IsMistake(RunOps(g, ops[..i]), ops[i])
  }

  ghost predicate IsMistake(g: Fields, op: Op) {
    op.EnterOp? && GoesIn(g, op.digit) && g.puzzle.solution[g.selected] != op.digit
  }

  lemma StepMistakes(g: Fields, op: Op)
    requires Good(g)
    ensures Step(g, op).mistakes == g.mistakes + if IsMistake(g, op) then 1 else 0
  {
    hide Enter, Erase, Rewind, MayChange;
    match op
    case EnterOp(digit) =>
      EnterMeans(g, digit);
      if GoesIn(g, digit) { SelectedIs(g); }
    case EraseOp => EraseMeans(g);
    case _ =>
  }

  lemma NoMistakes(g: Fields)
    requires Good(g)
    ensures Mistakes(g, []) == {}
  {
  }

  lemma MistakesGrow(g: Fields, ops: seq<Op>)
    requires Good(g) && ops != []
    ensures var n: nat, before := |ops| - 1, ops[..|ops| - 1];
      && n !in Mistakes(g, before)
      && Mistakes(g, ops) == Mistakes(g, before) + if IsMistake(RunOps(g, before), ops[n]) then {n} else {}
  {
    hide RunOps, IsMistake;
    var n: nat, before := |ops| - 1, ops[..|ops| - 1];
    forall i: nat ensures i in Mistakes(g, ops) <==>
      i in Mistakes(g, before) || (i == n && IsMistake(RunOps(g, before), ops[n]))
    {
      if i < n { assert ops[..i] == before[..i]; }
    }
  }

  /** Mistakes are counted, each once, never taken back, and the third one loses. */
  lemma {:induction false} MistakesCount(g: Fields, ops: seq<Op>)
    requires Good(g)
    ensures var f := RunOps(g, ops);
      f.mistakes == g.mistakes + |Mistakes(g, ops)| && (StatusOf(f) == Lost <==> g.mistakes + |Mistakes(g, ops)| >= 3)
    decreases |ops|
  {
    hide Step, IsMistake, StatusOf, IsStatus, Mistakes;
    if ops == [] {
      NoMistakes(g);
    } else {
      var n: nat, before := |ops| - 1, ops[..|ops| - 1];
      MistakesCount(g, before);
      StepMistakes(RunOps(g, before), ops[n]);
      MistakesGrow(g, ops);
    }
    StatusIs(RunOps(g, ops));
    LostAtThree(RunOps(g, ops));
  }

  lemma LostAtThree(g: Fields)
    ensures IsStatus(g, Lost) <==> g.mistakes >= 3
  {
  }

  lemma PushedBy(g: Fields, op: Op)
    requires Good(g) && Changes(g, op) && Good(Step(g, op))
    ensures 0 <= g.selected < 81 && Stack(Step(g, op)) == Trim(Stack(g) + [(g.board, g.selected as Cell)])
  {
    hide Finish, Trim, Past, Rewind, Erased, EraseMarks, UnitComplete;
    StepRefines(g, op);
    LogIgnored(g, if op.EnterOp? then op.digit else 0);
  }

  lemma UndoSelects(f: Fields)
    requires Good(f) && f.moves != [] && StatusOf(f) == Playing
    ensures |Stack(f)| > 0 && Undo(f).0.selected == Stack(f)[|Stack(f)| - 1].1
  {
    hide Rewind;
  }

  /** Undoing right after a move brings back the board and selects the cell that was played. */
  lemma UndoTakesBack(g: Fields, op: Op)
    requires Good(g) && Changes(g, op) && Good(Step(g, op)) && StatusOf(Step(g, op)) == Playing
    ensures var f := Step(g, op);
      Undo(f).1 && Undo(f).0.board == g.board && Undo(f).0.selected == g.selected && Undo(f).0.mistakes == f.mistakes
  {
    hide Past, LogFits, Step, Undo, Trim, Changes;
    var f := Step(g, op);
    PushedBy(g, op);
    TrimNotEmpty(Stack(g), (g.board, g.selected as Cell));
    PastLength(f.board, f.changes, f.moves);
    UndoPops(f);
    UndoSelects(f);
  }

  /** Every move is remembered, up to the last two thousand. */
  lemma TwoThousandMoves(g: Fields, op: Op)
    requires Good(g) && Changes(g, op) && |g.moves| <= 2000
    ensures |Step(g, op).moves| == if |g.moves| < 2000 then |g.moves| + 1 else 2000
  {
  }
}
