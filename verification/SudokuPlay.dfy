/** Puzzle validation and the game object. */
module Games {
  import opened Basics
  import opened Cells
  import opened Solutions
  import opened Counting
  import opened Rater
  import opened GameRules
  import opened UndoHistory
  import opened GameInvariant
  import opened Entries

  /** Whether every unit shows all nine digits. */
  method ValidSolution(grid: Grid) returns (valid: bool)
    ensures valid <==> IsSolution(grid)
  {
    hide IsSolution, At, InUnit;
    SolutionByUnits(grid);
    for unit := 0 to 27
      invariant forall u: Unit, d | u < unit && 1 <= d <= 9 :: Shows(grid, u, d)
      invariant forall u: Unit, i: Position :: u < unit ==> 1 <= grid[At(u, i)] <= 9
    {
      var seen, inRange := UnitDigits(grid, unit);
      if !inRange { return false; }
      if seen != Digits() {
        assert UnitsComplete(grid) ==> Digits() <= seen;
        return false;
      }
    }
    forall c: Cell ensures 1 <= grid[c] <= 9 {
      UnitsOf(c);
      PositionOfInverse(Row(c), c);
      AtIs(Row(c), PositionOf(Row(c), c));
    }
    return true;
  }

  lemma AtIs(u: Unit, i: Position)
    ensures At(u, i) == CellAt(u, i)
  {
  }

  /** The digits a unit shows, if all are in range. */
  method UnitDigits(grid: Grid, unit: Unit) returns (seen: set<int>, inRange: bool)
    ensures inRange ==> (forall i: Position :: 1 <= grid[At(unit, i)] <= 9) && seen <= Digits()
    ensures inRange ==> forall d :: d in seen <==> Shows(grid, unit, d)
    ensures !inRange ==> !IsSolution(grid)
  {
    hide At, InUnit, CellAt;
    seen := {};
    for i := 0 to 9
      invariant forall k: Position :: k < i ==> 1 <= grid[At(unit, k)] <= 9
      invariant seen <= Digits()
      invariant forall d :: d in seen <==> exists k: Position :: k < i && grid[At(unit, k)] == d
    {
      var cell := At(unit, i);
      if grid[cell] < 1 || grid[cell] > 9 { return seen, false; }
      seen := seen + {grid[cell]};
    }
    forall d ensures d in seen <==> Shows(grid, unit, d) {
      if Shows(grid, unit, d) {
        var c: Cell :| InUnit(c, unit) && grid[c] == d;
        PositionOfInverse(unit, c);
        AtIs(unit, PositionOf(unit, c));
      }
    }
    return seen, true;
  }

  /** A puzzle is valid when its solution is a solution, its clues agree, and nothing else completes them. */
  method CheckPuzzle(p: Puzzle) returns (valid: bool)
    ensures valid <==> ValidPuzzle(p)
  {
    hide IsSolution;
    var ok := ValidSolution(p.solution);
    if !ok { return false; }
    for cell := 0 to 81
      invariant forall c: Cell :: c < cell && p.givens[c] != 0 ==> p.givens[c] == p.solution[c]
    {
      if p.givens[cell] != 0 && p.givens[cell] != p.solution[cell] { return false; }
    }
    var count, solution := CountSolutions(p.givens, 2, p.solution);
    SoleCompletion(p.givens, p.solution);
    return count == 1 && solution == p.solution;
  }

  class Game {
    const puzzle: Puzzle
    const values: array<nat>
    const notes: array<set<int>>
    var selected: int
    var mistakes: nat
    var notesMode: bool
    var elapsed: seq<int>
    var changes: seq<Change>
    var moves: seq<nat>

    ghost predicate Shape() {
      values.Length == 81 && notes.Length == 81
    }

    ghost function Now(): Board
      requires Shape()
      reads values, notes
    {
      Board(values[..], notes[..])
    }

    ghost function F(): Fields
      requires Shape()
      reads this, values, notes
    {
      Fields(puzzle, Now(), selected, mistakes, notesMode, elapsed, changes, moves)
    }

    ghost predicate Valid()
      reads this, values, notes
    {
      Shape() && Playable(F())
    }

    constructor (puzzle: Puzzle, board: Board)
      ensures Shape() && F() == Fields(puzzle, board, -1, 0, false, [0, 0, 0, 0, 0, 0, 0, 0], [], [])
      ensures fresh(values) && fresh(notes)
    {
      this.puzzle := puzzle;
      values := new nat[81](i requires 0 <= i < 81 => board.values[i]);
      notes := new set<int>[81](i requires 0 <= i < 81 => board.notes[i]);
      selected, mistakes, notesMode := -1, 0, false;
      elapsed := [0, 0, 0, 0, 0, 0, 0, 0];
      changes, moves := [], [];
      new;
      assert values[..] == board.values && notes[..] == board.notes;
    }

    /** A game with every field given, as read from a file. */
    constructor Loaded(g: Fields)
      ensures Shape() && F() == g
      ensures fresh(values) && fresh(notes)
    {
      puzzle := g.puzzle;
      values := new nat[81](i requires 0 <= i < 81 => g.board.values[i]);
      notes := new set<int>[81](i requires 0 <= i < 81 => g.board.notes[i]);
      selected, mistakes, notesMode, elapsed := g.selected, g.mistakes, g.notesMode, g.elapsed;
      changes, moves := g.changes, g.moves;
      new;
      assert values[..] == g.board.values && notes[..] == g.board.notes;
    }

    method GetStatus() returns (status: Status)
      requires Valid()
      ensures status == StatusOf(F()) && IsStatus(F(), status)
    {
      StatusIs(F());
      if mistakes >= MAXIMUM_MISTAKES { return Lost; }
      return if values[..] == puzzle.solution then Won else Playing;
    }

    method MayEdit(cell: int) returns (editable: bool)
      requires Valid()
      ensures (editable <==> Editable(F(), cell)) && (editable <==> MayChange(F(), cell))
    {
      MayChangeIs(F(), cell);
      if cell < 0 || cell >= 81 { return false; }
      var status := GetStatus();
      return status == Playing && puzzle.givens[cell] == 0 && values[cell] != puzzle.solution[cell];
    }

    method SelectCell(cell: int)
      requires Valid()
      modifies this
      ensures Valid() && F() == Step(old(F()), SelectOp(cell))
      ensures F() == old(F()).(selected := if -1 <= cell <= 80 then cell else old(selected))
    {
      hide Playable, LogFits;
      PlayableLog(F());
      StepKeeps(F(), SelectOp(cell));
      if cell >= -1 && cell < 81 { selected := cell; }
    }

    method ToggleNotes()
      requires Valid()
      modifies this
      ensures Valid() && F() == Step(old(F()), ToggleOp) && F() == old(F()).(notesMode := !old(notesMode))
    {
      hide Playable, LogFits;
      PlayableLog(F());
      StepKeeps(F(), ToggleOp);
      notesMode := !notesMode;
    }

    method RecordCell(cell: Cell)
      requires Shape()
      modifies this`changes
      ensures changes == old(changes) + [Record(Now(), cell)]
    {
      changes := changes + [Change(cell, values[cell], notes[cell])];
    }

    /** Groups the changes since `first` into a move, evicting the oldest move beyond the limit. */
    method FinishMove(first: nat, ghost g: Fields, ghost added: seq<Change>)
      requires Shape() && LogFits(g.changes, g.moves) && |added| <= 81 && first == |g.changes|
      requires F() == g.(board := Now(), changes := g.changes + added)
      modifies this`changes, this`moves
      ensures F() == Finish(g, Now(), added)
    {
      if |changes| == first {
        assert added == [] && g.changes + added == g.changes;
        return;
      }
      TotalOneMore(g.moves, |added|);
      FirstWithinTotal(g.moves + [|added|]);
      moves := moves + [(|changes| - first) % 65536];
      if |moves| > MAXIMUM_MOVES {
        changes := changes[moves[0]..];
        moves := moves[1..];
      }
    }

    /** Removes a placed digit from the notes of the empty cells that see it. */
    method RemoveMarks(cell: Cell, digit: Digit, ghost placed: Board)
      requires Shape() && Now() == placed
      modifies this`changes, notes
      ensures Now() == EraseMarks(placed, cell, digit)
      ensures changes == old(changes) + ErasedChanges(placed, cell, digit, |placed.values|)
    {
      hide Sees, ErasedChanges, Partly, EraseMarks;
      ghost var before := changes;
      PartlyNone(placed, cell, digit);
      for other := 0 to 81
        invariant values[..] == placed.values && notes[..] == Partly(placed, cell, digit, other).notes
        invariant changes == before + ErasedChanges(placed, cell, digit, other)
      {
        PartlyOneMore(placed, cell, digit, other);
        assert notes[..][other] == notes[other];
        if Sees(cell, other) && values[other] == 0 && digit in notes[other] {
          RecordCell(other);
          notes[other] := notes[other] - {digit};
        }
      }
      PartlyAll(placed, cell, digit);
      assert Partly(placed, cell, digit, 81).values == placed.values by { PartlyValues(placed, cell, digit); }
    }

    method UnitDone(unit: Unit) returns (done: bool)
      requires Shape()
      ensures done <==> UnitComplete(Now().values, puzzle.solution, unit)
    {
      hide At;
      for i := 0 to 9
        invariant forall k: Position :: k < i ==> values[At(unit, k)] == puzzle.solution[At(unit, k)]
      {
        var cell := At(unit, i);
        if values[cell] != puzzle.solution[cell] { return false; }
      }
      return true;
    }

    /** The units through a cell that are now complete. */
    method CompletedUnits(cell: Cell) returns (completed: set<int>)
      requires Shape()
      ensures completed == set u: Unit | InUnit(cell, u) && UnitComplete(Now().values, puzzle.solution, u) :: u as int
    {
      hide UnitComplete;
      UnitsOf(cell);
      completed := {};
      var done := UnitDone(Row(cell));
      if done { completed := completed + {Row(cell)}; }
      done := UnitDone(9 + Column(cell));
      if done { completed := completed + {9 + Column(cell)}; }
      done := UnitDone(18 + Box(cell));
      if done { completed := completed + {18 + Box(cell)}; }
    }

    /** Enters a digit, or toggles a pencil mark in notes mode. */
    method EnterDigit(digit: int) returns (move: Move)
      requires Valid()
      modifies this, values, notes
      ensures Valid() && (F(), move) == Enter(old(F()), digit) && Entered(old(F()), digit, F(), move)
    {
      hide Entered, MayChange, Playable, LogFits, Finish, ErasedChanges, EraseMarks, UnitComplete, InUnit;
      ghost var g := F();
      PlayableLog(g);
      EnterKeeps(g, digit);
      EnterMeans(g, digit);
      move := Move(false, false, {});
      var cell := selected;
      var editable := MayEdit(cell);
      if digit < 1 || digit > 9 || !editable { return; }
      if notesMode {
        if values[cell] != 0 { return; }
        ToggleMark(cell, digit);
        return Move(true, false, {});
      }
      if values[cell] != digit {
        move := EnterValue(cell, digit);
      }
    }

    method ToggleMark(cell: Cell, digit: Digit)
      requires Shape() && LogFits(changes, moves)
      modifies this`changes, this`moves, notes
      ensures F() == Finish(old(F()),
        Board(old(values[..]), old(notes[..])[cell := Toggle(old(notes[cell]), digit)]), [Record(old(Now()), cell)])
    {
      hide LogFits, Finish;
      ghost var g := F();
      var first := |changes|;
      RecordCell(cell);
      notes[cell] := if digit in notes[cell] then notes[cell] - {digit} else notes[cell] + {digit};
      FinishMove(first, g, [Record(g.board, cell)]);
    }

    /** Places a digit: a correct one clears marks and may complete units, a wrong one is a mistake. */
    method EnterValue(cell: Cell, digit: Digit) returns (move: Move)
      requires Valid() && selected == cell && !notesMode && Editable(F(), cell) && values[cell] != digit
      modifies this, values, notes
      ensures Shape() && (F(), move) == Enter(old(F()), digit)
    {
      hide Playable, LogFits, Finish, ErasedChanges, EraseMarks, UnitComplete, InUnit;
      ghost var g := F();
      PlayableLog(g);
      var first := |changes|;
      RecordCell(cell);
      values[cell] := digit;
      notes[cell] := {};
      ghost var placed := Board(g.board.values[cell := digit], g.board.notes[cell := {}]);
      assert Now() == placed;
      ghost var record := [Record(g.board, cell)];
      if digit == puzzle.solution[cell] {
        RemoveMarks(cell, digit, placed);
        ghost var marks := ErasedChanges(placed, cell, digit, |placed.values|);
        MarksCount(g, placed, cell, digit);
        var completed := CompletedUnits(cell);
        assert g.changes + record + marks == g.changes + (record + marks);
        FinishMove(first, g, record + marks);
        move := Move(true, false, completed);
        assert Now() == EraseMarks(placed, cell, digit);
      } else {
        mistakes := mistakes + 1;
        FinishMove(first, g.(mistakes := g.mistakes + 1), record);
        move := Move(true, true, {});
      }
    }

    method EraseCell() returns (move: Move)
      requires Valid()
      modifies this, values, notes
      ensures Valid() && (F(), move) == Erase(old(F())) && Emptied(old(F()), F(), move)
    {
      hide Emptied, MayChange, Playable, LogFits, Finish;
      ghost var g := F();
      PlayableLog(g);
      EraseKeeps(g);
      EraseMeans(g);
      move := Move(false, false, {});
      var cell := selected;
      var editable := MayEdit(cell);
      if !editable || (values[cell] == 0 && notes[cell] == {}) { return; }
      var first := |changes|;
      RecordCell(cell);
      values[cell] := 0;
      notes[cell] := {};
      FinishMove(first, g, [Record(g.board, cell)]);
      return Move(true, false, {});
    }

    /** Takes back the latest move; false when there is none or play is over. */
    method UndoMove() returns (done: bool)
      requires Valid()
      modifies this, values, notes
      ensures Valid() && (F(), done) == Undo(old(F()))
    {
      hide Playable, Rewind;
      ghost var g := F();
      PlayableLog(g);
      UndoKeeps(g);
      var status := GetStatus();
      if moves == [] || status != Playing { return false; }
      var count := moves[|moves| - 1];
      moves := moves[..|moves| - 1];
      var primary := changes[|changes| - count].cell;
      PopChanges(count);
      selected := primary;
      return true;
    }

    /** Takes the newest changes off the log, putting each cell back as it was. */
    method PopChanges(count: nat)
      requires Shape() && count <= |changes|
      modifies this`changes, values, notes
      ensures changes == old(changes)[..|old(changes)| - count]
      ensures Now() == Rewind(old(Now()), old(changes)[|old(changes)| - count..])
    {
      ghost var all, first := changes, Now();
      ghost var keep := |changes| - count;
      for i := 0 to count
        invariant |changes| == keep + count - i && changes == all[..|changes|]
        invariant Rewind(Now(), changes[keep..]) == Rewind(first, all[keep..])
      {
        var change := changes[|changes| - 1];
        ghost var left := changes[keep..];
        assert left[|left| - 1] == change && left[..|left| - 1] == changes[..|changes| - 1][keep..];
        changes := changes[..|changes| - 1];
        ghost var b := Now();
        values[change.cell] := change.value;
        notes[change.cell] := change.notes;
        assert Now() == Restore(b, change);
      }
      assert changes[keep..] == [];
    }

    /** Adds play time; the sum is what floating point makes of the addition. */
    method AddTime(seconds: seq<int>, sum: seq<int>)
      requires Valid() && (Passes(seconds) ==> Rounded(elapsed, seconds, sum))
      modifies this
      ensures Valid() && F() == Step(old(F()), TimeOp(Added(old(elapsed), seconds, sum)))
    {
      hide Playable, LogFits, ValidElapsed, Passes, AtMost;
      PlayableLog(F());
      AddedIsValid(elapsed, seconds, sum);
      StepKeeps(F(), TimeOp(Added(elapsed, seconds, sum)));
      var status := GetStatus();
      if Passes(seconds) && status == Playing { elapsed := if AtMost(sum, LONGEST, 8) then sum else LONGEST; }
    }
  }

  lemma PlayableLog(g: Fields)
    requires Playable(g)
    ensures LogFits(g.changes, g.moves) && -1 <= g.selected < 81 && ValidElapsed(g.elapsed)
  {
  }

  /** One more cell of the sweep that removes a placed digit's marks. */
  lemma PartlyOneMore(b: Board, cell: Cell, digit: int, n: Cell)
    ensures Partly(b, cell, digit, n + 1).notes ==
      if Erased(b, cell, digit, n) then Partly(b, cell, digit, n).notes[n := b.notes[n] - {digit}]
      else Partly(b, cell, digit, n).notes
    ensures Partly(b, cell, digit, n).notes[n] == b.notes[n]
    ensures ErasedChanges(b, cell, digit, n + 1) ==
      if Erased(b, cell, digit, n) then ErasedChanges(b, cell, digit, n) + [Record(b, n)]
        else ErasedChanges(b, cell, digit, n)
  {
  }

  lemma PartlyValues(b: Board, cell: Cell, digit: int)
    ensures forall n :: 0 <= n ==> Partly(b, cell, digit, n).values == b.values
  {
  }

  lemma MarksCount(g: Fields, placed: Board, cell: Cell, digit: Digit)
    requires Playable(g) && placed == Board(g.board.values[cell := digit], g.board.notes[cell := {}])
    requires g.puzzle.givens[cell] == 0
    ensures |ErasedChanges(placed, cell, digit, |placed.values|)| <= 80
  {
    ErasedCount(g.puzzle.givens, placed, cell, digit, |placed.values|);
  }

  lemma PartlyNone(b: Board, cell: Cell, digit: int)
    ensures Partly(b, cell, digit, 0).notes == b.notes
    ensures ErasedChanges(b, cell, digit, 0) == []
  {
  }

  /** A new game, refused when the puzzle is not valid. */
  method CreateGame(p: Puzzle) returns (game: Option<Game>)
    ensures game.Some? <==> ValidPuzzle(p)
    ensures game.Some? ==> fresh(game.value) && game.value.Valid() && Small(game.value.F())
    ensures game.Some? ==> game.value.F() == Create(p, [0, 0, 0, 0, 0, 0, 0, 0])
    ensures game.Some? ==>
      game.value.F() == Fields(p, Board(p.givens, seq(81, _ => {})), -1, 0, false, [0, 0, 0, 0, 0, 0, 0, 0], [], [])
  {
    hide Playable, ValidPuzzle, Small;
    var valid := CheckPuzzle(p);
    if !valid { return None; }
    CreateKeeps(p, [0, 0, 0, 0, 0, 0, 0, 0]);
    var g := new Game(p, Board(p.givens, seq(81, _ => {})));
    return Some(g);
  }
}
