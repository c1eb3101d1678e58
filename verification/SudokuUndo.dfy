/** The undo log against the obvious implementation: a stack of whole boards. */
module UndoHistory {
  import opened Cells
  import opened Marks
  import opened GameRules

  lemma {:induction false} RewindConcat(b: Board, early: seq<Change>, late: seq<Change>)
    ensures Rewind(b, early + late) == Rewind(Rewind(b, late), early)
    decreases |late|
  {
    if late == [] {
      assert early + late == early;
    } else {
      var last, rest := late[|late| - 1], late[..|late| - 1];
      assert (early + late)[..|early + late| - 1] == early + rest;
      RewindConcat(Restore(b, last), early, rest);
    }
  }

  /** Taking back the erased marks brings every mark back. */
  lemma {:induction false} RewindErased(b: Board, cell: Cell, digit: int, n: nat)
    requires n <= 81
    ensures Rewind(Partly(b, cell, digit, n), ErasedChanges(b, cell, digit, n)) == b
  {
    hide Erased;
    if n == 0 {
      assert Partly(b, cell, digit, 0) == b by { SameMasks(Partly(b, cell, digit, 0).notes, b.notes); }
    } else {
      var before, after := Partly(b, cell, digit, n - 1), Partly(b, cell, digit, n);
      var changes := ErasedChanges(b, cell, digit, n - 1);
      if Erased(b, cell, digit, n - 1) {
        var change := Record(b, n - 1);
        assert (changes + [change])[..|changes|] == changes;
        assert Restore(after, change) == before by {
          SameMasks(Restore(after, change).notes, before.notes);
          assert Restore(after, change).values == before.values;
        }
      } else {
        SameMasks(after.notes, before.notes);
        assert changes + [] == changes;
      }
      RewindErased(b, cell, digit, n - 1);
    }
  }

  /** The board with the marks below n erased. */
  function Partly(b: Board, cell: Cell, digit: int, n: nat): Board {
    Board(b.values,
          seq(81, k requires 0 <= k < 81 =>
            if k < n && Erased(b, cell, digit, k) then b.notes[k] - {digit} else b.notes[k]))
  }

  lemma PartlyAll(b: Board, cell: Cell, digit: int)
    ensures Partly(b, cell, digit, |b.values|) == EraseMarks(b, cell, digit)
  {
  }

  lemma RestoreRecord(b: Board, cell: Cell, value: nat, notes: set<int>)
    ensures Restore(Board(b.values[cell := value], b.notes[cell := notes]), Record(b, cell)) == b
  {
  }

  /** The boards that successive undos would bring back, oldest first, with the cell each selects. */
  ghost function Past(b: Board, changes: seq<Change>, moves: seq<nat>): seq<(Board, Cell)>
    requires LogFits(changes, moves)
    decreases |moves|
  {
    if moves == [] then []
    else
      var n := |moves| - 1;
      var keep := |changes| - moves[n];
      var before := Rewind(b, changes[keep..]);
      Past(before, changes[..keep], moves[..n]) + [(before, changes[keep].cell)]
  }

  lemma {:induction false} PastLength(b: Board, changes: seq<Change>, moves: seq<nat>)
    requires LogFits(changes, moves)
    ensures |Past(b, changes, moves)| == |moves|
    decreases |moves|
  {
    if moves != [] {
      var n := |moves| - 1;
      var keep := |changes| - moves[n];
      PastLength(Rewind(b, changes[keep..]), changes[..keep], moves[..n]);
    }
  }

  lemma LogAfterFirst(changes: seq<Change>, moves: seq<nat>)
    requires LogFits(changes, moves) && moves != []
    ensures moves[0] <= |changes| && LogFits(changes[moves[0]..], moves[1..])
  {
    FirstWithinTotal(moves);
  }

  lemma LogBeforeLast(changes: seq<Change>, moves: seq<nat>)
    requires LogFits(changes, moves) && |moves| > 1
    ensures var n := |moves| - 1;
      moves[0] <= |changes| - moves[n] && moves[n] > 0 && LogFits(changes[..|changes| - moves[n]], moves[..n])
  {
    FirstWithinTotal(moves[..|moves| - 1]);
  }

  lemma SlicesBehind<T>(s: seq<T>, first: nat, keep: nat)
    requires first <= keep <= |s|
    ensures s[first..][keep - first..] == s[keep..] && s[first..][..keep - first] == s[..keep][first..]
  {
  }

  /** Evicting the oldest move forgets the oldest board and nothing else. */
  lemma {:induction false} PastEvict(b: Board, changes: seq<Change>, moves: seq<nat>)
    requires LogFits(changes, moves) && moves != []
    ensures moves[0] <= |changes| && LogFits(changes[moves[0]..], moves[1..])
    ensures Past(b, changes[moves[0]..], moves[1..]) == Past(b, changes, moves)[1..]
    ensures |Past(b, changes, moves)| > 0
    decreases |moves|
  {
    hide Rewind, LogFits;
    LogAfterFirst(changes, moves);
    var n, first := |moves| - 1, moves[0];
    if n == 0 {
      assert moves[1..] == [];
      assert Past(b, changes, moves)[1..] == [];
    } else {
      LogBeforeLast(changes, moves);
      var keep := |changes| - moves[n];
      var before := Rewind(b, changes[keep..]);
      PastEvict(before, changes[..keep], moves[..n]);
      assert moves[1..][..n - 1] == moves[..n][1..];
      SlicesBehind(changes, first, keep);
      var older := Past(before, changes[..keep], moves[..n]);
      assert (older + [(before, changes[keep].cell)])[1..] == older[1..] + [(before, changes[keep].cell)];
    }
  }

  ghost function Trim<T>(past: seq<T>): seq<T> {
    if |past| > MAXIMUM_MOVES then past[1..] else past
  }

  /** Recording a move pushes the board it started from. */
  lemma FinishPushes(g: Fields, board: Board, changes: seq<Change>)
    requires LogFits(g.changes, g.moves) && changes != [] && Rewind(board, changes) == g.board
    ensures var f := Finish(g, board, changes);
      && LogFits(f.changes, f.moves)
      && Past(f.board, f.changes, f.moves) == Trim(Past(g.board, g.changes, g.moves) + [(g.board, changes[0].cell)])
  {
    var all, moves := g.changes + changes, g.moves + [|changes|];
    TotalOneMore(g.moves, |changes|);
    assert LogFits(all, moves);
    assert moves[..|g.moves|] == g.moves;
    assert all[|g.changes|..] == changes && all[..|g.changes|] == g.changes;
    assert Past(board, all, moves) == Past(g.board, g.changes, g.moves) + [(g.board, changes[0].cell)];
    PastLength(board, all, moves);
    PastEvict(board, all, moves);
  }

  /** The game as anyone would first write it: every move saves the whole board. */
  datatype Saved = Saved(now: Fields, past: seq<(Board, Cell)>)

  datatype Op = SelectOp(cell: int) | EnterOp(digit: int) | EraseOp | UndoOp | ToggleOp | TimeOp(elapsed: seq<int>)

  /** A game without its log. */
  function Strip(g: Fields): Fields {
    g.(changes := [], moves := [])
  }

  ghost function Push(r: Saved, after: Fields): Saved
    requires 0 <= r.now.selected < 81
  {
    Saved(Strip(after), Trim(r.past + [(r.now.board, r.now.selected as Cell)]))
  }

  ghost predicate Plain(g: Fields) { g.changes == [] && g.moves == [] }

  ghost function SavedStep(r: Saved, op: Op): Saved
    requires Plain(r.now) && -1 <= r.now.selected < 81
  {
    match op
    case SelectOp(cell) => r.(now := Select(r.now, cell))
    case EnterOp(digit) =>
      var after := Enter(r.now, digit);
      if after.1.changed then Push(r, after.0) else r
    case EraseOp =>
      var after := Erase(r.now);
      if after.1.changed then Push(r, after.0) else r
    case UndoOp =>
      if r.past == [] || StatusOf(r.now) != Playing then r
      else
        var top := r.past[|r.past| - 1];
        Saved(r.now.(board := top.0, selected := top.1), r.past[..|r.past| - 1])
    case ToggleOp => r.(now := ToggleMode(r.now))
    case TimeOp(elapsed) => r.(now := r.now.(elapsed := if StatusOf(r.now) == Playing then elapsed else r.now.elapsed))
  }

  function Step(g: Fields, op: Op): Fields
    requires LogFits(g.changes, g.moves)
  {
    match op
    case SelectOp(cell) => Select(g, cell)
    case EnterOp(digit) => Enter(g, digit).0
    case EraseOp => Erase(g).0
    case UndoOp => Undo(g).0
    case ToggleOp => ToggleMode(g)
    case TimeOp(elapsed) => if StatusOf(g) == Playing then g.(elapsed := elapsed) else g
  }

  /** The boards a game could still go back to, read off its log. */
  ghost function Abstract(g: Fields): Saved
    requires LogFits(g.changes, g.moves)
  {
    Saved(Strip(g), Past(g.board, g.changes, g.moves))
  }

  /** A move from g to f whose changes take it back. */
  ghost predicate Undoes(g: Fields, f: Fields, changes: seq<Change>) {
    && LogFits(g.changes, g.moves)
    && changes != [] && changes[0].cell == g.selected
    && Rewind(f.board, changes) == g.board
    && f == Finish(g.(mistakes := f.mistakes), f.board, changes)
  }

  /** The changes of a digit entry undo it. */
  lemma EnterRewinds(g: Fields, digit: int)
    requires LogFits(g.changes, g.moves) && Enter(g, digit).1.changed
    ensures 0 <= g.selected < 81
    ensures exists changes: seq<Change> :: Undoes(g, Enter(g, digit).0, changes)
  {
    hide Finish, Erased;
    var cell: Cell, b := g.selected, g.board;
    FinishKeeps();
    if g.notesMode {
      var changes := [Record(b, cell)];
      var notes := Toggle(b.notes[cell], digit);
      assert b.values[cell := b.values[cell]] == b.values;
      RestoreRecord(b, cell, b.values[cell], notes);
      assert changes[..0] == [];
      assert Rewind(Board(b.values, b.notes[cell := notes]), changes) == b;
      assert Undoes(g, Enter(g, digit).0, changes);
    } else {
      var placed := Board(b.values[cell := digit], b.notes[cell := {}]);
      RestoreRecord(b, cell, digit, {});
      var first := [Record(b, cell)];
      assert first[..0] == [];
      assert Rewind(placed, first) == b;
      if digit == g.puzzle.solution[cell] {
        var marks := ErasedChanges(placed, cell, digit, |b.values|);
        RewindErased(placed, cell, digit, |b.values|);
        PartlyAll(placed, cell, digit);
        RewindConcat(EraseMarks(placed, cell, digit), first, marks);
        assert (first + marks)[0] == first[0];
        assert Undoes(g, Enter(g, digit).0, first + marks);
      } else {
        assert Undoes(g, Enter(g, digit).0, first);
      }
    }
  }

  lemma FinishKeeps()
    ensures forall g: Fields, board, changes :: LogFits(g.changes, g.moves) ==>
      var f := Finish(g, board, changes);
      f.board == board && f == g.(board := board, changes := f.changes, moves := f.moves)
  {
  }

  lemma EraseRewinds(g: Fields)
    requires LogFits(g.changes, g.moves) && Erase(g).1.changed
    ensures 0 <= g.selected < 81 && Undoes(g, Erase(g).0, [Record(g.board, g.selected)])
  {
  }

  /** A move that its changes take back pushes the board it left. */
  lemma MoveRefines(g: Fields, f: Fields, changes: seq<Change>)
    requires Undoes(g, f, changes) && 0 <= g.selected < 81
    ensures LogFits(f.changes, f.moves) && f.selected == g.selected
    ensures Abstract(f) == Push(Abstract(g), f)
  {
    hide Finish, Trim, Rewind, LogFits;
    FinishPushes(g.(mistakes := f.mistakes), f.board, changes);
    FinishKeeps();
    assert f.selected == g.(mistakes := f.mistakes).selected;
  }

  /** Moves act on the board alike whatever the log holds. */
  lemma LogIgnored(g: Fields, digit: int)
    requires LogFits(g.changes, g.moves)
    ensures LogFits(Strip(g).changes, Strip(g).moves)
    ensures Enter(Strip(g), digit).1 == Enter(g, digit).1 && Erase(Strip(g)).1 == Erase(g).1
    ensures Strip(Enter(Strip(g), digit).0) == Strip(Enter(g, digit).0)
    ensures Strip(Erase(Strip(g)).0) == Strip(Erase(g).0)
    ensures !Enter(g, digit).1.changed ==> Enter(g, digit).0 == g
    ensures !Erase(g).1.changed ==> Erase(g).0 == g
  {
  }

  lemma EnterRefines(g: Fields, digit: int)
    requires LogFits(g.changes, g.moves) && -1 <= g.selected < 81
    ensures var f := Enter(g, digit).0;
      LogFits(f.changes, f.moves) && -1 <= f.selected < 81 && Abstract(f) == SavedStep(Abstract(g), EnterOp(digit))
  {
    hide Enter, Erase, Finish, Trim, Rewind, Past, LogFits;
    LogIgnored(g, digit);
    if Enter(g, digit).1.changed {
      EnterRewinds(g, digit);
      var changes :| Undoes(g, Enter(g, digit).0, changes);
      MoveRefines(g, Enter(g, digit).0, changes);
    }
  }

  lemma EraseRefines(g: Fields)
    requires LogFits(g.changes, g.moves) && -1 <= g.selected < 81
    ensures var f := Erase(g).0;
      LogFits(f.changes, f.moves) && -1 <= f.selected < 81 && Abstract(f) == SavedStep(Abstract(g), EraseOp)
  {
    hide Enter, Erase, Finish, Trim, Rewind, Past, LogFits;
    LogIgnored(g, 0);
    if Erase(g).1.changed {
      EraseRewinds(g);
      MoveRefines(g, Erase(g).0, [Record(g.board, g.selected)]);
    }
  }

  lemma UndoRefines(g: Fields)
    requires LogFits(g.changes, g.moves) && -1 <= g.selected < 81
    ensures var f := Undo(g).0;
      LogFits(f.changes, f.moves) && -1 <= f.selected < 81 && Abstract(f) == SavedStep(Abstract(g), UndoOp)
  {
    hide Enter, Erase, Finish, Trim, Rewind;
    PastLength(g.board, g.changes, g.moves);
    if g.moves != [] && StatusOf(g) == Playing {
      var n := |g.moves| - 1;
      var f := Undo(g).0;
      assert Past(g.board, g.changes, g.moves)[..n] == Past(f.board, f.changes, f.moves) by {
        PastLength(f.board, f.changes, f.moves);
      }
    }
  }

  /** One operation: the log does what saving whole boards does. */
  lemma StepRefines(g: Fields, op: Op)
    requires LogFits(g.changes, g.moves) && -1 <= g.selected < 81
    ensures var f := Step(g, op);
      LogFits(f.changes, f.moves) && -1 <= f.selected < 81 && Abstract(f) == SavedStep(Abstract(g), op)
  {
    hide Enter, Erase, Undo, Past, LogFits;
    match op
    case EnterOp(digit) => EnterRefines(g, digit);
    case EraseOp => EraseRefines(g);
    case UndoOp => UndoRefines(g);
    case SelectOp(_) =>
    case ToggleOp =>
    case TimeOp(_) =>
  }

  ghost predicate Good(g: Fields) {
    LogFits(g.changes, g.moves) && -1 <= g.selected < 81
  }

  ghost function RunOps(g: Fields, ops: seq<Op>): (f: Fields)
    requires Good(g)
    ensures Good(f)
  {
    if ops == [] then g
    else
      var before := RunOps(g, ops[..|ops| - 1]);
      StepRefines(before, ops[|ops| - 1]);
      Step(before, ops[|ops| - 1])
  }

  ghost function RunSaved(r: Saved, ops: seq<Op>): (f: Saved)
    requires Plain(r.now) && -1 <= r.now.selected < 81
    ensures Plain(f.now) && -1 <= f.now.selected < 81
  {
    if ops == [] then r
    else
      var before := RunSaved(r, ops[..|ops| - 1]);
      SavedStaysPlain(before, ops[|ops| - 1]);
      SavedStep(before, ops[|ops| - 1])
  }

  lemma SavedStaysPlain(r: Saved, op: Op)
    requires Plain(r.now) && -1 <= r.now.selected < 81
    ensures Plain(SavedStep(r, op).now) && -1 <= SavedStep(r, op).now.selected < 81
  {
  }

  /** Any run of operations: the log is indistinguishable from a stack of the last 2,000 boards. */
  lemma {:induction false} RunRefines(g: Fields, ops: seq<Op>)
    requires Good(g)
    ensures Abstract(RunOps(g, ops)) == RunSaved(Abstract(g), ops)
  {
    hide Step, SavedStep;
    if ops != [] {
      RunRefines(g, ops[..|ops| - 1]);
      StepRefines(RunOps(g, ops[..|ops| - 1]), ops[|ops| - 1]);
    }
  }

  ghost predicate Changes(g: Fields, op: Op)
    requires Good(g)
  {
    (op.EnterOp? && Enter(g, op.digit).1.changed) || (op.EraseOp? && Erase(g).1.changed)
  }

  /** The moves of a run that changed the board. */
  ghost function Changed(g: Fields, ops: seq<Op>): nat
    requires Good(g)
  {
    if ops == [] then 0
    else
      var before := ops[..|ops| - 1];
      Changed(g, before) + if Changes(RunOps(g, before), ops[|ops| - 1]) then 1 else 0
  }

  ghost function Stack(g: Fields): seq<(Board, Cell)>
    requires Good(g)
  {
    Past(g.board, g.changes, g.moves)
  }

  ghost predicate NoUndo(ops: seq<Op>) {
    forall i :: 0 <= i < |ops| ==> !ops[i].UndoOp?
  }

  ghost predicate Pushed(g: Fields, f: Fields)
    requires Good(g) && Good(f)
  {
    |Stack(f)| > 0 && exists c: Cell :: Stack(f) == Trim(Stack(g) + [(g.board, c)])
  }

  /** One operation that is not an undo. */
  lemma StepStacks(g: Fields, op: Op)
    requires Good(g) && !op.UndoOp?
    ensures Good(Step(g, op)) && Step(g, op).puzzle == g.puzzle
    ensures Changes(g, op) ==> StatusOf(g) == Playing && Pushed(g, Step(g, op))
    ensures !Changes(g, op) ==> Step(g, op).board == g.board && Stack(Step(g, op)) == Stack(g)
  {
    hide Finish, Trim, Past, Rewind, Erased, EraseMarks, UnitComplete;
    StepRefines(g, op);
    LogIgnored(g, if op.EnterOp? then op.digit else 0);
    FinishKeeps();
    TrimNotEmpty(Stack(g), (g.board, if 0 <= g.selected then g.selected else 0));
  }

  lemma TrimNotEmpty<T>(past: seq<T>, top: T)
    ensures |Trim(past + [top])| > 0 && Trim(past + [top])[|Trim(past + [top])| - 1] == top
  {
  }

  /** The boards left by the last k moves are on the stack in order, k places deep at most. */
  ghost predicate Remembers(f: Fields, g: Fields, k: nat)
    requires Good(f)
  {
    && k <= |Stack(f)|
    && (if k == 0 then f.board == g.board else Stack(f)[|Stack(f)| - k].0 == g.board)
    && forall j :: |Stack(f)| - k <= j < |Stack(f)| ==> Stack(f)[j].0.values != g.puzzle.solution
  }

  lemma RemembersOneMore(f: Fields, g: Fields, k: nat, h: Fields, c: Cell)
    requires Good(f) && Good(h) && Remembers(f, g, k) && k < MAXIMUM_MOVES
    requires Stack(h) == Trim(Stack(f) + [(f.board, c)]) && f.board.values != g.puzzle.solution
    ensures Remembers(h, g, k + 1)
  {
  }

  lemma {:induction false} RunRemembers(g: Fields, ops: seq<Op>)
    requires Good(g) && NoUndo(ops) && Changed(g, ops) <= MAXIMUM_MOVES
    ensures var f := RunOps(g, ops); f.puzzle == g.puzzle && Remembers(f, g, Changed(g, ops))
  {
    hide Past, LogFits, Step, Trim, Changes;
    if ops != [] {
      var before, op := ops[..|ops| - 1], ops[|ops| - 1];
      RunRemembers(g, before);
      var f := RunOps(g, before);
      StepStacks(f, op);
      var h := Step(f, op);
      if Changes(f, op) {
        var c: Cell :| Stack(h) == Trim(Stack(f) + [(f.board, c)]);
        RemembersOneMore(f, g, Changed(g, before), h, c);
      }
    }
  }

  /** A number of undos, and whether each was carried out. */
  ghost function UndoTimes(g: Fields, n: nat): (r: (Fields, bool))
    requires Good(g)
    ensures Good(r.0)
    decreases n
  {
    if n == 0 then (g, true)
    else
      StepRefines(g, UndoOp);
      var once := Undo(g);
      var rest := UndoTimes(once.0, n - 1);
      (rest.0, once.1 && rest.1)
  }

  /** Undoing walks down the stack, keeps the mistakes and stays in play. */
  lemma {:induction false} UndoWalks(f: Fields, g: Fields, n: nat)
    requires Good(f) && Remembers(f, g, n) && f.puzzle == g.puzzle && StatusOf(f) == Playing
    ensures var u := UndoTimes(f, n);
      u.1 && u.0.board == g.board && u.0.mistakes == f.mistakes &&
      StatusOf(u.0) == Playing
    decreases n
  {
    hide LogFits, Past, Rewind;
    if n > 0 {
      PastLength(f.board, f.changes, f.moves);
      UndoPops(f);
      UndoWalks(Undo(f).0, g, n - 1);
    }
  }

  lemma UndoPops(f: Fields)
    requires Good(f) && f.moves != [] && StatusOf(f) == Playing
    ensures Good(Undo(f).0) && Undo(f).1
    ensures Undo(f).0.puzzle == f.puzzle && Undo(f).0.mistakes == f.mistakes
    ensures |Stack(f)| > 0 && Undo(f).0.board == Stack(f)[|Stack(f)| - 1].0
    ensures Stack(Undo(f).0) == Stack(f)[..|Stack(f)| - 1]
  {
  }

  /** Up to 2,000 moves, however they fill and evict the log, undo to exactly the board they started from. */
  lemma UndoRestores(g: Fields, ops: seq<Op>)
    requires Good(g) && NoUndo(ops) && Changed(g, ops) <= 2000
    requires StatusOf(RunOps(g, ops)) == Playing
    ensures var f := RunOps(g, ops);
      var u := UndoTimes(f, Changed(g, ops));
      u.1 && u.0.board == g.board && u.0.mistakes == f.mistakes && StatusOf(u.0) == Playing
  {
    hide Remembers, RunOps, Changed, UndoTimes;
    RunRemembers(g, ops);
    UndoWalks(RunOps(g, ops), g, Changed(g, ops));
  }
}
