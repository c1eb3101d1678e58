/** What every game keeps, and the game object whose operations change it in place. */
module GameInvariant {
  import opened Cells
  import opened Solutions
  import opened Rater
  import opened GameRules
  import opened UndoHistory

  const MAXIMUM_CHANGES := 162081

  // Doubles as their eight bytes, least significant first.

  predicate IsDouble(e: seq<int>) {
    |e| == 8 && forall i :: 0 <= i < 8 ==> 0 <= e[i] < 256
  }

  predicate IsFinite(e: seq<int>)
    requires IsDouble(e)
  {
    e[7] % 128 * 16 + e[6] / 16 != 2047
  }

  predicate IsZero(e: seq<int>)
    requires IsDouble(e)
  {
    e[7] % 128 == 0 && forall i :: 0 <= i < 7 ==> e[i] == 0
  }

  /** A finite double that is not below zero. */
  predicate ValidElapsed(e: seq<int>) {
    IsDouble(e) && IsFinite(e) && (e[7] < 128 || IsZero(e))
  }

  /** Doubles without a sign are in the order of their bytes, the most significant first. */
  predicate AtMost(a: seq<int>, b: seq<int>, n: nat)
    requires n <= |a| && n <= |b|
  {
    n == 0 || a[n - 1] < b[n - 1] || (a[n - 1] == b[n - 1] && AtMost(a, b, n - 1))
  }

  /** 359999 seconds, one short of a hundred hours. */
  const LONGEST: seq<int> := [0, 0, 0, 0, 0xfc, 0xf8, 0x15, 0x41]

  /** Time that is added: finite and above zero. */
  predicate Passes(seconds: seq<int>) {
    IsDouble(seconds) && IsFinite(seconds) && seconds[7] < 128 && !IsZero(seconds)
  }

  const INFINITY: seq<int> := [0, 0, 0, 0, 0, 0, 0xf0, 0x7f]

  /** What rounding may make of a sum: a number, or infinity, below neither of its parts. */
  predicate Rounded(elapsed: seq<int>, seconds: seq<int>, sum: seq<int>)
    requires IsDouble(elapsed) && IsDouble(seconds)
  {
    IsDouble(sum) && AtMost(sum, INFINITY, 8) && (elapsed[7] == 128 || AtMost(elapsed, sum, 8)) &&
      AtMost(seconds, sum, 8)
  }

  function Added(elapsed: seq<int>, seconds: seq<int>, sum: seq<int>): seq<int>
    requires Passes(seconds) ==> |sum| == 8
  {
    if !Passes(seconds) then elapsed else if AtMost(sum, LONGEST, 8) then sum else LONGEST
  }

  lemma {:induction false} AtMostItself(a: seq<int>, n: nat)
    requires n <= |a|
    ensures AtMost(a, a, n)
  {
    if n > 0 { AtMostItself(a, n - 1); }
  }

  /** Adding time gives seconds that a save may hold, not past the longest, and never turns back what is below it. */
  lemma AddedIsValid(elapsed: seq<int>, seconds: seq<int>, sum: seq<int>)
    requires ValidElapsed(elapsed) && (Passes(seconds) ==> Rounded(elapsed, seconds, sum))
    ensures var after := Added(elapsed, seconds, sum);
      && ValidElapsed(after)
      && (Passes(seconds) ==> AtMost(after, LONGEST, 8))
      && (AtMost(elapsed, LONGEST, 8) ==> AtMost(elapsed, after, 8))
  {
    AtMostItself(LONGEST, 8);
    AtMostItself(elapsed, 8);
  }

  predicate ValidChange(givens: Grid, change: Change) {
    givens[change.cell] == 0 && change.value <= 9 && change.notes <= Digits()
  }

  ghost predicate ValidBoard(givens: Grid, b: Board) {
    forall c: Cell :: b.values[c] <= 9 && b.notes[c] <= Digits() && (givens[c] != 0 ==> b.values[c] == givens[c])
  }

  /** What keeps every operation in bounds. */
  ghost predicate Playable(g: Fields) {
    && ValidPuzzle(g.puzzle)
    && ValidBoard(g.puzzle.givens, g.board)
    && -1 <= g.selected < 81 && g.mistakes <= MAXIMUM_MISTAKES
    && ValidElapsed(g.elapsed)
    && LogFits(g.changes, g.moves) && |g.moves| <= MAXIMUM_MOVES + 1
    && (forall i :: 0 <= i < |g.moves| ==> g.moves[i] < 65536)
    && (forall i :: 0 <= i < |g.changes| ==> ValidChange(g.puzzle.givens, g.changes[i]))
  }

  ghost predicate ValidOp(op: Op) {
    op.TimeOp? ==> ValidElapsed(op.elapsed)
  }

  lemma {:induction false} RewindKeepsBoard(givens: Grid, b: Board, changes: seq<Change>)
    requires ValidBoard(givens, b) && forall i :: 0 <= i < |changes| ==> ValidChange(givens, changes[i])
    ensures ValidBoard(givens, Rewind(b, changes))
    decreases |changes|
  {
    if changes != [] {
      RewindKeepsBoard(givens, Restore(b, changes[|changes| - 1]), changes[..|changes| - 1]);
    }
  }

  /** A move records the placed cell once and at most each other cell once. */
  lemma {:induction false} ErasedCount(givens: Grid, b: Board, cell: Cell, digit: int, n: nat)
    requires n <= 81 && ValidBoard(givens, b)
    ensures |ErasedChanges(b, cell, digit, n)| <= if n > cell then n - 1 else n
    ensures forall i :: 0 <= i < |ErasedChanges(b, cell, digit, n)| ==>
      ValidChange(givens, ErasedChanges(b, cell, digit, n)[i])
  {
    if n > 0 { ErasedCount(givens, b, cell, digit, n - 1); }
  }

  /** Finishing a move of valid changes keeps the log valid. */
  lemma FinishKeepsLog(g: Fields, board: Board, changes: seq<Change>)
    requires LogFits(g.changes, g.moves) && |g.moves| <= MAXIMUM_MOVES + 1
    requires (forall i :: 0 <= i < |g.moves| ==> g.moves[i] < 65536) && |changes| <= 81
    requires forall i :: 0 <= i < |g.changes| ==> ValidChange(g.puzzle.givens, g.changes[i])
    requires forall i :: 0 <= i < |changes| ==> ValidChange(g.puzzle.givens, changes[i])
    ensures var f := Finish(g, board, changes);
      && LogFits(f.changes, f.moves) && |f.moves| <= MAXIMUM_MOVES + 1
      && (forall i :: 0 <= i < |f.moves| ==> f.moves[i] < 65536)
      && (forall i :: 0 <= i < |f.changes| ==> ValidChange(g.puzzle.givens, f.changes[i]))
      && (Small(g) ==> Small(f))
  {
    hide ValidChange, Total;
    if changes != [] {
      var moves := g.moves + [|changes|];
      TotalOneMore(g.moves, |changes|);
      FirstWithinTotal(moves);
      var all := g.changes + changes;
      assert forall i :: 0 <= i < |moves| ==> moves[i] == (if i < |g.moves| then g.moves[i] else |changes|);
      assert forall i :: 0 <= i < |all| ==> ValidChange(g.puzzle.givens, all[i]);
    }
  }

  /** The log of a game that was created here and not read from a file. */
  ghost predicate Small(g: Fields) {
    |g.moves| <= MAXIMUM_MOVES && forall i :: 0 <= i < |g.moves| ==> g.moves[i] <= 81
  }

  lemma {:induction false} SmallTotal(moves: seq<nat>)
    requires forall i :: 0 <= i < |moves| ==> moves[i] <= 81
    ensures Total(moves) <= 81 * |moves|
  {
    if moves != [] { SmallTotal(moves[..|moves| - 1]); }
  }

  lemma EnterKeeps(g: Fields, digit: int)
    requires Playable(g)
    ensures Playable(Enter(g, digit).0) && (Small(g) ==> Small(Enter(g, digit).0))
  {
    hide Finish, Erased, UnitComplete, ErasedChanges, ValidPuzzle, LogFits, Small, ValidElapsed;
    FinishKeeps();
    if 1 <= digit <= 9 && Editable(g, g.selected) && (g.notesMode || g.board.values[g.selected] != digit) {
      var cell: Cell, b := g.selected, g.board;
      var first := [Record(b, cell)];
      var after := Enter(g, digit).0.board;
      if g.notesMode {
        FinishKeepsLog(g, after, first);
      } else {
        var placed := Board(b.values[cell := digit], b.notes[cell := {}]);
        if digit == g.puzzle.solution[cell] {
          var marks := ErasedChanges(placed, cell, digit, |b.values|);
          ErasedCount(g.puzzle.givens, placed, cell, digit, |b.values|);
          FinishKeepsLog(g, after, first + marks);
        } else {
          var h := g.(mistakes := g.mistakes + 1);
          assert Small(g) ==> Small(h) by { SmallByMoves(g, h); }
          FinishKeepsLog(h, after, first);
        }
      }
    }
  }

  lemma SmallByMoves(g: Fields, h: Fields)
    requires g.moves == h.moves
    ensures Small(g) <==> Small(h)
  {
  }

  lemma EraseKeeps(g: Fields)
    requires Playable(g)
    ensures Playable(Erase(g).0) && (Small(g) ==> Small(Erase(g).0))
  {
    hide Finish, ValidPuzzle, LogFits, Small, ValidElapsed;
    FinishKeeps();
    if Erase(g).1.changed {
      FinishKeepsLog(g, Erase(g).0.board, [Record(g.board, g.selected)]);
    }
  }

  lemma UndoKeeps(g: Fields)
    requires Playable(g)
    ensures Playable(Undo(g).0) && (Small(g) ==> Small(Undo(g).0))
  {
    hide Rewind, ValidBoard, ValidChange, ValidPuzzle, ValidElapsed;
    if g.moves != [] && StatusOf(g) == Playing {
      var keep := |g.changes| - g.moves[|g.moves| - 1];
      RewindKeepsBoard(g.puzzle.givens, g.board, g.changes[keep..]);
    }
  }

  /** Every operation keeps a game playable, whatever its log holds. */
  lemma StepKeeps(g: Fields, op: Op)
    requires Playable(g) && ValidOp(op)
    ensures Playable(Step(g, op)) && (Small(g) ==> Small(Step(g, op)))
  {
    hide Enter, Erase, Undo, ValidBoard, ValidChange, ValidPuzzle, ValidElapsed;
    match op
    case EnterOp(digit) => EnterKeeps(g, digit);
    case EraseOp => EraseKeeps(g);
    case UndoOp => UndoKeeps(g);
    case SelectOp(_) =>
    case ToggleOp =>
    case TimeOp(_) =>
  }

  lemma CreateKeeps(p: Puzzle, elapsed: seq<int>)
    requires ValidPuzzle(p) && ValidElapsed(elapsed)
    ensures Playable(Create(p, elapsed)) && Small(Create(p, elapsed))
  {
  }

  /** From creation, any run of operations stays playable and within what a save may hold. */
  lemma {:induction false} RunKeeps(g: Fields, ops: seq<Op>)
    requires Playable(g) && forall i :: 0 <= i < |ops| ==> ValidOp(ops[i])
    ensures Playable(RunOps(g, ops)) && (Small(g) ==> Small(RunOps(g, ops)))
    ensures Small(g) ==> |RunOps(g, ops).changes| <= MAXIMUM_CHANGES
  {
    hide Step, ValidOp, ValidBoard, ValidChange, ValidPuzzle, ValidElapsed;
    if ops != [] {
      RunKeeps(g, ops[..|ops| - 1]);
      StepKeeps(RunOps(g, ops[..|ops| - 1]), ops[|ops| - 1]);
    }
    if Small(g) { SmallTotal(RunOps(g, ops).moves); }
  }
}
