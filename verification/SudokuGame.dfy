/** The game's rules on values: what each operation does to the board and to the flattened undo log. */
module GameRules {
  import opened Cells
  import opened Solutions
  import opened Marks
  import opened Rater

  const MAXIMUM_MOVES := 2000
  const MAXIMUM_MISTAKES := 3

  /** Digits and pencil marks. */
  datatype Board = Board(values: Grid, notes: Masks)

  /** A cell as it was before a move changed it. */
  datatype Change = Change(cell: Cell, value: nat, notes: set<int>)

  datatype Status = Playing | Won | Lost

  datatype Move = Move(changed: bool, mistake: bool, completed: set<int>)

  /** The fields of a game; the log groups changes into moves, oldest first. */
  datatype Fields = Fields(
    puzzle: Puzzle, board: Board, selected: int, mistakes: nat, notesMode: bool, elapsed: seq<int>,
    changes: seq<Change>, moves: seq<nat>)

  function StatusOf(g: Fields): Status {
    if g.mistakes >= MAXIMUM_MISTAKES then Lost
    else if g.board.values == g.puzzle.solution then Won
    else Playing
  }

  predicate Editable(g: Fields, cell: int) {
    && 0 <= cell < 81 && StatusOf(g) == Playing
    && g.puzzle.givens[cell] == 0 && g.board.values[cell] != g.puzzle.solution[cell]
  }

  function Record(b: Board, cell: Cell): Change {
    Change(cell, b.values[cell], b.notes[cell])
  }

  function Restore(b: Board, change: Change): Board {
    Board(b.values[change.cell := change.value], b.notes[change.cell := change.notes])
  }

  /** Takes back changes, newest first. */
  function Rewind(b: Board, changes: seq<Change>): Board
    decreases |changes|
  {
    if changes == [] then b
    else Rewind(Restore(b, changes[|changes| - 1]), changes[..|changes| - 1])
  }

  /** The cells whose mark a correct digit removes. */
  predicate Erased(b: Board, cell: Cell, digit: int, other: Cell) {
    Sees(cell, other) && b.values[other] == 0 && digit in b.notes[other]
  }

  /** What the log says of those cells below n. */
  function ErasedChanges(b: Board, cell: Cell, digit: int, n: nat): seq<Change>
    requires n <= 81
  {
    if n == 0 then []
    else ErasedChanges(b, cell, digit, n - 1) + if Erased(b, cell, digit, n - 1) then [Record(b, n - 1)] else []
  }

  function EraseMarks(b: Board, cell: Cell, digit: int): Board {
    Board(b.values,
          seq(81, k requires 0 <= k < 81 => if Erased(b, cell, digit, k) then b.notes[k] - {digit} else b.notes[k]))
  }

  /** The log splits into its moves. */
  function Total(moves: seq<nat>): nat {
    if moves == [] then 0 else Total(moves[..|moves| - 1]) + moves[|moves| - 1]
  }

  predicate LogFits(changes: seq<Change>, moves: seq<nat>) {
    && (forall i :: 0 <= i < |moves| ==> moves[i] > 0)
    && Total(moves) == |changes|
  }

  lemma {:induction false} FirstWithinTotal(moves: seq<nat>)
    requires moves != []
    ensures moves[0] <= Total(moves)
    ensures Total(moves[1..]) == Total(moves) - moves[0]
  {
    var n := |moves| - 1;
    if n > 0 {
      FirstWithinTotal(moves[..n]);
      assert moves[..n][1..] == moves[1..][..n - 1];
    } else {
      assert moves[1..] == [] && moves[..0] == [];
    }
  }

  lemma TotalOneMore(moves: seq<nat>, size: nat)
    ensures Total(moves + [size]) == Total(moves) + size
  {
  }

  /** Closes a move and evicts the oldest one beyond the limit. */
  function Finish(g: Fields, board: Board, changes: seq<Change>): Fields
    requires LogFits(g.changes, g.moves)
  {
    if changes == [] then g.(board := board)
    else
      var all, moves := g.changes + changes, g.moves + [|changes|];
      TotalOneMore(g.moves, |changes|);
      FirstWithinTotal(moves);
      if |moves| > MAXIMUM_MOVES then g.(board := board, changes := all[moves[0]..], moves := moves[1..])
      else g.(board := board, changes := all, moves := moves)
  }

  predicate UnitComplete(values: Grid, solution: Grid, u: Unit) {
    forall i: Position :: values[At(u, i)] == solution[At(u, i)]
  }

  function Toggle(notes: set<int>, digit: int): set<int> {
    if digit in notes then notes - {digit} else notes + {digit}
  }

  function Enter(g: Fields, digit: int): (r: (Fields, Move))
    requires LogFits(g.changes, g.moves)
  {
    var cell, b := g.selected, g.board;
    var none := Move(false, false, {});
    if !(1 <= digit <= 9) || !Editable(g, cell) then (g, none)
    else if g.notesMode then
      if b.values[cell] != 0 then (g, none)
      else
        (Finish(g, Board(b.values, b.notes[cell := Toggle(b.notes[cell], digit)]), [Record(b, cell)]),
         Move(true, false, {}))
    else if b.values[cell] == digit then (g, none)
    else
      var placed := Board(b.values[cell := digit], b.notes[cell := {}]);
      if digit == g.puzzle.solution[cell] then
        var marks := ErasedChanges(placed, cell, digit, |b.values|);
        (Finish(g, EraseMarks(placed, cell, digit), [Record(b, cell)] + marks),
         Move(true, false, set u: Unit | InUnit(cell, u) &&
           UnitComplete(placed.values, g.puzzle.solution, u) :: u as int))
      else
        (Finish(g.(mistakes := g.mistakes + 1), placed, [Record(b, cell)]), Move(true, true, {}))
  }

  function Erase(g: Fields): (r: (Fields, Move))
    requires LogFits(g.changes, g.moves)
  {
    var cell, b := g.selected, g.board;
    if !Editable(g, cell) || (b.values[cell] == 0 && b.notes[cell] == {}) then (g, Move(false, false, {}))
    else (Finish(g, Board(b.values[cell := 0], b.notes[cell := {}]), [Record(b, cell)]), Move(true, false, {}))
  }

  function Undo(g: Fields): (r: (Fields, bool))
    requires LogFits(g.changes, g.moves)
  {
    if g.moves == [] || StatusOf(g) != Playing then (g, false)
    else
      var keep := |g.changes| - g.moves[|g.moves| - 1];
      (g.(board := Rewind(g.board, g.changes[keep..]), selected := g.changes[keep].cell,
          changes := g.changes[..keep], moves := g.moves[..|g.moves| - 1]), true)
  }

  function Select(g: Fields, cell: int): Fields {
    if -1 <= cell < 81 then g.(selected := cell) else g
  }

  function ToggleMode(g: Fields): Fields {
    g.(notesMode := !g.notesMode)
  }

  function Create(p: Puzzle, elapsed: seq<int>): Fields {
    Fields(p, Board(p.givens, seq(81, _ => {})), -1, 0, false, elapsed, [], [])
  }
}
