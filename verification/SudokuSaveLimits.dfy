/** A loaded game can outgrow what the reader accepts; a game created here cannot. */
module SaveLimits {
  import opened Cells
  import opened Solutions
  import opened Rater
  import opened GameRules
  import opened UndoHistory
  import opened GameInvariant
  import opened SaveFormat
  import opened SavedGames

  /** A solution with one cell emptied is a valid puzzle. */
  lemma OneEmptyCell(s: Grid, c: Cell)
    requires IsSolution(s)
    ensures ValidPuzzle(Puzzle(s[c := 0], s))
  {
    hide CellAt, At, Sees;
    var g: Grid := s[c := 0];
    assert Completes(g, s);
    forall t | Completes(g, t) ensures t == s {
      var i := PositionIn(s, Row(c), t[c]);
      UnitsOf(c);
      var k := At(Row(c), i);
      if k != c {
        assert g[k] == s[k] && t[k] == g[k];
        UnitMatesSee(Row(c), k, c);
      }
      assert t[c] == s[c];
      forall j | 0 <= j < 81 ensures t[j] == s[j] { var x: Cell := j; if x != c { assert g[x] != 0; } }
    }
    assert Completions(g) == {s};
  }

  /** A game whose log is as long as a file may hold. */
  ghost function FullLog(s: Grid): Fields {
    Fields(Puzzle(s[0 := 0], s), Board(s[0 := 0], seq(81, _ => {})), 0, 0, true, [0, 0, 0, 0, 0, 0, 0, 0],
           seq(MAXIMUM_CHANGES, _ => Change(0, 0, {})), [54027, 54027, 54027])
  }

  lemma FullLogPlayable(s: Grid)
    requires IsSolution(s)
    ensures Savable(FullLog(s)) && StatusOf(FullLog(s)) == Playing
  {
    OneEmptyCell(s, 0);
    var g := FullLog(s);
    assert s[0 := 0][0] != s[0];
    var m := g.moves;
    assert m[..2] == [54027, 54027] && m[..2][..1] == [54027] && m[..2][..1][..0] == [];
    assert Total(m[..2][..1]) == 54027;
    assert Total(m[..2]) == 108054;
    forall c: Cell ensures g.board.values[c] <= 9 { assert 1 <= s[c] <= 9; }
  }

  /** A valid file loads, one pencil mark later the game no longer saves to a valid file. */
  lemma LoadedGameOutgrows(s: Grid)
    requires IsSolution(s)
    ensures var g, op := FullLog(s), EnterOp(1);
      && Savable(g) && Playable(Step(g, op)) && Fits8(Step(g, op)) && !Accepts(Encode(Step(g, op)))
  {
    FullLogPlayable(s);
    var g := FullLog(s);
    EnterKeeps(g, 1);
    hide Playable, Encode, Accepts, ValidPuzzle, LogFits;
    assert Editable(g, 0);
    assert |Step(g, EnterOp(1)).changes| == MAXIMUM_CHANGES + 1;
    SavedGameLoads(Step(g, EnterOp(1)));
  }

  /** From a new game, any run of operations saves and loads back as it was. */
  lemma CreatedGameSaves(p: Puzzle, ops: seq<Op>)
    requires ValidPuzzle(p) && forall i :: 0 <= i < |ops| ==> ValidOp(ops[i])
    ensures var g := Create(p, [0, 0, 0, 0, 0, 0, 0, 0]);
      Good(g) && Fits8(RunOps(g, ops)) && Accepts(Encode(RunOps(g, ops))) &&
        Read(Encode(RunOps(g, ops))) == RunOps(g, ops)
  {
    hide Encode, Accepts, Playable, Small, Fits8, Read, RunOps, ValidOp, ValidPuzzle;
    var g := Create(p, [0, 0, 0, 0, 0, 0, 0, 0]);
    CreateKeeps(p, [0, 0, 0, 0, 0, 0, 0, 0]);
    RunKeeps(g, ops);
    SavedGameLoads(RunOps(g, ops));
  }
}
