/** How the completions of a grid split over the digits of one empty cell. */
module SearchSpace {
  import opened Cells
  import opened Pigeonhole
  import opened Solutions

  /** The digits already shown by a unit. */
  function Used(g: Grid, u: int): set<int> {
    set c: Cell | InUnit(c, u) && g[c] != 0 :: g[c] as int
  }

  /** The digits no unit of the cell shows yet. */
  function Free(g: Grid, c: Cell): set<int> {
    Digits() - (Used(g, Row(c)) + Used(g, 9 + Column(c)) + Used(g, 18 + Box(c)))
  }

  ghost function Opens(g: Grid): (r: seq<set<int>>)
    ensures |r| == 81 && forall c: Cell {:trigger Free(g, c)} :: Free(g, c) == r[c]
  {
    seq(81, c requires 0 <= c < 81 => Free(g, c))
  }

  /** No digit above 9 and no digit twice in a unit. */
  ghost predicate Consistent(g: Grid) {
    && (forall c: Cell :: g[c] <= 9)
    && forall a: Cell, b: Cell :: Sees(a, b) && g[a] != 0 ==> g[a] != g[b]
  }

  function Empties(g: Grid): set<int> {
    set c: Cell | g[c] == 0
  }

  lemma UsedAfter(g: Grid, c: Cell, d: nat, u: int)
    requires g[c] == 0 && d != 0
    ensures Used(g[c := d], u) == if InUnit(c, u) then Used(g, u) + {d} else Used(g, u)
  {
  }

  /** The nine masks of one kind: rows from unit 0, columns from 9, boxes from 18. */
  function Masks(g: Grid, first: int): (r: seq<set<int>>)
    ensures |r| == 9
  {
    seq(9, i => Used(g, first + i))
  }

  /** The three masks of a cell say what is free in it. */
  lemma FreeByMasks(g: Grid, c: Cell)
    ensures 0 <= Row(c) < 9 && 0 <= Column(c) < 9 && 0 <= Box(c) < 9
    ensures Free(g, c) == Digits() - (Masks(g, 0)[Row(c)] + Masks(g, 9)[Column(c)] + Masks(g, 18)[Box(c)])
  {
    hide Used, InUnit, Row, Column, Box, Digits;
    UnitsOf(c);
    assert Masks(g, 0)[Row(c)] == Used(g, Row(c));
    assert Masks(g, 9)[Column(c)] == Used(g, 9 + Column(c));
    assert Masks(g, 18)[Box(c)] == Used(g, 18 + Box(c));
  }

  /** How setting one digit changes the masks. */
  lemma MasksAfter(g: Grid, c: Cell, d: nat)
    requires g[c] == 0 && d != 0
    ensures Masks(g[c := d], 0) == Masks(g, 0)[Row(c) := Masks(g, 0)[Row(c)] + {d}]
    ensures Masks(g[c := d], 9) == Masks(g, 9)[Column(c) := Masks(g, 9)[Column(c)] + {d}]
    ensures Masks(g[c := d], 18) == Masks(g, 18)[Box(c) := Masks(g, 18)[Box(c)] + {d}]
  {
    hide Used, Masks;
    MasksOfKind(g, c, d, 0, Row(c));
    MasksOfKind(g, c, d, 9, Column(c));
    MasksOfKind(g, c, d, 18, Box(c));
  }

  lemma MasksOfKind(g: Grid, c: Cell, d: nat, first: int, own: Position)
    requires g[c] == 0 && d != 0
    requires 0 <= first <= 18 && forall u: Unit :: first <= u < first + 9 ==> (InUnit(c, u) <==> u == first + own)
    ensures Masks(g[c := d], first) == Masks(g, first)[own := Masks(g, first)[own] + {d}]
  {
    hide Used, InUnit;
    forall u: Unit | first <= u < first + 9
      ensures Used(g[c := d], u) == if u == first + own then Used(g, u) + {d} else Used(g, u)
    {
      UsedAfter(g, c, d, u);
    }
  }

  lemma FreeDigitFits(g: Grid, c: Cell, d: int)
    requires g[c] == 0 && Consistent(g) && d in Free(g, c)
    ensures Consistent(g[c := d])
  {
    var h := g[c := d];
    forall a: Cell, b: Cell | Sees(a, b) && h[a] != 0 ensures h[a] != h[b] {
      if a == c || b == c {
        var other: Cell := if a == c then b else a;
        var u := SharedUnit(c, other);
        assert g[other] == d ==> d in Used(g, u);
      }
    }
  }

  lemma CompletionDigitIsFree(g: Grid, c: Cell, s: Grid)
    requires g[c] == 0 && Completes(g, s)
    ensures s[c] in Free(g, c)
  {
    UnitsOf(c);
    var d := s[c];
    assert 1 <= d <= 9;
    forall u: Unit | InUnit(c, u) ensures d !in Used(g, u) {
      forall k: Cell | InUnit(k, u) && g[k] != 0 ensures g[k] != d {
        UnitMatesSee(u, c, k);
        assert s[k] == g[k];
      }
    }
  }

  lemma FixingDigit(g: Grid, c: Cell, d: nat)
    requires g[c] == 0 && d != 0
    ensures Completions(g[c := d]) == set s | s in Completions(g) && s[c] == d
  {
  }

  /** The completions whose digit at c is one of ds. */
  ghost function Covered(g: Grid, c: Cell, ds: seq<int>): set<seq<nat>> {
    set s | s in Completions(g) && s[c] as int in ds
  }

  lemma CoveredNone(g: Grid, c: Cell)
    ensures Covered(g, c, []) == {}
  {
  }

  lemma CoveredOneMore(g: Grid, c: Cell, ds: seq<int>, i: nat)
    requires g[c] == 0 && i < |ds| && 1 <= ds[i]
    requires forall j, k :: 0 <= j < k < |ds| ==> ds[j] != ds[k]
    ensures |Covered(g, c, ds[..i + 1])| == |Covered(g, c, ds[..i])| + |Completions(g[c := ds[i]])|
  {
    FixingDigit(g, c, ds[i]);
    var before, more, after := Covered(g, c, ds[..i]), Completions(g[c := ds[i]]), Covered(g, c, ds[..i + 1]);
    assert ds[..i + 1] == ds[..i] + [ds[i]];
    assert after == before + more;
    assert before !! more;
  }

  lemma CoveredAll(g: Grid, c: Cell, ds: seq<int>)
    requires g[c] == 0 && forall d :: d in Free(g, c) ==> d in ds
    ensures Covered(g, c, ds) == Completions(g)
  {
    forall s | s in Completions(g) ensures s in Covered(g, c, ds) {
      CompletionDigitIsFree(g, c, s);
    }
  }

  /** A consistent grid without empty cells is its own only completion. */
  lemma FullGrid(g: Grid)
    requires Consistent(g) && Empties(g) == {}
    ensures Completions(g) == {g}
  {
    assert forall c: Cell :: g[c] == 0 ==> c in Empties(g);
    assert Completes(g, g);
    forall s | Completes(g, s) ensures s == g {
      forall i | 0 <= i < 81 ensures s[i] == g[i] { var c: Cell := i; assert s[c] == g[c]; }
    }
  }

  /** Conflicting clues have no completion. */
  lemma Conflict(g: Grid)
    requires !Consistent(g)
    ensures Completions(g) == {}
  {
  }

  /** What one digit of the order contributes. */
  lemma BranchStep(g: Grid, c: Cell, ds: seq<int>, i: nat)
    requires g[c] == 0 && i < |ds| && ds[i] in Free(g, c)
    requires forall j, k :: 0 <= j < k < |ds| ==> ds[j] != ds[k]
    ensures |Covered(g, c, ds[..i + 1])| == |Covered(g, c, ds[..i])| + |Completions(g[c := ds[i]])|
    ensures |Covered(g, c, ds[..i + 1])| <= |Covered(g, c, ds)|
    ensures Completions(g[c := ds[i]]) <= Completions(g)
    ensures |Empties(g[c := ds[i]])| < |Empties(g)|
  {
    CoveredOneMore(g, c, ds, i);
    EmptiesShrink(g, c, ds[i]);
    FixingDigit(g, c, ds[i]);
    SubsetSize(Covered(g, c, ds[..i + 1]), Covered(g, c, ds));
  }

  /** A clue no longer free repeats an earlier one. */
  lemma TakenDigit(g: Grid, grid: Grid, c: Cell)
    requires forall k: Cell :: g[k] == if k < c then grid[k] else 0
    requires grid[c] != 0 && grid[c] <= 9 && grid[c] !in Free(g, c)
    ensures !Consistent(grid)
  {
    UnitsOf(c);
    var u: Unit :| InUnit(c, u) && grid[c] as int in Used(g, u);
    var k: Cell :| InUnit(k, u) && g[k] != 0 && g[k] == grid[c];
    UnitMatesSee(u, k, c);
    assert Sees(k, c) && grid[k] == grid[c];
  }

  lemma EmptiesShrink(g: Grid, c: Cell, d: nat)
    requires g[c] == 0 && d != 0
    ensures Empties(g[c := d]) == Empties(g) - {c} && |Empties(g[c := d])| < |Empties(g)|
  {
  }
}
