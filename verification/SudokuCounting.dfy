/** The backtracking counter, its callers and the clue remover. */
module Counting {
  import opened Basics
  import opened Cells
  import opened Pigeonhole
  import opened Solutions
  import opened SearchSpace

  /** The random source: any value below the limit. */
  method Below(limit: nat) returns (k: nat)
    requires limit > 0
    ensures k < limit
  {
    k :| 0 <= k < limit;
  }

  /** Fisher-Yates over the first n entries, with every choice open. */
  method Shuffle(a: array<int>, n: nat)
    requires n <= a.Length
    modifies a
    ensures multiset(a[..n]) == old(multiset(a[..n]))
    ensures a[n..] == old(a[n..])
  {
    var i := n - 1;
    while i > 0
      invariant -1 <= i < n || n == 0
      invariant multiset(a[..n]) == old(multiset(a[..n]))
      invariant a[n..] == old(a[n..])
    {
      var k := Below(i + 1);
      a[i], a[k] := a[k], a[i];
      i := i - 1;
    }
  }

  lemma SameMembers(s: seq<int>, t: seq<int>)
    requires multiset(s) == multiset(t)
    requires forall i, j :: 0 <= i < j < |s| ==> s[i] != s[j]
    ensures |s| == |t|
    ensures forall x :: x in s <==> x in t
    ensures forall i, j :: 0 <= i < j < |t| ==> t[i] != t[j]
  {
    assert |multiset(s)| == |s| && |multiset(t)| == |t|;
    forall x ensures x in s <==> x in t {
      assert x in s <==> x in multiset(s);
      assert x in t <==> x in multiset(t);
    }
    forall i, j | 0 <= i < j < |t| ensures t[i] != t[j] {
      DistinctCount(s, t[i]);
      assert t == t[..i] + [t[i]] + t[i + 1..j] + [t[j]] + t[j + 1..];
    }
  }

  lemma {:induction false} DistinctCount(s: seq<int>, x: int)
    requires forall i, j :: 0 <= i < j < |s| ==> s[i] != s[j]
    ensures multiset(s)[x] <= 1
  {
    if |s| > 0 {
      var rest := s[..|s| - 1];
      DistinctCount(rest, x);
      assert s == rest + [s[|s| - 1]];
      assert x == s[|s| - 1] ==> x !in multiset(rest);
    }
  }

  /** The digits of a mask, ascending or in any order at all. */
  method DigitOrder(mask: set<int>, random: bool) returns (order: seq<int>)
    requires forall d :: d in mask ==> 1 <= d <= 9
    ensures forall d :: d in order <==> d in mask
    ensures forall i, j :: 0 <= i < j < |order| ==> order[i] != order[j]
    ensures !random ==> forall i, j :: 0 <= i < j < |order| ==> order[i] < order[j]
  {
    var digits := new int[9];
    var n := 0;
    for digit := 1 to 10
      invariant 0 <= n < digit
      invariant forall d :: d in digits[..n] <==> d in mask && d < digit
      invariant forall i :: 0 <= i < n ==> digits[i] < digit
      invariant forall i, j :: 0 <= i < j < n ==> digits[i] < digits[j]
    {
      if digit in mask {
        ghost var before := digits[..n];
        digits[n] := digit;
        n := n + 1;
        assert digits[..n] == before + [digit];
      }
    }
    if random {
      ghost var ascending := digits[..n];
      Shuffle(digits, n);
      SameMembers(ascending, digits[..n]);
    }
    return digits[..n];
  }

  /** Row, column and box masks with the grid they summarise, all changed in place. */
  class Search {
    const rows: array<set<int>>
    const columns: array<set<int>>
    const boxes: array<set<int>>
    const cells: array<nat>
    var count: nat
    var limit: nat
    var solution: Grid

    ghost predicate Shape()
    {
      && rows.Length == 9 && columns.Length == 9 && boxes.Length == 9 && cells.Length == 81
      && rows != columns && rows != boxes && columns != boxes
    }

    ghost function Board(): (g: Grid)
      requires Shape()
      reads cells
    {
      cells[..]
    }

    ghost predicate Valid()
      reads this, rows, columns, boxes, cells
    {
      && Shape()
      && Consistent(Board())
      && rows[..] == Masks(Board(), 0)
      && columns[..] == Masks(Board(), 9)
      && boxes[..] == Masks(Board(), 18)
    }

    constructor ()
      ensures Valid() && Board() == seq(81, _ => 0) && count == 0 && limit == 1
      ensures fresh(rows) && fresh(columns) && fresh(boxes) && fresh(cells)
    {
      rows := new set<int>[9](_ => {});
      columns := new set<int>[9](_ => {});
      boxes := new set<int>[9](_ => {});
      cells := new nat[81](_ => 0);
      count, limit := 0, 1;
      solution := seq(81, _ => 0);
      new;
      assert Board() == seq(81, _ => 0);
      assert forall u :: Used(Board(), u) == {};
    }

    /** The digits the cell's row, column and box leave open. */
    method Open(c: Cell) returns (mask: set<int>)
      requires Valid()
      ensures mask == Free(Board(), c)
    {
      FreeByMasks(Board(), c);
      mask := Digits() - (rows[Row(c)] + columns[Column(c)] + boxes[Box(c)]);
    }

    method Set(c: Cell, d: nat)
      requires Valid() && Board()[c] == 0 && d in Free(Board(), c)
      modifies rows, columns, boxes, cells
      ensures Valid() && Board() == old(Board())[c := d]
    {
      hide Consistent, Used, Free, Masks;
      ghost var g := Board();
      FreeDigitFits(g, c, d);
      FreeByMasks(g, c);
      MasksAfter(g, c, d);
      AddToMasks(c, d);
      cells[c] := d;
      assert Board() == g[c := d];
    }

    /** Takes back a digit set in g. */
    method Unset(c: Cell, d: nat, ghost g: Grid)
      requires Valid() && Consistent(g) && g[c] == 0 && d in Free(g, c) && Board() == g[c := d]
      modifies rows, columns, boxes, cells
      ensures Valid() && Board() == g
    {
      hide Consistent, Used, Free, Masks;
      FreeByMasks(g, c);
      MasksAfter(g, c, d);
      RemoveFromMasks(c, d);
      cells[c] := 0;
      assert Board() == g;
    }

    /** Adds the completions of the board to the count, up to the limit; true means stop. */
    method Run(random: bool) returns (stop: bool)
      requires Valid() && count < limit
      modifies this`count, this`solution, rows, columns, boxes, cells
      ensures Valid() && Board() == old(Board())
      ensures count == Min(limit, old(count) + |Completions(Board())|)
      ensures stop <==> count == limit
      ensures if old(count) == 0 < count then solution in Completions(Board()) else solution == old(solution)
      decreases |Empties(Board())|, 1
    {
      ghost var g := Board();
      var best, mask := MostConstrained(Opens(g));
      if best < 0 {
        FullGrid(g);
        if count == 0 { solution := cells[..]; }
        count := count + 1;
        return count >= limit;
      }
      var order := DigitOrder(mask, random);
      CoveredNone(g, best);
      CoveredAll(g, best, order);
      stop := Branch(best, order, random, g);
    }

    /** Tries the digits of one cell in turn, restoring the board after each. */
    method Branch(best: Cell, order: seq<int>, random: bool, ghost g: Grid) returns (stop: bool)
      requires Valid() && count < limit && Board() == g && g[best] == 0
      requires forall i :: 0 <= i < |order| ==> order[i] in Free(g, best)
      requires forall i, j :: 0 <= i < j < |order| ==> order[i] != order[j]
      modifies this`count, this`solution, rows, columns, boxes, cells
      ensures Valid() && Board() == g
      ensures count == Min(limit, old(count) + |Covered(g, best, order)|)
      ensures stop <==> count == limit
      ensures if old(count) == 0 < count then solution in Completions(g) else solution == old(solution)
      decreases |Empties(g)|, 0
    {
      hide Consistent, Used, Masks, Completions, Covered, Empties;
      ghost var start := count;
      CoveredNone(g, best);
      assert order[..0] == [];
      var i := 0;
      while i < |order|
        invariant 0 <= i <= |order|
        invariant Valid() && Board() == g
        invariant count < limit && count == start + |Covered(g, best, order[..i])|
        invariant if start == 0 < count then solution in Completions(g) else solution == old(solution)
      {
        BranchStep(g, best, order, i);
        Set(best, order[i]);
        stop := Run(random);
        Unset(best, order[i], g);
        i := i + 1;
        if stop { return true; }
      }
      assert order[..|order|] == order;
      return false;
    }

    /** Reads the clues; false when one is above 9 or repeats a digit of its row, column or box. */
    method Load(grid: Grid) returns (ok: bool)
      requires Valid() && Board() == seq(81, _ => 0)
      modifies rows, columns, boxes, cells
      ensures Valid()
      ensures ok <==> Consistent(grid)
      ensures ok ==> Board() == grid
    {
      var c := 0;
      while c < 81
        invariant 0 <= c <= 81 && Valid()
        invariant forall k: Cell :: Board()[k] == if k < c then grid[k] else 0
      {
        var digit := grid[c];
        if digit != 0 {
          if digit > 9 { return false; }
          var mask := Open(c);
          if digit !in mask {
            TakenDigit(Board(), grid, c);
            return false;
          }
          Set(c, digit);
        }
        c := c + 1;
      }
      assert Board() == grid;
      return true;
    }

    /** The empty cell with the fewest open digits, settling for the first with at most one. */
    method MostConstrained(ghost open: seq<set<int>>) returns (best: int, bestMask: set<int>)
      requires Valid()
      requires |open| == 81 && forall c: Cell {:trigger Free(Board(), c)} :: Free(Board(), c) == open[c]
      ensures -1 <= best < 81
      ensures best < 0 <==> Empties(Board()) == {}
      ensures best >= 0 ==> Board()[best] == 0 && bestMask == Free(Board(), best)
      ensures best >= 0 ==> forall c: Cell {:trigger open[c]} :: Board()[c] == 0 ==> |bestMask| <= Max(1, |open[c]|)
    {
      ghost var g := Board();
      best, bestMask := -1, {};
      var bestCount := 10;
      var c := 0;
      while c < 81
        invariant 0 <= c <= 81 && -1 <= best < c
        invariant Board() == g
        invariant best < 0 ==> bestCount == 10 && forall k: Cell :: k < c ==> g[k] != 0
        invariant best >= 0 ==> g[best] == 0 && bestMask == open[best] && |bestMask| == bestCount
        invariant forall k: Cell :: k < c && g[k] == 0 ==> bestCount <= |open[k]|
      {
        if cells[c] == 0 {
          var mask := Open(c);
          SubsetSize(mask, Digits());
          if |mask| < bestCount {
            best, bestCount, bestMask := c, |mask|, mask;
            if |mask| <= 1 { break; }
          }
        }
        c := c + 1;
      }
      if best >= 0 { assert best in Empties(g); assert bestMask == Free(g, best); }
    }

    method AddToMasks(c: Cell, d: int)
      requires Shape()
      modifies rows, columns, boxes
      ensures rows[..] == old(rows[..][Row(c) := rows[Row(c)] + {d}])
      ensures columns[..] == old(columns[..][Column(c) := columns[Column(c)] + {d}])
      ensures boxes[..] == old(boxes[..][Box(c) := boxes[Box(c)] + {d}])
    {
      rows[Row(c)] := rows[Row(c)] + {d};
      columns[Column(c)] := columns[Column(c)] + {d};
      boxes[Box(c)] := boxes[Box(c)] + {d};
    }

    method RemoveFromMasks(c: Cell, d: int)
      requires Shape()
      modifies rows, columns, boxes
      ensures rows[..] == old(rows[..][Row(c) := rows[Row(c)] - {d}])
      ensures columns[..] == old(columns[..][Column(c) := columns[Column(c)] - {d}])
      ensures boxes[..] == old(boxes[..][Box(c) := boxes[Box(c)] - {d}])
    {
      rows[Row(c)] := rows[Row(c)] - {d};
      columns[Column(c)] := columns[Column(c)] - {d};
      boxes[Box(c)] := boxes[Box(c)] - {d};
    }
  }

  /** min(max(1, limit), number of completions), with the first completion found. */
  method CountSolutions(grid: Grid, limit: int, before: Grid) returns (count: nat, solution: Grid)
    ensures count == Min(Max(1, limit), |Completions(grid)|)
    ensures if count > 0 then solution in Completions(grid) else solution == before
  {
    var s := new Search();
    var ok := s.Load(grid);
    if !ok {
      Conflict(grid);
      return 0, before;
    }
    s.limit := Max(1, limit);
    s.solution := before;
    var _ := s.Run(false);
    return s.count, s.solution;
  }

  /** A full grid obeying the rules, whatever the random choices. */
  method RandomSolution() returns (solution: Grid)
    ensures IsSolution(solution)
  {
    var s := new Search();
    PatternIsSolution();
    ghost var full :| IsSolution(full);
    assert Completes(s.Board(), full);
    assert Completions(s.Board()) != {};
    var _ := s.Run(true);
    return s.solution;
  }

  /** q keeps some of p's clues. */
  ghost predicate SubPuzzle(q: Grid, p: Grid) {
    forall c: Cell :: q[c] != 0 ==> q[c] == p[c]
  }

  ghost predicate Unique(p: Grid, s: Grid) {
    Completions(p) == {s}
  }

  /** Every proper sub-puzzle has several completions. */
  ghost predicate Minimal(p: Grid) {
    forall q: Grid :: SubPuzzle(q, p) && q != p ==> |Completions(q)| >= 2
  }

  ghost predicate Necessary(p: Grid, c: Cell) {
    |Completions(p[c := 0])| >= 2
  }

  /** A clue needed in a puzzle is needed in every smaller one that keeps it. */
  lemma StaysNecessary(q: Grid, p: Grid, c: Cell)
    requires SubPuzzle(q, p) && Necessary(p, c)
    ensures Necessary(q, c)
  {
    FewerClues(q[c := 0], p[c := 0]);
    SubsetSize(Completions(p[c := 0]), Completions(q[c := 0]));
  }

  lemma NecessaryCluesAreMinimal(p: Grid)
    requires forall c: Cell :: p[c] != 0 ==> Necessary(p, c)
    ensures Minimal(p)
  {
    forall q: Grid | SubPuzzle(q, p) && q != p ensures |Completions(q)| >= 2 {
      var c: Cell :| q[c] != p[c];
      assert q[c] == 0;
      FewerClues(q, p[c := 0]);
      SubsetSize(Completions(p[c := 0]), Completions(q));
    }
  }

  lemma SoleCompletion(p: Grid, s: Grid)
    requires Completes(p, s)
    ensures |Completions(p)| == 1 ==> Unique(p, s)
    ensures |Completions(p)| >= 1
  {
    assert {s} <= Completions(p);
    SubsetSize({s}, Completions(p));
    if |Completions(p)| == 1 { EqualBySize({s}, Completions(p)); }
  }

  /** Drops clues in any order while the completion stays unique. */
  method Minimize(solution: Grid) returns (puzzle: Grid)
    ensures SubPuzzle(puzzle, solution)
    ensures IsSolution(solution) ==> Unique(puzzle, solution) && Minimal(puzzle)
  {
    var order := EveryCell();
    puzzle := solution;
    if IsSolution(solution) { FullGrid(solution); }
    for i := 0 to 81
      invariant SubPuzzle(puzzle, solution)
      invariant IsSolution(solution) ==> Unique(puzzle, solution)
      invariant IsSolution(solution) ==> forall j: Cell :: j < i && puzzle[order[j]] != 0 ==>
        Necessary(puzzle, order[j])
    {
      var cell := order[i];
      var smaller := puzzle[cell := 0];
      var count, _ := CountSolutions(smaller, 2, smaller);
      if count == 1 {
        if IsSolution(solution) {
          ClueDropped(puzzle, solution, cell);
          forall j: Cell | j < i && smaller[order[j]] != 0 ensures Necessary(smaller, order[j]) {
            StaysNecessary(smaller, puzzle, order[j]);
          }
        }
        puzzle := smaller;
      } else if IsSolution(solution) {
        SoleCompletion(smaller, solution);
      }
    }
    if IsSolution(solution) {
      forall c: Cell | puzzle[c] != 0 ensures Necessary(puzzle, c) {
        assert c in order;
      }
      NecessaryCluesAreMinimal(puzzle);
    }
  }

  lemma ClueDropped(p: Grid, s: Grid, c: Cell)
    requires SubPuzzle(p, s) && IsSolution(s) && |Completions(p[c := 0])| == 1
    ensures Unique(p[c := 0], s)
  {
    SoleCompletion(p[c := 0], s);
  }

  /** The cells in any order. */
  method EveryCell() returns (order: seq<Cell>)
    ensures |order| == 81 && forall c: Cell :: c in order
  {
    var a := new int[81](i => i);
    ghost var ascending := a[..81];
    Shuffle(a, 81);
    forall c: Cell ensures c in ascending { assert ascending[c] == c; }
    SameMembers(ascending, a[..81]);
    forall i | 0 <= i < 81 ensures 0 <= a[..81][i] < 81 {
      assert a[..81][i] in ascending;
    }
    return a[..81];
  }
}
