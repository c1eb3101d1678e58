/** Completions of a grid: the independent definition that the search, the rater and the game are held to. */
module Solutions {
  import opened Pigeonhole
  import opened Cells

  /** A board, row after row: the digit shown by each cell, or 0 where none is. */
  type Grid = g: seq<nat> | |g| == 81 witness seq(81, _ => 0)

  type Digit = d: int | 1 <= d <= 9 witness 1

  predicate IsDigit(d: int) { 1 <= d <= 9 }

  predicate IsPosition(i: int) { 0 <= i < 9 }

  function Digits(): (r: set<int>)
    ensures |r| == 9 && forall d :: d in r <==> 1 <= d <= 9
  {
    var r := set d: Digit | IsDigit(d);
    assert r == {1, 2, 3, 4, 5, 6, 7, 8, 9};
    r
  }

  function Positions(): (r: set<int>)
    ensures |r| == 9 && forall i :: i in r <==> 0 <= i < 9
  {
    var r := set i: Position | IsPosition(i);
    assert r == {0, 1, 2, 3, 4, 5, 6, 7, 8};
    r
  }

  ghost predicate IsSolution(s: seq<nat>) {
    && |s| == 81
    && (forall c: Cell :: 1 <= s[c] <= 9)
    && (forall a: Cell, b: Cell :: Sees(a, b) ==> s[a] != s[b])
  }

  ghost predicate Extends(g: Grid, s: Grid) {
    forall c: Cell :: g[c] != 0 ==> s[c] == g[c]
  }

  ghost predicate Completes(g: Grid, s: seq<nat>) {
    IsSolution(s) && Extends(g, s)
  }

  /** All digit sequences of a length; only the finiteness of `Completions` rests on it. */
  ghost function Words(n: nat): set<seq<nat>> {
    if n == 0 then {[]}
    else set w, d: nat | w in Words(n - 1) && 1 <= d <= 9 :: w + [d]
  }

  lemma {:induction false} WordsAll(w: seq<nat>)
    requires forall i :: 0 <= i < |w| ==> 1 <= w[i] <= 9
    ensures w in Words(|w|)
  {
    if |w| > 0 {
      var n := |w| - 1;
      WordsAll(w[..n]);
      assert w == w[..n] + [w[n]];
    }
  }

  /** The set of full grids that obey the rules and agree with every digit of g. */
  ghost function Completions(g: Grid): (r: set<seq<nat>>)
    ensures forall s :: s in r <==> Completes(g, s)
  {
    forall s | Completes(g, s) ensures s in Words(|g|) {
      WordsAll(s);
    }
    set s | s in Words(|g|) && Completes(g, s)
  }

  /** In a solution every unit shows every digit. */
  lemma DigitPosition(s: Grid, u: Unit, d: int) returns (i: Position)
    requires IsSolution(s) && 1 <= d <= 9
    ensures 0 <= CellAt(u, i) < 81 && s[CellAt(u, i)] == d
  {
    var f := (i: int) => if 0 <= i < 9 && 0 <= CellAt(u, i) < 81 then s[CellAt(u, i)] as int else 0;
    forall i: Position ensures 0 <= CellAt(u, i) < 81 && f(i) == s[CellAt(u, i)] && f(i) in Digits() {
      CellAtInverse(u, i);
      var c: Cell := CellAt(u, i);
      assert 1 <= s[c] <= 9;
    }
    assert Injective(Positions(), f) by {
      forall i, j | i in Positions() && j in Positions() && i != j ensures f(i) != f(j) {
        CellAtInverse(u, i);
        CellAtInverse(u, j);
        UnitMatesSee(u, CellAt(u, i), CellAt(u, j));
      }
    }
    FillsEveryPlace(Positions(), f, Digits());
    assert d in Image(Positions(), f);
    i :| i in Positions() && f(i) == d;
  }

  lemma DigitShown(s: Grid, u: Unit, d: int)
    requires IsSolution(s) && 1 <= d <= 9
    ensures exists i: Position :: s[At(u, i)] == d
  {
    var i := DigitPosition(s, u, d);
    assert s[At(u, i)] == d;
  }

  /** Where a solution shows a digit in a unit. */
  ghost function PositionIn(s: Grid, u: Unit, d: int): (i: Position)
    requires IsSolution(s) && 1 <= d <= 9
    ensures s[At(u, i)] == d
  {
    DigitShown(s, u, d);
    var i: Position :| s[At(u, i)] == d;
    i
  }

  /** The units' own rule: each shows all nine digits. */
  ghost predicate UnitsComplete(s: Grid) {
    && (forall c: Cell :: 1 <= s[c] <= 9)
    && forall u: Unit, d | 1 <= d <= 9 :: Shows(s, u, d)
  }

  ghost predicate Shows(s: Grid, u: int, d: int) {
    exists c: Cell :: InUnit(c, u) && s[c] == d
  }

  /** No two cells that see each other agree exactly when every unit shows every digit. */
  lemma SolutionByUnits(s: Grid)
    ensures IsSolution(s) <==> UnitsComplete(s)
  {
    if IsSolution(s) {
      forall u: Unit, d | 1 <= d <= 9 ensures Shows(s, u, d) {
        var i := DigitPosition(s, u, d);
        CellAtInverse(u, i);
      }
    }
    if UnitsComplete(s) {
      forall a: Cell, b: Cell | Sees(a, b) ensures s[a] != s[b] {
        var u := SharedUnit(a, b);
        FullUnitDiffers(s, u, a, b);
      }
    }
  }

  lemma FullUnitDiffers(s: Grid, u: Unit, a: Cell, b: Cell)
    requires UnitsComplete(s) && InUnit(a, u) && InUnit(b, u) && a != b
    ensures s[a] != s[b]
  {
    if s[a] == s[b] {
      // Without a the unit still shows nine digits, in eight cells.
      var cells := (set c: Cell | InUnit(c, u)) - {a};
      var f := (c: int) => if 0 <= c < 81 then s[c] as int else 0;
      forall d | d in Digits() ensures d in Image(cells, f) {
        assert Shows(s, u, d);
        var c: Cell :| InUnit(c, u) && s[c] == d;
        var other := if c == a then b else c;
        assert other in cells && f(other) == d;
      }
      SubsetSize(Digits(), Image(cells, f));
      ImageAtMost(cells, f);
      UnitSize(u);
      assert false;
    }
  }

  lemma {:induction false} ImageAtMost(keys: set<int>, f: int -> int)
    ensures |Image(keys, f)| <= |keys|
    decreases |keys|
  {
    if keys == {} {
      assert Image(keys, f) == {};
    } else {
      var k := Member(keys);
      ImageAtMost(keys - {k}, f);
      assert Image(keys, f) == Image(keys - {k}, f) + {f(k)};
    }
  }

  lemma UnitSize(u: Unit)
    ensures |set c: Cell | InUnit(c, u)| == 9
  {
    var f := (i: int) => CellAt(u, i);
    forall i, j | i in Positions() && j in Positions() && i != j ensures f(i) != f(j) {
      CellAtInverse(u, i);
      CellAtInverse(u, j);
    }
    ImageSize(Positions(), f);
    var cells := set c: Cell | InUnit(c, u);
    forall c | c in cells ensures c in Image(Positions(), f) {
      PositionOfInverse(u, c);
      assert PositionOf(u, c) in Positions();
    }
    forall c | c in Image(Positions(), f) ensures c in cells {
      var i :| i in Positions() && f(i) == c;
      CellAtInverse(u, i);
    }
    assert cells == Image(Positions(), f);
  }

  /** More clues leave fewer completions. */
  lemma FewerClues(small: Grid, large: Grid)
    requires forall c: Cell :: small[c] != 0 ==> small[c] == large[c]
    ensures Completions(large) <= Completions(small)
  {
  }

  /** A grid obeying the rules exists, so a search of the empty grid succeeds. */
  function PatternDigit(r: int, k: int): (d: int)
    ensures 1 <= d <= 9
  {
    (r % 3 * 3 + r / 3 + k) % 9 + 1
  }

  lemma SmallRemainders(m: int, n: int)
    requires 0 <= m < 18 && 0 <= n < 18 && m % 9 == n % 9
    ensures m == n || m == n + 9 || m + 9 == n
  {
  }

  /** The same, with rows and columns in their two base-three digits. */
  lemma PatternParts(a: nat, b: nat, c: nat, d: nat, a': nat, b': nat, c': nat, d': nat)
    requires a < 3 && b < 3 && c < 3 && d < 3 && a' < 3 && b' < 3 && c' < 3 && d' < 3
    requires var m, n := a * 3 + b + c * 3 + d, a' * 3 + b' + c' * 3 + d'; m == n || m == n + 9 || m + 9 == n
    requires (a == a' && b == b') || (c == c' && d == d') || (b == b' && c == c')
    ensures a == a' && b == b' && c == c' && d == d'
  {
  }

  lemma PatternRows(r: Position, k: Position, r': Position, k': Position)
    requires PatternDigit(r, k) == PatternDigit(r', k') && (r == r' || k == k' || (r / 3 == r' / 3 && k / 3 == k' / 3))
    ensures r == r' && k == k'
  {
    var a, b, a', b' := r % 3, r / 3, r' % 3, r' / 3;
    SmallRemainders(a * 3 + b + k, a' * 3 + b' + k');
    PatternParts(a, b, k / 3, k % 3, a', b', k' / 3, k' % 3);
  }

  lemma PatternDiffers(a: Cell, b: Cell)
    requires Sees(a, b)
    ensures PatternDigit(a / 9, a % 9) != PatternDigit(b / 9, b % 9)
  {
    hide PatternDigit;
    if PatternDigit(a / 9, a % 9) == PatternDigit(b / 9, b % 9) {
      CellParts(a);
      CellParts(b);
      PatternRows(a / 9, a % 9, b / 9, b % 9);
    }
  }

  lemma PatternIsSolution()
    ensures exists s :: IsSolution(s)
  {
    var s: Grid := seq(81, c requires 0 <= c < 81 => PatternDigit(c / 9, c % 9));
    hide PatternDigit, Sees;
    forall a: Cell, b: Cell | Sees(a, b) ensures s[a] != s[b] { PatternDiffers(a, b); }
    assert IsSolution(s);
  }
}
