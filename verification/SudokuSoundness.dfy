/** Every deduction keeps every completion, and never empties a state's meaning. */
module Soundness {
  import opened Basics
  import opened Pigeonhole
  import opened Cells
  import opened Solutions
  import opened Marks
  import opened Deductions

  /** A digit with a candidate in a unit has its true cell among those candidates. */
  lemma TrueSpot(m: State, s: Grid, u: Unit, d: Digit)
    requires Valid(m) && Fits(m, s) && Spots(m, u, d) != {}
    ensures PositionIn(s, u, d) in Spots(m, u, d)
  {
  }

  lemma SamePosition(s: Grid, u: Unit, i: Position, j: Position)
    requires IsSolution(s) && s[At(u, i)] == s[At(u, j)]
    ensures i == j
  {
  }

  lemma HiddenSingleSound(m: State, step: Step, s: Grid)
    requires Valid(m) && Fits(m, s) && step.HiddenSingle? && Applies(m, step)
    ensures s[step.cell] == step.digit
  {
    TrueSpot(m, s, step.unit, step.digit);
    PositionOfInverse(step.unit, step.cell);
  }

  lemma LockedSound(m: State, step: Step, s: Grid, c: Cell)
    requires Valid(m) && Fits(m, s) && step.Locked? && Applies(m, step)
    requires InUnit(c, step.target) && !InUnit(c, step.unit)
    ensures s[c] != step.digit
  {
    TrueSpot(m, s, step.unit, step.digit);
    var i := PositionIn(s, step.unit, step.digit);
    var k := At(step.unit, i);
    CellAtInverse(step.unit, i);
    assert InUnit(k, step.target);
    UnitMatesSee(step.target, c, k);
  }

  /** n cells of a unit that hold only n digits leave none of them to the rest of the unit. */
  lemma CellsTakeDigits(s: Grid, u: Unit, places: set<int>, digits: set<int>, j: Position)
    requires IsSolution(s) && places <= Positions() && |digits| == |places|
    requires forall i: Position :: i in places ==> s[At(u, i)] as int in digits
    requires j !in places
    ensures s[At(u, j)] as int !in digits
  {
    hide CellAt, At, InUnit, Sees, PositionOf, IsSolution;
    var f := (i: int) => if IsPosition(i) then s[At(u, i)] as int else 0;
    forall x, y | x in places && y in places && x != y ensures f(x) != f(y) {
      if f(x) == f(y) { SamePosition(s, u, x, y); }
    }
    FillsEveryPlace(places, f, digits);
    if f(j) in digits {
      var i :| i in places && f(i) == f(j);
      SamePosition(s, u, i, j);
    }
  }

  lemma NakedSubsetSound(m: State, step: Step, s: Grid, j: Position)
    requires Valid(m) && Fits(m, s) && step.NakedSubset? && Applies(m, step)
    requires j !in step.places
    ensures s[At(step.unit, j)] as int !in DigitsAt(m, step.unit, step.places)
  {
    hide CellAt, At, InUnit, Sees, PositionOf, IsSolution;
    var u, places := step.unit, step.places;
    var digits := DigitsAt(m, u, places);
    forall i: Position | i in places ensures s[At(u, i)] as int in digits {
      assert m.candidates[At(u, i)] != {};
      assert m.values[At(u, i)] == 0;
    }
    CellsTakeDigits(s, u, places, digits, j);
  }

  /** n digits that fit only n places of a unit take all of them. */
  lemma DigitsTakePositions(s: Grid, u: Unit, digits: set<int>, places: set<int>, i: Position)
    requires IsSolution(s) && digits <= Digits() && |places| == |digits|
    requires forall d: Digit :: d in digits ==> PositionIn(s, u, d) in places
    requires i in places
    ensures s[At(u, i)] as int in digits
  {
    hide CellAt, At, InUnit, Sees, PositionOf, IsSolution;
    var f := (d: int) => if IsDigit(d) && IsSolution(s) then PositionIn(s, u, d) as int else 0;
    forall x | x in digits ensures f(x) in places && s[At(u, f(x))] == x {
      var d: Digit := x;
      assert f(x) == PositionIn(s, u, d);
    }
    FillsEveryPlace(digits, f, places);
    var d :| d in digits && f(d) == i;
  }

  lemma HiddenSubsetSound(m: State, step: Step, s: Grid, i: Position)
    requires Valid(m) && Fits(m, s) && step.HiddenSubset? && Applies(m, step)
    requires i in PositionsOf(m, step.unit, step.digits)
    ensures s[At(step.unit, i)] as int in step.digits
  {
    hide CellAt, At, InUnit, Sees, PositionOf, IsSolution;
    var u, digits := step.unit, step.digits;
    forall d: Digit | d in digits ensures PositionIn(s, u, d) in PositionsOf(m, u, digits) {
      assert Spots(m, u, d) != {};
      TrueSpot(m, s, u, d);
    }
    DigitsTakePositions(s, u, digits, PositionsOf(m, u, digits), i);
  }

  lemma FishCellsSee(byRows: bool, k: Position, l: Position, i: Position)
    requires k != l
    ensures Sees(At(Line(byRows, k), i), At(Line(byRows, l), i))
  {
  }

  /** n lines showing a digit only in n crossing lines leave no other line to show it there. */
  lemma LinesTakeCover(s: Grid, d: Digit, byRows: bool, lines: set<int>, cover: set<int>, l: Position, i: Position)
    requires IsSolution(s) && lines <= Positions() && |cover| == |lines|
    requires forall k: Position :: k in lines ==> PositionIn(s, Line(byRows, k), d) in cover
    requires l !in lines && i in cover
    ensures s[At(Line(byRows, l), i)] != d
  {
    hide CellAt, At, InUnit, Sees, PositionOf, Line;
    var f := (k: int) => if IsPosition(k) && IsSolution(s) then PositionIn(s, Line(byRows, k), d) as int else 0;
    forall k | k in lines ensures f(k) in cover && s[At(Line(byRows, k), f(k))] == d {
      var line: Position := k;
      assert f(k) == PositionIn(s, Line(byRows, line), d);
    }
    forall x, y | x in lines && y in lines && x != y ensures f(x) != f(y) {
      FishCellsSee(byRows, x, y, f(x));
    }
    FillsEveryPlace(lines, f, cover);
    var k :| k in lines && f(k) == i;
    FishCellsSee(byRows, k, l, i);
  }

  lemma FishSound(m: State, step: Step, s: Grid, l: Position, i: Position)
    requires Valid(m) && Fits(m, s) && step.Fish? && Applies(m, step)
    requires l !in step.lines && i in Cover(m, step.digit, step.byRows, step.lines)
    ensures s[At(Line(step.byRows, l), i)] != step.digit
  {
    hide CellAt, At, InUnit, Sees, PositionOf, IsSolution, Line;
    var d, byRows, lines := step.digit, step.byRows, step.lines;
    forall k: Position | k in lines ensures PositionIn(s, Line(byRows, k), d) in Cover(m, d, byRows, lines) {
      assert Spots(m, Line(byRows, k), d) != {};
      TrueSpot(m, s, Line(byRows, k), d);
    }
    LinesTakeCover(s, d, byRows, lines, Cover(m, d, byRows, lines), l, i);
  }

  /** A two-element set is exactly any two of its members. */
  lemma TwoMembers(t: set<int>, x: int, y: int)
    requires |t| == 2 && x in t && y in t && x != y
    ensures t == {x, y}
  {
    EqualBySize({x, y}, t);
  }

  lemma XyWingSound(m: State, step: Step, s: Grid, c: Cell)
    requires Valid(m) && Fits(m, s) && step.XyWing? && Applies(m, step)
    requires Sees(step.a, c) && Sees(c, step.b)
    ensures s[c] as int !in m.candidates[step.a] - m.candidates[step.pivot]
  {
    var pair, first := m.candidates[step.pivot], m.candidates[step.a];
    var z := s[c] as int;
    if z in first - pair {
      // Neither wing can be z, so the wings take both digits of the pivot.
      assert m.values[step.a] == 0 && m.values[step.b] == 0 && m.values[step.pivot] == 0;
      var x := s[step.a] as int;
      assert x in first && x != z;
      TwoMembers(first, x, z);
      assert first - pair == {z} by { SingleRest(first, pair, z); }
      assert s[step.b] as int in pair - first;
      assert x in pair by { SingleRest(first, pair, z); }
      TwoMembers(pair, x, s[step.b] as int);
      assert false;
    }
  }

  lemma SingleRest(first: set<int>, pair: set<int>, z: int)
    requires |first| == 2 && |first * pair| == 1 && z in first - pair
    ensures first - pair == {z}
    ensures forall x :: x in first && x != z ==> x in pair
  {
    assert first == (first * pair) + (first - pair);
    assert |first - pair| == 1;
    EqualBySize({z}, first - pair);
  }

  lemma XyzWingSound(m: State, step: Step, s: Grid, c: Cell)
    requires Valid(m) && Fits(m, s) && step.XyzWing? && Applies(m, step)
    requires Sees(step.pivot, c) && Sees(c, step.a) && Sees(c, step.b)
    ensures s[c] as int !in m.candidates[step.a] * m.candidates[step.b]
  {
    var first, second := m.candidates[step.a], m.candidates[step.b];
    var z := s[c] as int;
    if z in first * second {
      assert m.values[step.a] == 0 && m.values[step.b] == 0 && m.values[step.pivot] == 0;
      TwoMembers(first, s[step.a] as int, z);
      TwoMembers(second, s[step.b] as int, z);
      assert false;
    }
  }

  ghost predicate Holds(s: Grid, y: Claim) {
    if y.on then s[y.cell] == y.digit else s[y.cell] != y.digit
  }

  /** A link carries truth from one claim to the next. */
  lemma LinkSound(m: State, s: Grid, x: Claim, y: Claim)
    requires Valid(m) && Fits(m, s) && Link(m, x, y)
    requires x.digit in m.candidates[x.cell] && Holds(s, x)
    ensures Holds(s, y)
  {
    hide CellAt, At, InUnit, Sees, PositionOf;
    if !x.on {
      if y.cell == x.cell {
        assert m.values[x.cell] == 0;
        TwoMembers(m.candidates[x.cell], x.digit, y.digit);
      } else {
        var u: Unit :| InUnit(x.cell, u) && InUnit(y.cell, u) && |Spots(m, u, x.digit)| == 2;
        BilocalSound(m, s, u, x.cell, y.cell, x.digit);
      }
    }
  }

  /** Of the only two candidates for a digit in a unit, a false one forces the other. */
  lemma BilocalSound(m: State, s: Grid, u: Unit, x: Cell, y: Cell, d: Digit)
    requires Valid(m) && Fits(m, s) && InUnit(x, u) && InUnit(y, u) && x != y && |Spots(m, u, d)| == 2
    requires d in m.candidates[x] && d in m.candidates[y] && s[x] != d
    ensures s[y] == d
  {
    hide CellAt, InUnit, Sees, PositionOf, IsSolution, At;
    PositionOfInverse(u, x);
    PositionOfInverse(u, y);
    var i, j := PositionOf(u, x), PositionOf(u, y);
    AtCellAt(u, i);
    AtCellAt(u, j);
    TwoMembers(Spots(m, u, d), i, j);
    TrueSpot(m, s, u, d);
  }

  lemma AtCellAt(u: Unit, i: Position)
    ensures At(u, i) == CellAt(u, i)
  {
  }

  /** Everything a chain reaches is a live candidate and true wherever its start is false. */
  lemma {:induction false} ReachSound(m: State, cell: Cell, digit: Digit, links: nat, s: Grid, y: Claim)
    requires Valid(m) && Fits(m, s) && digit in m.candidates[cell] && s[cell] != digit
    requires y in Reach(m, cell, digit, links)
    ensures y.digit in m.candidates[y.cell] && Holds(s, y)
  {
    hide CellAt, At, InUnit, Sees, Spots;
    if links > 0 {
      var near := Reach(m, cell, digit, links - 1);
      if y in near {
        ReachSound(m, cell, digit, links - 1, s, y);
      } else {
        var x :| x in near && Link(m, x, y);
        ReachSound(m, cell, digit, links - 1, s, x);
        LinkSound(m, s, x, y);
      }
    }
  }

  /** A chain back to its start proves it. */
  lemma ChainProofSound(m: State, step: Step, links: nat, s: Grid)
    requires Valid(m) && Fits(m, s) && step.Chain? && Applies(m, step) && Proves(m, step.cell, step.digit, links)
    ensures s[step.cell] == step.digit
  {
    if s[step.cell] != step.digit {
      ReachSound(m, step.cell, step.digit, links, s, Claim(step.cell, step.digit, true));
    }
  }

  /** A candidate forced false that also excludes the start is false either way. */
  lemma ChainEliminationSound(m: State, step: Step, links: nat, s: Grid, c: Cell, d: Digit)
    requires Valid(m) && Fits(m, s) && step.Chain? && Applies(m, step)
    requires Claim(c, d, false) in Reach(m, step.cell, step.digit, links) && Linked(c, d, step.cell, step.digit)
    ensures s[c] != d
  {
    if s[step.cell] != step.digit {
      ReachSound(m, step.cell, step.digit, links, s, Claim(c, d, false));
    }
  }

  lemma PlacedDigit(m: State, step: Step, links: nat)
    requires Applies(m, step) && Placing(m, step, links)
    ensures step.digit in m.candidates[step.cell]
  {
    hide Spots, InUnit, Sees;
    if step.HiddenSingle? {
      PositionOfInverse(step.unit, step.cell);
      SpotIsCandidate(m, step.unit, step.digit, PositionOf(step.unit, step.cell));
    }
  }

  lemma SpotIsCandidate(m: State, u: Unit, d: int, i: Position)
    requires i in Spots(m, u, d)
    ensures d in m.candidates[CellAt(u, i)]
  {
  }

  lemma PlacedSound(m: State, step: Step, links: nat, s: Grid)
    requires Valid(m) && Fits(m, s) && Applies(m, step) && Placing(m, step, links)
    ensures s[step.cell] == step.digit
  {
    hide Spots, InUnit, Sees, CellAt, At, Reach;
    match step
    case NakedSingle(cell, digit) => assert m.values[cell] == 0;
    case HiddenSingle(_, _, _) => HiddenSingleSound(m, step, s);
    case Chain(_, _) => ChainProofSound(m, step, links, s);
  }

  /** No completion uses a mark that a step clears. */
  lemma GoneSound(m: State, step: Step, links: nat, s: Grid, c: Cell)
    requires Valid(m) && Fits(m, s) && Applies(m, step)
    ensures (c, s[c] as int) !in Gone(m, step, links)
  {
    hide Spots, InUnit, Sees, CellAt, At, Reach, DigitsAt, PositionsOf, Cover, Line, Applies, Valid;
    if (c, s[c] as int) in Gone(m, step, links) {
      match step
      case Locked(unit, digit, target) => LockedSound(m, step, s, c);
      case NakedSubset(unit, places) =>
        var i: Position, d: Digit :| i !in places && d in DigitsAt(m, unit, places) && c == At(unit, i) && d == s[c];
        NakedSubsetSound(m, step, s, i);
      case HiddenSubset(unit, digits) =>
        var i: Position, d: Digit :| i in PositionsOf(m, unit, digits) && d !in digits && c == At(unit, i) && d == s[c];
        HiddenSubsetSound(m, step, s, i);
      case Fish(digit, byRows, lines) =>
        var l: Position, i: Position :|
          l !in lines && i in Cover(m, digit, byRows, lines) && c == At(Line(byRows, l), i) && digit == s[c];
        FishSound(m, step, s, l, i);
      case XyWing(_, _, _) => XyWingSound(m, step, s, c);
      case XyzWing(_, _, _) => XyzWingSound(m, step, s, c);
      case Chain(_, _) => ChainEliminationSound(m, step, links, s, c, s[c]);
      case NakedSingle(_, _) =>
      case HiddenSingle(_, _, _) =>
    }
  }

  /** Each deduction keeps the state well formed, every completion, and agreement with the reference. */
  lemma StepSound(m: State, step: Step, links: nat)
    requires Valid(m) && Applies(m, step)
    ensures Valid(Apply(m, step, links))
    ensures forall s: Grid :: Fits(m, s) ==> Fits(Apply(m, step, links), s)
    ensures forall s: Grid :: Fits(m, s) && m.reference == Some(s) ==> Apply(m, step, links).consistent == m.consistent
  {
    hide Valid, Fits, Applies, Gone, Sees, Without, Place;
    if Placing(m, step, links) {
      PlacedDigit(m, step, links);
      PlaceKeepsValid(m, step.cell, step.digit);
      forall s: Grid | Fits(m, s)
        ensures Fits(Apply(m, step, links), s)
        ensures m.reference == Some(s) ==> Apply(m, step, links).consistent == m.consistent
      {
        PlacedSound(m, step, links, s);
        PlaceKeepsFit(m, step.cell, step.digit, s);
      }
    } else {
      var gone := Gone(m, step, links);
      WithoutKeepsValid(m, gone);
      forall s: Grid | Fits(m, s)
        ensures Fits(Apply(m, step, links), s)
        ensures m.reference == Some(s) ==> Apply(m, step, links).consistent == m.consistent
      {
        forall c: Cell ensures (c, s[c] as int) !in gone { GoneSound(m, step, links, s, c); }
        WithoutKeepsFit(m, gone, s);
      }
    }
  }

  /** The candidate marks still open: what a run of deductions uses up. */
  ghost function Open(m: State): set<Mark> {
    set c: Cell, d | d in m.candidates[c] :: (c, d)
  }

  lemma StepShrinks(m: State, step: Step, links: nat)
    requires Valid(m) && Progresses(m, step, links)
    ensures |Open(Apply(m, step, links))| < |Open(m)|
  {
    hide Valid, Applies, Gone, Sees;
    var p := Apply(m, step, links);
    assert Open(p) <= Open(m);
    if Placing(m, step, links) {
      PlacedDigit(m, step, links);
      assert (step.cell, step.digit as int) in Open(m) - Open(p);
    } else {
      var gone := Gone(m, step, links);
      if forall c: Cell, d :: d in m.candidates[c] ==> (c, d) !in gone { WithoutNothing(m, gone); }
      var c: Cell, d :| d in m.candidates[c] && (c, d) in gone;
      assert (c, d) in Open(m) - Open(p);
    }
    if |Open(p)| >= |Open(m)| { EqualBySize(Open(p), Open(m)); }
  }
}
