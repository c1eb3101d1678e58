/** Singles and locked candidates. */
module Singles {
  import opened Pigeonhole
  import opened Cells
  import opened Solutions
  import opened Marks
  import opened Deductions
  import opened Soundness
  import opened LogicState

  /** A placing step that applies changes its cell. */
  lemma PlacingProgresses(m: State, step: Step, links: nat)
    requires Applies(m, step) && Placing(m, step, links)
    ensures Progresses(m, step, links)
    ensures Found(m, Place(m, step.cell, step.digit), Kind(step), links)
  {
  }

  /** An eliminating step that applies progresses exactly when it hits a mark. */
  lemma ClearingProgresses(m: State, step: Step, links: nat)
    requires Applies(m, step) && !Placing(m, step, links)
    ensures Progresses(m, step, links) <==> Hits(m, Gone(m, step, links))
    ensures Hits(m, Gone(m, step, links)) ==> Found(m, Without(m, Gone(m, step, links)), Kind(step), links)
    ensures !Hits(m, Gone(m, step, links)) ==> Without(m, Gone(m, step, links)) == m
  {
    hide Applies, Gone, Without, Hits, Placing;
    HitsChanges(m, Gone(m, step, links));
  }

  method NakedSingle(s: Logic) returns (progress: bool)
    requires s.Shape() && Valid(s.M())
    modifies s`consistent, s.values, s.candidates
    ensures if progress then Found(old(s.M()), s.M(), 0, s.links) else s.M() == old(s.M()) && NoneOf(s.M(), 0, s.links)
  {
    hide Sees;
    ghost var m := s.M();
    for cell := 0 to 81
      invariant s.M() == m
      invariant forall k: Cell :: k < cell ==> |m.candidates[k]| != 1
    {
      if |s.candidates[cell]| == 1 {
        assert m.candidates[cell] != {};
        var digit := Lowest(s.candidates[cell], 1);
        EqualBySize({digit}, m.candidates[cell]);
        PlacingProgresses(m, Step.NakedSingle(cell, digit), s.links);
        s.PlaceDigit(cell, digit);
        return true;
      }
    }
    return false;
  }

  /** How many cells of a unit may hold a digit, and the last of them. */
  method CountSpots(s: Logic, unit: Unit, digit: Digit) returns (count: nat, found: Cell)
    requires s.Shape()
    ensures count == |Spots(s.M(), unit, digit)|
    ensures count > 0 ==> InUnit(found, unit) && PositionOf(unit, found) in Spots(s.M(), unit, digit)
  {
    hide CellAt, InUnit, Sees, PositionOf, At;
    ghost var m := s.M();
    ghost var seen: set<int> := {};
    count, found := 0, 0;
    for i := 0 to 9
      invariant s.M() == m
      invariant seen == set k: Position | k < i && digit in m.candidates[At(unit, k)]
      invariant count == |seen|
      invariant count > 0 ==> InUnit(found, unit) && PositionOf(unit, found) in seen
    {
      var cell := At(unit, i);
      if digit in s.candidates[cell] {
        count, found := count + 1, cell;
        seen := seen + {i};
      }
    }
    assert seen == Spots(m, unit, digit);
  }

  method HiddenSingle(s: Logic) returns (progress: bool)
    requires s.Shape() && Valid(s.M())
    modifies s`consistent, s.values, s.candidates
    ensures if progress then Found(old(s.M()), s.M(), 1, s.links) else s.M() == old(s.M()) && NoneOf(s.M(), 1, s.links)
  {
    hide CellAt, InUnit, Sees, PositionOf, At, Spots;
    ghost var m := s.M();
    for unit := 0 to 27
      invariant s.M() == m
      invariant forall u: Unit, d: Digit :: u < unit ==> |Spots(m, u, d)| != 1
    {
      for digit := 1 to 10
        invariant s.M() == m
        invariant forall d: Digit :: d < digit ==> |Spots(m, unit, d)| != 1
      {
        var count, found := CountSpots(s, unit, digit);
        if count == 1 {
          EqualBySize({PositionOf(unit, found)}, Spots(m, unit, digit));
          PlacingProgresses(m, Step.HiddenSingle(unit, found, digit), s.links);
          s.PlaceDigit(found, digit);
          return true;
        }
      }
    }
    return false;
  }

  datatype Family = Rows | Columns | Boxes

  function LineOf(f: Family, c: Cell): Position {
    match f
    case Rows => Row(c)
    case Columns => Column(c)
    case Boxes => Box(c)
  }

  function UnitOf(f: Family, line: Position): Unit {
    match f
    case Rows => line
    case Columns => 9 + line
    case Boxes => 18 + line
  }

  lemma UnitByLine(f: Family, c: Cell, line: Position)
    ensures InUnit(c, UnitOf(f, line)) <==> LineOf(f, c) == line
  {
  }

  /** The lines of one family that a digit's candidates in a unit touch. */
  function Touched(m: State, u: Unit, d: int, f: Family): set<int> {
    set i: Position | i in Spots(m, u, d) :: LineOf(f, At(u, i)) as int
  }

  lemma ConfinedByLine(m: State, u: Unit, d: int, f: Family, line: Position)
    requires Spots(m, u, d) != {}
    ensures Confined(m, u, d, UnitOf(f, line)) <==> Touched(m, u, d, f) == {line as int}
  {
    hide CellAt, InUnit, At, Spots, LineOf, UnitOf;
    var spot := Member(Spots(m, u, d));
    SpotInRange(m, u, d, spot);
    assert LineOf(f, At(u, spot)) as int in Touched(m, u, d, f);
    forall i: Position { UnitByLine(f, At(u, i), line); }
    if Confined(m, u, d, UnitOf(f, line)) {
      forall i: Position | i in Spots(m, u, d) ensures LineOf(f, At(u, i)) == line {
        UnitByLine(f, At(u, i), line);
      }
    } else {
      var i: Position :| i in Spots(m, u, d) && !InUnit(At(u, i), UnitOf(f, line));
      UnitByLine(f, At(u, i), line);
      assert LineOf(f, At(u, i)) as int in Touched(m, u, d, f);
    }
  }

  lemma SpotInRange(m: State, u: Unit, d: int, i: int)
    requires i in Spots(m, u, d)
    ensures 0 <= i < 9
  {
  }

  method SpotLines(s: Logic, unit: Unit, digit: Digit) returns (rows: set<int>, columns: set<int>, boxes: set<int>)
    requires s.Shape()
    ensures rows == Touched(s.M(), unit, digit, Rows)
    ensures columns == Touched(s.M(), unit, digit, Columns)
    ensures boxes == Touched(s.M(), unit, digit, Boxes)
  {
    hide CellAt, InUnit, Sees, PositionOf, At, Row, Column, Box;
    ghost var m := s.M();
    rows, columns, boxes := {}, {}, {};
    for i := 0 to 9
      invariant s.M() == m
      invariant rows == set k: Position | k < i &&
        digit in m.candidates[At(unit, k)] :: LineOf(Rows, At(unit, k)) as int
      invariant columns == set k: Position | k < i &&
        digit in m.candidates[At(unit, k)] :: LineOf(Columns, At(unit, k)) as int
      invariant boxes == set k: Position | k < i &&
        digit in m.candidates[At(unit, k)] :: LineOf(Boxes, At(unit, k)) as int
    {
      var cell := At(unit, i);
      if digit in s.candidates[cell] {
        rows, columns, boxes :=
          rows + {LineOf(Rows, cell)}, columns + {LineOf(Columns, cell)}, boxes + {LineOf(Boxes, cell)};
      }
    }
    assert rows == Touched(m, unit, digit, Rows);
    assert columns == Touched(m, unit, digit, Columns);
    assert boxes == Touched(m, unit, digit, Boxes);
  }

  /** The line or box that a digit of a unit is locked into, or -1. */
  method LockedTarget(s: Logic, unit: Unit, digit: Digit) returns (target: int)
    requires s.Shape()
    ensures -1 <= target < 27
    ensures forall t: Unit :: Applies(s.M(), Locked(unit, digit, t)) <==> t == target
  {
    hide CellAt, InUnit, Sees, PositionOf, At, Spots, Confined, LineOf, Applies, Touched;
    var rows, columns, boxes := SpotLines(s, unit, digit);
    if rows == {} {
      NoSpots(s.M(), unit, digit);
      assert forall t: Unit :: !Applies(s.M(), Locked(unit, digit, t)) by { NotLocked(s.M(), unit, digit); }
      return -1;
    }
    SomeSpots(s.M(), unit, digit);
    TouchedLines(s.M(), unit, digit);
    target := -1;
    if unit >= 18 && |rows| == 1 { target := Lowest(rows, 0); EqualBySize({target}, rows); }
    else if unit >= 18 && |columns| == 1 { target := 9 + Lowest(columns, 0); EqualBySize({target - 9}, columns); }
    else if unit < 18 && |boxes| == 1 { target := 18 + Lowest(boxes, 0); EqualBySize({target - 18}, boxes); }
    forall t: Unit ensures Applies(s.M(), Locked(unit, digit, t)) <==> t == target {
      LockedByLines(s.M(), unit, digit, t);
    }
  }

  lemma NotLocked(m: State, u: Unit, d: Digit)
    requires Spots(m, u, d) == {}
    ensures forall t: Unit :: !Applies(m, Locked(u, d, t))
  {
  }

  lemma TouchedLines(m: State, u: Unit, d: Digit)
    ensures forall f: Family, x :: x in Touched(m, u, d, f) ==> 0 <= x < 9
  {
  }

  /** Locked candidates in terms of the lines touched, rows before columns. */
  lemma LockedByLines(m: State, u: Unit, d: Digit, t: Unit)
    requires Spots(m, u, d) != {}
    ensures Applies(m, Locked(u, d, t)) <==>
      if u < 18 then t >= 18 && Touched(m, u, d, Boxes) == {t - 18}
      else if t < 9 then Touched(m, u, d, Rows) == {t as int}
      else t < 18 && Touched(m, u, d, Columns) == {t - 9} && |Touched(m, u, d, Rows)| != 1
  {
    hide CellAt, InUnit, At, Spots, Confined, LineOf, Touched;
    if t < 9 { ConfinedByLine(m, u, d, Rows, t); }
    else if t < 18 {
      ConfinedByLine(m, u, d, Columns, t - 9);
      forall r: Position ensures Confined(m, u, d, r) <==> Touched(m, u, d, Rows) == {r as int} {
        ConfinedByLine(m, u, d, Rows, r);
      }
      if |Touched(m, u, d, Rows)| == 1 {
        var r := Member(Touched(m, u, d, Rows));
        TouchedLines(m, u, d);
        EqualBySize({r}, Touched(m, u, d, Rows));
        var line: Position := r;
        assert Confined(m, u, d, line);
      }
    }
    else { ConfinedByLine(m, u, d, Boxes, t - 18); }
  }

  lemma NoSpots(m: State, u: Unit, d: Digit)
    requires Touched(m, u, d, Rows) == {}
    ensures Spots(m, u, d) == {}
  {
    hide At, LineOf;
    if Spots(m, u, d) != {} {
      var i := Member(Spots(m, u, d));
      SpotTouches(m, u, d, i);
    }
  }

  lemma SpotTouches(m: State, u: Unit, d: Digit, i: int)
    requires i in Spots(m, u, d)
    ensures Touched(m, u, d, Rows) != {}
  {
    hide At, LineOf;
    assert LineOf(Rows, At(u, i)) as int in Touched(m, u, d, Rows);
  }

  lemma SomeSpots(m: State, u: Unit, d: Digit)
    requires Touched(m, u, d, Rows) != {}
    ensures Spots(m, u, d) != {}
  {
  }

  /** Clears a digit from the cells of one unit that lie outside another. */
  method ClearOutside(s: Logic, unit: Unit, digit: Digit, target: Unit) returns (progress: bool)
    requires s.Shape()
    modifies s`consistent, s.candidates
    ensures s.M() == Without(old(s.M()), Gone(old(s.M()), Locked(unit, digit, target), s.links))
    ensures progress <==> Hits(old(s.M()), Gone(old(s.M()), Locked(unit, digit, target), s.links))
  {
    hide CellAt, Sees, At, Without, Hits, Only;
    ghost var m := s.M();
    ghost var gone: set<Mark> := {};
    progress := false;
    WithoutEmpty(m);
    for i := 0 to 9
      invariant s.M() == Without(m, gone) && (progress <==> Hits(m, gone))
      invariant forall p :: p in gone <==>
        exists k: Position :: k < i && !InUnit(At(target, k), unit) && p == (At(target, k) as int, digit as int)
    {
      var cell := At(target, i);
      if !InUnit(cell, unit) {
        progress := s.Sweep(cell, {digit}, progress, m, gone);
        OnlyOne(cell, digit);
        gone := gone + Only(cell, {digit});
      }
    }
    SweptTarget(m, unit, digit, target, gone, s.links);
  }

  lemma WithoutEmpty(m: State)
    ensures Without(m, {}) == m && !Hits(m, {})
  {
    WithoutNothing(m, {});
  }

  lemma OnlyOne(c: Cell, d: int)
    ensures Only(c, {d}) == {(c as int, d)}
  {
  }

  lemma SweptTarget(m: State, unit: Unit, digit: Digit, target: Unit, gone: set<Mark>, links: nat)
    requires forall p :: p in gone <==>
      exists k: Position :: !InUnit(At(target, k), unit) && p == (At(target, k) as int, digit as int)
    ensures gone == Gone(m, Locked(unit, digit, target), links)
  {
    hide CellAt, InUnit, PositionOf, At;
    var all := Gone(m, Locked(unit, digit, target), links);
    forall p | p in all ensures p in gone {
      var c: Cell :| InUnit(c, target) && !InUnit(c, unit) && p == (c as int, digit as int);
      PositionOfInverse(target, c);
      AtCellAt(target, PositionOf(target, c));
    }
  }

  method LockedCandidates(s: Logic) returns (progress: bool)
    requires s.Shape() && Valid(s.M())
    modifies s`consistent, s.values, s.candidates
    ensures if progress then Found(old(s.M()), s.M(), 2, s.links) else s.M() == old(s.M()) && NoneOf(s.M(), 2, s.links)
  {
    hide Applies, Gone, Without, Hits, Apply;
    ghost var m := s.M();
    for unit := 0 to 27
      invariant s.M() == m
      invariant forall u: Unit, d: Digit, t: Unit :: u < unit ==> !Progresses(m, Locked(u, d, t), s.links)
    {
      for digit := 1 to 10
        invariant s.M() == m
        invariant forall d: Digit, t: Unit :: d < digit ==> !Progresses(m, Locked(unit, d, t), s.links)
      {
        var target := LockedTarget(s, unit, digit);
        if target >= 0 {
          ClearingProgresses(m, Locked(unit, digit, target), s.links);
          progress := ClearOutside(s, unit, digit, target);
          if progress { return true; }
        }
      }
    }
    return false;
  }
}
