/** The rules that the solver searches for are the human techniques. */
module Techniques {
  import opened Basics
  import opened Pigeonhole
  import opened Cells
  import opened Solutions
  import opened Marks
  import opened Deductions
  import opened Soundness
  import opened Patterns

  // What steps do.

  lemma PlaceWrites(m: State, c: Cell, d: Digit)
    ensures Writes(m, c, d, Place(m, c, d))
  {
    hide Sees;
  }

  lemma WithoutLeaves(m: State, gone: set<Mark>)
    ensures forall k: Cell, e :: Pencilled(Without(m, gone), k, e) <==> Pencilled(m, k, e) && (k as int, e) !in gone
  {
  }

  lemma WithoutRubs(m: State, gone: set<Mark>)
    requires Hits(m, gone)
    ensures Rubs(m, Without(m, gone))
  {
    var after := Without(m, gone);
    WithoutLeaves(m, gone);
    var c: Cell, d :| d in m.candidates[c] && (c, d) in gone;
    assert Pencilled(m, c, d) && !Pencilled(after, c, d);
    if m.reference.Some? && Contradicts(m, gone) {
      var k: Cell :| m.reference.value[k] as int in m.candidates[k] && (k, m.reference.value[k] as int) in gone;
      assert !Pencilled(after, k, m.reference.value[k]);
    }
  }

  /** A step that only clears marks and changes something rubs something out. */
  lemma ClearingRubs(m: State, step: Step, links: nat)
    requires Progresses(m, step, links) && !Placing(m, step, links)
    ensures Hits(m, Gone(m, step, links)) && Rubs(m, Apply(m, step, links))
    ensures forall k: Cell, e :: Pencilled(Apply(m, step, links), k, e) <==>
      Pencilled(m, k, e) && (k as int, e) !in Gone(m, step, links)
  {
    hide Gone, Without, Placing, Applies, Rubs;
    HitsChanges(m, Gone(m, step, links));
    WithoutRubs(m, Gone(m, step, links));
    WithoutLeaves(m, Gone(m, step, links));
  }

  /** A rule whose marks to clear are still there progresses. */
  lemma MarkProgresses(m: State, step: Step, links: nat, c: Cell, e: int)
    requires Applies(m, step) && !Placing(m, step, links) && Pencilled(m, c, e) && (c as int, e) in Gone(m, step, links)
    ensures Progresses(m, step, links)
  {
    hide Gone, Without, Placing, Applies;
    HitsChanges(m, Gone(m, step, links));
  }

  // Singles.

  lemma SpotsAre(m: State, u: Unit, d: int, c: Cell)
    requires InUnit(c, u)
    ensures PositionOf(u, c) in Spots(m, u, d) <==> Pencilled(m, c, d)
  {
    hide InUnit, CellAt, PositionOf;
    PositionOfInverse(u, c);
    AtIs(u, c);
  }

  lemma AtIs(u: Unit, c: Cell)
    requires InUnit(c, u)
    ensures 0 <= PositionOf(u, c) < 9 && At(u, PositionOf(u, c)) == c
  {
    PositionOfInverse(u, c);
    AtCellAt(u, PositionOf(u, c));
  }

  lemma SingleIsMade(m: State, step: Step, links: nat)
    requires Progresses(m, step, links) && Level(step) == 1
    ensures MakesSingle(m, Apply(m, step, links))
  {
    hide Writes, InUnit, Sees, PositionOf;
    PlaceWrites(m, step.cell, step.digit);
    if step.NakedSingle? {
      assert NakedSingleAt(m, step.cell, step.digit);
    } else {
      var u, c, d := step.unit, step.cell, step.digit;
      SpotsAre(m, u, d, c);
      forall k: Cell | InUnit(k, u) && Pencilled(m, k, d) ensures k == c {
        SpotsAre(m, u, d, k);
        AtIs(u, k);
        AtIs(u, c);
      }
      assert HiddenSingleAt(m, u, c, d);
    }
  }

  lemma NoSingleLeft(m: State, links: nat)
    requires forall step: Step :: Level(step) == 1 ==> !Progresses(m, step, links)
    ensures NoSingle(m)
  {
    hide Place, InUnit, Sees, PositionOf;
    forall c: Cell, d: Digit ensures !NakedSingleAt(m, c, d) {
      if NakedSingleAt(m, c, d) {
        assert m.candidates[c] == {d} by {
          forall e | e in m.candidates[c] ensures e == d { assert Pencilled(m, c, e); }
        }
        WritingProgresses(m, Step.NakedSingle(c, d), links);
      }
    }
    forall c: Cell, d: Digit, u: Unit ensures !HiddenSingleAt(m, u, c, d) {
      if HiddenSingleAt(m, u, c, d) {
        SpotsAre(m, u, d, c);
        forall i | i in Spots(m, u, d) ensures i == PositionOf(u, c) {
          var k := At(u, i);
          assert InUnit(k, u) && Pencilled(m, k, d) && PositionOf(u, k) == i;
        }
        assert Spots(m, u, d) == {PositionOf(u, c)};
        WritingProgresses(m, Step.HiddenSingle(u, c, d), links);
      }
    }
  }

  lemma WritingProgresses(m: State, step: Step, links: nat)
    requires Applies(m, step) && Placing(m, step, links)
    ensures Progresses(m, step, links)
  {
    hide Applies, Spots;
    PlacedDigit(m, step, links);
    assert step.digit in m.candidates[step.cell] &&
      step.digit !in Place(m, step.cell, step.digit).candidates[step.cell];
  }

  // Locked candidates.

  lemma LockedIs(m: State, u: Unit, v: Unit, d: Digit)
    ensures Spots(m, u, d) != {} <==> exists c: Cell :: InUnit(c, u) && Pencilled(m, c, d)
    ensures Confined(m, u, d, v) <==> forall c: Cell :: InUnit(c, u) && Pencilled(m, c, d) ==> InUnit(c, v)
  {
    hide InUnit, PositionOf, CellAt;
    forall c: Cell | InUnit(c, u) ensures PositionOf(u, c) in Spots(m, u, d) <==>
      Pencilled(m, c, d) { SpotsAre(m, u, d, c); AtIs(u, c); }
    forall i: Position ensures i in Spots(m, u, d) <==> Pencilled(m, At(u, i), d) { }
    forall c: Cell | InUnit(c, u) && Pencilled(m, c, d) && Confined(m, u, d, v) ensures InUnit(c, v) { AtIs(u, c); }
    if Spots(m, u, d) != {} { var i := Member(Spots(m, u, d)); assert InUnit(At(u, i), u); }
  }

  lemma LockedIsMade(m: State, step: Step, links: nat)
    requires Progresses(m, step, links) && step.Locked?
    ensures MakesLocked(m, Apply(m, step, links))
  {
    hide InUnit, Spots, Confined, Rubs, Apply;
    var u, v, d := step.unit, step.target, step.digit;
    ClearingRubs(m, step, links);
    LockedIs(m, u, v, d);
    assert LockedAt(m, u, v, d);
    assert forall c: Cell, e :: (c as int, e) in Gone(m, step, links) <==> LockedClears(u, v, d, c, e);
  }

  lemma NoLockedLeft(m: State, links: nat)
    requires NoSingle(m) && forall step: Step :: Level(step) == 2 ==> !Progresses(m, step, links)
    ensures NoLocked(m)
  {
    hide InUnit, Spots, Confined, NoSingle;
    forall u: Unit, v: Unit, d: Digit, c: Cell, e | LockedAt(m, u, v, d) && LockedClears(u, v, d, c, e)
      ensures !Pencilled(m, c, e) {
      LockedIs(m, u, v, d);
      if u >= 18 && 9 <= v {
        forall r: Position | Confined(m, u, d, r) ensures false { CrossingIsSingle(m, u, r, v, d); }
      }
      if Pencilled(m, c, e) { MarkProgresses(m, Step.Locked(u, d, v), links, c, e); }
    }
  }

  lemma OneCrossing(r: Position, v: Unit, k: Cell, c: Cell)
    requires 9 <= v < 18 && InUnit(k, r) && InUnit(k, v) && InUnit(c, r) && InUnit(c, v)
    ensures k == c
  {
  }

  /** What is confined to both a row and a column of a box has a single place. */
  lemma CrossingIsSingle(m: State, u: Unit, r: Position, v: Unit, d: Digit)
    requires 9 <= v < 18 && Confined(m, u, d, r) && LockedAt(m, u, v, d)
    ensures !NoSingle(m)
  {
    hide InUnit, Confined, Spots;
    LockedIs(m, u, r, d);
    var c: Cell :| InUnit(c, u) && Pencilled(m, c, d);
    forall k: Cell | InUnit(k, u) && Pencilled(m, k, d) ensures k == c { OneCrossing(r, v, k, c); }
    assert HiddenSingleAt(m, u, c, d);
  }

  // Subsets.

  /** The cells at some places of a unit. */
  ghost function CellsAt(u: Unit, places: set<int>): (cells: set<Cell>)
    ensures forall c: Cell :: c in cells <==> InUnit(c, u) && PositionOf(u, c) in places
  {
    forall c: Cell | InUnit(c, u) ensures 0 <= PositionOf(u, c) < 9 && At(u, PositionOf(u, c)) == c { AtIs(u, c); }
    hide InUnit, PositionOf, CellAt;
    set i: Position | i in places :: At(u, i)
  }

  lemma {:induction false} CellsAtSize(u: Unit, places: set<int>)
    requires places <= Positions()
    ensures |CellsAt(u, places)| == |places|
  {
    hide InUnit, PositionOf, CellAt;
    if places == {} {
      assert CellsAt(u, places) == {};
    } else {
      var i := Member(places);
      CellsAtSize(u, places - {i});
      assert CellsAt(u, places) == CellsAt(u, places - {i}) + {At(u, i)};
    }
  }

  /** The places of some cells of a unit. */
  ghost function PlacesOf(u: Unit, cells: set<Cell>): (places: set<int>)
    requires forall c: Cell :: c in cells ==> InUnit(c, u)
    ensures places <= Positions() && CellsAt(u, places) == cells
  {
    var places := set c: Cell | c in cells :: PositionOf(u, c);
    PlacesAre(u, cells, places);
    places
  }

  lemma PlacesAre(u: Unit, cells: set<Cell>, places: set<int>)
    requires (forall c: Cell :: c in cells ==> InUnit(c, u)) && places == set c: Cell | c in cells :: PositionOf(u, c)
    ensures places <= Positions() && CellsAt(u, places) == cells
  {
    hide InUnit, PositionOf, CellAt;
    forall c: Cell | c in cells ensures 0 <= PositionOf(u, c) < 9 { AtIs(u, c); }
    forall c: Cell | c in CellsAt(u, places) ensures c in cells {
      var k: Cell :| k in cells && PositionOf(u, k) == PositionOf(u, c);
      AtIs(u, c);
      AtIs(u, k);
    }
  }

  lemma NakedIs(m: State, u: Unit, places: set<int>)
    requires places <= Positions()
    ensures var cells := CellsAt(u, places);
      && |cells| == |places|
      && ((forall i: Position :: i in places ==> m.candidates[At(u, i)] != {}) <==> forall c: Cell :: c in cells ==>
        m.candidates[c] != {})
      && (forall d :: d in DigitsAt(m, u, places) <==> exists c: Cell :: c in cells && Pencilled(m, c, d))
      && forall c: Cell, e: Digit :: (c as int, e as int) in Gone(m, Step.NakedSubset(u, places), 0) <==>
           NakedClears(u, cells, DigitsAt(m, u, places), c, e)
  {
    hide InUnit, PositionOf, CellAt;
    CellsAtSize(u, places);
    forall c: Cell | InUnit(c, u) ensures 0 <= PositionOf(u, c) < 9 && At(u, PositionOf(u, c)) == c { AtIs(u, c); }
    forall i: Position ensures At(u, i) in CellsAt(u, places) <==> i in places { }
  }

  lemma NakedIsMade(m: State, step: Step, links: nat)
    requires Progresses(m, step, links) && step.NakedSubset? && Valid(m)
    ensures MakesSubset(m, Apply(m, step, links))
  {
    hide InUnit, PositionOf, CellAt, Rubs, Apply, DigitsAt;
    var u, places, after := step.unit, step.places, Apply(m, step, links);
    ClearingRubs(m, step, links);
    NakedIs(m, u, places);
    var cells, digits := CellsAt(u, places), DigitsAt(m, u, places);
    assert NakedSubsetAt(m, u, cells, digits);
    GoneIgnoresLinks(m, step, links);
    forall c: Cell, e ensures Pencilled(after, c, e) <==> Pencilled(m, c, e) && !NakedClears(u, cells, digits, c, e) {
      if Pencilled(m, c, e) { DigitOf(m, c, e); }
    }
    assert MakesNaked(m, after);
  }

  lemma DigitOf(m: State, c: Cell, e: int)
    requires Valid(m) && Pencilled(m, c, e)
    ensures IsDigit(e)
  {
  }

  lemma GoneIgnoresLinks(m: State, step: Step, links: nat)
    requires !step.Chain?
    ensures Gone(m, step, links) == Gone(m, step, 0)
  {
  }

  lemma NoNakedLeft(m: State, links: nat)
    requires Valid(m) && forall step: Step :: Level(step) == 3 ==> !Progresses(m, step, links)
    ensures NoNaked(m)
  {
    hide InUnit, PositionOf, CellAt, DigitsAt, Valid;
    forall u: Unit, cells: set<Cell>, digits: set<int>, c: Cell, e |
      NakedSubsetAt(m, u, cells, digits) && NakedClears(u, cells, digits, c, e)
      ensures !Pencilled(m, c, e)
    {
      if Pencilled(m, c, e) {
        var places := PlacesOf(u, cells);
        var step := Step.NakedSubset(u, places);
        NakedIs(m, u, places);
        assert DigitsAt(m, u, places) == digits;
        DigitOf(m, c, e);
        GoneIgnoresLinks(m, step, links);
        MarkProgresses(m, step, links, c, e);
      }
    }
  }

  lemma HiddenCells(m: State, u: Unit, digits: set<int>, c: Cell)
    ensures c in CellsAt(u, PositionsOf(m, u, digits)) <==>
      InUnit(c, u) && exists d :: d in digits && Pencilled(m, c, d)
  {
    hide InUnit, PositionOf, CellAt;
    if InUnit(c, u) { AtIs(u, c); }
  }

  lemma HiddenSizes(m: State, u: Unit, digits: set<int>)
    ensures |CellsAt(u, PositionsOf(m, u, digits))| == |PositionsOf(m, u, digits)|
  {
    CellsAtSize(u, PositionsOf(m, u, digits));
  }

  lemma HiddenApplies(m: State, u: Unit, digits: set<int>)
    requires Applies(m, Step.HiddenSubset(u, digits))
    ensures HiddenSubsetAt(m, u, CellsAt(u, PositionsOf(m, u, digits)), digits)
  {
    hide InUnit, PositionOf, CellAt, PositionsOf, Spots, CellsAt;
    HiddenSizes(m, u, digits);
    forall c: Cell { HiddenCells(m, u, digits, c); }
    forall d | d in digits ensures IsDigit(d) && exists c: Cell :: InUnit(c, u) && Pencilled(m, c, d) {
      assert d in Digits();
      LockedIs(m, u, u, d);
    }
  }

  lemma HiddenDigit(m: State, u: Unit, cells: set<Cell>, digits: set<int>, d: int)
    requires HiddenSubsetAt(m, u, cells, digits) && d in digits
    ensures d in Digits() && Spots(m, u, d) != {}
  {
    hide InUnit, Spots, PositionOf;
    var c: Cell :| InUnit(c, u) && Pencilled(m, c, d);
    SpotsAre(m, u, d, c);
  }

  lemma HiddenSame(m: State, u: Unit, cells: set<Cell>, digits: set<int>)
    requires HiddenSubsetAt(m, u, cells, digits)
    ensures cells == CellsAt(u, PositionsOf(m, u, digits)) && TwoToFour(|digits|) && |cells| == |digits|
  {
    hide InUnit, PositionsOf, CellsAt, Pencilled;
    forall c: Cell ensures c in cells <==> c in CellsAt(u, PositionsOf(m, u, digits)) { HiddenCells(m, u, digits, c); }
  }

  lemma HiddenFound(m: State, u: Unit, cells: set<Cell>, digits: set<int>)
    requires HiddenSubsetAt(m, u, cells, digits)
    ensures Applies(m, Step.HiddenSubset(u, digits)) && cells == CellsAt(u, PositionsOf(m, u, digits))
  {
    hide HiddenSubsetAt, PositionsOf, Spots, CellsAt, Digits;
    HiddenSizes(m, u, digits);
    HiddenSame(m, u, cells, digits);
    forall d | d in digits ensures d in Digits() && Spots(m, u, d) != {} { HiddenDigit(m, u, cells, digits, d); }
  }

  lemma HiddenGone(m: State, u: Unit, digits: set<int>, c: Cell, e: Digit)
    ensures (c as int, e as int) in Gone(m, Step.HiddenSubset(u, digits), 0) <==>
      HiddenClears(CellsAt(u, PositionsOf(m, u, digits)), digits, c, e)
  {
    hide InUnit, PositionOf, CellAt, PositionsOf;
    if InUnit(c, u) { AtIs(u, c); }
  }

  lemma HiddenIsMade(m: State, step: Step, links: nat)
    requires Progresses(m, step, links) && step.HiddenSubset? && Valid(m)
    ensures MakesSubset(m, Apply(m, step, links))
  {
    hide Rubs, Apply, PositionsOf, Gone, HiddenClears, Valid, HiddenSubsetAt, CellsAt, Applies;
    var u, digits, after := step.unit, step.digits, Apply(m, step, links);
    ClearingRubs(m, step, links);
    HiddenApplies(m, u, digits);
    var cells := CellsAt(u, PositionsOf(m, u, digits));
    GoneIgnoresLinks(m, step, links);
    forall c: Cell, e ensures Pencilled(after, c, e) <==> Pencilled(m, c, e) && !HiddenClears(cells, digits, c, e) {
      if Pencilled(m, c, e) {
        DigitOf(m, c, e);
        HiddenGone(m, u, digits, c, e);
      }
    }
    assert MakesHidden(m, after);
  }

  lemma NoHiddenLeft(m: State, links: nat)
    requires Valid(m) && forall step: Step :: Level(step) == 3 ==> !Progresses(m, step, links)
    ensures NoHidden(m)
  {
    hide PositionsOf, Gone, HiddenClears, Valid, HiddenSubsetAt, CellsAt, Applies, Progresses;
    forall u: Unit, cells: set<Cell>, digits: set<int>, c: Cell, e |
      HiddenSubsetAt(m, u, cells, digits) && HiddenClears(cells, digits, c, e)
      ensures !Pencilled(m, c, e)
    {
      if Pencilled(m, c, e) {
        var step := Step.HiddenSubset(u, digits);
        HiddenFound(m, u, cells, digits);
        DigitOf(m, c, e);
        HiddenGone(m, u, digits, c, e);
        GoneIgnoresLinks(m, step, links);
        MarkProgresses(m, step, links, c, e);
      }
    }
  }

  // Fish.

  lemma LineIs(rows: bool, l: Position, i: Position)
    ensures LineOf(rows, At(Line(rows, l), i)) == l && LineOf(!rows, At(Line(rows, l), i)) == i
  {
    AtCellAt(Line(rows, l), i);
  }

  lemma OnLine(rows: bool, c: Cell)
    ensures At(Line(rows, LineOf(rows, c)), LineOf(!rows, c)) == c
  {
    AtCellAt(Line(rows, LineOf(rows, c)), LineOf(!rows, c));
  }

  ghost function Places(s: set<int>): (r: set<Position>)
    requires s <= Positions()
    ensures forall i: Position :: i in r <==> i in s
  {
    set i: Position | i in s
  }

  lemma {:induction false} PlacesSize(s: set<int>)
    requires s <= Positions()
    ensures |Places(s)| == |s|
  {
    if s == {} {
      assert Places(s) == {};
    } else {
      var i := Member(s);
      PlacesSize(s - {i});
      assert Places(s) == Places(s - {i}) + {i};
    }
  }

  lemma CoverInRange(m: State, d: Digit, rows: bool, lines: set<int>)
    ensures Cover(m, d, rows, lines) <= Positions()
  {
  }

  /** The positions a line's spots take. */
  lemma LineSpots(m: State, d: Digit, rows: bool, l: Position)
    ensures forall i: Position :: i in Spots(m, Line(rows, l), d) <==>
      exists c: Cell :: LineOf(rows, c) == l && LineOf(!rows, c) == i && Pencilled(m, c, d)
    ensures Spots(m, Line(rows, l), d) != {} <==> exists c: Cell :: LineOf(rows, c) == l && Pencilled(m, c, d)
  {
    hide InUnit, PositionOf, CellAt, Line, LineOf, At;
    forall i: Position ensures i in Spots(m, Line(rows, l), d) <==>
      exists c: Cell :: LineOf(rows, c) == l && LineOf(!rows, c) == i && Pencilled(m, c, d)
    {
      LineIs(rows, l, i);
      forall c: Cell | LineOf(rows, c) == l && LineOf(!rows, c) == i
        ensures c == At(Line(rows, l), i) { OnLine(rows, c); }
    }
    if Spots(m, Line(rows, l), d) != {} {
      var i: Position := Member(Spots(m, Line(rows, l), d));
      assert i in Spots(m, Line(rows, l), d);
    }
    forall c: Cell | LineOf(rows, c) == l && Pencilled(m, c, d)
      ensures LineOf(!rows, c) in Spots(m, Line(rows, l), d) { }
  }

  lemma CoverHas(m: State, d: Digit, rows: bool, lines: set<int>, x: Position)
    requires lines <= Positions()
    ensures x in Cover(m, d, rows, lines) <==>
      exists c: Cell :: LineOf(rows, c) in Places(lines) && LineOf(!rows, c) == x && Pencilled(m, c, d)
  {
    hide Line, LineOf, At, Spots;
    forall l: Position { LineSpots(m, d, rows, l); }
    if x in Cover(m, d, rows, lines) {
      var l: Position :| l in lines && x in Spots(m, Line(rows, l), d);
      var c: Cell :| LineOf(rows, c) == l && LineOf(!rows, c) == x && Pencilled(m, c, d);
      assert LineOf(rows, c) in Places(lines);
    }
    forall c: Cell | LineOf(rows, c) in Places(lines) && LineOf(!rows, c) == x && Pencilled(m, c, d)
      ensures x in Cover(m, d, rows, lines)
    {
      var l := LineOf(rows, c);
      assert l as int in lines && x in Spots(m, Line(rows, l), d);
    }
  }

  lemma FishIs(m: State, d: Digit, rows: bool, lines: set<int>)
    requires lines <= Positions()
    ensures Cover(m, d, rows, lines) <= Positions()
    ensures var ls, cs := Places(lines), Places(Cover(m, d, rows, lines));
      && |ls| == |lines| && |cs| == |Cover(m, d, rows, lines)|
      && (forall l: Position :: Spots(m, Line(rows, l), d) != {} <==>
        exists c: Cell :: LineOf(rows, c) == l && Pencilled(m, c, d))
      && forall x: Position :: x in cs <==>
            exists c: Cell :: LineOf(rows, c) in ls && LineOf(!rows, c) == x && Pencilled(m, c, d)
  {
    hide InUnit, PositionOf, CellAt, Line, LineOf, At, Spots;
    PlacesSize(lines);
    CoverInRange(m, d, rows, lines);
    PlacesSize(Cover(m, d, rows, lines));
    forall l: Position { LineSpots(m, d, rows, l); }
    forall x: Position ensures x in Cover(m, d, rows, lines) <==>
      exists c: Cell :: LineOf(rows, c) in Places(lines) && LineOf(!rows, c) == x && Pencilled(m, c, d)
    {
      CoverHas(m, d, rows, lines, x);
    }
  }

  lemma FishGone(m: State, d: Digit, rows: bool, lines: set<int>, c: Cell, e: int)
    requires lines <= Positions() && Cover(m, d, rows, lines) <= Positions()
    ensures (c as int, e) in Gone(m, Step.Fish(d, rows, lines), 0) <==>
      FishClears(d, rows, Places(lines), Places(Cover(m, d, rows, lines)), c, e)
  {
    hide InUnit, PositionOf, CellAt, Line, LineOf, At, Cover;
    var l, i := LineOf(rows, c), LineOf(!rows, c);
    OnLine(rows, c);
    forall k: Position, j: Position | At(Line(rows, k), j) == c ensures k == l && j == i { LineIs(rows, k, j); }
  }

  lemma FishIsMade(m: State, step: Step, links: nat)
    requires Progresses(m, step, links) && step.Fish? && Valid(m)
    ensures MakesFishOrWing(m, Apply(m, step, links))
  {
    hide LineOf, Rubs, Apply, Cover, Spots, Gone, FishClears, Valid, Places;
    var d, rows, lines, after := step.digit, step.byRows, step.lines, Apply(m, step, links);
    ClearingRubs(m, step, links);
    FishIs(m, d, rows, lines);
    var ls, cs := Places(lines), Places(Cover(m, d, rows, lines));
    assert FishAt(m, d, rows, ls, cs);
    GoneIgnoresLinks(m, step, links);
    forall c: Cell, e ensures Pencilled(after, c, e) <==> Pencilled(m, c, e) && !FishClears(d, rows, ls, cs, c, e) {
      FishGone(m, d, rows, lines, c, e);
    }
    assert MakesFish(m, after);
  }

  ghost function Numbers(s: set<Position>): (r: set<int>)
    ensures r <= Positions() && Places(r) == s
  {
    set i | i in s :: i as int
  }

  lemma NoFishLeft(m: State, links: nat)
    requires Valid(m) && forall step: Step :: Level(step) == 4 ==> !Progresses(m, step, links)
    ensures NoFish(m)
  {
    hide LineOf, Cover, Spots, Valid, Gone, Progresses;
    forall d: Digit, rows: bool, lines: set<Position>, crosses: set<Position>, c: Cell, e |
      FishAt(m, d, rows, lines, crosses) && FishClears(d, rows, lines, crosses, c, e)
      ensures !Pencilled(m, c, e)
    {
      if Pencilled(m, c, e) {
        var numbers := Numbers(lines);
        var step := Step.Fish(d, rows, numbers);
        FishIs(m, d, rows, numbers);
        assert Places(Cover(m, d, rows, numbers)) == crosses;
        FishGone(m, d, rows, numbers, c, e);
        GoneIgnoresLinks(m, step, links);
        MarkProgresses(m, step, links, c, e);
      }
    }
  }

  // Wings.

  lemma TwoOf(s: set<int>, x: int) returns (y: int)
    requires |s| == 2 && x in s
    ensures y != x && s == {x, y}
  {
    y := Member(s - {x});
    assert {x, y} <= s;
    EqualBySize({x, y}, s);
  }

  lemma XyWingIsMade(m: State, step: Step, links: nat)
    requires Progresses(m, step, links) && step.XyWing? && Valid(m)
    ensures MakesFishOrWing(m, Apply(m, step, links))
  {
    hide Sees, Rubs, Apply, Valid, Gone;
    var p, a, b, after := step.pivot, step.a, step.b, Apply(m, step, links);
    ClearingRubs(m, step, links);
    var pair, first := m.candidates[p], m.candidates[a];
    var x := Member(first * pair);
    EqualBySize({x}, first * pair);
    var y := TwoOf(pair, x);
    var z := TwoOf(first, x);
    assert y !in first && z !in pair;
    DigitOf(m, p, x);
    DigitOf(m, p, y);
    DigitOf(m, a, z);
    assert XyWingAt(m, p, a, b, x, y, z);
    forall c: Cell, e ensures Pencilled(after, c, e) <==> Pencilled(m, c, e) && !XyWingClears(a, b, z, c, e) {
      XyWingGone(m, step, links, z, c, e);
    }
    assert MakesXyWing(m, after);
  }

  lemma XyWingGone(m: State, step: Step, links: nat, z: Digit, c: Cell, e: int)
    requires step.XyWing? && m.candidates[step.a] - m.candidates[step.pivot] == {z as int}
    ensures (c as int, e) in Gone(m, step, links) <==> XyWingClears(step.a, step.b, z, c, e)
  {
    hide Sees;
    SeesEitherWay(c, step.b);
  }

  lemma SeesEitherWay(a: Cell, b: Cell)
    ensures Sees(a, b) <==> Sees(b, a)
  {
  }

  lemma NoXyWingLeft(m: State, links: nat)
    requires Valid(m) && forall step: Step :: Level(step) == 4 ==> !Progresses(m, step, links)
    ensures NoXyWing(m)
  {
    hide Sees, Valid, Gone, Progresses;
    forall p: Cell, a: Cell, b: Cell, x: Digit, y: Digit, z: Digit, c: Cell, e |
      XyWingAt(m, p, a, b, x, y, z) && XyWingClears(a, b, z, c, e)
      ensures !Pencilled(m, c, e)
    {
      if Pencilled(m, c, e) {
        var step := Step.XyWing(p, a, b);
        var pair, first := m.candidates[p], m.candidates[a];
        assert first * pair == {x as int} && pair - first == {y as int} && first - pair == {z as int};
        assert a != b by { assert x as int in m.candidates[a] && x as int !in m.candidates[b]; }
        XyWingGone(m, step, links, z, c, e);
        MarkProgresses(m, step, links, c, e);
      }
    }
  }

  lemma XyzWingIsMade(m: State, step: Step, links: nat)
    requires Progresses(m, step, links) && step.XyzWing? && Valid(m)
    ensures MakesFishOrWing(m, Apply(m, step, links))
  {
    hide Sees, Rubs, Apply, Valid, Gone;
    var p, a, b, after := step.pivot, step.a, step.b, Apply(m, step, links);
    ClearingRubs(m, step, links);
    var triple, first, second := m.candidates[p], m.candidates[a], m.candidates[b];
    assert |first * second| == 1 by { assert first + second == first + (second - first); assert second ==
      second * first + (second - first); assert first * second == second * first; }
    var z := Member(first * second);
    EqualBySize({z}, first * second);
    var x := TwoOf(first, z);
    var y := TwoOf(second, z);
    DigitOf(m, a, x);
    DigitOf(m, b, y);
    DigitOf(m, a, z);
    assert XyzWingAt(m, p, a, b, x, y, z);
    forall c: Cell, e ensures Pencilled(after, c, e) <==> Pencilled(m, c, e) && !XyzWingClears(p, a, b, z, c, e) {
      XyzWingGone(m, step, links, z, c, e);
    }
    assert MakesXyzWing(m, after);
  }

  lemma XyzWingGone(m: State, step: Step, links: nat, z: Digit, c: Cell, e: int)
    requires step.XyzWing? && m.candidates[step.a] * m.candidates[step.b] == {z as int}
    ensures (c as int, e) in Gone(m, step, links) <==> XyzWingClears(step.pivot, step.a, step.b, z, c, e)
  {
    hide Sees;
    SeesEitherWay(c, step.a);
    SeesEitherWay(c, step.b);
  }

  lemma NoXyzWingLeft(m: State, links: nat)
    requires Valid(m) && forall step: Step :: Level(step) == 4 ==> !Progresses(m, step, links)
    ensures NoXyzWing(m)
  {
    hide Sees, Valid, Gone, Progresses;
    forall p: Cell, a: Cell, b: Cell, x: Digit, y: Digit, z: Digit, c: Cell, e |
      XyzWingAt(m, p, a, b, x, y, z) && XyzWingClears(p, a, b, z, c, e)
      ensures !Pencilled(m, c, e)
    {
      if Pencilled(m, c, e) {
        var step := Step.XyzWing(p, a, b);
        var first, second := m.candidates[a], m.candidates[b];
        assert first * second == {z as int};
        assert first + second == m.candidates[p];
        assert a != b && first != second by { assert x as int in first && x as int !in second; }
        XyzWingGone(m, step, links, z, c, e);
        MarkProgresses(m, step, links, c, e);
      }
    }
  }

  // Chains.

  lemma LinkForces(m: State, x: Claim, y: Claim)
    requires Pencilled(m, x.cell, x.digit)
    ensures Link(m, x, y) <==> Forces(m, x, y)
  {
    hide Sees, InUnit, Spots;
    SeesNotItself(x.cell);
    if !x.on && y.digit == x.digit && y.cell != x.cell && Pencilled(m, y.cell, y.digit) {
      forall u: Unit | InUnit(x.cell, u) && InUnit(y.cell, u)
        ensures |Spots(m, u, x.digit)| == 2 <==> OnlyPlaces(m, u, x.digit, x.cell, y.cell)
      {
        TwoPlaces(m, u, x.digit, x.cell, y.cell);
      }
    }
    if !x.on && y.cell == x.cell && y.digit != x.digit && Pencilled(m, y.cell, y.digit) {
      var s := m.candidates[x.cell];
      var two := {x.digit as int, y.digit as int};
      assert |two| == 2;
      if |s| == 2 { EqualBySize(two, s); }
    }
  }

  lemma SeesNotItself(c: Cell)
    ensures !Sees(c, c)
  {
  }

  lemma TwoPlaces(m: State, u: Unit, d: Digit, a: Cell, b: Cell)
    requires InUnit(a, u) && InUnit(b, u) && a != b && Pencilled(m, a, d) && Pencilled(m, b, d)
    ensures |Spots(m, u, d)| == 2 <==> OnlyPlaces(m, u, d, a, b)
  {
    hide InUnit, PositionOf, CellAt;
    AtIs(u, a);
    AtIs(u, b);
    var i, j, spots := PositionOf(u, a), PositionOf(u, b), Spots(m, u, d);
    SpotsAre(m, u, d, a);
    SpotsAre(m, u, d, b);
    if |spots| == 2 {
      EqualBySize({i, j}, spots);
      forall k: Cell | InUnit(k, u) && Pencilled(m, k, d) ensures k == a || k == b { SpotsAre(m, u, d, k); AtIs(u, k); }
    }
    if OnlyPlaces(m, u, d, a, b) {
      forall k | k in spots ensures k == i || k == j { assert Pencilled(m, At(u, k), d) && InUnit(At(u, k), u); }
      assert spots == {i, j};
    }
  }

  lemma {:induction false} ReachPencilled(m: State, c: Cell, d: Digit, links: nat, y: Claim)
    requires Pencilled(m, c, d) && y in Reach(m, c, d, links)
    ensures Pencilled(m, y.cell, y.digit)
  {
    hide Sees, InUnit, Spots;
    if links > 0 && y !in Reach(m, c, d, links - 1) { var x :| x in Reach(m, c, d, links - 1) && Link(m, x, y); }
    else if links > 0 { ReachPencilled(m, c, d, links - 1, y); }
  }

  lemma {:induction false} ReachHasChain(m: State, c: Cell, d: Digit, links: nat, y: Claim)
    requires Pencilled(m, c, d) && y in Reach(m, c, d, links)
    ensures ChainTo(m, c, d, y, links)
  {
    hide Link, Forces, ChainTo;
    if links == 0 {
      ShortChain(m, c, d, y);
    } else if y in Reach(m, c, d, links - 1) {
      ReachHasChain(m, c, d, links - 1, y);
      ChainStays(m, c, d, links - 1, y);
    } else {
      var x :| x in Reach(m, c, d, links - 1) && Link(m, x, y);
      ReachHasChain(m, c, d, links - 1, x);
      ReachPencilled(m, c, d, links - 1, x);
      LinkForces(m, x, y);
      ChainExtends(m, c, d, links - 1, x, y);
    }
  }

  lemma {:induction false} ChainReaches(m: State, c: Cell, d: Digit, claims: seq<Claim>, links: nat)
    requires Leads(m, c, d, claims, links)
    ensures claims[|claims| - 1] in Reach(m, c, d, links)
    decreases links
  {
    hide Link, Forces;
    var n := |claims| - 1;
    if links > 0 {
      if n == 0 {
        ChainReaches(m, c, d, claims, links - 1);
      } else {
        ChainReaches(m, c, d, claims[..n], links - 1);
        var x, y := claims[n - 1], claims[n];
        assert claims[..n][n - 1] == x;
        ReachPencilled(m, c, d, links - 1, x);
        LinkForces(m, x, y);
        ReachGrows(m, c, d, links, x, y);
      }
    }
  }

  /** What is within some number of links is what chains of so many lead to. */
  lemma ReachIsChains(m: State, c: Cell, d: Digit, links: nat, y: Claim)
    requires Pencilled(m, c, d)
    ensures y in Reach(m, c, d, links) <==> ChainTo(m, c, d, y, links)
  {
    hide Reach, Forces;
    if y in Reach(m, c, d, links) { ReachHasChain(m, c, d, links, y); }
    if ChainTo(m, c, d, y, links) {
      var claims :| Leads(m, c, d, claims, links) && claims[|claims| - 1] == y;
      ChainReaches(m, c, d, claims, links);
    }
  }

  lemma ShortChain(m: State, c: Cell, d: Digit, y: Claim)
    requires Pencilled(m, c, d)
    ensures y == Claim(c, d, false) <==> ChainTo(m, c, d, y, 0)
  {
    hide Forces;
    assert Leads(m, c, d, [Claim(c, d, false)], 0);
  }

  lemma ChainExtends(m: State, c: Cell, d: Digit, links: nat, x: Claim, y: Claim)
    requires ChainTo(m, c, d, x, links) && Forces(m, x, y)
    ensures ChainTo(m, c, d, y, links + 1)
  {
    hide Forces;
    var claims :| Leads(m, c, d, claims, links) && claims[|claims| - 1] == x;
    var longer := claims + [y];
    assert Leads(m, c, d, longer, links + 1) && longer[|longer| - 1] == y;
  }

  lemma ChainStays(m: State, c: Cell, d: Digit, links: nat, y: Claim)
    requires ChainTo(m, c, d, y, links)
    ensures ChainTo(m, c, d, y, links + 1)
  {
    hide Forces;
    var claims :| Leads(m, c, d, claims, links) && claims[|claims| - 1] == y;
    assert Leads(m, c, d, claims, links + 1);
  }

  lemma ReachGrows(m: State, c: Cell, d: Digit, links: nat, x: Claim, y: Claim)
    requires links > 0 && x in Reach(m, c, d, links - 1) && Link(m, x, y)
    ensures y in Reach(m, c, d, links)
  {
    hide Link;
    var near := Reach(m, c, d, links - 1);
    assert Forced(m, near, Claim(y.cell, y.digit, y.on));
  }

  lemma ChainGone(m: State, c: Cell, d: Digit, links: nat, k: Cell, e: int)
    requires Pencilled(m, c, d)
    ensures (k as int, e) in Gone(m, Step.Chain(c, d), links) <==> ChainClears(m, c, d, links, k, e)
  {
    hide Sees, Reach, ChainTo;
    if IsDigit(e) { ReachIsChains(m, c, d, links, Claim(k, e, false)); }
    SeesEitherWay(c, k);
  }

  lemma ChainIsMade(m: State, step: Step, links: nat)
    requires Progresses(m, step, links) && step.Chain?
    ensures MakesChain(m, Apply(m, step, links), links)
  {
    hide Rubs, Writes, Gone, ChainClears, Reach, ChainTo;
    var c, d := step.cell, step.digit;
    ReachIsChains(m, c, d, links, Claim(c, d, true));
    if ProvenAt(m, c, d, links) {
      PlaceWrites(m, c, d);
    } else {
      ClearingRubs(m, step, links);
      forall k: Cell, e { ChainGone(m, c, d, links, k, e); }
    }
    assert MakesChainFrom(m, c, d, Apply(m, step, links), links);
  }

  lemma NoChainLeft(m: State, links: nat)
    requires forall step: Step :: Level(step) == 5 ==> !Progresses(m, step, links)
    ensures NoChain(m, links)
  {
    hide Gone, ChainClears, Reach, ChainTo, Progresses;
    forall c: Cell, d: Digit | Pencilled(m, c, d)
      ensures !ProvenAt(m, c, d, links) && forall k: Cell, e :: ChainClears(m, c, d, links, k, e) ==>
        !Pencilled(m, k, e)
    {
      var step := Step.Chain(c, d);
      ReachIsChains(m, c, d, links, Claim(c, d, true));
      if Proves(m, c, d, links) { WritingProgresses(m, step, links); }
      forall k: Cell, e | ChainClears(m, c, d, links, k, e) ensures !Pencilled(m, k, e) {
        ChainGone(m, c, d, links, k, e);
        if Pencilled(m, k, e) { MarkProgresses(m, step, links, k, e); }
      }
    }
  }

  // All of them.

  /** A step of the solver is a use of a technique of its level. */
  lemma StepMakes(m: State, step: Step, links: nat)
    requires Valid(m) && Progresses(m, step, links)
    ensures Makes(m, Apply(m, step, links), Level(step), links)
  {
    hide Apply, Progresses, MakesSingle, MakesLocked, MakesSubset, MakesFishOrWing, MakesChain, Valid;
    match step
    case NakedSingle(_, _) => SingleIsMade(m, step, links);
    case HiddenSingle(_, _, _) => SingleIsMade(m, step, links);
    case Locked(_, _, _) => LockedIsMade(m, step, links);
    case NakedSubset(_, _) => NakedIsMade(m, step, links);
    case HiddenSubset(_, _) => HiddenIsMade(m, step, links);
    case Fish(_, _, _) => FishIsMade(m, step, links);
    case XyWing(_, _, _) => XyWingIsMade(m, step, links);
    case XyzWing(_, _, _) => XyzWingIsMade(m, step, links);
    case Chain(_, _) => ChainIsMade(m, step, links);
  }

  /** Where no step up to a level progresses, no technique up to it has anything to do. */
  lemma NothingLeft(m: State, level: int, links: nat)
    requires Valid(m) && forall step: Step :: Level(step) <= level ==> !Progresses(m, step, links)
    ensures Exhausted(m, level, links)
  {
    hide Progresses, NoSingle, NoLocked, NoNaked, NoHidden, NoFish, NoXyWing, NoXyzWing, NoChain, Valid;
    if level >= 1 { NoSingleLeft(m, links); }
    if level >= 2 { NoLockedLeft(m, links); }
    if level >= 3 {
      NoNakedLeft(m, links);
      NoHiddenLeft(m, links);
    }
    if level >= 4 {
      NoFishLeft(m, links);
      NoXyWingLeft(m, links);
      NoXyzWingLeft(m, links);
    }
    if level >= 5 { NoChainLeft(m, links); }
  }

  lemma CourseGrows(states: seq<State>, levels: seq<int>, links: nat, after: State, level: int)
    requires Course(states, levels, links) && OneMove(states[|levels|], after, level, links)
    ensures Course(states + [after], levels + [level], links)
  {
    hide OneMove;
    var ss, ls := states + [after], levels + [level];
    forall i | 0 <= i < |ls| ensures OneMove(ss[i], ss[i + 1], ls[i], links) {
      if i < |levels| { assert ss[i] == states[i] && ss[i + 1] == states[i + 1]; }
    }
  }

  lemma MovesGrow(levels: seq<int>, level: int, from: int)
    ensures |MovesFrom(levels + [level], from)| == |MovesFrom(levels, from)| + if level >= from then 1 else 0
  {
    var n: nat := |levels|;
    assert MovesFrom(levels + [level], from) == MovesFrom(levels, from) + if level >= from then {n} else {};
  }

  lemma HardestGrows(levels: seq<int>, hardest: int, level: int)
    requires Hardest(levels, hardest) && level >= 1
    ensures Hardest(levels + [level], Max(hardest, level))
  {
    var ls := levels + [level];
    if hardest > level {
      var i :| 0 <= i < |levels| && levels[i] == hardest;
      assert ls[i] == hardest;
    } else {
      assert ls[|levels|] == level;
    }
  }
}
