/** The eight deduction rules as patterns over a pencil-mark state. */
module Deductions {
  import opened Cells
  import opened Solutions
  import opened Marks

  datatype Step =
    | NakedSingle(cell: Cell, digit: Digit)
    | HiddenSingle(unit: Unit, cell: Cell, digit: Digit)
    | Locked(unit: Unit, digit: Digit, target: Unit)
    | NakedSubset(unit: Unit, places: set<int>)
    | HiddenSubset(unit: Unit, digits: set<int>)
    | Fish(digit: Digit, byRows: bool, lines: set<int>)
    | XyWing(pivot: Cell, a: Cell, b: Cell)
    | XyzWing(pivot: Cell, a: Cell, b: Cell)
    | Chain(cell: Cell, digit: Digit)

  function Level(step: Step): int {
    match step
    case NakedSingle(_, _) | HiddenSingle(_, _, _) => 1
    case Locked(_, _, _) => 2
    case NakedSubset(_, _) | HiddenSubset(_, _) => 3
    case Fish(_, _, _) | XyWing(_, _, _) | XyzWing(_, _, _) => 4
    case Chain(_, _) => 5
  }

  /** The places of a unit where a digit is still a candidate. */
  function Spots(m: State, u: Unit, d: int): set<int> {
    set i: Position | d in m.candidates[At(u, i)]
  }

  /** The candidates at some places of a unit. */
  function DigitsAt(m: State, u: Unit, places: set<int>): set<int> {
    set i: Position, d | i in places && d in m.candidates[At(u, i)] :: d
  }

  /** The places of a unit where some of the digits are candidates. */
  function PositionsOf(m: State, u: Unit, digits: set<int>): set<int> {
    set i: Position, d | d in digits && d in m.candidates[At(u, i)] :: i
  }

  predicate Confined(m: State, u: Unit, d: int, t: Unit) {
    forall i: Position :: i in Spots(m, u, d) ==> InUnit(At(u, i), t)
  }

  /** The rows or columns a fish lives on. */
  function Line(byRows: bool, l: Position): Unit { if byRows then l else 9 + l }

  function Cover(m: State, d: int, byRows: bool, lines: set<int>): set<int> {
    set l: Position, i: Position | l in lines && i in Spots(m, Line(byRows, l), d) :: i
  }

  /** A strong or weak link: what one claim forces directly. */
  predicate Link(m: State, x: Claim, y: Claim) {
    && y.on != x.on
    && y.digit in m.candidates[y.cell]
    && if !x.on then
         || (y.cell == x.cell && y.digit != x.digit && |m.candidates[x.cell]| == 2)
         || (y.digit == x.digit && y.cell != x.cell && exists u: Unit ::
               InUnit(x.cell, u) && InUnit(y.cell, u) && |Spots(m, u, x.digit)| == 2)
       else
         || (y.cell == x.cell && y.digit != x.digit)
         || (y.digit == x.digit && Sees(x.cell, y.cell))
  }

  /** Every claim within some number of links of assuming the start false. */
  ghost function Reach(m: State, cell: Cell, digit: Digit, links: nat): set<Claim> {
    if links == 0 then {Claim(cell, digit, false)}
    else
      var near := Reach(m, cell, digit, links - 1);
      near + set c: Cell, d: Digit, on: bool | Forced(m, near, Claim(c, d, on)) :: Claim(c, d, on)
  }

  ghost predicate Forced(m: State, near: set<Claim>, y: Claim) {
    exists x :: x in near && Link(m, x, y)
  }

  ghost predicate Proves(m: State, cell: Cell, digit: Digit, links: nat) {
    Claim(cell, digit, true) in Reach(m, cell, digit, links)
  }

  predicate Linked(c: Cell, d: Digit, cell: Cell, digit: Digit) {
    if c == cell then d != digit else d == digit && Sees(c, cell)
  }

  ghost predicate Applies(m: State, step: Step) {
    match step
    case NakedSingle(cell, digit) => m.candidates[cell] == {digit}
    case HiddenSingle(unit, cell, digit) =>
      InUnit(cell, unit) && Spots(m, unit, digit) == {PositionOf(unit, cell)}
    case Locked(unit, digit, target) =>
      && Spots(m, unit, digit) != {}
      && Confined(m, unit, digit, target)
      && if unit < 18 then target >= 18
         else target < 9 || (target < 18 && forall r: Position :: !Confined(m, unit, digit, r))
    case NakedSubset(unit, places) =>
      && places <= Positions() && 2 <= |places| <= 4
      && (forall i: Position :: i in places ==> m.candidates[At(unit, i)] != {})
      && |DigitsAt(m, unit, places)| == |places|
    case HiddenSubset(unit, digits) =>
      && digits <= Digits() && 2 <= |digits| <= 4
      && (forall d :: d in digits ==> Spots(m, unit, d) != {})
      && |PositionsOf(m, unit, digits)| == |digits|
    case Fish(digit, byRows, lines) =>
      && lines <= Positions() && 2 <= |lines| <= 4
      && (forall l: Position :: l in lines ==> Spots(m, Line(byRows, l), digit) != {})
      && |Cover(m, digit, byRows, lines)| == |lines|
    case XyWing(pivot, a, b) =>
      var pair, first := m.candidates[pivot], m.candidates[a];
      && Sees(pivot, a) && Sees(pivot, b) && a != b
      && |pair| == 2 && |first| == 2 && |first * pair| == 1
      && m.candidates[b] == (pair - first) + (first - pair)
    case XyzWing(pivot, a, b) =>
      var triple, first, second := m.candidates[pivot], m.candidates[a], m.candidates[b];
      && Sees(pivot, a) && Sees(pivot, b) && a != b
      && |triple| == 3 && |first| == 2 && |second| == 2
      && first != second && first + second == triple
    case Chain(cell, digit) => digit in m.candidates[cell]
  }

  /** The marks an eliminating step clears. */
  ghost function Gone(m: State, step: Step, links: nat): set<Mark> {
    match step
    case NakedSingle(_, _) => {}
    case HiddenSingle(_, _, _) => {}
    case Locked(unit, digit, target) =>
      set c: Cell | InUnit(c, target) && !InUnit(c, unit) :: (c, digit)
    case NakedSubset(unit, places) =>
      set i: Position, d: Digit | i !in places && d in DigitsAt(m, unit, places) :: (At(unit, i), d)
    case HiddenSubset(unit, digits) =>
      set i: Position, d: Digit | i in PositionsOf(m, unit, digits) && d !in digits :: (At(unit, i), d)
    case Fish(digit, byRows, lines) =>
      set l: Position, i: Position | l !in lines &&
        i in Cover(m, digit, byRows, lines) :: (At(Line(byRows, l), i), digit)
    case XyWing(pivot, a, b) =>
      set c: Cell, d: Digit | Sees(a, c) && Sees(c, b) && d in m.candidates[a] - m.candidates[pivot] :: (c, d)
    case XyzWing(pivot, a, b) =>
      set c: Cell, d: Digit | Sees(pivot, c) && Sees(c, a) && Sees(c, b) &&
        d in m.candidates[a] * m.candidates[b] :: (c, d)
    case Chain(cell, digit) =>
      set c: Cell, d: Digit | Claim(c, d, false) in Reach(m, cell, digit, links) && Linked(c, d, cell, digit) :: (c, d)
  }

  /** The digit a step places, if it places one. */
  ghost predicate Placing(m: State, step: Step, links: nat) {
    step.NakedSingle? || step.HiddenSingle? || (step.Chain? && Proves(m, step.cell, step.digit, links))
  }

  ghost function Apply(m: State, step: Step, links: nat): State {
    if Placing(m, step, links) then Place(m, step.cell, step.digit)
    else Without(m, Gone(m, step, links))
  }

  /** The pattern is there and applying it changes the marks. */
  ghost predicate Progresses(m: State, step: Step, links: nat) {
    Applies(m, step) && Apply(m, step, links) != m
  }
}
