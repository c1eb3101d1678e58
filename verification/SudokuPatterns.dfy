/** The human techniques as patterns of cells, digits and units, apart from how a solver looks for them. */
module Patterns {
  import opened Basics
  import opened Cells
  import opened Solutions
  import opened Marks

  predicate Pencilled(m: State, c: Cell, d: int) { d in m.candidates[c] }

  // Level 1: a digit is written.

  /** A cell with one candidate. */
  ghost predicate NakedSingleAt(m: State, c: Cell, d: Digit) {
    Pencilled(m, c, d) && forall e :: Pencilled(m, c, e) ==> e == d
  }

  /** A digit with one place in a unit. */
  ghost predicate HiddenSingleAt(m: State, u: Unit, c: Cell, d: Digit) {
    InUnit(c, u) && Pencilled(m, c, d) && forall k: Cell :: InUnit(k, u) && Pencilled(m, k, d) ==> k == c
  }

  // Level 2.

  /** Of a box and a line, one has a digit only where it lies in the other. */
  ghost predicate LockedAt(m: State, u: Unit, v: Unit, d: Digit) {
    && (u < 18 <==> v >= 18)
    && (exists c: Cell :: InUnit(c, u) && Pencilled(m, c, d))
    && forall c: Cell :: InUnit(c, u) && Pencilled(m, c, d) ==> InUnit(c, v)
  }

  predicate LockedClears(u: Unit, v: Unit, d: Digit, c: Cell, e: int) {
    e == d && InUnit(c, v) && !InUnit(c, u)
  }

  // Level 3.

  predicate TwoToFour(n: nat) { 2 <= n <= 4 }

  /** Some cells of a unit with exactly as many candidates between them. */
  ghost predicate NakedSubsetAt(m: State, u: Unit, cells: set<Cell>, digits: set<int>) {
    && TwoToFour(|cells|) && |digits| == |cells|
    && (forall c: Cell :: c in cells ==> InUnit(c, u) && m.candidates[c] != {})
    && forall d :: d in digits <==> exists c: Cell :: c in cells && Pencilled(m, c, d)
  }

  predicate NakedClears(u: Unit, cells: set<Cell>, digits: set<int>, c: Cell, e: int) {
    InUnit(c, u) && c !in cells && e in digits
  }

  /** Some digits with exactly as many places in a unit between them. */
  ghost predicate HiddenSubsetAt(m: State, u: Unit, cells: set<Cell>, digits: set<int>) {
    && TwoToFour(|digits|) && |cells| == |digits|
    && (forall d :: d in digits ==> IsDigit(d) && exists c: Cell :: InUnit(c, u) && Pencilled(m, c, d))
    && forall c: Cell :: c in cells <==> InUnit(c, u) && exists d :: d in digits && Pencilled(m, c, d)
  }

  predicate HiddenClears(cells: set<Cell>, digits: set<int>, c: Cell, e: int) {
    c in cells && e !in digits
  }

  // Level 4.

  /** The row or column of a cell. */
  function LineOf(rows: bool, c: Cell): Position { if rows then c / 9 else c % 9 }

  /** Some lines that have a digit on exactly as many cross lines between them. */
  ghost predicate FishAt(m: State, d: Digit, rows: bool, lines: set<Position>, crosses: set<Position>) {
    && TwoToFour(|lines|) && |crosses| == |lines|
    && (forall l: Position :: l in lines ==> exists c: Cell :: LineOf(rows, c) == l && Pencilled(m, c, d))
    && forall x: Position :: x in crosses <==>
         exists c: Cell :: LineOf(rows, c) in lines && LineOf(!rows, c) == x && Pencilled(m, c, d)
  }

  predicate FishClears(d: Digit, rows: bool, lines: set<Position>, crosses: set<Position>, c: Cell, e: int) {
    e == d && LineOf(!rows, c) in crosses && LineOf(rows, c) !in lines
  }

  /** A pivot with x and y that sees a cell with x and z and one with y and z. */
  ghost predicate XyWingAt(m: State, p: Cell, a: Cell, b: Cell, x: Digit, y: Digit, z: Digit) {
    && x != y && y != z && x != z && Sees(p, a) && Sees(p, b)
    && m.candidates[p] == {x, y} && m.candidates[a] == {x, z} && m.candidates[b] == {y, z}
  }

  predicate XyWingClears(a: Cell, b: Cell, z: Digit, c: Cell, e: int) {
    e == z && Sees(a, c) && Sees(b, c)
  }

  /** The same with z in the pivot too. */
  ghost predicate XyzWingAt(m: State, p: Cell, a: Cell, b: Cell, x: Digit, y: Digit, z: Digit) {
    && x != y && y != z && x != z && Sees(p, a) && Sees(p, b)
    && m.candidates[p] == {x, y, z} && m.candidates[a] == {x, z} && m.candidates[b] == {y, z}
  }

  predicate XyzWingClears(p: Cell, a: Cell, b: Cell, z: Digit, c: Cell, e: int) {
    e == z && Sees(p, c) && Sees(a, c) && Sees(b, c)
  }

  // Level 5.

  /** A false claim makes the other candidate of its cell true, or the digit's other place in a unit, if one is left. */
  ghost predicate MakesTrue(m: State, x: Claim, y: Claim) {
    && !x.on && y.on && Pencilled(m, x.cell, x.digit) && Pencilled(m, y.cell, y.digit)
    && ((y.cell == x.cell && y.digit != x.digit && m.candidates[x.cell] == {x.digit, y.digit}) ||
        (y.digit == x.digit && y.cell != x.cell && exists u: Unit :: OnlyPlaces(m, u, x.digit, x.cell, y.cell)))
  }

  ghost predicate OnlyPlaces(m: State, u: Unit, d: Digit, a: Cell, b: Cell) {
    InUnit(a, u) && InUnit(b, u) && forall k: Cell :: InUnit(k, u) && Pencilled(m, k, d) ==> k == a || k == b
  }

  /** A true claim makes false the other candidates of its cell and its digit in the cells that it sees. */
  ghost predicate MakesFalse(m: State, x: Claim, y: Claim) {
    && x.on && !y.on && Pencilled(m, y.cell, y.digit)
    && if y.cell == x.cell then y.digit != x.digit else y.digit == x.digit && Sees(x.cell, y.cell)
  }

  /** Claims, starting with a candidate being false, of which each forces the next. */
  ghost predicate Leads(m: State, c: Cell, d: Digit, claims: seq<Claim>, links: nat) {
    && 0 < |claims| <= links + 1 && claims[0] == Claim(c, d, false) && Pencilled(m, c, d)
    && forall i :: 0 < i < |claims| ==> Forces(m, claims[i - 1], claims[i])
  }

  ghost predicate Forces(m: State, x: Claim, y: Claim) { MakesTrue(m, x, y) || MakesFalse(m, x, y) }

  ghost predicate ChainTo(m: State, c: Cell, d: Digit, y: Claim, links: nat) {
    exists claims :: Leads(m, c, d, claims, links) && claims[|claims| - 1] == y
  }

  /** A candidate that is true even if it is false. */
  ghost predicate ProvenAt(m: State, c: Cell, d: Digit, links: nat) {
    ChainTo(m, c, d, Claim(c, d, true), links)
  }

  /** A candidate that is false if the start is true, and false if the start is false. */
  ghost predicate ChainClears(m: State, c: Cell, d: Digit, links: nat, k: Cell, e: int) {
    && IsDigit(e) && ChainTo(m, c, d, Claim(k, e, false), links)
    && if k == c then e != d else e == d && Sees(c, k)
  }

  // What a technique does.

  /** A digit is written into a cell and rubbed out of the cells that it sees. */
  ghost predicate Writes(m: State, c: Cell, d: Digit, after: State) {
    && after.reference == m.reference && after.values == m.values[c := d as nat]
    && (forall k: Cell, e :: Pencilled(after, k, e) <==> Pencilled(m, k, e) && k != c && !(e == d && Sees(c, k)))
    && (after.consistent <==> m.consistent && (m.reference.Some? ==> m.reference.value[c] == d))
  }

  /** Nothing is written, some mark is rubbed out, and the flag falls if one of them is the reference's digit. */
  ghost predicate Rubs(m: State, after: State) {
    && after.reference == m.reference && after.values == m.values
    && (exists k: Cell, e :: Pencilled(m, k, e) && !Pencilled(after, k, e))
    && (after.consistent <==> m.consistent && (m.reference.Some? ==>
          forall k: Cell :: var e := m.reference.value[k]; Pencilled(m, k, e) ==> Pencilled(after, k, e)))
  }

  ghost predicate MakesSingle(m: State, after: State) {
    exists c: Cell, d: Digit :: (NakedSingleAt(m, c, d) || exists u: Unit :: HiddenSingleAt(m, u, c, d)) &&
      Writes(m, c, d, after)
  }

  ghost predicate MakesLocked(m: State, after: State) {
    exists u: Unit, v: Unit, d: Digit :: LockedAt(m, u, v, d) && Rubs(m, after) &&
      forall c: Cell, e :: Pencilled(after, c, e) <==> Pencilled(m, c, e) && !LockedClears(u, v, d, c, e)
  }

  ghost predicate MakesSubset(m: State, after: State) {
    Rubs(m, after) && (MakesNaked(m, after) || MakesHidden(m, after))
  }

  ghost predicate MakesNaked(m: State, after: State) {
    exists u: Unit, cells: set<Cell>, digits: set<int> :: NakedSubsetAt(m, u, cells, digits) &&
      forall c: Cell, e :: Pencilled(after, c, e) <==> Pencilled(m, c, e) && !NakedClears(u, cells, digits, c, e)
  }

  ghost predicate MakesHidden(m: State, after: State) {
    exists u: Unit, cells: set<Cell>, digits: set<int> :: HiddenSubsetAt(m, u, cells, digits) &&
      forall c: Cell, e :: Pencilled(after, c, e) <==> Pencilled(m, c, e) && !HiddenClears(cells, digits, c, e)
  }

  ghost predicate MakesFishOrWing(m: State, after: State) {
    Rubs(m, after) && (MakesFish(m, after) || MakesXyWing(m, after) || MakesXyzWing(m, after))
  }

  ghost predicate MakesFish(m: State, after: State) {
    exists d: Digit, rows: bool, lines: set<Position>, crosses: set<Position> :: FishAt(m, d, rows, lines, crosses) &&
      forall c: Cell, e :: Pencilled(after, c, e) <==> Pencilled(m, c, e) && !FishClears(d, rows, lines, crosses, c, e)
  }

  ghost predicate MakesXyWing(m: State, after: State) {
    exists p: Cell, a: Cell, b: Cell, x: Digit, y: Digit, z: Digit :: XyWingAt(m, p, a, b, x, y, z) &&
      forall c: Cell, e :: Pencilled(after, c, e) <==> Pencilled(m, c, e) && !XyWingClears(a, b, z, c, e)
  }

  ghost predicate MakesXyzWing(m: State, after: State) {
    exists p: Cell, a: Cell, b: Cell, x: Digit, y: Digit, z: Digit :: XyzWingAt(m, p, a, b, x, y, z) &&
      forall c: Cell, e :: Pencilled(after, c, e) <==> Pencilled(m, c, e) && !XyzWingClears(p, a, b, z, c, e)
  }

  ghost predicate MakesChain(m: State, after: State, links: nat) {
    exists c: Cell, d: Digit :: MakesChainFrom(m, c, d, after, links)
  }

  ghost predicate MakesChainFrom(m: State, c: Cell, d: Digit, after: State, links: nat) {
    && Pencilled(m, c, d)
    && if ProvenAt(m, c, d, links) then Writes(m, c, d, after)
       else Rubs(m, after) && forall k: Cell, e :: Pencilled(after, k, e) <==>
         Pencilled(m, k, e) && !ChainClears(m, c, d, links, k, e)
  }

  /** One use of a technique of a level. */
  ghost predicate Makes(m: State, after: State, level: int, links: nat) {
    match level
    case 1 => MakesSingle(m, after)
    case 2 => MakesLocked(m, after)
    case 3 => MakesSubset(m, after)
    case 4 => MakesFishOrWing(m, after)
    case 5 => MakesChain(m, after, links)
    case _ => false
  }

  // What is not there.

  ghost predicate NoSingle(m: State) {
    && (forall c: Cell, d: Digit :: !NakedSingleAt(m, c, d))
    && (forall u: Unit, c: Cell, d: Digit :: !HiddenSingleAt(m, u, c, d))
  }

  ghost predicate NoLocked(m: State) {
    forall u: Unit, v: Unit, d: Digit, c: Cell, e :: LockedAt(m, u, v, d) && LockedClears(u, v, d, c, e) ==>
      !Pencilled(m, c, e)
  }

  ghost predicate NoNaked(m: State) {
    forall u: Unit, cells: set<Cell>, digits: set<int>, c: Cell, e ::
      NakedSubsetAt(m, u, cells, digits) && NakedClears(u, cells, digits, c, e) ==> !Pencilled(m, c, e)
  }

  ghost predicate NoHidden(m: State) {
    forall u: Unit, cells: set<Cell>, digits: set<int>, c: Cell, e ::
      HiddenSubsetAt(m, u, cells, digits) && HiddenClears(cells, digits, c, e) ==> !Pencilled(m, c, e)
  }

  ghost predicate NoFish(m: State) {
    forall d: Digit, rows: bool, lines: set<Position>, crosses: set<Position>, c: Cell, e ::
      FishAt(m, d, rows, lines, crosses) && FishClears(d, rows, lines, crosses, c, e) ==> !Pencilled(m, c, e)
  }

  ghost predicate NoXyWing(m: State) {
    forall p: Cell, a: Cell, b: Cell, x: Digit, y: Digit, z: Digit, c: Cell, e ::
      XyWingAt(m, p, a, b, x, y, z) && XyWingClears(a, b, z, c, e) ==> !Pencilled(m, c, e)
  }

  ghost predicate NoXyzWing(m: State) {
    forall p: Cell, a: Cell, b: Cell, x: Digit, y: Digit, z: Digit, c: Cell, e ::
      XyzWingAt(m, p, a, b, x, y, z) && XyzWingClears(p, a, b, z, c, e) ==> !Pencilled(m, c, e)
  }

  ghost predicate NoChain(m: State, links: nat) {
    forall c: Cell, d: Digit :: Pencilled(m, c, d) ==>
      !ProvenAt(m, c, d, links) && forall k: Cell, e :: ChainClears(m, c, d, links, k, e) ==> !Pencilled(m, k, e)
  }

  /** No technique up to a level has anything to write or to rub out. */
  ghost predicate Exhausted(m: State, level: int, links: nat) {
    && (level >= 1 ==> NoSingle(m))
    && (level >= 2 ==> NoLocked(m))
    && (level >= 3 ==> NoNaked(m) && NoHidden(m))
    && (level >= 4 ==> NoFish(m) && NoXyWing(m) && NoXyzWing(m))
    && (level >= 5 ==> NoChain(m, links))
  }

  // Whole solutions.

  /** The givens written in, and every digit that no cell in sight of an empty one shows pencilled into it. */
  ghost predicate Given(givens: Grid, reference: Option<Grid>, m: State) {
    && m.values == givens && m.reference == reference
    && (forall c: Cell, d :: Pencilled(m, c, d) <==>
          IsDigit(d) && givens[c] == 0 && forall k: Cell :: Sees(c, k) ==> givens[k] != d)
    && (m.consistent <==> (reference.Some? ==> forall c: Cell :: givens[c] != 0 ==> reference.value[c] == givens[c]))
  }

  ghost predicate Full(m: State) { forall c: Cell :: m.values[c] != 0 }

  ghost predicate Refuted(m: State) { exists c: Cell :: m.values[c] == 0 && forall d :: !Pencilled(m, c, d) }

  /** Always a technique of the lowest level that has something to do, until nothing is left to do. */
  ghost predicate Course(states: seq<State>, levels: seq<int>, links: nat) {
    && |states| == |levels| + 1
    && forall i :: 0 <= i < |levels| ==> OneMove(states[i], states[i + 1], levels[i], links)
  }

  ghost predicate OneMove(m: State, after: State, level: int, links: nat) {
    && 1 <= level <= 5 && !Full(m) && !Refuted(m)
    && Exhausted(m, level - 1, links) && Makes(m, after, level, links)
  }

  ghost predicate Over(m: State, links: nat) { Full(m) || Refuted(m) || Exhausted(m, 5, links) }

  /** The moves of a level or above. */
  function MovesFrom(levels: seq<int>, level: int): set<nat> {
    set i: nat | i < |levels| && levels[i] >= level
  }

  ghost predicate Hardest(levels: seq<int>, level: int) {
    && (forall i :: 0 <= i < |levels| ==> levels[i] <= level)
    && if levels == [] then level == 0 else exists i :: 0 <= i < |levels| && levels[i] == level
  }
}
