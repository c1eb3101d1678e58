/** The 81 cells, their 27 units and the relation between cells that share a unit. */
module Cells {
  type Cell = c: int | 0 <= c < 81
  type Unit = u: int | 0 <= u < 27
  type Position = i: int | 0 <= i < 9

  function Row(c: int): int { c / 9 }

  function Column(c: int): int { c % 9 }

  function Box(c: int): int { c / 27 * 3 + c % 9 / 3 }

  predicate Sees(a: int, b: int) {
    a != b && (Row(a) == Row(b) || Column(a) == Column(b) || Box(a) == Box(b))
  }

  /** The 27 units: nine rows, then the columns, then the boxes. */
  predicate InUnit(c: int, u: int) {
    if u < 9 then Row(c) == u else if u < 18 then Column(c) == u - 9 else Box(c) == u - 18
  }

  /** The cell at a place of a unit. */
  function CellAt(u: int, i: int): int {
    if u < 9 then u * 9 + i
    else if u < 18 then i * 9 + u - 9
    else (u - 18) / 3 * 27 + (u - 18) % 3 * 3 + i / 3 * 9 + i % 3
  }

  /** The place of a cell within one of its units. */
  function PositionOf(u: int, c: int): int {
    if u < 9 then c % 9
    else if u < 18 then c / 9
    else c / 9 % 3 * 3 + c % 3
  }

  /** A cell from its band, stack and position inside the box. */
  lemma BoxCell(band: int, stack: int, x: int, y: int)
    requires 0 <= band < 3 && 0 <= stack < 3 && 0 <= x < 3 && 0 <= y < 3
    ensures var c := band * 27 + stack * 3 + x * 9 + y;
            0 <= c < 81 && c / 27 == band && c % 9 / 3 == stack && c / 9 % 3 == x && c % 3 == y
  {
  }

  /** Every cell decomposes that way. */
  lemma CellParts(c: Cell)
    ensures c == c / 27 * 27 + c % 9 / 3 * 3 + c / 9 % 3 * 9 + c % 3
    ensures 0 <= c / 27 < 3 && 0 <= c % 9 / 3 < 3
  {
  }

  lemma PositionParts(x: int, y: int)
    requires 0 <= x < 3 && 0 <= y < 3
    ensures (x * 3 + y) / 3 == x && (x * 3 + y) % 3 == y
  {
  }

  lemma BoxParts(band: int, stack: int)
    requires 0 <= band < 3 && 0 <= stack < 3
    ensures (band * 3 + stack) / 3 == band && (band * 3 + stack) % 3 == stack
  {
  }

  lemma CellAtInverse(u: Unit, i: Position)
    ensures 0 <= CellAt(u, i) < 81
    ensures InUnit(CellAt(u, i), u)
    ensures PositionOf(u, CellAt(u, i)) == i
  {
    if u >= 18 {
      BoxCell((u - 18) / 3, (u - 18) % 3, i / 3, i % 3);
    }
  }

  /** The same as a cell, with its place in the unit recovered from it. */
  function At(u: Unit, i: Position): (c: Cell)
    ensures InUnit(c, u) && PositionOf(u, c) == i
  {
    CellAtInverse(u, i);
    CellAt(u, i)
  }

  lemma PositionOfInverse(u: Unit, c: Cell)
    requires InUnit(c, u)
    ensures 0 <= PositionOf(u, c) < 9
    ensures CellAt(u, PositionOf(u, c)) == c
  {
    if u >= 18 {
      CellParts(c);
      PositionParts(c / 9 % 3, c % 3);
      BoxParts(c / 27, c % 9 / 3);
    }
  }

  lemma UnitMatesSee(u: Unit, a: Cell, b: Cell)
    requires InUnit(a, u) && InUnit(b, u)
    ensures a == b || Sees(a, b)
  {
  }

  /** Cells that see each other share a unit, so `Sees` says nothing the 27 units do not. */
  lemma SharedUnit(a: Cell, b: Cell) returns (u: Unit)
    requires Sees(a, b)
    ensures InUnit(a, u) && InUnit(b, u)
    ensures u == Row(a) || u == 9 + Column(a) || u == 18 + Box(a)
  {
    if Row(a) == Row(b) { u := Row(a); }
    else if Column(a) == Column(b) { u := 9 + Column(a); }
    else { u := 18 + Box(a); }
  }

  lemma Coordinates(band: int, x: int, stack: int, y: int)
    requires 0 <= band < 3 && 0 <= x < 3 && 0 <= stack < 3 && 0 <= y < 3
    ensures var c := 27 * band + 9 * x + 3 * stack + y;
            Row(c) == 3 * band + x && Column(c) == 3 * stack + y && Box(c) == 3 * band + stack
  {
    BoxCell(band, stack, x, y);
  }

  /** The board by bands, stacks and lines: cells see each other in one line or one square of three by three. */
  lemma SeesExactly(band: int, x: int, stack: int, y: int, band': int, x': int, stack': int, y': int)
    requires 0 <= band < 3 && 0 <= x < 3 && 0 <= stack < 3 && 0 <= y < 3
    requires 0 <= band' < 3 && 0 <= x' < 3 && 0 <= stack' < 3 && 0 <= y' < 3
    ensures Sees(27 * band + 9 * x + 3 * stack + y, 27 * band' + 9 * x' + 3 * stack' + y') <==>
      && (band, x, stack, y) != (band', x', stack', y')
      && ((band == band' && x == x') || (stack == stack' && y == y') || (band == band' && stack == stack'))
  {
    hide Row, Column, Box;
    Coordinates(band, x, stack, y);
    Coordinates(band', x', stack', y');
  }

  /** The units of a cell are its line across, its line down and its square, numbered in that order. */
  lemma UnitsExactly(band: int, x: int, stack: int, y: int, u: Unit)
    requires 0 <= band < 3 && 0 <= x < 3 && 0 <= stack < 3 && 0 <= y < 3
    ensures InUnit(27 * band + 9 * x + 3 * stack + y, u) <==>
      u == 3 * band + x || u == 9 + 3 * stack + y || u == 18 + 3 * band + stack
  {
    hide Row, Column, Box;
    Coordinates(band, x, stack, y);
  }

  lemma UnitsOf(c: Cell)
    ensures 0 <= Row(c) < 9 && 0 <= Column(c) < 9 && 0 <= Box(c) < 9
    ensures InUnit(c, Row(c)) && InUnit(c, 9 + Column(c)) && InUnit(c, 18 + Box(c))
  {
  }
}
