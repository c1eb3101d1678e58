/** Alternating inference chains. */
module Chains {
  import opened Pigeonhole
  import opened Cells
  import opened Solutions
  import opened Marks
  import opened Deductions
  import opened Soundness
  import opened LogicState
  import opened Singles
  import opened Subsets
  import opened ClaimSearch

  /** The sum of a unit's two cells for a digit lets either find the other. */
  ghost predicate Bilocal(m: State, u: Unit, d: Digit, sum: int) {
    if |Spots(m, u, d)| == 2 then
      forall x: Cell :: InUnit(x, u) && d in m.candidates[x] ==> Partner(m, u, d, x, sum - x)
    else sum == -1
  }

  ghost predicate Partner(m: State, u: Unit, d: Digit, x: Cell, y: int) {
    0 <= y < 81 && y != x && InUnit(y, u) && d in m.candidates[y]
    && forall z: Cell :: InUnit(z, u) && d in m.candidates[z] && z != x ==> z == y
  }

  /** The sum of the cells that may hold a digit when there are exactly two, else -1. */
  method SumSpots(s: Logic, unit: Unit, digit: Digit) returns (sum: int)
    requires s.Shape()
    ensures Bilocal(s.M(), unit, digit, sum)
    ensures sum >= 0 <==> |Spots(s.M(), unit, digit)| == 2
  {
    hide InUnit, Sees, PositionOf, At, CellAt, Partner, Tally, Bilocal, Spots;
    ghost var m := s.M();
    ghost var first: Position, second: Position := 0, 0;
    var count: int, cells: int := 0, 0;
    TallyStart(m, unit, digit);
    for i := 0 to 9
      invariant s.M() == m
      invariant Tally(m, unit, digit, i, count, cells, first, second)
    {
      var cell := At(unit, i);
      TallyOneMore(m, unit, digit, i, count, cells, first, second);
      if digit in s.candidates[cell] {
        count, cells := count + 1, cells + cell;
        if count == 1 { first := i; } else if count == 2 { second := i; }
      }
    }
    TallyEnd(m, unit, digit, count, cells, first, second);
    return if count == 2 then cells else -1;
  }

  /** The count and sum over the first n places, with the first two places counted. */
  ghost predicate Tally(m: State, u: Unit, d: Digit, n: nat, count: int, cells: int, first: Position,
      second: Position) {
    && count == |SpotsBelow(m, u, d, n)| && cells >= 0
    && (count == 0 ==> cells == 0)
    && (count == 1 ==> SpotsBelow(m, u, d, n) == {first as int} && cells == At(u, first))
    && (count == 2 ==> first != second && SpotsBelow(m, u, d, n) == {first as int, second as int} &&
                       cells == At(u, first) + At(u, second))
  }

  lemma TallyOneMore(m: State, u: Unit, d: Digit, n: Position, count: int, cells: int, first: Position,
      second: Position)
    requires Tally(m, u, d, n, count, cells, first, second)
    ensures if d in m.candidates[At(u, n)]
            then Tally(m, u, d, n + 1, count + 1, cells + At(u, n), if count == 0 then n else first, if count == 1
              then n else second)
            else Tally(m, u, d, n + 1, count, cells, first, second)
    ensures SpotsBelow(m, u, d, 9) == Spots(m, u, d)
  {
    hide InUnit, At, CellAt, PositionOf;
    SpotsOneMore(m, u, d, n);
    var seen := SpotsBelow(m, u, d, n);
    assert n !in seen;
    if count == 0 { assert seen == {}; }
  }

  lemma TallyStart(m: State, u: Unit, d: Digit)
    ensures Tally(m, u, d, 0, 0, 0, 0, 0)
  {
  }

  lemma TallyEnd(m: State, u: Unit, d: Digit, count: int, cells: int, first: Position, second: Position)
    requires Tally(m, u, d, 9, count, cells, first, second)
    ensures cells >= 0 && (count == 2 <==> |Spots(m, u, d)| == 2)
    ensures Bilocal(m, u, d, if count == 2 then cells else -1)
  {
    hide InUnit, At, CellAt, PositionOf, Bilocal;
    assert SpotsBelow(m, u, d, 9) == Spots(m, u, d);
    if count == 2 { TwoSpots(m, u, d, first, second); } else { NotBilocal(m, u, d); }
  }

  lemma NotBilocal(m: State, u: Unit, d: Digit)
    requires |Spots(m, u, d)| != 2
    ensures Bilocal(m, u, d, -1)
  {
  }

  lemma TwoSpots(m: State, u: Unit, d: Digit, i: Position, j: Position)
    requires i != j && Spots(m, u, d) == {i as int, j as int}
    ensures Bilocal(m, u, d, At(u, i) + At(u, j))
  {
    hide InUnit, At, CellAt, PositionOf;
    forall x: Cell | InUnit(x, u) && d in m.candidates[x]
      ensures x == At(u, i) || x == At(u, j)
    {
      PositionOfInverse(u, x);
      AtCellAt(u, PositionOf(u, x));
      assert PositionOf(u, x) in Spots(m, u, d);
    }
    assert At(u, i) != At(u, j) by {
      assert PositionOf(u, At(u, i)) == i && PositionOf(u, At(u, j)) == j;
    }
    assert i in Spots(m, u, d) && j in Spots(m, u, d);
    forall x: Cell | InUnit(x, u) && d in m.candidates[x]
      ensures Partner(m, u, d, x, At(u, i) + At(u, j) - x) {}
  }

  /** The distances and queue of one chain search. */
  class Frontier {
    const on: array<int>
    const off: array<int>
    const queue: array<int>
    const start: Entry
    var tail: nat
    var proven: bool
    ghost var dist: seq<int>

    ghost predicate Shape()
      reads this
    {
      && on.Length == 729 && off.Length == 729 && queue.Length == 1458
      && on != off && on != queue && off != queue && tail <= 1458
    }

    ghost function Order(): seq<int>
      requires Shape()
      reads this, queue
    {
      queue[..tail]
    }

    /** The two arrays are the distances, and the target's turns up exactly when it is proven. */
    ghost predicate Valid()
      reads this, on, off, queue
    {
      && Shape() && Layout(dist, Order())
      && Stores(off[..], on[..], dist)
      && (proven <==> dist[2 * (start / 2) + 1] >= 0)
    }

    constructor (start: Entry)
      requires start % 2 == 0
      ensures Valid() && !proven && this.start == start
      ensures Order() == [start as int] && dist == seq(1458, e => if e == start then 0 else -1)
      ensures fresh(on) && fresh(off) && fresh(queue)
    {
      on := new int[729](_ => -1);
      off := new int[729](node => if node == start / 2 then 0 else -1);
      queue := new int[1458](_ => start);
      this.start := start;
      tail := 1;
      proven := false;
      dist := seq(1458, e => if e == start then 0 else -1);
      new;
      assert Order() == [start as int];
    }

    /** The stored distance of an entry. */
    method Distance(e: Entry) returns (distance: int)
      requires Valid()
      ensures distance == dist[e]
    {
      if e % 2 == 1 { return on[e / 2]; } else { return off[e / 2]; }
    }

    /** Queues a claim unless it was seen before. */
    method Visit(next: Entry, distance: nat)
      requires Valid()
      modifies this, on, off, queue
      ensures Valid()
      ensures if old(dist[next]) >= 0 then dist == old(dist) && Order() == old(Order())
              else dist == old(dist)[next := distance] && Order() == old(Order()) + [next as int]
    {
      hide Layout, Stores;
      LayoutSize(dist, Order());
      QueueFits(dist, Order());
      ghost var order, before := Order(), dist;
      StoredAt(off[..], on[..], dist, next, distance);
      if next % 2 == 1 {
        if on[next / 2] >= 0 { return; }
        on[next / 2] := distance;
      } else {
        if off[next / 2] >= 0 { return; }
        off[next / 2] := distance;
      }
      queue[tail] := next;
      tail := tail + 1;
      dist := dist[next := distance];
      if next % 2 == 1 && next / 2 == start / 2 { proven := true; }
      LayoutPush(before, order, next, distance);
      assert Order() == order + [next as int];
    }
  }

  lemma LayoutSize(dist: seq<int>, order: seq<int>)
    requires Layout(dist, order)
    ensures |dist| == 1458
  {
  }

  /** Even entries live in `off`, odd ones in `on`. */
  ghost predicate Stores(off: seq<int>, on: seq<int>, dist: seq<int>) {
    && |off| == 729 && |on| == 729 && |dist| == 1458
    && forall e: Entry :: dist[e] == if e % 2 == 1 then on[e / 2] else off[e / 2]
  }

  lemma StoredAt(off: seq<int>, on: seq<int>, dist: seq<int>, e: Entry, distance: int)
    requires Stores(off, on, dist)
    ensures dist[e] == if e % 2 == 1 then on[e / 2] else off[e / 2]
    ensures if e % 2 == 1 then Stores(off, on[e / 2 := distance], dist[e := distance])
            else Stores(off[e / 2 := distance], on, dist[e := distance])
  {
  }

  lemma LayoutPush(dist: seq<int>, order: seq<int>, e: Entry, distance: nat)
    requires Layout(dist, order) && dist[e] < 0
    ensures Layout(dist[e := distance], order + [e as int])
  {
  }

  /** Sums for every unit and digit, indexed by both. */
  ghost predicate BilocalTable(m: State, table: seq<seq<int>>) {
    && |table| == 27 && (forall u: Unit :: |table[u]| == 10)
    && forall u: Unit, d: Digit :: Bilocal(m, u, d, table[u][d]) && (table[u][d] >= 0 <==> |Spots(m, u, d)| == 2)
  }

  method ReadBilocal(s: Logic) returns (table: seq<seq<int>>)
    requires s.Shape()
    ensures BilocalTable(s.M(), table)
  {
    hide Bilocal, Spots;
    table := [];
    for unit := 0 to 27
      invariant |table| == unit && forall u: Unit :: u < unit ==> |table[u]| == 10
      invariant forall u: Unit, d: Digit :: u < unit ==>
        Bilocal(s.M(), u, d, table[u][d]) && (table[u][d] >= 0 <==> |Spots(s.M(), u, d)| == 2)
    {
      var sums := [-1];
      for digit := 1 to 10
        invariant |sums| == digit
        invariant forall d: Digit :: d < digit ==>
          Bilocal(s.M(), unit, d, sums[d]) && (sums[d] >= 0 <==> |Spots(s.M(), unit, d)| == 2)
      {
        var sum := SumSpots(s, unit, digit);
        sums := sums + [sum];
      }
      table := table + [sums];
    }
  }

  lemma GrownVisit(m: State, x: Claim, distance: nat, dist0: seq<int>, order0: seq<int>,
                   dist: seq<int>, order: seq<int>, y: Claim)
    requires Grown(m, x, distance, dist0, order0, dist, order) && Link(m, x, y)
    ensures dist[EntryOf(y)] < 0 ==>
      Grown(m, x, distance, dist0, order0, dist[EntryOf(y) := distance + 1], order + [EntryOf(y) as int])
  {
    hide Link, EntryOf, ClaimOf;
    EntryInverse(y);
    if dist[EntryOf(y)] < 0 { LayoutPush(dist, order, EntryOf(y), distance + 1); }
  }

  /** Follows one link. */
  method Follow(f: Frontier, y: Claim, ghost m: State, ghost x: Claim, distance: nat,
                ghost dist0: seq<int>, ghost order0: seq<int>)
    requires f.Valid() && Link(m, x, y) && Grown(m, x, distance, dist0, order0, f.dist, f.Order())
    modifies f, f.on, f.off, f.queue
    ensures f.Valid() && Grown(m, x, distance, dist0, order0, f.dist, f.Order())
    ensures f.dist[EntryOf(y)] >= 0
    ensures forall e: Entry :: old(f.dist[e]) >= 0 ==> f.dist[e] >= 0
  {
    hide Link, EntryOf, Grown, Stores;
    GrownVisit(m, x, distance, dist0, order0, f.dist, f.Order(), y);
    f.Visit(EntryOf(y), distance + 1);
  }

  /** The three units of a cell. */
  function UnitsAt(c: Cell): (r: seq<Unit>)
    ensures |r| == 3
  {
    UnitsOf(c);
    [Row(c), 9 + Column(c), 18 + Box(c)]
  }

  lemma UnitsAtAll(c: Cell, u: Unit)
    ensures InUnit(c, u) <==> u in UnitsAt(c)
  {
  }

  /** The claim forced by the cell's only other candidate. */
  lemma OtherCandidate(m: State, x: Claim, d: Digit)
    requires !x.on && x.digit in m.candidates[x.cell] && |m.candidates[x.cell]| == 2
    requires d in m.candidates[x.cell] && d != x.digit
    ensures Link(m, x, Claim(x.cell, d, true))
    ensures forall y :: Link(m, x, y) && y.cell == x.cell ==> y == Claim(x.cell, d, true)
  {
    hide InUnit, Sees, Spots;
    TwoMembers(m.candidates[x.cell], x.digit, d);
  }

  /** The claim forced by a unit's only other cell for the digit. */
  lemma OtherCell(m: State, x: Claim, u: Unit, sum: int)
    requires !x.on && x.digit in m.candidates[x.cell] && InUnit(x.cell, u)
    requires Bilocal(m, u, x.digit, sum) && |Spots(m, u, x.digit)| == 2
    ensures 0 <= sum - x.cell < 81 && Link(m, x, Claim(sum - x.cell, x.digit, true))
    ensures forall y :: Link(m, x, y) && y.cell != x.cell && InUnit(y.cell, u) ==>
      y == Claim(sum - x.cell, x.digit, true)
  {
  }

  /** A strong link within a unit. */
  ghost predicate LinkedIn(m: State, u: Unit, x: Claim, y: Claim) {
    Link(m, x, y) && y.cell != x.cell && InUnit(y.cell, u) && |Spots(m, u, x.digit)| == 2
  }

  lemma StrongLinkUnit(m: State, x: Claim, y: Claim) returns (u: Unit)
    requires Link(m, x, y) && !x.on && y.cell != x.cell
    ensures u in UnitsAt(x.cell) && InUnit(y.cell, u) && InUnit(x.cell, u) && |Spots(m, u, x.digit)| == 2
  {
    hide InUnit, Sees, Spots, UnitsAt;
    u :| InUnit(x.cell, u) && InUnit(y.cell, u) && |Spots(m, u, x.digit)| == 2;
    UnitsAtAll(x.cell, u);
  }

  /** The other candidate of a cell with two. */
  method FollowPartner(s: Logic, f: Frontier, x: Claim, distance: nat)
    requires s.Shape() && !x.on && x.digit in s.M().candidates[x.cell]
    requires f.Valid() && {s.values as object, s.candidates} !! {f.on as object, f.off, f.queue}
    requires s.M().candidates[x.cell] <= Digits()
    modifies f, f.on, f.off, f.queue
    ensures f.Valid() && Grown(s.M(), x, distance, old(f.dist), old(f.Order()), f.dist, f.Order())
    ensures forall y :: Link(s.M(), x, y) && y.cell == x.cell ==> f.dist[EntryOf(y)] >= 0
    ensures s.M() == old(s.M())
  {
    hide Link, EntryOf, Spots, Stores, Grown;
    ghost var m, dist0, order0 := s.M(), f.dist, f.Order();
    var candidates := s.candidates[x.cell];
    GrownNothing(m, x, distance, dist0, order0);
    if |candidates| == 2 {
      OtherLeft(candidates, x.digit);
      var other := Lowest(candidates - {x.digit}, 1);
      OtherCandidate(m, x, other);
      Follow(f, Claim(x.cell, other, true), m, x, distance, dist0, order0);
    }
    CellLinksNeedTwo(m, x);
  }

  /** Strong links: the other candidate of the cell, and the other cell of the digit in each unit. */
  method FollowStrong(s: Logic, f: Frontier, table: seq<seq<int>>, x: Claim, distance: nat)
    requires s.Shape() && BilocalTable(s.M(), table) && !x.on && x.digit in s.M().candidates[x.cell]
    requires f.Valid() && {s.values as object, s.candidates} !! {f.on as object, f.off, f.queue}
    requires s.M().candidates[x.cell] <= Digits()
    modifies f, f.on, f.off, f.queue
    ensures f.Valid() && Grown(s.M(), x, distance, old(f.dist), old(f.Order()), f.dist, f.Order())
    ensures forall y :: Link(s.M(), x, y) ==> f.dist[EntryOf(y)] >= 0
    ensures s.M() == old(s.M())
  {
    hide Link, EntryOf, InUnit, Spots, UnitsAt, Stores, Bilocal, Grown;
    ghost var m, dist0, order0 := s.M(), f.dist, f.Order();
    FollowPartner(s, f, x, distance);
    var units := UnitsAt(x.cell);
    for k := 0 to 3
      invariant f.Valid() && s.M() == m && Grown(m, x, distance, dist0, order0, f.dist, f.Order())
      invariant forall y :: Link(m, x, y) && y.cell == x.cell ==> f.dist[EntryOf(y)] >= 0
      invariant forall j, y :: 0 <= j < k && LinkedIn(m, units[j], x, y) ==> f.dist[EntryOf(y)] >= 0
    {
      var unit := units[k];
      if table[unit][x.digit] >= 0 {
        UnitsAtAll(x.cell, unit);
        OtherCell(m, x, unit, table[unit][x.digit]);
        Follow(f, Claim(table[unit][x.digit] - x.cell, x.digit, true), m, x, distance, dist0, order0);
      }
    }
    forall y | Link(m, x, y) ensures f.dist[EntryOf(y)] >= 0 {
      if y.cell != x.cell {
        var u := StrongLinkUnit(m, x, y);
        assert LinkedIn(m, u, x, y);
      }
    }
  }

  lemma GrownNothing(m: State, x: Claim, distance: int, dist: seq<int>, order: seq<int>)
    requires Layout(dist, order)
    ensures Grown(m, x, distance, dist, order, dist, order)
  {
  }

  lemma OtherLeft(candidates: set<int>, d: int)
    requires |candidates| == 2 && d in candidates
    ensures candidates - {d} != {}
  {
    if candidates - {d} == {} { EqualBySize(candidates, {d}); }
  }

  lemma CellLinksNeedTwo(m: State, x: Claim)
    requires !x.on
    ensures forall y :: Link(m, x, y) && y.cell == x.cell ==> |m.candidates[x.cell]| == 2
  {
  }

  lemma WeakLinks(m: State, x: Claim)
    requires x.on
    ensures forall d: Digit :: d != x.digit && d in m.candidates[x.cell] ==> Link(m, x, Claim(x.cell, d, false))
    ensures forall c: Cell :: Sees(x.cell, c) && x.digit in m.candidates[c] ==> Link(m, x, Claim(c, x.digit, false))
    ensures forall y :: Link(m, x, y) ==>
      || (y == Claim(x.cell, y.digit, false) && y.digit != x.digit && y.digit in m.candidates[x.cell])
      || (y == Claim(y.cell, x.digit, false) && Sees(x.cell, y.cell) && x.digit in m.candidates[y.cell])
  {
  }

  /** Weak links: the cell's other candidates, and the digit in every cell it sees. */
  method FollowWeak(s: Logic, f: Frontier, x: Claim, distance: nat)
    requires s.Shape() && x.on
    requires f.Valid() && {s.values as object, s.candidates} !! {f.on as object, f.off, f.queue}
    modifies f, f.on, f.off, f.queue
    ensures f.Valid() && Grown(s.M(), x, distance, old(f.dist), old(f.Order()), f.dist, f.Order())
    ensures forall y :: Link(s.M(), x, y) ==> f.dist[EntryOf(y)] >= 0
    ensures s.M() == old(s.M())
  {
    hide Link, EntryOf, Sees, Stores, Grown;
    ghost var m, dist0, order0 := s.M(), f.dist, f.Order();
    GrownNothing(m, x, distance, dist0, order0);
    WeakLinks(m, x);
    for other := 1 to 10
      invariant f.Valid() && s.M() == m && Grown(m, x, distance, dist0, order0, f.dist, f.Order())
      invariant forall d: Digit :: d < other && d != x.digit && d in m.candidates[x.cell] ==>
        f.dist[EntryOf(Claim(x.cell, d, false))] >= 0
    {
      if other != x.digit && other in s.candidates[x.cell] {
        Follow(f, Claim(x.cell, other, false), m, x, distance, dist0, order0);
      }
    }
    for peer := 0 to 81
      invariant f.Valid() && s.M() == m && Grown(m, x, distance, dist0, order0, f.dist, f.Order())
      invariant forall d: Digit :: d != x.digit && d in m.candidates[x.cell] ==>
        f.dist[EntryOf(Claim(x.cell, d, false))] >= 0
      invariant forall c: Cell :: c < peer && Sees(x.cell, c) && x.digit in m.candidates[c] ==>
        f.dist[EntryOf(Claim(c, x.digit, false))] >= 0
    {
      if Sees(x.cell, peer) && x.digit in s.candidates[peer] {
        Follow(f, Claim(peer, x.digit, false), m, x, distance, dist0, order0);
      }
    }
  }

  lemma {:induction false} ReachIsCandidate(m: State, cell: Cell, digit: Digit, links: nat, y: Claim)
    requires digit in m.candidates[cell] && y in Reach(m, cell, digit, links)
    ensures y.digit in m.candidates[y.cell]
  {
    hide Sees, InUnit, Spots;
    if links > 0 && y in Reach(m, cell, digit, links - 1) {
      ReachIsCandidate(m, cell, digit, links - 1, y);
    }
  }

  /** Everything the search keeps true between claims. */
  ghost predicate OnCourse(m: State, cell: Cell, digit: Digit, links: nat, dist: seq<int>, order: seq<int>, head: nat) {
    && Layout(dist, order) && head <= |order|
    && dist[EntryOf(Claim(cell, digit, false))] == 0
    && Reached(m, cell, digit, links, dist)
    && Followed(m, links, dist, order, head)
    && Graded(dist, order, head)
  }

  lemma CourseStarts(m: State, cell: Cell, digit: Digit, links: nat)
    ensures var start := EntryOf(Claim(cell, digit, false));
      OnCourse(m, cell, digit, links, seq(1458, e => if e == start then 0 else -1), [start as int], 0)
  {
  }

  lemma CourseSkips(m: State, cell: Cell, digit: Digit, links: nat, dist: seq<int>, order: seq<int>, head: nat)
    requires OnCourse(m, cell, digit, links, dist, order, head) && head < |order| && dist[order[head]] >= links
    ensures OnCourse(m, cell, digit, links, dist, order, head + 1)
  {
  }

  lemma CourseFollows(m: State, cell: Cell, digit: Digit, links: nat, dist0: seq<int>, order0: seq<int>,
                      dist: seq<int>, order: seq<int>, head: nat)
    requires OnCourse(m, cell, digit, links, dist0, order0, head) && head < |order0| && dist0[order0[head]] < links
    requires Grown(m, ClaimOf(order0[head]), dist0[order0[head]], dist0, order0, dist, order)
    requires forall y :: Link(m, ClaimOf(order0[head]), y) ==> dist[EntryOf(y)] >= 0
    ensures OnCourse(m, cell, digit, links, dist, order, head + 1)
  {
    hide Link, EntryOf, ClaimOf, Followed, Graded, Reached;
    FollowOne(m, cell, digit, links, dist0, order0, dist, order, head);
  }

  /** The claim being followed is a live candidate at a distance within the limit. */
  lemma CourseClaim(m: State, cell: Cell, digit: Digit, links: nat, dist: seq<int>, order: seq<int>, head: nat)
    requires OnCourse(m, cell, digit, links, dist, order, head) && head < |order| && digit in m.candidates[cell]
    ensures 0 <= order[head] < 1458 && dist[order[head]] >= 0
    ensures var x := ClaimOf(order[head]); x.digit in m.candidates[x.cell]
  {
    hide Link, EntryOf, ClaimOf, Followed, Graded;
    var e: Entry := order[head];
    assert e in order;
    ReachIsCandidate(m, cell, digit, dist[e], ClaimOf(e));
  }

  /** A proven start is reached; an exhausted search has found exactly the reachable claims. */
  lemma CourseEnds(m: State, cell: Cell, digit: Digit, links: nat, dist: seq<int>, order: seq<int>, head: nat)
    requires OnCourse(m, cell, digit, links, dist, order, head)
    ensures dist[EntryOf(Claim(cell, digit, true))] >= 0 ==> Proves(m, cell, digit, links)
    ensures head == |order| ==> forall y :: dist[EntryOf(y)] >= 0 <==> y in Reach(m, cell, digit, links)
  {
    hide Link, EntryOf, ClaimOf, Graded;
    var proof := Claim(cell, digit, true);
    if dist[EntryOf(proof)] >= 0 {
      EntryInverse(proof);
      ReachGrows(m, cell, digit, dist[EntryOf(proof)], links);
    }
    if head == |order| {
      forall y ensures dist[EntryOf(y)] >= 0 <==> y in Reach(m, cell, digit, links) {
        SearchExact(m, cell, digit, links, dist, order, y);
      }
    }
  }

  lemma ProofEntry(cell: Cell, digit: Digit)
    ensures EntryOf(Claim(cell, digit, false)) % 2 == 0
    ensures 2 * (EntryOf(Claim(cell, digit, false)) / 2) + 1 == EntryOf(Claim(cell, digit, true))
  {
  }

  /** The whole search from assuming one candidate false. */
  method SearchFrom(s: Logic, table: seq<seq<int>>, cell: Cell, digit: Digit) returns (f: Frontier)
    requires s.Shape() && Valid(s.M()) && BilocalTable(s.M(), table) && digit in s.M().candidates[cell]
    ensures f.Valid() && fresh(f) && fresh(f.on) && fresh(f.off) && fresh(f.queue)
    ensures f.proven <==> Proves(s.M(), cell, digit, s.links)
    ensures !f.proven ==> forall y :: f.dist[EntryOf(y)] >= 0 <==> y in Reach(s.M(), cell, digit, s.links)
  {
    hide Link, EntryOf, ClaimOf, Stores, OnCourse, Grown, BilocalTable, Reach, Layout;
    ghost var m, links := s.M(), s.links;
    var start := EntryOf(Claim(cell, digit, false));
    ProofEntry(cell, digit);
    f := new Frontier(start);
    CourseStarts(m, cell, digit, links);
    var head := 0;
    while head < f.tail && !f.proven
      invariant s.M() == m && f.Valid() && f.start == start
      invariant fresh(f) && fresh(f.on) && fresh(f.off) && fresh(f.queue)
      invariant 0 <= head <= f.tail && OnCourse(m, cell, digit, links, f.dist, f.Order(), head)
      decreases 1458 - head
    {
      ghost var dist, order := f.dist, f.Order();
      assert order[head] == f.queue[head];
      CourseClaim(m, cell, digit, links, dist, order, head);
      var entry := f.queue[head];
      var x := ClaimOf(entry);
      var distance := f.Distance(entry);
      if distance < s.links {
        if x.on { FollowWeak(s, f, x, distance); } else { FollowStrong(s, f, table, x, distance); }
        CourseFollows(m, cell, digit, links, dist, order, f.dist, f.Order(), head);
        GrownLonger(m, x, distance, dist, order, f.dist, f.Order());
      } else {
        CourseSkips(m, cell, digit, links, dist, order, head);
      }
      head := head + 1;
    }
    CourseEnds(m, cell, digit, links, f.dist, f.Order(), head);
  }

  lemma GrownLonger(m: State, x: Claim, distance: int, dist0: seq<int>, order0: seq<int>, dist: seq<int>,
      order: seq<int>)
    requires Grown(m, x, distance, dist0, order0, dist, order)
    ensures |order0| <= |order|
  {
  }

  function CellOf(node: int): Cell
    requires 0 <= node < 729
  {
    node / 9
  }

  function DigitOf(node: int): Digit
    requires 0 <= node < 729
  {
    node % 9 + 1
  }

  function NodeOf(c: Cell, d: Digit): (node: int)
    ensures 0 <= node < 729 && CellOf(node) == c && DigitOf(node) == d
  {
    c * 9 + d - 1
  }

  lemma NodeInverse(node: int)
    requires 0 <= node < 729
    ensures NodeOf(CellOf(node), DigitOf(node)) == node
    ensures EntryOf(Claim(CellOf(node), DigitOf(node), false)) == 2 * node
  {
  }

  lemma OffEntry(off: seq<int>, on: seq<int>, dist: seq<int>, node: int)
    requires Stores(off, on, dist) && 0 <= node < 729
    ensures off[node] == dist[2 * node]
  {
  }

  /** Clears the reached candidates that exclude the start. */
  method ClearLinked(s: Logic, f: Frontier, cell: Cell, digit: Digit) returns (progress: bool)
    requires s.Shape() && f.Valid() && {s.values as object, s.candidates, s} !! {f.on as object, f.off, f.queue, f}
    requires forall y :: f.dist[EntryOf(y)] >= 0 <==> y in Reach(s.M(), cell, digit, s.links)
    modifies s`consistent, s.candidates
    ensures s.M() == Without(old(s.M()), Gone(old(s.M()), Chain(cell, digit), s.links))
    ensures progress <==> Hits(old(s.M()), Gone(old(s.M()), Chain(cell, digit), s.links))
  {
    hide EntryOf, Reach, Hits, Without, Only, Sees, Linked, CellOf, DigitOf, NodeOf, Stores, Layout;
    ghost var m := s.M();
    ghost var reach := Reach(m, cell, digit, s.links);
    ghost var gone: set<Mark> := {};
    progress := false;
    WithoutEmpty(m);
    LayoutSize(f.dist, f.Order());
    for node := 0 to 729
      invariant f.Valid() && |f.dist| == 1458 && forall y :: f.dist[EntryOf(y)] >= 0 <==> y in reach
      invariant s.M() == Without(m, gone) && (progress <==> Hits(m, gone))
      invariant forall p :: p in gone <==> exists c: Cell, d: Digit ::
        NodeOf(c, d) < node && Claim(c, d, false) in reach && Linked(c, d, cell, digit) && p == (c as int, d as int)
    {
      NodeInverse(node);
      OffEntry(f.off[..], f.on[..], f.dist, node);
      var c, d := CellOf(node), DigitOf(node);
      if f.off[node] >= 0 && Linked(c, d, cell, digit) {
        progress := s.Sweep(c, {d}, progress, m, gone);
        OnlyOne(c, d);
        gone := gone + Only(c, {d});
      }
    }
    assert gone == Gone(m, Chain(cell, digit), s.links);
  }

  /** The chain from one candidate: placed when proven, otherwise its eliminations. */
  method ChainFrom(s: Logic, table: seq<seq<int>>, cell: Cell, digit: Digit) returns (progress: bool)
    requires s.Shape() && Valid(s.M()) && BilocalTable(s.M(), table) && digit in s.M().candidates[cell]
    modifies s`consistent, s.values, s.candidates
    ensures if progress then Found(old(s.M()), s.M(), 8, s.links)
      else s.M() == old(s.M()) && !Progresses(s.M(), Chain(cell, digit), s.links)
  {
    hide EntryOf, Reach, Hits, Without, Gone, Sees, Stores, Layout, Valid, BilocalTable, Apply, Linked;
    ghost var m := s.M();
    var f := SearchFrom(s, table, cell, digit);
    if f.proven {
      PlacingProgresses(m, Chain(cell, digit), s.links);
      s.PlaceDigit(cell, digit);
      return true;
    }
    ClearingProgresses(m, Chain(cell, digit), s.links);
    progress := ClearLinked(s, f, cell, digit);
  }

  method AllChains(s: Logic) returns (progress: bool)
    requires s.Shape() && Valid(s.M())
    modifies s`consistent, s.values, s.candidates
    ensures if progress then Found(old(s.M()), s.M(), 8, s.links) else s.M() == old(s.M()) && NoneOf(s.M(), 8, s.links)
  {
    hide Apply, CellOf, DigitOf, NodeOf, Valid, BilocalTable;
    ghost var m := s.M();
    var table := ReadBilocal(s);
    for start := 0 to 729
      invariant s.M() == m
      invariant forall c: Cell, d: Digit :: NodeOf(c, d) < start ==> !Progresses(m, Chain(c, d), s.links)
    {
      NodeInverse(start);
      var cell, digit := CellOf(start), DigitOf(start);
      if digit in s.candidates[cell] {
        progress := ChainFrom(s, table, cell, digit);
        if progress { return true; }
      }
    }
    assert forall c: Cell, d: Digit :: NodeOf(c, d) < 729;
    return false;
  }
}
