/** Fish and the XY and XYZ wings. */
module FishAndWings {
  import opened Basics
  import opened Cells
  import opened Solutions
  import opened Marks
  import opened Deductions
  import opened LogicState
  import opened Combinations
  import opened Singles

  /** For each line, the crossing lines where the digit is a candidate. */
  method LineTable(s: Logic, digit: Digit, byRows: bool) returns (lines: seq<set<int>>)
    requires s.Shape()
    ensures |lines| == 9 && forall l: Position :: lines[l] == Spots(s.M(), Line(byRows, l), digit)
  {
    hide Spots, Line;
    lines := [];
    for line := 0 to 9
      invariant |lines| == line && forall l: Position :: l < line ==> lines[l] == Spots(s.M(), Line(byRows, l), digit)
    {
      var spots := LineSpots(s, digit, byRows, line);
      lines := lines + [spots];
    }
  }

  method LineSpots(s: Logic, digit: Digit, byRows: bool, line: Position) returns (spots: set<int>)
    requires s.Shape()
    ensures spots == Spots(s.M(), Line(byRows, line), digit)
  {
    hide At, Line;
    spots := {};
    ghost var m := s.M();
    for position := 0 to 9
      invariant s.M() == m
      invariant spots == set i: Position | i < position && digit in m.candidates[At(Line(byRows, line), i)]
    {
      FishCell(byRows, line, position);
      var cell := if byRows then line * 9 + position else position * 9 + line;
      if digit in s.candidates[cell] { spots := spots + {position}; }
    }
    assert spots == Spots(m, Line(byRows, line), digit);
  }

  lemma FishCell(byRows: bool, line: Position, position: Position)
    ensures At(Line(byRows, line), position) == if byRows then line * 9 + position else position * 9 + line
  {
  }

  lemma UnionIsCover(m: State, d: Digit, byRows: bool, table: seq<set<int>>, lines: set<int>)
    requires |table| == 9 && forall l: Position :: table[l] == Spots(m, Line(byRows, l), d)
    ensures Union(table, lines) == Cover(m, d, byRows, lines)
  {
  }

  lemma FishApplies(m: State, d: Digit, byRows: bool, table: seq<set<int>>, lines: set<int>)
    requires |table| == 9 && forall l: Position :: table[l] == Spots(m, Line(byRows, l), d)
    requires lines <= Positions() && 2 <= |lines| <= 4
    ensures Applies(m, Fish(d, byRows, lines)) <==>
      && (forall k :: 0 <= k < 9 && k in lines ==> table[k] != {})
      && |Union(table, lines)| == |lines|
  {
    hide Spots, Line, Cover, Union;
    UnionIsCover(m, d, byRows, table, lines);
  }

  /** Clears a digit from the covered positions of every other line. */
  method ClearFish(s: Logic, digit: Digit, byRows: bool, lines: set<int>, cover: set<int>)
    returns (progress: bool, ghost gone: set<Mark>)
    requires s.Shape()
    modifies s`consistent, s.candidates
    ensures s.M() == Without(old(s.M()), gone) && (progress <==> Hits(old(s.M()), gone))
    ensures forall p :: p in gone <==> exists l: Position, i: Position ::
      l !in lines && i in cover && p == (At(Line(byRows, l), i) as int, digit as int)
  {
    hide Without, Hits, At, Only, Line;
    ghost var m := s.M();
    gone, progress := {}, false;
    WithoutEmpty(m);
    for line := 0 to 9
      invariant s.M() == Without(m, gone) && (progress <==> Hits(m, gone))
      invariant forall p :: p in gone <==> exists l: Position, i: Position ::
        l < line && l !in lines && i in cover && p == (At(Line(byRows, l), i) as int, digit as int)
    {
      if line !in lines {
        ghost var more;
        progress, more := ClearLine(s, digit, byRows, line, cover, progress, m, gone);
        gone := more;
      }
    }
  }

  method ClearLine(s: Logic, digit: Digit, byRows: bool, line: Position, cover: set<int>,
                   before: bool, ghost m: State, ghost gone: set<Mark>)
    returns (progress: bool, ghost more: set<Mark>)
    requires s.Shape() && s.M() == Without(m, gone) && (before <==> Hits(m, gone))
    modifies s`consistent, s.candidates
    ensures s.M() == Without(m, more) && (progress <==> Hits(m, more))
    ensures forall p :: p in more <==>
      p in gone || exists i: Position :: i in cover && p == (At(Line(byRows, line), i) as int, digit as int)
  {
    hide Without, Hits, At, Only, Line;
    progress, more := before, gone;
    for position := 0 to 9
      invariant s.M() == Without(m, more) && (progress <==> Hits(m, more))
      invariant forall p :: p in more <==> p in gone || exists i: Position ::
        i < position && i in cover && p == (At(Line(byRows, line), i) as int, digit as int)
    {
      if position in cover {
        FishCell(byRows, line, position);
        var cell := if byRows then line * 9 + position else position * 9 + line;
        progress := s.Sweep(cell, {digit}, progress, m, more);
        OnlyOne(cell, digit);
        more := more + Only(cell, {digit});
      }
    }
  }

  lemma FishGone(m: State, d: Digit, byRows: bool, lines: set<int>, cover: set<int>, gone: set<Mark>, links: nat)
    requires cover == Cover(m, d, byRows, lines)
    requires forall p :: p in gone <==> exists l: Position, i: Position ::
      l !in lines && i in cover && p == (At(Line(byRows, l), i) as int, d as int)
    ensures gone == Gone(m, Fish(d, byRows, lines), links)
  {
  }

  /** Fish of one size for one digit in one direction. */
  method FishOf(s: Logic, size: nat, digit: Digit, byRows: bool) returns (progress: bool)
    requires s.Shape() && Valid(s.M()) && 2 <= size <= 4
    modifies s`consistent, s.values, s.candidates
    ensures if progress then Found(old(s.M()), s.M(), 5, s.links)
      else s.M() == old(s.M()) && forall lines: set<int> :: |lines| == size ==>
        !Progresses(s.M(), Fish(digit, byRows, lines), s.links)
  {
    hide Applies, Gone, Without, Hits, Apply, Union, At, Members, Cover, Spots, Valid, Line;
    ghost var m := s.M();
    var table := LineTable(s, digit, byRows);
    for combination := 0 to 512
      invariant s.M() == m
      invariant forall n: nat :: n < combination && |Members(n)| == size ==>
        !Progresses(m, Fish(digit, byRows, Members(n)), s.links)
    {
      var lines := Members(combination);
      if |lines| == size {
        NineBits();
        MembersBelow(combination, 9);
        FishApplies(m, digit, byRows, table, lines);
        var valid, cover := Join(table, lines);
        if valid && |cover| == size {
          UnionIsCover(m, digit, byRows, table, lines);
          ghost var gone;
          progress, gone := ClearFish(s, digit, byRows, lines, cover);
          FishGone(m, digit, byRows, lines, cover, gone, s.links);
          ClearingProgresses(m, Fish(digit, byRows, lines), s.links);
          if progress { return true; }
        }
      }
    }
    forall lines: set<int> | |lines| == size ensures !Progresses(m, Fish(digit, byRows, lines), s.links) {
      FishInRange(m, digit, byRows, lines, s.links);
      if lines <= Positions() {
        NineBits();
        var n := NumberOf(lines, 9);
      }
    }
    return false;
  }

  lemma FishInRange(m: State, d: Digit, byRows: bool, lines: set<int>, links: nat)
    ensures Progresses(m, Fish(d, byRows, lines), links) ==> lines <= Positions() && 2 <= |lines| <= 4
  {
  }

  /** X-wings, swordfish and jellyfish in rows and columns. */
  method AllFish(s: Logic) returns (progress: bool)
    requires s.Shape() && Valid(s.M())
    modifies s`consistent, s.values, s.candidates
    ensures if progress then Found(old(s.M()), s.M(), 5, s.links) else s.M() == old(s.M()) && NoneOf(s.M(), 5, s.links)
  {
    hide Applies, Apply, Valid, Progresses;
    ghost var m := s.M();
    for size := 2 to 5
      invariant s.M() == m
      invariant forall d: Digit, byRows: bool, lines: set<int> ::
        2 <= |lines| < size ==> !Progresses(m, Fish(d, byRows, lines), s.links)
    {
      for digit := 1 to 10
        invariant s.M() == m
        invariant forall d: Digit, byRows: bool, lines: set<int> ::
          d < digit && |lines| == size ==> !Progresses(m, Fish(d, byRows, lines), s.links)
      {
        progress := FishOf(s, size, digit, true);
        if progress { return true; }
        progress := FishOf(s, size, digit, false);
        if progress { return true; }
      }
    }
    forall step: Step | Kind(step) == 5 ensures !Progresses(m, step, s.links) {
      FishInRange(m, step.digit, step.byRows, step.lines, s.links);
    }
    return false;
  }

  /** Clears digits from the cells that see a and b, and the pivot too when it is given. */
  method ClearSeeing(s: Logic, a: Cell, b: Cell, pivot: Option<Cell>, digits: set<int>)
    returns (progress: bool, ghost gone: set<Mark>)
    requires s.Shape()
    modifies s`consistent, s.candidates
    ensures s.M() == Without(old(s.M()), gone) && (progress <==> Hits(old(s.M()), gone))
    ensures forall p :: p in gone <==> exists c: Cell, d ::
      Sees(a, c) && Sees(c, b) && (pivot.None? || Sees(pivot.value, c)) && d in digits && p == (c as int, d)
  {
    hide Without, Hits, Sees;
    ghost var m := s.M();
    gone, progress := {}, false;
    WithoutEmpty(m);
    for cell := 0 to 81
      invariant s.M() == Without(m, gone) && (progress <==> Hits(m, gone))
      invariant forall p :: p in gone <==> exists c: Cell, d ::
        c < cell && Sees(a, c) && Sees(c, b) && (pivot.None? || Sees(pivot.value, c)) && d in digits &&
          p == (c as int, d)
    {
      if Sees(a, cell) && Sees(cell, b) && (pivot.None? || Sees(pivot.value, cell)) {
        progress := s.Sweep(cell, digits, progress, m, gone);
        gone := gone + Only(cell, digits);
      }
    }
  }

  lemma WingGone(m: State, step: Step, digits: set<int>, gone: set<Mark>, links: nat)
    requires Valid(m)
    requires step.XyWing? && digits == m.candidates[step.a] - m.candidates[step.pivot]
    requires forall p :: p in gone <==> exists c: Cell, d ::
      Sees(step.a, c) && Sees(c, step.b) && d in digits && p == (c as int, d)
    ensures gone == Gone(m, step, links)
  {
  }

  /** Every XY-wing with one pivot and first wing. */
  method XyWingsOf(s: Logic, pivot: Cell, a: Cell) returns (progress: bool)
    requires s.Shape() && Valid(s.M()) && Sees(pivot, a)
    requires var pair, first := s.M().candidates[pivot], s.M().candidates[a];
      |pair| == 2 && |first| == 2 && |first * pair| == 1
    modifies s`consistent, s.values, s.candidates
    ensures if progress then Found(old(s.M()), s.M(), 6, s.links)
      else s.M() == old(s.M()) && forall b: Cell :: !Progresses(s.M(), Step.XyWing(pivot, a, b), s.links)
  {
    hide Gone, Without, Hits, Apply, Sees;
    ghost var m := s.M();
    var pair, first := s.candidates[pivot], s.candidates[a];
    var z := first - pair;
    var second := (pair - first) + z;
    for b := 0 to 81
      invariant s.M() == m
      invariant forall k: Cell :: k < b ==> !Progresses(m, Step.XyWing(pivot, a, k), s.links)
    {
      if Sees(pivot, b) && b != a && s.candidates[b] == second {
        ghost var gone;
        progress, gone := ClearSeeing(s, a, b, None, z);
        WingGone(m, Step.XyWing(pivot, a, b), z, gone, s.links);
        ClearingProgresses(m, Step.XyWing(pivot, a, b), s.links);
        if progress { return true; }
      }
    }
    return false;
  }

  /** The cells of a wing that the loops look for first. */
  lemma WingStarts(m: State, links: nat)
    ensures forall k: Cell, a: Cell, b: Cell :: Progresses(m, Step.XyWing(k, a, b), links) ==>
      Sees(k, a) && |m.candidates[k]| == 2 && |m.candidates[a]| == 2 && |m.candidates[a] * m.candidates[k]| == 1
    ensures forall k: Cell, a: Cell, b: Cell :: Progresses(m, Step.XyzWing(k, a, b), links) ==>
      Sees(k, a) && |m.candidates[k]| == 3 && |m.candidates[a]| == 2 && m.candidates[a] <= m.candidates[k]
  {
    hide Apply, Sees;
  }

  method XyWing(s: Logic) returns (progress: bool)
    requires s.Shape() && Valid(s.M())
    modifies s`consistent, s.values, s.candidates
    ensures if progress then Found(old(s.M()), s.M(), 6, s.links) else s.M() == old(s.M()) && NoneOf(s.M(), 6, s.links)
  {
    hide Valid, Sees, Progresses;
    ghost var m := s.M();
    WingStarts(m, s.links);
    for pivot := 0 to 81
      invariant s.M() == m
      invariant forall k: Cell, a: Cell, b: Cell :: k < pivot ==> !Progresses(m, Step.XyWing(k, a, b), s.links)
    {
      var pair := s.candidates[pivot];
      if |pair| == 2 {
        for a := 0 to 81
          invariant s.M() == m
          invariant forall k: Cell, b: Cell :: k < a ==> !Progresses(m, Step.XyWing(pivot, k, b), s.links)
        {
          var first := s.candidates[a];
          if Sees(pivot, a) && |first| == 2 && |first * pair| == 1 {
            progress := XyWingsOf(s, pivot, a);
            if progress { return true; }
          }
        }
      }
    }
    return false;
  }

  lemma XyzGone(m: State, step: Step, digits: set<int>, gone: set<Mark>, links: nat)
    requires Valid(m)
    requires step.XyzWing? && digits == m.candidates[step.a] * m.candidates[step.b]
    requires forall p :: p in gone <==> exists c: Cell, d ::
      Sees(step.a, c) && Sees(c, step.b) && Sees(step.pivot, c) && d in digits && p == (c as int, d)
    ensures gone == Gone(m, step, links)
  {
  }

  lemma SeesBothWays()
    ensures forall a: Cell, b: Cell :: Sees(a, b) <==> Sees(b, a)
  {
  }

  method XyzWingsOf(s: Logic, pivot: Cell, a: Cell) returns (progress: bool)
    requires s.Shape() && Valid(s.M()) && Sees(pivot, a)
    requires var triple, first := s.M().candidates[pivot], s.M().candidates[a];
      |triple| == 3 && |first| == 2 && first <= triple
    modifies s`consistent, s.values, s.candidates
    ensures if progress then Found(old(s.M()), s.M(), 7, s.links)
      else s.M() == old(s.M()) && forall b: Cell :: !Progresses(s.M(), Step.XyzWing(pivot, a, b), s.links)
  {
    hide Gone, Without, Hits, Apply, Sees;
    ghost var m := s.M();
    var triple, first := s.candidates[pivot], s.candidates[a];
    for b := 0 to 81
      invariant s.M() == m
      invariant forall k: Cell :: k < b ==> !Progresses(m, Step.XyzWing(pivot, a, k), s.links)
    {
      var second := s.candidates[b];
      if Sees(pivot, b) && b != a && |second| == 2 && second <= triple && first != second && first + second == triple {
        var z := first * second;
        ghost var gone;
        progress, gone := ClearSeeing(s, a, b, Some(pivot), z);
        XyzGone(m, Step.XyzWing(pivot, a, b), z, gone, s.links);
        ClearingProgresses(m, Step.XyzWing(pivot, a, b), s.links);
        if progress { return true; }
      }
    }
    return false;
  }

  method XyzWing(s: Logic) returns (progress: bool)
    requires s.Shape() && Valid(s.M())
    modifies s`consistent, s.values, s.candidates
    ensures if progress then Found(old(s.M()), s.M(), 7, s.links) else s.M() == old(s.M()) && NoneOf(s.M(), 7, s.links)
  {
    hide Valid, Sees, Progresses;
    ghost var m := s.M();
    WingStarts(m, s.links);
    for pivot := 0 to 81
      invariant s.M() == m
      invariant forall k: Cell, a: Cell, b: Cell :: k < pivot ==> !Progresses(m, Step.XyzWing(k, a, b), s.links)
    {
      var triple := s.candidates[pivot];
      if |triple| == 3 {
        for a := 0 to 81
          invariant s.M() == m
          invariant forall k: Cell, b: Cell :: k < a ==> !Progresses(m, Step.XyzWing(pivot, k, b), s.links)
        {
          var first := s.candidates[a];
          if Sees(pivot, a) && |first| == 2 && first <= triple {
            progress := XyzWingsOf(s, pivot, a);
            if progress { return true; }
          }
        }
      }
    }
    return false;
  }
}
