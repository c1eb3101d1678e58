/** Naked and hidden subsets of two to four cells. */
module Subsets {
  import opened Cells
  import opened Solutions
  import opened Marks
  import opened Deductions
  import opened LogicState
  import opened Combinations
  import opened Singles

  /** The candidates of a unit's nine cells. */
  ghost function UnitMasks(m: State, u: Unit): (r: seq<set<int>>)
    ensures |r| == 9 && forall i: Position :: r[i] == m.candidates[At(u, i)]
  {
    seq(9, i requires 0 <= i < 9 => m.candidates[At(u, i)])
  }

  method ReadUnit(s: Logic, unit: Unit) returns (masks: seq<set<int>>)
    requires s.Shape()
    ensures masks == UnitMasks(s.M(), unit)
  {
    hide At;
    masks := [];
    for i := 0 to 9
      invariant |masks| == i && forall k: Position :: k < i ==> masks[k] == s.candidates[At(unit, k)]
    {
      masks := masks + [s.candidates[At(unit, i)]];
    }
  }

  lemma UnionIsDigits(m: State, u: Unit, places: set<int>)
    ensures Union(UnitMasks(m, u), places) == DigitsAt(m, u, places)
  {
  }

  /** When a set of places of the right size is a naked subset. */
  lemma NakedApplies(m: State, u: Unit, places: set<int>)
    requires places <= Positions() && 2 <= |places| <= 4
    ensures Applies(m, NakedSubset(u, places)) <==>
      && (forall k :: 0 <= k < 9 && k in places ==> UnitMasks(m, u)[k] != {})
      && |Union(UnitMasks(m, u), places)| == |places|
  {
    hide At, DigitsAt, Union;
    UnionIsDigits(m, u, places);
    assert forall i: Position :: UnitMasks(m, u)[i] == m.candidates[At(u, i)];
  }

  /** Clears digits from the chosen places of a unit. */
  method ClearAt(s: Logic, unit: Unit, places: set<int>, digits: set<int>)
      returns (progress: bool, ghost gone: set<Mark>)
    requires s.Shape()
    modifies s`consistent, s.candidates
    ensures s.M() == Without(old(s.M()), gone) && (progress <==> Hits(old(s.M()), gone))
    ensures forall p :: p in gone <==>
      exists k: Position, d :: k in places && d in digits && p == (At(unit, k) as int, d)
  {
    hide Without, Hits, At;
    ghost var m := s.M();
    gone, progress := {}, false;
    WithoutEmpty(m);
    for i := 0 to 9
      invariant s.M() == Without(m, gone) && (progress <==> Hits(m, gone))
      invariant forall p :: p in gone <==>
        exists k: Position, d :: k < i && k in places && d in digits && p == (At(unit, k) as int, d)
    {
      if i in places {
        var cell := At(unit, i);
        progress := s.Sweep(cell, digits, progress, m, gone);
        gone := gone + Only(cell, digits);
      }
    }
  }

  lemma NakedGone(m: State, u: Unit, places: set<int>, digits: set<int>, gone: set<Mark>, links: nat)
    requires Valid(m) && digits == DigitsAt(m, u, places)
    requires forall p :: p in gone <==>
      exists k: Position, d :: k in Positions() - places && d in digits && p == (At(u, k) as int, d)
    ensures gone == Gone(m, NakedSubset(u, places), links)
  {
  }

  method NakedSubsets(s: Logic, unit: Unit, size: nat) returns (progress: bool)
    requires s.Shape() && Valid(s.M()) && 2 <= size <= 4
    modifies s`consistent, s.values, s.candidates
    ensures if progress then Found(old(s.M()), s.M(), 3, s.links)
      else s.M() == old(s.M()) && forall places: set<int> :: |places| == size ==>
        !Progresses(s.M(), NakedSubset(unit, places), s.links)
  {
    hide Applies, Gone, Without, Hits, Apply, Union, At, Members, DigitsAt, Valid;
    ghost var m := s.M();
    var masks := ReadUnit(s, unit);
    for combination := 0 to 512
      invariant s.M() == m
      invariant forall n: nat :: n < combination && |Members(n)| == size ==>
        !Progresses(m, NakedSubset(unit, Members(n)), s.links)
    {
      var places := Members(combination);
      if |places| == size {
        NineBits();
        MembersBelow(combination, 9);
        NakedApplies(m, unit, places);
        var valid, digits := Join(masks, places);
        if valid && |digits| == size {
          UnionIsDigits(m, unit, places);
          ghost var gone;
          progress, gone := ClearAt(s, unit, Positions() - places, digits);
          NakedGone(m, unit, places, digits, gone, s.links);
          ClearingProgresses(m, NakedSubset(unit, places), s.links);
          if progress { return true; }
        }
      }
    }
    forall places: set<int> | |places| == size ensures !Progresses(m, NakedSubset(unit, places), s.links) {
      NakedInRange(m, unit, places, s.links);
      if places <= Positions() {
        NineBits();
        var n := NumberOf(places, 9);
      }
    }
    return false;
  }

  lemma NakedInRange(m: State, u: Unit, places: set<int>, links: nat)
    ensures Progresses(m, NakedSubset(u, places), links) ==> places <= Positions()
  {
  }

  /** The places of each digit in a unit, indexed by digit. */
  method SpotTable(s: Logic, unit: Unit) returns (table: seq<set<int>>)
    requires s.Shape()
    ensures |table| == 10 && table[0] == {} && forall d: Digit :: table[d] == Spots(s.M(), unit, d)
  {
    hide At;
    ghost var m := s.M();
    var positions := new set<int>[10](_ => {});
    for i := 0 to 9
      invariant s.M() == m && fresh(positions) && positions[0] == {}
      invariant forall d: Digit :: positions[d] == SpotsBelow(m, unit, d, i)
    {
      for digit := 1 to 10
        invariant s.M() == m && positions[0] == {}
        invariant forall d: Digit :: positions[d] == SpotsBelow(m, unit, d, if d < digit then i + 1 else i)
      {
        SpotsOneMore(m, unit, digit, i);
        if digit in s.candidates[At(unit, i)] { positions[digit] := positions[digit] + {i}; }
      }
    }
    return positions[..];
  }

  ghost function SpotsBelow(m: State, u: Unit, d: int, n: nat): set<int> {
    set i: Position | i < n && d in m.candidates[At(u, i)]
  }

  lemma SpotsOneMore(m: State, u: Unit, d: Digit, i: Position)
    ensures SpotsBelow(m, u, d, i + 1) == SpotsBelow(m, u, d, i) + if d in m.candidates[At(u, i)] then {i as int}
      else {}
  {
  }

  function Digit1(bits: set<int>): set<int> {
    set x | x in bits :: x + 1
  }

  lemma UnionIsPositions(m: State, u: Unit, table: seq<set<int>>, digits: set<int>)
    requires |table| == 10 && table[0] == {} && forall d: Digit :: table[d] == Spots(m, u, d)
    requires digits <= Digits()
    ensures Union(table, digits) == PositionsOf(m, u, digits)
  {
    hide At;
    forall i | i in PositionsOf(m, u, digits) ensures i in Union(table, digits) {
      var p: Position, d :| p == i && d in digits && d in m.candidates[At(u, p)];
      var digit: Digit := d;
      assert p in table[digit];
    }
    forall i | i in Union(table, digits) ensures i in PositionsOf(m, u, digits) {
      var k :| k in digits && 0 <= k < |table| && i in table[k];
      var digit: Digit := k;
      assert i in Spots(m, u, digit);
    }
  }

  lemma HiddenApplies(m: State, u: Unit, table: seq<set<int>>, digits: set<int>)
    requires |table| == 10 && table[0] == {} && forall d: Digit :: table[d] == Spots(m, u, d)
    requires digits <= Digits() && 2 <= |digits| <= 4
    ensures Applies(m, HiddenSubset(u, digits)) <==>
      && (forall k :: 0 <= k < 10 && k in digits ==> table[k] != {})
      && |Union(table, digits)| == |digits|
  {
    hide At, Spots, Union, PositionsOf;
    UnionIsPositions(m, u, table, digits);
  }

  lemma HiddenGone(m: State, u: Unit, digits: set<int>, gone: set<Mark>, links: nat)
    requires forall p :: p in gone <==>
      exists k: Position, d :: k in PositionsOf(m, u, digits) && d in Digits() - digits && p == (At(u, k) as int, d)
    ensures gone == Gone(m, HiddenSubset(u, digits), links)
  {
    hide At, Sees, PositionsOf;
    var all := Gone(m, HiddenSubset(u, digits), links);
    forall p | p in gone ensures p in all {
      var k: Position, d :| k in PositionsOf(m, u, digits) && d in Digits() - digits && p == (At(u, k) as int, d);
      var digit: Digit := d;
    }
    forall p | p in all ensures p in gone {
      var k: Position, d: Digit :| k in PositionsOf(m, u, digits) && d !in digits && p == (At(u, k) as int, d as int);
      assert d in Digits() - digits;
    }
  }

  method HiddenSubsets(s: Logic, unit: Unit, size: nat) returns (progress: bool)
    requires s.Shape() && Valid(s.M()) && 2 <= size <= 4
    modifies s`consistent, s.values, s.candidates
    ensures if progress then Found(old(s.M()), s.M(), 4, s.links)
      else s.M() == old(s.M()) && forall digits: set<int> :: |digits| == size ==>
        !Progresses(s.M(), HiddenSubset(unit, digits), s.links)
  {
    hide Applies, Gone, Without, Hits, Apply, Union, At, Members, PositionsOf, Spots, Valid, Digit1;
    ghost var m := s.M();
    var table := SpotTable(s, unit);
    for combination := 0 to 512
      invariant s.M() == m
      invariant forall n: nat :: n < combination && |Digit1(Members(n))| == size ==>
        !Progresses(m, HiddenSubset(unit, Digit1(Members(n))), s.links)
    {
      var digits := Digit1(Members(combination));
      if |digits| == size {
        NineBits();
        MembersBelow(combination, 9);
        DigitsOfBits(Members(combination));
        HiddenApplies(m, unit, table, digits);
        var valid, cells := Join(table, digits);
        if valid && |cells| == size {
          UnionIsPositions(m, unit, table, digits);
          ghost var gone;
          progress, gone := ClearAt(s, unit, cells, Digits() - digits);
          HiddenGone(m, unit, digits, gone, s.links);
          ClearingProgresses(m, HiddenSubset(unit, digits), s.links);
          if progress { return true; }
        }
      }
    }
    forall digits: set<int> | |digits| == size ensures !Progresses(m, HiddenSubset(unit, digits), s.links) {
      HiddenInRange(m, unit, digits, s.links);
      if digits <= Digits() {
        NineBits();
        BitsOfDigits(digits);
        var n := NumberOf(Lower(digits), 9);
      }
    }
    return false;
  }

  lemma DigitsOfBits(bits: set<int>)
    requires forall x :: x in bits ==> 0 <= x < 9
    ensures Digit1(bits) <= Digits()
  {
  }

  lemma BitsOfDigits(digits: set<int>)
    requires digits <= Digits()
    ensures forall x :: x in Lower(digits) ==> 0 <= x < 9
    ensures Digit1(Lower(digits)) == digits
  {
    forall d | d in digits ensures d in Digit1(Lower(digits)) { assert d - 1 in Lower(digits); }
  }

  lemma HiddenInRange(m: State, u: Unit, digits: set<int>, links: nat)
    ensures Progresses(m, HiddenSubset(u, digits), links) ==> digits <= Digits()
  {
  }

  /** Subsets of every size in every unit, naked before hidden. */
  method AllSubsets(s: Logic) returns (progress: bool)
    requires s.Shape() && Valid(s.M())
    modifies s`consistent, s.values, s.candidates
    ensures if progress then Found(old(s.M()), s.M(), 3, s.links) || Found(old(s.M()), s.M(), 4, s.links)
      else s.M() == old(s.M()) && NoneOf(s.M(), 3, s.links) && NoneOf(s.M(), 4, s.links)
  {
    hide Applies, Apply, Valid, Progresses;
    ghost var m := s.M();
    for size := 2 to 5
      invariant s.M() == m
      invariant forall u: Unit, places: set<int> :: 2 <= |places| < size ==>
        !Progresses(m, NakedSubset(u, places), s.links)
      invariant forall u: Unit, digits: set<int> :: 2 <= |digits| < size ==>
        !Progresses(m, HiddenSubset(u, digits), s.links)
    {
      for unit := 0 to 27
        invariant s.M() == m
        invariant forall u: Unit, places: set<int> :: u < unit && |places| == size ==>
          !Progresses(m, NakedSubset(u, places), s.links)
        invariant forall u: Unit, digits: set<int> :: u < unit && |digits| == size ==>
          !Progresses(m, HiddenSubset(u, digits), s.links)
      {
        progress := NakedSubsets(s, unit, size);
        if progress { return true; }
        progress := HiddenSubsets(s, unit, size);
        if progress { return true; }
      }
    }
    SubsetSizes(m, s.links);
    return false;
  }

  lemma SubsetSizes(m: State, links: nat)
    ensures forall step: Step :: step.NakedSubset? && Progresses(m, step, links) ==> 2 <= |step.places| <= 4
    ensures forall step: Step :: step.HiddenSubset? && Progresses(m, step, links) ==> 2 <= |step.digits| <= 4
  {
  }
}
