/** The pencil-mark solver's techniques, shrinking the candidates in place. */
module LogicState {
  import opened Basics
  import opened Pigeonhole
  import opened Cells
  import opened Solutions
  import opened Marks
  import opened Deductions

  /** The lowest member of a mask: its digit, line or box when the mask has only one. */
  function Lowest(mask: set<int>, from: int): (x: int)
    requires mask != {} && forall x :: x in mask ==> from <= x <= 9
    ensures x in mask && forall y :: y in mask ==> x <= y
    decreases 10 - from
  {
    assert exists x :: x in mask by { var x := Member(mask); }
    if from in mask then from else Lowest(mask, from + 1)
  }

  /** A deduction of one kind took the state from m to after. */
  ghost predicate Found(m: State, after: State, kind: int, links: nat) {
    exists step: Step :: Kind(step) == kind && Progresses(m, step, links) && after == Apply(m, step, links)
  }

  /** No deduction of a kind progresses. */
  ghost predicate NoneOf(m: State, kind: int, links: nat) {
    forall step: Step :: Kind(step) == kind ==> !Progresses(m, step, links)
  }

  function Kind(step: Step): int {
    match step
    case NakedSingle(_, _) => 0
    case HiddenSingle(_, _, _) => 1
    case Locked(_, _, _) => 2
    case NakedSubset(_, _) => 3
    case HiddenSubset(_, _) => 4
    case Fish(_, _, _) => 5
    case XyWing(_, _, _) => 6
    case XyzWing(_, _, _) => 7
    case Chain(_, _) => 8
  }

  class Logic {
    const values: array<nat>
    const candidates: array<set<int>>
    const reference: Option<Grid>
    const links: nat
    var consistent: bool

    ghost predicate Shape()
    {
      values.Length == 81 && candidates.Length == 81
    }

    ghost function M(): (m: State)
      requires Shape()
      reads this`consistent, values, candidates
    {
      State(values[..], candidates[..], reference, consistent)
    }

    constructor (reference: Option<Grid>, links: nat)
      ensures Shape() && M() == State(seq(81, _ => 0), seq(81, _ => Digits()), reference, true)
      ensures this.links == links
      ensures fresh(values) && fresh(candidates)
    {
      values := new nat[81](_ => 0);
      candidates := new set<int>[81](_ => Digits());
      this.reference := reference;
      this.links := links;
      consistent := true;
      new;
      assert values[..] == seq(81, _ => 0);
      assert candidates[..] == seq(81, _ => Digits());
    }

    method PlaceDigit(cell: Cell, digit: Digit)
      requires Shape()
      modifies this`consistent, values, candidates
      ensures M() == Place(old(M()), cell, digit)
    {
      hide Sees;
      ghost var m := M();
      if reference.Some? && reference.value[cell] != digit { consistent := false; }
      values[cell] := digit;
      candidates[cell] := {};
      for peer := 0 to 81
        invariant values[..] == m.values[cell := digit]
        invariant consistent == Place(m, cell, digit).consistent
        invariant forall k: Cell ::
          candidates[k] == (if k == cell then {}
                            else if k < peer && Sees(cell, k) then m.candidates[k] - {digit}
                            else m.candidates[k])
      {
        if Sees(cell, peer) {
          SeesOther(cell, peer);
          candidates[peer] := candidates[peer] - {digit};
        }
      }
      SameMasks(candidates[..], Place(m, cell, digit).candidates);
      assert values[..] == Place(m, cell, digit).values;
    }

    method Eliminate(cell: Cell, digits: set<int>) returns (progress: bool)
      requires Shape()
      modifies this`consistent, candidates
      ensures M() == Without(old(M()), Only(cell, digits))
      ensures progress <==> Hits(old(M()), Only(cell, digits))
    {
      ghost var m := M();
      ghost var gone := Only(cell, digits);
      var mask := digits * candidates[cell];
      if mask == {} {
        assert forall d :: d in m.candidates[cell] && d in digits ==> d in mask;
        HitsChanges(m, gone);
        return false;
      }
      assert Hits(m, gone) by { var d := Member(mask); assert d in m.candidates[cell] && (cell, d) in gone; }
      if reference.Some? && reference.value[cell] in mask { consistent := false; }
      candidates[cell] := candidates[cell] - mask;
      forall c: Cell ensures candidates[..][c] == Without(m, gone).candidates[c] {
        assert forall d :: d in m.candidates[c] ==> ((c, d) in gone <==> c == cell && d in mask);
      }
      SameMasks(candidates[..], Without(m, gone).candidates);
      return true;
    }

    /** One more elimination of a sweep that has cleared `gone` from m so far. */
    method Sweep(cell: Cell, digits: set<int>, progress: bool, ghost m: State, ghost gone: set<Mark>)
        returns (now: bool)
      requires Shape() && M() == Without(m, gone) && (progress <==> Hits(m, gone))
      modifies this`consistent, candidates
      ensures M() == Without(m, gone + Only(cell, digits))
      ensures now <==> Hits(m, gone + Only(cell, digits))
    {
      var hit := Eliminate(cell, digits);
      WithoutTwice(m, gone, Only(cell, digits));
      HitsTwice(m, gone, Only(cell, digits));
      return progress || hit;
    }
  }

  lemma SeesOther(a: Cell, b: Cell)
    requires Sees(a, b)
    ensures a != b && Sees(b, a)
  {
  }
}
