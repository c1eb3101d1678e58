/** Pencil-mark states, the deductions that change them and why each keeps every completion. */
module Marks {
  import opened Basics
  import opened Cells
  import opened Solutions

  type Masks = m: seq<set<int>> | |m| == 81 witness seq(81, _ => {})

  /** Placed digits, remaining candidates, and whether every change so far agreed with the reference. */
  datatype State = State(values: Grid, candidates: Masks, reference: Option<Grid>, consistent: bool)

  type Mark = (int, int)

  /** One claim about a candidate: forced true when on, forced false when off. */
  datatype Claim = Claim(cell: Cell, digit: Digit, on: bool)

  ghost predicate Valid(m: State) {
    && (forall c: Cell :: m.values[c] <= 9 && m.candidates[c] <= Digits())
    && (forall c: Cell :: m.values[c] != 0 ==> m.candidates[c] == {})
    && (forall a: Cell, b: Cell :: Sees(a, b) && m.values[a] != 0 ==>
          m.values[a] !in m.candidates[b] && m.values[b] != m.values[a])
  }

  /** The solution agrees with every placed digit and is still pencilled in everywhere else. */
  ghost predicate Fits(m: State, s: Grid) {
    IsSolution(s) && forall c: Cell :: if m.values[c] != 0 then s[c] == m.values[c] else s[c] in m.candidates[c]
  }

  /** Places a digit and clears it from the cells that see it. */
  function Place(m: State, c: Cell, d: nat): State {
    State(m.values[c := d],
          seq(81, k requires 0 <= k < 81 =>
            if k == c then {} else if Sees(c, k) then m.candidates[k] - {d} else m.candidates[k]),
          m.reference,
          m.consistent && (m.reference.None? || m.reference.value[c] == d))
  }

  /** Clears a set of candidate marks. */
  ghost function Without(m: State, gone: set<Mark>): State {
    State(m.values,
          seq(81, k requires 0 <= k < 81 => set d | d in m.candidates[k] && (k, d) !in gone),
          m.reference,
          m.consistent && !Contradicts(m, gone))
  }

  ghost predicate Contradicts(m: State, gone: set<Mark>) {
    m.reference.Some? && exists c: Cell ::
      m.reference.value[c] as int in m.candidates[c] && (c, m.reference.value[c] as int) in gone
  }

  lemma PlaceKeepsValid(m: State, c: Cell, d: nat)
    requires Valid(m) && d in m.candidates[c]
    ensures Valid(Place(m, c, d))
  {
  }

  lemma PlaceKeepsFit(m: State, c: Cell, d: nat, s: Grid)
    requires Fits(m, s) && s[c] == d && d != 0
    ensures Fits(Place(m, c, d), s)
    ensures m.reference == Some(s) ==> Place(m, c, d).consistent == m.consistent
  {
  }

  lemma WithoutKeepsValid(m: State, gone: set<Mark>)
    requires Valid(m)
    ensures Valid(Without(m, gone))
  {
  }

  lemma WithoutKeepsFit(m: State, gone: set<Mark>, s: Grid)
    requires Fits(m, s) && forall c: Cell :: (c, s[c] as int) !in gone
    ensures Fits(Without(m, gone), s)
    ensures m.reference == Some(s) ==> Without(m, gone).consistent == m.consistent
  {
  }

  lemma SameMasks(a: Masks, b: Masks)
    requires forall c: Cell :: a[c] == b[c]
    ensures a == b
  {
  }

  lemma WithoutNothing(m: State, gone: set<Mark>)
    requires forall c: Cell, d :: d in m.candidates[c] ==> (c, d) !in gone
    ensures Without(m, gone) == m
  {
    forall c: Cell ensures Without(m, gone).candidates[c] == m.candidates[c] {
      assert forall d :: d in m.candidates[c] ==> (c, d) !in gone;
    }
    SameMasks(Without(m, gone).candidates, m.candidates);
  }

  lemma WithoutTwice(m: State, a: set<Mark>, b: set<Mark>)
    ensures Without(Without(m, a), b) == Without(m, a + b)
  {
    SameMasks(Without(Without(m, a), b).candidates, Without(m, a + b).candidates);
    assert Contradicts(m, a + b) <==> Contradicts(m, a) || Contradicts(Without(m, a), b) by {
      if Contradicts(m, a + b) {
        var c: Cell :| m.reference.value[c] as int in m.candidates[c] && (c, m.reference.value[c] as int) in a + b;
      }
    }
  }

  /** Some mark to clear is still pencilled in. */
  ghost predicate Hits(m: State, gone: set<Mark>) {
    exists c: Cell, d :: d in m.candidates[c] && (c, d) in gone
  }

  lemma HitsChanges(m: State, gone: set<Mark>)
    ensures Hits(m, gone) <==> Without(m, gone) != m
  {
    if Hits(m, gone) {
      var c: Cell, d :| d in m.candidates[c] && (c, d) in gone;
      assert d !in Without(m, gone).candidates[c];
    } else {
      WithoutNothing(m, gone);
    }
  }

  lemma HitsTwice(m: State, a: set<Mark>, b: set<Mark>)
    ensures Hits(m, a + b) <==> Hits(m, a) || Hits(Without(m, a), b)
  {
  }

  /** The marks of some digits in one cell. */
  ghost function Only(c: Cell, mask: set<int>): set<Mark> {
    set d | d in mask :: (c as int, d)
  }
}
