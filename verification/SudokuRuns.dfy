/** Whole runs of the human-style solver, from the givens to the rating. */
module Runs {
  import opened Basics
  import opened Cells
  import opened Solutions
  import opened SearchSpace
  import opened Marks
  import opened Deductions
  import opened Soundness

  /** The state with exactly the givens placed. */
  ghost function Start(g: Grid, reference: Option<Grid>): State {
    State(g,
          seq(81, c requires 0 <= c < 81 => if g[c] != 0 then {} else set d: Digit | !SeesDigit(g, c, d) :: d as int),
          reference,
          reference.None? || forall c: Cell :: g[c] != 0 ==> reference.value[c] == g[c])
  }

  predicate SeesDigit(g: Grid, c: Cell, d: int) {
    exists k: Cell :: Sees(k, c) && g[k] == d
  }

  lemma StartValid(g: Grid, reference: Option<Grid>)
    requires Consistent(g)
    ensures Valid(Start(g, reference))
  {
  }

  /** Completions of the givens are exactly the solutions fitting the start. */
  lemma StartFits(g: Grid, reference: Option<Grid>, s: Grid)
    requires Consistent(g)
    ensures Completes(g, s) <==> Fits(Start(g, reference), s)
  {
    var m := Start(g, reference);
    if Completes(g, s) {
      forall c: Cell ensures if m.values[c] != 0 then s[c] == m.values[c] else s[c] as int in m.candidates[c] {
        if m.values[c] == 0 {
          var d: Digit := s[c];
          forall k: Cell | Sees(k, c) ensures g[k] != d { assert s[k] != s[c]; }
          assert !SeesDigit(g, c, d);
        }
      }
    }
    if Fits(m, s) {
      forall c: Cell | g[c] != 0 ensures s[c] == g[c] { assert m.values[c] == g[c]; }
    }
  }

  lemma StartOneMore(g: Grid, reference: Option<Grid>, c: Cell, d: Digit)
    requires g[c] == 0
    ensures Place(Start(g, reference), c, d) == Start(g[c := d], reference)
  {
    var h := g[c := d];
    var p, q := Place(Start(g, reference), c, d), Start(h, reference);
    forall k: Cell ensures p.candidates[k] == q.candidates[k] {
      if k != c && g[k] == 0 {
        forall x: Digit ensures SeesDigit(h, k, x) <==> SeesDigit(g, k, x) || (x == d && Sees(c, k)) {
          if SeesDigit(g, k, x) { var j: Cell :| Sees(j, k) && g[j] == x; assert h[j] == x; }
          if SeesDigit(h, k, x) { var j: Cell :| Sees(j, k) && h[j] == x; if j != c { assert g[j] == x; } }
          if x == d && Sees(c, k) { assert h[c] == x; }
        }
      }
    }
    SameMasks(p.candidates, q.candidates);
    assert p.consistent == q.consistent by {
      if reference.Some? {
        assert forall k: Cell :: h[k] == if k == c then d as nat else g[k];
        if p.consistent { assert q.consistent; }
        if q.consistent { assert h[c] == d; assert forall k: Cell :: g[k] != 0 ==> h[k] == g[k]; }
      }
    }
  }

  /** The state after a run of steps. */
  ghost function After(m: State, steps: seq<Step>, links: nat): State {
    if steps == [] then m
    else Apply(After(m, steps[..|steps| - 1], links), steps[|steps| - 1], links)
  }

  /** The step progresses and nothing easier does. */
  ghost predicate Easiest(m: State, step: Step, links: nat) {
    Progresses(m, step, links) && forall other: Step :: Level(other) < Level(step) ==> !Progresses(m, other, links)
  }

  /** Every step of the run was an easiest one when it was taken. */
  ghost predicate Run(m: State, steps: seq<Step>, links: nat) {
    steps == [] || var before := steps[..|steps| - 1];
      Run(m, before, links) && Easiest(After(m, before, links), steps[|steps| - 1], links)
  }

  ghost predicate Complete(m: State) {
    forall c: Cell :: m.values[c] != 0
  }

  /** A cell without digit or candidates. */
  ghost predicate Dead(m: State) {
    exists c: Cell :: m.values[c] == 0 && m.candidates[c] == {}
  }

  ghost predicate Stuck(m: State, links: nat) {
    forall step: Step :: !Progresses(m, step, links)
  }

  /** Clues once given stay placed. */
  ghost predicate Keeps(g: Grid, m: State) {
    forall c: Cell :: g[c] != 0 ==> m.values[c] == g[c]
  }

  lemma ApplyKeeps(g: Grid, m: State, step: Step, links: nat)
    requires Valid(m) && Applies(m, step) && Keeps(g, m)
    ensures Keeps(g, Apply(m, step, links))
    ensures Apply(m, step, links).reference == m.reference
  {
    hide Sees, Gone, Applies;
    if Placing(m, step, links) {
      PlacedDigit(m, step, links);
      assert m.values[step.cell] == 0;
    }
  }

  /** What holds after any run, whatever the techniques found. */
  lemma {:induction false} RunSound(g: Grid, reference: Option<Grid>, steps: seq<Step>, links: nat)
    requires Consistent(g) && Run(Start(g, reference), steps, links)
    ensures var m := After(Start(g, reference), steps, links);
      && Valid(m) && Keeps(g, m) && m.reference == reference
      && (forall s: Grid :: Completes(g, s) ==> Fits(m, s))
      && (forall s: Grid :: Completes(g, s) && reference == Some(s) ==> m.consistent)
  {
    hide Valid, Fits, Completes, Consistent, Keeps, Start;
    var first := Start(g, reference);
    StartValid(g, reference);
    if steps == [] {
      forall s: Grid { StartFits(g, reference, s); }
      StartKeeps(g, reference);
    } else {
      var before, step := steps[..|steps| - 1], steps[|steps| - 1];
      RunSound(g, reference, before, links);
      var m := After(first, before, links);
      StepSound(m, step, links);
      ApplyKeeps(g, m, step, links);
    }
  }

  lemma StartKeeps(g: Grid, reference: Option<Grid>)
    ensures Keeps(g, Start(g, reference)) && Start(g, reference).reference == reference
    ensures forall s: Grid :: Completes(g, s) && reference == Some(s) ==> Start(g, reference).consistent
  {
  }

  /** While the flag stands, every digit placed is the reference's. */
  lemma {:induction false} ConsistentAgrees(g: Grid, reference: Grid, steps: seq<Step>, links: nat)
    ensures var m := After(Start(g, Some(reference)), steps, links);
      m.reference == Some(reference) && (m.consistent ==> forall c: Cell :: m.values[c] != 0 ==>
        m.values[c] == reference[c])
    decreases |steps|
  {
    hide Sees, Gone, Placing, Contradicts;
    if steps != [] { ConsistentAgrees(g, reference, steps[..|steps| - 1], links); }
  }

  /** A solved run leaves the flag exactly if the reference is the completion it found. */
  lemma SolvedFlag(g: Grid, reference: Grid, steps: seq<Step>, links: nat)
    requires Consistent(g) && Run(Start(g, Some(reference)), steps, links)
    requires Complete(After(Start(g, Some(reference)), steps, links))
    ensures After(Start(g, Some(reference)), steps, links).consistent <==> Completions(g) == {reference}
  {
    hide Run, Start, After, Consistent, Valid, Completes;
    var m := After(Start(g, Some(reference)), steps, links);
    RunSound(g, Some(reference), steps, links);
    CompleteIsUnique(g, Some(reference), steps, links);
    ConsistentAgrees(g, reference, steps, links);
    if m.consistent {
      forall i | 0 <= i < 81 ensures m.values[i] == reference[i] { var c: Cell := i; assert m.values[c] != 0; }
      assert m.values == reference;
    }
    if Completions(g) == {reference} { assert reference in Completions(g); }
  }

  /** A run that places every digit has found the only completion. */
  lemma CompleteIsUnique(g: Grid, reference: Option<Grid>, steps: seq<Step>, links: nat)
    requires Consistent(g) && Run(Start(g, reference), steps, links)
    requires Complete(After(Start(g, reference), steps, links))
    ensures Completions(g) == {After(Start(g, reference), steps, links).values}
  {
    hide Run, Sees, Start, After;
    RunSound(g, reference, steps, links);
    var m := After(Start(g, reference), steps, links);
    assert Completes(g, m.values);
    forall s | Completes(g, s) ensures s == m.values {
      assert Fits(m, s);
      forall i | 0 <= i < 81 ensures s[i] == m.values[i] { var c: Cell := i; assert m.values[c] != 0; }
    }
  }

  /** A run that empties a cell has refuted the givens. */
  lemma DeadHasNone(g: Grid, reference: Option<Grid>, steps: seq<Step>, links: nat)
    requires Consistent(g) && Run(Start(g, reference), steps, links)
    requires Dead(After(Start(g, reference), steps, links))
    ensures Completions(g) == {}
  {
    hide Run, Sees, Start, After, Consistent, Valid;
    RunSound(g, reference, steps, links);
    var m := After(Start(g, reference), steps, links);
    var c: Cell :| m.values[c] == 0 && m.candidates[c] == {};
    assert forall s: Grid :: Completes(g, s) ==> Fits(m, s);
  }

  /** The rating a run earns. */
  function MaxLevel(steps: seq<Step>): int {
    if steps == [] then 0
    else
      var before, level := MaxLevel(steps[..|steps| - 1]), Level(steps[|steps| - 1]);
      if before < level then level else before
  }

  function AtLeast(steps: seq<Step>, level: int): nat {
    if steps == [] then 0
    else AtLeast(steps[..|steps| - 1], level) + if Level(steps[|steps| - 1]) >= level then 1 else 0
  }
}
