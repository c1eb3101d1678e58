/** The rater and the puzzle generator. */
module Rater {
  import opened Basics
  import opened Cells
  import opened Solutions
  import opened SearchSpace
  import opened Counting
  import opened Marks
  import opened Deductions
  import opened Soundness
  import opened Runs
  import opened LogicState
  import opened Singles
  import opened Subsets
  import opened FishAndWings
  import opened Chains
  import opened Patterns
  import opened Techniques

  datatype Rating = Rating(solved: bool, consistent: bool, level: int, advancedSteps: int, chainSteps: int)

  /** The first k clues. */
  ghost function Prefix(g: Grid, k: nat): Grid {
    seq(81, i requires 0 <= i < 81 => if i < k then g[i] else 0)
  }

  lemma PrefixEnds(g: Grid)
    ensures Prefix(g, 0) == seq(81, _ => 0) && Prefix(g, 81) == g && Consistent(Prefix(g, 0))
  {
  }

  lemma PrefixOneMore(g: Grid, k: Cell)
    ensures Prefix(g, k + 1) == if g[k] == 0 then Prefix(g, k) else Prefix(g, k)[k := g[k]]
    ensures Prefix(g, k)[k] == 0
  {
  }

  lemma EmptyStart(reference: Option<Grid>)
    ensures Start(seq(81, _ => 0), reference) == State(seq(81, _ => 0), seq(81, _ => Digits()), reference, true)
  {
    var g: Grid := seq(81, _ => 0);
    forall c: Cell ensures Start(g, reference).candidates[c] == Digits() {
      assert forall d: Digit :: !SeesDigit(g, c, d);
      assert forall d :: d in Digits() ==> IsDigit(d);
      forall d | d in Digits() ensures d in Start(g, reference).candidates[c] { var x: Digit :=
        d; assert !SeesDigit(g, c, x); }
    }
    SameMasks(Start(g, reference).candidates, seq(81, _ => Digits()));
  }

  /** A clue is refused exactly when it is out of range or repeats an earlier one. */
  lemma ClueFits(g: Grid, reference: Option<Grid>, k: Cell)
    requires Consistent(Prefix(g, k)) && g[k] != 0
    ensures var m := Start(Prefix(g, k), reference);
      if g[k] <= 9 && g[k] in m.candidates[k] then Consistent(Prefix(g, k + 1)) else !Consistent(g)
  {
    hide Sees;
    PrefixOneMore(g, k);
    var p := Prefix(g, k);
    if g[k] <= 9 {
      var d: Digit := g[k];
      if SeesDigit(p, k, d) {
        var j: Cell :| Sees(j, k) && p[j] == d;
        assert Sees(j, k) && g[j] == g[k];
      } else {
        SeesBothWays();
        var h := p[k := g[k]];
        assert forall a: Cell, b: Cell :: Sees(a, b) && h[a] != 0 ==> h[a] != h[b] by { NewClue(p, k, d); }
      }
    }
  }

  lemma NewClue(p: Grid, k: Cell, d: Digit)
    requires Consistent(p) && p[k] == 0 && !SeesDigit(p, k, d)
    ensures Consistent(p[k := d])
  {
  }

  /** Applies the easiest deduction that progresses; 0 when none does. */
  method Deduce(s: Logic) returns (level: int, ghost step: Step)
    requires s.Shape() && Valid(s.M())
    modifies s`consistent, s.values, s.candidates
    ensures 0 <= level <= 5
    ensures level == 0 ==> s.M() == old(s.M()) && Stuck(s.M(), s.links)
    ensures level > 0 ==>
      Easiest(old(s.M()), step, s.links) && Level(step) == level && s.M() == Apply(old(s.M()), step, s.links)
  {
    hide Apply, Progresses, Valid;
    ghost var m := s.M();
    step := Chain(0, 1);
    var progress := Singles.NakedSingle(s);
    if progress { step := FoundStep(m, s.M(), 0, s.links); return 1, step; }
    progress := Singles.HiddenSingle(s);
    if progress { step := FoundStep(m, s.M(), 1, s.links); return 1, step; }
    progress := LockedCandidates(s);
    if progress { step := FoundStep(m, s.M(), 2, s.links); return 2, step; }
    progress := AllSubsets(s);
    if progress {
      if Found(m, s.M(), 3, s.links) { step := FoundStep(m, s.M(), 3, s.links); }
      else { step := FoundStep(m, s.M(), 4, s.links); }
      return 3, step;
    }
    progress := AllFish(s);
    if progress { step := FoundStep(m, s.M(), 5, s.links); return 4, step; }
    progress := FishAndWings.XyWing(s);
    if progress { step := FoundStep(m, s.M(), 6, s.links); return 4, step; }
    progress := FishAndWings.XyzWing(s);
    if progress { step := FoundStep(m, s.M(), 7, s.links); return 4, step; }
    progress := AllChains(s);
    if progress { step := FoundStep(m, s.M(), 8, s.links); return 5, step; }
    return 0, step;
  }

  lemma FoundStep(m: State, after: State, kind: int, links: nat) returns (step: Step)
    requires Found(m, after, kind, links)
    ensures Kind(step) == kind && Progresses(m, step, links) && after == Apply(m, step, links)
  {
    step :| Kind(step) == kind && Progresses(m, step, links) && after == Apply(m, step, links);
  }

  /** Whether every cell is filled, and whether an empty one has no candidates left. */
  method Inspect(s: Logic) returns (complete: bool, dead: bool)
    requires s.Shape()
    ensures complete <==> Complete(s.M())
    ensures dead <==> Dead(s.M())
  {
    complete := true;
    for cell := 0 to 81
      invariant complete <==> forall c: Cell :: c < cell ==> s.M().values[c] != 0
      invariant forall c: Cell :: c < cell ==> s.M().values[c] != 0 || s.M().candidates[c] != {}
    {
      if s.values[cell] == 0 {
        complete := false;
        assert s.M().values[cell] == 0;
        if s.candidates[cell] == {} { return false, true; }
      }
    }
    return complete, false;
  }

  /** Places the clues; false at the first that conflicts. */
  method Give(s: Logic, givens: Grid) returns (ok: bool)
    requires s.Shape() && s.M() == State(seq(81, _ => 0), seq(81, _ => Digits()), s.reference, true)
    modifies s`consistent, s.values, s.candidates
    ensures ok <==> Consistent(givens)
    ensures ok ==> s.M() == Start(givens, s.reference)
  {
    hide Start, Consistent, Prefix;
    EmptyStart(s.reference);
    PrefixEnds(givens);
    for cell := 0 to 81
      invariant s.M() == Start(Prefix(givens, cell), s.reference) && Consistent(Prefix(givens, cell))
    {
      PrefixOneMore(givens, cell);
      if givens[cell] != 0 {
        ClueFits(givens, s.reference, cell);
        if givens[cell] > 9 || givens[cell] !in s.candidates[cell] { return false; }
        StartOneMore(Prefix(givens, cell), s.reference, cell, givens[cell]);
        s.PlaceDigit(cell, givens[cell]);
      }
    }
    return true;
  }

  /** A human's solution of a puzzle, apart from how it was found. */
  ghost predicate Solves(givens: Grid, reference: Option<Grid>, states: seq<State>, levels: seq<int>, links: nat) {
    && |states| == |levels| + 1 && Course(states, levels, links)
    && Given(givens, reference, states[0]) && Over(states[|levels|], links)
  }

  ghost predicate Describes(r: Rating, states: seq<State>, levels: seq<int>)
    requires |states| == |levels| + 1
  {
    && (r.solved <==> Full(states[|levels|])) && (r.consistent <==> states[|levels|].consistent)
    && Hardest(levels, r.level) && r.advancedSteps == |MovesFrom(levels, 4)| && r.chainSteps == |MovesFrom(levels, 5)|
  }

  lemma StartIsGiven(g: Grid, reference: Option<Grid>)
    ensures Given(g, reference, Start(g, reference))
  {
    hide Sees;
    var m := Start(g, reference);
    forall c: Cell, d ensures Pencilled(m, c, d) <==> IsDigit(d) && g[c] == 0 && forall k: Cell :: Sees(c, k) ==>
      g[k] != d {
      if IsDigit(d) {
        var x: Digit := d;
        if SeesDigit(g, c, x) {
          var k: Cell :| Sees(k, c) && g[k] == x;
          SeesEitherWay(c, k);
        }
        forall k: Cell | Sees(c, k) && g[k] == d ensures SeesDigit(g, c, x) { SeesEitherWay(c, k); }
      }
    }
  }

  /** Where the solver stops nothing is left to do. */
  lemma StopIsOver(m: State, links: nat)
    requires Valid(m) && (Complete(m) || Dead(m) || Stuck(m, links))
    ensures Over(m, links) && (Complete(m) <==> Full(m))
  {
    hide Valid, Progresses, Exhausted;
    if Dead(m) { var c: Cell :| m.values[c] == 0 && m.candidates[c] == {}; assert forall d :: !Pencilled(m, c, d); }
    if Stuck(m, links) { NothingLeft(m, 5, links); }
  }

  /** A step where it goes on is a move. */
  lemma StepIsMove(m: State, step: Step, links: nat)
    requires Valid(m) && Easiest(m, step, links) && !Complete(m) && !Dead(m)
    ensures OneMove(m, Apply(m, step, links), Level(step), links)
  {
    hide Valid, Progresses, Exhausted, Makes, Apply;
    forall c: Cell | m.values[c] == 0 ensures exists d :: Pencilled(m, c, d) {
      var d := Pigeonhole.Member(m.candidates[c]);
      assert Pencilled(m, c, d);
    }
    assert forall other: Step :: Level(other) <= Level(step) - 1 ==> !Progresses(m, other, links);
    NothingLeft(m, Level(step) - 1, links);
    StepMakes(m, step, links);
  }

  /** Solves with deductions alone, always the easiest that progresses. */
  method Rate(givens: Grid, reference: Option<Grid>, links: nat)
    returns (rating: Rating, ghost steps: seq<Step>, ghost states: seq<State>, ghost levels: seq<int>)
    ensures !Consistent(givens) ==> rating == Rating(false, true, 0, 0, 0)
    ensures Consistent(givens) ==> Solves(givens, reference, states, levels, links) && Describes(rating, states, levels)
    ensures Consistent(givens) ==> Earned(Start(givens, reference), steps, links, rating)
    ensures rating.solved ==> |Completions(givens)| == 1
    ensures reference.Some? && Completes(givens, reference.value) ==> rating.consistent
    ensures rating.solved && reference.Some? ==> (rating.consistent <==> Completions(givens) == {reference.value})
    ensures Consistent(givens) && Dead(After(Start(givens, reference), steps, links)) ==> Completions(givens) == {}
  {
    hide Start, Consistent, Completes, Valid, Complete, Dead, Stuck, Easiest, Apply, Course, OneMove, Over, Full, Given,
      Hardest, MovesFrom, Exhausted, Makes;
    var s := new Logic(reference, links);
    steps, states, levels := [], [], [];
    rating := Rating(false, true, 0, 0, 0);
    var ok := Give(s, givens);
    if !ok { return; }
    ghost var first := s.M();
    StartIsGiven(givens, reference);
    states := [first];
    NoMoves(first, links);
    var solved, level, advanced, chains := false, 0, 0, 0;
    while true
      invariant s.Shape() && s.links == links && s.reference == reference
      invariant fresh(s) && fresh(s.values) && fresh(s.candidates)
      invariant Consistent(givens) && first == Start(givens, reference)
      invariant Run(first, steps, links) && s.M() == After(first, steps, links)
      invariant level == MaxLevel(steps) && advanced == AtLeast(steps, 4) && chains == AtLeast(steps, 5)
      invariant Course(states, levels, links) && |states| == |levels| + 1 && states[0] == first &&
        states[|levels|] == s.M()
      invariant Hardest(levels, level) && advanced == |MovesFrom(levels, 4)| && chains == |MovesFrom(levels, 5)|
      decreases |Open(s.M())|
    {
      RunSound(givens, reference, steps, links);
      var complete, dead := Inspect(s);
      if complete || dead {
        if complete { CompleteIsUnique(givens, reference, steps, links); }
          else { DeadHasNone(givens, reference, steps, links); }
        if complete && reference.Some? { SolvedFlag(givens, reference.value, steps, links); }
        CompleteNotDead(s.M());
        StopIsOver(s.M(), links);
        rating := Rating(complete, s.consistent, level, advanced, chains);
        ReferenceAgrees(givens, reference, steps, links);
        return;
      }
      ghost var m := s.M();
      var more; ghost var step;
      more, step := Deduce(s);
      if more == 0 {
        StopIsOver(m, links);
        rating := Rating(false, s.consistent, level, advanced, chains);
        ReferenceAgrees(givens, reference, steps, links);
        return;
      }
      EasiestShrinks(m, step, links);
      RunOneMore(first, steps, step, links);
      StepIsMove(m, step, links);
      CourseGrows(states, levels, links, s.M(), more);
      MovesGrow(levels, more, 4);
      MovesGrow(levels, more, 5);
      HardestGrows(levels, level, more);
      states, levels := states + [s.M()], levels + [more];
      steps := steps + [step];
      level := Max(level, more);
      advanced := advanced + if more >= 4 then 1 else 0;
      chains := chains + if more == 5 then 1 else 0;
    }
  }

  lemma NoMoves(first: State, links: nat)
    ensures Course([first], [], links) && Hardest([], 0) && MovesFrom([], 4) == MovesFrom([], 5) == {}
  {
  }

  /** The rating describes the run, which went on until nothing was left to do. */
  ghost predicate Earned(first: State, steps: seq<Step>, links: nat, rating: Rating) {
    var last := After(first, steps, links);
    && Run(first, steps, links)
    && (Complete(last) || Dead(last) || Stuck(last, links))
    && rating == Rating(Complete(last), last.consistent, MaxLevel(steps), AtLeast(steps, 4), AtLeast(steps, 5))
  }

  lemma CompleteNotDead(m: State)
    ensures !(Complete(m) && Dead(m))
  {
  }

  lemma ReferenceAgrees(g: Grid, reference: Option<Grid>, steps: seq<Step>, links: nat)
    requires Consistent(g) && Run(Start(g, reference), steps, links)
    ensures reference.Some? && Completes(g, reference.value) ==> After(Start(g, reference), steps, links).consistent
  {
    hide Start, Consistent, Completes, Valid, Run, After;
    RunSound(g, reference, steps, links);
  }

  lemma EasiestShrinks(m: State, step: Step, links: nat)
    requires Valid(m) && Easiest(m, step, links)
    ensures |Open(Apply(m, step, links))| < |Open(m)|
  {
    StepShrinks(m, step, links);
  }

  lemma RunOneMore(first: State, steps: seq<Step>, step: Step, links: nat)
    requires Run(first, steps, links) && Easiest(After(first, steps, links), step, links)
    ensures Run(first, steps + [step], links)
    ensures After(first, steps + [step], links) == Apply(After(first, steps, links), step, links)
    ensures MaxLevel(steps + [step]) == Max(MaxLevel(steps), Level(step))
    ensures forall k :: AtLeast(steps + [step], k) == AtLeast(steps, k) + if Level(step) >= k then 1 else 0
  {
    hide Easiest, Apply;
    assert (steps + [step])[..|steps|] == steps;
  }

  predicate IsExtreme(r: Rating) {
    r.solved && r.level == 5 && r.chainSteps >= 4
  }

  /** Chains are the hardest level, so four of them make a solved puzzle Extreme and nothing else does. */
  lemma ExtremeByChains(first: State, steps: seq<Step>, links: nat, rating: Rating)
    requires Earned(first, steps, links, rating)
    ensures IsExtreme(rating) <==> rating.solved && AtLeast(steps, 5) >= 4
    ensures 0 <= rating.chainSteps <= rating.advancedSteps <= |steps|
    ensures 0 <= rating.level <= 5 && (rating.level == 0 <==> steps == [])
  {
    hide Run, After, Complete, Dead, Stuck;
    LevelCounts(steps);
  }

  lemma {:induction false} LevelCounts(steps: seq<Step>)
    ensures AtLeast(steps, 5) <= AtLeast(steps, 4) <= |steps|
    ensures 0 <= MaxLevel(steps) <= 5 && (MaxLevel(steps) == 0 <==> steps == [])
    ensures AtLeast(steps, 5) > 0 <==> MaxLevel(steps) == 5
  {
    if steps != [] { LevelCounts(steps[..|steps| - 1]); }
  }

  datatype Puzzle = Puzzle(givens: Grid, solution: Grid)

  /** A full grid, some of its digits, and no other way to complete them. */
  ghost predicate ValidPuzzle(p: Puzzle) {
    IsSolution(p.solution) && SubPuzzle(p.givens, p.solution) && Unique(p.givens, p.solution)
  }

  ghost predicate FullByChains(states: seq<State>, levels: seq<int>) {
    |states| == |levels| + 1 && Full(states[|levels|]) && |MovesFrom(levels, 5)| >= 4
  }

  /** Deductions alone, at least four of them chains, solve the givens. */
  ghost predicate SolvedByChains(givens: Grid, links: nat) {
    exists states, levels :: Solves(givens, None, states, levels, links) && FullByChains(states, levels)
  }

  /** Generates until a puzzle is Extreme or, after some number of polls, the flag says to stop. */
  method GeneratePuzzle(polls: nat, links: nat) returns (puzzle: Option<Puzzle>)
    ensures puzzle.Some? ==>
      ValidPuzzle(puzzle.value) && Minimal(puzzle.value.givens) && SolvedByChains(puzzle.value.givens, links)
  {
    hide IsSolution, Minimal, SubPuzzle, Unique, Complete, After, Start, Consistent, Course, Given, Over,
      Full, MovesFrom, Hardest;
    var left := polls;
    while left > 0
    {
      left := left - 1;
      var solution := RandomSolution();
      var givens := Minimize(solution);
      var rating; ghost var steps, states, levels;
      rating, steps, states, levels := Rate(givens, None, links);
      if IsExtreme(rating) {
        assert FullByChains(states, levels);
        return Some(Puzzle(givens, solution));
      }
    }
    return None;
  }
}
