/** What a frame does to the rate, told by costs, periods and times. */
module FrameRules {
  import opened Basics
  import opened Pacing

  /** A frame at an interval takes so many of the fastest refreshes, but at least one refresh of the display. */
  predicate PeriodIs(display: Display, n: nat, period: int) {
    var fastest := if display.peakPeriod > 0 then display.peakPeriod else display.fastestVsync;
    (period == n * fastest || period == display.vsyncPeriod) && period >= n * fastest && period >= display.vsyncPeriod
  }

  /** The work fits a frame at the interval, with a part of it to spare. */
  ghost predicate Within(cost: real, part: real, display: Display, n: nat) {
    exists period: int :: PeriodIs(display, n, period) && cost <= part * (period as real)
  }

  /** The shortest interval that the cost fits with a fifth of overlap, or the longest. */
  ghost predicate Shortest(cost: real, display: Display, n: nat) {
    && 1 <= n <= 8 && (n == 8 || Within(cost, 1.2, display, n))
    && forall k: nat :: 1 <= k < n ==> !Within(cost, 1.2, display, k)
  }

  /** How the lead and the count of late frames answer lateness. */
  ghost predicate LeadIs(r: Rate, f: Frame, settling: nat, lead: int, late: nat) {
    var full := if f.display.vsyncPeriod > 2_000_000 then f.display.vsyncPeriod else 2_000_000;
    if r.settling > 0 then settling == r.settling - 1 && lead == r.lead && late == r.lateFrames
    else
      && settling == 0
      && if f.late == 0 then late == r.lateFrames && lead == Max(2_000_000, r.lead - 20_000)
         else if r.lead < full then late == r.lateFrames && lead == Min(full, r.lead + 2_000_000 * f.late)
         else late == r.lateFrames + f.late && lead == r.lead
  }

  /** How a measurement goes on or ends: it lasts thirty frames and while the cost falls, up to sixty. */
  ghost predicate MeasureIs(r: Rate, f: Frame, measuring: nat, measured: nat, best: real) {
    if r.measuring == 0 then
      measuring == 0 && measured == r.measured && best == (if f.cost < r.bestCost then f.cost else r.bestCost)
    else
      var goesOn := r.measuring > 1 || (f.cost < 0.99 * r.previousCost && r.measured < 60);
      && measured == r.measured + 1
      && measuring == (if r.measuring > 1 then r.measuring - 1 else if goesOn then 1 else 0)
      && best == if goesOn then r.bestCost else f.cost
  }

  /** How the floor, the window of 120 frames and what is late in it go on. */
  ghost predicate FloorIs(r: Rate, f: Frame, counted: nat, floor: nat, until: int, window: nat, late: nat) {
    var misses, ends := counted >= 4, r.windowFrames + 1 == 120;
    var raised := if misses then Min(r.interval + 1, 8) else r.floor;
    && window == (if misses || ends then 0 else r.windowFrames + 1)
    && late == (if misses || ends then 0 else counted)
    && until == (if raised > r.interval then 0 else r.floorUntil)
    && floor == if raised <= r.interval && raised > 1 && late == 0 && f.slot >= r.floorUntil then raised - 1 else raised
  }

  /** What one frame has done before the interval is chosen. */
  datatype Tally = Tally(
    settling: nat, lead: int, counted: nat, measuring: nat, measured: nat, best: real, floor: nat, until: int,
    window: nat, late: nat)

  ghost predicate TallyIs(r: Rate, f: Frame, c: Tally) {
    && LeadIs(r, f, c.settling, c.lead, c.counted)
    && MeasureIs(r, f, c.measuring, c.measured, c.best)
    && FloorIs(r, f, c.counted, c.floor, c.until, c.window, c.late)
  }

  /** The interval that cost and floor ask for; a measurement is not disturbed by its cost. */
  ghost predicate Asked(r: Rate, f: Frame, c: Tally, n: nat) {
    if c.measuring > 0 then n == Max(r.interval, c.floor)
    else exists least: nat :: Shortest(c.best, f.display, least) && n == Max(least, c.floor)
  }

  /** A rate that has been held long enough, with nothing late, gives way to the next faster one if that nearly fits. */
  ghost predicate IsRetried(r: Rate, f: Frame, c: Tally, n: nat) {
    && n == r.interval && n > 1 && c.floor < n && c.measuring == 0 && c.late == 0 && f.slot >= r.retryAt
    && Within(c.best, 1.5, f.display, n - 1)
  }

  /** Everything a frame leaves behind. */
  ghost predicate FrameIs(r: Rate, f: Frame, c: Tally, asked: nat, s: Rate) {
    var retried := IsRetried(r, f, c, asked);
    var interval := if retried then asked - 1 else asked;
    var slower, faster := interval > r.interval, interval < r.interval;
    var hold := if r.fasterAt != 0 && f.slot - r.fasterAt < 5_000_000_000 then Min(2 * r.hold, 32_000_000_000)
      else 1_000_000_000;
    var restarts := retried || (slower && c.measuring > 0);
    && TallyIs(r, f, c) && Asked(r, f, c, asked)
    && s.interval == interval && s.floor == c.floor && s.lead == c.lead && s.bestCost == c.best &&
      s.previousCost == f.cost
    && s.measuring == (if restarts then 30 else c.measuring) && s.measured == (if restarts then 0 else c.measured)
    && s.windowFrames == (if interval != r.interval then 0 else c.window)
    && s.lateFrames == (if interval != r.interval then 0 else c.late)
    && s.settling == (if interval != r.interval then 8 else c.settling)
    && s.hold == (if slower then hold else r.hold)
    && s.fasterAt == (if slower then 0 else if faster then f.slot else r.fasterAt)
    && s.retryAt == (if slower then f.slot + hold else r.retryAt)
    && s.floorUntil == if slower && c.until == 0 then f.slot + hold else c.until
  }

  lemma PeriodOf(display: Display, n: nat)
    ensures forall period: int :: PeriodIs(display, n, period) <==> period == display.Period(n)
  {
  }

  lemma WithinIs(cost: real, part: real, display: Display, n: nat)
    ensures Within(cost, part, display, n) <==> cost <= part * (display.Period(n) as real)
  {
    PeriodOf(display, n);
    hide PeriodIs;
    assert PeriodIs(display, n, display.Period(n));
  }

  lemma WantedIsShortest(cost: real, display: Display)
    ensures Shortest(cost, display, Wanted(cost, display, 1))
    ensures forall n: nat :: Shortest(cost, display, n) ==> n == Wanted(cost, display, 1)
  {
    hide Display.Period;
    var w := Wanted(cost, display, 1);
    forall n: nat ensures Within(cost, 1.2, display, n) <==>
      Fits(cost, OVERLAP, display, n) { WithinIs(cost, 1.2, display, n); }
    hide Within, Fits;
  }

  function TallyOf(r: Rate, f: Frame): Tally {
    var a := Leads(r, f);
    var s := Observed(r, f);
    Tally(s.settling, s.lead, a.lateFrames, s.measuring, s.measured, s.bestCost, s.floor, s.floorUntil,
      s.windowFrames, s.lateFrames)
  }

  lemma LeadHolds(r: Rate, f: Frame)
    ensures var a := Leads(r, f);
      && LeadIs(r, f, a.settling, a.lead, a.lateFrames)
      && a == r.(settling := a.settling, lead := a.lead, lateFrames := a.lateFrames)
  {
  }

  lemma MeasureHolds(r: Rate, f: Frame, a: Rate)
    requires a.measuring == r.measuring && a.measured == r.measured && a.bestCost == r.bestCost
    requires a.previousCost == r.previousCost
    ensures var b := Measures(a, f.cost);
      && MeasureIs(r, f, b.measuring, b.measured, b.bestCost)
      && b == a.(measuring := b.measuring, measured := b.measured, bestCost := b.bestCost, previousCost := f.cost)
  {
  }

  lemma FloorHolds(r: Rate, f: Frame, b: Rate)
    requires b.interval == r.interval && b.floor == r.floor && b.floorUntil == r.floorUntil
    requires b.windowFrames == r.windowFrames
    ensures var s := Floors(Counts(b), f.slot);
      && FloorIs(r, f, b.lateFrames, s.floor, s.floorUntil, s.windowFrames, s.lateFrames)
      && s == b.(floor := s.floor, floorUntil := s.floorUntil, windowFrames := s.windowFrames,
        lateFrames := s.lateFrames)
  {
  }

  lemma TallyHolds(r: Rate, f: Frame)
    ensures TallyIs(r, f, TallyOf(r, f))
    ensures var s := Observed(r, f);
      s.interval == r.interval && s.hold == r.hold && s.fasterAt == r.fasterAt && s.retryAt == r.retryAt &&
        s.previousCost == f.cost
  {
    hide LeadIs, MeasureIs, FloorIs, Leads, Measures, Counts, Floors;
    var a := Leads(r, f);
    LeadHolds(r, f);
    MeasureHolds(r, f, a);
    FloorHolds(r, f, Measures(a, f.cost));
  }

  /** What a frame means. */
  lemma FrameMeans(r: Rate, f: Frame) returns (c: Tally, asked: nat)
    requires Kept(r)
    ensures FrameIs(r, f, c, asked, Paced(r, f))
  {
    c := TallyOf(r, f);
    var s := Observed(r, f);
    TallyHolds(r, f);
    hide TallyIs, Observed, Fits, Kept;
    asked := Choice(s, f.display);
    WantedIsShortest(c.best, f.display);
    hide Shortest, Wanted;
    if asked > 1 { WithinIs(c.best, 1.5, f.display, asked - 1); RetryFits(c.best, f.display, asked - 1); }
    hide Within;
  }

  ghost predicate FrameDone(r: Rate, f: Frame, s: Rate) {
    exists c, asked :: FrameIs(r, f, c, asked, s)
  }

  lemma FrameIsDone(r: Rate, f: Frame)
    requires Kept(r)
    ensures FrameDone(r, f, Paced(r, f))
  {
    hide FrameIs, Kept, Paced;
    var c, asked := FrameMeans(r, f);
  }

  lemma RetryFits(cost: real, display: Display, n: nat)
    ensures Fits(cost, RETRY_FIT * OVERLAP, display, n) <==> cost <= 1.5 * (display.Period(n) as real)
  {
    assert RETRY_FIT * OVERLAP == 1.5;
  }

  // In short.

  /** With no measurement running and no retry, the interval is the shortest that the cost fits, not below the floor. */
  lemma CostChooses(r: Rate, f: Frame)
    requires Kept(r) && r.measuring == 0 && Paced(r, f).measuring == 0
    ensures var s := Paced(r, f);
      && s.bestCost == (if f.cost < r.bestCost then f.cost else r.bestCost)
      && exists least: nat :: Shortest(s.bestCost, f.display, least) && s.interval == Max(least, s.floor)
  {
    hide Paced, TallyIs, Shortest, Kept, Within;
    var c, asked := FrameMeans(r, f);
    assert MeasureIs(r, f, c.measuring, c.measured, c.best) by { TallyParts(r, f, c); }
  }

  lemma TallyParts(r: Rate, f: Frame, c: Tally)
    requires TallyIs(r, f, c)
    ensures MeasureIs(r, f, c.measuring, c.measured, c.best)
  {
  }

  /** A frame that ends a measurement sets the cost and goes by it at once. */
  lemma MeasuredCostChooses(r: Rate, f: Frame)
    requires Kept(r) && r.measuring > 0 && Paced(r, f).measuring == 0
    ensures var s := Paced(r, f);
      && s.bestCost == f.cost
      && exists least: nat :: Shortest(f.cost, f.display, least) && s.interval == Max(least, s.floor)
  {
    hide Paced, TallyIs, Shortest, Kept, Within;
    var c, asked := FrameMeans(r, f);
    assert MeasureIs(r, f, c.measuring, c.measured, c.best) by { TallyParts(r, f, c); }
  }

  /** While a measurement goes on, only the floor changes the interval. */
  lemma MeasurementHoldsStill(r: Rate, f: Frame)
    requires Kept(r) && r.measuring > 1
    ensures Paced(r, f).interval == Max(r.interval, Paced(r, f).floor)
  {
    hide Paced, TallyIs, Shortest, Kept, Within;
    var c, asked := FrameMeans(r, f);
    assert MeasureIs(r, f, c.measuring, c.measured, c.best) by { TallyParts(r, f, c); }
  }

  /** A new surface or level of detail: the peak rate, nothing held or counted, a measurement of thirty frames. */
  lemma FreshMeans(r: Rate)
    ensures Fresh(r) == Rate(1, 1, 0, 0, 8, 30, 0, 0, 0, 0, 1_000_000_000, 2_000_000, 0.0, r.previousCost)
  {
  }

  /** A display change: the next eight frames are not judged. */
  lemma SettledMeans(r: Rate)
    ensures Settled(r) == r.(settling := if r.settling > 8 then r.settling else 8)
  {
  }
}
