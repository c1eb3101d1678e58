/** The vsync grid and the choice of a frame rate. */
module Pacing {
  import opened Basics

  // Nanoseconds.
  const SLACK := 2000000
  const MARGIN := 2000000
  const LEAD_STEP := 2000000
  const LEAD_DECAY := 20000
  const FIRST_HOLD := 1000000000
  const LAST_HOLD := 32000000000
  const UNSTABLE := 5000000000

  const SLOWEST := 8
  const WINDOW := 120
  const LATE_LIMIT := 4
  const MEASURE := 30
  const SETTLE := 8
  const OVERLAP := 1.2
  const RETRY_FIT := 1.25

  // The grid of predicted presentations.

  function Vsync(origin: int, refresh: int, k: int): int { origin + k * refresh }

  lemma VsyncSteps(origin: int, refresh: int, k: int)
    ensures Vsync(origin, refresh, 0) == origin
    ensures Vsync(origin, refresh, k + 1) == Vsync(origin, refresh, k) + refresh
  {
  }

  ghost predicate OnGrid(origin: int, refresh: int, time: int) {
    exists k :: time == Vsync(origin, refresh, k)
  }

  /** Vsyncs are a refresh apart. */
  lemma GridIsSpaced(origin: int, refresh: int, j: int, k: int)
    requires refresh > 0 && j < k
    ensures Vsync(origin, refresh, j) + refresh <= Vsync(origin, refresh, k)
  {
    assert (j + 1) * refresh <= k * refresh;
  }

  /** The least vsync that is no earlier than the time. */
  ghost predicate FirstVsync(origin: int, refresh: int, time: int, r: int) {
    && OnGrid(origin, refresh, r) && time <= r
    && forall k :: time <= Vsync(origin, refresh, k) ==> r <= Vsync(origin, refresh, k)
  }

  function VsyncAfter(origin: int, refresh: int, time: int): (r: int)
    requires refresh > 0
    ensures FirstVsync(origin, refresh, time, r)
  {
    var refreshes := if time < origin then -((origin - time) / refresh) else (time - origin + refresh - 1) / refresh;
    var r := Vsync(origin, refresh, refreshes);
    VsyncIsFirst(origin, refresh, time, refreshes);
    r
  }

  lemma VsyncIsFirst(origin: int, refresh: int, time: int, k: int)
    requires refresh > 0 && time <= Vsync(origin, refresh, k) < time + refresh
    ensures FirstVsync(origin, refresh, time, Vsync(origin, refresh, k))
  {
    forall j | time <= Vsync(origin, refresh, j) ensures Vsync(origin, refresh, k) <= Vsync(origin, refresh, j) {
      if j < k { GridIsSpaced(origin, refresh, j, k); }
      if k < j { GridIsSpaced(origin, refresh, k, j); }
    }
  }

  /** Slots drawn on time for an interval of whole refreshes are exactly that interval apart. */
  lemma OnTimeSlots(origin: int, refresh: int, slot: int, n: nat)
    requires refresh > SLACK && OnGrid(origin, refresh, slot)
    ensures VsyncAfter(origin, refresh, slot + n * refresh - SLACK) == slot + n * refresh
  {
    var k :| slot == Vsync(origin, refresh, k);
    assert slot + n * refresh == Vsync(origin, refresh, k + n);
    VsyncIsFirst(origin, refresh, slot + n * refresh - SLACK, k + n);
    var r := VsyncAfter(origin, refresh, slot + n * refresh - SLACK);
    var m :| r == Vsync(origin, refresh, m);
  }

  // Periods.

  datatype Display = Display(peakPeriod: nat, fastestVsync: nat, vsyncPeriod: nat) {
    function Fastest(): nat { if peakPeriod != 0 then peakPeriod else fastestVsync }

    function Period(interval: nat): (r: nat)
      ensures r >= vsyncPeriod
    {
      Max(interval * Fastest(), vsyncPeriod)
    }
  }

  predicate Fits(cost: real, fit: real, display: Display, interval: nat) {
    cost <= fit * (display.Period(interval) as real)
  }

  /** The smallest interval from n on that fits the cost, or the slowest. */
  function Wanted(cost: real, display: Display, n: nat): (r: nat)
    requires n <= SLOWEST
    ensures n <= r <= SLOWEST
    ensures r == SLOWEST || Fits(cost, OVERLAP, display, r)
    ensures forall k :: n <= k < r ==> !Fits(cost, OVERLAP, display, k)
    decreases SLOWEST - n
  {
    if n < SLOWEST && !Fits(cost, OVERLAP, display, n) then Wanted(cost, display, n + 1) else n
  }

  // One frame.

  datatype Rate = Rate(
    interval: nat, floor: nat, windowFrames: nat, lateFrames: nat, settling: nat, measuring: nat, measured: nat,
    floorUntil: int, retryAt: int, fasterAt: int, hold: int, lead: int, bestCost: real, previousCost: real)

  /** A frame for a slot: how late it and others were, and what it cost. */
  datatype Frame = Frame(display: Display, slot: int, late: nat, cost: real)

  function FullLead(display: Display): int { Max(display.vsyncPeriod, MARGIN) }

  /** Lateness first buys lead; only with a full lead does it count. */
  function Leads(r: Rate, f: Frame): Rate {
    if r.settling > 0 then r.(settling := r.settling - 1)
    else if f.late == 0 then r.(lead := Max(MARGIN, r.lead - LEAD_DECAY))
    else if r.lead < FullLead(f.display) then r.(lead := Min(FullLead(f.display), r.lead + LEAD_STEP * f.late))
    else r.(lateFrames := r.lateFrames + f.late)
  }

  predicate Falling(r: Rate, cost: real) { cost < 0.99 * r.previousCost && r.measured < 2 * MEASURE }

  function Measures(r: Rate, cost: real): Rate {
    if r.measuring > 0 then
      var left := if r.measuring > 1 || !Falling(r, cost) then r.measuring - 1 else r.measuring;
      r.(measured := r.measured + 1, measuring := left, bestCost := if left == 0 then cost
        else r.bestCost, previousCost := cost)
    else r.(bestCost := if cost < r.bestCost then cost else r.bestCost, previousCost := cost)
  }

  predicate Raises(r: Rate) { r.lateFrames >= LATE_LIMIT }

  function Counts(r: Rate): Rate {
    if Raises(r) then r.(floor := Min(r.interval + 1, SLOWEST), windowFrames := 0, lateFrames := 0)
    else if r.windowFrames + 1 == WINDOW then r.(windowFrames := 0, lateFrames := 0)
    else r.(windowFrames := r.windowFrames + 1)
  }

  function Floors(r: Rate, slot: int): Rate {
    if r.floor > r.interval then r.(floorUntil := 0)
    else if r.floor > 1 && r.lateFrames == 0 && slot >= r.floorUntil then r.(floor := r.floor - 1)
    else r
  }

  function Choice(r: Rate, display: Display): nat {
    Max(if r.measuring > 0 then r.interval else Wanted(r.bestCost, display, 1), r.floor)
  }

  /** After a hold, the next faster rate is tried if it nearly fits. */
  predicate Retries(r: Rate, f: Frame) {
    && Choice(r, f.display) == r.interval && r.interval > 1 && r.floor < r.interval && r.measuring == 0
    && r.lateFrames == 0 && f.slot >= r.retryAt && Fits(r.bestCost, RETRY_FIT * OVERLAP, f.display, r.interval - 1)
  }

  function Held(r: Rate, slot: int): int {
    if r.fasterAt != 0 && slot - r.fasterAt < UNSTABLE then Min(r.hold * 2, LAST_HOLD) else FIRST_HOLD
  }

  function Changed(r: Rate, interval: nat): Rate {
    r.(interval := interval, windowFrames := 0, lateFrames := 0, settling := SETTLE)
  }

  function Moves(r: Rate, interval: nat, slot: int): Rate {
    if interval < r.interval then Changed(r.(fasterAt := slot), interval)
    else if interval > r.interval then
      var hold := Held(r, slot);
      Changed(r.(hold := hold, fasterAt := 0, retryAt := slot + hold,
                 floorUntil := if r.floorUntil == 0 then slot + hold else r.floorUntil,
                 measuring := if r.measuring > 0 then MEASURE else 0,
                 measured := if r.measuring > 0 then 0 else r.measured), interval)
    else r
  }

  function Observed(r: Rate, f: Frame): Rate {
    Floors(Counts(Measures(Leads(r, f), f.cost)), f.slot)
  }

  function Paced(r: Rate, f: Frame): Rate {
    var s := Observed(r, f);
    if Retries(s, f) then Moves(s.(measuring := MEASURE, measured := 0), s.interval - 1, f.slot)
    else Moves(s, Choice(s, f.display), f.slot)
  }

  function Fresh(r: Rate): Rate {
    Changed(r, 1).(floor := 1, bestCost := 0.0, measuring := MEASURE, measured := 0, hold := FIRST_HOLD,
                   fasterAt := 0, floorUntil := 0, retryAt := 0, lead := MARGIN)
  }

  // What every frame keeps.

  /** A measurement counts its frames, and lasts no longer than twice its length. */
  predicate Measured(r: Rate) {
    && r.measuring <= MEASURE
    && (r.measuring > 1 ==> r.measured == MEASURE - r.measuring)
    && (r.measuring == 1 ==> MEASURE - 1 <= r.measured <= 2 * MEASURE)
  }

  predicate Kept(r: Rate) {
    && 1 <= r.floor <= r.interval <= SLOWEST
    && r.lead >= MARGIN
    && FIRST_HOLD <= r.hold <= LAST_HOLD
    && r.lateFrames < LATE_LIMIT && r.windowFrames < WINDOW
    && Measured(r)
  }

  lemma FreshIsKept(r: Rate)
    ensures Kept(Fresh(r))
  {
  }

  lemma PacedIsKept(r: Rate, f: Frame)
    requires Kept(r)
    ensures Kept(Paced(r, f))
  {
    hide Fits, Choice, Observed;
    var s := Observed(r, f);
    ObservedIsKept(r, f);
    ChoiceIsBounded(s, f.display);
  }

  lemma ObservedIsKept(r: Rate, f: Frame)
    requires Kept(r)
    ensures var s := Observed(r, f);
      && s.interval == r.interval && s.hold == r.hold && 1 <= s.floor <= SLOWEST && Measured(s) && s.lead >= MARGIN
      && s.lateFrames < LATE_LIMIT && s.windowFrames < WINDOW
  {
  }

  lemma ChoiceIsBounded(r: Rate, display: Display)
    requires r.floor <= SLOWEST && 1 <= r.interval <= SLOWEST
    ensures 1 <= Choice(r, display) <= SLOWEST && r.floor <= Choice(r, display)
  {
  }

  /** The display changed: the next frames are not judged. */
  function Settled(r: Rate): Rate {
    r.(settling := Max(r.settling, SETTLE))
  }

  datatype Event = Drawn(frame: Frame) | Reset | DisplayChanged

  function After(r: Rate, e: Event): Rate {
    match e
    case Drawn(frame) => Paced(r, frame)
    case Reset => Fresh(r)
    case DisplayChanged => Settled(r)
  }

  function AfterAll(r: Rate, events: seq<Event>): Rate
    decreases |events|
  {
    if events == [] then r else AfterAll(After(r, events[0]), events[1..])
  }

  /** Over every run, the rate, its floor, the lead and the hold keep their bounds. */
  lemma {:induction false} RunIsKept(r: Rate, events: seq<Event>)
    requires Kept(r)
    ensures Kept(AfterAll(r, events))
    decreases |events|
  {
    hide Paced, Kept, Fresh;
    if events != [] {
      match events[0] {
        case Drawn(frame) => PacedIsKept(r, frame);
        case Reset => FreshIsKept(r);
        case DisplayChanged => assert Kept(Settled(r)) by { SettledIsKept(r); }
      }
      RunIsKept(After(r, events[0]), events[1..]);
    }
  }

  lemma SettledIsKept(r: Rate)
    requires Kept(r)
    ensures Kept(Settled(r))
  {
  }

  lemma {:induction false} AfterBoth(r: Rate, a: seq<Event>, b: seq<Event>)
    ensures AfterAll(r, a + b) == AfterAll(AfterAll(r, a), b)
    decreases |a|
  {
    hide After;
    if a == [] {
      assert a + b == b;
    } else {
      assert (a + b)[0] == a[0] && (a + b)[1..] == a[1..] + b;
      AfterBoth(After(r, a[0]), a[1..], b);
    }
  }

  predicate NoResets(events: seq<Event>) { Reset !in events }

  function Frames(events: seq<Event>): nat {
    if events == [] then 0 else (if events[0].Drawn? then 1 else 0) + Frames(events[1..])
  }

  // Measurements.

  /** Each frame of a measurement is counted, unless it restarts the measurement. */
  predicate Restarts(r: Rate, e: Event) { e.Drawn? && Paced(r, e.frame).measuring > 0 &&
      Paced(r, e.frame).measured == 0 }

  ghost predicate Uninterrupted(r: Rate, events: seq<Event>)
    decreases |events|
  {
    events != [] ==> !Restarts(r, events[0]) && Uninterrupted(After(r, events[0]), events[1..])
  }

  lemma FrameIsMeasured(r: Rate, e: Event)
    requires Kept(r) && r.measuring > 0 && e.Drawn? && !Restarts(r, e)
    ensures After(r, e).measuring > 0 ==> After(r, e).measured == r.measured + 1
  {
  }

  /** A measurement that is not restarted has ended after 61 frames, whatever the display does meanwhile. */
  lemma {:induction false} MeasurementEnds(r: Rate, events: seq<Event>) returns (n: nat)
    requires Kept(r) && r.measuring > 0 && NoResets(events) && Uninterrupted(r, events)
    requires Frames(events) >= 2 * MEASURE + 1 - r.measured
    ensures n <= |events| && Frames(events[..n]) <= 2 * MEASURE + 1 - r.measured &&
      AfterAll(r, events[..n]).measuring == 0
    decreases |events|
  {
    hide Paced, Restarts, Kept;
    assert r.measured <= 2 * MEASURE by { MeasuredBound(r); }
    var e, rest := events[0], events[1..];
    var next := After(r, e);
    if e.Drawn? {
      FrameIsMeasured(r, e);
      PacedIsKept(r, e.frame);
    } else {
      SettledIsKept(r);
    }
    assert events[..1] == [e] && events[..1][1..] == [];
    if next.measuring == 0 {
      n := 1;
    } else {
      var m := MeasurementEnds(next, rest);
      n := m + 1;
      assert events[..n][0] == e && events[..n][1..] == rest[..m];
    }
  }

  lemma MeasuredBound(r: Rate)
    requires Kept(r) && r.measuring > 0
    ensures r.measured <= 2 * MEASURE
  {
  }

  // Floors.

  /** Enough misses arrive with a full lead. */
  predicate Misses(r: Rate, f: Frame) { Raises(Measures(Leads(r, f), f.cost)) }

  /** Frames before a time without enough misses, among changes of the display. */
  ghost predicate Calm(r: Rate, events: seq<Event>, until: int)
    decreases |events|
  {
    events != [] ==>
      && events[0] != Reset
      && (events[0].Drawn? ==> events[0].frame.slot < until && !Misses(r, events[0].frame))
      && Calm(After(r, events[0]), events[1..], until)
  }

  /** Only enough misses with a full lead raise the floor, and then to one above the rate. */
  lemma OnlyMissesRaise(r: Rate, f: Frame)
    requires Kept(r)
    ensures Paced(r, f).floor > r.floor ==> Misses(r, f)
    ensures Misses(r, f) <==>
      r.settling == 0 && f.late > 0 && r.lead >= FullLead(f.display) && r.lateFrames + f.late >= LATE_LIMIT
    ensures Misses(r, f) && r.interval < SLOWEST ==> Paced(r, f).floor == r.interval + 1
  {
    hide Fits, Falling, FullLead, Display.Period;
  }

  /** A floor raised from a rate above the slowest is held for as long as the hold says. */
  lemma RaisedFloorIsHeld(r: Rate, f: Frame)
    requires Kept(r) && Misses(r, f) && r.interval < SLOWEST && f.slot > 0
    ensures var s := Paced(r, f);
      s.interval > r.interval && s.floor == r.interval + 1 && s.floorUntil == f.slot + s.hold &&
        s.hold == Held(r, f.slot)
  {
    hide Fits, Falling, FullLead, Display.Period;
  }

  /** At the slowest rate there is nothing to raise: an old hold counts on, and once it has passed the floor drops. */
  lemma SlowestFloorIsNotHeld(r: Rate, f: Frame)
    requires Kept(r) && Misses(r, f) && r.interval == SLOWEST
    ensures Paced(r, f).floor == (if f.slot >= r.floorUntil then SLOWEST - 1 else SLOWEST)
    ensures Paced(r, f).hold == r.hold && Paced(r, f).floorUntil == r.floorUntil
    ensures f.slot < r.floorUntil ==> Paced(r, f).interval == SLOWEST && Paced(r, f).lateFrames == 0
  {
    hide Fits, Falling, FullLead, Display.Period;
  }

  lemma FloorStays(r: Rate, f: Frame)
    requires Kept(r) && !Misses(r, f) && f.slot < r.floorUntil && r.floorUntil != 0
    ensures Paced(r, f).floor == r.floor && Paced(r, f).floorUntil == r.floorUntil
  {
    assert Observed(r, f).floor == r.floor && Observed(r, f).floorUntil == r.floorUntil by {
      hide Falling, FullLead;
    }
    hide Observed, Choice, Retries, Misses;
  }

  /** Until that time, whatever raises it no further leaves the floor as it is. */
  lemma {:induction false} HeldFloorStays(r: Rate, events: seq<Event>, until: int)
    requires Kept(r) && r.floorUntil != 0 && until <= r.floorUntil && Calm(r, events, until)
    ensures AfterAll(r, events).floor == r.floor && AfterAll(r, events).floorUntil == r.floorUntil
    decreases |events|
  {
    hide Paced, Misses, Kept;
    if events != [] {
      if events[0].Drawn? {
        FloorStays(r, events[0].frame);
        PacedIsKept(r, events[0].frame);
      } else {
        SettledIsKept(r);
      }
      HeldFloorStays(After(r, events[0]), events[1..], until);
    }
  }

  /** The floor that misses raise lasts through their hold, unless they raise it again. */
  ghost predicate FloorLasts(r: Rate, f: Frame) {
    var s := Paced(r, f);
    forall events :: Calm(s, events, f.slot + s.hold) ==> AfterAll(s, events).floor == Min(r.interval + 1, SLOWEST)
  }

  /** It does exactly if it was raised from a rate above the slowest, or an older hold outlasts its own. */
  lemma RaisedFloorLasts(r: Rate, f: Frame)
    requires Kept(r) && Misses(r, f) && f.slot > 0
    ensures FloorLasts(r, f) <==> r.interval < SLOWEST || r.floorUntil >= f.slot + r.hold
  {
    hide Misses, Kept, Calm, Paced;
    var s := Paced(r, f);
    PacedIsKept(r, f);
    assert s.hold > 0 by { HoldIsPositive(s); }
    if r.interval < SLOWEST { RaisedFloorIsHeld(r, f); } else { IntervalIsSlowest(r); SlowestFloorIsNotHeld(r, f); }
    if r.interval < SLOWEST || r.floorUntil >= f.slot + s.hold {
      forall events | Calm(s, events, f.slot + s.hold)
        ensures AfterAll(s, events).floor == Min(r.interval + 1, SLOWEST) {
        HeldFloorStays(s, events, f.slot + s.hold);
      }
    } else {
      var events := FloorDrops(r, f);
    }
  }

  lemma HoldIsPositive(r: Rate)
    requires Kept(r)
    ensures r.hold >= FIRST_HOLD
  {
  }

  lemma IntervalIsSlowest(r: Rate)
    requires Kept(r) && r.interval >= SLOWEST
    ensures r.interval == SLOWEST
  {
  }

  /** Otherwise one frame on time, or none, takes it down. */
  lemma FloorDrops(r: Rate, f: Frame) returns (events: seq<Event>)
    requires Kept(r) && Misses(r, f) && r.interval == SLOWEST && r.floorUntil < f.slot + r.hold
    ensures Calm(Paced(r, f), events, f.slot + r.hold) && AfterAll(Paced(r, f), events).floor < SLOWEST
  {
    hide Paced, Misses, Kept;
    var s := Paced(r, f);
    SlowestFloorIsNotHeld(r, f);
    if f.slot >= r.floorUntil {
      events := [];
    } else {
      PacedIsKept(r, f);
      var g := Frame(f.display, r.floorUntil, 0, f.cost);
      OnTimeLowers(s, g);
      events := [Drawn(g)];
      assert events[1..] == [];
    }
  }

  lemma OnTimeLowers(r: Rate, f: Frame)
    requires Kept(r) && r.floor == SLOWEST && r.lateFrames == 0 && f.late == 0 && f.slot >= r.floorUntil
    ensures !Misses(r, f) && Paced(r, f).floor == SLOWEST - 1
  {
    hide Fits, Falling, FullLead, Display.Period;
  }

  // A run to a floor that does not last.

  /** What a rate starts from. */
  const START := Rate(1, 1, 0, 0, 0, 0, 0, 0, 0, 0, FIRST_HOLD, MARGIN, 0.0, 0.0)

  /** A display on which the lead is always full, and frames that cost nothing. */
  const QUICK := Display(0, 0, 1)

  function Punctual(slot: int): Event { Drawn(Frame(QUICK, slot, 0, 0.0)) }

  function Late(slot: int): Event { Drawn(Frame(QUICK, slot, LATE_LIMIT, 0.0)) }

  /** Slowed down to an interval by misses at a time, some punctual frames ago. */
  function Slowed(n: nat, time: int, frames: nat): Rate
    requires frames <= SETTLE
  {
    START.(interval := n, floor := n, windowFrames := frames, settling := SETTLE - frames,
           floorUntil := time + FIRST_HOLD, retryAt := time + FIRST_HOLD)
  }

  lemma PunctualSettles(n: nat, time: int, frames: nat)
    requires 1 < n <= SLOWEST && time > 0 && frames < SETTLE
    ensures After(Slowed(n, time, frames), Punctual(time + 1)) == Slowed(n, time, frames + 1)
  {
  }

  lemma LateSlows(n: nat, time: int)
    requires 1 < n < SLOWEST && time > 0
    ensures After(Slowed(n, time, SETTLE), Late(time + 2)) == Slowed(n + 1, time + 2, 0)
    ensures After(START, Late(time)) == Slowed(2, time, 0)
  {
  }

  lemma {:induction false} AllSettle(n: nat, time: int, frames: nat) returns (events: seq<Event>)
    requires 1 < n <= SLOWEST && time > 0 && frames <= SETTLE
    ensures AfterAll(Slowed(n, time, 0), events) == Slowed(n, time, frames)
    decreases frames
  {
    hide After, Slowed;
    events := [];
    if frames > 0 {
      events := AllSettle(n, time, frames - 1);
      PunctualSettles(n, time, frames - 1);
      AfterOneMore(Slowed(n, time, 0), events, Punctual(time + 1));
      events := events + [Punctual(time + 1)];
    }
  }

  lemma AfterOneMore(r: Rate, events: seq<Event>, e: Event)
    ensures AfterAll(r, events + [e]) == After(AfterAll(r, events), e)
  {
    hide After;
    AfterBoth(r, events, [e]);
    assert [e][1..] == [];
  }

  lemma {:induction false} SlowsDown(n: nat) returns (events: seq<Event>, time: int)
    requires 1 < n <= SLOWEST
    ensures time > 0 && AfterAll(START, events) == Slowed(n, time, SETTLE)
    decreases n
  {
    hide After, Slowed, AfterAll;
    if n == 2 {
      time := 1;
      LateSlows(n, time);
      events := [Late(time)];
      assert AfterAll(START, events) == Slowed(2, time, 0) by { AfterOne(START, Late(time)); }
    } else {
      var before, last := SlowsDown(n - 1);
      time := last + 2;
      LateSlows(n - 1, last);
      AfterOneMore(START, before, Late(time));
      events := before + [Late(time)];
    }
    var settle := AllSettle(n, time, SETTLE);
    AfterBoth(START, events, settle);
    events := events + settle;
  }

  lemma AfterOne(r: Rate, e: Event)
    ensures AfterAll(r, [e]) == After(r, e)
  {
    assert [e][1..] == [];
  }

  /** From the start there is a run to misses whose floor does not last through its hold. */
  lemma FloorNeedNotLast() returns (events: seq<Event>, f: Frame)
    ensures var r := AfterAll(START, events); Kept(r) && Misses(r, f) && f.slot > 0 && !FloorLasts(r, f)
  {
    var time;
    events, time := SlowsDown(SLOWEST);
    f := Late(time + 2).frame;
    var r := AfterAll(START, events);
    SlowestMisses(r, time);
    hide Paced, Misses, Kept, FloorLasts, AfterAll;
    SlowestFloorIsNotHeld(r, f);
    RaisedFloorLasts(r, f);
  }

  lemma SlowestMisses(r: Rate, time: int)
    requires time > 0 && r == Slowed(SLOWEST, time, SETTLE)
    ensures Kept(r) && Misses(r, Late(time + 2).frame) && r.interval == SLOWEST && r.floorUntil < time + 2 + r.hold
  {
  }
}
