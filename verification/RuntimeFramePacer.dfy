/** The rendering thread's frame pacing, updated in place. */
module FramePacer {
  import opened Basics
  import opened Pacing
  import opened FrameRules

  class Pacer {
    var peakPeriod: nat
    var fastestVsync: nat
    var vsyncPeriod: nat
    var vsyncOrigin: int
    var vsyncLatch: int
    var lastFrame: int
    var nextSlot: int
    var rate: Rate

    function Screen(): Display
      reads this
    {
      Display(peakPeriod, fastestVsync, vsyncPeriod)
    }

    ghost predicate Valid()
      reads this
    {
      Kept(rate) && (nextSlot != 0 ==> vsyncPeriod > 0)
    }

    constructor ()
      ensures Valid() && nextSlot == 0 && vsyncPeriod == 0
    {
      peakPeriod, fastestVsync, vsyncPeriod, vsyncOrigin, vsyncLatch, lastFrame, nextSlot := 0, 0, 0, 0, 0, 0, 0;
      rate := START;
    }

    method ChangeInterval(n: nat)
      modifies `rate
      ensures rate == Changed(old(rate), n)
    {
      rate := rate.(interval := n);
      rate := rate.(windowFrames := 0, lateFrames := 0);
      rate := rate.(settling := SETTLE);
    }

    /** Back to the peak rate, with all costs to be measured anew. */
    method ResetPacing()
      requires nextSlot != 0 ==> vsyncPeriod > 0
      modifies `rate
      ensures rate == Fresh(old(rate))
      ensures Valid()
    {
      ChangeInterval(1);
      rate := rate.(floor := 1);
      rate := rate.(bestCost := 0.0);
      rate := rate.(measuring := MEASURE);
      rate := rate.(measured := 0);
      rate := rate.(hold := FIRST_HOLD);
      rate := rate.(fasterAt := 0, floorUntil := 0, retryAt := 0);
      rate := rate.(lead := MARGIN);
      FreshIsKept(old(rate));
    }

    /** Late frames first start earlier, then count. */
    method AdjustLead(f: Frame)
      requires f.display == Screen()
      modifies `rate
      ensures rate == Leads(old(rate), f)
    {
      var fullLead := Max(vsyncPeriod, MARGIN);
      if rate.settling > 0 {
        rate := rate.(settling := rate.settling - 1);
      } else if f.late == 0 {
        rate := rate.(lead := Max(MARGIN, rate.lead - LEAD_DECAY));
      } else if rate.lead < fullLead {
        rate := rate.(lead := Min(fullLead, rate.lead + LEAD_STEP * f.late));
      } else {
        rate := rate.(lateFrames := rate.lateFrames + f.late);
      }
    }

    method MeasureCost(cost: real)
      modifies `rate
      ensures rate == Measures(old(rate), cost)
    {
      if rate.measuring > 0 {
        var falling := cost < 0.99 * rate.previousCost && rate.measured < 2 * MEASURE;
        rate := rate.(measured := rate.measured + 1);
        if rate.measuring > 1 || !falling {
          rate := rate.(measuring := rate.measuring - 1);
        }
        if rate.measuring == 0 {
          rate := rate.(bestCost := cost);
        }
      } else {
        rate := rate.(bestCost := if cost < rate.bestCost then cost else rate.bestCost);
      }
      rate := rate.(previousCost := cost);
    }

    method AdjustFloor(slot: int)
      requires rate.windowFrames < WINDOW
      modifies `rate
      ensures rate == Floors(Counts(old(rate)), slot)
    {
      if rate.lateFrames >= LATE_LIMIT {
        rate := rate.(floor := Min(rate.interval + 1, SLOWEST));
        rate := rate.(windowFrames := 0, lateFrames := 0);
      } else {
        rate := rate.(windowFrames := rate.windowFrames + 1);
        if rate.windowFrames == WINDOW {
          rate := rate.(windowFrames := 0, lateFrames := 0);
        }
      }
      if rate.floor > rate.interval {
        rate := rate.(floorUntil := 0);
      } else if rate.floor > 1 && rate.lateFrames == 0 && slot >= rate.floorUntil {
        rate := rate.(floor := rate.floor - 1);
      }
    }

    /** The interval that the floor and the cost ask for. */
    method ChooseInterval() returns (n: nat)
      ensures n == Choice(rate, Screen())
    {
      hide Fits;
      n := rate.interval;
      if rate.measuring == 0 {
        n := 1;
        while n < SLOWEST && !Fits(rate.bestCost, OVERLAP, Screen(), n)
          invariant 1 <= n <= SLOWEST && Wanted(rate.bestCost, Screen(), n) == Wanted(rate.bestCost, Screen(), 1)
        {
          n := n + 1;
        }
      }
      n := Max(n, rate.floor);
    }

    method MoveTo(n: nat, slot: int)
      modifies `rate
      ensures rate == Moves(old(rate), n, slot)
    {
      if n < rate.interval {
        rate := rate.(fasterAt := slot);
      } else if n > rate.interval {
        rate := rate.(hold := if rate.fasterAt != 0 &&
          slot - rate.fasterAt < UNSTABLE then Min(rate.hold * 2, LAST_HOLD) else FIRST_HOLD);
        rate := rate.(fasterAt := 0);
        rate := rate.(retryAt := slot + rate.hold);
        if rate.floorUntil == 0 {
          rate := rate.(floorUntil := slot + rate.hold);
        }
        if rate.measuring > 0 {
          rate := rate.(measuring := MEASURE, measured := 0);
        }
      }
      if n != rate.interval {
        ChangeInterval(n);
      }
    }

    method Pace(slot: int, late: nat, cost: real)
      requires Valid()
      modifies `rate
      ensures rate == Paced(old(rate), Frame(Screen(), slot, late, cost))
      ensures FrameDone(old(rate), Frame(Screen(), slot, late, cost), rate)
      ensures Valid()
    {
      FrameIsDone(rate, Frame(Screen(), slot, late, cost));
      hide FrameDone;
      hide Fits, Kept, Leads, Measures, Counts, Floors, Choice, Moves;
      ghost var f := Frame(Screen(), slot, late, cost);
      PacedIsKept(rate, f);
      AdjustLead(Frame(Screen(), slot, late, cost));
      MeasureCost(cost);
      WindowIsOpen(old(rate), f);
      AdjustFloor(slot);
      var n := ChooseInterval();
      if n == rate.interval && n > 1 && rate.floor < n && rate.measuring == 0 && rate.lateFrames == 0 &&
        slot >= rate.retryAt && Fits(rate.bestCost, RETRY_FIT * OVERLAP, Screen(), n - 1)
      {
        n := n - 1;
        rate := rate.(measuring := MEASURE, measured := 0);
      }
      MoveTo(n, slot);
    }

    /** How long before its presentation a frame starts, given the work of one frame. */
    function Latency(work: nat): int
      reads this
    {
      vsyncLatch + rate.lead + work
    }

    /** Choose a slot if there is none, and start just early enough for it. */
    method ArmFrame(animating: bool, now: int, work: nat) returns (start: Option<int>)
      requires Valid()
      modifies `nextSlot
      ensures Valid()
      ensures start.Some? <==> animating && vsyncPeriod > 0
      ensures start.None? ==> nextSlot == old(nextSlot)
      ensures start.Some? && old(nextSlot) != 0 ==> nextSlot == old(nextSlot)
      ensures start.Some? && old(nextSlot) == 0 ==>
        FirstVsync(vsyncOrigin, vsyncPeriod, now + vsyncLatch + rate.lead + work, nextSlot)
      ensures start.Some? ==> start.value == Max(now + 1, nextSlot - (vsyncLatch + rate.lead + work))
    {
      if !animating || vsyncPeriod == 0 {
        return None;
      }
      var latency := Latency(work);
      if nextSlot == 0 {
        nextSlot := VsyncAfter(vsyncOrigin, vsyncPeriod, now + latency);
      }
      start := Some(Max(nextSlot - latency, now + 1));
    }

    /** The display's next vsync, its deadline and, when known, the refresh period. */
    method OnVsync(origin: int, deadline: int, refresh: Option<nat>)
      requires Valid()
      modifies this
      ensures Valid() && vsyncOrigin == origin && vsyncLatch == origin - deadline
      ensures var period := old(vsyncPeriod);
        if refresh.None? || period - 2_000_000 <= refresh.value <= period + 2_000_000 then
          vsyncPeriod == period && nextSlot == old(nextSlot) && rate == old(rate)
        else vsyncPeriod == refresh.value && nextSlot == 0 && rate == Settled(old(rate))
      ensures fastestVsync ==
        if refresh.Some? && (old(fastestVsync) == 0 || refresh.value < old(fastestVsync) - 2_000_000) then refresh.value
        else old(fastestVsync)
      ensures peakPeriod == old(peakPeriod) && lastFrame == old(lastFrame)
    {
      vsyncOrigin := origin;
      vsyncLatch := origin - deadline;
      if refresh.Some? {
        var r := refresh.value;
        if r - vsyncPeriod > SLACK || vsyncPeriod - r > SLACK {
          vsyncPeriod := r;
          nextSlot := 0;
          rate := rate.(settling := Max(rate.settling, SETTLE));
        }
        if fastestVsync == 0 || r < fastestVsync - SLACK {
          fastestVsync := r;
        }
      }
    }

    /** The next slot, or the first after it, step by step, that is late enough. */
    method ReachableSlot(step: nat, needed: int) returns (at: int, missed: nat)
      requires step > 0
      ensures at >= needed && at >= nextSlot && OnGrid(nextSlot, step, at)
      ensures at == nextSlot || at - step < needed
      ensures missed == if at == nextSlot then 0 else 1
    {
      hide Vsync;
      at, missed := nextSlot, 0;
      ghost var steps := 0;
      VsyncSteps(nextSlot, step, 0);
      while at < needed
        invariant at == Vsync(nextSlot, step, steps) && at >= nextSlot
        invariant at == nextSlot || at - step < needed
        invariant missed == if at == nextSlot then 0 else 1
        decreases needed - at
      {
        VsyncSteps(nextSlot, step, steps);
        at, missed := at + step, 1;
        steps := steps + 1;
      }
    }

    /** A frame is due: it takes its slot, or the next one on its way that can still be reached. */
    method OnFrameTimer(animating: bool, started: int, recording: nat, reported: nat, cost: real)
        returns (slot: Option<int>)
      requires Valid()
      modifies `rate, `nextSlot, `lastFrame
      ensures Valid()
      ensures slot.Some? <==> animating && old(nextSlot) != 0
      ensures slot.None? ==> rate == old(rate) && nextSlot == old(nextSlot) && lastFrame == old(lastFrame)
      ensures slot.Some? ==>
        var step := Screen().Period(old(rate).interval); var needed := started + vsyncLatch + recording;
        && slot.value >= needed && slot.value >= old(nextSlot) && OnGrid(old(nextSlot), step, slot.value)
        && (slot.value == old(nextSlot) || slot.value - step < needed)
      ensures slot.Some? ==> var missed := if slot.value == old(nextSlot) then 0 else 1;
        rate == Paced(old(rate), Frame(Screen(), slot.value, missed + reported, cost)) && lastFrame == slot.value
      ensures slot.Some? ==>
        FirstVsync(vsyncOrigin, vsyncPeriod, slot.value + Screen().Period(rate.interval) - 2_000_000, nextSlot)
      ensures slot.Some? && OnWholeRefreshes(slot.value) ==> nextSlot == slot.value + rate.interval * vsyncPeriod
    {
      hide Paced, Kept, FirstVsync, OnGrid, Display.Period;
      if !animating || nextSlot == 0 {
        return None;
      }
      var at, missed := ReachableSlot(Screen().Period(rate.interval), started + vsyncLatch + recording);
      lastFrame := at;
      Pace(at, missed + reported, cost);
      var period := Screen().Period(rate.interval);
      nextSlot := VsyncAfter(vsyncOrigin, vsyncPeriod, at + period - SLACK);
      if OnWholeRefreshes(at) { OnTimeSlots(vsyncOrigin, vsyncPeriod, at, rate.interval); }
      slot := Some(at);
    }

    /** A slot on the grid, and a period that is the interval's number of refreshes. */
    ghost predicate OnWholeRefreshes(slot: int)
      reads this
    {
      && vsyncPeriod > SLACK && OnGrid(vsyncOrigin, vsyncPeriod, slot)
      && Screen().Period(rate.interval) == rate.interval * vsyncPeriod
    }
  }

  lemma WindowIsOpen(r: Rate, f: Frame)
    requires Kept(r)
    ensures Measures(Leads(r, f), f.cost).windowFrames < WINDOW
  {
  }
}
