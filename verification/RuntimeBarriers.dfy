/** The rendering thread's command queue, and the calls that wait for it. */
module Barriers {
  import opened Basics

  datatype Kind =
    | Surface | Detach | Redraw | LifecycleTimeout(redraw: bool) | Snapshot | Visible(on: bool) | Resume(on: bool)
    | Input(input: InputKind) | PeakRefreshRate | Stop

  /** What a person or the window manager does, which only changes what is drawn. */
  datatype InputKind = Content | Activate | Focus | Key | Touch | Pinch | TouchSlop | Density

  datatype Command = Command(kind: Kind, sequence: nat)

  const REDRAW_TIMEOUT := "Timed out waiting for the window to redraw"
  const LOOPER_FAILED := "Cannot initialize the rendering looper"
  const SNAPSHOT_TIMEOUT := "Timed out waiting for the Activity state"

  // What the graphics system answers.

  datatype Rendering = RenderFailed(message: string) | NothingDrawn | Drawn | WaitFailed(message: string)

  datatype Creation = RendererFailed(message: string) | SceneFailed(message: string) | Created

  datatype Check = CheckFailed(message: string) | Unchanged | Resized

  datatype Effect = Effect(creation: Creation, rendering: Rendering, pauses: bool)

  /** A step of the rendering thread, or another thread's command. */
  datatype Turn =
    | Enqueued(kind: Kind)
    | Taken
    | Executed(effect: Effect)
    | Finished(rendering: Rendering)
    | FrameCallback(timed: bool, rendering: Rendering)
    | FrameTimer(slotted: bool, rendering: Rendering)
    | SurfaceChecked(check: Check, rendering: Rendering)
    | LooperFailed
    | Exited

  /** A wait for the rendering thread: what happens meanwhile, and whether the deadline passes. */
  datatype Wait = Wait(turns: seq<Turn>, expired: bool)

  datatype Outcome = Succeeded | Failed(message: string) | TimedOut | Aborted

  /** What the rendering thread shows, and what decides whether it draws. */
  datatype Screen = Screen(scene: bool, error: string, due: bool, visible: bool, resumed: bool, paused: bool,
    stopping: bool)

  /** Drawing changes whether a window is due, and the first failure is kept; without a scene nothing happens. */
  ghost function Rendered(s: Screen, waits: bool, how: Rendering): Screen {
    if !s.scene || s.error != "" then s
    else match how
      case Drawn => s.(due := false)
      case NothingDrawn => s.(due := true)
      case RenderFailed(message) => s.(due := true, error := message)
      case WaitFailed(message) => if waits then s.(due := true, error := message) else s.(due := false)
  }

  /** What each command leaves; a redraw that is due makes every frame wait. */
  ghost function Performed(s: Screen, kind: Kind, redraws: bool, effect: Effect): Screen {
    match kind
    case Redraw => Rendered(s, true, effect.rendering)
    case Surface =>
      if s.error != "" then s
      else if effect.creation.Created? then Rendered(s.(scene := true, due := false), redraws, effect.rendering)
      else s.(scene := false, due := false, error := effect.creation.message)
    case Detach => s.(scene := false, due := false)
    case Stop => s.(scene := false, due := false, stopping := true)
    case LifecycleTimeout(redraw) =>
      s.(error := if redraw then "Timed out waiting for the window to redraw"
        else "Timed out waiting for the Activity state")
    case Visible(on) => s.(visible := on, due := s.due || on)
    case Resume(on) => s.(resumed := on, due := true)
    case Input(input) =>
      s.(due := true, paused := s.paused != ((input.Activate? || input.Key? || input.Touch?) && effect.pauses))
    case Snapshot => s
    case PeakRefreshRate => s
  }

  // What happened, as far as redraws are concerned.

  datatype Event =
    | Began(sequence: nat)
    | Frame(how: Rendering, waited: bool)
    | Acked(sequence: nat, scene: bool, failed: bool)

  /** A frame was drawn and waited for after a redraw began. */
  ghost predicate FrameSince(trace: seq<Event>, sequence: nat) {
    exists o, q :: 0 <= o < q < |trace| && trace[o] == Began(sequence) && trace[q] == Frame(Drawn, true)
  }

  /** A redraw is acknowledged after such a frame, or because there is no scene or an error. */
  ghost predicate Justified(trace: seq<Event>, p: nat) {
    p < |trace| && trace[p].Acked? ==> !trace[p].scene || trace[p].failed || FrameSince(trace[..p], trace[p].sequence)
  }

  ghost predicate Honest(trace: seq<Event>) { forall p: nat :: p < |trace| ==> Justified(trace, p) }

  ghost predicate Acknowledged(trace: seq<Event>, sequence: nat) {
    exists p :: 0 <= p < |trace| && trace[p].Acked? && trace[p].sequence >= sequence
  }

  lemma FrameSinceStays(trace: seq<Event>, e: Event, sequence: nat)
    requires FrameSince(trace, sequence)
    ensures FrameSince(trace + [e], sequence)
  {
    var o, q :| 0 <= o < q < |trace| && trace[o] == Began(sequence) && trace[q] == Frame(Drawn, true);
    assert (trace + [e])[o] == Began(sequence) && (trace + [e])[q] == Frame(Drawn, true);
  }

  lemma FrameComes(trace: seq<Event>, sequence: nat)
    requires Began(sequence) in trace
    ensures FrameSince(trace + [Frame(Drawn, true)], sequence)
  {
    var o :| 0 <= o < |trace| && trace[o] == Began(sequence);
    var after := trace + [Frame(Drawn, true)];
    assert after[o] == Began(sequence) && after[|trace|] == Frame(Drawn, true);
  }

  lemma HonestGrows(trace: seq<Event>, e: Event)
    requires Honest(trace)
    requires e.Acked? ==> !e.scene || e.failed || FrameSince(trace, e.sequence)
    ensures Honest(trace + [e])
  {
    hide FrameSince;
    var after := trace + [e];
    forall p: nat | p < |after| ensures Justified(after, p) {
      assert p < |trace| ==> after[..p] == trace[..p] && Justified(trace, p);
      assert p == |trace| ==> after[..p] == trace;
    }
  }

  /** Redraws begin in the order of their numbers, and every redraw that ran has begun. */
  ghost predicate InTurn(trace: seq<Event>, ran: seq<Command>) {
    && (forall i, j :: 0 <= i < j < |trace| && trace[i].Began? && trace[j].Began? ==>
      trace[i].sequence < trace[j].sequence)
    && (forall i :: 0 <= i < |trace| && trace[i].Began? ==> trace[i].sequence <= |ran|)
    && (forall c <- ran :: c.kind == Redraw ==> Began(c.sequence) in trace)
  }

  lemma InTurnStays(trace: seq<Event>, ran: seq<Command>, e: Event)
    requires InTurn(trace, ran) && !e.Began?
    ensures InTurn(trace + [e], ran)
  {
  }

  lemma InTurnGrows(trace: seq<Event>, ran: seq<Command>, command: Command)
    requires InTurn(trace, ran) && command.sequence == |ran| + 1
    ensures InTurn(if command.kind == Redraw then trace + [Began(command.sequence)] else trace, ran + [command])
  {
    var after := if command.kind == Redraw then trace + [Began(command.sequence)] else trace;
    forall c <- ran + [command] | c.kind == Redraw ensures Began(c.sequence) in after {
      assert c == command ==> after[|trace|] == Began(c.sequence);
    }
  }

  /** The redraw itself, and no later one in its stead, is behind some acknowledgment. */
  ghost predicate Honored(trace: seq<Event>, sequence: nat) {
    exists p :: 0 <= p < |trace| && Answers(trace, p, sequence)
  }

  ghost predicate Answers(trace: seq<Event>, p: nat, sequence: nat)
    requires p < |trace|
  {
    && trace[p].Acked? && trace[p].sequence >= sequence
    && (!trace[p].scene || trace[p].failed || FrameSince(trace[..p], sequence))
  }

  /** A frame since a later redraw is a frame since every redraw before it. */
  lemma OvertakenIsHonored(trace: seq<Event>, ran: seq<Command>, command: Command)
    requires Honest(trace) && InTurn(trace, ran) && command in ran && command.kind == Redraw
    requires Acknowledged(trace, command.sequence)
    ensures Honored(trace, command.sequence)
  {
    var n := command.sequence;
    var p :| 0 <= p < |trace| && trace[p].Acked? && trace[p].sequence >= n;
    assert Justified(trace, p);
    if trace[p].scene && !trace[p].failed {
      var before := trace[..p];
      var o, q :| 0 <= o < q < |before| && before[o] == Began(trace[p].sequence) && before[q] == Frame(Drawn, true);
      var i :| 0 <= i < |trace| && trace[i] == Began(n);
      assert trace[o].sequence >= trace[i].sequence && i <= o;
      assert before[i] == Began(n);
    }
    assert Answers(trace, p, n);
  }

  lemma AcknowledgedStays(trace: seq<Event>, e: Event, sequence: nat)
    requires Acknowledged(trace, sequence)
    ensures Acknowledged(trace + [e], sequence)
  {
    var p :| 0 <= p < |trace| && trace[p].Acked? && trace[p].sequence >= sequence;
    assert (trace + [e])[p] == trace[p];
  }

  /** Each redraw among the commands is acknowledged, or no later than the one that is due. */
  ghost predicate AnsweredBy(ran: seq<Command>, completed: nat, due: nat) {
    forall c <- ran :: c.kind == Redraw ==> c.sequence <= completed || c.sequence <= due
  }

  lemma AnsweredGrows(ran: seq<Command>, completed: nat, due: nat, command: Command)
    requires AnsweredBy(ran, completed, due) && due < command.sequence
    ensures AnsweredBy(ran + [command], completed, if command.kind == Redraw then command.sequence else due)
  {
  }

  /** Commands carry the numbers that follow each other from a first one. */
  ghost predicate Numbered(commands: seq<Command>, issued: seq<Kind>, first: nat) {
    && first + |commands| <= |issued|
    && forall i :: 0 <= i < |commands| ==> commands[i] == Command(issued[first + i], first + i + 1)
  }

  class Runtime {
    // Guarded by the mutex.
    var commands: seq<Command>
    var nextSequence: nat
    var completedSequence: nat
    var completedRedraw: nat
    var exited: bool
    var deadlineFailed: bool
    var publishedError: string
    // Confined to the rendering thread.
    var batch: seq<Command>
    var processing: bool
    var scene: bool
    var error: string
    var visible: bool
    var resumed: bool
    var paused: bool
    var stopping: bool
    var dirtyVisual: bool
    var redrawSequence: nat
    // The history.
    ghost var issued: seq<Kind>
    ghost var ran: seq<Command>
    ghost var trace: seq<Event>

    /** Every command issued has run, is being processed or is queued, in the order of issue. */
    ghost predicate InOrder()
      reads `nextSequence, `issued, `ran, `batch, `commands, `processing
    {
      && nextSequence == |issued| == |ran| + |batch| + |commands|
      && Numbered(ran, issued, 0)
      && Numbered(batch, issued, |ran|)
      && Numbered(commands, issued, |ran| + |batch|)
      && (batch != [] ==> processing)
    }

    /** A redraw that is due has begun. */
    ghost predicate Due()
      reads `redrawSequence, `completedRedraw, `trace
    {
      redrawSequence != 0 ==> redrawSequence > completedRedraw && Began(redrawSequence) in trace
    }

    /** A redraw that looks drawn has been drawn and waited for. */
    ghost predicate Redrawn()
      reads `redrawSequence, `completedRedraw, `trace, `scene, `error, `dirtyVisual
    {
      Due() && (redrawSequence != 0 && scene && error == "" && !dirtyVisual ==> FrameSince(trace, redrawSequence))
    }

    ghost function Now(): Screen
      reads `scene, `error, `dirtyVisual, `visible, `resumed, `paused, `stopping
    {
      Screen(scene, error, dirtyVisual, visible, resumed, paused, stopping)
    }

    /** Nothing that could be acknowledged is held back: the window still has to be drawn, and can be. */
    ghost predicate Told()
      reads `redrawSequence, `scene, `error, `dirtyVisual
    {
      redrawSequence != 0 ==> scene && error == "" && dirtyVisual
    }

    /** A redraw that ran is acknowledged or still due. */
    ghost predicate Answered()
      reads `redrawSequence, `completedRedraw, `ran
    {
      AnsweredBy(ran, completedRedraw, redrawSequence)
    }

    ghost predicate Recorded()
      reads `trace, `completedRedraw, `redrawSequence, `ran
    {
      && Honest(trace) && InTurn(trace, ran)
      && completedRedraw <= |ran| && redrawSequence <= |ran|
      && (completedRedraw != 0 ==> Acknowledged(trace, completedRedraw))
    }

    ghost predicate Valid()
      reads `nextSequence, `issued, `ran, `batch, `commands, `processing, `completedSequence, `redrawSequence,
        `completedRedraw, `trace, `scene, `error, `dirtyVisual
    {
      InOrder() && completedSequence == |ran| && Redrawn() && Recorded() && Answered() && Told()
    }

    constructor ()
      ensures Valid() && issued == [] && ran == [] && trace == [] && !exited && !deadlineFailed
    {
      commands, batch, processing := [], [], false;
      nextSequence, completedSequence, completedRedraw, redrawSequence := 0, 0, 0, 0;
      exited, deadlineFailed, publishedError, error := false, false, "", "";
      scene, visible, resumed, paused, stopping, dirtyVisual := false, false, false, false, false, false;
      issued, ran, trace := [], [], [];
    }

    /** Any thread: the new command gets the next number and the last place. */
    method Enqueue(kind: Kind) returns (sequence: nat)
      requires Valid()
      modifies `commands, `nextSequence, `issued
      ensures Valid() && sequence == |issued| == nextSequence == old(nextSequence) + 1
      ensures issued == old(issued) + [kind] && commands == old(commands) + [Command(kind, sequence)]
    {
      hide Honest, InTurn, Acknowledged, FrameSince;
      nextSequence := nextSequence + 1;
      sequence := nextSequence;
      commands := commands + [Command(kind, sequence)];
      issued := issued + [kind];
    }

    /** With the mutex held: publish, and acknowledge a redraw that is done. */
    method PublishState()
      requires Redrawn() && Recorded()
      modifies `publishedError, `completedRedraw, `redrawSequence, `trace
      ensures Redrawn() && Recorded() && publishedError == error
      ensures old(redrawSequence) != 0 && (!dirtyVisual || !scene || error != "") ==>
        redrawSequence == 0 && completedRedraw == old(redrawSequence)
      ensures old(redrawSequence) == 0 || (dirtyVisual && scene && error == "") ==>
        redrawSequence == old(redrawSequence) && completedRedraw == old(completedRedraw) && trace == old(trace)
      ensures completedRedraw >= old(completedRedraw) && old(trace) <= trace && Told() &&
        (old(Answered()) ==> Answered())
    {
      hide Honest, InTurn, FrameSince, Acknowledged;
      publishedError := error;
      if redrawSequence != 0 && (!dirtyVisual || !scene || error != "") {
        var ack := Acked(redrawSequence, scene, error != "");
        HonestGrows(trace, ack);
        InTurnStays(trace, ran, ack);
        trace := trace + [ack];
        AckIsLast(trace, redrawSequence);
        completedRedraw := redrawSequence;
        redrawSequence := 0;
      }
    }

    /** Draw a frame, and wait for it if asked to or if a redraw is due. */
    method Draw(wait: bool, how: Rendering) returns (failure: Option<string>)
      requires Due() && Recorded()
      modifies `dirtyVisual, `trace
      ensures Redrawn() && Recorded()
      ensures !scene || error != "" ==> failure.None? && dirtyVisual == old(dirtyVisual) && trace == old(trace)
      ensures scene && error == "" ==> trace == old(trace) + [Frame(how, wait || redrawSequence != 0)]
      ensures scene && error == "" ==>
        (!dirtyVisual <==> how.Drawn? || (how.WaitFailed? && !wait && redrawSequence == 0))
      ensures scene && error == "" ==>
        failure == if dirtyVisual && !how.NothingDrawn? then Some(how.message) else None
    {
      hide Honest, InTurn, FrameSince, Acknowledged;
      if !scene || error != "" {
        return None;
      }
      dirtyVisual := true;
      NoteFrame(how, wait || redrawSequence != 0);
      if how.RenderFailed? {
        return Some(how.message);
      }
      if how.NothingDrawn? {
        return None;
      }
      if (wait || redrawSequence != 0) && how.WaitFailed? {
        return Some(how.message);
      }
      dirtyVisual := false;
      return None;
    }

    ghost method NoteFrame(how: Rendering, waits: bool)
      requires Redrawn() && Recorded()
      modifies `trace
      ensures Redrawn() && Recorded() && trace == old(trace) + [Frame(how, waits)]
      ensures redrawSequence != 0 && how.Drawn? && waits ==> FrameSince(trace, redrawSequence)
    {
      hide Honest, InTurn, FrameSince, Acknowledged;
      var frame := Frame(how, waits);
      if redrawSequence != 0 && how.Drawn? && waits { FrameComes(trace, redrawSequence); }
      if redrawSequence != 0 && FrameSince(trace, redrawSequence) { FrameSinceStays(trace, frame, redrawSequence); }
      HonestGrows(trace, frame);
      InTurnStays(trace, ran, frame);
      if completedRedraw != 0 { AcknowledgedStays(trace, frame, completedRedraw); }
      trace := trace + [frame];
    }

    /** Draw and keep the first error; a frame that failed leaves the window due for another. */
    method DrawAndRecord(wait: bool, how: Rendering)
      requires Due() && Recorded()
      modifies `dirtyVisual, `trace, `error
      ensures Redrawn() && Recorded()
      ensures Now() == Rendered(old(Now()), wait || redrawSequence != 0, how)
      ensures trace == old(trace) + (if scene && old(error) == "" then [Frame(how, wait || redrawSequence != 0)]
        else [])
    {
      hide Honest, InTurn, FrameSince, Acknowledged;
      var failure := Draw(wait, how);
      if failure.Some? {
        error := failure.value;
      }
    }

    method ReleaseSurface()
      requires Redrawn() && Recorded()
      modifies `scene, `dirtyVisual
      ensures Redrawn() && Recorded() && Now() == old(Now()).(scene := false, due := false)
    {
      scene := false;
      dirtyVisual := false;
    }

    method CreateSurface(creation: Creation, how: Rendering)
      requires Redrawn() && Recorded() && error == ""
      modifies `scene, `dirtyVisual, `trace, `error
      ensures Redrawn() && Recorded()
      ensures Now() == Performed(old(Now()), Surface, redrawSequence != 0, Effect(creation, how, false))
      ensures trace == old(trace) + if scene then [Frame(how, redrawSequence != 0)] else []
    {
      hide Recorded, FrameSince, Rendered;
      ReleaseSurface();
      match creation {
        case RendererFailed(message) => error := message;
        case SceneFailed(message) => error := message;
        case Created =>
          scene := true;
          DrawAndRecord(false, how);
      }
    }

    /** Run the next command of the batch, then complete it. */
    method Execute(effect: Effect) returns (command: Command)
      requires Valid() && batch != []
      modifies `batch, `ran, `trace, `scene, `error, `visible, `resumed, `paused, `stopping, `dirtyVisual,
        `redrawSequence, `completedSequence, `publishedError, `completedRedraw
      ensures Valid() && command == old(batch)[0]
      ensures ran == old(ran) + [command] && batch == old(batch)[1..] && publishedError == error
      ensures Now() == Performed(old(Now()), command.kind, old(redrawSequence) != 0, effect)
      ensures command.kind == Redraw && (!old(scene) || error != "" || effect.rendering.Drawn?) ==>
        completedRedraw == command.sequence
      ensures completedRedraw >= old(completedRedraw)
    {
      hide Valid, InOrder, Redrawn, Recorded, AnsweredBy, Performed, Rendered, Told;
      command := Next();
      Perform(command, effect);
      Complete(command.sequence);
    }

    method Perform(command: Command, effect: Effect)
      requires Redrawn() && Recorded() && command.sequence <= |ran| && completedRedraw < command.sequence
      requires command.kind == Redraw ==> Began(command.sequence) in trace
      modifies `scene, `error, `visible, `resumed, `paused, `stopping, `dirtyVisual, `trace, `redrawSequence
      ensures Redrawn() && Recorded()
      ensures Now() == Performed(old(Now()), command.kind, old(redrawSequence) != 0, effect)
      ensures redrawSequence == if command.kind.Redraw? then command.sequence else old(redrawSequence)
      ensures command.kind.Redraw? && (!old(scene) || error != "" || effect.rendering.Drawn?) ==>
        !dirtyVisual || !scene || error != ""
    {
      hide Redrawn, Recorded;
      if command.kind == Redraw {
        StartRedraw(command.sequence, effect.rendering);
      } else {
        Apply(command.kind, effect);
      }
    }

    method Complete(sequence: nat)
      requires InOrder() && Redrawn() && Recorded() && Answered() && sequence == |ran|
      modifies `completedSequence, `publishedError, `completedRedraw, `redrawSequence, `trace
      ensures Valid() && publishedError == error && completedRedraw >= old(completedRedraw)
      ensures old(redrawSequence) != 0 && (!dirtyVisual || !scene || error != "") ==>
        completedRedraw == old(redrawSequence)
    {
      hide InOrder, Redrawn, Recorded;
      completedSequence := sequence;
      PublishState();
    }

    /** The loop over the batch moves on to its next command. */
    method Next() returns (command: Command)
      requires Valid() && batch != []
      modifies `batch, `ran, `trace
      ensures command == old(batch)[0] && command.sequence == |ran|
      ensures command.kind == Redraw ==> Began(command.sequence) in trace
      ensures redrawSequence < command.sequence && completedRedraw < command.sequence
      ensures ran == old(ran) + [command] && batch == old(batch)[1..]
      ensures InOrder() && Redrawn() && Recorded()
      ensures AnsweredBy(ran, completedRedraw, if command.kind == Redraw then command.sequence else redrawSequence)
    {
      hide AnsweredBy, Honest, InTurn, FrameSince, Acknowledged, Numbered;
      command := batch[0];
      NextRuns();
      AnsweredGrows(ran, completedRedraw, redrawSequence, command);
      InTurnGrows(trace, ran, command);
      batch := batch[1..];
      ran := ran + [command];
      if command.kind == Redraw {
        var began := Began(command.sequence);
        HonestGrows(trace, began);
        if completedRedraw != 0 { AcknowledgedStays(trace, began, completedRedraw); }
        if redrawSequence != 0 && FrameSince(trace, redrawSequence) { FrameSinceStays(trace, began, redrawSequence); }
        trace := trace + [began];
      }
    }

    method StartRedraw(sequence: nat, how: Rendering)
      requires Redrawn() && Recorded() && sequence <= |ran| && completedRedraw < sequence && Began(sequence) in trace
      modifies `redrawSequence, `dirtyVisual, `trace, `error
      ensures Redrawn() && Recorded() && redrawSequence == sequence
      ensures Now() == Rendered(old(Now()), true, how)
    {
      hide Honest, InTurn, FrameSince, Acknowledged;
      redrawSequence := sequence;
      DrawAndRecord(true, how);
    }

    /** Input that can reach the pause button. */
    static predicate MayPause(input: InputKind) { input.Activate? || input.Key? || input.Touch? }

    /** The effect of any other command on what redraws depend on. */
    method Apply(kind: Kind, effect: Effect)
      requires Redrawn() && Recorded() && kind != Redraw
      modifies `scene, `error, `visible, `resumed, `paused, `stopping, `dirtyVisual, `trace
      ensures Redrawn() && Recorded()
      ensures Now() == Performed(old(Now()), kind, redrawSequence != 0, effect)
    {
      hide Recorded, Redrawn, Rendered, Performed;
      match kind {
        case Surface => Attach(effect);
        case Detach => Leave(kind, effect);
        case Stop => Leave(kind, effect);
        case Input(input) => TakeInput(input, effect);
        case LifecycleTimeout(redraw) => Note(kind, effect);
        case Snapshot => Note(kind, effect);
        case Visible(on) => Note(kind, effect);
        case Resume(on) => Note(kind, effect);
        case PeakRefreshRate => Note(kind, effect);
      }
    }

    /** A new surface, unless there was an error. */
    method Attach(effect: Effect)
      requires Redrawn() && Recorded()
      modifies `scene, `dirtyVisual, `trace, `error
      ensures Redrawn() && Recorded() && Now() == Performed(old(Now()), Surface, redrawSequence != 0, effect)
    {
      hide Recorded, Redrawn, Rendered;
      if error == "" { CreateSurface(effect.creation, effect.rendering); }
    }

    /** The surface goes, and with the last command so does the worker. */
    method Leave(kind: Kind, effect: Effect)
      requires Redrawn() && Recorded() && (kind == Detach || kind == Stop)
      modifies `scene, `dirtyVisual, `stopping
      ensures Redrawn() && Recorded() && Now() == Performed(old(Now()), kind, redrawSequence != 0, effect)
    {
      hide Recorded, FrameSince, Rendered;
      ReleaseSurface();
      if kind == Stop { stopping := true; }
    }

    /** The commands that leave the window as it is. */
    method Note(kind: Kind, effect: Effect)
      requires Redrawn() && Recorded()
      requires kind != Redraw && kind != Surface && kind != Detach && kind != Stop && !kind.Input?
      modifies `error, `visible, `resumed, `dirtyVisual
      ensures Redrawn() && Recorded()
      ensures Now() == Performed(old(Now()), kind, redrawSequence != 0, effect)
    {
      hide Recorded, FrameSince, Rendered;
      match kind {
        case LifecycleTimeout(redraw) => error := if redraw then REDRAW_TIMEOUT else SNAPSHOT_TIMEOUT;
        case Snapshot =>
        case Visible(on) =>
          visible := on;
          if visible { dirtyVisual := true; }
        case Resume(on) =>
          resumed := on;
          dirtyVisual := true;
        case PeakRefreshRate =>
      }
    }

    method TakeInput(input: InputKind, effect: Effect)
      requires Redrawn() && Recorded()
      modifies `paused, `dirtyVisual
      ensures Redrawn() && Recorded() && Now() == Performed(old(Now()), Input(input), redrawSequence != 0, effect)
    {
      hide Recorded, FrameSince, Rendered;
      if MayPause(input) && effect.pauses { paused := !paused; }
      dirtyVisual := true;
    }

    lemma NextRuns()
      requires InOrder() && batch != []
      ensures batch[0] == Command(issued[|ran|], |ran| + 1)
      ensures Numbered(ran + [batch[0]], issued, 0) && Numbered(batch[1..], issued, |ran| + 1)
    {
    }

    /** The rendering thread takes everything that is queued. */
    method Take()
      requires Valid()
      modifies `batch, `commands, `processing
      ensures Valid()
      ensures if old(processing) || stopping || exited then batch == old(batch) && commands == old(commands) &&
        processing == old(processing)
        else batch == old(commands) && commands == [] && processing
    {
      hide Honest, InTurn, FrameSince, Acknowledged;
      if !processing && !stopping && !exited {
        batch, commands, processing := commands, [], true;
      }
    }

    method Publish()
      requires InOrder() && completedSequence == |ran| && Redrawn() && Recorded() && Answered()
      modifies `publishedError, `completedRedraw, `redrawSequence, `trace
      ensures Valid() && publishedError == error && completedRedraw >= old(completedRedraw) && old(trace) <= trace
    {
      hide Recorded, Redrawn, InOrder, Answered;
      PublishState();
    }

    /** What drawing a frame leaves, or not drawing one. */
    ghost predicate DrewIf(draws: bool, waits: bool, how: Rendering, before: Screen, trace: seq<Event>)
      reads `scene, `error, `dirtyVisual, `visible, `resumed, `paused, `stopping, `publishedError, `trace
    {
      if draws then
        && Now() == Rendered(before, waits, how) && publishedError == error
        && trace + [Frame(how, waits)] <= this.trace
      else Now() == before && this.trace == trace
    }

    /** After the last command of a batch, a window at rest is brought up to date. */
    method Finish(how: Rendering)
      requires Valid()
      modifies `processing, `dirtyVisual, `trace, `error, `publishedError, `completedRedraw, `redrawSequence
      ensures Valid() && completedRedraw >= old(completedRedraw)
      ensures processing == (old(processing) && batch != [])
      ensures old(processing) && batch == [] ==> publishedError == error
      ensures Now() == if old(processing && batch == [] && dirtyVisual && (paused || !resumed) && !stopping)
        then Rendered(old(Now()), old(redrawSequence) != 0, how) else old(Now())
    {
      hide Recorded, Numbered, FrameSince, AnsweredBy, Rendered, Due;
      if processing && batch == [] {
        if dirtyVisual && (!resumed || paused) && !stopping {
          DrawAndRecord(false, how);
        }
        processing := false;
        Publish();
      }
    }

    predicate Animating()
      reads this
    {
      !stopping && scene && error == "" && resumed && !paused
    }

    predicate NeedsFrame()
      reads this
    {
      !stopping && scene && error == "" && (dirtyVisual || (resumed && !paused))
    }

    method OnFrame(timed: bool, how: Rendering)
      requires Valid()
      modifies `dirtyVisual, `trace, `error, `publishedError, `completedRedraw, `redrawSequence
      ensures Valid() && completedRedraw >= old(completedRedraw)
      ensures DrewIf(
        old(!processing && !exited && !stopping && scene && error == "" &&
          if resumed && !paused then !timed else dirtyVisual),
        old(redrawSequence != 0), how, old(Now()), old(trace))
    {
      hide Recorded, FrameSince, InOrder;
      if !processing && !exited && NeedsFrame() && !(Animating() && timed) {
        DrawAndRecord(false, how);
        Publish();
      }
    }

    method OnFrameTimer(slotted: bool, how: Rendering)
      requires Valid()
      modifies `dirtyVisual, `trace, `error, `publishedError, `completedRedraw, `redrawSequence
      ensures Valid() && completedRedraw >= old(completedRedraw)
      ensures DrewIf(
        old(!processing && !exited && !stopping && scene && error == "" && resumed && !paused && slotted),
        old(redrawSequence != 0), how, old(Now()), old(trace))
    {
      hide Recorded, FrameSince, InOrder;
      if !processing && !exited && Animating() && slotted {
        DrawAndRecord(false, how);
        Publish();
      }
    }

    /** Between commands, a window that can be seen and drawn is looked at for its size. */
    ghost predicate Looks()
      reads this
    {
      && !processing && !exited && !stopping && scene && error == ""
      && !(!visible && !resumed && !dirtyVisual)
    }

    predicate NeedsCheck()
      reads this
    {
      !processing && !exited && !stopping && scene && error == "" && (visible || resumed || dirtyVisual)
    }

    method CheckSurface(check: Check, how: Rendering)
      requires Valid()
      modifies `dirtyVisual, `trace, `error, `publishedError, `completedRedraw, `redrawSequence
      ensures Valid() && completedRedraw >= old(completedRedraw)
      ensures old(Looks()) && check.CheckFailed? ==>
        Now() == old(Now()).(error := check.message) && publishedError == check.message
      ensures !(old(Looks()) && check.CheckFailed?) ==>
        DrewIf(old(Looks() && (check.Resized? || dirtyVisual)), old(redrawSequence != 0), how, old(Now()), old(trace))
    {
      hide FrameSince, InOrder, Honest, InTurn, Acknowledged;
      if !NeedsCheck() {
        return;
      }
      if check.CheckFailed? {
        error := check.message;
        Publish();
        return;
      }
      if check.Resized? {
        dirtyVisual := true;
      }
      if dirtyVisual {
        DrawAndRecord(false, how);
        Publish();
      }
    }

    /** The thread's looper cannot be made: before it took anything, it stops with an error. */
    method FailToStart()
      requires Valid()
      modifies `stopping, `error, `publishedError, `completedRedraw, `redrawSequence, `trace
      ensures Valid() && completedRedraw >= old(completedRedraw)
      ensures if ran == [] && !processing then
          Now() == old(Now()).(error := "Cannot initialize the rendering looper", stopping := true) &&
          publishedError == error
        else Now() == old(Now()) && trace == old(trace)
    {
      hide Honest, InTurn, FrameSince, Acknowledged, Numbered;
      if completedSequence == 0 && !processing {
        error, stopping := LOOPER_FAILED, true;
        Publish();
      }
    }

    method Exit()
      requires Valid()
      modifies `exited
      ensures Valid() && (exited <==> old(exited) || (stopping && !processing))
    {
      if stopping && !processing {
        exited := true;
      }
    }

    /** Whatever happens, commands run in order and acknowledgments stay honest. */
    method Step(turn: Turn)
      requires Valid()
      modifies this
      ensures Valid()
      ensures old(issued) <= issued && old(ran) <= ran && completedRedraw >= old(completedRedraw)
      ensures deadlineFailed == old(deadlineFailed) && (old(exited) ==> exited)
    {
      hide Valid;
      match turn {
        case Enqueued(kind) => var sequence := Enqueue(kind);
        case Taken => Take();
        case Executed(effect) => if batch != [] { var command := Execute(effect); }
        case Finished(rendering) => Finish(rendering);
        case FrameCallback(timed, rendering) => OnFrame(timed, rendering);
        case FrameTimer(slotted, rendering) => OnFrameTimer(slotted, rendering);
        case SurfaceChecked(check, rendering) => CheckSurface(check, rendering);
        case LooperFailed => FailToStart();
        case Exited => Exit();
      }
    }

    method Run(turns: seq<Turn>)
      requires Valid()
      modifies this
      ensures Valid()
      ensures old(issued) <= issued && old(ran) <= ran && completedRedraw >= old(completedRedraw)
      ensures deadlineFailed == old(deadlineFailed) && (old(exited) ==> exited)
    {
      hide Valid;
      for i := 0 to |turns|
        invariant Valid()
        invariant old(issued) <= issued && old(ran) <= ran && completedRedraw >= old(completedRedraw)
        invariant deadlineFailed == old(deadlineFailed) && (old(exited) ==> exited)
      {
        Step(turns[i]);
      }
    }

    predicate Pending(kind: Kind, sequence: nat)
      reads this
    {
      !exited && (kind == Stop || completedSequence < sequence || (kind == Redraw && completedRedraw < sequence))
    }

    /** The command with this number has run, with everything issued before it and nothing out of turn. */
    ghost predicate HasRun(kind: Kind, sequence: nat)
      reads this
    {
      && 0 < sequence <= |ran| && ran[sequence - 1] == Command(kind, sequence)
      && Numbered(ran, issued, 0)
    }

    /** Enqueue a command and wait until it is done, the rendering thread is gone or the deadline passes. */
    method Synchronize(kind: Kind, waits: seq<Wait>) returns (outcome: Outcome, ghost waited: nat)
      requires Valid()
      modifies this
      ensures Valid() && old(issued) + [kind] <= issued
      ensures waited <= |waits| && forall i :: 0 <= i < waited - 1 ==> !waits[i].expired
      ensures outcome.TimedOut? || outcome.Aborted? ==>
        && (waited == |waits| || (0 < waited && waits[waited - 1].expired))
        && !exited
        && (kind == Stop || |ran| <= |old(issued)| || (kind == Redraw && completedRedraw <= |old(issued)|))
      ensures outcome.Succeeded? || outcome.Failed? ==>
        exited || (kind != Stop && HasRun(kind, |old(issued)| + 1) &&
          (kind == Redraw ==> Honored(trace, |old(issued)| + 1)))
      ensures outcome.Succeeded? ==> publishedError == ""
      ensures outcome.Failed? ==> publishedError == outcome.message && outcome.message != ""
      ensures outcome.TimedOut? || outcome.Aborted? ==> deadlineFailed
      ensures outcome.Aborted? ==> kind == Detach || kind == Stop
      ensures outcome.TimedOut? ==>
        kind != Detach && kind != Stop && issued[|issued| - 1] == LifecycleTimeout(kind == Redraw)
    {
      hide Valid, HasRun;
      var sequence := Enqueue(kind);
      ghost var known := issued;
      var next := 0;
      waited := 0;
      while Pending(kind, sequence)
        invariant Valid() && known <= issued && sequence == |known|
        invariant next <= |waits| || !Pending(kind, sequence)
        invariant waited <= next && waited <= |waits| && (next <= |waits| ==> waited == next)
        invariant forall i :: 0 <= i < waited && waits[i].expired ==> i == waited - 1 && !Pending(kind, sequence)
        decreases |waits| + 1 - next
      {
        var expired := next >= |waits| || waits[next].expired;
        if next < |waits| {
          Run(waits[next].turns);
          waited := next + 1;
        }
        next := next + 1;
        if expired && Pending(kind, sequence) {
          StillPending(kind, sequence);
          Expire();
          if kind == Detach || kind == Stop {
            return Aborted, waited;
          }
          var timeout := Enqueue(LifecycleTimeout(kind == Redraw));
          return TimedOut, waited;
        }
      }
      if !exited { Done(kind, sequence); }
      return if publishedError == "" then Succeeded else Failed(publishedError), waited;
    }

    lemma StillPending(kind: Kind, sequence: nat)
      requires Valid() && Pending(kind, sequence)
      ensures !exited && (kind == Stop || |ran| < sequence || (kind == Redraw && completedRedraw < sequence))
    {
      hide Honest, InTurn, Redrawn, Acknowledged;
    }

    method Expire()
      requires Valid()
      modifies `deadlineFailed
      ensures Valid() && deadlineFailed
    {
      deadlineFailed := true;
    }

    /** What is no longer pending, while the thread lives, has run and been acknowledged. */
    lemma Done(kind: Kind, sequence: nat)
      requires Valid() && !Pending(kind, sequence) && !exited && 0 < sequence <= |issued| &&
        issued[sequence - 1] == kind
      ensures kind != Stop && HasRun(kind, sequence) && (kind == Redraw ==> Honored(trace, sequence))
    {
      hide Honest, InTurn, Redrawn, Acknowledged, Honored;
      if kind == Redraw {
        AckCovers(trace, completedRedraw, sequence);
        OvertakenIsHonored(trace, ran, ran[sequence - 1]);
      }
    }
  }

  lemma AckIsLast(trace: seq<Event>, sequence: nat)
    requires trace != [] && trace[|trace| - 1].Acked? && trace[|trace| - 1].sequence == sequence
    ensures Acknowledged(trace, sequence)
  {
  }

  lemma AckCovers(trace: seq<Event>, later: nat, sequence: nat)
    ensures Acknowledged(trace, later) && sequence <= later ==> Acknowledged(trace, sequence)
  {
  }
}
