/** The single-slot mailbox between the client and the worker, over every interleaving of their steps. */
module Mailboxes {
  datatype Order = Nothing | Search | Open | Rescan | Join | Stop

  /** Fields under the mutex, then the worker's, then the client's. */
  datatype Mail = Mail(
    order: Order, sequence: nat, pending: nat, interrupted: bool, shared: nat,
    running: Order, current: nat, executed: seq<nat>, exited: bool,
    awaiting: nat, applied: seq<nat>, stopped: bool)

  /** What a thread does in one go while it holds the mutex, or the client between calls. */
  datatype Turn = Send(order: Order) | Destroy | Take | Publish | Finish | OnSession

  function Initial(): Mail {
    Mail(Nothing, 0, 0, false, 0, Nothing, 0, [], false, 0, [], false)
  }

  predicate Enabled(m: Mail, turn: Turn) {
    match turn
    case Send(order) => order != Nothing && order != Stop
    case Destroy => true
    case Take => m.order != Nothing && m.running == Nothing && !m.exited
    case Publish => m.running != Nothing
    case Finish => m.running != Nothing
    case OnSession => true
  }

  function After(m: Mail, turn: Turn): Mail {
    match turn
    case Send(order) =>
      var n := m.sequence + 1;
      if m.order == Stop then m.(sequence := n, awaiting := n)
      else m.(sequence := n, pending := n, order := order, interrupted := true, awaiting := n)
    case Destroy => m.(order := Stop, interrupted := true, stopped := true)
    case Take =>
      m.(running := m.order, current := m.pending, order := Nothing, interrupted := false,
         executed := if m.order == Stop then m.executed else m.executed + [m.pending])
    case Publish => m.(shared := m.current)
    case Finish => m.(running := Nothing, exited := m.running == Stop)
    case OnSession => if m.shared < m.awaiting then m else m.(applied := m.applied + [m.shared])
  }

  function Reached(turns: seq<Turn>): Mail {
    if turns == [] then Initial() else After(Reached(turns[..|turns| - 1]), turns[|turns| - 1])
  }

  /** An interleaving in which every turn could be taken. */
  ghost predicate Possible(turns: seq<Turn>) {
    turns == [] || var before := turns[..|turns| - 1];
      Possible(before) && Enabled(Reached(before), turns[|turns| - 1])
  }

  ghost predicate Increasing(s: seq<nat>) {
    forall i, j :: 0 <= i < j < |s| ==> s[i] < s[j]
  }

  function Last(s: seq<nat>): nat { if s == [] then 0 else s[|s| - 1] }

  ghost predicate Invariant(m: Mail) {
    && (m.interrupted <==> m.order != Nothing)
    && m.shared <= m.current <= m.pending <= m.sequence == m.awaiting
    && (m.order != Nothing && m.order != Stop ==> m.current < m.pending)
    && (m.stopped ==> m.order == Stop || m.running == Stop || m.exited)
    && (m.order == Stop || m.running == Stop || m.exited ==> m.stopped)
    && (m.exited ==> m.running == Nothing)
    && Increasing(m.executed) && (forall i :: 0 <= i < |m.executed| ==> m.executed[i] <= m.current)
    && (!m.stopped ==> m.pending == m.sequence && m.current == Last(m.executed))
    && (!m.stopped && m.order == Nothing ==> m.current == m.sequence)
  }

  /** Each turn, whoever takes it, keeps the invariant. */
  lemma TurnKeeps(m: Mail, turn: Turn)
    requires Invariant(m) && Enabled(m, turn)
    ensures Invariant(After(m, turn))
  {
    if turn.Take? && m.order != Stop {
      var executed := m.executed + [m.pending];
      assert forall i :: 0 <= i < |m.executed| ==> executed[i] == m.executed[i];
    }
  }

  /** Whenever the mutex is free: the flag says whether an order waits, numbers rise, nothing newest is lost. */
  lemma {:induction false} AlwaysInvariant(turns: seq<Turn>)
    requires Possible(turns)
    ensures Invariant(Reached(turns))
  {
    hide Invariant, After, Enabled;
    if turns == [] { InitialInvariant(); }
    else {
      AlwaysInvariant(turns[..|turns| - 1]);
      TurnKeeps(Reached(turns[..|turns| - 1]), turns[|turns| - 1]);
    }
  }

  lemma InitialInvariant()
    ensures Invariant(Initial())
  {
  }

  /** A snapshot the client applies is always about the last command it sent. */
  lemma AppliedIsNewest(turns: seq<Turn>)
    requires Possible(turns) && Reached(turns).shared >= Reached(turns).awaiting
    ensures Reached(turns).shared == Reached(turns).sequence
  {
    AlwaysInvariant(turns);
  }

  /** The newest command waits or has been taken up, unless a stop came; a stop is never replaced. */
  lemma NewestIsKept(turns: seq<Turn>)
    requires Possible(turns)
    ensures var m := Reached(turns);
      && (!m.stopped ==> if m.order == Nothing then Last(m.executed) == m.sequence else m.pending == m.sequence)
      && (Destroy in turns ==> m.order == Stop || m.running == Stop || m.exited)
  {
    AlwaysInvariant(turns);
    StoppedByDestroy(turns);
  }

  lemma {:induction false} StoppedByDestroy(turns: seq<Turn>)
    ensures Reached(turns).stopped <==> Destroy in turns
  {
    if turns != [] {
      var before := turns[..|turns| - 1];
      StoppedByDestroy(before);
      assert turns == before + [turns[|turns| - 1]];
    }
  }

  /** The mutex-guarded fields, each method one critical section. */
  class Mailbox {
    var command: Order
    var argument: int
    var password: string
    var sequence: nat
    var pending: nat
    var interrupted: bool
    var shared: nat
    // Used only by the worker.
    var running: Order
    var current: nat
    ghost var executed: seq<nat>
    ghost var exited: bool
    ghost var stopped: bool
    ghost var applied: seq<nat>
    // Used only by the client.
    var awaiting: nat

    ghost function M(): Mail
      reads this
    {
      Mail(command, sequence, pending, interrupted, shared, running, current, executed, exited, awaiting, applied,
        stopped)
    }

    /** What holds whenever the mutex is free. */
    ghost predicate Valid()
      reads this
    {
      Invariant(M())
    }

    constructor ()
      ensures Valid() && M() == Initial()
    {
      command, argument, password, sequence, pending, interrupted, shared := Nothing, -1, "", 0, 0, false, 0;
      running, current, executed, exited, stopped, applied, awaiting := Nothing, 0, [], false, false, [], 0;
    }

    /** A command replaces the waiting one, unless that is a stop. */
    method SendCommand(order: Order, argument: int, password: string) returns (number: nat)
      requires Valid() && Enabled(M(), Send(order))
      modifies this
      ensures Valid() && M() == After(old(M()), Send(order)) && number == sequence
      ensures old(command) != Stop ==> this.argument == argument && this.password == password
    {
      hide Invariant, Enabled;
      TurnKeeps(M(), Send(order));
      sequence := sequence + 1;
      number := sequence;
      if command != Stop {
        pending := number;
        command := order;
        this.argument := argument;
        this.password := password;
        interrupted := true;
      }
      awaiting := number;
    }

    method Shutdown()
      requires Valid()
      modifies this
      ensures Valid() && M() == After(old(M()), Destroy)
    {
      hide Invariant;
      TurnKeeps(M(), Destroy);
      command := Stop;
      interrupted := true;
      stopped := true;
    }

    /** The worker takes what waits, with its password. */
    method TakeCommand() returns (order: Order, argument: int, password: string)
      requires Valid() && Enabled(M(), Take)
      modifies this
      ensures Valid() && M() == After(old(M()), Take)
      ensures order == old(command) && argument == old(this.argument) && password == old(this.password) &&
        this.password == ""
    {
      hide Invariant;
      TurnKeeps(M(), Take);
      order, argument, password := command, this.argument, this.password;
      this.password := "";
      current := pending;
      executed := if command == Stop then executed else executed + [pending];
      running := command;
      command := Nothing;
      interrupted := false;
    }

    method PublishSnapshot()
      requires Valid() && Enabled(M(), Publish)
      modifies this
      ensures Valid() && M() == After(old(M()), Publish)
    {
      hide Invariant;
      TurnKeeps(M(), Publish);
      shared := current;
    }

    method FinishCommand()
      requires Valid() && Enabled(M(), Finish)
      modifies this
      ensures Valid() && M() == After(old(M()), Finish)
    {
      hide Invariant;
      TurnKeeps(M(), Finish);
      exited := running == Stop;
      running := Nothing;
    }

    /** The client ignores snapshots of commands it has replaced. */
    method TakeSnapshot() returns (apply: bool)
      requires Valid()
      modifies this
      ensures Valid() && M() == After(old(M()), OnSession) && (apply <==> M() != old(M()))
    {
      hide Invariant;
      TurnKeeps(M(), OnSession);
      if shared < awaiting { return false; }
      applied := applied + [shared];
      apply := true;
    }

    /** Any interleaving of the threads' critical sections on the fields. */
    method Interleave(turns: seq<Turn>)
      requires M() == Initial() && Possible(turns)
      modifies this
      ensures Valid() && M() == Reached(turns)
    {
      hide Invariant, After, Enabled, Initial, Possible;
      InitialInvariant();
      NothingReached(turns);
      for i := 0 to |turns|
        invariant Valid() && M() == Reached(turns[..i])
      {
        PrefixPossible(turns, i);
        assert turns[..i + 1][..i] == turns[..i];
        match turns[i] {
          case Send(order) => var number := SendCommand(order, -1, "");
          case Destroy => Shutdown();
          case Take => var order, argument, password := TakeCommand();
          case Publish => PublishSnapshot();
          case Finish => FinishCommand();
          case OnSession => var apply := TakeSnapshot();
        }
      }
      assert turns[..|turns|] == turns;
    }
  }

  lemma NothingReached(turns: seq<Turn>)
    ensures Reached(turns[..0]) == Initial()
  {
  }

  /** In a possible interleaving each turn could be taken when it was. */
  lemma {:induction false} PrefixPossible(turns: seq<Turn>, i: nat)
    requires Possible(turns) && i < |turns|
    ensures Enabled(Reached(turns[..i]), turns[i])
    decreases |turns|
  {
    hide Enabled, After;
    if i < |turns| - 1 {
      assert turns[..|turns| - 1][..i] == turns[..i];
      PrefixPossible(turns[..|turns| - 1], i);
    }
  }
}
