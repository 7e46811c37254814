/** The cleanup body as the sequential code it is, run under the mutex while
    everybody else goes on: between any two of its system calls the processes and
    the other callers may do anything. */
module PtyCleanup {
  import opened Common
  import opened Pty
  import opened PtyRuns
  import PtyIo

  /** The event is not a step of the given call. */
  predicate Foreign(e: Event, c: nat) {
    match e
    case Swap(d) => d != c
    case Acquire(d) => d != c
    case WaitReturns(d) => d != c
    case Check(d) => d != c
    case SendTerm(d, _) => d != c
    case Poll(d) => d != c
    case Deadline(d) => d != c
    case Sleeps(d) => d != c
    case SendKill(d) => d != c
    case Reap(d) => d != c
    case SystemError(d) => d != c
    case _ => true
  }

  predicate AllForeign(events: seq<Event>, c: nat) {
    forall i :: 0 <= i < |events| ==> Foreign(events[i], c)
  }

  /** What a cleanup may rely on while others run: its own state, the mutex, the
      signals, and that nobody else reaps the child or revives it. */
  predicate Undisturbed(w: World, v: World, c: nat) {
    && Inv(v)
    && c < |v.calls| && c < |w.calls| && v.calls[c] == w.calls[c]
    && v.signals == w.signals
    && (v.child == Reaped <==> w.child == Reaped)
    && (w.child != Running ==> v.child != Running)
    && (w.group == map[] ==> v.group == map[])
  }

  lemma ForeignCall(w: World, e: Event, c: nat)
    requires LockOk(w) && w.lock == Some(c) && c < |w.calls| && Foreign(e, c) && Enabled(w, e)
    requires !e.Exits? && !e.Forks? && !e.Leaves? && !e.SetsMask?
    ensures var v := Handle(w, e);
            && c < |v.calls| && v.calls[c] == w.calls[c]
            && v.signals == w.signals && v.child == w.child && v.group == w.group
  {
    assert forall d :: 0 <= d < |w.calls| && Holds(w.calls[d]) ==> d == c;
  }

  lemma ForeignStep(w: World, e: Event, c: nat)
    requires Inv(w) && c < |w.calls| && InCleanup(w.calls[c]) && Foreign(e, c)
    ensures Undisturbed(w, Step(w, e), c)
  {
    StepKeeps(w, e);
    assert w.lock == Some(c);
    if Enabled(w, e) && !e.Exits? && !e.Forks? && !e.Leaves? && !e.SetsMask? {
      ForeignCall(w, e, c);
    }
  }

  lemma {:induction false} OthersRun(w: World, events: seq<Event>, c: nat)
    requires Inv(w) && c < |w.calls| && InCleanup(w.calls[c]) && AllForeign(events, c)
    ensures Undisturbed(w, Exec(w, events), c)
  {
    if events != [] {
      var n := |events| - 1;
      OthersRun(w, events[..n], c);
      ForeignStep(Exec(w, events[..n]), events[n], c);
    }
  }

  lemma Goes(start: World, history: seq<Event>, e: Event)
    requires Inv(Exec(start, history)) && Enabled(Exec(start, history), e)
    ensures var w, v := Exec(start, history), Exec(start, history + [e]);
            v == Handle(w, e) && Inv(v) && |v.calls| >= |w.calls|
  {
    StepKeeps(Exec(start, history), e);
    ExecLast(start, history, e);
    CallsStay(Exec(start, history), e);
  }

  lemma CallsStay(w: World, e: Event)
    requires Enabled(w, e)
    ensures |Handle(w, e).calls| >= |w.calls|
  {
  }

  /** The child and its group, seen from one cleanup call. */
  class Cleanup {
    const call: nat
    var world: World
    /** Everything that has happened, in order. */
    ghost var history: seq<Event>
    ghost const start: World

    ghost predicate Valid()
      reads this
    {
      && Inv(world)
      && world == Exec(start, history)
      && call < |world.calls|
    }

    ghost predicate Running(pc: Pc)
      reads this
    {
      Valid() && world.calls[call] == pc && InCleanup(pc)
    }

    constructor (start: World, call: nat)
      requires Inv(start) && call < |start.calls| && start.calls[call] == Checking
      ensures Running(Checking) && world == start && this.start == start && this.call == call
    {
      this.call := call;
      this.world := start;
      this.start := start;
      history := [];
    }

    /** The cleanup is over along the given path, with the mutex free. */
    ghost predicate Ended(path: Path)
      reads this
    {
      Valid() && world.calls[call] == Succeeded(path) && world.lock == None && CallOk(world, Succeeded(path))
    }

    method Do(e: Event)
      requires Valid() && Enabled(world, e)
      modifies this
      ensures Valid() && world == Handle(old(world), e)
    {
      Goes(start, history, e);
      world := Handle(world, e);
      history := history + [e];
    }

    /** Time passes between two system calls. */
    method Others(events: seq<Event>, ghost pc: Pc)
      requires Running(pc) && AllForeign(events, call)
      modifies this
      ensures Running(pc)
    {
      OthersRun(world, events, call);
      ExecSplit(start, history, events);
      world := Exec(world, events);
      history := history + events;
    }

    /** The first `try_wait`. */
    method AlreadyGone() returns (gone: bool)
      requires Running(Checking)
      modifies this
      ensures if gone then Ended(AlreadyExited) else Running(Terming)
      ensures gone <==> old(world.child) != Child.Running
    {
      gone := world.child != Child.Running;
      Do(Check(call));
    }

    method Terminate(obeying: set<nat>)
      requires Running(Terming)
      modifies this
      ensures Running(Polling)
    {
      var dying := set p | p in obeying && p in world.group && !world.group[p];
      Do(SendTerm(call, dying));
    }

    /** One `try_wait` of the grace loop. */
    method Exited() returns (exited: bool)
      requires Running(Polling)
      modifies this
      ensures Running(if exited then Killing(true) else Alive)
    {
      exited := world.child != Child.Running;
      Do(Poll(call));
    }

    method GiveUpWaiting()
      requires Running(Alive)
      modifies this
      ensures Running(Killing(false))
    {
      Do(Deadline(call));
    }

    method Sleep()
      requires Running(Alive)
      modifies this
      ensures Running(Polling)
    {
      Do(Sleeps(call));
    }

    /** `wait_for_child_exit_blocking`, begun at the given time, `clock(k)` being read
        after the k-th check: the same bound on the checks as for the loop alone. */
    method WaitForExit(begin: nat, clock: nat -> nat, others: nat -> seq<Event>) returns (exited: bool, checks: nat)
      requires Running(Polling) && PtyIo.Sleeps(begin, PtyIo.POLL_INTERVAL, clock)
      requires forall k: nat :: AllForeign(others(k), call)
      modifies this
      ensures Running(Killing(exited))
      ensures 1 <= checks <= PtyIo.MostChecks(PtyIo.GRACE_PERIOD, PtyIo.POLL_INTERVAL)
      ensures !exited ==> clock(checks - 1) >= begin + PtyIo.GRACE_PERIOD
    {
      var deadline := begin + PtyIo.GRACE_PERIOD;
      ghost var most := PtyIo.MostChecks(PtyIo.GRACE_PERIOD, PtyIo.POLL_INTERVAL);
      checks := 0;
      while true
        invariant checks < most && Running(Polling)
        decreases most - checks
      {
        var now := clock(checks);
        exited := Exited();
        checks := checks + 1;
        if exited {
          return;
        }
        Others(others(2 * checks), Alive);
        if now >= deadline {
          GiveUpWaiting();
          return;
        }
        Sleep();
        Others(others(2 * checks + 1), Polling);
        PtyIo.MoreChecks(begin, PtyIo.GRACE_PERIOD, PtyIo.POLL_INTERVAL, clock, checks - 1);
      }
    }

    method Kill(exited: bool)
      requires Running(Killing(exited))
      modifies this
      ensures if exited then Ended(Signalled) else Running(Reaping)
    {
      Do(SendKill(call));
      assert CallOk(world, world.calls[call]);
    }

    method WaitForChild()
      requires Running(Reaping)
      modifies this
      ensures Ended(Signalled)
    {
      assert CallOk(world, world.calls[call]);
      Do(Reap(call));
      assert CallOk(world, world.calls[call]);
    }

    /** The second half: SIGKILL to the group, and a reap if the grace loop had
        none. */
    method KillAndReap(exited: bool, others: seq<Event>)
      requires Running(Killing(exited)) && AllForeign(others, call)
      modifies this
      ensures Ended(Signalled)
    {
      Kill(exited);
      if !exited {
        Others(others, Reaping);
        WaitForChild();
      }
    }

    /** From the first signal to the reap. */
    method SignalAndReap(begin: nat, clock: nat -> nat, obeying: set<nat>, others: nat -> seq<Event>)
      returns (checks: nat)
      requires Running(Terming) && PtyIo.Sleeps(begin, PtyIo.POLL_INTERVAL, clock)
      requires forall k: nat :: AllForeign(others(k), call)
      modifies this
      ensures Ended(Signalled)
      ensures 1 <= checks <= PtyIo.MostChecks(PtyIo.GRACE_PERIOD, PtyIo.POLL_INTERVAL)
    {
      Terminate(obeying);
      Others(others(1), Polling);
      var exited;
      exited, checks := WaitForExit(begin, clock, others);
      Others(others(2 * checks + 2), Killing(exited));
      KillAndReap(exited, others(2 * checks + 3));
    }

    /** `terminate_child_process_group_blocking`, its system calls succeeding: it
        ends with the child reaped; unless that had already exited, one SIGTERM and
        one SIGKILL went out, at most 21 status checks of the grace period apart, and
        the whole group is dead. */
    method TerminateGroup(begin: nat, clock: nat -> nat, obeying: set<nat>, others: nat -> seq<Event>)
      returns (path: Path, checks: nat)
      requires Running(Checking) && PtyIo.Sleeps(begin, PtyIo.POLL_INTERVAL, clock)
      requires forall k: nat :: AllForeign(others(k), call)
      modifies this
      ensures Ended(path)
      ensures path == if old(world.child) != Child.Running then AlreadyExited else Signalled
      ensures world.child == Reaped
      ensures if path == Signalled then 1 <= checks <= 21 else checks == 0
      ensures path == Signalled ==>
                && world.group == map[] && |world.signals| == 2
                && world.signals[0] == Sent(Term, false) && world.signals[1].signal == Signal.Kill
    {
      var gone := AlreadyGone();
      if gone {
        return AlreadyExited, 0;
      }
      Others(others(0), Terming);
      checks := SignalAndReap(begin, clock, obeying, others);
      path := Signalled;
    }
  }
}
