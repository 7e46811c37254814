/** The life of a PTY child: `wait`, `terminate` and `Drop` share the child behind
    a mutex and a once-flag, and the cleanup runs SIGTERM, a grace period, SIGKILL
    and a reap. Any number of callers, in any interleaving with the processes. */
module Pty {
  import opened Common

  // ---- State -----------------------------------------------------------------------

  /** The direct child: running, dead but not waited for, or reaped. */
  datatype Child = Running | Zombie | Reaped

  const CHILD: nat := 0

  /** How a successful call ended. */
  datatype Path =
    | Waited          // `wait` reaped the child, or found it reaped
    | Skipped         // the cleanup had already been claimed
    | AlreadyExited   // the first status check saw an exit
    | Signalled       // SIGTERM, grace, SIGKILL, reap

  /** Where a call is. `WaitHolding` and the states from `Checking` to `Reaping`
      hold the mutex; `Alive` has just found the child running. */
  datatype Pc =
    | WaitQueued
    | WaitHolding
    | Starting
    | Queued
    | Checking
    | Terming
    | Polling
    | Alive
    | Killing(exited: bool)
    | Reaping
    | Succeeded(path: Path)
    | WaitFailed
    | GaveUp

  datatype Signal = Term | Kill

  /** A signal sent to the group, and whether the child was reaped by then. */
  datatype Sent = Sent(signal: Signal, reaped: bool)

  /** `group` maps the living members of the process group to whether they ignore
      SIGTERM; the direct child is member 0 while it runs. */
  datatype World = World(
    child: Child,
    group: map<nat, bool>,
    lock: Option<nat>,
    cleanupStarted: bool,
    calls: seq<Pc>,
    signals: seq<Sent>)

  const INITIAL: World := World(Running, map[CHILD := false], None, false, [], [])

  datatype Event =
    // calls
    | CallWait
    | CallCleanup
    | Swap(call: nat)
    | Acquire(call: nat)
    | WaitReturns(call: nat)
    | Check(call: nat)
    | SendTerm(call: nat, dying: set<nat>)
    | Poll(call: nat)
    | Deadline(call: nat)
    | Sleeps(call: nat)
    | SendKill(call: nat)
    | Reap(call: nat)
    | SystemError(call: nat)
    // processes
    | Exits(pid: nat)
    | Forks(pid: nat, child: nat)
    | Leaves(pid: nat)
    | SetsMask(pid: nat, ignoresTerm: bool)

  function At(w: World, call: nat): Option<Pc> {
    if call < |w.calls| then Some(w.calls[call]) else None
  }

  function Goto(w: World, call: nat, pc: Pc): World
    requires call < |w.calls|
  {
    w.(calls := w.calls[call := pc])
  }

  /** Leaving the critical section. */
  function Finish(w: World, call: nat, pc: Pc): World
    requires call < |w.calls|
  {
    Goto(w, call, pc).(lock := None)
  }

  /** A dead child is one the next `try_wait` or `wait` reaps. */
  function AfterDeaths(w: World, dying: set<nat>): World {
    w.(group := w.group - dying, child := if CHILD in dying && w.child == Running then Zombie else w.child)
  }

  predicate Enabled(w: World, e: Event) {
    match e
    case CallWait => true
    case CallCleanup => true
    case Swap(c) => At(w, c) == Some(Starting)
    case Acquire(c) => w.lock == None && (At(w, c) == Some(Queued) || At(w, c) == Some(WaitQueued))
    case WaitReturns(c) => At(w, c) == Some(WaitHolding) && w.child != Running
    case Check(c) => At(w, c) == Some(Checking)
    case SendTerm(c, dying) =>
      && At(w, c) == Some(Terming)
      && dying <= w.group.Keys
      && forall p :: p in dying ==> !w.group[p]
    case Poll(c) => At(w, c) == Some(Polling)
    case Deadline(c) => At(w, c) == Some(Alive)
    case Sleeps(c) => At(w, c) == Some(Alive)
    case SendKill(c) => At(w, c).Some? && At(w, c).value.Killing?
    case Reap(c) => At(w, c) == Some(Reaping) && w.child != Running
    case SystemError(c) => At(w, c).Some? && CanFail(At(w, c).value)
    case Exits(p) => p in w.group
    case Forks(p, q) => p in w.group && q !in w.group && q != CHILD
    case Leaves(p) => p in w.group && p != CHILD
    case SetsMask(p, _) => p in w.group
  }

  /** The steps at which the call may end with an error. */
  predicate CanFail(pc: Pc) {
    pc.WaitQueued? || pc.Queued? || Holds(pc)
  }

  predicate Holds(pc: Pc) {
    pc.WaitHolding? || InCleanup(pc)
  }

  /** Inside the cleanup body. */
  predicate InCleanup(pc: Pc) {
    pc.Checking? || pc.Terming? || pc.Polling? || pc.Alive? || pc.Killing? || pc.Reaping?
  }

  /** The call returns an error; a holder releases the mutex. */
  function OnError(w: World, c: nat): World
    requires c < |w.calls|
  {
    var pc := w.calls[c];
    var end := if pc.WaitQueued? || pc.WaitHolding? then WaitFailed else GaveUp;
    if Holds(pc) then Finish(w, c, end) else Goto(w, c, end)
  }

  /** `try_wait`: the exit is seen if the child is not running, and it is then reaped. */
  function OnCheck(w: World, c: nat): World
    requires c < |w.calls|
  {
    if w.child == Running then
      Goto(w, c, Terming)
    else
      Finish(w.(child := Reaped), c, Succeeded(AlreadyExited))
  }

  function OnPoll(w: World, c: nat): World
    requires c < |w.calls|
  {
    if w.child == Running then Goto(w, c, Alive) else Goto(w.(child := Reaped), c, Killing(true))
  }

  function OnKill(w: World, c: nat, exited: bool): World
    requires c < |w.calls|
  {
    var v := AfterDeaths(w, w.group.Keys).(signals := w.signals + [Sent(Kill, w.child == Reaped)]);
    if exited then Finish(v, c, Succeeded(Signalled)) else Goto(v, c, Reaping)
  }

  function Handle(w: World, e: Event): World
    requires Enabled(w, e)
  {
    match e
    case CallWait => w.(calls := w.calls + [WaitQueued])
    case CallCleanup => w.(calls := w.calls + [Starting])
    case Swap(c) => Goto(w.(cleanupStarted := true), c, if w.cleanupStarted then Succeeded(Skipped) else Queued)
    case Acquire(c) => Goto(w.(lock := Some(c)), c, if w.calls[c] == Queued then Checking else WaitHolding)
    case WaitReturns(c) => Finish(w.(child := Reaped), c, Succeeded(Waited))
    case Check(c) => OnCheck(w, c)
    case SendTerm(c, dying) =>
      Goto(AfterDeaths(w, dying).(signals := w.signals + [Sent(Term, w.child == Reaped)]), c, Polling)
    case Poll(c) => OnPoll(w, c)
    case Deadline(c) => Goto(w, c, Killing(false))
    case Sleeps(c) => Goto(w, c, Polling)
    case SendKill(c) => OnKill(w, c, w.calls[c].exited)
    case Reap(c) => Finish(w.(child := Reaped), c, Succeeded(Signalled))
    case SystemError(c) => OnError(w, c)
    case Exits(p) => AfterDeaths(w, {p})
    case Forks(p, q) => w.(group := w.group[q := w.group[p]])
    case Leaves(p) => w.(group := w.group - {p})
    case SetsMask(p, ignores) => w.(group := w.group[p := ignores])
  }

  /** An event that cannot happen is skipped, so every sequence is a run. */
  function Step(w: World, e: Event): World {
    if Enabled(w, e) then Handle(w, e) else w
  }

  function Exec(w: World, events: seq<Event>): World {
    if events == [] then w else Step(Exec(w, events[..|events| - 1]), events[|events| - 1])
  }

  function After(events: seq<Event>): World {
    Exec(INITIAL, events)
  }

  // ---- Invariant ---------------------------------------------------------------------

  /** Has not claimed the cleanup. */
  predicate Outside(pc: Pc) {
    || pc.WaitQueued? || pc.WaitHolding? || pc.WaitFailed? || pc.Starting?
    || pc == Succeeded(Waited) || pc == Succeeded(Skipped)
  }

  predicate LockOk(w: World) {
    && (forall c :: 0 <= c < |w.calls| ==> (Holds(w.calls[c]) <==> w.lock == Some(c)))
    && (w.lock.Some? ==> w.lock.value < |w.calls|)
  }

  /** How many signals a call in this state has had sent, and what it knows. */
  predicate CallOk(w: World, pc: Pc) {
    match pc
    case Queued => w.signals == []
    case Checking => w.signals == []
    case Terming => w.signals == [] && w.child != Reaped
    case Polling => w.signals == [Sent(Term, false)] && w.child != Reaped
    case Alive => w.signals == [Sent(Term, false)] && w.child != Reaped
    case Killing(exited) => w.signals == [Sent(Term, false)] && (exited <==> w.child == Reaped)
    case Reaping => w.signals == [Sent(Term, false), Sent(Kill, false)] && w.group == map[] && w.child == Zombie
    case Succeeded(Waited) => w.child == Reaped
    case Succeeded(Skipped) => w.cleanupStarted
    case Succeeded(AlreadyExited) => w.signals == [] && w.child == Reaped
    case Succeeded(Signalled) =>
      && w.child == Reaped && w.group == map[]
      && |w.signals| == 2 && w.signals[0] == Sent(Term, false) && w.signals[1].signal == Kill
    case _ => true
  }

  /** SIGTERM at most once and only before the reap, SIGKILL at most once and after it. */
  predicate SignalsOk(signals: seq<Sent>) {
    && |signals| <= 2
    && (|signals| > 0 ==> signals[0] == Sent(Term, false))
    && (|signals| > 1 ==> signals[1].signal == Kill)
  }

  predicate Inv(w: World) {
    && LockOk(w)
    && (w.child == Running <==> CHILD in w.group)
    && SignalsOk(w.signals)
    && (forall c :: 0 <= c < |w.calls| ==> CallOk(w, w.calls[c]))
    && (!w.cleanupStarted ==> w.signals == [] && forall c :: 0 <= c < |w.calls| ==> Outside(w.calls[c]))
    // the cleanup is claimed at most once
    && (forall c, d :: 0 <= c < d < |w.calls| ==> Outside(w.calls[c]) || Outside(w.calls[d]))
  }

  /** A step of the call that owns the cleanup leaves the other calls as they were. */
  lemma OwnerStep(w: World, v: World, c: nat)
    requires Inv(w) && c < |w.calls| && |v.calls| == |w.calls|
    requires !Outside(w.calls[c]) && v.calls == w.calls[c := v.calls[c]]
    requires v.lock == (if Holds(v.calls[c]) then Some(c) else if Holds(w.calls[c]) then None else w.lock)
    requires Holds(v.calls[c]) ==> w.lock == None || w.lock == Some(c)
    requires v.cleanupStarted == w.cleanupStarted
    requires w.child == Reaped ==> v.child == Reaped
    requires v.child == Running <==> CHILD in v.group
    requires SignalsOk(v.signals)
    requires CallOk(v, v.calls[c])
    ensures Inv(v)
  {
    forall d | 0 <= d < |v.calls| ensures CallOk(v, v.calls[d]) {
      if d != c {
        assert Outside(w.calls[d]);
        assert CallOk(w, w.calls[d]);
      }
    }
    assert LockOk(v);
  }

  /** A step of a call that has not claimed the cleanup. */
  lemma OutsiderStep(w: World, v: World, c: nat)
    requires Inv(w) && c < |w.calls| && |v.calls| == |w.calls|
    requires Outside(w.calls[c]) && v.calls == w.calls[c := v.calls[c]]
    requires v.lock == (if Holds(v.calls[c]) then Some(c) else if Holds(w.calls[c]) then None else w.lock)
    requires Holds(v.calls[c]) ==> w.lock == None || w.lock == Some(c)
    requires v.signals == w.signals && v.group == w.group
    requires v.child == w.child || (v.child == Reaped && w.child != Running && Holds(w.calls[c]))
    requires CallOk(v, v.calls[c])
    requires if Outside(v.calls[c]) then v.cleanupStarted == w.cleanupStarted else v.cleanupStarted && !w.cleanupStarted
    ensures Inv(v)
  {
    forall d | 0 <= d < |v.calls| ensures CallOk(v, v.calls[d]) {
      if d != c {
        assert CallOk(w, w.calls[d]);
      }
    }
    assert LockOk(v);
  }

  lemma CallsKeep(w: World, e: Event)
    requires Inv(w) && Enabled(w, e)
    requires e.CallWait? || e.CallCleanup?
    ensures Inv(Handle(w, e))
  {
    forall d | 0 <= d < |w.calls| ensures CallOk(w, Handle(w, e).calls[d]) {
      assert CallOk(w, w.calls[d]);
    }
  }

  lemma OutsiderKeeps(w: World, e: Event, c: nat)
    requires Inv(w) && Enabled(w, e)
    requires e == Swap(c) || e == WaitReturns(c) || (e == Acquire(c) && w.calls[c].WaitQueued?)
    ensures Inv(Handle(w, e))
  {
    OutsiderStep(w, Handle(w, e), c);
  }

  lemma ErrorKeeps(w: World, c: nat)
    requires Inv(w) && Enabled(w, SystemError(c))
    ensures Inv(Handle(w, SystemError(c)))
  {
    if Outside(w.calls[c]) {
      OutsiderStep(w, OnError(w, c), c);
    } else {
      OwnerStep(w, OnError(w, c), c);
    }
  }

  lemma CleanupKeeps(w: World, e: Event, c: nat)
    requires Inv(w) && Enabled(w, e)
    requires e == Check(c) || e == Poll(c) || e == Deadline(c) || e == Sleeps(c) || e == SendKill(c) || e == Reap(c)
             || (e == Acquire(c) && w.calls[c].Queued?)
    ensures Inv(Handle(w, e))
  {
    assert CallOk(w, w.calls[c]);
    OwnerStep(w, Handle(w, e), c);
  }

  lemma TermKeeps(w: World, c: nat, dying: set<nat>)
    requires Inv(w) && Enabled(w, SendTerm(c, dying))
    ensures Inv(Handle(w, SendTerm(c, dying)))
  {
    assert CallOk(w, w.calls[c]);
    OwnerStep(w, Handle(w, SendTerm(c, dying)), c);
  }

  lemma ProcessesKeep(w: World, e: Event)
    requires Inv(w) && Enabled(w, e)
    requires e.Exits? || e.Forks? || e.Leaves? || e.SetsMask?
    ensures Inv(Handle(w, e))
  {
  }

  lemma StepKeeps(w: World, e: Event)
    requires Inv(w)
    ensures Inv(Step(w, e))
  {
    if Enabled(w, e) {
      match e {
        case CallWait => CallsKeep(w, e);
        case CallCleanup => CallsKeep(w, e);
        case Swap(c) => OutsiderKeeps(w, e, c);
        case WaitReturns(c) => OutsiderKeeps(w, e, c);
        case Acquire(c) =>
          if w.calls[c].Queued? {
            CleanupKeeps(w, e, c);
          } else {
            OutsiderKeeps(w, e, c);
          }
        case SystemError(c) => ErrorKeeps(w, c);
        case SendTerm(c, dying) => TermKeeps(w, c, dying);
        case Check(c) => CleanupKeeps(w, e, c);
        case Poll(c) => CleanupKeeps(w, e, c);
        case Deadline(c) => CleanupKeeps(w, e, c);
        case Sleeps(c) => CleanupKeeps(w, e, c);
        case SendKill(c) => CleanupKeeps(w, e, c);
        case Reap(c) => CleanupKeeps(w, e, c);
        case _ => ProcessesKeep(w, e);
      }
    }
  }

  lemma {:induction false} ExecKeeps(w: World, events: seq<Event>)
    requires Inv(w)
    ensures Inv(Exec(w, events))
  {
    if events != [] {
      ExecKeeps(w, events[..|events| - 1]);
      StepKeeps(Exec(w, events[..|events| - 1]), events[|events| - 1]);
    }
  }

  /** The invariant holds over every interleaving. */
  lemma AlwaysInv(events: seq<Event>)
    ensures Inv(After(events))
  {
    assert Inv(INITIAL);
    ExecKeeps(INITIAL, events);
  }
}
