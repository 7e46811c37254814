/** Theorems about every interleaving of `wait`, `terminate` and `Drop`. */
module PtyRuns {
  import opened Common
  import opened Pty

  /** The call has claimed the cleanup at some time. */
  predicate Claimed(pc: Pc) {
    !Outside(pc)
  }

  /** At most one call ever runs the cleanup, and only under the mutex. */
  lemma OneCleanup(events: seq<Event>, c: nat, d: nat)
    requires c < |After(events).calls| && d < |After(events).calls| && c != d
    ensures !(Claimed(After(events).calls[c]) && Claimed(After(events).calls[d]))
    ensures !(Holds(After(events).calls[c]) && Holds(After(events).calls[d]))
  {
    AlwaysInv(events);
    assert c < d || d < c;
  }

  /** SIGTERM goes out at most once and only while the child is unreaped; SIGKILL
      at most once and only after SIGTERM. */
  lemma SignalOrder(events: seq<Event>)
    ensures var signals := After(events).signals;
            && (forall i :: 0 <= i < |signals| && signals[i].signal == Term ==> i == 0 && !signals[i].reaped)
            && (forall i :: 0 <= i < |signals| && signals[i].signal == Kill ==> i == 1 && signals[0].signal == Term)
  {
    AlwaysInv(events);
  }

  /** The same at the calls themselves: whoever is about to send SIGTERM has an
      unreaped child, and whoever is about to send SIGKILL has sent SIGTERM. */
  lemma SignalsAreTimely(events: seq<Event>, c: nat, dying: set<nat>)
    ensures Enabled(After(events), SendTerm(c, dying)) ==>
              After(events).child != Reaped && After(events).signals == []
    ensures Enabled(After(events), SendKill(c)) ==> After(events).signals == [Sent(Term, false)]
  {
    AlwaysInv(events);
    if c < |After(events).calls| {
      assert CallOk(After(events), After(events).calls[c]);
    }
  }

  /** A status check of the grace loop goes to the kill exactly if the child is dead,
      which it then reaps, and a cleanup that has been told of the exit says so. */
  lemma PollSeesExit(events: seq<Event>, c: nat)
    requires Enabled(After(events), Poll(c))
    ensures var w, v := After(events), After(events + [Poll(c)]);
            if w.child == Running then v.calls[c] == Alive && v.child == Running
            else v.calls[c] == Killing(true) && v.child == Reaped
  {
    ExecLast(INITIAL, events, Poll(c));
  }

  /** A sleep leads to another status check, the deadline to the kill of a child that was
      not told to be gone. */
  lemma GraceGoesOn(events: seq<Event>, c: nat)
    ensures Enabled(After(events), Sleeps(c)) ==>
              c < |After(events + [Sleeps(c)]).calls| && After(events + [Sleeps(c)]).calls[c] == Polling
    ensures Enabled(After(events), Deadline(c)) ==>
              c < |After(events + [Deadline(c)]).calls| && After(events + [Deadline(c)]).calls[c] == Killing(false)
  {
    ExecLast(INITIAL, events, Sleeps(c));
    ExecLast(INITIAL, events, Deadline(c));
  }

  /** What a successful call promises when it returns. */
  lemma SuccessMeans(events: seq<Event>, c: nat)
    requires c < |After(events).calls| && After(events).calls[c].Succeeded?
    ensures var w := After(events);
            && (w.calls[c].path != Skipped ==> w.child == Reaped)
            && (w.calls[c].path == Signalled ==> w.group == map[] && |w.signals| == 2)
            && (w.calls[c].path == AlreadyExited ==> w.signals == [])
  {
    AlwaysInv(events);
    assert CallOk(After(events), After(events).calls[c]);
  }

  lemma {:induction false} ExecSplit(w: World, first: seq<Event>, rest: seq<Event>)
    ensures Exec(w, first + rest) == Exec(Exec(w, first), rest)
  {
    if rest == [] {
      assert first + rest == first;
    } else {
      var n := |rest| - 1;
      assert (first + rest)[..|first + rest| - 1] == first + rest[..n];
      ExecSplit(w, first, rest[..n]);
    }
  }

  /** A dead group stays dead and a reaped child stays reaped, whatever comes. */
  lemma {:induction false} DeathIsFinal(w: World, events: seq<Event>)
    ensures w.group == map[] ==> Exec(w, events).group == map[]
    ensures w.child == Reaped ==> Exec(w, events).child == Reaped
  {
    if events != [] {
      DeathIsFinal(w, events[..|events| - 1]);
    }
  }

  lemma ExecLast(w: World, events: seq<Event>, e: Event)
    ensures Exec(w, events + [e]) == Step(Exec(w, events), e)
  {
    assert (events + [e])[..|events|] == events;
  }

  lemma ExecOne(w: World, e: Event)
    ensures Exec(w, [e]) == Step(w, e)
  {
    assert [e][..0] == [];
  }

  lemma ExecTwo(w: World, e: Event, f: Event)
    ensures Exec(w, [e, f]) == Step(Step(w, e), f)
  {
    ExecOne(w, e);
    ExecLast(w, [e], f);
    assert [e] + [f] == [e, f];
  }

  lemma AfterOneMore(events: seq<Event>, e: Event)
    ensures After(events + [e]) == Step(After(events), e)
  {
    ExecLast(INITIAL, events, e);
  }

  /** After the child was reaped with no signal sent, as at the end of a session that
      relayed its exit, no cleanup ever signals anybody: what the shell left running
      goes on. */
  lemma {:induction false} NoSignalAfterReap(w: World, events: seq<Event>)
    requires Inv(w) && w.child == Reaped && w.signals == []
    ensures Exec(w, events).child == Reaped && Exec(w, events).signals == []
  {
    if events != [] {
      var n := |events| - 1;
      NoSignalAfterReap(w, events[..n]);
      ExecKeeps(w, events[..n]);
      SilentStep(Exec(w, events[..n]), events[n]);
    }
  }

  lemma SilentStep(w: World, e: Event)
    requires Inv(w) && w.child == Reaped && w.signals == []
    ensures Step(w, e).child == Reaped && Step(w, e).signals == []
  {
    if e.SendTerm? && e.call < |w.calls| {
      assert CallOk(w, w.calls[e.call]);
    }
    if e.SendKill? && e.call < |w.calls| {
      assert CallOk(w, w.calls[e.call]);
    }
  }

  // ---- Exactly which success promises what --------------------------------------------------

  predicate Ends(events: seq<Event>, c: nat, path: Path) {
    At(After(events), c) == Some(Succeeded(path))
  }

  /** A second cleanup call returns successfully while the child still runs. Since
      `terminate` borrows the process exclusively, the first call is then a future
      that was dropped after its swap, and the second another `terminate` or `Drop`. */
  lemma SkippedWhileRunning() returns (events: seq<Event>)
    ensures Ends(events, 1, Skipped) && After(events).child == Running && After(events).group == map[CHILD := false]
  {
    AfterOneMore([], CallCleanup);
    AfterOneMore([CallCleanup], CallCleanup);
    AfterOneMore([CallCleanup, CallCleanup], Swap(0));
    AfterOneMore([CallCleanup, CallCleanup, Swap(0)], Swap(1));
    assert [] + [CallCleanup] == [CallCleanup];
    assert [CallCleanup] + [CallCleanup] == [CallCleanup, CallCleanup];
    assert [CallCleanup, CallCleanup] + [Swap(0)] == [CallCleanup, CallCleanup, Swap(0)];
    events := [CallCleanup, CallCleanup, Swap(0)] + [Swap(1)];
  }

  /** A shell that left a background process and exited. */
  lemma Orphaned() returns (events: seq<Event>)
    ensures events == [Forks(0, 1), Exits(0)]
    ensures After(events) == INITIAL.(child := Zombie, group := map[1 := false])
  {
    events := [Forks(0, 1), Exits(0)];
    ExecTwo(INITIAL, Forks(0, 1), Exits(0));
    var forked := INITIAL.(group := map[CHILD := false, 1 := false]);
    assert Step(INITIAL, Forks(0, 1)) == forked;
    assert forked.group - {CHILD} == map[1 := false];
  }

  /** `wait` succeeds while a background process lives on. */
  lemma WaitedWithSurvivor() returns (events: seq<Event>)
    ensures Ends(events, 0, Waited) && After(events).group == map[1 := false]
  {
    events := Orphaned();
    AfterOneMore(events, CallWait);
    events := events + [CallWait];
    AfterOneMore(events, Acquire(0));
    events := events + [Acquire(0)];
    AfterOneMore(events, WaitReturns(0));
    events := events + [WaitReturns(0)];
  }

  /** A cleanup that finds the child already dead signals nobody. */
  lemma AlreadyExitedWithSurvivor() returns (events: seq<Event>)
    ensures Ends(events, 0, AlreadyExited) && After(events).group == map[1 := false]
  {
    events := Orphaned();
    AfterOneMore(events, CallCleanup);
    events := events + [CallCleanup];
    AfterOneMore(events, Swap(0));
    events := events + [Swap(0)];
    AfterOneMore(events, Acquire(0));
    events := events + [Acquire(0)];
    AfterOneMore(events, Check(0));
    events := events + [Check(0)];
  }

  predicate Done(w: World, c: nat) {
    At(w, c).Some? && At(w, c).value.Succeeded?
  }

  /** However things go on, the call succeeds only with the child reaped. */
  ghost predicate SucceedsReaped(w: World, c: nat) {
    forall more :: Done(Exec(w, more), c) ==> Exec(w, more).child == Reaped
  }

  /** However things go on, the call succeeds only with the whole group dead. */
  ghost predicate SucceedsDead(w: World, c: nat) {
    forall more :: Done(Exec(w, more), c) ==> Exec(w, more).group == map[]
  }

  /** If the call has succeeded, what holds now is what it guarantees. */
  lemma AlreadyDone(w: World, c: nat)
    requires Done(w, c)
    ensures SucceedsReaped(w, c) <==> w.child == Reaped
    ensures SucceedsDead(w, c) <==> w.group == map[]
  {
    assert Exec(w, []) == w;
    forall more ensures w.child == Reaped ==> Exec(w, more).child == Reaped
                ensures w.group == map[] ==> Exec(w, more).group == map[]
    {
      DeathIsFinal(w, more);
    }
  }

  /** A call that claimed the cleanup never becomes another kind of call. */
  lemma {:induction false} StaysClaimed(w: World, events: seq<Event>, c: nat)
    requires c < |w.calls| && Claimed(w.calls[c])
    ensures c < |Exec(w, events).calls| && Claimed(Exec(w, events).calls[c])
  {
    if events != [] {
      StaysClaimed(w, events[..|events| - 1], c);
      ClaimedStep(Exec(w, events[..|events| - 1]), events[|events| - 1], c);
    }
  }

  lemma ClaimedStep(w: World, e: Event, c: nat)
    requires c < |w.calls| && Claimed(w.calls[c])
    ensures c < |Step(w, e).calls| && Claimed(Step(w, e).calls[c])
  {
    if Enabled(w, e) {
      if e.Exits? || e.Forks? || e.Leaves? || e.SetsMask? || e.CallWait? || e.CallCleanup? {
        assert Handle(w, e).calls[c] == w.calls[c];
      } else {
        ClaimedCallStep(w, e, c);
      }
    }
  }

  lemma ClaimedCallStep(w: World, e: Event, c: nat)
    requires Enabled(w, e) && c < |w.calls| && Claimed(w.calls[c])
    requires !(e.Exits? || e.Forks? || e.Leaves? || e.SetsMask? || e.CallWait? || e.CallCleanup?)
    ensures c < |Handle(w, e).calls| && Claimed(Handle(w, e).calls[c])
  {
  }

  lemma ClaimedReaps(w: World, c: nat)
    requires Inv(w) && c < |w.calls| && Claimed(w.calls[c])
    ensures SucceedsReaped(w, c)
  {
    forall more | Done(Exec(w, more), c) ensures Exec(w, more).child == Reaped {
      StaysClaimed(w, more, c);
      ExecKeeps(w, more);
      assert CallOk(Exec(w, more), Exec(w, more).calls[c]);
    }
  }

  /** `terminate` and `Drop` guarantee a reaped child exactly if the flag is not yet
      set when they swap it, or the child is reaped by then. */
  lemma ReapGuarantee(w: World, c: nat)
    requires Inv(w) && Enabled(w, Swap(c))
    ensures SucceedsReaped(Step(w, Swap(c)), c) <==> !w.cleanupStarted || w.child == Reaped
  {
    var v := Step(w, Swap(c));
    StepKeeps(w, Swap(c));
    if w.cleanupStarted {
      AlreadyDone(v, c);
    } else {
      ClaimedReaps(v, c);
    }
  }

  /** Past the first status check with the child running. */
  predicate Signalling(pc: Pc) {
    pc.Terming? || pc.Polling? || pc.Alive? || pc.Killing? || pc.Reaping? || pc.GaveUp? || pc == Succeeded(Signalled)
  }

  lemma {:induction false} StaysSignalling(w: World, events: seq<Event>, c: nat)
    requires c < |w.calls| && Signalling(w.calls[c])
    ensures c < |Exec(w, events).calls| && Signalling(Exec(w, events).calls[c])
  {
    if events != [] {
      StaysSignalling(w, events[..|events| - 1], c);
      SignallingStep(Exec(w, events[..|events| - 1]), events[|events| - 1], c);
    }
  }

  lemma SignallingStep(w: World, e: Event, c: nat)
    requires c < |w.calls| && Signalling(w.calls[c])
    ensures c < |Step(w, e).calls| && Signalling(Step(w, e).calls[c])
  {
  }

  lemma SignallingKills(w: World, c: nat)
    requires Inv(w) && c < |w.calls| && Signalling(w.calls[c])
    ensures SucceedsDead(w, c)
  {
    forall more | Done(Exec(w, more), c) ensures Exec(w, more).group == map[] {
      StaysSignalling(w, more, c);
      ExecKeeps(w, more);
      assert CallOk(Exec(w, more), Exec(w, more).calls[c]);
    }
  }

  /** The cleanup guarantees a dead group, members that ignore SIGTERM included,
      exactly if its first status check finds the child running, or nobody is left
      by then. */
  lemma GroupGuarantee(w: World, c: nat)
    requires Inv(w) && Enabled(w, Check(c))
    ensures SucceedsDead(Step(w, Check(c)), c) <==> w.child == Running || w.group == map[]
  {
    var v := Step(w, Check(c));
    StepKeeps(w, Check(c));
    if w.child == Running {
      SignallingKills(v, c);
    } else {
      AlreadyDone(v, c);
    }
  }

  // ---- What callers can rely on ---------------------------------------------------------------

  lemma {:induction false} UnusedNumber(used: set<nat>) returns (q: nat)
    ensures q !in used && q != CHILD
    ensures forall p :: p in used ==> p < q
  {
    if used == {} {
      q := 1;
    } else {
      var p :| p in used;
      var r := UnusedNumber(used - {p});
      q := if p < r then r else p + 1;
      assert used == (used - {p}) + {p};
    }
  }

  /** The processes alone can leave a group without its leader. */
  lemma LeavesOrphans(w: World) returns (events: seq<Event>, q: nat)
    requires Inv(w) && w.group != map[]
    ensures var v := Exec(w, events);
            && q in v.group && v.child != Running
            && v == w.(child := v.child, group := v.group)
  {
    if w.child == Running {
      q := UnusedNumber(w.group.Keys);
      events := [Forks(CHILD, q), Exits(CHILD)];
      ExecTwo(w, Forks(CHILD, q), Exits(CHILD));
    } else {
      events := [];
      q :| q in w.group;
    }
  }

  /** `wait` guarantees a reaped child, and a dead group exactly if nobody is left
      when it has the mutex. */
  lemma WaitGuarantee(w: World, c: nat)
    requires Inv(w) && At(w, c) == Some(WaitHolding)
    ensures SucceedsReaped(w, c)
    ensures SucceedsDead(w, c) <==> w.group == map[]
  {
    forall more | Done(Exec(w, more), c) ensures Exec(w, more).child == Reaped {
      StaysWaiting(w, more, c);
      ExecKeeps(w, more);
      assert CallOk(Exec(w, more), Exec(w, more).calls[c]);
    }
    if w.group == map[] {
      forall more ensures Exec(w, more).group == map[] {
        DeathIsFinal(w, more);
      }
    } else {
      var events, q := LeavesOrphans(w);
      ExecSplit(w, events, [WaitReturns(c)]);
      ExecOne(Exec(w, events), WaitReturns(c));
      assert Done(Exec(w, events + [WaitReturns(c)]), c);
    }
  }

  predicate IsWait(pc: Pc) {
    pc.WaitHolding? || pc.WaitFailed? || pc == Succeeded(Waited)
  }

  lemma {:induction false} StaysWaiting(w: World, events: seq<Event>, c: nat)
    requires c < |w.calls| && IsWait(w.calls[c])
    ensures c < |Exec(w, events).calls| && IsWait(Exec(w, events).calls[c])
  {
    if events != [] {
      StaysWaiting(w, events[..|events| - 1], c);
      WaitStep(Exec(w, events[..|events| - 1]), events[|events| - 1], c);
    }
  }

  lemma WaitStep(w: World, e: Event, c: nat)
    requires c < |w.calls| && IsWait(w.calls[c])
    ensures c < |Step(w, e).calls| && IsWait(Step(w, e).calls[c])
  {
  }

  /** While a cleanup is queued only a `wait` can hold the mutex. */
  lemma QueuedBehindWait(w: World, c: nat)
    requires Inv(w) && At(w, c) == Some(Queued) && w.lock.Some?
    ensures w.lock.value < |w.calls| && w.calls[w.lock.value] == WaitHolding
  {
    var d := w.lock.value;
    assert Holds(w.calls[d]) && d != c;
    assert c < d || d < c;
  }

  /** With the child dead, a queued cleanup can get the mutex at once. */
  lemma CanAcquire(w: World, c: nat) returns (events: seq<Event>)
    requires Inv(w) && At(w, c) == Some(Queued) && (w.lock == None || w.child != Running)
    ensures AllCalls(events) && At(Exec(w, events), c) == Some(Checking)
    ensures var v := Exec(w, events);
            && Inv(v) && v.group == w.group
            && (w.child == Running <==> v.child == Running)
  {
    if w.lock == None {
      events := [Acquire(c)];
      ExecOne(w, Acquire(c));
    } else {
      QueuedBehindWait(w, c);
      events := [WaitReturns(w.lock.value), Acquire(c)];
      ExecTwo(w, WaitReturns(w.lock.value), Acquire(c));
    }
    ExecKeeps(w, events);
  }

  /** From the caller's side: whatever the flag, `terminate` guarantees a dead group
      only if nobody is left when it swaps the flag, since the child may still exit
      before the first status check and leave somebody behind. */
  lemma TerminateGuarantee(w: World, c: nat)
    requires Inv(w) && Enabled(w, Swap(c))
    ensures SucceedsDead(Step(w, Swap(c)), c) <==> w.group == map[]
  {
    var v := Step(w, Swap(c));
    StepKeeps(w, Swap(c));
    if w.cleanupStarted {
      AlreadyDone(v, c);
    } else if w.group == map[] {
      forall more ensures Exec(v, more).group == map[] {
        DeathIsFinal(v, more);
      }
    } else {
      var more := QueuedLeavesOrphans(v, c);
    }
  }

  lemma QueuedLeavesOrphans(w: World, c: nat) returns (more: seq<Event>)
    requires Inv(w) && At(w, c) == Some(Queued) && w.group != map[]
    ensures Done(Exec(w, more), c) && Exec(w, more).group != map[]
  {
    var events, q := LeavesOrphans(w);
    ExecKeeps(w, events);
    var v := Exec(w, events);
    var turn := CanAcquire(v, c);
    ExecSplit(w, events, turn);
    var u := Exec(v, turn);
    ExecSplit(w, events + turn, [Check(c)]);
    ExecOne(u, Check(c));
    more := events + turn + [Check(c)];
    assert q in Exec(w, more).group;
  }

  // ---- Progress -------------------------------------------------------------------------------

  /** A step of a call whose system calls work. */
  predicate CallStep(e: Event) {
    !e.Exits? && !e.Forks? && !e.Leaves? && !e.SetsMask? && !e.SystemError?
  }

  predicate AllCalls(events: seq<Event>) {
    forall i :: 0 <= i < |events| ==> CallStep(events[i])
  }

  /** Steps of the cleanup itself. */
  function NextCleanup(w: World, c: nat): Event {
    match At(w, c)
    case Some(Checking) => Check(c)
    case Some(Terming) => SendTerm(c, {})
    case Some(Polling) => Poll(c)
    case Some(Alive) => Deadline(c)
    case Some(Killing(_)) => SendKill(c)
    case _ => Reap(c)
  }

  function StepsLeft(pc: Pc): nat {
    match pc
    case Checking => 6
    case Terming => 5
    case Polling => 4
    case Alive => 3
    case Killing(_) => 2
    case Reaping => 1
    case _ => 0
  }

  lemma CleanupStep(w: World, c: nat)
    requires Inv(w) && c < |w.calls| && InCleanup(w.calls[c])
    ensures var v := Step(w, NextCleanup(w, c));
            && Enabled(w, NextCleanup(w, c))
            && |v.calls| == |w.calls|
            && StepsLeft(v.calls[c]) < StepsLeft(w.calls[c])
            && (InCleanup(v.calls[c]) || v.calls[c] == Succeeded(AlreadyExited) || v.calls[c] == Succeeded(Signalled))
  {
    assert CallOk(w, w.calls[c]);
  }

  /** Once it holds the mutex, a cleanup whose system calls work and whose deadline
      passes ends in at most six steps, with the child reaped, even if no process
      ever reacts to SIGTERM. */
  lemma CleanupCanFinish(w: World, c: nat) returns (events: seq<Event>)
    requires Inv(w) && c < |w.calls| && InCleanup(w.calls[c])
    ensures |events| <= StepsLeft(w.calls[c]) && AllCalls(events)
    ensures var v := Exec(w, events); c < |v.calls| && v.calls[c].Succeeded? && v.child == Reaped && v.lock == None
    decreases StepsLeft(w.calls[c])
  {
    var e := NextCleanup(w, c);
    var v := Step(w, e);
    CleanupStep(w, c);
    StepKeeps(w, e);
    assert [e][..0] == [];
    if InCleanup(v.calls[c]) {
      var rest := CleanupCanFinish(v, c);
      events := [e] + rest;
      ExecSplit(w, [e], rest);
    } else {
      events := [e];
      assert CallOk(v, v.calls[c]);
    }
  }

  /** A `wait` sits in the mutex until the child exits. */
  predicate WaitBlocks(w: World) {
    w.lock.Some? && w.lock.value < |w.calls| && w.calls[w.lock.value] == WaitHolding && w.child == Running
  }

  lemma {:induction false} StaysBlocked(w: World, events: seq<Event>, c: nat)
    requires Inv(w) && WaitBlocks(w) && At(w, c) == Some(Queued) && AllCalls(events)
    ensures WaitBlocks(Exec(w, events)) && At(Exec(w, events), c) == Some(Queued)
  {
    if events != [] {
      var n := |events| - 1;
      StaysBlocked(w, events[..n], c);
      ExecKeeps(w, events[..n]);
      BlockedStep(Exec(w, events[..n]), events[n], c);
    }
  }

  lemma BlockedStep(w: World, e: Event, c: nat)
    requires Inv(w) && WaitBlocks(w) && At(w, c) == Some(Queued) && CallStep(e)
    ensures WaitBlocks(Step(w, e)) && At(Step(w, e), c) == Some(Queued)
  {
    assert forall d :: 0 <= d < |w.calls| && Holds(w.calls[d]) ==> d == w.lock.value;
  }

  /** `wait` takes the mutex, then `terminate` sets the flag and queues. */
  lemma WaitThenTerminate()
    ensures After([CallWait, Acquire(0), CallCleanup, Swap(1)])
         == INITIAL.(lock := Some(0), cleanupStarted := true, calls := [WaitHolding, Queued])
  {
    var waiting := INITIAL.(lock := Some(0), calls := [WaitHolding]);
    ExecTwo(INITIAL, CallWait, Acquire(0));
    assert Step(INITIAL, CallWait) == INITIAL.(calls := [WaitQueued]);
    assert Step(INITIAL.(calls := [WaitQueued]), Acquire(0)) == waiting;
    ExecTwo(waiting, CallCleanup, Swap(1));
    assert Step(waiting, CallCleanup) == waiting.(calls := [WaitHolding, Starting]);
    ExecSplit(INITIAL, [CallWait, Acquire(0)], [CallCleanup, Swap(1)]);
    assert [CallWait, Acquire(0)] + [CallCleanup, Swap(1)] == [CallWait, Acquire(0), CallCleanup, Swap(1)];
  }

  /** A session that is terminated while its `wait` sits in the mutex: the cleanup
      cannot end before the child exits by itself. */
  lemma BlockedByWait() returns (events: seq<Event>)
    ensures At(After(events), 1) == Some(Queued) && WaitBlocks(After(events))
    ensures !exists more :: AllCalls(more) && Done(Exec(After(events), more), 1)
  {
    events := [CallWait, Acquire(0), CallCleanup, Swap(1)];
    WaitThenTerminate();
    AlwaysInv(events);
    QueuedCleanupCanEnd(After(events), 1);
  }

  /** While the processes do nothing, a queued cleanup can end successfully exactly
      if no `wait` sits in the mutex with the child running. */
  lemma QueuedCleanupCanEnd(w: World, c: nat)
    requires Inv(w) && At(w, c) == Some(Queued)
    ensures (exists events :: AllCalls(events) && Done(Exec(w, events), c)) <==> !WaitBlocks(w)
  {
    if WaitBlocks(w) {
      forall events | AllCalls(events) ensures !Done(Exec(w, events), c) {
        StaysBlocked(w, events, c);
      }
    } else {
      if w.lock.Some? {
        QueuedBehindWait(w, c);
      }
      var turn := CanAcquire(w, c);
      var rest := CleanupCanFinish(Exec(w, turn), c);
      ExecSplit(w, turn, rest);
      assert AllCalls(turn + rest) && Done(Exec(w, turn + rest), c);
    }
  }
}
