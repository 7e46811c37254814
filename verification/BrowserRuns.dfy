/** Whole-run theorems of the browser machine, over every event sequence. */
module BrowserRuns {
  import opened Common
  import opened Protocol
  import opened Browser
  import opened BrowserInvariant

  /** The state after a run from the first render. */
  function After(events: seq<Event>): App {
    Exec(INITIAL, events)
  }

  lemma {:induction false} ExecKeeps(a: App, events: seq<Event>)
    requires Inv(a)
    ensures Inv(Exec(a, events))
  {
    if events != [] {
      ExecKeeps(a, events[..|events| - 1]);
      StepKeeps(Exec(a, events[..|events| - 1]), events[|events| - 1]);
    }
  }

  /** The invariant holds in every reachable state. */
  lemma AlwaysInv(events: seq<Event>)
    ensures Inv(After(events))
  {
    assert Inv(INITIAL);
    ExecKeeps(INITIAL, events);
  }

  lemma {:induction false} ExecSplit(a: App, first: seq<Event>, rest: seq<Event>)
    ensures Exec(a, first + rest) == Exec(Exec(a, first), rest)
  {
    if rest == [] {
      assert first + rest == first;
    } else {
      var n := |rest| - 1;
      assert (first + rest)[..|first + rest| - 1] == first + rest[..n];
      ExecSplit(a, first, rest[..n]);
    }
  }

  // ---- What is live -----------------------------------------------------------------

  /** In every mounted state the display names exactly what is live:
      reconnecting is never a dead end, and the final errors hold nothing. */
  lemma DisplayNamesLiveResources(events: seq<Event>)
    requires Mounted(After(events))
    ensures var a := After(events);
            var c, live := a.connection, LiveNow(a);
            && (c.phase == Reconnecting ==> live == ONLY_TIMER || live == ONLY_FETCH || live == ONLY_UNOPENED)
            && (c.phase == Reconnecting && c.reason.Some? ==> live == ONLY_TIMER)
            && (c.phase == Connecting ==> live == ONLY_FETCH || live == ONLY_UNOPENED)
            && (c.phase == Connected || c.reason == Some(ServerError) ==> live == ONLY_OPENED)
            && (c.phase == Connecting && live == ONLY_UNOPENED ==> a.sockets[a.socketRef.value].ready == Pending)
            && (c.reason == Some(WebSocketError) ==>
                  live == ONLY_UNOPENED && a.sockets[a.socketRef.value].ready == Failing)
            && (FinalError(c) ==> live == NOTHING)
            && (c.phase == Closed ==> live == NOTHING || live == ONLY_OPENED)
            && (c.phase == Failed ==>
                  FinalError(c) || c.reason == Some(ServerError) || c.reason == Some(WebSocketError))
  {
    AlwaysInv(events);
    assert Stands(After(events).connection, LiveNow(After(events)));
  }

  /** Between the `error` and the `close` of a failed first attempt nothing but that
      `close` can happen to the socket, and it makes the error final. */
  lemma WebSocketErrorBecomesFinal(events: seq<Event>, e: Event)
    requires Mounted(After(events)) && After(events).connection.reason == Some(WebSocketError)
    ensures var a := After(events);
            && a.socketRef.Some?
            && (Enabled(a, e) && OnSocket(e, a.socketRef.value) ==> e == SocketCloses(a.socketRef.value))
            && Enabled(a, SocketCloses(a.socketRef.value))
            && Step(a, SocketCloses(a.socketRef.value)).connection == Because(Failed, WebSocketUpgrade)
  {
    AlwaysInv(events);
    DisplayNamesLiveResources(events);
    var a := After(events);
    var s := a.socketRef.value;
    assert SocketOk(a, s, a.sockets[s]);
    assert Step(a, SocketCloses(s)) == OnSocketCloses(a, s);
  }

  predicate OnSocket(e: Event, s: nat) {
    e == SocketOpens(s) || e == SocketFails(s) || e == SocketCloses(s) || e == PeerStartsClosing(s)
    || (e.SocketReceives? && e.socket == s)
  }

  predicate FinalError(c: Connection) {
    && c.phase == Failed
    && (c.reason == Some(AuthRequired) || c.reason == Some(AuthCheckFailed)
        || c.reason == Some(Network) || c.reason == Some(WebSocketUpgrade))
  }

  /** The socket still has its `close` to come, and belongs to the current attempt. */
  predicate Unfinished(a: App, s: nat) {
    SocketIn(a, s, UNFINISHED) && !Stale(a, a.sockets[s].run, a.sockets[s].attempt)
  }

  /** The references miss nothing: every pending reconnect timer, every fetch and
      every unfinished socket of the current attempt is the one they name. */
  lemma NothingElseIsLive(events: seq<Event>)
    requires Mounted(After(events))
    ensures var a := After(events);
            && (forall t :: t in a.timers && a.timers[t].ReconnectTimer? ==> a.reconnectRef == Some(t))
            && (a.reconnectRef.Some? ==> a.reconnectRef.value in a.timers)
            && (forall f :: f in a.fetches && f.run < |a.runs| && !Stale(a, f.run, f.attempt) ==> f == CurrentFetch(a))
            && (forall s :: 0 <= s < |a.sockets| && Unfinished(a, s) ==> a.socketRef == Some(s))
  {
    AlwaysInv(events);
    var a := After(events);
    forall s | 0 <= s < |a.sockets| && Unfinished(a, s)
      ensures a.socketRef == Some(s)
    {
      CurrentSocketLive(a, s);
    }
    forall f | f in a.fetches && f.run < |a.runs| && !Stale(a, f.run, f.attempt)
      ensures f == CurrentFetch(a)
    {
      CurrentFetchLive(a, f);
    }
  }

  /** Within a run: one unfinished socket, one reconnect timer, attempts with
      distinct numbers. */
  lemma AtMostOneOfEach(events: seq<Event>, s: nat, t: nat)
    requires s < |After(events).sockets| && t < |After(events).sockets| && s != t
    requires After(events).sockets[s].run == After(events).sockets[t].run
    ensures var a := After(events);
            && a.sockets[s].attempt != a.sockets[t].attempt
            && (a.sockets[s].ready == Gone || a.sockets[t].ready == Gone)
            && (forall x, y ::
                  x in a.timers && y in a.timers && a.timers[x].ReconnectTimer? && a.timers[y].ReconnectTimer? ==>
                    x == y)
  {
    AlwaysInv(events);
    var a := After(events);
    assert SocketOk(a, s, a.sockets[s]) && SocketOk(a, t, a.sockets[t]);
    assert s < t || t < s;
  }

  predicate SameSockets(a: App, b: App) {
    && |b.sockets| == |a.sockets|
    && forall s :: 0 <= s < |a.sockets| ==>
         var before, now := a.sockets[s], b.sockets[s];
         now.run == before.run && now.attempt == before.attempt && now.isReconnect == before.isReconnect
  }

  lemma HandlersKeepSockets(a: App, e: Event)
    requires Enabled(a, e) && (e.Mount? || e.Unmount? || e.FetchFailed? || e.TimerFires?)
    ensures SameSockets(a, Handle(a, e))
  {
  }

  lemma SocketEventsKeepSockets(a: App, e: Event)
    requires Enabled(a, e) && (e.SocketOpens? || e.SocketFails? || e.SocketCloses? || e.PeerStartsClosing?)
    ensures SameSockets(a, Handle(a, e))
  {
  }

  lemma FramesKeepSockets(a: App, e: Event)
    requires Enabled(a, e) && (e.SocketReceives? || e.Types? || e.SizeReported?)
    ensures SameSockets(a, Handle(a, e))
  {
  }

  /** Only an accepted auth check makes a socket: a 204 to the check of the
      socket's own run and attempt. */
  lemma StepCreatesSocket(a: App, e: Event)
    ensures |a.sockets| <= |Step(a, e).sockets| <= |a.sockets| + 1
    ensures |Step(a, e).sockets| > |a.sockets| ==>
              var socket := Step(a, e).sockets[|a.sockets|];
              Enabled(a, e) && e == FetchDone(Fetch(socket.run, socket.attempt, socket.isReconnect), 204)
    ensures forall s :: 0 <= s < |a.sockets| ==>
              var before, now := a.sockets[s], Step(a, e).sockets[s];
              now.run == before.run && now.attempt == before.attempt && now.isReconnect == before.isReconnect
  {
    if Enabled(a, e) && !e.FetchDone? {
      match e {
        case SocketReceives(_, _) => FramesKeepSockets(a, e);
        case Types(_) => FramesKeepSockets(a, e);
        case SizeReported(_) => FramesKeepSockets(a, e);
        case SocketOpens(_) => SocketEventsKeepSockets(a, e);
        case SocketFails(_) => SocketEventsKeepSockets(a, e);
        case SocketCloses(_) => SocketEventsKeepSockets(a, e);
        case PeerStartsClosing(_) => SocketEventsKeepSockets(a, e);
        case _ => HandlersKeepSockets(a, e);
      }
      assert SameSockets(a, Step(a, e));
    }
  }

  /** Every socket ever created was preceded by a 204 to its own auth check. */
  lemma {:induction false} SocketFollowsAcceptedCheck(events: seq<Event>, s: nat) returns (i: nat)
    requires s < |After(events).sockets|
    ensures i < |events|
    ensures |After(events[..i]).sockets| == s
    ensures Enabled(After(events[..i]), events[i])
    ensures var socket := After(events).sockets[s];
            events[i] == FetchDone(Fetch(socket.run, socket.attempt, socket.isReconnect), 204)
  {
    var n := |events| - 1;
    var before := After(events[..n]);
    StepCreatesSocket(before, events[n]);
    if s < |before.sockets| {
      i := SocketFollowsAcceptedCheck(events[..n], s);
      assert events[..n][..i] == events[..i];
    } else {
      i := n;
    }
  }

  // ---- Cancelled runs and old attempts ------------------------------------------------

  /** The event belongs to a cancelled run or to an older attempt. */
  predicate IsStale(a: App, e: Event) {
    match e
    case FetchDone(f, _) => f.run < |a.runs| && Stale(a, f.run, f.attempt)
    case FetchFailed(f, _) => f.run < |a.runs| && Stale(a, f.run, f.attempt)
    case SocketOpens(s) => StaleSocket(a, s)
    case SocketFails(s) => StaleSocket(a, s)
    case SocketReceives(s, _) => StaleSocket(a, s)
    case PeerStartsClosing(s) => StaleSocket(a, s)
    case SocketCloses(s) => StaleSocket(a, s)
    case TimerFires(t) => t in a.timers && a.timers[t].run < |a.runs| && a.runs[a.timers[t].run].cancelled
    case _ => false
  }

  predicate StaleSocket(a: App, s: nat) {
    s < |a.sockets| && a.sockets[s].run < |a.runs| && Stale(a, a.sockets[s].run, a.sockets[s].attempt)
  }

  /** All that a late event may do: drop its fetch, or finish its own socket. */
  predicate Inert(a: App, b: App) {
    && b == a.(fetches := b.fetches, sockets := b.sockets)
    && b.fetches <= a.fetches
    && |b.sockets| == |a.sockets|
    && forall s :: 0 <= s < |a.sockets| ==>
         && b.sockets[s] == a.sockets[s].(ready := b.sockets[s].ready)
         && (b.sockets[s].ready == a.sockets[s].ready || b.sockets[s].ready == Failing || b.sockets[s].ready == Gone)
  }

  lemma LateSocketEvent(a: App, e: Event, s: nat)
    requires Inv(a) && StaleSocket(a, s) && Enabled(a, e)
    requires e == SocketCloses(s) || e == SocketFails(s)
    ensures Inert(a, Handle(a, e))
  {
    assert SocketOk(a, s, a.sockets[s]);
  }

  /** A socket of a cancelled run or older attempt is closing or gone. */
  lemma StaleSocketIsClosing(a: App, s: nat)
    requires Inv(a) && StaleSocket(a, s)
    ensures a.sockets[s].ready == Closing || a.sockets[s].ready == Failing || a.sockets[s].ready == Gone
  {
    assert SocketOk(a, s, a.sockets[s]);
  }

  lemma LateEvent(a: App, e: Event)
    requires Inv(a) && IsStale(a, e)
    ensures Inert(a, Step(a, e))
  {
    match e {
      case SocketOpens(s) => StaleSocketIsClosing(a, s);
      case SocketReceives(s, _) => StaleSocketIsClosing(a, s);
      case PeerStartsClosing(s) => StaleSocketIsClosing(a, s);
      case SocketFails(s) =>
        if Enabled(a, e) {
          LateSocketEvent(a, e, s);
        }
      case SocketCloses(s) =>
        if Enabled(a, e) {
          LateSocketEvent(a, e, s);
        }
      case _ =>
    }
  }

  /** Late events change nothing anyone can see: not the display, the terminal,
      the timers, the counters or the reference to a newer socket. */
  lemma LateEventsAreInert(events: seq<Event>, e: Event)
    requires IsStale(After(events), e)
    ensures Inert(After(events), Step(After(events), e))
  {
    AlwaysInv(events);
    LateEvent(After(events), e);
  }

  predicate NoMount(events: seq<Event>) {
    forall i :: 0 <= i < |events| ==> !events[i].Mount?
  }

  lemma UnmountedStep(a: App, e: Event)
    requires Inv(a) && !Mounted(a) && !e.Mount?
    ensures var b := Step(a, e);
            && !Mounted(b) && b.runs == a.runs && b.connection == a.connection
            && b.timers == a.timers == map[] && b.screen == a.screen
            && b.fetches <= a.fetches && |b.sockets| == |a.sockets| && b.socketRef == None
  {
    if e.SocketOpens? && e.socket < |a.sockets| {
      assert SocketOk(a, e.socket, a.sockets[e.socket]);
    }
    assert a.timers == map[] by {
      assert forall t :: t in a.timers ==> Mounted(a);
    }
  }

  /** After the unmount, and until a remount, nothing is ever started. */
  lemma {:induction false} UnmountedIsQuiet(a: App, events: seq<Event>)
    requires Inv(a) && !Mounted(a) && NoMount(events)
    ensures var b := Exec(a, events);
            && !Mounted(b) && b.runs == a.runs && b.connection == a.connection
            && a.timers == b.timers == map[] && b.screen == a.screen
            && b.fetches <= a.fetches && |b.sockets| == |a.sockets|
  {
    if events == [] {
      assert a.timers == map[] by {
        assert forall t :: t in a.timers ==> Mounted(a);
      }
    } else {
      var n := |events| - 1;
      UnmountedIsQuiet(a, events[..n]);
      ExecKeeps(a, events[..n]);
      UnmountedStep(Exec(a, events[..n]), events[n]);
    }
  }

  // ---- Final states ---------------------------------------------------------------------

  /** Nothing will be started any more in this run. */
  predicate Settled(a: App) {
    Mounted(a) && (a.connection.phase == Closed || FinalError(a.connection))
  }

  predicate NoUnmount(events: seq<Event>) {
    forall i :: 0 <= i < |events| ==> !events[i].Unmount?
  }

  lemma SettledHasNoTimer(a: App)
    requires Inv(a) && Settled(a)
    ensures a.timers == map[] && !HasTimer(a)
  {
    assert Stands(a.connection, LiveNow(a));
    assert forall t :: t !in a.timers;
  }

  /** Nothing displayed or started changes. */
  predicate Kept(a: App, b: App) {
    && b.connection == a.connection && b.screen == a.screen && b.runs == a.runs
    && b.fetches <= a.fetches && |b.sockets| == |a.sockets| && b.timers == a.timers
  }

  lemma SettledStep(a: App, e: Event)
    requires Inv(a) && Settled(a) && !e.Unmount?
    ensures Kept(a, Step(a, e))
  {
    SettledHasNoTimer(a);
    if Enabled(a, e) {
      match e {
        case FetchDone(f, _) => SettledFetch(a, f);
        case FetchFailed(f, _) => SettledFetch(a, f);
        case SocketOpens(s) => SettledSocketStep(a, e, s);
        case SocketFails(s) => SettledSocketStep(a, e, s);
        case SocketReceives(s, _) => SettledSocketStep(a, e, s);
        case SocketCloses(s) => SettledSocketStep(a, e, s);
        case _ =>
      }
    }
  }

  lemma SettledFetch(a: App, f: Fetch)
    requires Inv(a) && Settled(a) && f in a.fetches
    ensures Stale(a, f.run, f.attempt)
  {
    if !Stale(a, f.run, f.attempt) {
      CurrentFetchLive(a, f);
    }
  }

  lemma SettledSocketStep(a: App, e: Event, s: nat)
    requires Inv(a) && Settled(a) && Enabled(a, e)
    requires e == SocketOpens(s) || e == SocketFails(s) || e == SocketCloses(s) || (e.SocketReceives? && e.socket == s)
    ensures Kept(a, Handle(a, e))
  {
    SettledSocket(a, s);
    if StaleSocket(a, s) {
      StaleSocketIsClosing(a, s);
    }
  }

  lemma SettledSocket(a: App, s: nat)
    requires Inv(a) && Settled(a) && SocketIn(a, s, UNFINISHED)
    ensures Stale(a, a.sockets[s].run, a.sockets[s].attempt)
            || (a.connection.phase == Closed && (a.sockets[s].ready == Closing || a.sockets[s].ready == Failing)
                && a.sockets[s].wasOpened && a.runs[a.sockets[s].run].remoteExited)
  {
    if !Stale(a, a.sockets[s].run, a.sockets[s].attempt) {
      CurrentSocketLive(a, s);
      assert SocketOk(a, s, a.sockets[s]);
    }
  }

  /** A final error or a remote exit stays displayed, and starts no fetch, socket
      or timer, however long the run goes on. */
  lemma {:induction false} SettledForever(a: App, events: seq<Event>)
    requires Inv(a) && Settled(a) && NoUnmount(events)
    ensures var b := Exec(a, events); Settled(b) && Kept(a, b) && b.timers == map[]
  {
    SettledHasNoTimer(a);
    if events != [] {
      var n := |events| - 1;
      SettledForever(a, events[..n]);
      ExecKeeps(a, events[..n]);
      SettledStep(Exec(a, events[..n]), events[n]);
    }
  }

  /** Once the current attempt handles an `Exited` frame, the run shows that exit
      code for ever and never tries again. */
  lemma RemoteExitIsFinal(before: seq<Event>, s: nat, data: seq<byte>, later: seq<Event>)
    requires Enabled(After(before), SocketReceives(s, data))
    requires !Stale(After(before), After(before).sockets[s].run, After(before).sockets[s].attempt)
    requires BrowserDecode(data).Some? && BrowserDecode(data).value.BrowserExited?
    requires NoUnmount(later)
    ensures var a, b := After(before + [SocketReceives(s, data)]), After(before + [SocketReceives(s, data)] + later);
            && b.connection == Because(Closed, RemoteExit).(exitCode := Some(BrowserDecode(data).value.code))
            && b.fetches <= a.fetches && |b.sockets| == |After(before).sockets| && b.timers == map[]
  {
    var e := SocketReceives(s, data);
    AlwaysInv(before);
    AlwaysInv(before + [e]);
    assert (before + [e])[..|before|] == before;
    var a := After(before + [e]);
    assert a == OnSocketReceives(After(before), s, data);
    CurrentSocketLive(After(before), s);
    assert a.connection == Because(Closed, RemoteExit).(exitCode := Some(BrowserDecode(data).value.code));
    assert Mounted(a);
    SettledForever(a, later);
    ExecSplit(INITIAL, before + [e], later);
  }

  // ---- Reconnecting can always succeed ------------------------------------------------------

  predicate Trying(a: App) {
    Mounted(a) && (a.connection.phase == Reconnecting || a.connection.phase == Connecting)
  }

  lemma TimerStartsFetch(a: App)
    requires Inv(a) && Trying(a) && LiveNow(a) == ONLY_TIMER
    ensures var e := TimerFires(a.reconnectRef.value);
            var b := Step(a, e);
            Inv(b) && Trying(b) && LiveNow(b) == ONLY_FETCH && b.connection.phase == a.connection.phase
  {
    var t := a.reconnectRef.value;
    ReconnectFires(a, t);
    var b := Step(a, TimerFires(t));
    assert b.connection == Plain(Reconnecting);
    assert Stands(b.connection, LiveNow(b));
    assert HasFetch(b);
  }

  lemma AcceptedFetchStartsSocket(a: App)
    requires Inv(a) && Trying(a) && LiveNow(a) == ONLY_FETCH
    ensures var b := Step(a, FetchDone(CurrentFetch(a), 204));
            && Inv(b) && Trying(b) && LiveNow(b) == ONLY_UNOPENED && b.connection.phase == a.connection.phase
            && b.sockets[b.socketRef.value].ready == Pending
  {
    var f := CurrentFetch(a);
    NewSocketKeeps(a, f);
    CurrentFetchLive(a, f);
    var b := Step(a, FetchDone(f, 204));
    assert HasUnopenedSocket(b);
    assert Stands(b.connection, LiveNow(b));
  }

  lemma OpeningConnects(a: App)
    requires Inv(a) && Trying(a) && LiveNow(a) == ONLY_UNOPENED && a.sockets[a.socketRef.value].ready == Pending
    ensures var b := Step(a, SocketOpens(a.socketRef.value));
            && Inv(b) && Mounted(b) && LiveNow(b) == ONLY_OPENED
            && b.connection == Plain(Connected).(newSession := a.connection.phase == Reconnecting)
  {
    var s := a.socketRef.value;
    assert SocketOk(a, s, a.sockets[s]);
    OpenKeeps(a, s);
    var b := Step(a, SocketOpens(s));
    assert b == OnSocketOpens(a, s);
    assert b.connection.phase == Connected;
    assert Stands(b.connection, LiveNow(b));
  }

  /** A reconnect whose socket has failed goes back to waiting. */
  lemma FailedReconnectWaits(a: App)
    requires Inv(a) && Trying(a) && LiveNow(a) == ONLY_UNOPENED && a.sockets[a.socketRef.value].ready != Pending
    ensures var b := Step(a, SocketCloses(a.socketRef.value));
            Inv(b) && Trying(b) && LiveNow(b) == ONLY_TIMER && b.connection.phase == a.connection.phase
  {
    var s := a.socketRef.value;
    assert SocketOk(a, s, a.sockets[s]);
    CloseKeeps(a, s);
    var b := Step(a, SocketCloses(s));
    assert b == OnSocketCloses(a, s);
    assert HasTimer(b);
    assert Stands(b.connection, LiveNow(b));
  }

  /** The next step towards a connection, and how many are left. */
  function NextTry(a: App): (Event, nat)
    requires Inv(a) && Trying(a)
  {
    if HasTimer(a) then
      (TimerFires(a.reconnectRef.value), 3)
    else if HasFetch(a) then
      (FetchDone(CurrentFetch(a), 204), 2)
    else if HasUnopenedSocket(a) && a.sockets[a.socketRef.value].ready == Pending then
      (SocketOpens(a.socketRef.value), 1)
    else if HasUnopenedSocket(a) then
      (SocketCloses(a.socketRef.value), 4)
    else
      (Unmount, 0)
  }

  lemma TryProceeds(a: App)
    requires Inv(a) && Trying(a)
    ensures var (e, left) := NextTry(a);
            var b := Step(a, e);
            && left > 0 && !e.Unmount? && Inv(b) && Mounted(b)
            && if left == 1 then
                 && LiveNow(b) == ONLY_OPENED
                 && b.connection == Plain(Connected).(newSession := a.connection.phase == Reconnecting)
               else
                 Trying(b) && b.connection.phase == a.connection.phase && NextTry(b).1 == left - 1
  {
    assert Stands(a.connection, LiveNow(a));
    if HasTimer(a) {
      TimerStartsFetch(a);
    } else if HasFetch(a) {
      AcceptedFetchStartsSocket(a);
    } else if a.sockets[a.socketRef.value].ready == Pending {
      OpeningConnects(a);
    } else {
      FailedReconnectWaits(a);
    }
  }

  lemma LeadsToConnected(a: App) returns (more: seq<Event>)
    requires Inv(a) && Trying(a)
    ensures |more| == NextTry(a).1 && NoUnmount(more)
    ensures var b := Exec(a, more);
            && Mounted(b) && LiveNow(b) == ONLY_OPENED
            && b.connection == Plain(Connected).(newSession := a.connection.phase == Reconnecting)
    decreases NextTry(a).1
  {
    var (e, left) := NextTry(a);
    var b := Step(a, e);
    TryProceeds(a);
    assert [e][..0] == [];
    if left == 1 {
      more := [e];
    } else {
      var rest := LeadsToConnected(b);
      more := [e] + rest;
      ExecSplit(a, [e], rest);
    }
  }

  /** From any reconnecting or connecting state some continuation connects. */
  lemma ReconnectingCanSucceed(events: seq<Event>) returns (more: seq<Event>)
    requires Mounted(After(events))
    requires After(events).connection.phase == Reconnecting || After(events).connection.phase == Connecting
    ensures |more| <= 4 && NoUnmount(more)
    ensures Mounted(After(events + more))
    ensures After(events + more).connection.phase == Connected
    ensures LiveNow(After(events + more)) == ONLY_OPENED
  {
    AlwaysInv(events);
    more := LeadsToConnected(After(events));
    ExecSplit(INITIAL, events, more);
  }

  // ---- Terminal sizes ------------------------------------------------------------------------

  /** The last size the terminal reported. */
  function LastReported(events: seq<Event>): Option<Size> {
    if events == [] then
      None
    else if events[|events| - 1].SizeReported? then
      Some(events[|events| - 1].size)
    else
      LastReported(events[..|events| - 1])
  }

  lemma StepLatestSize(a: App, e: Event)
    ensures Step(a, e).latestSize == if e.SizeReported? then Some(e.size) else a.latestSize
  {
  }

  lemma {:induction false} LatestSizeIsReported(events: seq<Event>)
    ensures After(events).latestSize == LastReported(events)
  {
    if events != [] {
      LatestSizeIsReported(events[..|events| - 1]);
      StepLatestSize(After(events[..|events| - 1]), events[|events| - 1]);
    }
  }

  /** While a socket is open, the last resize sent on it is the last size
      reported, whatever order resizes, opens and reconnects came in. */
  lemma ServerKnowsLatestSize(events: seq<Event>, s: nat)
    requires s < |After(events).sockets| && After(events).sockets[s].ready == Open
    ensures LastResize(After(events).sockets[s].sent) == LastReported(events)
  {
    AlwaysInv(events);
    LatestSizeIsReported(events);
    assert SocketOk(After(events), s, After(events).sockets[s]);
  }

  lemma OthersDoNotSend(a: App, e: Event, s: nat)
    requires s < |a.sockets| && Enabled(a, e)
    requires !e.SocketOpens? && !e.Types? && !e.SizeReported?
    ensures s < |Handle(a, e).sockets|
    ensures Handle(a, e).sockets[s].sent == a.sockets[s].sent
  {
  }

  /** Sent frames are never withdrawn, and none is sent before the open event. */
  lemma StepSends(a: App, e: Event, s: nat)
    requires Inv(a) && s < |a.sockets|
    ensures s < |Step(a, e).sockets|
    ensures a.sockets[s].sent <= Step(a, e).sockets[s].sent
    ensures !a.sockets[s].wasOpened && e != SocketOpens(s) ==> Step(a, e).sockets[s].sent == []
  {
    assert SocketOk(a, s, a.sockets[s]);
    if Enabled(a, e) && !e.SocketOpens? && !e.Types? && !e.SizeReported? {
      OthersDoNotSend(a, e, s);
    }
  }

  lemma {:induction false} SentOnlyGrows(a: App, events: seq<Event>, s: nat)
    requires Inv(a) && s < |a.sockets|
    ensures s < |Exec(a, events).sockets|
    ensures a.sockets[s].sent <= Exec(a, events).sockets[s].sent
  {
    if events != [] {
      var n := |events| - 1;
      SentOnlyGrows(a, events[..n], s);
      ExecKeeps(a, events[..n]);
      StepSends(Exec(a, events[..n]), events[n], s);
    }
  }

  /** On every socket whose open was handled with a size known, the first frame
      is that size, for ever after. */
  lemma FirstFrameIsSize(before: seq<Event>, s: nat, later: seq<Event>)
    requires Enabled(After(before), SocketOpens(s))
    requires LastReported(before).Some?
    requires !Stale(After(before), After(before).sockets[s].run, After(before).sockets[s].attempt)
    ensures var b := After(before + [SocketOpens(s)] + later);
            && s < |b.sockets| && b.sockets[s].sent != []
            && b.sockets[s].sent[0] == Resize(LastReported(before).value)
  {
    var a, e := After(before), SocketOpens(s);
    AlwaysInv(before);
    LatestSizeIsReported(before);
    assert (before + [e])[..|before|] == before;
    assert SocketOk(a, s, a.sockets[s]);
    var o := After(before + [e]);
    assert o.sockets[s].sent == [Resize(a.latestSize.value)];
    AlwaysInv(before + [e]);
    SentOnlyGrows(o, later, s);
    ExecSplit(INITIAL, before + [e], later);
  }

  // ---- The new-session notice -----------------------------------------------------------------

  /** While mounted, a notice timer is pending exactly when the notice shows, the
      notice only shows on a connected state, and the timer only removes it. */
  lemma NoticeMatchesTimer(events: seq<Event>)
    requires Mounted(After(events))
    ensures var a := After(events);
            && (a.connection.newSession <==> exists t :: t in a.timers && a.timers[t].NoticeTimer?)
            && (a.connection.newSession ==> a.connection == Plain(Connected).(newSession := true))
            && (forall t, u ::
                  t in a.timers && u in a.timers && a.timers[t].NoticeTimer? && a.timers[u].NoticeTimer? ==> t == u)
            && (forall t :: t in a.timers && a.timers[t].NoticeTimer? && Enabled(a, TimerFires(t)) ==>
                  && Step(a, TimerFires(t)).connection == Plain(Connected)
                  && a.connection.newSession)
  {
    AlwaysInv(events);
    var a := After(events);
    assert Stands(a.connection, LiveNow(a));
    if a.connection.newSession {
      var t := a.runs[Last(a)].noticeTimer.value;
      assert t in a.timers && a.timers[t].NoticeTimer?;
    }
  }
}
