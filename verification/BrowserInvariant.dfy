/** One inductive invariant of the browser machine: it ties every displayed
    state to exactly the resources that are live. */
module BrowserInvariant {
  import opened Common
  import opened Protocol
  import opened Browser
  import Decimal
  import Utf8

  /** Earlier runs are cancelled, and a cancelled run has no notice timer. */
  predicate RunsOk(a: App) {
    && (forall r :: 0 <= r < |a.runs| - 1 ==> a.runs[r].cancelled)
    && (forall r :: 0 <= r < |a.runs| ==>
          && a.runs[r].attempt >= 1
          && (a.runs[r].cancelled ==> a.runs[r].noticeTimer.None?))
  }

  /** The latest attempt a run can still have resources for. */
  function Newest(r: Run): int {
    if r.cancelled then r.attempt - 1 else r.attempt
  }

  predicate FetchesOk(a: App) {
    forall f :: f in a.fetches ==>
      && f.run < |a.runs|
      && 1 <= f.attempt <= Newest(a.runs[f.run])
      && (f.isReconnect <==> f.attempt > 1)
      && (forall s :: 0 <= s < |a.sockets| ==> !(a.sockets[s].run == f.run && a.sockets[s].attempt == f.attempt))
  }

  predicate SocketOk(a: App, s: nat, socket: Socket) {
    && socket.run < |a.runs|
    && 1 <= socket.attempt <= Newest(a.runs[socket.run])
    && (socket.isReconnect <==> socket.attempt > 1)
    && (!socket.wasOpened ==> socket.sent == [])
    && (socket.ready == Pending ==> !socket.wasOpened)
    && (socket.ready == Open ==> socket.wasOpened)
    // only the newest attempt's socket may be alive
    && (socket.attempt < Newest(a.runs[socket.run]) ==> socket.ready == Gone)
    // in the mounted run it is the shared reference; in a cancelled run it is already closing
    && (!a.runs[socket.run].cancelled && socket.attempt == a.runs[socket.run].attempt && socket.ready != Gone ==>
          a.socketRef == Some(s))
    && (a.runs[socket.run].cancelled ==> socket.ready == Closing || socket.ready == Failing || socket.ready == Gone)
    // outside a finished session an unopened socket is not being closed
    && (!a.runs[socket.run].cancelled && socket.ready == Closing ==> socket.wasOpened)
    // the server has been told the current size
    && (socket.ready == Open ==> LastResize(socket.sent) == a.latestSize)
  }

  predicate SocketsOk(a: App) {
    && (forall s :: 0 <= s < |a.sockets| ==> SocketOk(a, s, a.sockets[s]))
    && (forall s, t :: 0 <= s < t < |a.sockets| ==>
          !(a.sockets[s].run == a.sockets[t].run && a.sockets[s].attempt == a.sockets[t].attempt))
    && (a.socketRef.Some? ==>
          && Mounted(a)
          && a.socketRef.value < |a.sockets|
          && var socket := a.sockets[a.socketRef.value];
             socket.run == Last(a) && socket.attempt == a.runs[Last(a)].attempt && socket.ready != Gone)
  }

  predicate TimersOk(a: App) {
    && (forall t :: t in a.timers ==>
          && t < a.nextTimer
          && Mounted(a)
          && a.timers[t].run == Last(a)
          && (a.timers[t].ReconnectTimer? ==> a.reconnectRef == Some(t))
          && (a.timers[t].NoticeTimer? ==> a.runs[Last(a)].noticeTimer == Some(t)))
    && (a.reconnectRef.Some? ==>
          a.reconnectRef.value in a.timers && a.timers[a.reconnectRef.value].ReconnectTimer?)
    && (Mounted(a) && a.runs[Last(a)].noticeTimer.Some? ==>
          var t := a.runs[Last(a)].noticeTimer.value; t in a.timers && a.timers[t].NoticeTimer?)
  }

  predicate HasTimer(a: App) {
    a.reconnectRef.Some?
  }

  predicate HasFetch(a: App)
    requires a.runs != []
  {
    CurrentFetch(a) in a.fetches
  }

  predicate HasUnopenedSocket(a: App) {
    && a.socketRef.Some? && a.socketRef.value < |a.sockets|
    && !a.sockets[a.socketRef.value].wasOpened && a.sockets[a.socketRef.value].ready != Gone
  }

  predicate HasOpenedSocket(a: App) {
    && a.socketRef.Some? && a.socketRef.value < |a.sockets|
    && a.sockets[a.socketRef.value].wasOpened && a.sockets[a.socketRef.value].ready != Gone
  }

  /** What is live for the current attempt. */
  datatype Live = Live(timer: bool, fetch: bool, unopenedSocket: bool, openedSocket: bool)

  function LiveNow(a: App): Live
    requires a.runs != []
  {
    Live(HasTimer(a), HasFetch(a), HasUnopenedSocket(a), HasOpenedSocket(a))
  }

  const NOTHING := Live(false, false, false, false)
  const ONLY_TIMER := Live(true, false, false, false)
  const ONLY_FETCH := Live(false, true, false, false)
  const ONLY_UNOPENED := Live(false, false, true, false)
  const ONLY_OPENED := Live(false, false, false, true)

  /** The live resources each displayed state stands for. */
  predicate Stands(c: Connection, live: Live) {
    match c.phase
    case Connecting =>
      c == Plain(Connecting) && (live == ONLY_FETCH || live == ONLY_UNOPENED)
    case Connected =>
      (c == Plain(Connected) || c == Plain(Connected).(newSession := true)) && live == ONLY_OPENED
    case Reconnecting =>
      if c.reason == Some(Network) then
        c == Because(Reconnecting, Network).(detail := c.detail) && live == ONLY_TIMER
      else
        c == Plain(Reconnecting) && (live == ONLY_TIMER || live == ONLY_FETCH || live == ONLY_UNOPENED)
    case Closed =>
      && c == Because(Closed, RemoteExit).(exitCode := c.exitCode)
      && (live == NOTHING || live == ONLY_OPENED)
    case Failed =>
      && c.reason.Some?
      && c == Because(Failed, c.reason.value).(detail := c.detail)
      && match c.reason.value {
           case ServerError => live == ONLY_OPENED
           case WebSocketError => live == ONLY_UNOPENED
           case RemoteExit => false
           case _ => live == NOTHING
         }
  }

  predicate PhaseOk(a: App) {
    Mounted(a) ==>
      var run := a.runs[Last(a)];
      && Stands(a.connection, LiveNow(a))
      && (a.connection.newSession <==> run.noticeTimer.Some?)
      && (run.remoteExited <==> a.connection.phase == Closed)
      && (a.connection.phase == Closed && a.socketRef.Some? && a.socketRef.value < |a.sockets| ==>
            a.sockets[a.socketRef.value].ready == Closing || a.sockets[a.socketRef.value].ready == Failing)
      && (HasUnopenedSocket(a) && a.connection.phase == Connecting ==> a.sockets[a.socketRef.value].ready == Pending)
      && (HasUnopenedSocket(a) && a.connection.reason == Some(WebSocketError) ==>
            a.sockets[a.socketRef.value].ready == Failing)
      && (a.connection.phase == Connecting || a.connection.reason == Some(WebSocketError) ==> run.attempt == 1)
      && (a.connection.phase == Reconnecting && !HasTimer(a) ==> run.attempt > 1)
  }

  predicate Inv(a: App) {
    RunsOk(a) && FetchesOk(a) && SocketsOk(a) && TimersOk(a) && PhaseOk(a)
  }

  /** The last size told to the server on a socket. */
  function LastResize(sent: seq<ClientMessage>): Option<Size> {
    if sent == [] then
      None
    else if sent[|sent| - 1].Resize? then
      Some(sent[|sent| - 1].size)
    else
      LastResize(sent[..|sent| - 1])
  }

  lemma LastResizeAppend(sent: seq<ClientMessage>, m: ClientMessage)
    ensures LastResize(sent + [m]) == if m.Resize? then Some(m.size) else LastResize(sent)
  {
    assert (sent + [m])[..|sent|] == sent;
  }

  // ---- Frames: what an update must leave alone ------------------------------------------

  predicate SameRuns(a: App, b: App) {
    && |b.runs| == |a.runs|
    && forall r :: 0 <= r < |a.runs| ==>
         b.runs[r].cancelled == a.runs[r].cancelled && b.runs[r].attempt == a.runs[r].attempt
  }

  predicate SameOwners(a: App, b: App) {
    && |b.sockets| == |a.sockets|
    && forall s :: 0 <= s < |a.sockets| ==>
         b.sockets[s].run == a.sockets[s].run && b.sockets[s].attempt == a.sockets[s].attempt
  }

  lemma FetchesFrame(a: App, b: App)
    requires FetchesOk(a) && SameRuns(a, b) && SameOwners(a, b) && b.fetches <= a.fetches
    ensures FetchesOk(b)
  {
  }

  lemma SocketsFrame(a: App, b: App)
    requires SocketsOk(a) && SameRuns(a, b)
    requires b.sockets == a.sockets && b.socketRef == a.socketRef && b.latestSize == a.latestSize
    ensures SocketsOk(b)
  {
  }

  lemma TimersFrame(a: App, b: App)
    requires TimersOk(a) && SameRuns(a, b)
    requires b.timers == a.timers && b.nextTimer == a.nextTimer && b.reconnectRef == a.reconnectRef
    requires forall r :: 0 <= r < |a.runs| ==> b.runs[r].noticeTimer == a.runs[r].noticeTimer
    ensures TimersOk(b)
  {
  }

  /** Replacing one socket by a version of itself keeps the others in order. */
  lemma SocketsUpdate(a: App, b: App, s: nat)
    requires SocketsOk(a) && SameRuns(a, b) && s < |a.sockets|
    requires b.latestSize == a.latestSize
    requires SameOwners(a, b) && b.sockets == a.sockets[s := b.sockets[s]]
    requires SocketOk(b, s, b.sockets[s])
    requires b.socketRef == if a.socketRef == Some(s) && b.sockets[s].ready == Gone then None else a.socketRef
    ensures SocketsOk(b)
  {
    forall t | 0 <= t < |b.sockets| ensures SocketOk(b, t, b.sockets[t]) {
      if t != s {
        assert b.sockets[t] == a.sockets[t];
      }
    }
  }

  // ---- The pieces of the effect, on the mounted run ------------------------------------------

  /** The parts of the invariant that do not speak of the displayed state. */
  predicate Base(a: App) {
    RunsOk(a) && FetchesOk(a) && SocketsOk(a) && TimersOk(a)
  }

  predicate SameResources(a: App, b: App) {
    && SameRuns(a, b)
    && b.fetches == a.fetches
    && b.sockets == a.sockets
    && b.socketRef == a.socketRef
    && b.latestSize == a.latestSize
    && b.screen == a.screen
    && forall r :: 0 <= r < |a.runs| ==> b.runs[r].remoteExited == a.runs[r].remoteExited
  }

  lemma ClearNoticeEffect(a: App)
    requires Base(a) && Mounted(a)
    ensures var b := ClearNoticeTimer(a, Last(a));
            && Base(b) && SameResources(a, b)
            && b.connection == a.connection && b.reconnectRef == a.reconnectRef
            && b.nextTimer == a.nextTimer
            && b.runs[Last(b)].noticeTimer == None
  {
    var b := ClearNoticeTimer(a, Last(a));
    FetchesFrame(a, b);
    SocketsFrame(a, b);
  }

  lemma SetStateEffect(a: App, c: Connection)
    requires Base(a) && Mounted(a)
    ensures var b := SetState(a, Last(a), c);
            && Base(b) && SameResources(a, b)
            && b.connection == c && b.reconnectRef == a.reconnectRef
            && b.runs[Last(b)].noticeTimer == if c.newSession then a.runs[Last(a)].noticeTimer else None
  {
    ClearNoticeEffect(a);
    var d := ClearNoticeTimer(a, Last(a));
    SocketsFrame(d, d.(connection := c));
    SocketsFrame(a, a.(connection := c));
  }

  lemma ShowConnectedEffect(a: App, isReconnect: bool)
    requires Base(a) && Mounted(a)
    ensures var b := ShowConnected(a, Last(a), isReconnect);
            && Base(b) && SameResources(a, b)
            && b.connection == Plain(Connected).(newSession := isReconnect)
            && b.reconnectRef == a.reconnectRef
            && (b.runs[Last(b)].noticeTimer.Some? <==> isReconnect)
  {
    if isReconnect {
      ClearNoticeEffect(a);
      var c := ClearNoticeTimer(a, Last(a));
      var shown := Plain(Connected).(newSession := true);
      SetStateEffect(c, shown);
      var d, b := SetState(c, Last(a), shown), ShowConnected(a, Last(a), true);
      assert SameRuns(d, b);
      FetchesFrame(d, b);
      SocketsFrame(d, b);
    } else {
      SetStateEffect(a, Plain(Connected));
    }
  }

  lemma ScheduleEffect(a: App)
    requires Base(a) && Mounted(a) && !HasTimer(a)
    ensures var b := ScheduleReconnect(a, Last(a));
            && Base(b) && SameResources(a, b)
            && HasTimer(b)
            && b.connection == (if a.connection.phase == Reconnecting && a.connection.reason == Some(Network)
                                then a.connection else Plain(Reconnecting))
            && b.runs[Last(b)].noticeTimer == None
  {
    ClearNoticeEffect(a);
    var c, b := ClearNoticeTimer(a, Last(a)), ScheduleReconnect(a, Last(a));
    assert SameRuns(c, b);
    FetchesFrame(c, b);
    SocketsFrame(c, b);
  }

  function Bump(a: App): App
    requires Mounted(a)
  {
    a.(runs := a.runs[Last(a) := a.runs[Last(a)].(attempt := a.runs[Last(a)].attempt + 1)])
  }

  /** Counting up the attempt is safe once nothing of the current one is left. */
  lemma BumpEffect(a: App)
    requires Base(a) && Mounted(a) && !HasTimer(a) && a.socketRef.None?
    ensures Base(Bump(a)) && Mounted(Bump(a)) && Bump(a).runs[Last(a)].attempt > 1
    ensures NothingNewer(Bump(a))
  {
    var b := Bump(a);
    forall s | 0 <= s < |b.sockets| ensures SocketOk(b, s, b.sockets[s]) {
      assert SocketOk(a, s, a.sockets[s]);
    }
    assert FetchesOk(b);
    assert TimersOk(b);
  }

  /** The current attempt has no socket yet. */
  predicate NothingNewer(a: App) {
    && a.runs != []
    && forall s :: 0 <= s < |a.sockets| && a.sockets[s].run == Last(a) ==>
         a.sockets[s].attempt < a.runs[Last(a)].attempt
  }

  lemma ConnectEffect(a: App)
    requires Base(a) && Mounted(a) && !HasTimer(a) && a.socketRef.None?
    ensures var b := Connect(a, Last(a), true);
            && Base(b) && Mounted(b) && |b.runs| == |a.runs|
            && b.connection == Plain(Reconnecting)
            && b.reconnectRef == None && b.socketRef == None
            && CurrentFetch(b) in b.fetches && b.runs[Last(b)].attempt > 1
            && b.runs[Last(b)].noticeTimer == None
            && b.runs[Last(b)].remoteExited == a.runs[Last(a)].remoteExited
  {
    BumpEffect(a);
    StartEffect(Bump(a));
    assert Connect(a, Last(a), true) == Start(Bump(a));
  }

  /** The rest of `connect` once the attempt is counted. */
  function Start(a: App): App
    requires Mounted(a)
  {
    var b := SetState(a, Last(a), Plain(Reconnecting));
    b.(fetches := b.fetches + {Fetch(Last(a), a.runs[Last(a)].attempt, true)})
  }

  lemma StartEffect(a: App)
    requires Base(a) && Mounted(a) && a.runs[Last(a)].attempt > 1 && NothingNewer(a)
    ensures var b := Start(a);
            && Base(b) && SameRuns(a, b) && b.connection == Plain(Reconnecting)
            && b.reconnectRef == a.reconnectRef && b.socketRef == a.socketRef
            && CurrentFetch(b) in b.fetches && b.runs[Last(b)].attempt > 1
            && b.runs[Last(b)].noticeTimer == None
            && b.runs[Last(b)].remoteExited == a.runs[Last(a)].remoteExited
  {
    SetStateEffect(a, Plain(Reconnecting));
    NewFetchEffect(SetState(a, Last(a), Plain(Reconnecting)));
  }

  lemma NewFetchEffect(a: App)
    requires Base(a) && Mounted(a) && a.runs[Last(a)].attempt > 1 && NothingNewer(a)
    ensures Base(a.(fetches := a.fetches + {CurrentFetch(a)}))
  {
    var b := a.(fetches := a.fetches + {CurrentFetch(a)});
    SocketsFrame(a, b);
    TimersFrame(a, b);
  }

  // ---- Every event keeps the invariant -----------------------------------------------

  lemma MountKeeps(a: App)
    requires Inv(a) && Enabled(a, Mount)
    ensures Inv(OnMount(a))
  {
  }

  lemma UnmountKeeps(a: App)
    requires Inv(a) && Enabled(a, Unmount)
    ensures Inv(OnUnmount(a))
  {
    UnmountTimers(a);
    UnmountSockets(a);
  }

  /** Unmounting leaves no timer behind. */
  lemma UnmountTimers(a: App)
    requires Inv(a) && Mounted(a)
    ensures RunsOk(OnUnmount(a)) && TimersOk(OnUnmount(a))
    ensures OnUnmount(a).timers == map[] && !Mounted(OnUnmount(a))
  {
    var b := OnUnmount(a);
    assert forall t :: t in a.timers ==> a.reconnectRef == Some(t) || a.runs[Last(a)].noticeTimer == Some(t);
    assert b.timers == map[];
  }

  lemma UnmountSockets(a: App)
    requires Inv(a) && Mounted(a)
    ensures SocketsOk(OnUnmount(a)) && FetchesOk(OnUnmount(a))
  {
    UnmountOutline(a);
    CancelledTraffic(a, OnUnmount(a));
  }

  lemma UnmountOutline(a: App)
    requires Inv(a) && Mounted(a)
    ensures Cancels(a, OnUnmount(a))
  {
  }

  /** What an unmount does to the last run, its socket and nothing else. */
  predicate Cancels(a: App, b: App) {
    && a.runs != []
    && |b.runs| == |a.runs| && b.fetches == a.fetches && b.socketRef == None
    && b.latestSize == a.latestSize && b.connection == a.connection && b.screen == a.screen
    && b.runs[Last(a)].cancelled && b.runs[Last(a)].attempt == a.runs[Last(a)].attempt + 1
    && (forall r :: 0 <= r < Last(a) ==> b.runs[r] == a.runs[r])
    && |b.sockets| == |a.sockets|
    && forall s :: 0 <= s < |a.sockets| ==>
         b.sockets[s] == if a.socketRef == Some(s) && (a.sockets[s].ready == Pending || a.sockets[s].ready == Open)
                         then a.sockets[s].(ready := Closing) else a.sockets[s]
  }

  lemma CancelledTraffic(a: App, b: App)
    requires RunsOk(a) && SocketsOk(a) && FetchesOk(a) && Mounted(a) && Cancels(a, b)
    ensures SocketsOk(b) && FetchesOk(b)
  {
    assert forall q :: 0 <= q < |a.runs| ==> Newest(b.runs[q]) == Newest(a.runs[q]);
    forall s | 0 <= s < |b.sockets| ensures SocketOk(b, s, b.sockets[s]) {
      assert SocketOk(a, s, a.sockets[s]);
    }
  }

  lemma FetchFailedKeeps(a: App, f: Fetch, text: string)
    requires Inv(a) && Enabled(a, FetchFailed(f, text))
    ensures Inv(OnFetchFailed(a, f, text))
  {
    var b := a.(fetches := a.fetches - {f});
    if Stale(b, f.run, f.attempt) {
      StaleFetchKeeps(a, f);
    } else if f.isReconnect {
      RetryKeeps(a, f, text);
    } else {
      RefusalKeeps(a, f, Because(Failed, Network).(detail := Some(text)));
    }
  }

  /** A fetch of a cancelled run or older attempt is dropped. */
  lemma StaleFetchKeeps(a: App, f: Fetch)
    requires Inv(a) && f in a.fetches && f.run < |a.runs| && Stale(a, f.run, f.attempt)
    ensures Inv(a.(fetches := a.fetches - {f}))
  {
    var b := a.(fetches := a.fetches - {f});
    FetchesFrame(a, b);
    SocketsFrame(a, b);
    assert Mounted(a) ==> f != CurrentFetch(a);
    assert Mounted(a) ==> LiveNow(b) == LiveNow(a);
  }

  lemma RetryKeeps(a: App, f: Fetch, text: string)
    requires Inv(a) && f in a.fetches && !Stale(a, f.run, f.attempt) && f.isReconnect
    ensures Inv(OnFetchFailed(a, f, text))
  {
    CurrentFetchLive(a, f);
    var b := a.(fetches := a.fetches - {f});
    FetchesFrame(a, b);
    SocketsFrame(a, b);
    var shown := Because(Reconnecting, Network).(detail := Some(text));
    SetStateEffect(b, shown);
    ScheduleEffect(SetState(b, f.run, shown));
  }

  /** A fetch that is not stale is the current one, and nothing else is live. */
  lemma CurrentFetchLive(a: App, f: Fetch)
    requires Inv(a) && f in a.fetches && !Stale(a, f.run, f.attempt)
    ensures Mounted(a) && f.run == Last(a) && f == CurrentFetch(a)
    ensures LiveNow(a) == ONLY_FETCH && a.socketRef.None?
  {
  }

  lemma FetchDoneKeeps(a: App, f: Fetch, status: nat)
    requires Inv(a) && Enabled(a, FetchDone(f, status))
    ensures Inv(OnFetchDone(a, f, status))
  {
    var b := a.(fetches := a.fetches - {f});
    if Stale(b, f.run, f.attempt) {
      StaleFetchKeeps(a, f);
    } else if status == 401 {
      RefusalKeeps(a, f, Because(Failed, AuthRequired));
    } else if status != 204 {
      RefusalKeeps(a, f, Because(Failed, AuthCheckFailed));
    } else {
      NewSocketKeeps(a, f);
    }
  }

  lemma RefusalKeeps(a: App, f: Fetch, c: Connection)
    requires Inv(a) && f in a.fetches && !Stale(a, f.run, f.attempt)
    requires Stands(c, NOTHING) && !c.newSession && c.phase == Failed
    ensures Inv(SetState(a.(fetches := a.fetches - {f}), f.run, c))
  {
    CurrentFetchLive(a, f);
    var b := a.(fetches := a.fetches - {f});
    FetchesFrame(a, b);
    SocketsFrame(a, b);
    SetStateEffect(b, c);
    assert LiveNow(SetState(b, f.run, c)) == NOTHING;
  }

  lemma NewSocketKeeps(a: App, f: Fetch)
    requires Inv(a) && f in a.fetches && !Stale(a, f.run, f.attempt)
    ensures Inv(OnFetchDone(a, f, 204))
  {
    CurrentFetchLive(a, f);
    var b := OnFetchDone(a, f, 204);
    TimersFrame(a, b);
    assert FetchesOk(b) by {
      forall g | g in b.fetches ensures g in a.fetches && !(g.run == f.run && g.attempt == f.attempt) {
        assert g != f;
      }
    }
    forall s | 0 <= s < |b.sockets| ensures SocketOk(b, s, b.sockets[s]) {
      if s < |a.sockets| {
        assert b.sockets[s] == a.sockets[s];
      }
    }
  }

  /** An unfinished socket of the current attempt is the shared one. */
  lemma CurrentSocketLive(a: App, s: nat)
    requires Inv(a) && SocketIn(a, s, UNFINISHED)
    requires !Stale(a, a.sockets[s].run, a.sockets[s].attempt)
    ensures Mounted(a) && a.sockets[s].run == Last(a) && a.socketRef == Some(s)
    ensures LiveNow(a) == if a.sockets[s].wasOpened then ONLY_OPENED else ONLY_UNOPENED
  {
  }

  lemma OpenKeeps(a: App, s: nat)
    requires Inv(a) && Enabled(a, SocketOpens(s))
    ensures Inv(OnSocketOpens(a, s))
  {
    var socket := a.sockets[s];
    CurrentSocketLive(a, s);
    ShowConnectedEffect(a, socket.isReconnect);
    var b := ShowConnected(a, socket.run, socket.isReconnect);
    var greeting := match b.latestSize case None => [] case Some(size) => [Resize(size)];
    assert SocketOk(a, s, socket);
    assert socket.sent + greeting == greeting;
    var grown := socket.(ready := Open, wasOpened := true, sent := greeting);
    OpenedBase(b, s, grown, greeting);
    assert CurrentFetch(b) == CurrentFetch(a);
    OpenedPhase(b, s, grown);
  }

  lemma OpenedBase(b: App, s: nat, grown: Socket, greeting: seq<ClientMessage>)
    requires Base(b) && b.socketRef == Some(s) && b.sockets[s].ready == Pending
    requires greeting == match b.latestSize case None => [] case Some(size) => [Resize(size)]
    requires grown == b.sockets[s].(ready := Open, wasOpened := true, sent := greeting)
    ensures Base(WithSocket(b, s, grown))
  {
    var c := WithSocket(b, s, grown);
    assert LastResize(greeting) == b.latestSize;
    FetchesFrame(b, c);
    TimersFrame(b, c);
    assert SocketOk(b, s, b.sockets[s]);
    SocketsUpdate(b, c, s);
  }

  lemma OpenedPhase(b: App, s: nat, grown: Socket)
    requires Mounted(b) && b.socketRef == Some(s) && s < |b.sockets|
    requires grown.wasOpened && grown.ready == Open
    requires b.reconnectRef == None && CurrentFetch(b) !in b.fetches
    requires b.connection.newSession <==> b.runs[Last(b)].noticeTimer.Some?
    requires b.connection == Plain(Connected).(newSession := b.connection.newSession)
    requires !b.runs[Last(b)].remoteExited
    ensures PhaseOk(WithSocket(b, s, grown))
  {
    assert LiveNow(WithSocket(b, s, grown)) == ONLY_OPENED;
  }

  function Forget(a: App, s: nat): App
    requires s < |a.sockets|
  {
    var b := WithSocket(a, s, a.sockets[s].(ready := Gone));
    if b.socketRef == Some(s) then b.(socketRef := None) else b
  }

  lemma ForgetEffect(a: App, s: nat)
    requires Base(a) && s < |a.sockets|
    ensures var b := Forget(a, s);
            && Base(b) && SameRuns(a, b) && b.fetches == a.fetches && b.reconnectRef == a.reconnectRef
            && b.runs == a.runs && b.connection == a.connection
            && b.socketRef == if a.socketRef == Some(s) then None else a.socketRef
  {
    var b := Forget(a, s);
    FetchesFrame(a, b);
    TimersFrame(a, b);
    SocketsUpdate(a, b, s);
  }

  lemma CloseKeeps(a: App, s: nat)
    requires Inv(a) && Enabled(a, SocketCloses(s))
    ensures Inv(OnSocketCloses(a, s))
  {
    var socket, b := a.sockets[s], Forget(a, s);
    ForgetEffect(a, s);
    if Stale(a, socket.run, socket.attempt) {
      StaleForgotten(a, s);
    } else {
      CurrentSocketLive(a, s);
      CurrentForgotten(a, b, socket);
    }
  }

  lemma StaleForgotten(a: App, s: nat)
    requires Inv(a) && s < |a.sockets| && a.sockets[s].run < |a.runs|
    requires Stale(a, a.sockets[s].run, a.sockets[s].attempt)
    ensures PhaseOk(Forget(a, s))
  {
    assert a.socketRef != Some(s);
    assert Mounted(a) ==> LiveNow(Forget(a, s)) == LiveNow(a);
  }

  /** The current socket is gone: `b` retries, reports the failed upgrade or has exited. */
  lemma CurrentForgotten(a: App, b: App, socket: Socket)
    requires Inv(a) && Mounted(a) && socket.run == Last(a)
    requires LiveNow(a) == if socket.wasOpened then ONLY_OPENED else ONLY_UNOPENED
    requires Base(b) && b.runs == a.runs && b.connection == a.connection
    requires b.fetches == a.fetches && b.reconnectRef == a.reconnectRef && b.socketRef == None
    ensures var c :=
              if b.runs[socket.run].remoteExited then b
              else if socket.wasOpened || socket.isReconnect then ScheduleReconnect(b, socket.run)
              else SetState(b, socket.run, Because(Failed, WebSocketUpgrade));
            Inv(c)
  {
    assert LiveNow(b) == NOTHING;
    if !b.runs[socket.run].remoteExited {
      if socket.wasOpened || socket.isReconnect {
        ScheduleEffect(b);
        assert LiveNow(ScheduleReconnect(b, socket.run)) == ONLY_TIMER;
      } else {
        SetStateEffect(b, Because(Failed, WebSocketUpgrade));
        assert LiveNow(SetState(b, socket.run, Because(Failed, WebSocketUpgrade))) == NOTHING;
      }
    }
  }

  lemma FailKeeps(a: App, s: nat)
    requires Inv(a) && Enabled(a, SocketFails(s))
    ensures Inv(OnSocketFails(a, s))
  {
    var socket, b := a.sockets[s], WithSocket(a, s, a.sockets[s].(ready := Failing));
    FailingBase(a, s);
    if Stale(a, socket.run, socket.attempt) {
      assert a.socketRef != Some(s);
      assert Mounted(a) ==> LiveNow(b) == LiveNow(a);
    } else {
      CurrentSocketLive(a, s);
      FailingPhase(a, b, s);
    }
  }

  lemma FailingBase(a: App, s: nat)
    requires Base(a) && SocketIn(a, s, {Pending, Open, Closing})
    ensures Base(WithSocket(a, s, a.sockets[s].(ready := Failing)))
  {
    var b := WithSocket(a, s, a.sockets[s].(ready := Failing));
    assert SocketOk(a, s, a.sockets[s]);
    FetchesFrame(a, b);
    TimersFrame(a, b);
    SocketsUpdate(a, b, s);
  }

  /** The current socket fails: only a first attempt that never opened shows it. */
  lemma FailingPhase(a: App, b: App, s: nat)
    requires Inv(a) && Mounted(a) && a.socketRef == Some(s) && Base(b)
    requires b == WithSocket(a, s, a.sockets[s].(ready := Failing)) && a.sockets[s].ready != Gone
    requires a.sockets[s].run == Last(a) && (a.sockets[s].isReconnect <==> a.runs[Last(a)].attempt > 1)
    ensures var c := if a.sockets[s].wasOpened || a.sockets[s].isReconnect then b
                     else SetState(b, Last(a), Because(Failed, WebSocketError));
            Inv(c)
  {
    assert LiveNow(b) == LiveNow(a);
    if !a.sockets[s].wasOpened && !a.sockets[s].isReconnect {
      SetStateEffect(b, Because(Failed, WebSocketError));
      assert LiveNow(SetState(b, Last(a), Because(Failed, WebSocketError))) == ONLY_UNOPENED;
    }
  }

  lemma ReceiveKeeps(a: App, s: nat, data: seq<byte>)
    requires Inv(a) && Enabled(a, SocketReceives(s, data))
    ensures Inv(OnSocketReceives(a, s, data))
  {
    CurrentSocketLive(a, s);
    match BrowserDecode(data) {
      case None =>
      case Some(BrowserOutput(bytes)) =>
        SocketsFrame(a, a.(screen := a.screen + bytes));
      case Some(BrowserError(message)) =>
        ErrorFrameKeeps(a, s, Because(Failed, ServerError).(detail := Some(message)));
      case Some(BrowserExited(code)) =>
        ExitKeeps(a, s, code);
    }
  }

  lemma ErrorFrameKeeps(a: App, s: nat, c: Connection)
    requires Inv(a) && Mounted(a) && LiveNow(a) == ONLY_OPENED
    requires a.socketRef == Some(s) && s < |a.sockets| && a.sockets[s].ready == Open
    requires c == Because(Failed, ServerError).(detail := c.detail)
    ensures Inv(SetState(a, Last(a), c))
  {
    SetStateEffect(a, c);
    assert LiveNow(SetState(a, Last(a), c)) == LiveNow(a);
  }

  lemma ExitKeeps(a: App, s: nat, code: Decimal.JsNumber)
    requires Inv(a) && SocketIn(a, s, {Open}) && a.socketRef == Some(s)
    requires Mounted(a) && a.sockets[s].run == Last(a)
    ensures var b := a.(runs := a.runs[Last(a) := a.runs[Last(a)].(remoteExited := true)]);
            Inv(CloseSocket(SetState(b, Last(a), Because(Closed, RemoteExit).(exitCode := Some(code))), s))
  {
    var shown := Because(Closed, RemoteExit).(exitCode := Some(code));
    var b := a.(runs := a.runs[Last(a) := a.runs[Last(a)].(remoteExited := true)]);
    FetchesFrame(a, b);
    SocketsFrame(a, b);
    TimersFrame(a, b);
    SetStateEffect(b, shown);
    CurrentSocketLive(a, s);
    ExitPhase(SetState(b, Last(a), shown), s, shown);
  }

  /** The exit is shown: closing its socket completes the final state. */
  lemma ExitPhase(a: App, s: nat, shown: Connection)
    requires Base(a) && Mounted(a) && LiveNow(a) == ONLY_OPENED
    requires s < |a.sockets| && a.sockets[s].ready == Open && a.socketRef == Some(s)
    requires shown == Because(Closed, RemoteExit).(exitCode := shown.exitCode) && a.connection == shown
    requires a.runs[Last(a)].remoteExited && a.runs[Last(a)].noticeTimer == None
    ensures Inv(CloseSocket(a, s))
  {
    CloseSocketEffect(a, s);
    assert LiveNow(CloseSocket(a, s)) == ONLY_OPENED;
  }

  lemma CloseSocketEffect(a: App, s: nat)
    requires Base(a) && s < |a.sockets| && a.sockets[s].ready == Open && a.socketRef == Some(s)
    ensures var b := CloseSocket(a, s);
            && Base(b) && b.runs == a.runs && b.fetches == a.fetches && b.reconnectRef == a.reconnectRef
            && b.connection == a.connection && b.socketRef == Some(s)
            && |b.sockets| == |a.sockets|
            && b.sockets[s] == a.sockets[s].(ready := Closing)
  {
    var b := CloseSocket(a, s);
    FetchesFrame(a, b);
    TimersFrame(a, b);
    SocketsUpdate(a, b, s);
  }

  lemma PeerClosingKeeps(a: App, s: nat)
    requires Inv(a) && Enabled(a, PeerStartsClosing(s))
    ensures Inv(Handle(a, PeerStartsClosing(s)))
  {
    var b := Handle(a, PeerStartsClosing(s));
    FetchesFrame(a, b);
    TimersFrame(a, b);
    SocketsUpdate(a, b, s);
  }

  lemma TimerKeeps(a: App, t: nat)
    requires Inv(a) && Enabled(a, TimerFires(t))
    ensures Inv(OnTimer(a, t))
  {
    if a.timers[t].ReconnectTimer? {
      ReconnectFires(a, t);
    } else {
      NoticeFires(a, t);
    }
  }

  lemma ReconnectFires(a: App, t: nat)
    requires Inv(a) && Enabled(a, TimerFires(t)) && a.timers[t].ReconnectTimer?
    ensures Inv(OnTimer(a, t))
  {
    var b := a.(timers := Without(a.timers, t), reconnectRef := None);
    FetchesFrame(a, b);
    SocketsFrame(a, b);
    assert TimersOk(b);
    ConnectEffect(b);
  }

  lemma NoticeFires(a: App, t: nat)
    requires Inv(a) && Enabled(a, TimerFires(t)) && a.timers[t].NoticeTimer?
    ensures Inv(OnTimer(a, t))
  {
    var b := OnTimer(a, t);
    FetchesFrame(a, b);
    SocketsFrame(a, b);
  }

  /** Sending needs the last size told afterwards to be the current one. */
  lemma SendKeeps(a: App, size: Option<Size>, m: ClientMessage)
    requires Inv(a)
    requires if m.Input? then size == a.latestSize else size == Some(m.size)
    ensures Inv(Send(a.(latestSize := size), m))
  {
    var b := Send(a.(latestSize := size), m);
    SendOutline(a.(latestSize := size), m);
    SendSockets(a, size, m);
    TrafficFrame(a, b);
  }

  /** Only frames on open sockets may differ. */
  predicate OnlySends(a: App, b: App) {
    && b == a.(sockets := b.sockets, latestSize := b.latestSize)
    && |b.sockets| == |a.sockets|
    && forall s :: 0 <= s < |a.sockets| ==> b.sockets[s] == a.sockets[s].(sent := b.sockets[s].sent)
  }

  lemma SendOutline(a: App, m: ClientMessage)
    ensures OnlySends(a, Send(a, m)) && Send(a, m).latestSize == a.latestSize
  {
  }

  lemma TrafficFrame(a: App, b: App)
    requires Inv(a) && OnlySends(a, b)
    ensures RunsOk(b) && FetchesOk(b) && TimersOk(b) && PhaseOk(b)
  {
    FetchesFrame(a, b);
    TimersFrame(a, b);
    assert Mounted(a) ==> LiveNow(b) == LiveNow(a);
  }

  lemma SendSockets(a: App, size: Option<Size>, m: ClientMessage)
    requires SocketsOk(a)
    requires if m.Input? then size == a.latestSize else size == Some(m.size)
    ensures SocketsOk(Send(a.(latestSize := size), m))
  {
    var b := Send(a.(latestSize := size), m);
    forall s | 0 <= s < |b.sockets| ensures SocketOk(b, s, b.sockets[s]) {
      assert SocketOk(a, s, a.sockets[s]);
      if a.sockets[s].ready == Open {
        LastResizeAppend(a.sockets[s].sent, m);
      }
    }
  }

  lemma StepKeeps(a: App, e: Event)
    requires Inv(a)
    ensures Inv(Step(a, e))
  {
    if Enabled(a, e) {
      match e {
        case Mount => MountKeeps(a);
        case Unmount => UnmountKeeps(a);
        case FetchDone(f, status) => FetchDoneKeeps(a, f, status);
        case FetchFailed(f, text) => FetchFailedKeeps(a, f, text);
        case SocketOpens(s) => OpenKeeps(a, s);
        case SocketFails(s) => FailKeeps(a, s);
        case SocketReceives(s, data) => ReceiveKeeps(a, s, data);
        case PeerStartsClosing(s) => PeerClosingKeeps(a, s);
        case SocketCloses(s) => CloseKeeps(a, s);
        case TimerFires(t) => TimerKeeps(a, t);
        case Types(input) => SendKeeps(a, a.latestSize, Input(Utf8.Encode(input)));
        case SizeReported(size) => SendKeeps(a, Some(size), Resize(size));
      }
    }
  }
}
