/** What every event shows: for each answer of the environment the display and the
    resources that follow, in every reachable state, and for each display the event
    that caused it. */
module BrowserAnswers {
  import opened Common
  import opened Protocol
  import opened Browser
  import opened BrowserInvariant
  import opened BrowserRuns
  import opened BrowserTraffic
  import Decimal
  import Utf8

  /** A fetch of the run and attempt that count. */
  predicate CurrentCheck(a: App, f: Fetch) {
    f in a.fetches && f.run < |a.runs| && !Stale(a, f.run, f.attempt)
  }

  /** A socket of the run and attempt that count. */
  predicate CurrentSocket(a: App, s: nat) {
    s < |a.sockets| && a.sockets[s].run < |a.runs| && !Stale(a, a.sockets[s].run, a.sockets[s].attempt)
  }

  // ---- Auth checks -----------------------------------------------------------------------

  /** What an answered check leads to. */
  predicate CheckAnswered(a: App, b: App, status: nat) {
    && Mounted(b)
    && (b.connection.reason == Some(AuthRequired) <==> status == 401)
    && (b.connection.reason == Some(AuthCheckFailed) <==> status != 401 && status != 204)
    && (status != 204 ==>
          && b.connection == Because(Failed, b.connection.reason.value)
          && LiveNow(b) == NOTHING && b.sockets == a.sockets)
    && (status == 204 ==>
          && b.connection == a.connection && LiveNow(b) == ONLY_UNOPENED
          && |b.sockets| == |a.sockets| + 1 && b.sockets[|a.sockets|].ready == Pending)
  }

  lemma CheckAnswers(a: App, f: Fetch, status: nat)
    requires Inv(a) && CurrentCheck(a, f)
    ensures CheckAnswered(a, Step(a, FetchDone(f, status)), status)
  {
    CurrentFetchLive(a, f);
    FetchDoneKeeps(a, f, status);
    assert Stands(a.connection, ONLY_FETCH);
    assert Step(a, FetchDone(f, status)) == OnFetchDone(a, f, status);
  }

  /** In every reachable state: a 401 to the current check shows auth_required, any
      answer but 204 the failed check, and a 204 makes one socket. */
  lemma AnswerShows(events: seq<Event>, f: Fetch, status: nat)
    requires CurrentCheck(After(events), f)
    ensures CheckAnswered(After(events), After(events + [FetchDone(f, status)]), status)
  {
    AlwaysInv(events);
    ExecLast(INITIAL, events, FetchDone(f, status));
    CheckAnswers(After(events), f, status);
  }

  /** What a failed check leads to. */
  predicate CheckFailed(b: App, attempt: nat, text: string) {
    && Mounted(b)
    && b.connection == Because(if attempt == 1 then Failed else Reconnecting, Network).(detail := Some(text))
    && LiveNow(b) == if attempt == 1 then NOTHING else ONLY_TIMER
  }

  lemma CheckFails(a: App, f: Fetch, text: string)
    requires Inv(a) && CurrentCheck(a, f)
    ensures CheckFailed(Step(a, FetchFailed(f, text)), f.attempt, text)
  {
    CurrentFetchLive(a, f);
    FetchFailedKeeps(a, f, text);
    var b := Step(a, FetchFailed(f, text));
    assert b == OnFetchFailed(a, f, text);
    assert Stands(b.connection, LiveNow(b));
  }

  /** A failed check shows its text; the first attempt ends there, a later one waits
      for the next. */
  lemma FailureShows(events: seq<Event>, f: Fetch, text: string)
    requires CurrentCheck(After(events), f)
    ensures CheckFailed(After(events + [FetchFailed(f, text)]), f.attempt, text)
  {
    AlwaysInv(events);
    ExecLast(INITIAL, events, FetchFailed(f, text));
    CheckFails(After(events), f, text);
  }

  // ---- Sockets ------------------------------------------------------------------------------

  lemma OpenLeadsTo(a: App, s: nat)
    requires Inv(a) && CurrentSocket(a, s) && Enabled(a, SocketOpens(s))
    ensures var b := Step(a, SocketOpens(s));
            && Mounted(b) && LiveNow(b) == ONLY_OPENED
            && b.connection == Plain(Connected).(newSession := a.sockets[s].attempt > 1)
  {
    CurrentSocketLive(a, s);
    assert SocketOk(a, s, a.sockets[s]);
    OpenKeeps(a, s);
    var b := Step(a, SocketOpens(s));
    assert b == OnSocketOpens(a, s);
    assert Stands(b.connection, LiveNow(b));
  }

  /** An opened socket shows connected, with the notice exactly on a later attempt
      than the first. */
  lemma OpenShows(events: seq<Event>, s: nat)
    requires CurrentSocket(After(events), s) && Enabled(After(events), SocketOpens(s))
    ensures var a, b := After(events), After(events + [SocketOpens(s)]);
            && Mounted(b) && LiveNow(b) == ONLY_OPENED
            && b.connection == Plain(Connected).(newSession := a.sockets[s].attempt > 1)
  {
    AlwaysInv(events);
    ExecLast(INITIAL, events, SocketOpens(s));
    OpenLeadsTo(After(events), s);
  }

  /** What a closed socket leads to. */
  predicate SocketClosed(a: App, b: App, s: nat)
    requires s < |a.sockets|
  {
    && Mounted(b)
    && if a.connection.phase == Closed then
         b.connection == a.connection && LiveNow(b) == NOTHING
       else if a.sockets[s].wasOpened || a.sockets[s].attempt > 1 then
         b.connection == Plain(Reconnecting) && LiveNow(b) == ONLY_TIMER
       else
         b.connection == Because(Failed, WebSocketUpgrade) && LiveNow(b) == NOTHING
  }

  lemma CloseLeadsTo(a: App, s: nat)
    requires Inv(a) && CurrentSocket(a, s) && Enabled(a, SocketCloses(s))
    ensures SocketClosed(a, Step(a, SocketCloses(s)), s)
  {
    CurrentSocketLive(a, s);
    assert SocketOk(a, s, a.sockets[s]);
    assert Stands(a.connection, LiveNow(a));
    CloseKeeps(a, s);
    var b := Step(a, SocketCloses(s));
    assert b == OnSocketCloses(a, s);
    assert Stands(b.connection, LiveNow(b));
  }

  /** In every reachable state the close of the current socket leads back to a pending
      timer if the socket had been open or belongs to a later attempt, keeps an exit
      on display, and is the failed upgrade exactly for an unopened first attempt. */
  lemma CloseShows(events: seq<Event>, s: nat)
    requires CurrentSocket(After(events), s) && Enabled(After(events), SocketCloses(s))
    ensures SocketClosed(After(events), After(events + [SocketCloses(s)]), s)
    ensures After(events + [SocketCloses(s)]).connection.reason == Some(WebSocketUpgrade)
            <==> After(events).connection.phase != Closed
                 && !After(events).sockets[s].wasOpened && After(events).sockets[s].attempt == 1
  {
    AlwaysInv(events);
    ExecLast(INITIAL, events, SocketCloses(s));
    assert SocketOk(After(events), s, After(events).sockets[s]);
    CloseLeadsTo(After(events), s);
    assert Mounted(After(events)) ==> Stands(After(events).connection, LiveNow(After(events)));
  }

  /** Every session that drops without an exit can be followed by another one: three
      more events connect again, and the display says that the session is new. */
  lemma DroppedSessionReconnects(events: seq<Event>, s: nat) returns (more: seq<Event>)
    requires CurrentSocket(After(events), s) && Enabled(After(events), SocketCloses(s))
    requires After(events).sockets[s].wasOpened && After(events).connection.phase != Closed
    ensures |more| == 3 && NoUnmount(more)
    ensures var b := After(events + [SocketCloses(s)] + more);
            Mounted(b) && b.connection == Plain(Connected).(newSession := true) && LiveNow(b) == ONLY_OPENED
  {
    var dropped := events + [SocketCloses(s)];
    CloseShows(events, s);
    AlwaysInv(dropped);
    more := LeadsToConnected(After(dropped));
    ExecSplit(INITIAL, dropped, more);
  }

  lemma FailLeadsTo(a: App, s: nat)
    requires Inv(a) && CurrentSocket(a, s) && Enabled(a, SocketFails(s))
    ensures var b := Step(a, SocketFails(s));
            b.connection == if !a.sockets[s].wasOpened && a.sockets[s].attempt == 1
                            then Because(Failed, WebSocketError) else a.connection
  {
    assert SocketOk(a, s, a.sockets[s]);
    assert Step(a, SocketFails(s)) == OnSocketFails(a, s);
  }

  /** An error shows exactly on a first attempt that never opened. */
  lemma ErrorShows(events: seq<Event>, s: nat)
    requires CurrentSocket(After(events), s) && Enabled(After(events), SocketFails(s))
    ensures var a, b := After(events), After(events + [SocketFails(s)]);
            b.connection == if !a.sockets[s].wasOpened && a.sockets[s].attempt == 1
                            then Because(Failed, WebSocketError) else a.connection
  {
    AlwaysInv(events);
    ExecLast(INITIAL, events, SocketFails(s));
    FailLeadsTo(After(events), s);
  }

  // ---- Frames -------------------------------------------------------------------------------

  /** What a frame leads to, by its tag. */
  predicate FrameHandled(a: App, b: App, data: seq<byte>) {
    if data == [] || data[0] < 2 || data[0] > 4 then
      b == a
    else if data[0] == 2 then
      b == a.(screen := a.screen + data[1..])
    else if data[0] == 3 then
      && b.connection == Because(Failed, ServerError).(detail := Some(Utf8.TextDecoder(data[1..])))
      && b.screen == a.screen && b.sockets == a.sockets
    else
      && b.connection == Because(Closed, RemoteExit).(exitCode := Some(Decimal.Number(Utf8.TextDecoder(data[1..]))))
      && b.screen == a.screen
  }

  lemma FrameLeadsTo(a: App, s: nat, data: seq<byte>)
    requires Inv(a) && IsOpen(a, s)
    ensures FrameHandled(a, Step(a, SocketReceives(s, data)), data)
    ensures Mounted(Step(a, SocketReceives(s, data)))
    ensures LiveNow(Step(a, SocketReceives(s, data))) == ONLY_OPENED
  {
    OpenIsCurrent(a, s);
    assert Step(a, SocketReceives(s, data)) == OnSocketReceives(a, s, data);
  }

  /** In every reachable state a frame on the open socket is written, shown as the
      server's error with its own text, shown as the exit with its own code, or, with
      no known tag, changes nothing. */
  lemma FrameShows(events: seq<Event>, s: nat, data: seq<byte>)
    requires IsOpen(After(events), s)
    ensures var a, b := After(events), After(events + [SocketReceives(s, data)]);
            FrameHandled(a, b, data) && Mounted(b) && LiveNow(b) == ONLY_OPENED
  {
    AlwaysInv(events);
    ExecLast(INITIAL, events, SocketReceives(s, data));
    FrameLeadsTo(After(events), s, data);
  }

  // ---- Timers and mounts --------------------------------------------------------------------

  lemma TimerLeadsTo(a: App, t: nat)
    requires Inv(a) && Enabled(a, TimerFires(t))
    ensures var b := Step(a, TimerFires(t));
            && Mounted(a) && Mounted(b)
            && if a.timers[t].ReconnectTimer? then
                 && b.connection == Plain(Reconnecting) && LiveNow(b) == ONLY_FETCH
                 && b.runs[Last(b)].attempt == a.runs[Last(a)].attempt + 1
               else
                 && a.connection == Plain(Connected).(newSession := true)
                 && b.connection == Plain(Connected) && LiveNow(b) == LiveNow(a)
  {
    TimerKeeps(a, t);
    var b := Step(a, TimerFires(t));
    assert b == OnTimer(a, t);
    assert Stands(a.connection, LiveNow(a));
    if a.timers[t].ReconnectTimer? {
      assert LiveNow(a) == ONLY_TIMER;
      assert HasFetch(b);
    }
  }

  /** The reconnect timer starts the next attempt's check; the notice timer removes
      the notice. */
  lemma TimerShows(events: seq<Event>, t: nat)
    requires Enabled(After(events), TimerFires(t))
    ensures var a, b := After(events), After(events + [TimerFires(t)]);
            && Mounted(a) && Mounted(b)
            && if a.timers[t].ReconnectTimer? then
                 && b.connection == Plain(Reconnecting) && LiveNow(b) == ONLY_FETCH
                 && b.runs[Last(b)].attempt == a.runs[Last(a)].attempt + 1
               else
                 && a.connection == Plain(Connected).(newSession := true)
                 && b.connection == Plain(Connected) && LiveNow(b) == LiveNow(a)
  {
    AlwaysInv(events);
    ExecLast(INITIAL, events, TimerFires(t));
    TimerLeadsTo(After(events), t);
  }

  lemma MountLeadsTo(a: App)
    requires Inv(a) && !Mounted(a)
    ensures var b := Step(a, Mount);
            && Mounted(b) && b.connection == Plain(Connecting) && LiveNow(b) == ONLY_FETCH
            && CurrentFetch(b) == Fetch(|a.runs|, 1, false)
            && b.latestSize == a.latestSize && b.screen == a.screen
  {
    MountKeeps(a);
    assert Stands(Plain(Connecting), LiveNow(OnMount(a)));
  }

  /** A mount starts the first check of a new run and keeps screen and size. */
  lemma MountShows(events: seq<Event>)
    requires !Mounted(After(events))
    ensures var a, b := After(events), After(events + [Mount]);
            && Mounted(b) && b.connection == Plain(Connecting) && LiveNow(b) == ONLY_FETCH
            && CurrentFetch(b) == Fetch(|a.runs|, 1, false)
            && b.latestSize == a.latestSize && b.screen == a.screen
  {
    AlwaysInv(events);
    ExecLast(INITIAL, events, Mount);
    MountLeadsTo(After(events));
  }

  // ---- Causes -------------------------------------------------------------------------------

  /** The event shows the connection state, happening in `a`. */
  predicate Causes(a: App, e: Event, c: Connection) {
    match e
    case Mount => c == Plain(Connecting)
    case FetchDone(f, status) =>
      && CurrentCheck(a, f)
      && if status == 401 then c == Because(Failed, AuthRequired)
         else status != 204 && c == Because(Failed, AuthCheckFailed)
    case FetchFailed(f, text) =>
      && CurrentCheck(a, f)
      && c == Because(if f.attempt == 1 then Failed else Reconnecting, Network).(detail := Some(text))
    case SocketOpens(s) =>
      CurrentSocket(a, s) && c == Plain(Connected).(newSession := a.sockets[s].attempt > 1)
    case SocketCloses(s) =>
      && CurrentSocket(a, s)
      && c == if a.sockets[s].wasOpened || a.sockets[s].attempt > 1 then Plain(Reconnecting)
              else Because(Failed, WebSocketUpgrade)
    case SocketFails(s) =>
      && CurrentSocket(a, s) && !a.sockets[s].wasOpened && a.sockets[s].attempt == 1
      && c == Because(Failed, WebSocketError)
    case SocketReceives(s, data) =>
      && IsOpen(a, s) && data != []
      && if data[0] == 3 then c == Because(Failed, ServerError).(detail := Some(Utf8.TextDecoder(data[1..])))
         else && data[0] == 4
              && c == Because(Closed, RemoteExit).(exitCode := Some(Decimal.Number(Utf8.TextDecoder(data[1..]))))
    case TimerFires(t) =>
      && t in a.timers
      && if a.timers[t].ReconnectTimer? then c == Plain(Reconnecting)
         else a.connection == Plain(Connected).(newSession := true) && c == Plain(Connected)
    case _ => false
  }

  lemma FetchCauses(a: App, e: Event, f: Fetch)
    requires Inv(a) && Enabled(a, e) && (e.FetchDone? || e.FetchFailed?) && e.fetch == f
    ensures Step(a, e).connection == a.connection || Causes(a, e, Step(a, e).connection)
  {
    if CurrentCheck(a, f) {
      if e.FetchDone? {
        CheckAnswers(a, f, e.status);
      } else {
        CheckFails(a, f, e.text);
      }
    }
  }

  lemma SocketCauses(a: App, e: Event, s: nat)
    requires Inv(a) && Enabled(a, e) && (e == SocketOpens(s) || e == SocketCloses(s) || e == SocketFails(s))
    ensures Step(a, e).connection == a.connection || Causes(a, e, Step(a, e).connection)
  {
    if CurrentSocket(a, s) {
      match e {
        case SocketOpens(_) => OpenLeadsTo(a, s);
        case SocketCloses(_) => CloseLeadsTo(a, s);
        case _ => FailLeadsTo(a, s);
      }
    }
  }

  lemma UnmountShowsNothing(a: App)
    requires Inv(a) && Mounted(a)
    ensures Step(a, Unmount).connection == a.connection
  {
    UnmountOutline(a);
  }

  /** An event that changes the display is its cause. */
  lemma StepCauses(a: App, e: Event)
    requires Inv(a) && Enabled(a, e)
    ensures Step(a, e).connection == a.connection || Causes(a, e, Step(a, e).connection)
  {
    match e {
      case Mount => MountLeadsTo(a);
      case Unmount => UnmountShowsNothing(a);
      case FetchDone(f, _) => FetchCauses(a, e, f);
      case FetchFailed(f, _) => FetchCauses(a, e, f);
      case SocketOpens(s) => SocketCauses(a, e, s);
      case SocketCloses(s) => SocketCauses(a, e, s);
      case SocketFails(s) => SocketCauses(a, e, s);
      case SocketReceives(s, data) => FrameLeadsTo(a, s, data);
      case TimerFires(t) => TimerLeadsTo(a, t);
      case _ =>
    }
  }

  lemma FirstMount(a: App, e: Event)
    requires a.runs == [] && Step(a, e).runs != [] && Inv(a)
    ensures e == Mount && Enabled(a, e) && Causes(a, e, Step(a, e).connection)
  {
    if Enabled(a, e) && e.Mount? {
      MountLeadsTo(a);
    }
  }

  /** Whatever is displayed after a run, some event of the run caused it, and it has
      been displayed since: auth_required by a 401 to the check that counted then,
      reconnecting by a drop or the timer, an error by the frame with its text. */
  lemma {:induction false} DisplayHasCause(events: seq<Event>) returns (i: nat)
    requires After(events).runs != []
    ensures i < |events| && Enabled(After(events[..i]), events[i])
    ensures Causes(After(events[..i]), events[i], After(events).connection)
    ensures After(events[..i + 1]).connection == After(events).connection
  {
    var n := |events| - 1;
    var a := After(events[..n]);
    AlwaysInv(events[..n]);
    assert events[..n + 1] == events;
    if a.runs == [] {
      FirstMount(a, events[n]);
      i := n;
    } else if After(events).connection == a.connection {
      i := DisplayHasCause(events[..n]);
      assert events[..n][..i] == events[..i] && events[..n][..i + 1] == events[..i + 1];
    } else {
      StepCauses(a, events[n]);
      i := n;
    }
  }
}
