/** The browser's connection machine as a transition system over the events
    that reach it. Sockets follow the WebSockets Standard: a socket is pending,
    then open, possibly closing, then gone; `open` fires with the change to
    open, messages arrive only while open, `error` fires on a socket that is
    already closed, and `close` fires once and last. */
module Browser {
  import opened Common
  import opened Protocol
  import Decimal
  import Utf8

  // ---- State ------------------------------------------------------------------

  datatype Phase = Connecting | Connected | Reconnecting | Closed | Failed

  datatype Reason =
    | AuthRequired
    | AuthCheckFailed
    | Network
    | WebSocketUpgrade
    | WebSocketError
    | ServerError
    | RemoteExit

  /** The connection state shown to the user. */
  datatype Connection = Connection(
    phase: Phase,
    reason: Option<Reason>,
    detail: Option<string>,
    exitCode: Option<Decimal.JsNumber>,
    newSession: bool)

  function Plain(phase: Phase): Connection {
    Connection(phase, None, None, None, false)
  }

  function Because(phase: Phase, reason: Reason): Connection {
    Connection(phase, Some(reason), None, None, false)
  }

  /** `Failing` is closed after an error, with the `close` event still to fire;
      `Gone` has fired it. */
  datatype ReadyState = Pending | Open | Closing | Failing | Gone

  /** A socket with the variables its listeners close over. */
  datatype Socket = Socket(
    run: nat,
    attempt: nat,
    isReconnect: bool,
    wasOpened: bool,
    ready: ReadyState,
    sent: seq<ClientMessage>)

  /** An auth check in flight. */
  datatype Fetch = Fetch(run: nat, attempt: nat, isReconnect: bool)

  /** The local variables of one run of the effect. */
  datatype Run = Run(cancelled: bool, attempt: nat, remoteExited: bool, noticeTimer: Option<nat>)

  datatype Timer = ReconnectTimer(run: nat) | NoticeTimer(run: nat)

  /** Refs and state are shared by all runs; `timers` are the pending ones. */
  datatype App = App(
    connection: Connection,
    runs: seq<Run>,
    fetches: set<Fetch>,
    sockets: seq<Socket>,
    socketRef: Option<nat>,
    timers: map<nat, Timer>,
    nextTimer: nat,
    reconnectRef: Option<nat>,
    latestSize: Option<Size>,
    screen: seq<byte>)

  const INITIAL: App := App(Plain(Connecting), [], {}, [], None, map[], 0, None, None, [])

  datatype Event =
    | Mount
    | Unmount
    | FetchDone(fetch: Fetch, status: nat)
    | FetchFailed(fetch: Fetch, text: string)
    | SocketOpens(socket: nat)
    | SocketFails(socket: nat)
    | SocketReceives(socket: nat, data: seq<byte>)
    | PeerStartsClosing(socket: nat)
    | SocketCloses(socket: nat)
    | TimerFires(timer: nat)
    | Types(input: string)
    | SizeReported(size: Size)

  // ---- The pieces of the effect ---------------------------------------------------

  /** Only the display, the timers and the run's own variables may differ. */
  predicate SameTraffic(a: App, b: App) {
    && |b.runs| == |a.runs|
    && b.sockets == a.sockets
    && b.socketRef == a.socketRef
    && b.latestSize == a.latestSize
    && b.screen == a.screen
  }

  predicate Mounted(a: App) {
    a.runs != [] && !a.runs[|a.runs| - 1].cancelled
  }

  function Last(a: App): nat
    requires a.runs != []
  {
    |a.runs| - 1
  }

  function CurrentFetch(a: App): Fetch
    requires a.runs != []
  {
    var k := a.runs[Last(a)].attempt;
    Fetch(Last(a), k, k > 1)
  }

  /** `cancelled || currentAttempt !== attempt`. */
  predicate Stale(a: App, run: nat, attempt: nat)
    requires run < |a.runs|
  {
    a.runs[run].cancelled || attempt != a.runs[run].attempt
  }

  function Without(timers: map<nat, Timer>, t: nat): map<nat, Timer> {
    timers - {t}
  }

  function ClearReconnectTimer(a: App): (b: App)
    ensures SameTraffic(a, b) && b.fetches == a.fetches
  {
    match a.reconnectRef
    case None => a
    case Some(t) => a.(timers := Without(a.timers, t), reconnectRef := None)
  }

  function ClearNoticeTimer(a: App, run: nat): (b: App)
    requires run < |a.runs|
    ensures SameTraffic(a, b) && b.fetches == a.fetches
  {
    match a.runs[run].noticeTimer
    case None => a
    case Some(t) =>
      a.(timers := Without(a.timers, t), runs := a.runs[run := a.runs[run].(noticeTimer := None)])
  }

  function SetState(a: App, run: nat, c: Connection): (b: App)
    requires run < |a.runs|
    ensures SameTraffic(a, b) && b.fetches == a.fetches
  {
    (if c.newSession then a else ClearNoticeTimer(a, run)).(connection := c)
  }

  function ShowConnected(a: App, run: nat, isReconnect: bool): (b: App)
    requires run < |a.runs|
    ensures SameTraffic(a, b) && b.fetches == a.fetches
  {
    if !isReconnect then
      SetState(a, run, Plain(Connected))
    else
      var b := SetState(ClearNoticeTimer(a, run), run, Plain(Connected).(newSession := true));
      var t := b.nextTimer;
      b.(timers := b.timers[t := NoticeTimer(run)],
         nextTimer := t + 1,
         runs := b.runs[run := b.runs[run].(noticeTimer := Some(t))])
  }

  function ScheduleReconnect(a: App, run: nat): (b: App)
    requires run < |a.runs|
    ensures SameTraffic(a, b) && b.fetches == a.fetches
  {
    if a.runs[run].cancelled || a.reconnectRef.Some? then
      a
    else
      var b := ClearNoticeTimer(a, run);
      var c := b.connection;
      var t := b.nextTimer;
      b.(connection := if c.phase == Reconnecting && c.reason == Some(Network) then c else Plain(Reconnecting),
         timers := b.timers[t := ReconnectTimer(run)],
         nextTimer := t + 1,
         reconnectRef := Some(t))
  }

  /** `connect` up to its first `await`. */
  function Connect(a: App, run: nat, isReconnect: bool): (b: App)
    requires run < |a.runs|
    ensures SameTraffic(a, b)
  {
    var k := a.runs[run].attempt + 1;
    var b := SetState(a.(runs := a.runs[run := a.runs[run].(attempt := k)]), run,
                      Plain(if isReconnect then Reconnecting else Connecting));
    b.(fetches := b.fetches + {Fetch(run, k, isReconnect)})
  }

  function WithSocket(a: App, s: nat, socket: Socket): App
    requires s < |a.sockets|
  {
    a.(sockets := a.sockets[s := socket])
  }

  /** `socket.close()`. */
  function CloseSocket(a: App, s: nat): App
    requires s < |a.sockets|
  {
    var socket := a.sockets[s];
    if socket.ready == Pending || socket.ready == Open then WithSocket(a, s, socket.(ready := Closing)) else a
  }

  /** `socket.send(...)` guarded by `readyState === OPEN`. */
  function Send(a: App, m: ClientMessage): App {
    match a.socketRef
    case None => a
    case Some(s) =>
      if s < |a.sockets| && a.sockets[s].ready == Open then
        WithSocket(a, s, a.sockets[s].(sent := a.sockets[s].sent + [m]))
      else
        a
  }

  // ---- The event handlers -----------------------------------------------------------

  function OnMount(a: App): App {
    Connect(a.(runs := a.runs + [Run(false, 0, false, None)]), |a.runs|, false)
  }

  function OnUnmount(a: App): App
    requires a.runs != []
  {
    var r := Last(a);
    var b := a.(runs := a.runs[r := a.runs[r].(cancelled := true, attempt := a.runs[r].attempt + 1)]);
    var c := ClearNoticeTimer(ClearReconnectTimer(b), r);
    var d := match c.socketRef case None => c case Some(s) => if s < |c.sockets| then CloseSocket(c, s) else c;
    d.(socketRef := None)
  }

  function OnFetchFailed(a: App, f: Fetch, text: string): App
    requires f.run < |a.runs|
  {
    var b := a.(fetches := a.fetches - {f});
    if Stale(b, f.run, f.attempt) then
      b
    else if f.isReconnect then
      ScheduleReconnect(SetState(b, f.run, Because(Reconnecting, Network).(detail := Some(text))), f.run)
    else
      SetState(b, f.run, Because(Failed, Network).(detail := Some(text)))
  }

  function OnFetchDone(a: App, f: Fetch, status: nat): App
    requires f.run < |a.runs|
  {
    var b := a.(fetches := a.fetches - {f});
    if Stale(b, f.run, f.attempt) then
      b
    else if status == 401 then
      SetState(b, f.run, Because(Failed, AuthRequired))
    else if status != 204 then
      SetState(b, f.run, Because(Failed, AuthCheckFailed))
    else
      b.(sockets := b.sockets + [Socket(f.run, f.attempt, f.isReconnect, false, Pending, [])],
         socketRef := Some(|b.sockets|))
  }

  function OnSocketOpens(a: App, s: nat): App
    requires s < |a.sockets| && a.sockets[s].run < |a.runs|
  {
    var socket := a.sockets[s].(ready := Open);
    if Stale(a, socket.run, socket.attempt) then
      WithSocket(a, s, socket.(ready := Closing))
    else
      var b := ShowConnected(a, socket.run, socket.isReconnect);
      var greeting := match b.latestSize case None => [] case Some(size) => [Resize(size)];
      WithSocket(b, s, socket.(wasOpened := true, sent := socket.sent + greeting))
  }

  function OnSocketCloses(a: App, s: nat): App
    requires s < |a.sockets| && a.sockets[s].run < |a.runs|
  {
    var socket := a.sockets[s];
    var b := WithSocket(a, s, socket.(ready := Gone));
    var c := if b.socketRef == Some(s) then b.(socketRef := None) else b;
    if Stale(c, socket.run, socket.attempt) || c.runs[socket.run].remoteExited then
      c
    else if socket.wasOpened || socket.isReconnect then
      ScheduleReconnect(c, socket.run)
    else
      SetState(c, socket.run, Because(Failed, WebSocketUpgrade))
  }

  function OnSocketFails(a: App, s: nat): App
    requires s < |a.sockets| && a.sockets[s].run < |a.runs|
  {
    var socket := a.sockets[s];
    var b := WithSocket(a, s, socket.(ready := Failing));
    if Stale(b, socket.run, socket.attempt) || socket.wasOpened || socket.isReconnect then
      b
    else
      SetState(b, socket.run, Because(Failed, WebSocketError))
  }

  /** A frame of no known kind throws out of the listener and changes nothing. */
  function OnSocketReceives(a: App, s: nat, data: seq<byte>): App
    requires s < |a.sockets| && a.sockets[s].run < |a.runs|
  {
    var socket := a.sockets[s];
    if Stale(a, socket.run, socket.attempt) then
      a
    else
      match BrowserDecode(data)
      case None => a
      case Some(BrowserOutput(bytes)) => a.(screen := a.screen + bytes)
      case Some(BrowserError(message)) =>
        SetState(a, socket.run, Because(Failed, ServerError).(detail := Some(message)))
      case Some(BrowserExited(code)) =>
        var b := a.(runs := a.runs[socket.run := a.runs[socket.run].(remoteExited := true)]);
        CloseSocket(SetState(b, socket.run, Because(Closed, RemoteExit).(exitCode := Some(code))), s)
  }

  function OnTimer(a: App, t: nat): App
    requires t in a.timers && a.timers[t].run < |a.runs|
  {
    var b := a.(timers := Without(a.timers, t));
    match a.timers[t]
    case ReconnectTimer(run) => Connect(b.(reconnectRef := None), run, true)
    case NoticeTimer(run) =>
      var c := b.(runs := b.runs[run := b.runs[run].(noticeTimer := None)]);
      if c.connection.phase == Connected && c.connection.newSession then c.(connection := Plain(Connected)) else c
  }

  // ---- Runs --------------------------------------------------------------------------

  /** What the browser may deliver next. */
  predicate Enabled(a: App, e: Event) {
    match e
    case Mount => !Mounted(a)
    case Unmount => Mounted(a)
    case FetchDone(f, _) => f in a.fetches && f.run < |a.runs|
    case FetchFailed(f, _) => f in a.fetches && f.run < |a.runs|
    case SocketOpens(s) => SocketIn(a, s, {Pending})
    case SocketFails(s) => SocketIn(a, s, {Pending, Open, Closing})
    case SocketReceives(s, _) => SocketIn(a, s, {Open})
    case PeerStartsClosing(s) => SocketIn(a, s, {Open})
    case SocketCloses(s) => SocketIn(a, s, UNFINISHED)
    case TimerFires(t) => t in a.timers && a.timers[t].run < |a.runs|
    case Types(_) => true
    case SizeReported(_) => true
  }

  /** The sockets whose `close` event is still to come. */
  const UNFINISHED: set<ReadyState> := {Pending, Open, Closing, Failing}

  predicate SocketIn(a: App, s: nat, states: set<ReadyState>) {
    s < |a.sockets| && a.sockets[s].run < |a.runs| && a.sockets[s].ready in states
  }

  function Handle(a: App, e: Event): App
    requires Enabled(a, e)
  {
    match e
    case Mount => OnMount(a)
    case Unmount => OnUnmount(a)
    case FetchDone(f, status) => OnFetchDone(a, f, status)
    case FetchFailed(f, text) => OnFetchFailed(a, f, text)
    case SocketOpens(s) => OnSocketOpens(a, s)
    case SocketFails(s) => OnSocketFails(a, s)
    case SocketReceives(s, data) => OnSocketReceives(a, s, data)
    case PeerStartsClosing(s) => WithSocket(a, s, a.sockets[s].(ready := Closing))
    case SocketCloses(s) => OnSocketCloses(a, s)
    case TimerFires(t) => OnTimer(a, t)
    case Types(input) => Send(a, Input(Utf8.Encode(input)))
    case SizeReported(size) => Send(a.(latestSize := Some(size)), Resize(size))
  }

  /** An event that cannot happen is skipped, so every sequence is a run. */
  function Step(a: App, e: Event): App {
    if Enabled(a, e) then Handle(a, e) else a
  }

  function Exec(a: App, events: seq<Event>): App {
    if events == [] then a else Step(Exec(a, events[..|events| - 1]), events[|events| - 1])
  }
}
