/** The effect of the browser component as an object: the refs and the state that
    all runs share, the variables of each run, and one method per event. Every
    method is proved against the transition system and keeps its invariant. */
module BrowserEffect {
  import opened Common
  import opened Protocol
  import opened Browser
  import opened BrowserInvariant
  import Utf8

  lemma AnnouncingIgnoresSockets(a: App, sockets: seq<Socket>, run: nat, isReconnect: bool)
    requires run < |a.runs|
    ensures ShowConnected(a.(sockets := sockets), run, isReconnect)
         == ShowConnected(a, run, isReconnect).(sockets := sockets)
  {
  }

  class Shell {
    var connection: Connection
    var runs: seq<Run>
    var fetches: set<Fetch>
    var sockets: seq<Socket>
    var socketRef: Option<nat>
    var timers: map<nat, Timer>
    var nextTimer: nat
    var reconnectRef: Option<nat>
    var latestSize: Option<Size>
    var screen: seq<byte>

    ghost function View(): App
      reads this
    {
      App(connection, runs, fetches, sockets, socketRef, timers, nextTimer, reconnectRef, latestSize, screen)
    }

    ghost predicate Valid()
      reads this
    {
      Inv(View())
    }

    /** The first render. */
    constructor ()
      ensures Valid() && View() == INITIAL
    {
      connection := Plain(Connecting);
      runs, fetches, sockets := [], {}, [];
      socketRef, reconnectRef, latestSize := None, None, None;
      timers, nextTimer := map[], 0;
      screen := [];
    }

    // ---- Inner functions of the effect ------------------------------------------------

    method ClearReconnect()
      modifies this
      ensures View() == ClearReconnectTimer(old(View()))
    {
      if reconnectRef.Some? {
        timers := timers - {reconnectRef.value};
        reconnectRef := None;
      }
    }

    method ClearNotice(run: nat)
      requires run < |runs|
      modifies this
      ensures View() == ClearNoticeTimer(old(View()), run)
    {
      var timer := runs[run].noticeTimer;
      if timer.Some? {
        timers := timers - {timer.value};
        runs := runs[run := runs[run].(noticeTimer := None)];
      }
    }

    method Show(run: nat, state: Connection)
      requires run < |runs|
      modifies this
      ensures View() == SetState(old(View()), run, state)
    {
      if !state.newSession {
        ClearNotice(run);
      }
      connection := state;
    }

    method Announce(run: nat, isReconnect: bool)
      requires run < |runs|
      modifies this
      ensures View() == ShowConnected(old(View()), run, isReconnect)
    {
      if !isReconnect {
        Show(run, Plain(Connected));
        return;
      }
      ClearNotice(run);
      Show(run, Plain(Connected).(newSession := true));
      timers := timers[nextTimer := NoticeTimer(run)];
      runs := runs[run := runs[run].(noticeTimer := Some(nextTimer))];
      nextTimer := nextTimer + 1;
    }

    method Schedule(run: nat)
      requires run < |runs|
      modifies this
      ensures View() == ScheduleReconnect(old(View()), run)
    {
      if runs[run].cancelled || reconnectRef.Some? {
        return;
      }
      ClearNotice(run);
      if !(connection.phase == Reconnecting && connection.reason == Some(Network)) {
        connection := Plain(Reconnecting);
      }
      timers := timers[nextTimer := ReconnectTimer(run)];
      reconnectRef := Some(nextTimer);
      nextTimer := nextTimer + 1;
    }

    method Attempt(run: nat, isReconnect: bool)
      requires run < |runs|
      modifies this
      ensures View() == Connect(old(View()), run, isReconnect)
    {
      runs := runs[run := runs[run].(attempt := runs[run].attempt + 1)];
      var currentAttempt := runs[run].attempt;
      Show(run, Plain(if isReconnect then Reconnecting else Connecting));
      fetches := fetches + {Fetch(run, currentAttempt, isReconnect)};
    }

    method Close(s: nat)
      requires s < |sockets|
      modifies `sockets
      ensures View() == CloseSocket(old(View()), s)
    {
      if sockets[s].ready == Pending || sockets[s].ready == Open {
        sockets := sockets[s := sockets[s].(ready := Closing)];
      }
    }

    // ---- Events -------------------------------------------------------------------------

    method HandleMount()
      requires Valid() && Enabled(View(), Mount)
      modifies this
      ensures Valid() && View() == Step(old(View()), Mount)
    {
      MountKeeps(View());
      runs := runs + [Run(false, 0, false, None)];
      Attempt(|runs| - 1, false);
    }

    method HandleUnmount()
      requires Valid() && Enabled(View(), Unmount)
      modifies this
      ensures Valid() && View() == Step(old(View()), Unmount)
    {
      UnmountKeeps(View());
      Cancel(|runs| - 1);
    }

    /** The function the effect returns, run when its component goes away. */
    method Cancel(run: nat)
      requires run == |runs| - 1 && (socketRef.Some? ==> socketRef.value < |sockets|)
      modifies this
      ensures View() == OnUnmount(old(View()))
    {
      runs := runs[run := runs[run].(cancelled := true, attempt := runs[run].attempt + 1)];
      ClearReconnect();
      ClearNotice(run);
      if socketRef.Some? {
        Close(socketRef.value);
      }
      socketRef := None;
    }

    method HandleFetchFailed(f: Fetch, text: string)
      requires Valid() && Enabled(View(), FetchFailed(f, text))
      modifies this
      ensures Valid() && View() == Step(old(View()), FetchFailed(f, text))
    {
      FetchFailedKeeps(View(), f, text);
      fetches := fetches - {f};
      if runs[f.run].cancelled || f.attempt != runs[f.run].attempt {
        return;
      }
      if f.isReconnect {
        Show(f.run, Because(Reconnecting, Network).(detail := Some(text)));
        Schedule(f.run);
      } else {
        Show(f.run, Because(Failed, Network).(detail := Some(text)));
      }
    }

    method HandleFetchDone(f: Fetch, status: nat)
      requires Valid() && Enabled(View(), FetchDone(f, status))
      modifies this
      ensures Valid() && View() == Step(old(View()), FetchDone(f, status))
    {
      FetchDoneKeeps(View(), f, status);
      fetches := fetches - {f};
      if runs[f.run].cancelled || f.attempt != runs[f.run].attempt {
        return;
      }
      if status == 401 {
        Show(f.run, Because(Failed, AuthRequired));
        return;
      }
      if status != 204 {
        Show(f.run, Because(Failed, AuthCheckFailed));
        return;
      }
      socketRef := Some(|sockets|);
      sockets := sockets + [Socket(f.run, f.attempt, f.isReconnect, false, Pending, [])];
    }

    method HandleOpen(s: nat)
      requires Enabled(View(), SocketOpens(s))
      modifies this
      ensures View() == Step(old(View()), SocketOpens(s))
      ensures old(Valid()) ==> Valid()
    {
      if Valid() {
        OpenKeeps(View(), s);
      }
      Greet(s);
    }

    /** Under the invariant the early return is never taken: a stale socket cannot
        open any more. */
    method Greet(s: nat)
      requires Enabled(View(), SocketOpens(s))
      modifies this
      ensures View() == OnSocketOpens(old(View()), s)
    {
      var socket := sockets[s];
      sockets := sockets[s := socket.(ready := Open)];
      if runs[socket.run].cancelled || socket.attempt != runs[socket.run].attempt {
        Close(s);
        return;
      }
      sockets := sockets[s := sockets[s].(wasOpened := true)];
      AnnouncingIgnoresSockets(old(View()), sockets, socket.run, socket.isReconnect);
      Announce(socket.run, socket.isReconnect);
      if latestSize.Some? {
        sockets := sockets[s := sockets[s].(sent := sockets[s].sent + [Resize(latestSize.value)])];
      }
      assert socket.sent + [] == socket.sent;
      assert sockets == old(sockets)[s := sockets[s]];
    }

    method HandleClose(s: nat)
      requires Valid() && Enabled(View(), SocketCloses(s))
      modifies this
      ensures Valid() && View() == Step(old(View()), SocketCloses(s))
    {
      CloseKeeps(View(), s);
      var socket := sockets[s];
      sockets := sockets[s := socket.(ready := Gone)];
      if socketRef == Some(s) {
        socketRef := None;
      }
      if runs[socket.run].cancelled || socket.attempt != runs[socket.run].attempt {
        return;
      }
      if runs[socket.run].remoteExited {
        return;
      }
      if socket.wasOpened {
        Schedule(socket.run);
      } else if socket.isReconnect {
        Schedule(socket.run);
      } else {
        Show(socket.run, Because(Failed, WebSocketUpgrade));
      }
    }

    method HandleError(s: nat)
      requires Valid() && Enabled(View(), SocketFails(s))
      modifies this
      ensures Valid() && View() == Step(old(View()), SocketFails(s))
    {
      FailKeeps(View(), s);
      var socket := sockets[s];
      sockets := sockets[s := socket.(ready := Failing)];
      if runs[socket.run].cancelled || socket.attempt != runs[socket.run].attempt {
        return;
      }
      if !socket.wasOpened && !socket.isReconnect {
        Show(socket.run, Because(Failed, WebSocketError));
      }
    }

    method HandleMessage(s: nat, data: seq<byte>)
      requires Valid() && Enabled(View(), SocketReceives(s, data))
      modifies this
      ensures Valid() && View() == Step(old(View()), SocketReceives(s, data))
    {
      ReceiveKeeps(View(), s, data);
      var socket := sockets[s];
      if runs[socket.run].cancelled || socket.attempt != runs[socket.run].attempt {
        return;
      }
      match BrowserDecode(data) {
        case None =>
        case Some(BrowserOutput(bytes)) =>
          screen := screen + bytes;
        case Some(BrowserError(message)) =>
          Show(socket.run, Because(Failed, ServerError).(detail := Some(message)));
        case Some(BrowserExited(code)) =>
          runs := runs[socket.run := runs[socket.run].(remoteExited := true)];
          Show(socket.run, Because(Closed, RemoteExit).(exitCode := Some(code)));
          Close(s);
      }
    }

    method HandleTimer(t: nat)
      requires Valid() && Enabled(View(), TimerFires(t))
      modifies this
      ensures Valid() && View() == Step(old(View()), TimerFires(t))
    {
      TimerKeeps(View(), t);
      Fire(t);
    }

    method Fire(t: nat)
      requires Enabled(View(), TimerFires(t))
      modifies this
      ensures View() == OnTimer(old(View()), t)
    {
      var timer := timers[t];
      timers := timers - {t};
      match timer {
        case ReconnectTimer(run) =>
          reconnectRef := None;
          Attempt(run, true);
        case NoticeTimer(run) =>
          runs := runs[run := runs[run].(noticeTimer := None)];
          if connection.phase == Connected && connection.newSession {
            connection := Plain(Connected);
          }
      }
    }

    /** `sendInput`. */
    method SendInput(text: string)
      requires Valid()
      modifies this
      ensures Valid() && View() == Step(old(View()), Types(text))
    {
      SendKeeps(View(), latestSize, Input(Utf8.Encode(text)));
      if socketRef.Some? && sockets[socketRef.value].ready == Open {
        var s := socketRef.value;
        sockets := sockets[s := sockets[s].(sent := sockets[s].sent + [Input(Utf8.Encode(text))])];
      }
    }

    /** `sendResize`. */
    method SendResize(size: Size)
      requires Valid()
      modifies this
      ensures Valid() && View() == Step(old(View()), SizeReported(size))
    {
      SendKeeps(View(), Some(size), Resize(size));
      latestSize := Some(size);
      if socketRef.Some? && sockets[socketRef.value].ready == Open {
        var s := socketRef.value;
        sockets := sockets[s := sockets[s].(sent := sockets[s].sent + [Resize(size)])];
      }
    }
  }
}
