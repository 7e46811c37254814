/** What passes over one open socket of the browser, in both directions, while
    anything else goes on. */
module BrowserTraffic {
  import opened Common
  import opened Protocol
  import opened Browser
  import opened BrowserInvariant
  import opened BrowserRuns
  import Utf8

  predicate IsOpen(a: App, s: nat) {
    s < |a.sockets| && a.sockets[s].ready == Open
  }

  /** An open socket is the one in use. */
  lemma OpenIsCurrent(a: App, s: nat)
    requires Inv(a) && IsOpen(a, s)
    ensures Mounted(a) && a.socketRef == Some(s) && a.sockets[s].wasOpened
    ensures a.sockets[s].run == Last(a) && !Stale(a, Last(a), a.sockets[s].attempt)
  {
    assert SocketOk(a, s, a.sockets[s]);
  }

  /** A socket that has been open stays known and is never opened again. */
  lemma NeverReopens(a: App, e: Event, s: nat)
    requires s < |a.sockets| && a.sockets[s].wasOpened && Inv(a)
    ensures s < |Step(a, e).sockets| && Step(a, e).sockets[s].wasOpened
    ensures IsOpen(Step(a, e), s) ==> IsOpen(a, s)
  {
    assert SocketOk(a, s, a.sockets[s]);
    if Enabled(a, e) {
      if e.SocketOpens? || e.SocketFails? || e.SocketCloses? || e.PeerStartsClosing? {
        SocketEventsReopenNothing(a, e, s);
      } else {
        OthersReopenNothing(a, e, s);
      }
    }
  }

  lemma SocketEventsReopenNothing(a: App, e: Event, s: nat)
    requires Enabled(a, e) && (e.SocketOpens? || e.SocketFails? || e.SocketCloses? || e.PeerStartsClosing?)
    requires s < |a.sockets| && a.sockets[s].wasOpened && a.sockets[s].ready != Pending
    ensures s < |Handle(a, e).sockets| && Handle(a, e).sockets[s].wasOpened
    ensures IsOpen(Handle(a, e), s) ==> IsOpen(a, s)
  {
    if e.SocketOpens? || e.SocketCloses? {
      OpenAndCloseReopenNothing(a, e, s);
    }
  }

  lemma OpenAndCloseReopenNothing(a: App, e: Event, s: nat)
    requires Enabled(a, e) && (e.SocketOpens? || e.SocketCloses?)
    requires s < |a.sockets| && a.sockets[s].wasOpened && a.sockets[s].ready != Pending
    ensures s < |Handle(a, e).sockets| && Handle(a, e).sockets[s].wasOpened
    ensures IsOpen(Handle(a, e), s) ==> IsOpen(a, s)
  {
  }

  lemma OthersReopenNothing(a: App, e: Event, s: nat)
    requires Enabled(a, e) && !e.SocketOpens? && !e.SocketFails? && !e.SocketCloses? && !e.PeerStartsClosing?
    requires s < |a.sockets| && a.sockets[s].wasOpened
    ensures s < |Handle(a, e).sockets| && Handle(a, e).sockets[s].wasOpened
    ensures IsOpen(Handle(a, e), s) ==> IsOpen(a, s)
  {
  }

  // ---- From the user -----------------------------------------------------------------

  /** What an event asks to be sent. */
  function UserMessage(e: Event): seq<ClientMessage> {
    match e
    case Types(input) => [Input(Utf8.Encode(input))]
    case SizeReported(size) => [Resize(size)]
    case _ => []
  }

  /** What the user does at the terminal, among all events. */
  function UserMessages(events: seq<Event>): seq<ClientMessage> {
    if events == [] then
      []
    else
      UserMessages(events[..|events| - 1]) + UserMessage(events[|events| - 1])
  }

  /** One event sends what the user asked for on the open socket, and nothing on a
      socket that is no longer open. */
  lemma StepSendsUserMessage(a: App, e: Event, s: nat)
    requires Inv(a) && s < |a.sockets| && a.sockets[s].wasOpened
    ensures s < |Step(a, e).sockets|
    ensures Step(a, e).sockets[s].sent == a.sockets[s].sent + (if IsOpen(a, s) then UserMessage(e) else [])
    ensures IsOpen(a, s) && UserMessage(e) != [] ==> IsOpen(Step(a, e), s)
  {
    assert a.sockets[s].sent + [] == a.sockets[s].sent;
    assert SocketOk(a, s, a.sockets[s]);
    if IsOpen(a, s) {
      OpenIsCurrent(a, s);
    }
    if Enabled(a, e) {
      if e.Types? || e.SizeReported? {
        SendReaches(a, e, s);
      } else {
        if !e.SocketOpens? {
          OthersDoNotSend(a, e, s);
        }
      }
    }
  }

  lemma SendReaches(a: App, e: Event, s: nat)
    requires s < |a.sockets| && (e.Types? || e.SizeReported?)
    requires IsOpen(a, s) ==> a.socketRef == Some(s)
    ensures var b := Handle(a, e);
            && |b.sockets| == |a.sockets|
            && b.sockets[s] == a.sockets[s].(sent := b.sockets[s].sent)
            && b.sockets[s].sent == a.sockets[s].sent + (if IsOpen(a, s) then UserMessage(e) else [])
  {
    assert a.sockets[s].sent + [] == a.sockets[s].sent;
  }

  /** The socket is open through the first `n` events and closed by the next one. */
  predicate OpenThrough(a: App, events: seq<Event>, s: nat, n: nat) {
    && n <= |events|
    && IsOpen(Exec(a, events[..n]), s)
    && (n < |events| ==> !IsOpen(Exec(a, events[..n + 1]), s))
  }

  /** A socket that was open, and what has been sent on it. */
  predicate Carries(a: App, s: nat, sent: seq<ClientMessage>) {
    s < |a.sockets| && a.sockets[s].wasOpened && a.sockets[s].sent == sent
  }

  lemma CarriesStep(a: App, e: Event, s: nat, sent: seq<ClientMessage>)
    requires Inv(a) && Carries(a, s, sent)
    ensures Carries(Step(a, e), s, sent + if IsOpen(a, s) then UserMessage(e) else [])
    ensures IsOpen(Step(a, e), s) ==> IsOpen(a, s)
    ensures IsOpen(a, s) && UserMessage(e) != [] ==> IsOpen(Step(a, e), s)
  {
    NeverReopens(a, e, s);
    StepSendsUserMessage(a, e, s);
  }

  lemma ExecLast(a: App, front: seq<Event>, e: Event)
    ensures Exec(a, front + [e]) == Step(Exec(a, front), e)
    ensures UserMessages(front + [e]) == UserMessages(front) + UserMessage(e)
  {
    assert (front + [e])[..|front|] == front;
  }

  lemma OpenThroughNext(a: App, front: seq<Event>, e: Event, s: nat, n: nat)
    requires OpenThrough(a, front, s, n)
    requires IsOpen(Exec(a, front + [e]), s) ==> IsOpen(Exec(a, front), s)
    ensures OpenThrough(a, front + [e], s, if IsOpen(Exec(a, front + [e]), s) then |front| + 1 else n)
  {
    var all := front + [e];
    if IsOpen(Exec(a, all), s) {
      assert all[..|front| + 1] == all;
    } else {
      assert all[..n] == front[..n];
      assert all[..n + 1] == if n < |front| then front[..n + 1] else all;
    }
  }

  /** Whatever else happens, an open socket carries every keystroke and size, once
      and in order, for as long as it is open: through the first `n` events. */
  lemma {:induction false} UserEventsAreSent(a: App, events: seq<Event>, s: nat) returns (n: nat)
    requires Inv(a) && IsOpen(a, s)
    ensures OpenThrough(a, events, s, n)
    ensures Carries(Exec(a, events), s, a.sockets[s].sent + UserMessages(events[..n]))
    ensures IsOpen(Exec(a, events), s) <==> n == |events|
  {
    if events == [] {
      n := 0;
      OpenIsCurrent(a, s);
      assert a.sockets[s].sent + [] == a.sockets[s].sent;
    } else {
      var front, e := events[..|events| - 1], events[|events| - 1];
      assert events == front + [e];
      var m := UserEventsAreSent(a, front, s);
      var b, c := Exec(a, front), Exec(a, front + [e]);
      ExecKeeps(a, front);
      ExecLast(a, front, e);
      CarriesStep(b, e, s, a.sockets[s].sent + UserMessages(front[..m]));
      OpenThroughNext(a, front, e, s, m);
      n := if IsOpen(c, s) then |events| else m;
      OneMoreIsSent(a.sockets[s].sent, front, e, m, IsOpen(b, s), IsOpen(c, s));
    }
  }

  lemma OneMoreIsSent(sent: seq<ClientMessage>, front: seq<Event>, e: Event, m: nat, open: bool, stays: bool)
    requires m <= |front| && (open <==> m == |front|) && (stays ==> open)
    requires open && UserMessage(e) != [] ==> stays
    ensures sent + UserMessages(front[..m]) + (if open then UserMessage(e) else [])
         == sent + UserMessages((front + [e])[..if stays then |front| + 1 else m])
  {
    var all := front + [e];
    if stays {
      assert front[..m] == front && all[..|front| + 1] == all && all[..|front|] == front;
      assert sent + UserMessages(front) + UserMessage(e) == sent + UserMessages(all);
    } else {
      assert all[..m] == front[..m];
    }
  }

  // ---- From the server ----------------------------------------------------------------

  /** The frame an event brings in on a socket, if it can. */
  function Frame(a: App, e: Event, s: nat): seq<seq<byte>> {
    if e.SocketReceives? && e.socket == s && Enabled(a, e) then [e.data] else []
  }

  /** All frames received on a socket during a run, in order. */
  function Received(a: App, events: seq<Event>, s: nat): seq<seq<byte>> {
    if events == [] then
      []
    else
      var front := events[..|events| - 1];
      Received(a, front, s) + Frame(Exec(a, front), events[|events| - 1], s)
  }

  function OutputOf(frame: seq<byte>): seq<byte> {
    match BrowserDecode(frame)
    case Some(BrowserOutput(bytes)) => bytes
    case _ => []
  }

  /** The output bytes of frames, in order. */
  function OutputBytes(frames: seq<seq<byte>>): seq<byte> {
    if frames == [] then
      []
    else
      OutputBytes(frames[..|frames| - 1]) + OutputOf(frames[|frames| - 1])
  }

  predicate IsExit(frame: seq<byte>) {
    BrowserDecode(frame).Some? && BrowserDecode(frame).value.BrowserExited?
  }

  function ExitShown(frame: seq<byte>): Connection
    requires IsExit(frame)
  {
    Because(Closed, RemoteExit).(exitCode := Some(BrowserDecode(frame).value.code))
  }

  predicate EndsWithExit(frames: seq<seq<byte>>) {
    frames != [] && IsExit(frames[|frames| - 1])
  }

  /** A frame on the open socket is handled by its kind. */
  lemma FrameStep(a: App, s: nat, data: seq<byte>)
    requires Inv(a) && IsOpen(a, s)
    ensures var b := Step(a, SocketReceives(s, data));
            && b.screen == a.screen + OutputOf(data)
            && if IsExit(data) then !IsOpen(b, s) && Settled(b) && b.connection == ExitShown(data) else IsOpen(b, s)
  {
    OpenIsCurrent(a, s);
    assert a.screen + [] == a.screen;
  }

  /** Every other event leaves the screen alone while the socket is open. */
  lemma OtherStep(a: App, e: Event, s: nat)
    requires Inv(a) && IsOpen(a, s) && Frame(a, e, s) == []
    ensures Step(a, e).screen == a.screen
  {
    OpenIsCurrent(a, s);
    if Enabled(a, e) && e.SocketReceives? {
      OpenIsAlone(a, s, e.socket);
    }
  }

  lemma OpenIsAlone(a: App, s: nat, t: nat)
    requires Inv(a) && IsOpen(a, s) && IsOpen(a, t)
    ensures s == t
  {
    OpenIsCurrent(a, s);
    OpenIsCurrent(a, t);
  }

  /** While the socket stays open, the screen grows by exactly the output it
      receives; after an exit, and unless it was `remounted`, it stays. */
  predicate Follows(a: App, b: App, s: nat, frames: seq<seq<byte>>, remounted: bool) {
    && s < |b.sockets| && b.sockets[s].wasOpened
    && (forall k :: 0 <= k < |frames| - 1 ==> !IsExit(frames[k]))
    && if EndsWithExit(frames) then
         && !IsOpen(b, s)
         && (!remounted ==>
               && (Settled(b) || !Mounted(b))
               && b.screen == a.screen + OutputBytes(frames) && b.connection == ExitShown(frames[|frames| - 1]))
       else
         IsOpen(b, s) ==> b.screen == a.screen + OutputBytes(frames)
  }

  /** Nothing displayed changes after a final state until a remount. */
  lemma OverStaysOver(a: App, e: Event)
    requires Inv(a) && (Settled(a) || !Mounted(a)) && !e.Mount?
    ensures var b := Step(a, e);
            (Settled(b) || !Mounted(b)) && b.connection == a.connection && b.screen == a.screen
  {
    if !Mounted(a) {
      UnmountedStep(a, e);
    } else if e.Unmount? {
      UnmountOutline(a);
    } else {
      SettledStep(a, e);
    }
  }

  lemma OutputAppend(frames: seq<seq<byte>>, data: seq<byte>)
    ensures OutputBytes(frames + [data]) == OutputBytes(frames) + OutputOf(data)
  {
    assert (frames + [data])[..|frames|] == frames;
  }

  lemma FollowsFrame(a: App, b: App, s: nat, frames: seq<seq<byte>>, data: seq<byte>, remounted: bool)
    requires Inv(b) && Follows(a, b, s, frames, remounted) && IsOpen(b, s)
    ensures Follows(a, Step(b, SocketReceives(s, data)), s, frames + [data], remounted)
  {
    NeverReopens(b, SocketReceives(s, data), s);
    FrameStep(b, s, data);
    FollowsOneMore(a, b, Step(b, SocketReceives(s, data)), s, frames, data, remounted);
  }

  lemma FollowsOneMore(a: App, b: App, c: App, s: nat, frames: seq<seq<byte>>, data: seq<byte>, remounted: bool)
    requires Follows(a, b, s, frames, remounted) && IsOpen(b, s)
    requires s < |c.sockets| && c.sockets[s].wasOpened && c.screen == b.screen + OutputOf(data)
    requires IsExit(data) ==> !IsOpen(c, s) && Settled(c) && c.connection == ExitShown(data)
    ensures Follows(a, c, s, frames + [data], remounted)
  {
    OutputAppend(frames, data);
    assert c.screen == a.screen + OutputBytes(frames + [data]);
  }

  lemma FollowsOther(a: App, b: App, e: Event, s: nat, frames: seq<seq<byte>>, remounted: bool)
    requires Inv(b) && Follows(a, b, s, frames, remounted) && Frame(b, e, s) == []
    ensures Follows(a, Step(b, e), s, frames, remounted || e.Mount?)
  {
    NeverReopens(b, e, s);
    if EndsWithExit(frames) {
      if !remounted && !e.Mount? {
        OverStaysOver(b, e);
      }
    } else if IsOpen(b, s) {
      OtherStep(b, e, s);
    }
  }

  lemma FollowsStep(a: App, b: App, e: Event, s: nat, frames: seq<seq<byte>>, remounted: bool)
    requires Inv(b) && Follows(a, b, s, frames, remounted)
    ensures Follows(a, Step(b, e), s, frames + Frame(b, e, s), remounted || e.Mount?)
  {
    if Frame(b, e, s) == [] {
      FollowsOther(a, b, e, s, frames, remounted);
      assert frames + [] == frames;
    } else {
      FollowsFrame(a, b, s, frames, e.data, remounted);
    }
  }

  lemma {:induction false} RunFollows(a: App, events: seq<Event>, s: nat)
    requires Inv(a) && IsOpen(a, s)
    ensures Follows(a, Exec(a, events), s, Received(a, events, s), !NoMount(events))
  {
    if events == [] {
      OpenIsCurrent(a, s);
      assert a.screen + [] == a.screen;
    } else {
      var n := |events| - 1;
      RunFollows(a, events[..n], s);
      ExecKeeps(a, events[..n]);
      FollowsStep(a, Exec(a, events[..n]), events[n], s, Received(a, events[..n], s), !NoMount(events[..n]));
      NoMountSplit(events, n);
    }
  }

  lemma NoMountSplit(events: seq<Event>, n: nat)
    requires |events| == n + 1
    ensures NoMount(events) <==> NoMount(events[..n]) && !events[n].Mount?
  {
    assert NoMount(events[..n]) && !events[n].Mount? ==> forall i :: 0 <= i < n ==> !events[..n][i].Mount?;
    assert forall i :: 0 <= i < n ==> events[..n][i] == events[i];
  }

  /** Whatever else happens, the screen of an open socket shows exactly the output
      received on it; once it received an exit, screen and exit code stay until a
      remount. */
  lemma ReceivedIsShown(a: App, events: seq<Event>, s: nat)
    requires Inv(a) && IsOpen(a, s)
    ensures var b, frames := Exec(a, events), Received(a, events, s);
            && (IsOpen(b, s) ==> b.screen == a.screen + OutputBytes(frames))
            && (IsOpen(b, s) ==> forall k :: 0 <= k < |frames| ==> !IsExit(frames[k]))
            && (EndsWithExit(frames) && NoMount(events) ==>
                  && b.screen == a.screen + OutputBytes(frames)
                  && b.connection == ExitShown(frames[|frames| - 1]))
  {
    RunFollows(a, events, s);
    FollowsShows(a, Exec(a, events), s, Received(a, events, s), !NoMount(events));
  }

  lemma FollowsShows(a: App, b: App, s: nat, frames: seq<seq<byte>>, remounted: bool)
    requires Follows(a, b, s, frames, remounted)
    ensures IsOpen(b, s) ==> b.screen == a.screen + OutputBytes(frames)
    ensures IsOpen(b, s) ==> forall k :: 0 <= k < |frames| ==> !IsExit(frames[k])
    ensures EndsWithExit(frames) && !remounted ==>
              b.screen == a.screen + OutputBytes(frames) && b.connection == ExitShown(frames[|frames| - 1])
  {
  }
}
