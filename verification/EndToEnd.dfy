/** From the keyboard to the PTY and from the PTY to the screen: the browser
    machine, the wire format and the server session put together. */
module EndToEnd {
  import opened Common
  import opened Protocol
  import B = Browser
  import BI = BrowserInvariant
  import BR = BrowserRuns
  import BT = BrowserTraffic
  import S = Session
  import SR = SessionRuns
  import C = CommandLine
  import P = ProtocolExact
  import Decimal
  import Utf8

  // ---- Keyboard to PTY ---------------------------------------------------------------

  /** The frames a client puts on the wire. */
  function Wire(messages: seq<ClientMessage>): seq<S.Incoming> {
    seq(|messages|, i requires 0 <= i < |messages| => S.Binary(ClientFrame(messages[i])))
  }

  lemma WireAppend(messages: seq<ClientMessage>, m: ClientMessage)
    ensures Wire(messages + [m]) == Wire(messages) + [S.Binary(ClientFrame(m))]
  {
  }

  lemma WireConcat(a: seq<ClientMessage>, b: seq<ClientMessage>)
    ensures Wire(a + b) == Wire(a) + Wire(b)
  {
  }

  /** All bytes of input messages, in order. */
  function Inputs(messages: seq<ClientMessage>): seq<byte> {
    if messages == [] then
      []
    else
      var last := messages[|messages| - 1];
      Inputs(messages[..|messages| - 1]) + (if last.Input? then last.data else [])
  }

  lemma InputsAppend(messages: seq<ClientMessage>, m: ClientMessage)
    ensures Inputs(messages + [m]) == Inputs(messages) + (if m.Input? then m.data else [])
  {
    assert (messages + [m])[..|messages|] == messages;
  }

  function RequestOf(m: ClientMessage): S.Request {
    match m
    case Input(data) => S.Type(data)
    case Resize(size) => S.SetSize(size)
  }

  lemma MeaningOfFrame(m: ClientMessage)
    ensures S.Meaning(S.Binary(ClientFrame(m))) == RequestOf(m)
  {
    ClientRoundTrip(m);
  }

  /** What the server reads off a client's frames is what the client meant. */
  lemma {:induction false} WireMeans(messages: seq<ClientMessage>)
    ensures S.Typed(Wire(messages)) == Inputs(messages)
    ensures S.FinalSize(Wire(messages)) ==
              (match BI.LastResize(messages) case Some(size) => size case None => S.DEFAULT_SIZE)
    ensures S.Owed(Wire(messages)) == []
  {
    if messages != [] {
      var front, last := messages[..|messages| - 1], messages[|messages| - 1];
      assert messages == front + [last];
      WireAppend(front, last);
      WireMeans(front);
      MeaningOfFrame(last);
      S.ReceiveAppend(Wire(front), S.Binary(ClientFrame(last)), RequestOf(last));
      BI.LastResizeAppend(front, last);
      InputsAppend(front, last);
    }
  }

  /** For any sequence of keystrokes and resizes, all delivered and accepted, the
      PTY receives exactly the input bytes, its size is the last resize, and no
      error is answered. */
  lemma MessagesReachPty(messages: seq<ClientMessage>, session: seq<S.Event>)
    requires S.After(session).driver == S.Selecting
    requires S.After(session).received == Wire(messages)
    ensures S.After(session).typed == Inputs(messages)
    ensures BI.LastResize(messages).Some? ==> S.After(session).size == BI.LastResize(messages).value
    ensures S.Answers(S.After(session).sent) == []
  {
    SR.ClientIsServedInOrder(session);
    WireMeans(messages);
  }

  /** At any moment of the delivery the PTY has received a prefix of those bytes and
      no error was answered. */
  lemma PrefixReachesPty(messages: seq<ClientMessage>, session: seq<S.Event>)
    requires S.After(session).received <= Wire(messages)
    ensures S.After(session).typed <= Inputs(messages)
    ensures S.Answers(S.After(session).sent) == []
  {
    var n := |S.After(session).received|;
    assert S.After(session).received == Wire(messages[..n]);
    assert messages == messages[..n] + messages[n..];
    SR.ClientIsServedInOrder(session);
    WireMeans(messages[..n]);
    InputsConcat(messages[..n], messages[n..]);
  }

  /** As long as the client is open and the serving task neither stopped nor is
      sending the exit, any further messages can be delivered in full. */
  lemma MessagesCanReachPty(before: seq<S.Event>, earlier: seq<ClientMessage>, messages: seq<ClientMessage>)
    returns (more: seq<S.Event>)
    requires SR.CanServe(S.After(before)) && S.After(before).received == Wire(earlier)
    ensures SR.AllAccept(more)
    ensures S.After(before + more).driver == S.Selecting
    ensures S.After(before + more).received == Wire(earlier + messages)
    ensures S.After(before + more).typed == Inputs(earlier + messages)
  {
    S.AlwaysInv(before);
    more := SR.TakesAll(S.After(before), Wire(messages));
    SR.ExecSplit(S.INITIAL, before, more);
    WireConcat(earlier, messages);
    MessagesReachPty(earlier + messages, before + more);
  }

  /** An undecodable frame among the frames read adds its one error answer. */
  lemma {:induction false} GarbageIsRefused(before: seq<S.Incoming>, frame: seq<byte>, after: seq<S.Incoming>)
    requires DecodeClient(frame).Err?
    ensures var with, without := before + [S.Binary(frame)] + after, before + after;
            && S.Typed(with) == S.Typed(without)
            && S.FinalSize(with) == S.FinalSize(without)
            && S.Owed(before) <= S.Owed(without)
            && S.Owed(with) == WithRefusal(S.Owed(without), |S.Owed(before)|, DecodeClient(frame).error)
  {
    var bad, refusal := S.Binary(frame), S.Refused(DecodeClient(frame).error);
    if after == [] {
      assert before + [bad] + after == before + [bad] && before + after == before;
      S.ReceiveAppend(before, bad, S.Reply(refusal));
    } else {
      var front, last := after[..|after| - 1], after[|after| - 1];
      assert before + [bad] + after == before + [bad] + front + [last];
      assert before + after == before + front + [last];
      GarbageIsRefused(before, frame, front);
      S.ReceiveAppend(before + [bad] + front, last, S.Meaning(last));
      S.ReceiveAppend(before + front, last, S.Meaning(last));
      LaterAnswers(S.Owed(before + front), |S.Owed(before)|, refusal.error, S.AnswerTo(S.Meaning(last)));
    }
  }

  /** Answers with one more error answer at position `k`. */
  function WithRefusal(answers: seq<S.Outgoing>, k: nat, error: DecodeError): seq<S.Outgoing>
    requires k <= |answers|
  {
    answers[..k] + [S.Refused(error)] + answers[k..]
  }

  lemma LaterAnswers(answers: seq<S.Outgoing>, k: nat, error: DecodeError, more: seq<S.Outgoing>)
    requires k <= |answers|
    ensures WithRefusal(answers + more, k, error) == WithRefusal(answers, k, error) + more
  {
    assert (answers + more)[..k] == answers[..k] && (answers + more)[k..] == answers[k..] + more;
  }

  /** Two sessions back at `select!`, one of which also got a frame that is empty, has
      an unknown tag or is a resize without a readable size:
      the same bytes and size reached the PTY, and the one error answer stands
      between the same other answers. */
  lemma GarbageOnlyAddsAnswer(before: seq<S.Incoming>, frame: seq<byte>, error: DecodeError, after: seq<S.Incoming>,
                              dirty: seq<S.Event>, clean: seq<S.Event>)
    requires P.Refuses(frame, error)
    requires S.After(dirty).driver == S.Selecting && S.After(dirty).received == before + [S.Binary(frame)] + after
    requires S.After(clean).driver == S.Selecting && S.After(clean).received == before + after
    ensures S.After(dirty).typed == S.After(clean).typed
    ensures S.After(dirty).size == S.After(clean).size
    ensures |S.Owed(before)| <= |S.Answers(S.After(clean).sent)|
    ensures S.Answers(S.After(dirty).sent)
         == WithRefusal(S.Answers(S.After(clean).sent), |S.Owed(before)|, error)
  {
    P.ClientExactly(frame, [], Size(0, 0), error);
    SR.ClientIsServedInOrder(dirty);
    SR.ClientIsServedInOrder(clean);
    GarbageIsRefused(before, frame, after);
  }

  /** Everything typed during a run. */
  function TypedText(events: seq<B.Event>): string {
    if events == [] then
      []
    else
      var last := events[|events| - 1];
      TypedText(events[..|events| - 1]) + (if last.Types? then last.input else [])
  }

  lemma {:induction false} InputsConcat(a: seq<ClientMessage>, b: seq<ClientMessage>)
    ensures Inputs(a + b) == Inputs(a) + Inputs(b)
  {
    if b == [] {
      assert a + b == a;
    } else {
      var front, last := b[..|b| - 1], b[|b| - 1];
      assert a + b == (a + front) + [last];
      InputsAppend(a + front, last);
      InputsConcat(a, front);
    }
  }

  /** Characters typed one by one are the UTF-8 of the whole text. */
  lemma {:induction false} MessagesCarryText(events: seq<B.Event>)
    ensures Inputs(BT.UserMessages(events)) == Utf8.Encode(TypedText(events))
  {
    if events != [] {
      var front, last := events[..|events| - 1], events[|events| - 1];
      MessagesCarryText(front);
      InputsConcat(BT.UserMessages(front), BT.UserMessage(last));
      Utf8.Distributes(TypedText(front), if last.Types? then last.input else []);
      if BT.UserMessage(last) != [] {
        assert BT.UserMessage(last)[..0] == [];
      }
    }
  }

  /** Whatever happened in the browser before: once a session has taken in all
      frames of an open socket, its PTY has the size the terminal last reported. */
  lemma PtyHasLatestSize(browser: seq<B.Event>, s: nat, session: seq<S.Event>)
    requires BT.IsOpen(BR.After(browser), s)
    requires S.After(session).driver == S.Selecting
    requires S.After(session).received == Wire(BR.After(browser).sockets[s].sent)
    requires BR.LastReported(browser).Some?
    ensures S.After(session).size == BR.LastReported(browser).value
  {
    BR.ServerKnowsLatestSize(browser, s);
    MessagesReachPty(BR.After(browser).sockets[s].sent, session);
  }

  /** The `open` event is handled: the socket is in use and carried no input yet. */
  lemma Opening(browser: seq<B.Event>, s: nat)
    requires B.Enabled(BR.After(browser), B.SocketOpens(s))
    requires !BR.StaleSocket(BR.After(browser), s)
    ensures var a := BR.After(browser + [B.SocketOpens(s)]);
            BI.Inv(a) && BT.IsOpen(a, s) && Inputs(a.sockets[s].sent) == []
  {
    var before, opening := BR.After(browser), browser + [B.SocketOpens(s)];
    BR.AlwaysInv(browser);
    BR.AlwaysInv(opening);
    BT.ExecLast(B.INITIAL, browser, B.SocketOpens(s));
    Greeting(before, s);
  }

  lemma Greeting(a: B.App, s: nat)
    requires BI.Inv(a) && B.Enabled(a, B.SocketOpens(s)) && !BR.StaleSocket(a, s)
    ensures var b := B.Step(a, B.SocketOpens(s));
            BT.IsOpen(b, s) && Inputs(b.sockets[s].sent) == []
  {
    assert BI.SocketOk(a, s, a.sockets[s]);
    Greets(a, s);
    if a.latestSize.Some? {
      InputsAppend([], Resize(a.latestSize.value));
      assert [] + [Resize(a.latestSize.value)] == [Resize(a.latestSize.value)];
    }
  }

  lemma Greets(a: B.App, s: nat)
    requires B.Enabled(a, B.SocketOpens(s)) && !BR.StaleSocket(a, s) && a.sockets[s].sent == []
    ensures var b := B.Step(a, B.SocketOpens(s));
            && BT.IsOpen(b, s)
            && b.sockets[s].sent == match a.latestSize { case None => [] case Some(size) => [Resize(size)] }
  {
    assert B.Step(a, B.SocketOpens(s)) == B.OnSocketOpens(a, s);
  }

  /** Everything typed while the socket is open reaches the PTY, in order, as the
      UTF-8 of the typed text, and nothing else does, whatever else goes on: frames,
      timers, late events. The socket is open through the first `n` later events. */
  lemma KeystrokesReachPty(browser: seq<B.Event>, s: nat, later: seq<B.Event>, session: seq<S.Event>)
    returns (n: nat)
    requires B.Enabled(BR.After(browser), B.SocketOpens(s))
    requires !BR.StaleSocket(BR.After(browser), s)
    ensures var a, b := BR.After(browser + [B.SocketOpens(s)]), BR.After(browser + [B.SocketOpens(s)] + later);
            && BT.OpenThrough(a, later, s, n)
            && (BT.IsOpen(b, s) <==> n == |later|)
            && s < |b.sockets|
            && (S.After(session).received <= Wire(b.sockets[s].sent) ==>
                  S.After(session).typed <= Utf8.Encode(TypedText(later[..n])))
            && (S.After(session).driver == S.Selecting && S.After(session).received == Wire(b.sockets[s].sent) ==>
                  S.After(session).typed == Utf8.Encode(TypedText(later[..n])))
  {
    var opening := browser + [B.SocketOpens(s)];
    var a := BR.After(opening);
    Opening(browser, s);
    n := BT.UserEventsAreSent(a, later, s);
    BR.ExecSplit(B.INITIAL, opening, later);
    var sent := BR.After(opening + later).sockets[s].sent;
    InputsConcat(a.sockets[s].sent, BT.UserMessages(later[..n]));
    MessagesCarryText(later[..n]);
    assert Inputs(sent) == Utf8.Encode(TypedText(later[..n]));
    if S.After(session).received <= Wire(sent) {
      PrefixReachesPty(sent, session);
    }
    if S.After(session).driver == S.Selecting && S.After(session).received == Wire(sent) {
      MessagesReachPty(sent, session);
    }
  }

  // ---- PTY to screen -------------------------------------------------------------------

  function Frames(messages: seq<ServerMessage>): seq<seq<byte>> {
    seq(|messages|, i requires 0 <= i < |messages| => ServerFrame(messages[i]))
  }

  lemma FrameMeans(m: ServerMessage)
    ensures BT.OutputOf(ServerFrame(m)) == if m.Output? then m.data else []
    ensures BT.IsExit(ServerFrame(m)) <==> m.Exited?
    ensures m.Exited? ==>
              BT.ExitShown(ServerFrame(m))
                == B.Because(B.Closed, B.RemoteExit).(exitCode := Some(Decimal.Integer(m.code)))
  {
    if m.Error? {
      assert BrowserDecode(ServerFrame(m)) == Some(BrowserError(Utf8.TextDecoder(ServerFrame(m)[1..])));
    } else {
      ServerDecodersAgree(m);
    }
  }

  lemma FramesAppend(messages: seq<ServerMessage>, m: ServerMessage)
    ensures Frames(messages + [m]) == Frames(messages) + [ServerFrame(m)]
  {
  }

  lemma {:induction false} FramesOutput(messages: seq<ServerMessage>)
    ensures BT.OutputBytes(Frames(messages)) == S.Payload(messages)
  {
    if messages != [] {
      var front, last := messages[..|messages| - 1], messages[|messages| - 1];
      FramesOutput(front);
      FrameMeans(last);
      assert messages == front + [last];
      FramesAppend(front, last);
      BT.OutputAppend(Frames(front), ServerFrame(last));
    }
  }

  /** While the socket is open, every output byte received is on the screen, in
      order, whatever else goes on. */
  lemma OutputsReachScreen(a: B.App, events: seq<B.Event>, s: nat, messages: seq<ServerMessage>)
    requires BI.Inv(a) && BT.IsOpen(a, s) && BT.IsOpen(B.Exec(a, events), s)
    requires BT.Received(a, events, s) == Frames(messages)
    ensures B.Exec(a, events).screen == a.screen + S.Payload(messages)
  {
    BT.ReceivedIsShown(a, events, s);
    FramesOutput(messages);
  }

  /** The text of an error answer. */
  type Wording = DecodeError -> string

  /** The frames of known kinds that the server sent: pings are answered below. */
  function Visible(sent: seq<S.Outgoing>, wording: Wording): seq<ServerMessage> {
    if sent == [] then
      []
    else
      Visible(sent[..|sent| - 1], wording) + Shown(sent[|sent| - 1], wording)
  }

  function Shown(out: S.Outgoing, wording: Wording): seq<ServerMessage> {
    match out
    case Relayed(message) => [message]
    case Refused(error) => [Error(wording(error))]
    case Ponged(_) => []
  }

  lemma ShownPayload(seen: seq<ServerMessage>, relayed: seq<ServerMessage>, out: S.Outgoing, wording: Wording)
    requires S.Payload(seen) == S.Payload(relayed)
    ensures S.Payload(seen + Shown(out, wording))
         == S.Payload(relayed + (if out.Relayed? then [out.message] else []))
  {
    match out {
      case Relayed(message) =>
        SR.PayloadAppend(seen, message);
        SR.PayloadAppend(relayed, message);
      case Refused(error) =>
        SR.PayloadAppend(seen, Error(wording(error)));
        assert relayed + [] == relayed;
      case Ponged(_) =>
        assert seen + [] == seen && relayed + [] == relayed;
    }
  }

  /** Error answers between the frames of the reading task add no output. */
  lemma {:induction false} VisiblePayload(sent: seq<S.Outgoing>, wording: Wording)
    ensures S.Payload(Visible(sent, wording)) == S.Payload(S.OfReader(sent))
  {
    if sent != [] {
      var front, last := sent[..|sent| - 1], sent[|sent| - 1];
      VisiblePayload(front, wording);
      ShownPayload(Visible(front, wording), S.OfReader(front), last, wording);
    }
  }

  /** At every moment at which the socket is open and the frames received are a
      prefix of those sent, the screen has grown by a prefix of the bytes read from
      the PTY, whatever else goes on. */
  lemma PrefixReachesScreen(session: seq<S.Event>, wording: Wording, a: B.App, events: seq<B.Event>, s: nat)
    requires BI.Inv(a) && BT.IsOpen(a, s) && BT.IsOpen(B.Exec(a, events), s)
    requires BT.Received(a, events, s) <= Frames(Visible(S.After(session).sent, wording))
    ensures a.screen <= B.Exec(a, events).screen <= a.screen + S.Concat(S.After(session).chunks)
  {
    var all, n := Visible(S.After(session).sent, wording), |BT.Received(a, events, s)|;
    assert BT.Received(a, events, s) == Frames(all[..n]);
    OutputsReachScreen(a, events, s, all[..n]);
    assert all == all[..n] + all[n..];
    SR.PayloadConcat(all[..n], all[n..]);
    VisiblePayload(S.After(session).sent, wording);
    SR.RelayedInOrder(session);
  }

  /** A session that relayed its exit sent the bytes read before it, and its code. */
  lemma RelayedSplit(session: seq<S.Event>, i: nat)
    requires i < |S.After(session).sent| && S.IsExit(S.After(session).sent[i])
    ensures var t := S.After(session);
            && i == |t.sent| - 1
            && t.code.Some? && t.sent[i] == S.Relayed(Exited(t.code.value))
            && S.Payload(S.OfReader(t.sent[..i])) == S.Concat(t.chunks)
            && forall k :: 0 <= k < i ==> !S.IsExit(t.sent[k])
  {
    var t := S.After(session);
    SR.ExitComesLast(session, i);
    S.AlwaysInv(session);
    var relayed := S.OfReader(t.sent);
    assert relayed == S.OfReader(t.sent[..i]) + [t.sent[i].message];
    SR.ExitEndsProduced(t, |relayed| - 1);
  }

  /** A session that relayed its exit, seen by a browser that received its frames,
      error answers included, during any run without a remount: the screen shows
      exactly the bytes read from the PTY, and the status shows the exit code. */
  lemma WholeSessionIsShown(session: seq<S.Event>, i: nat, wording: Wording, a: B.App, events: seq<B.Event>, s: nat)
    requires i < |S.After(session).sent| && S.IsExit(S.After(session).sent[i])
    requires BI.Inv(a) && BT.IsOpen(a, s) && BR.NoMount(events)
    requires BT.Received(a, events, s) == Frames(Visible(S.After(session).sent, wording))
    ensures var b, t := B.Exec(a, events), S.After(session);
            && t.code.Some?
            && b.screen == a.screen + S.Concat(t.chunks)
            && b.connection == B.Because(B.Closed, B.RemoteExit).(exitCode := Some(Decimal.Integer(t.code.value)))
  {
    FramesOfSession(session, i, wording);
    BT.ReceivedIsShown(a, events, s);
  }

  /** The frames of a session that relayed its exit, for the browser. */
  lemma FramesOfSession(session: seq<S.Event>, i: nat, wording: Wording)
    requires i < |S.After(session).sent| && S.IsExit(S.After(session).sent[i])
    ensures var t, frames := S.After(session), Frames(Visible(S.After(session).sent, wording));
            && t.code.Some? && BT.EndsWithExit(frames)
            && BT.OutputBytes(frames) == S.Concat(t.chunks)
            && BT.ExitShown(frames[|frames| - 1])
                 == B.Because(B.Closed, B.RemoteExit).(exitCode := Some(Decimal.Integer(t.code.value)))
  {
    var t := S.After(session);
    RelayedSplit(session, i);
    var before := Visible(t.sent[..i], wording);
    assert Visible(t.sent, wording) == before + [Exited(t.code.value)];
    VisiblePayload(t.sent[..i], wording);
    SR.PayloadAppend(before, Exited(t.code.value));
    FrameMeans(Exited(t.code.value));
    FramesAppend(before, Exited(t.code.value));
    FramesOutput(before + [Exited(t.code.value)]);
  }

  /** Both directions of one socket at once, over any run from its opening without
      a remount: a session that read a prefix of what the browser sent and relayed
      its exit was typed a prefix of the text, and is on the screen in full. */
  lemma WholeConversation(browser: seq<B.Event>, s: nat, later: seq<B.Event>, session: seq<S.Event>, i: nat,
                          wording: Wording)
    returns (n: nat)
    requires B.Enabled(BR.After(browser), B.SocketOpens(s)) && !BR.StaleSocket(BR.After(browser), s)
    requires BR.NoMount(later)
    requires s < |BR.After(browser + [B.SocketOpens(s)] + later).sockets|
    requires S.After(session).received <= Wire(BR.After(browser + [B.SocketOpens(s)] + later).sockets[s].sent)
    requires BT.Received(BR.After(browser + [B.SocketOpens(s)]), later, s)
          == Frames(Visible(S.After(session).sent, wording))
    requires i < |S.After(session).sent| && S.IsExit(S.After(session).sent[i])
    ensures var a, b := BR.After(browser + [B.SocketOpens(s)]), BR.After(browser + [B.SocketOpens(s)] + later);
            var t := S.After(session);
            && BT.OpenThrough(a, later, s, n)
            && t.typed <= Utf8.Encode(TypedText(later[..n]))
            && t.code.Some?
            && b.screen == a.screen + S.Concat(t.chunks)
            && b.connection == B.Because(B.Closed, B.RemoteExit).(exitCode := Some(Decimal.Integer(t.code.value)))
  {
    var opening := browser + [B.SocketOpens(s)];
    n := KeystrokesReachPty(browser, s, later, session);
    Opening(browser, s);
    BR.ExecSplit(B.INITIAL, opening, later);
    WholeSessionIsShown(session, i, wording, BR.After(opening), later, s);
  }

  // ---- PTY to the command-line client ----------------------------------------------------

  /** What the server's frames are for the client. */
  function Arriving(out: S.Outgoing, wording: Wording): C.Arrival {
    match out
    case Relayed(message) => C.Binary(ServerFrame(message))
    case Refused(error) => C.Binary(ServerFrame(Error(wording(error))))
    case Ponged(_) => C.Control
  }

  function Arrivals(sent: seq<S.Outgoing>, wording: Wording): seq<C.Arrival> {
    seq(|sent|, i requires 0 <= i < |sent| => Arriving(sent[i], wording))
  }

  lemma {:induction false} ArrivalsAreMessages(sent: seq<S.Outgoing>, wording: Wording)
    ensures C.After(Arrivals(sent, wording)) == C.AfterMessages(Visible(sent, wording))
  {
    if sent != [] {
      var front, last := sent[..|sent| - 1], sent[|sent| - 1];
      ArrivalsAreMessages(front, wording);
      assert Arrivals(sent, wording)[..|sent| - 1] == Arrivals(front, wording);
      ShownIsArriving(Visible(front, wording), last, wording);
    }
  }

  lemma ShownIsArriving(seen: seq<ServerMessage>, out: S.Outgoing, wording: Wording)
    ensures C.AfterMessages(seen + Shown(out, wording)) == C.Step(C.AfterMessages(seen), Arriving(out, wording))
  {
    match out {
      case Relayed(message) =>
        C.FrameReacts(C.AfterMessages(seen), message);
        C.OneMoreMessage(seen, message);
      case Refused(error) =>
        C.FrameReacts(C.AfterMessages(seen), Error(wording(error)));
        C.OneMoreMessage(seen, Error(wording(error)));
      case Ponged(_) =>
        assert seen + [] == seen;
    }
  }

  lemma {:induction false} OutputsArePrinted(chunks: seq<seq<byte>>)
    ensures C.AfterMessages(S.Outputs(chunks)) == C.Terminal(S.Concat(chunks), C.Listening)
  {
    if chunks != [] {
      var front := chunks[..|chunks| - 1];
      OutputsArePrinted(front);
      assert S.Outputs(chunks)[..|chunks| - 1] == S.Outputs(front);
    }
  }

  lemma EndingIsPrinted(chunks: seq<seq<byte>>, failure: Option<string>, code: i32)
    ensures C.AfterMessages(S.Outputs(chunks) + S.Ending(failure, Some(code)))
         == match failure {
              case None => C.Terminal(S.Concat(chunks) + C.ExitNotice(code), C.RemoteExited)
              case Some(text) => C.Terminal(S.Concat(chunks), C.Failed(C.ServerSaid(text)))
            }
  {
    var outputs, exit := S.Outputs(chunks), Exited(code);
    OutputsArePrinted(chunks);
    if failure.Some? {
      var error := Error(failure.value);
      assert outputs + S.Ending(failure, Some(code)) == outputs + [error] + [exit];
      C.OneMoreMessage(outputs, error);
      C.OneMoreMessage(outputs + [error], exit);
    } else {
      assert outputs + S.Ending(failure, Some(code)) == outputs + [exit];
      C.OneMoreMessage(outputs, exit);
    }
  }

  lemma {:induction false} VisibleWithoutRefusals(sent: seq<S.Outgoing>, wording: Wording)
    requires forall i :: 0 <= i < |sent| ==> !sent[i].Refused?
    ensures Visible(sent, wording) == S.OfReader(sent)
  {
    if sent != [] {
      VisibleWithoutRefusals(sent[..|sent| - 1], wording);
    }
  }

  /** A session that relayed its exit and refused no frame, seen by the command-line
      client: it prints exactly the bytes read from the PTY and then the exit notice,
      unless reading the PTY failed, in which case it prints those bytes, fails with
      the reader's text and never shows the exit. */
  lemma WholeSessionIsPrinted(session: seq<S.Event>, i: nat, wording: Wording)
    requires i < |S.After(session).sent| && S.IsExit(S.After(session).sent[i])
    requires forall k :: 0 <= k < |S.After(session).sent| ==> !S.After(session).sent[k].Refused?
    ensures var t := S.After(session);
            && t.code.Some?
            && var shown := C.After(Arrivals(t.sent, wording));
            match t.failure
            case None =>
              && shown.outcome == C.RemoteExited
              && S.Concat(t.chunks) <= shown.printed
              && C.IsExitNotice(shown.printed[|S.Concat(t.chunks)|..], t.code.value)
            case Some(text) => shown == C.Terminal(S.Concat(t.chunks), C.Failed(C.ServerSaid(text)))
  {
    var t := S.After(session);
    var shown := C.After(Arrivals(t.sent, wording));
    RelayedSplit(session, i);
    SR.ExitComesLast(session, i);
    ArrivalsAreMessages(t.sent, wording);
    VisibleWithoutRefusals(t.sent, wording);
    EndingIsPrinted(t.chunks, t.failure, t.code.value);
    C.NoticeReads(t.code.value);
    assert t.failure.None? ==> shown.printed[|S.Concat(t.chunks)|..] == C.ExitNotice(t.code.value);
  }

  /** The first error answer ends the client with that text, after the output sent
      before it. */
  lemma RefusalEndsClient(before: seq<S.Outgoing>, error: DecodeError, after: seq<S.Outgoing>, wording: Wording)
    requires C.After(Arrivals(before, wording)).outcome == C.Listening
    ensures C.After(Arrivals(before + [S.Refused(error)] + after, wording))
         == C.Terminal(C.After(Arrivals(before, wording)).printed, C.Failed(C.ServerSaid(wording(error))))
  {
    var n, all := |before| + 1, before + [S.Refused(error)] + after;
    assert Arrivals(all, wording)[..n][..|before|] == Arrivals(before, wording);
    C.FrameReacts(C.After(Arrivals(before, wording)), Error(wording(error)));
    C.StoppedForGood(Arrivals(all, wording), n);
  }
}
