/** What the session makes of every message and every answer of its environment,
    over every interleaving and by the bytes themselves. */
module SessionAnswers {
  import opened Common
  import opened Protocol
  import opened Session
  import opened SessionRuns
  import P = ProtocolExact
  import Utf8

  lemma ExecLast(s: Session, events: seq<Event>, e: Event)
    ensures Exec(s, events + [e]) == Step(Exec(s, events), e)
  {
    assert (events + [e])[..|events|] == events;
  }

  // ---- What the state records --------------------------------------------------------------

  /** The event happens after the given run. */
  predicate Happens(before: seq<Event>, e: Event) {
    Enabled(After(before), e)
  }

  /** What the PTY gave to its reads. */
  function ChunksOf(events: seq<Event>): seq<seq<byte>> {
    if events == [] then
      []
    else
      var front, last := events[..|events| - 1], events[|events| - 1];
      ChunksOf(front) + if last.PtyReads? && Happens(front, last) then [last.chunk] else []
  }

  /** What the client sent and the serving task took. */
  function ReceivedOf(events: seq<Event>): seq<Incoming> {
    if events == [] then
      []
    else
      var front, last := events[..|events| - 1], events[|events| - 1];
      ReceivedOf(front) + if last.ClientSends? && Happens(front, last) then [last.message] else []
  }

  function FailureOf(events: seq<Event>): Option<string> {
    if events == [] then
      None
    else
      var front, last := events[..|events| - 1], events[|events| - 1];
      if last.PtyFails? && Happens(front, last) then Some(last.text) else FailureOf(front)
  }

  function CodeOf(events: seq<Event>): Option<i32> {
    if events == [] then
      None
    else
      var front, last := events[..|events| - 1], events[|events| - 1];
      if last.ChildExits? && Happens(front, last) then Some(last.code) else CodeOf(front)
  }

  /** The bytes the PTY took from its writer. */
  function WrittenOf(events: seq<Event>): nat {
    if events == [] then
      0
    else
      var front, last := events[..|events| - 1], events[|events| - 1];
      WrittenOf(front) + if last.PtyAccepts? && Happens(front, last) then last.count else 0
  }

  /** The state records exactly what the environment gave: the chunks read, none
      empty or larger than the buffer, the read error, the exit code, the client's
      messages and the number of bytes taken by the PTY. */
  lemma {:induction false} HistoryIsRecorded(events: seq<Event>)
    ensures var s := After(events);
            && s.chunks == ChunksOf(events) && s.received == ReceivedOf(events)
            && s.failure == FailureOf(events) && s.code == CodeOf(events)
            && |s.typed| == WrittenOf(events)
            && forall i :: 0 <= i < |s.chunks| ==> 1 <= |s.chunks[i]| <= 8192
  {
    AlwaysInv(events);
    if events != [] {
      var front, last := events[..|events| - 1], events[|events| - 1];
      HistoryIsRecorded(front);
      Records(After(front), last);
    }
  }

  lemma Records(s: Session, e: Event)
    ensures var t, now := Step(s, e), Enabled(s, e);
            && t.chunks == s.chunks + (if e.PtyReads? && now then [e.chunk] else [])
            && t.received == s.received + (if e.ClientSends? && now then [e.message] else [])
            && t.failure == (if e.PtyFails? && now then Some(e.text) else s.failure)
            && t.code == (if e.ChildExits? && now then Some(e.code) else s.code)
            && |t.typed| == |s.typed| + (if e.PtyAccepts? && now then e.count else 0)
  {
  }

  // ---- The reading task ----------------------------------------------------------------------

  /** The reading loop goes on. */
  predicate Loops(r: Reader) {
    r == Reading || (r.Offering? && r.message.Output?)
  }

  /** The read loop has seen its end, an error, or a closed channel. */
  function LoopEnded(events: seq<Event>): bool {
    events != []
    && var front, last := events[..|events| - 1], events[|events| - 1];
       LoopEnded(front) || ((last.PtyEnds? || last.PtyFails? || last.ReaderRefused?) && Happens(front, last))
  }

  /** The reading task reads on exactly until the stream ends, fails or the channel is
      found closed. */
  lemma {:induction false} ReadsUntilTheEnd(events: seq<Event>)
    ensures Loops(After(events).reader) <==> !LoopEnded(events)
  {
    if events != [] {
      var front, last := events[..|events| - 1], events[|events| - 1];
      ReadsUntilTheEnd(front);
      AlwaysInv(front);
      LoopStep(After(front), last);
    }
  }

  lemma LoopStep(s: Session, e: Event)
    requires Inv(s)
    ensures Loops(Step(s, e).reader)
            <==> Loops(s.reader) && !((e.PtyEnds? || e.PtyFails? || e.ReaderRefused?) && Enabled(s, e))
  {
  }

  /** What the reading task is about, in terms of what the PTY and the child gave. */
  lemma OffersWhatItGot(events: seq<Event>)
    ensures match After(events).reader
            case Reading => FailureOf(events).None? && CodeOf(events).None?
            case Offering(Output(data)) =>
              ChunksOf(events) != [] && ChunksOf(events)[|ChunksOf(events)| - 1] == data
            case Offering(Error(text)) => FailureOf(events) == Some(text)
            case Offering(Exited(code)) => CodeOf(events) == Some(code)
            case Waiting => CodeOf(events).None?
            case Done => CodeOf(events).Some?
  {
    AlwaysInv(events);
    HistoryIsRecorded(events);
    assert ReaderOk(After(events));
  }

  // ---- The client's messages, by their bytes -----------------------------------------------------

  /** The bytes a message types: a text its UTF-8, a frame tagged 1 its payload. */
  function Keys(message: Incoming): seq<byte> {
    match message
    case Text(text) => Utf8.Encode(text)
    case Binary(frame) => if frame != [] && frame[0] == 1 then frame[1..] else []
    case _ => []
  }

  /** The size a message sets, if it is a frame tagged 0 with a readable size. */
  ghost predicate Sets(message: Incoming, size: Size) {
    message.Binary? && message.frame != [] && message.frame[0] == 0 && P.IsSize(Utf8.Lossy(message.frame[1..]), size)
  }

  ghost predicate SetsOne(message: Incoming) {
    exists size :: Sets(message, size)
  }

  /** The answer a message gets: a ping its own bytes, a refused frame its error. */
  ghost predicate Gets(message: Incoming, out: Outgoing) {
    match message
    case Ping(data) => out == Ponged(data)
    case Binary(frame) => out.Refused? && P.Refuses(frame, out.error)
    case _ => false
  }

  ghost predicate GetsOne(message: Incoming) {
    exists out :: Gets(message, out)
  }

  /** The meaning of every message. */
  lemma MessageExactly(message: Incoming)
    ensures TypingOf(Meaning(message)) == Keys(message)
    ensures forall size :: Meaning(message) == SetSize(size) <==> Sets(message, size)
    ensures forall out :: AnswerTo(Meaning(message)) == [out] <==> Gets(message, out)
    ensures Meaning(message) == Quit <==> message == Close
  {
    match message {
      case Binary(frame) => FrameExactly(frame);
      case _ =>
    }
  }

  lemma FrameExactly(frame: seq<byte>)
    ensures TypingOf(Meaning(Binary(frame))) == Keys(Binary(frame))
    ensures forall size :: Meaning(Binary(frame)) == SetSize(size) <==> Sets(Binary(frame), size)
    ensures forall out :: AnswerTo(Meaning(Binary(frame))) == [out] <==> Gets(Binary(frame), out)
    ensures Meaning(Binary(frame)) != Quit
  {
    var rest := if frame == [] then [] else frame[1..];
    assert frame != [] ==> frame == [frame[0]] + rest;
    forall size ensures DecodeClient(frame) == Ok(Resize(size)) <==> Sets(Binary(frame), size) {
      P.ClientExactly(frame, rest, size, EmptyFrame);
    }
    forall error ensures DecodeClient(frame) == Err(error) <==> P.Refuses(frame, error) {
      P.ClientExactly(frame, rest, Size(0, 0), error);
    }
    P.ClientExactly(frame, rest, Size(0, 0), EmptyFrame);
  }

  /** All bytes the client typed. */
  function AllKeys(received: seq<Incoming>): seq<byte> {
    if received == [] then [] else AllKeys(received[..|received| - 1]) + Keys(received[|received| - 1])
  }

  /** The size is that of the last message that sets one, or the default. */
  ghost predicate LastSet(received: seq<Incoming>, size: Size) {
    if received == [] then
      size == Size(80, 24)
    else if SetsOne(received[|received| - 1]) then
      Sets(received[|received| - 1], size)
    else
      LastSet(received[..|received| - 1], size)
  }

  /** The answers are those of the messages that get one, in order. */
  ghost predicate AllAnswered(received: seq<Incoming>, answers: seq<Outgoing>) {
    if received == [] then
      answers == []
    else if GetsOne(received[|received| - 1]) then
      && answers != []
      && Gets(received[|received| - 1], answers[|answers| - 1])
      && AllAnswered(received[..|received| - 1], answers[..|answers| - 1])
    else
      AllAnswered(received[..|received| - 1], answers)
  }

  lemma {:induction false} MessagesExactly(received: seq<Incoming>)
    ensures Typed(received) == AllKeys(received)
    ensures LastSet(received, FinalSize(received))
    ensures AllAnswered(received, Owed(received))
  {
    if received != [] {
      var front, last := received[..|received| - 1], received[|received| - 1];
      MessagesExactly(front);
      MessageExactly(last);
      if Meaning(last).SetSize? {
        assert Sets(last, Meaning(last).size);
      }
      if Meaning(last).Reply? {
        assert AnswerTo(Meaning(last)) == [Meaning(last).out];
        assert Gets(last, Meaning(last).out);
        assert Owed(received)[..|Owed(received)| - 1] == Owed(front);
      } else {
        assert Owed(front) + [] == Owed(front);
      }
    }
  }

  /** Over every interleaving, at each `select!`: the PTY holds exactly the UTF-8 of the
      client's texts and the payloads of its input frames, in order; its size is that
      of the last readable resize frame, or 80 by 24; and every ping was answered with
      its own bytes and every other frame with its own error, in order. */
  lemma ServedByTheBytes(events: seq<Event>)
    requires After(events).driver == Selecting
    ensures var s := After(events);
            && s.typed == AllKeys(ReceivedOf(events))
            && LastSet(ReceivedOf(events), s.size)
            && AllAnswered(ReceivedOf(events), Answers(s.sent))
  {
    ClientIsServedInOrder(events);
    HistoryIsRecorded(events);
    MessagesExactly(ReceivedOf(events));
  }

  // ---- The end ------------------------------------------------------------------------------------

  /** A close is the last message taken, and it stops the serving task cleanly. */
  predicate CloseOk(s: Session) {
    forall i :: 0 <= i < |s.received| && s.received[i].Close? ==> i == |s.received| - 1 && s.driver == Stopped(true, [])
  }

  lemma CloseTaken(s: Session, message: Incoming, resizeWorks: bool)
    requires CloseOk(s) && s.driver == Selecting
    ensures CloseOk(OnClient(s, message, resizeWorks))
  {
    var t := OnClient(s, message, resizeWorks);
    assert t.received == s.received + [message];
    assert message.Close? ==> t.driver == Stopped(true, []);
  }

  lemma CloseStep(s: Session, e: Event)
    requires CloseOk(s)
    ensures CloseOk(Step(s, e))
  {
    if Enabled(s, e) && e.ClientSends? {
      CloseTaken(s, e.message, e.resizeWorks);
    }
  }

  lemma {:induction false} CloseAlways(events: seq<Event>)
    ensures CloseOk(After(events))
  {
    if events != [] {
      CloseAlways(events[..|events| - 1]);
      CloseStep(After(events[..|events| - 1]), events[|events| - 1]);
    }
  }

  /** Nothing reaches the PTY or the socket any more. */
  predicate Frozen(s: Session, t: Session) {
    t.driver == s.driver && t.typed == s.typed && t.size == s.size && t.sent == s.sent && t.received == s.received
  }

  lemma {:induction false} StoppedIsFrozen(s: Session, more: seq<Event>)
    requires s.driver.Stopped?
    ensures Frozen(s, Exec(s, more))
  {
    if more != [] {
      StoppedIsFrozen(s, more[..|more| - 1]);
    }
  }

  /** A client that closes ends the session: its close is the last message taken, the
      serving task has left its loop cleanly, and in every continuation neither the
      PTY nor the socket gets anything more. */
  lemma CloseEndsSession(events: seq<Event>, i: nat, more: seq<Event>)
    requires i < |ReceivedOf(events)| && ReceivedOf(events)[i] == Close
    ensures i == |ReceivedOf(events)| - 1 && After(events).driver == Stopped(true, [])
    ensures Frozen(After(events), After(events + more))
  {
    CloseAlways(events);
    HistoryIsRecorded(events);
    ExecSplit(INITIAL, events, more);
    StoppedIsFrozen(After(events), more);
  }

  /** The event makes the serving task leave its loop: the exit is sent, a send, the
      client or the PTY fails, a resize is refused, the client closes, or both sources
      have ended. */
  ghost predicate Ends(s: Session, e: Event) {
    match e
    case SinkAccepts => s.driver.Sending? && IsExit(s.driver.out)
    case SinkFails => true
    case ClientFails => true
    case PtyRejects => true
    case BothEnd => true
    case ClientSends(message, resizeWorks) => message.Close? || (SetsOne(message) && !resizeWorks)
    case _ => false
  }

  ghost predicate Ended(events: seq<Event>) {
    events != []
    && var front, last := events[..|events| - 1], events[|events| - 1];
       Ended(front) || (Happens(front, last) && Ends(After(front), last))
  }

  ghost predicate ClientGone(events: seq<Event>) {
    events != []
    && var front, last := events[..|events| - 1], events[|events| - 1];
       ClientGone(front) || (last.ClientEnds? && Happens(front, last))
  }

  lemma EndStep(s: Session, e: Event)
    ensures Step(s, e).driver.Stopped? <==> s.driver.Stopped? || (Enabled(s, e) && Ends(s, e))
    ensures Step(s, e).clientOpen <==> s.clientOpen && !(e.ClientEnds? && Enabled(s, e))
  {
    if Enabled(s, e) && e.ClientSends? {
      assert Step(s, e) == OnClient(s, e.message, e.resizeWorks);
      MessageExactly(e.message);
      assert Meaning(e.message).SetSize? ==> Sets(e.message, Meaning(e.message).size);
    }
  }

  /** The serving task serves on through everything else: it has left its loop exactly
      if one of those events happened, and reads the client until its stream ends. */
  lemma {:induction false} StopsExactly(events: seq<Event>)
    ensures After(events).driver.Stopped? <==> Ended(events)
    ensures After(events).clientOpen <==> !ClientGone(events)
  {
    if events != [] {
      StopsExactly(events[..|events| - 1]);
      EndStep(After(events[..|events| - 1]), events[|events| - 1]);
    }
  }

  predicate Closed(s: Session) {
    s.received != [] && s.received[|s.received| - 1] == Close
  }

  predicate ExitSent(s: Session) {
    s.sent != [] && IsExit(s.sent[|s.sent| - 1])
  }

  /** Why the serving task stopped. */
  predicate StopOk(s: Session) {
    && (s.driver.Writing? ==> s.clientOpen)
    && (!s.driver.Stopped? ==> !ExitSent(s) && !Closed(s))
    && (s.driver.Sending? && !s.driver.out.Relayed? ==> s.clientOpen)
    && (s.driver.Stopped? ==>
          (s.driver.clean <==> s.driver.unsent == [] && (ExitSent(s) || Closed(s) || !s.clientOpen)))
  }

  lemma StopStep(s: Session, e: Event)
    requires StopOk(s)
    ensures StopOk(Step(s, e))
  {
    if Enabled(s, e) {
      if e.ClientSends? {
        assert Step(s, e) == OnClient(s, e.message, e.resizeWorks);
      } else if e.SinkAccepts? {
        assert Step(s, e) == OnSinkAccepts(s, s.driver.out);
      }
    }
  }

  lemma {:induction false} StopAlways(events: seq<Event>)
    ensures StopOk(After(events))
  {
    if events != [] {
      StopAlways(events[..|events| - 1]);
      StopStep(After(events[..|events| - 1]), events[|events| - 1]);
    }
  }

  /** The serving task ends without an error exactly if everything it took to send was
      sent and it relayed the exit, took the client's close, or saw both sources end;
      until then no exit was sent and no close taken. */
  lemma StopsCleanlyIff(events: seq<Event>)
    ensures var s := After(events);
            && (s.driver.Stopped? ==>
                  (s.driver.clean <==> s.driver.unsent == [] && (ExitSent(s) || Closed(s) || !s.clientOpen)))
            && (!s.driver.Stopped? ==> !ExitSent(s) && !Closed(s))
  {
    StopAlways(events);
  }
}
