/** Theorems about every interleaving of a server session. */
module SessionRuns {
  import opened Common
  import opened Protocol
  import opened Session

  // ---- Order -----------------------------------------------------------------------------

  /** Outputs, then at most one error, then at most one exit. */
  predicate WellOrdered(messages: seq<ServerMessage>) {
    forall i, j :: 0 <= i < j < |messages| ==>
      messages[i].Output? || (messages[i].Error? && messages[j].Exited?)
  }

  lemma ProducedWellOrdered(s: Session)
    ensures WellOrdered(Produced(s))
  {
    var n := |s.chunks|;
    assert |Outputs(s.chunks)| == n;
    assert forall i :: 0 <= i < n ==> Produced(s)[i].Output?;
  }

  lemma PayloadAppend(a: seq<ServerMessage>, m: ServerMessage)
    ensures Payload(a + [m]) == Payload(a) + (if m.Output? then m.data else [])
  {
    assert (a + [m])[..|a|] == a;
  }

  lemma {:induction false} PayloadConcat(a: seq<ServerMessage>, b: seq<ServerMessage>)
    ensures Payload(a + b) == Payload(a) + Payload(b)
  {
    if b == [] {
      assert a + b == a;
    } else {
      var front, last := b[..|b| - 1], b[|b| - 1];
      assert a + b == (a + front) + [last];
      PayloadAppend(a + front, last);
      PayloadConcat(a, front);
    }
  }

  lemma {:induction false} OutputsPayload(chunks: seq<seq<byte>>)
    ensures Payload(Outputs(chunks)) == Concat(chunks)
  {
    if chunks != [] {
      var front, last := chunks[..|chunks| - 1], chunks[|chunks| - 1];
      assert Outputs(chunks) == Outputs(front) + [Output(last)];
      PayloadAppend(Outputs(front), Output(last));
      OutputsPayload(front);
    }
  }

  lemma ProducedPayload(s: Session)
    ensures Payload(Produced(s)) == Concat(s.chunks)
  {
    var error := if s.failure.Some? then [Error(s.failure.value)] else [];
    var exit := if s.code.Some? then [Exited(s.code.value)] else [];
    OutputsPayload(s.chunks);
    PayloadConcat(Outputs(s.chunks), error + exit);
    PayloadConcat(error, exit);
    PayloadAppend([], Error(""));
    if s.failure.Some? {
      PayloadAppend([], Error(s.failure.value));
      assert [] + error == error;
    }
    if s.code.Some? {
      PayloadAppend([], Exited(s.code.value));
      assert [] + exit == exit;
    }
  }

  lemma ThroughIsPrefix(s: Session)
    requires Inv(s)
    ensures OfReader(s.sent) <= Produced(s)
  {
    assert OfReader(s.sent) <= Through(s);
  }

  lemma PrefixOfProduced(s: Session, relayed: seq<ServerMessage>)
    requires relayed <= Produced(s)
    ensures WellOrdered(relayed) && Payload(relayed) <= Concat(s.chunks)
  {
    ProducedWellOrdered(s);
    ProducedPayload(s);
    var rest := Produced(s)[|relayed|..];
    assert Produced(s) == relayed + rest;
    PayloadConcat(relayed, rest);
  }

  /** Over every interleaving, the messages relayed to the client are outputs, at
      most one error and one exit, in that order, and their bytes are a prefix of
      the bytes read from the PTY. */
  lemma RelayedInOrder(events: seq<Event>)
    ensures WellOrdered(OfReader(After(events).sent))
    ensures Payload(OfReader(After(events).sent)) <= Concat(After(events).chunks)
  {
    AlwaysInv(events);
    ThroughIsPrefix(After(events));
    PrefixOfProduced(After(events), OfReader(After(events).sent));
  }

  /** Once an exit was sent, every byte read had been sent before it, nothing of
      any kind follows it, and the serving task has stopped. */
  lemma ExitComesLast(events: seq<Event>, i: nat)
    requires i < |After(events).sent| && IsExit(After(events).sent[i])
    ensures var s := After(events);
            && i == |s.sent| - 1
            && OfReader(s.sent) == Produced(s)
            && Payload(OfReader(s.sent[..i])) == Concat(s.chunks)
            && s.driver.Stopped? && s.reader == Done
  {
    var s := After(events);
    AlwaysInv(events);
    assert i == |s.sent| - 1;
    var relayed, exit := OfReader(s.sent), s.sent[i].message;
    assert relayed == OfReader(s.sent[..i]) + [exit];
    ThroughIsPrefix(s);
    ExitEndsProduced(s, |relayed| - 1);
    assert relayed == Produced(s);
    ProducedPayload(s);
    PayloadAppend(OfReader(s.sent[..i]), exit);
    EverythingThrough(s);
  }

  lemma ExitEndsProduced(s: Session, k: nat)
    requires k < |Produced(s)| && Produced(s)[k].Exited?
    ensures k == |Produced(s)| - 1 && s.code.Some? && Produced(s)[k] == Exited(s.code.value)
  {
    ProducedWellOrdered(s);
    var n := |s.chunks|;
    assert forall i :: 0 <= i < n ==> Produced(s)[i].Output?;
  }

  lemma EverythingThrough(s: Session)
    requires Inv(s) && s.code.Some? && OfReader(s.sent) == Produced(s)
    ensures s.reader == Done
  {
    assert |Through(s)| >= |Produced(s)|;
    assert |Offered(s.reader)| == 0;
  }

  // ---- Occupancy and progress ----------------------------------------------------------------

  /** The channel never holds more than 32 messages, and a reading task that finds
      it full waits for a serving task that can take a message at once, is inside
      a send or a PTY write, or has left its loop. */
  lemma BlockedReaderIsExcused(events: seq<Event>)
    ensures var s := After(events);
            && |s.channel| <= 32
            && (s.reader.Offering? && s.listening && !Enabled(s, ReaderSends) ==>
                  |s.channel| == 32
                  && (Enabled(s, DriverTakes) || s.driver.Sending? || s.driver.Writing? || s.driver.Stopped?))
            && (s.reader.Offering? && !s.listening ==> Enabled(s, ReaderRefused))
  {
    AlwaysInv(events);
  }

  /** Steps that only move messages on: the tasks', and accepting environments'. */
  predicate Delivers(e: Event) {
    e == ReaderSends || e == DriverTakes || e == SinkAccepts || e.PtyAccepts?
  }

  predicate AllDeliver(events: seq<Event>) {
    forall i :: 0 <= i < |events| ==> Delivers(events[i])
  }

  /** Work left: three for an offered message, two for a queued one, one for a
      message or answer being sent, and the bytes still to write. */
  function Backlog(s: Session): nat {
    (if s.reader.Offering? then 3 else 0)
    + 2 * |s.channel|
    + match s.driver
      case Sending(_) => 1
      case Writing(rest) => |rest|
      case _ => 0
  }

  /** The next delivering step. */
  function NextDelivery(s: Session): Event {
    match s.driver
    case Sending(_) => SinkAccepts
    case Writing(rest) => PtyAccepts(|rest|)
    case _ => if s.channel != [] then DriverTakes else ReaderSends
  }

  /** Every delivering step shrinks the backlog. */
  lemma DeliveryShrinks(s: Session, e: Event)
    requires Delivers(e) && Enabled(s, e)
    ensures Backlog(Step(s, e)) < Backlog(s)
    ensures Produced(Step(s, e)) == Produced(s)
    ensures Step(s, e).listening == s.listening
  {
  }

  /** While anything is left and the serving task is in its loop, a delivering step
      is possible. */
  lemma DeliveryPossible(s: Session)
    requires Inv(s) && s.listening && !s.driver.Stopped? && Backlog(s) > 0
    ensures Delivers(NextDelivery(s)) && Enabled(s, NextDelivery(s))
  {
  }

  lemma {:induction false} ExecSplit(s: Session, first: seq<Event>, rest: seq<Event>)
    ensures Exec(s, first + rest) == Exec(Exec(s, first), rest)
  {
    if rest == [] {
      assert first + rest == first;
    } else {
      var n := |rest| - 1;
      assert (first + rest)[..|first + rest| - 1] == first + rest[..n];
      ExecSplit(s, first, rest[..n]);
    }
  }

  /** A serving task that has stopped by relaying an exit relayed everything. */
  lemma StoppedByExit(s: Session)
    requires Inv(s) && s.sent != [] && IsExit(s.sent[|s.sent| - 1])
    ensures OfReader(s.sent) == Produced(s)
  {
    var relayed := OfReader(s.sent);
    ThroughIsPrefix(s);
    ExitEndsProduced(s, |relayed| - 1);
  }

  lemma NothingLeft(s: Session)
    requires Inv(s) && s.listening && !s.driver.Stopped? && Backlog(s) == 0
    ensures OfReader(s.sent) == Produced(s)
  {
    assert Through(s) + Offered(s.reader) == OfReader(s.sent);
  }

  lemma DeliveryStops(s: Session, e: Event)
    requires Inv(s) && Delivers(e) && Enabled(s, e) && !s.driver.Stopped?
    requires Step(s, e).driver.Stopped?
    ensures OfReader(Step(s, e).sent) == Produced(s)
  {
    var t := Step(s, e);
    StepKeeps(s, e);
    assert t.sent == s.sent + [s.driver.out];
    StoppedByExit(t);
  }

  /** If the PTY and the socket always accept, a finite number of delivering steps
      sends every message the reading task has made. */
  lemma EverythingIsDelivered(s: Session) returns (events: seq<Event>)
    requires Inv(s) && s.listening && !s.driver.Stopped?
    ensures AllDeliver(events) && |events| <= Backlog(s)
    ensures OfReader(Exec(s, events).sent) == Produced(s)
    decreases Backlog(s)
  {
    if Backlog(s) == 0 {
      events := [];
      NothingLeft(s);
    } else {
      var e := NextDelivery(s);
      DeliveryPossible(s);
      DeliveryStep(s, e);
      if Step(s, e).driver.Stopped? {
        events := [e];
        ExecOne(s, e);
        DeliveryStops(s, e);
      } else {
        var rest := EverythingIsDelivered(Step(s, e));
        events := [e] + rest;
        DeliverFirst(s, e, rest);
      }
    }
  }

  lemma DeliverFirst(s: Session, e: Event, rest: seq<Event>)
    requires Delivers(e) && AllDeliver(rest)
    ensures AllDeliver([e] + rest)
    ensures Exec(s, [e] + rest) == Exec(Step(s, e), rest)
  {
    ExecOne(s, e);
    ExecSplit(s, [e], rest);
  }

  lemma DeliveryStep(s: Session, e: Event)
    requires Inv(s) && Delivers(e) && Enabled(s, e)
    ensures Inv(Step(s, e))
    ensures Backlog(Step(s, e)) < Backlog(s)
    ensures Produced(Step(s, e)) == Produced(s)
    ensures Step(s, e).listening == s.listening
  {
    DeliveryShrinks(s, e);
    StepKeeps(s, e);
  }

  lemma ExecOne(s: Session, e: Event)
    ensures Exec(s, [e]) == Step(s, e)
  {
    assert [e][..0] == [];
  }

  /** Delivering steps in any order in which each is possible. */
  predicate Schedule(s: Session, events: seq<Event>)
    decreases |events|
  {
    events == [] || (Delivers(events[0]) && Enabled(s, events[0]) && Schedule(Step(s, events[0]), events[1..]))
  }

  /** No delivering step is possible any more. */
  ghost predicate Exhausted(s: Session) {
    forall e :: Delivers(e) ==> !Enabled(s, e)
  }

  lemma ExitEmptiesBacklog(s: Session)
    requires Inv(s) && s.sent != [] && IsExit(s.sent[|s.sent| - 1])
    ensures Backlog(s) == 0
  {
    StoppedByExit(s);
    ExitEndsProduced(s, |OfReader(s.sent)| - 1);
    EverythingThrough(s);
    assert |Through(s)| <= |Produced(s)|;
  }

  lemma StopEmptiesBacklog(s: Session, e: Event)
    requires Inv(s) && Delivers(e) && Enabled(s, e) && !s.driver.Stopped?
    requires Step(s, e).driver.Stopped?
    ensures Backlog(Step(s, e)) == 0
  {
    StepKeeps(s, e);
    assert Step(s, e).sent == s.sent + [s.driver.out];
    ExitEmptiesBacklog(Step(s, e));
  }

  /** If the PTY and the socket always accept, every schedule ends within the
      backlog, and when no step is left every message made has been sent. */
  lemma {:induction false} EveryScheduleDelivers(s: Session, events: seq<Event>)
    requires Inv(s) && s.listening && !s.driver.Stopped? && Schedule(s, events)
    ensures |events| <= Backlog(s)
    ensures Exhausted(Exec(s, events)) ==> OfReader(Exec(s, events).sent) == Produced(s)
    decreases |events|
  {
    if events == [] {
      if Exhausted(s) {
        if Backlog(s) > 0 {
          DeliveryPossible(s);
        }
        NothingLeft(s);
      }
    } else {
      var e, rest := events[0], events[1..];
      DeliveryStep(s, e);
      assert events == [e] + rest;
      ExecOne(s, e);
      ExecSplit(s, [e], rest);
      if Step(s, e).driver.Stopped? {
        StopEmptiesBacklog(s, e);
        DeliveryStops(s, e);
        if rest != [] {
          DeliveryShrinks(Step(s, e), rest[0]);
        }
      } else {
        EveryScheduleDelivers(Step(s, e), rest);
      }
    }
  }

  /** As long as the serving task has not stopped, every byte read from the PTY can
      still reach the client, without any further client message. */
  lemma EveryByteCanArrive(before: seq<Event>) returns (more: seq<Event>)
    requires !After(before).driver.Stopped?
    ensures AllDeliver(more)
    ensures Payload(OfReader(After(before + more).sent)) == Concat(After(before).chunks)
  {
    AlwaysInv(before);
    var s := After(before);
    more := EverythingIsDelivered(s);
    ExecSplit(INITIAL, before, more);
    ProducedPayload(s);
  }

  // ---- The client's input ------------------------------------------------------------------------

  /** At every `select!`, the PTY has received exactly the bytes the client typed,
      its size is the last one asked for, and every undecodable frame and ping got
      its one answer, in order; a session that ended early wrote a prefix. */
  lemma ClientIsServedInOrder(events: seq<Event>)
    ensures var s := After(events);
            && s.typed <= Typed(s.received)
            && Answers(s.sent) <= Owed(s.received)
            && (s.driver == Selecting ==>
                  && s.typed == Typed(s.received)
                  && s.size == FinalSize(s.received)
                  && Answers(s.sent) == Owed(s.received))
  {
    AlwaysInv(events);
    var s := After(events);
    if s.driver.Sending? {
      FilterAppend(s.sent, s.driver.out);
    }
  }

  /** The serving task can still take client messages. */
  predicate CanServe(s: Session) {
    s.clientOpen && !s.driver.Stopped? && !(s.driver.Sending? && IsExit(s.driver.out))
  }

  /** The client sends, and PTY and socket accept. */
  predicate Accepts(e: Event) {
    e == SinkAccepts || e.PtyAccepts? || (e.ClientSends? && e.resizeWorks)
  }

  predicate AllAccept(events: seq<Event>) {
    forall i :: 0 <= i < |events| ==> Accepts(events[i])
  }

  /** Back at `select!` with the given messages taken. */
  predicate Serving(s: Session, received: seq<Incoming>) {
    Inv(s) && s.driver == Selecting && s.clientOpen && s.received == received
  }

  lemma AcceptStep(s: Session, e: Event)
    requires Inv(s) && Accepts(e)
    ensures AllAccept([e]) && Exec(s, [e]) == Step(s, e) && Inv(Step(s, e))
  {
    ExecOne(s, e);
    StepKeeps(s, e);
  }

  lemma AcceptBoth(s: Session, first: seq<Event>, rest: seq<Event>)
    requires AllAccept(first) && AllAccept(rest)
    ensures AllAccept(first + rest) && Exec(s, first + rest) == Exec(Exec(s, first), rest)
  {
    ExecSplit(s, first, rest);
  }

  lemma SendingEnds(s: Session)
    requires Inv(s) && CanServe(s) && s.driver.Sending?
    ensures Serving(Step(s, SinkAccepts), s.received)
  {
    StepKeeps(s, SinkAccepts);
    assert Step(s, SinkAccepts) == OnSinkAccepts(s, s.driver.out);
  }

  lemma WritingEnds(s: Session)
    requires Inv(s) && CanServe(s) && s.driver.Writing?
    ensures Serving(Step(s, PtyAccepts(|s.driver.rest|)), s.received)
  {
    StepKeeps(s, PtyAccepts(|s.driver.rest|));
    assert s.driver.rest != [];
  }

  lemma FinishesStep(s: Session) returns (events: seq<Event>)
    requires Inv(s) && CanServe(s)
    ensures AllAccept(events) && Serving(Exec(s, events), s.received)
  {
    match s.driver {
      case Selecting => events := [];
      case Sending(_) =>
        SendingEnds(s);
        ExecOne(s, SinkAccepts);
        events := [SinkAccepts];
      case Writing(rest) =>
        WritingEnds(s);
        ExecOne(s, PtyAccepts(|rest|));
        events := [PtyAccepts(|rest|)];
    }
  }

  /** Taking a message that is no close leaves the task able to go on. */
  lemma TakesMessage(s: Session, message: Incoming)
    requires s.driver == Selecting && s.clientOpen && !message.Close?
    ensures Enabled(s, ClientSends(message, true))
    ensures var t := Step(s, ClientSends(message, true));
            CanServe(t) && t.received == s.received + [message]
  {
    assert Step(s, ClientSends(message, true)) == OnClient(s, message, true);
  }

  lemma TakesOne(s: Session, received: seq<Incoming>, message: Incoming) returns (events: seq<Event>)
    requires Serving(s, received) && !message.Close?
    ensures AllAccept(events) && Serving(Exec(s, events), received + [message])
  {
    var e := ClientSends(message, true);
    AcceptStep(s, e);
    TakesMessage(s, message);
    events := FinishesAfter(s, e, Step(s, e));
  }

  lemma FinishesAfter(s: Session, e: Event, t: Session) returns (events: seq<Event>)
    requires Accepts(e) && Exec(s, [e]) == t && Inv(t) && CanServe(t)
    ensures AllAccept(events) && Serving(Exec(s, events), t.received)
  {
    var rest := FinishesStep(t);
    events := [e] + rest;
    AcceptBoth(s, [e], rest);
  }

  lemma LastOf(received: seq<Incoming>, messages: seq<Incoming>)
    requires messages != []
    ensures received + messages == received + messages[..|messages| - 1] + [messages[|messages| - 1]]
  {
  }

  lemma TakesAll(s: Session, messages: seq<Incoming>) returns (events: seq<Event>)
    requires Inv(s) && CanServe(s)
    requires forall i :: 0 <= i < |messages| ==> !messages[i].Close?
    ensures AllAccept(events) && Serving(Exec(s, events), s.received + messages)
  {
    if messages == [] {
      events := FinishesStep(s);
      assert s.received + [] == s.received;
    } else {
      var front, last := messages[..|messages| - 1], messages[|messages| - 1];
      LastOf(s.received, messages);
      var before := TakesAll(s, front);
      events := TakesMore(s, before, s.received + front, last);
    }
  }

  lemma TakesMore(s: Session, before: seq<Event>, received: seq<Incoming>, message: Incoming)
    returns (events: seq<Event>)
    requires AllAccept(before) && Serving(Exec(s, before), received) && !message.Close?
    ensures AllAccept(events) && Serving(Exec(s, events), received + [message])
  {
    var more := TakesOne(Exec(s, before), received, message);
    events := before + more;
    AcceptBoth(s, before, more);
  }

  lemma {:induction false} TakesNothing(s: Session, events: seq<Event>)
    requires !CanServe(s)
    ensures !CanServe(Exec(s, events)) && Exec(s, events).received == s.received
  {
    if events != [] {
      TakesNothing(s, events[..|events| - 1]);
    }
  }

  /** In any state, an accepting PTY and socket let the serving task take any given
      client messages, short of a close, and return to `select!` exactly when the
      client is open and the task neither has stopped nor is sending the exit. */
  lemma InputIsTakenIff(s: Session, messages: seq<Incoming>)
    requires Inv(s) && messages != []
    requires forall i :: 0 <= i < |messages| ==> !messages[i].Close?
    ensures (exists events :: AllAccept(events) && Serving(Exec(s, events), s.received + messages)) <==> CanServe(s)
  {
    if CanServe(s) {
      var events := TakesAll(s, messages);
    } else {
      forall events ensures !Serving(Exec(s, events), s.received + messages) {
        TakesNothing(s, events);
      }
    }
  }
}
