/** One terminal session on the server: a task that reads the PTY, a channel of
    32 messages, and a task that serves the socket, in any interleaving. */
module Session {
  import opened Common
  import opened Protocol
  import Utf8

  const CAPACITY: nat := 32

  const BUFFER: nat := 8192

  // ---- State -----------------------------------------------------------------------

  /** The reading task: at `read`, at `tx.send`, at `wait`, or finished. */
  datatype Reader = Reading | Offering(message: ServerMessage) | Waiting | Done

  /** What the client can send. */
  datatype Incoming = Binary(frame: seq<byte>) | Text(text: string) | Close | Ping(data: seq<byte>) | Pong

  /** What the server puts on the socket: a message of the reading task, the
      answer to an undecodable frame, or the answer to a ping. */
  datatype Outgoing = Relayed(message: ServerMessage) | Refused(error: DecodeError) | Ponged(data: seq<byte>)

  /** The serving task: at `select!`, at `sender.send`, at `write_all`, or out of
      its loop with what it could not send. */
  datatype Driver =
    | Selecting
    | Sending(out: Outgoing)
    | Writing(rest: seq<byte>)
    | Stopped(clean: bool, unsent: seq<Outgoing>)

  /** `chunks`, `failure` and `code` are what the PTY gave the reading task, and
      `received` what the client gave the serving task, so far. */
  datatype Session = Session(
    chunks: seq<seq<byte>>,
    failure: Option<string>,
    code: Option<i32>,
    reader: Reader,
    channel: seq<ServerMessage>,
    listening: bool,
    driver: Driver,
    sent: seq<Outgoing>,
    received: seq<Incoming>,
    clientOpen: bool,
    typed: seq<byte>,
    size: Size)

  const DEFAULT_SIZE := Size(80, 24)

  const INITIAL: Session :=
    Session([], None, None, Reading, [], true, Selecting, [], [], true, [], DEFAULT_SIZE)

  datatype Event =
    | PtyReads(chunk: seq<byte>)
    | PtyEnds
    | PtyFails(text: string)
    | ReaderSends
    | ReaderRefused
    | ChildExits(code: i32)
    | DriverTakes
    | SinkAccepts
    | SinkFails
    | ClientSends(message: Incoming, resizeWorks: bool)
    | ClientFails
    | ClientEnds
    | PtyAccepts(count: nat)
    | PtyRejects
    | BothEnd
    | ReceiverDropped

  predicate Enabled(s: Session, e: Event) {
    match e
    case PtyReads(chunk) => s.reader == Reading && 0 < |chunk| <= BUFFER
    case PtyEnds => s.reader == Reading
    case PtyFails(_) => s.reader == Reading
    case ReaderSends => s.reader.Offering? && s.listening && |s.channel| < CAPACITY
    case ReaderRefused => s.reader.Offering? && !s.listening
    case ChildExits(_) => s.reader == Waiting
    case DriverTakes => s.driver == Selecting && s.channel != []
    case SinkAccepts => s.driver.Sending?
    case SinkFails => s.driver.Sending?
    case ClientSends(_, _) => s.driver == Selecting && s.clientOpen
    case ClientFails => s.driver == Selecting && s.clientOpen
    case ClientEnds => s.driver == Selecting && s.clientOpen
    case PtyAccepts(n) => s.driver.Writing? && 0 < n <= |s.driver.rest|
    case PtyRejects => s.driver.Writing?
    case BothEnd => s.driver == Selecting && !s.clientOpen && s.channel == [] && s.reader == Done
    case ReceiverDropped => s.driver.Stopped? && s.listening
  }

  /** Where the reading task goes after its message was taken. */
  function AfterOffer(m: ServerMessage): Reader {
    match m
    case Output(_) => Reading
    case Error(_) => Waiting
    case Exited(_) => Done
  }

  /** Where it goes after the channel was found closed. */
  function AfterRefusal(m: ServerMessage): Reader {
    if m.Exited? then Done else Waiting
  }

  /** What an incoming message asks for. */
  datatype Request = Type(data: seq<byte>) | SetSize(size: Size) | Reply(out: Outgoing) | Quit | Ignore

  function Meaning(message: Incoming): (r: Request)
    ensures r.Reply? ==> !r.out.Relayed?
  {
    match message
    case Binary(frame) =>
      (match DecodeClient(frame)
       case Ok(Input(data)) => Type(data)
       case Ok(Resize(size)) => SetSize(size)
       case Err(error) => Reply(Refused(error)))
    case Text(text) => Type(Utf8.Encode(text))
    case Close => Quit
    case Ping(data) => Reply(Ponged(data))
    case Pong => Ignore
  }

  /** `write_all` of nothing returns at once. */
  function Apply(s: Session, request: Request, resizeWorks: bool): Session {
    match request
    case Type(data) => if data == [] then s else s.(driver := Writing(data))
    case SetSize(size) => if resizeWorks then s.(size := size) else s.(driver := Stopped(false, []))
    case Reply(out) => s.(driver := Sending(out))
    case Quit => s.(driver := Stopped(true, []))
    case Ignore => s
  }

  function OnClient(s: Session, message: Incoming, resizeWorks: bool): Session {
    Apply(s.(received := s.received + [message]), Meaning(message), resizeWorks)
  }

  function OnSinkAccepts(s: Session, out: Outgoing): Session {
    var t := s.(sent := s.sent + [out]);
    if out.Relayed? && out.message.Exited? then t.(driver := Stopped(true, [])) else t.(driver := Selecting)
  }

  function OnPtyAccepts(s: Session, rest: seq<byte>, n: nat): Session
    requires n <= |rest|
  {
    s.(typed := s.typed + rest[..n],
       driver := if n == |rest| then Selecting else Writing(rest[n..]))
  }

  function Handle(s: Session, e: Event): Session
    requires Enabled(s, e)
  {
    match e
    case PtyReads(chunk) => s.(chunks := s.chunks + [chunk], reader := Offering(Output(chunk)))
    case PtyEnds => s.(reader := Waiting)
    case PtyFails(text) => s.(failure := Some(text), reader := Offering(Error(text)))
    case ReaderSends =>
      s.(channel := s.channel + [s.reader.message], reader := AfterOffer(s.reader.message))
    case ReaderRefused => s.(reader := AfterRefusal(s.reader.message))
    case ChildExits(code) => s.(code := Some(code), reader := Offering(Exited(code)))
    case DriverTakes => s.(driver := Sending(Relayed(s.channel[0])), channel := s.channel[1..])
    case SinkAccepts => OnSinkAccepts(s, s.driver.out)
    case SinkFails => s.(driver := Stopped(false, [s.driver.out]))
    case ClientSends(message, resizeWorks) => OnClient(s, message, resizeWorks)
    case ClientFails => s.(driver := Stopped(false, []))
    case ClientEnds => s.(clientOpen := false)
    case PtyAccepts(n) => OnPtyAccepts(s, s.driver.rest, n)
    case PtyRejects => s.(driver := Stopped(false, []))
    case BothEnd => s.(driver := Stopped(true, []))
    case ReceiverDropped => s.(listening := false)
  }

  /** An event that cannot happen is skipped, so every sequence is a run. */
  function Step(s: Session, e: Event): Session {
    if Enabled(s, e) then Handle(s, e) else s
  }

  function Exec(s: Session, events: seq<Event>): Session {
    if events == [] then s else Step(Exec(s, events[..|events| - 1]), events[|events| - 1])
  }

  function After(events: seq<Event>): Session {
    Exec(INITIAL, events)
  }

  // ---- Specification: from the PTY to the socket ---------------------------------------

  function Outputs(chunks: seq<seq<byte>>): seq<ServerMessage> {
    seq(|chunks|, i requires 0 <= i < |chunks| => Output(chunks[i]))
  }

  /** Every message the reading task made: outputs, at most one error, then at
      most one exit. */
  function Produced(s: Session): seq<ServerMessage> {
    Outputs(s.chunks) + Ending(s.failure, s.code)
  }

  function Ending(failure: Option<string>, code: Option<i32>): seq<ServerMessage> {
    (if failure.Some? then [Error(failure.value)] else [])
    + (if code.Some? then [Exited(code.value)] else [])
  }

  /** The messages of the reading task among those sent. */
  function OfReader(sent: seq<Outgoing>): seq<ServerMessage> {
    if sent == [] then
      []
    else
      var last := sent[|sent| - 1];
      OfReader(sent[..|sent| - 1]) + (if last.Relayed? then [last.message] else [])
  }

  /** The answers to the client among those sent. */
  function Answers(sent: seq<Outgoing>): seq<Outgoing> {
    if sent == [] then
      []
    else
      var last := sent[|sent| - 1];
      Answers(sent[..|sent| - 1]) + Unrelayed(last)
  }

  lemma FilterAppend(sent: seq<Outgoing>, out: Outgoing)
    ensures OfReader(sent + [out]) == OfReader(sent) + (if out.Relayed? then [out.message] else [])
    ensures Answers(sent + [out]) == Answers(sent) + Unrelayed(out)
  {
    assert (sent + [out])[..|sent|] == sent;
  }

  function InHand(d: Driver): seq<ServerMessage> {
    match d
    case Sending(Relayed(m)) => [m]
    case Stopped(_, unsent) => OfReader(unsent)
    case _ => []
  }

  function Offered(r: Reader): seq<ServerMessage> {
    if r.Offering? then [r.message] else []
  }

  /** All payload bytes of output messages. */
  function Payload(messages: seq<ServerMessage>): seq<byte> {
    if messages == [] then
      []
    else
      var last := messages[|messages| - 1];
      Payload(messages[..|messages| - 1]) + (if last.Output? then last.data else [])
  }

  function Concat(chunks: seq<seq<byte>>): seq<byte> {
    if chunks == [] then [] else Concat(chunks[..|chunks| - 1]) + chunks[|chunks| - 1]
  }

  // ---- Specification: from the client to the PTY -----------------------------------------

  function TypingOf(request: Request): seq<byte> {
    if request.Type? then request.data else []
  }

  /** The bytes the client asked to type, in order. */
  function Typed(received: seq<Incoming>): seq<byte> {
    if received == [] then
      []
    else
      Typed(received[..|received| - 1]) + TypingOf(Meaning(received[|received| - 1]))
  }

  function SizeAfter(size: Size, request: Request): Size {
    if request.SetSize? then request.size else size
  }

  /** The last size the client asked for. */
  function FinalSize(received: seq<Incoming>): Size {
    if received == [] then
      DEFAULT_SIZE
    else
      SizeAfter(FinalSize(received[..|received| - 1]), Meaning(received[|received| - 1]))
  }

  function AnswerTo(request: Request): seq<Outgoing> {
    if request.Reply? then [request.out] else []
  }

  /** The answers the client is owed, in order. */
  function Owed(received: seq<Incoming>): seq<Outgoing> {
    if received == [] then [] else Owed(received[..|received| - 1]) + AnswerTo(Meaning(received[|received| - 1]))
  }

  lemma ReceiveAppend(received: seq<Incoming>, m: Incoming, request: Request)
    requires request == Meaning(m)
    ensures Typed(received + [m]) == Typed(received) + TypingOf(request)
    ensures Owed(received + [m]) == Owed(received) + AnswerTo(request)
    ensures FinalSize(received + [m]) == SizeAfter(FinalSize(received), request)
  {
    assert (received + [m])[..|received|] == received;
  }

  // ---- Invariant ---------------------------------------------------------------------------

  predicate ReaderOk(s: Session) {
    match s.reader
    case Reading => s.failure.None? && s.code.None?
    case Offering(Output(data)) =>
      s.failure.None? && s.code.None? && s.chunks != [] && s.chunks[|s.chunks| - 1] == data
    case Offering(Error(text)) => s.failure == Some(text) && s.code.None?
    case Offering(Exited(code)) => s.code == Some(code)
    case Waiting => s.code.None?
    case Done => s.code.Some?
  }

  /** The messages of the reading task that got past `tx.send`. */
  function Through(s: Session): seq<ServerMessage> {
    OfReader(s.sent) + InHand(s.driver) + s.channel
  }

  /** No message is lost, doubled or overtaken while the channel is open; when it
      is gone, what got through is a prefix. */
  predicate Conserved(s: Session) {
    if s.listening then
      Through(s) + Offered(s.reader) == Produced(s)
    else
      Through(s) <= Produced(s) && |Through(s)| + |Offered(s.reader)| <= |Produced(s)|
  }

  /** An exit is the last thing ever sent. */
  predicate ExitLast(s: Session) {
    && (forall i :: 0 <= i < |s.sent| - 1 ==> !IsExit(s.sent[i]))
    && (s.sent != [] && IsExit(s.sent[|s.sent| - 1]) ==> s.driver.Stopped? && s.driver.unsent == [])
    && (s.driver.Stopped? ==> |s.driver.unsent| <= 1)
  }

  predicate IsExit(out: Outgoing) {
    out.Relayed? && out.message.Exited?
  }

  /** What the client wanted against what it got, at each point of the loop. */
  predicate Serves(driver: Driver, typed: seq<byte>, size: Size, answers: seq<Outgoing>,
                   wanted: seq<byte>, lastSize: Size, owed: seq<Outgoing>)
  {
    match driver
    case Selecting => typed == wanted && size == lastSize && answers == owed
    case Sending(out) => typed == wanted && size == lastSize && answers + Unrelayed(out) == owed
    case Writing(rest) => rest != [] && typed + rest == wanted && size == lastSize && answers == owed
    case Stopped(_, _) => typed <= wanted && answers <= owed
  }

  function Unrelayed(out: Outgoing): seq<Outgoing> {
    if out.Relayed? then [] else [out]
  }

  predicate ClientOk(s: Session) {
    Serves(s.driver, s.typed, s.size, Answers(s.sent), Typed(s.received), FinalSize(s.received), Owed(s.received))
  }

  /** The way from the PTY to the socket. */
  predicate FlowOk(s: Session) {
    && ReaderOk(s)
    && Conserved(s)
    && |s.channel| <= CAPACITY
    && (!s.listening ==> s.driver.Stopped?)
    && (forall i :: 0 <= i < |s.chunks| ==> 0 < |s.chunks[i]| <= BUFFER)
  }

  predicate Inv(s: Session) {
    FlowOk(s) && ExitLast(s) && ClientOk(s)
  }

  // ---- The flow ----------------------------------------------------------------------------

  /** What the reading task got from the PTY it offers next. */
  lemma ProducedStep(s: Session, e: Event)
    requires ReaderOk(s) && Enabled(s, e)
    requires e.PtyReads? || e.PtyEnds? || e.PtyFails? || e.ChildExits?
    ensures Produced(Handle(s, e)) == Produced(s) + Offered(Handle(s, e).reader)
    ensures Offered(s.reader) == []
  {
    if e.PtyReads? {
      assert Outputs(s.chunks + [e.chunk]) == Outputs(s.chunks) + [Output(e.chunk)];
    }
  }

  lemma ReaderFlow(s: Session, e: Event)
    requires FlowOk(s) && Enabled(s, e)
    requires e.PtyReads? || e.PtyEnds? || e.PtyFails? || e.ChildExits? || e.ReaderSends? || e.ReaderRefused?
    ensures FlowOk(Handle(s, e))
  {
    var t := Handle(s, e);
    if e.ReaderSends? {
      assert Through(t) == Through(s) + Offered(s.reader);
    } else {
      assert Through(t) == Through(s);
      if !e.ReaderRefused? {
        ProducedStep(s, e);
      }
    }
  }

  /** A step of the serving task that leaves what got through as it was. */
  lemma DriverFlow(s: Session, t: Session)
    requires FlowOk(s) && |t.channel| <= |s.channel|
    requires t.chunks == s.chunks && t.failure == s.failure && t.code == s.code && t.reader == s.reader
    requires t.listening ==> s.listening
    requires !t.listening ==> t.driver.Stopped?
    requires Through(t) == Through(s)
    ensures FlowOk(t)
  {
  }

  lemma TakeFlow(s: Session)
    requires FlowOk(s) && Enabled(s, DriverTakes)
    ensures FlowOk(Handle(s, DriverTakes))
  {
    var t := Handle(s, DriverTakes);
    assert s.channel == InHand(t.driver) + t.channel;
    assert Through(t) == Through(s);
    DriverFlow(s, t);
  }

  lemma SentOnce(s: Session, out: Outgoing, t: Session)
    requires s.driver == Sending(out) && t.sent == s.sent + [out] && t.channel == s.channel
    requires t.driver == Selecting || t.driver == Stopped(true, [])
    ensures Through(t) == Through(s)
  {
    FilterAppend(s.sent, out);
    assert OfReader(t.sent) + InHand(t.driver) == OfReader(s.sent) + InHand(s.driver);
  }

  lemma SinkAcceptsFlow(s: Session)
    requires FlowOk(s) && s.driver.Sending?
    ensures FlowOk(Handle(s, SinkAccepts))
  {
    var t := OnSinkAccepts(s, s.driver.out);
    SentOnce(s, s.driver.out, t);
    DriverFlow(s, t);
  }

  lemma SinkFailsFlow(s: Session)
    requires FlowOk(s) && s.driver.Sending?
    ensures FlowOk(Handle(s, SinkFails))
  {
    var t := Handle(s, SinkFails);
    FilterAppend([], s.driver.out);
    assert [] + [s.driver.out] == [s.driver.out];
    assert InHand(t.driver) == InHand(s.driver);
    assert Through(t) == Through(s);
    DriverFlow(s, t);
  }

  lemma QuietFlow(s: Session, e: Event)
    requires FlowOk(s) && Enabled(s, e)
    requires e.ClientFails? || e.ClientEnds? || e.PtyAccepts? || e.PtyRejects? || e.BothEnd? || e.ReceiverDropped?
    ensures FlowOk(Handle(s, e))
  {
    var t := Handle(s, e);
    assert t.sent == s.sent && t.channel == s.channel;
    assert e.ReceiverDropped? ==> t.driver == s.driver;
    assert InHand(t.driver) == InHand(s.driver);
    DriverFlow(s, t);
  }

  lemma RequestFlow(s: Session, received: seq<Incoming>, request: Request, resizeWorks: bool)
    requires FlowOk(s) && s.driver == Selecting
    requires request.Reply? ==> !request.out.Relayed?
    ensures FlowOk(Apply(s.(received := received), request, resizeWorks))
  {
    var t := Apply(s.(received := received), request, resizeWorks);
    assert InHand(t.driver) == [];
    assert Through(t) == Through(s);
    DriverFlow(s, t);
  }

  // ---- The client's side -----------------------------------------------------------------------

  lemma RequestServes(s: Session, answers: seq<Outgoing>, wanted: seq<byte>, lastSize: Size, owed: seq<Outgoing>,
                      request: Request, resizeWorks: bool)
    requires s.driver == Selecting && Serves(Selecting, s.typed, s.size, answers, wanted, lastSize, owed)
    requires request.Reply? ==> !request.out.Relayed?
    ensures var t := Apply(s, request, resizeWorks);
            Serves(t.driver, t.typed, t.size, answers,
                   wanted + TypingOf(request), SizeAfter(lastSize, request), owed + AnswerTo(request))
  {
  }

  lemma PtyAcceptsServes(s: Session, n: nat, answers: seq<Outgoing>, wanted: seq<byte>, lastSize: Size,
                         owed: seq<Outgoing>)
    requires Enabled(s, PtyAccepts(n))
    requires Serves(s.driver, s.typed, s.size, answers, wanted, lastSize, owed)
    ensures var t := Handle(s, PtyAccepts(n));
            && t.received == s.received && t.sent == s.sent
            && Serves(t.driver, t.typed, t.size, answers, wanted, lastSize, owed)
  {
    var rest := s.driver.rest;
    assert rest == rest[..n] + rest[n..];
    assert s.typed + rest == s.typed + rest[..n] + rest[n..];
  }

  /** The other steps of both tasks, on the values they touch. */
  lemma OthersServe(s: Session, e: Event, answers: seq<Outgoing>, wanted: seq<byte>, lastSize: Size,
                    owed: seq<Outgoing>)
    requires Enabled(s, e) && !e.ClientSends? && !e.PtyAccepts?
    requires Serves(s.driver, s.typed, s.size, answers, wanted, lastSize, owed)
    ensures var t := Handle(s, e);
            && t.received == s.received
            && (!e.SinkAccepts? ==> t.sent == s.sent)
            && (e.SinkAccepts? ==> s.driver.Sending? && t.sent == s.sent + [s.driver.out])
            && Serves(t.driver, t.typed, t.size, if e.SinkAccepts? then answers + Unrelayed(s.driver.out) else answers,
                      wanted, lastSize, owed)
  {
  }

  lemma ExitStaysLast(s: Session, e: Event)
    requires ExitLast(s) && Enabled(s, e) && !e.ClientSends?
    ensures ExitLast(Handle(s, e))
  {
  }

  lemma RequestExitLast(s: Session, request: Request, resizeWorks: bool)
    requires ExitLast(s) && s.driver == Selecting
    ensures ExitLast(Apply(s, request, resizeWorks))
  {
  }

  lemma ClientKeeps(s: Session, message: Incoming, resizeWorks: bool)
    requires Inv(s) && s.driver == Selecting
    ensures Inv(OnClient(s, message, resizeWorks))
  {
    var request, t := Meaning(message), s.(received := s.received + [message]);
    ReceiveAppend(s.received, message, request);
    RequestFlow(s, t.received, request, resizeWorks);
    RequestExitLast(t, request, resizeWorks);
    RequestServes(t, Answers(s.sent), Typed(s.received), FinalSize(s.received), Owed(s.received), request, resizeWorks);
  }

  lemma DriverKeeps(s: Session, e: Event)
    requires Inv(s) && Enabled(s, e) && !e.ClientSends?
    ensures ExitLast(Handle(s, e)) && ClientOk(Handle(s, e))
  {
    ExitStaysLast(s, e);
    if e.SinkAccepts? {
      FilterAppend(s.sent, s.driver.out);
    }
    if e.PtyAccepts? {
      PtyAcceptsServes(s, e.count, Answers(s.sent), Typed(s.received), FinalSize(s.received), Owed(s.received));
    } else {
      OthersServe(s, e, Answers(s.sent), Typed(s.received), FinalSize(s.received), Owed(s.received));
    }
  }

  lemma StepKeeps(s: Session, e: Event)
    requires Inv(s)
    ensures Inv(Step(s, e))
  {
    if Enabled(s, e) {
      if e.ClientSends? {
        ClientKeeps(s, e.message, e.resizeWorks);
      } else {
        DriverKeeps(s, e);
        if e.PtyReads? || e.PtyEnds? || e.PtyFails? || e.ChildExits? || e.ReaderSends? || e.ReaderRefused? {
          ReaderFlow(s, e);
        } else if e.DriverTakes? {
          TakeFlow(s);
        } else if e.SinkAccepts? {
          SinkAcceptsFlow(s);
        } else if e.SinkFails? {
          SinkFailsFlow(s);
        } else {
          QuietFlow(s, e);
        }
      }
    }
  }

  lemma {:induction false} ExecKeeps(s: Session, events: seq<Event>)
    requires Inv(s)
    ensures Inv(Exec(s, events))
  {
    if events != [] {
      ExecKeeps(s, events[..|events| - 1]);
      StepKeeps(Exec(s, events[..|events| - 1]), events[|events| - 1]);
    }
  }

  /** The invariant holds over every interleaving. */
  lemma AlwaysInv(events: seq<Event>)
    ensures Inv(After(events))
  {
    ExecKeeps(INITIAL, events);
  }
}
