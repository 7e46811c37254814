/** The receiving side of the command-line client: what it prints and when it stops. */
module CommandLine {
  import opened Common
  import opened Protocol
  import Decimal
  import P = ProtocolExact
  import Utf8

  /** What arrives on the client's socket. */
  datatype Arrival = Binary(frame: seq<byte>) | Text(text: string) | Close | Control | Broken

  datatype ClientError = Undecodable(error: DecodeError) | ServerSaid(text: string) | Disconnected | OutputBroken

  /** `Listening` at the end of the stream is a normal end. */
  datatype Outcome = Listening | RemoteExited | Closed | Failed(error: ClientError)

  datatype Terminal = Terminal(printed: seq<byte>, outcome: Outcome)

  const FRESH := Terminal([], Listening)

  function ExitNotice(code: i32): seq<byte> {
    Utf8.Encode("\r\nRemote exited with code " + Decimal.PrintSigned(code) + "\r\n")
  }

  /** One message of the server. */
  function React(t: Terminal, m: ServerMessage): Terminal {
    if t.outcome != Listening then
      t
    else
      match m
      case Output(data) => t.(printed := t.printed + data)
      case Error(text) => t.(outcome := Failed(ServerSaid(text)))
      case Exited(code) => Terminal(t.printed + ExitNotice(code), RemoteExited)
  }

  function Step(t: Terminal, a: Arrival): Terminal {
    if t.outcome != Listening then
      t
    else
      match a
      case Binary(frame) =>
        (match DecodeServer(frame)
         case Ok(m) => React(t, m)
         case Err(error) => t.(outcome := Failed(Undecodable(error))))
      case Text(text) => t.(printed := t.printed + Utf8.Encode(text))
      case Close => t.(outcome := Closed)
      case Control => t
      case Broken => t.(outcome := Failed(Disconnected))
  }

  function After(arrivals: seq<Arrival>): Terminal {
    if arrivals == [] then FRESH else Step(After(arrivals[..|arrivals| - 1]), arrivals[|arrivals| - 1])
  }

  function AfterMessages(messages: seq<ServerMessage>): Terminal {
    if messages == [] then
      FRESH
    else
      React(AfterMessages(messages[..|messages| - 1]), messages[|messages| - 1])
  }

  lemma OneMoreMessage(messages: seq<ServerMessage>, m: ServerMessage)
    ensures AfterMessages(messages + [m]) == React(AfterMessages(messages), m)
  {
    assert (messages + [m])[..|messages|] == messages;
  }

  /** Once it stopped, the client reads nothing more. */
  lemma {:induction false} StoppedForGood(arrivals: seq<Arrival>, n: nat)
    requires n <= |arrivals| && After(arrivals[..n]).outcome != Listening
    ensures After(arrivals) == After(arrivals[..n])
  {
    if n < |arrivals| {
      assert arrivals[..|arrivals| - 1][..n] == arrivals[..n];
      StoppedForGood(arrivals[..|arrivals| - 1], n);
    } else {
      assert arrivals[..n] == arrivals;
    }
  }

  lemma FrameReacts(t: Terminal, m: ServerMessage)
    ensures Step(t, Binary(ServerFrame(m))) == React(t, m)
  {
    ServerRoundTrip(m);
  }

  /** The printed bytes only grow. */
  lemma StepPrints(t: Terminal, a: Arrival)
    ensures t.printed <= Step(t, a).printed
  {
  }

  lemma {:induction false} PrintsGrow(arrivals: seq<Arrival>, n: nat)
    requires n <= |arrivals|
    ensures After(arrivals[..n]).printed <= After(arrivals).printed
  {
    if n == |arrivals| {
      assert arrivals[..n] == arrivals;
    } else {
      var front := arrivals[..|arrivals| - 1];
      assert front[..n] == arrivals[..n];
      PrintsGrow(front, n);
      StepPrints(After(front), arrivals[|arrivals| - 1]);
    }
  }

  /** What a standard output with `room` bytes left shows of a wanted terminal. */
  function Limited(t: Terminal, room: nat): Terminal {
    if |t.printed| <= room then t else Terminal(t.printed[..room], Failed(OutputBroken))
  }

  function OutcomeOf(stop: Result<bool, ClientError>): Outcome {
    match stop
    case Ok(exited) => if exited then RemoteExited else Listening
    case Err(error) => Failed(error)
  }

  // ---- By the bytes ----------------------------------------------------------------------

  /** The fixed text around a decimal number that reads as the code. */
  ghost predicate IsExitNotice(printed: seq<byte>, code: i32) {
    exists number ::
      && Decimal.ParseI32(number) == Some(code)
      && printed == Utf8.Encode("\r\nRemote exited with code " + number + "\r\n")
  }

  lemma NoticeReads(code: i32)
    ensures IsExitNotice(ExitNotice(code), code)
    ensures Utf8.Lossy(ExitNotice(code)) == "\r\nRemote exited with code " + Decimal.PrintSigned(code) + "\r\n"
    ensures if code < 0 then Decimal.PrintSigned(code)[0] == '-' && Decimal.Canonical(Decimal.PrintSigned(code)[1..])
            else Decimal.Canonical(Decimal.PrintSigned(code))
  {
    Decimal.ParsesPrintedI32(code);
    Decimal.PrintReads(Decimal.Abs(code));
    Utf8.RoundTrip("\r\nRemote exited with code " + Decimal.PrintSigned(code) + "\r\n");
  }

  /** Different codes are announced by different bytes. */
  lemma NoticesDiffer(printed: seq<byte>, a: i32, b: i32)
    requires IsExitNotice(printed, a) && IsExitNotice(printed, b)
    ensures a == b
  {
    var front, back := "\r\nRemote exited with code ", "\r\n";
    var x :| Decimal.ParseI32(x) == Some(a) && printed == Utf8.Encode(front + x + back);
    var y :| Decimal.ParseI32(y) == Some(b) && printed == Utf8.Encode(front + y + back);
    Utf8.Injective(front + x + back, front + y + back);
    assert (front + x + back)[|front|..|front| + |x|] == x;
    assert |x| == |y| && (front + y + back)[|front|..|front| + |y|] == y;
  }

  /** The client goes on after this arrival. */
  predicate GoesOn(a: Arrival) {
    a.Text? || a.Control? || (a.Binary? && a.frame != [] && a.frame[0] == 2)
  }

  /** What such an arrival prints. */
  function Adds(a: Arrival): seq<byte> {
    match a
    case Text(text) => Utf8.Encode(text)
    case Binary(frame) => if frame == [] then [] else frame[1..]
    case _ => []
  }

  function AllAdds(arrivals: seq<Arrival>): seq<byte> {
    if arrivals == [] then [] else AllAdds(arrivals[..|arrivals| - 1]) + Adds(arrivals[|arrivals| - 1])
  }

  /** How the client ends on an arrival after it printed the given bytes. */
  ghost predicate EndsBy(a: Arrival, printed: seq<byte>, t: Terminal) {
    match a
    case Close => t == Terminal(printed, Closed)
    case Broken => t == Terminal(printed, Failed(Disconnected))
    case Binary(frame) =>
      if frame == [] then
        t == Terminal(printed, Failed(Undecodable(EmptyFrame)))
      else if frame[0] == 3 then
        t == Terminal(printed, Failed(ServerSaid(Utf8.Lossy(frame[1..]))))
      else if frame[0] != 4 then
        t == Terminal(printed, Failed(Undecodable(UnknownPrefix(frame[0]))))
      else
        (exists code: i32 ::
           && P.Reads(Utf8.Lossy(frame[1..]), code) && t.outcome == RemoteExited
           && printed <= t.printed && IsExitNotice(t.printed[|printed|..], code))
        || ((forall code: i32 :: !P.Reads(Utf8.Lossy(frame[1..]), code))
            && t == Terminal(printed, Failed(Undecodable(InvalidExitCode))))
    case _ => false
  }

  lemma {:induction false} PrintsAll(arrivals: seq<Arrival>)
    requires forall i :: 0 <= i < |arrivals| ==> GoesOn(arrivals[i])
    ensures After(arrivals) == Terminal(AllAdds(arrivals), Listening)
  {
    if arrivals != [] {
      var front, last := arrivals[..|arrivals| - 1], arrivals[|arrivals| - 1];
      PrintsAll(front);
      assert GoesOn(last);
      assert last.Text? ==> AllAdds(arrivals) == AllAdds(front) + Utf8.Encode(last.text);
    }
  }

  lemma EndsHere(a: Arrival, printed: seq<byte>)
    requires !GoesOn(a)
    ensures EndsBy(a, printed, Step(Terminal(printed, Listening), a))
    ensures Step(Terminal(printed, Listening), a).outcome != Listening
  {
    if a.Binary? && a.frame != [] && a.frame[0] == 4 {
      ExitFrameEnds(a.frame, printed);
    }
  }

  lemma ExitFrameEnds(frame: seq<byte>, printed: seq<byte>)
    requires frame != [] && frame[0] == 4
    ensures EndsBy(Binary(frame), printed, Step(Terminal(printed, Listening), Binary(frame)))
    ensures Step(Terminal(printed, Listening), Binary(frame)).outcome != Listening
  {
    var payload := Utf8.Lossy(frame[1..]);
    if Decimal.ParseI32(payload).Some? {
      var code := Decimal.ParseI32(payload).value;
      P.ParseExactly(payload, code);
      NoticeEnds(printed, code);
    } else {
      forall n: i32 ensures !P.Reads(payload, n) {
        P.ParseExactly(payload, n);
      }
    }
  }

  lemma NoticeEnds(printed: seq<byte>, code: i32)
    ensures var t := React(Terminal(printed, Listening), Exited(code));
            && t.outcome == RemoteExited && printed <= t.printed
            && IsExitNotice(t.printed[|printed|..], code)
  {
    NoticeReads(code);
    assert (printed + ExitNotice(code))[|printed|..] == ExitNotice(code);
  }

  /** The client prints outputs and texts as they come, and the first other arrival
      that is no ping or pong ends it: a close, the loss of the connection, the exit
      with its code, the server's error with its text, or a frame it cannot decode. */
  lemma FirstEndDecides(before: seq<Arrival>, a: Arrival, rest: seq<Arrival>)
    requires forall i :: 0 <= i < |before| ==> GoesOn(before[i])
    requires !GoesOn(a)
    ensures EndsBy(a, AllAdds(before), After(before + [a] + rest))
  {
    var n, all := |before| + 1, before + [a] + rest;
    PrintsAll(before);
    EndsHere(a, AllAdds(before));
    assert all[..n] == before + [a] && (before + [a])[..|before|] == before;
    StoppedForGood(all, n);
  }

  /** Standard output with its buffer; it breaks after `room` bytes. */
  class Client {
    const room: nat
    var buffered: seq<byte>
    var shown: seq<byte>

    ghost predicate Flushed()
      reads this
    {
      buffered == [] && |shown| <= room
    }

    constructor (room: nat)
      ensures Flushed() && shown == [] && this.room == room
    {
      this.room := room;
      buffered, shown := [], [];
    }

    /** Every write is flushed at once: nothing is held back. A standard output that
        breaks has shown what it had room for. */
    method WriteServerOutput(output: seq<byte>) returns (ok: bool)
      requires Flushed()
      modifies this
      ensures Flushed()
      ensures ok <==> |old(shown)| + |output| <= room
      ensures shown == if ok then old(shown) + output else (old(shown) + output)[..room]
    {
      ok := |shown| + |output| <= room;
      buffered := buffered + (if ok then output else output[..room - |shown|]);
      shown := shown + buffered;
      buffered := [];
    }

    /** Whether to stop, or why the client fails. */
    method HandleServerFrame(frame: seq<byte>) returns (stop: Result<bool, ClientError>)
      requires Flushed()
      modifies this
      ensures Flushed()
      ensures Terminal(shown, OutcomeOf(stop)) == Limited(Step(Terminal(old(shown), Listening), Binary(frame)), room)
    {
      match DecodeServer(frame) {
        case Ok(Output(output)) =>
          var ok := WriteServerOutput(output);
          return if ok then Ok(false) else Err(OutputBroken);
        case Ok(Error(text)) =>
          return Err(ServerSaid(text));
        case Ok(Exited(code)) =>
          var ok := WriteServerOutput(ExitNotice(code));
          return if ok then Ok(true) else Err(OutputBroken);
        case Err(error) =>
          return Err(Undecodable(error));
      }
    }

    /** One turn of the loop. */
    method Handle(arrival: Arrival) returns (outcome: Outcome)
      requires Flushed()
      modifies this
      ensures Flushed()
      ensures Terminal(shown, outcome) == Limited(Step(Terminal(old(shown), Listening), arrival), room)
    {
      outcome := Listening;
      match arrival {
        case Binary(frame) =>
          var stop := HandleServerFrame(frame);
          outcome := OutcomeOf(stop);
        case Text(text) =>
          var ok := WriteServerOutput(Utf8.Encode(text));
          outcome := if ok then Listening else Failed(OutputBroken);
        case Close => outcome := Closed;
        case Control =>
        case Broken => outcome := Failed(Disconnected);
      }
    }

    /** The receiving loop, over everything that would arrive: it ends as wanted if
        standard output has room for all that is to be printed, and otherwise fails
        having shown what there was room for. */
    method Receive(arrivals: seq<Arrival>) returns (outcome: Outcome)
      requires Flushed() && shown == []
      modifies this
      ensures Flushed() && Terminal(shown, outcome) == Limited(After(arrivals), room)
    {
      outcome := Listening;
      var i := 0;
      while i < |arrivals| && outcome == Listening
        invariant i <= |arrivals| && Flushed()
        invariant Terminal(shown, outcome) == Limited(After(arrivals[..i]), room)
      {
        assert arrivals[..i + 1][..i] == arrivals[..i];
        outcome := Handle(arrivals[i]);
        i := i + 1;
      }
      if outcome == Listening {
        assert arrivals[..i] == arrivals;
      } else {
        LimitedStops(arrivals, i, room);
      }
    }
  }

  /** Once stopped, for whatever reason, nothing later matters. */
  lemma LimitedStops(arrivals: seq<Arrival>, n: nat, room: nat)
    requires n <= |arrivals| && Limited(After(arrivals[..n]), room).outcome != Listening
    ensures Limited(After(arrivals), room) == Limited(After(arrivals[..n]), room)
  {
    PrintsGrow(arrivals, n);
    if |After(arrivals[..n]).printed| <= room {
      StoppedForGood(arrivals, n);
    } else {
      LimitedAlike(After(arrivals[..n]), After(arrivals), room);
    }
  }

  lemma LimitedAlike(t: Terminal, u: Terminal, room: nat)
    requires t.printed <= u.printed && |t.printed| > room
    ensures Limited(t, room) == Limited(u, room)
  {
    assert t.printed[..room] == u.printed[..room];
  }
}
