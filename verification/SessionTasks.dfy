/** The two tasks of a session as an object: the reading task with its one reused
    buffer, the channel, and the serving task, one method per step between two
    suspension points. Every method is proved against the transition system. */
module SessionTasks {
  import opened Common
  import opened Protocol
  import opened Session
  import Utf8

  class Tasks {
    const buf: array<byte>

    ghost var chunks: seq<seq<byte>>
    ghost var failure: Option<string>
    ghost var code: Option<i32>
    ghost var received: seq<Incoming>
    var reader: Reader
    var channel: seq<ServerMessage>
    var listening: bool
    var driver: Driver
    var sent: seq<Outgoing>
    var clientOpen: bool
    var typed: seq<byte>
    var size: Size

    ghost function View(): Session
      reads this
    {
      Session(chunks, failure, code, reader, channel, listening, driver, sent, received, clientOpen, typed, size)
    }

    ghost predicate Valid()
      reads this
    {
      buf.Length == BUFFER && Inv(View())
    }

    constructor ()
      ensures Valid() && View() == INITIAL && fresh(buf)
    {
      buf := new byte[BUFFER];
      chunks, failure, code, received := [], None, None, [];
      reader, channel, listening := Reading, [], true;
      driver, sent := Selecting, [];
      clientOpen, typed, size := true, [], DEFAULT_SIZE;
      new;
      AlwaysInv([]);
    }

    // ---- The reading task ---------------------------------------------------------------

    /** `read` fills the front of the buffer; the message owns a copy of it, so
        the next read cannot change what is on its way. */
    method Read(chunk: seq<byte>)
      requires Valid() && Enabled(View(), PtyReads(chunk))
      modifies this, buf
      ensures Valid() && View() == Step(old(View()), PtyReads(chunk))
    {
      StepKeeps(View(), PtyReads(chunk));
      for i := 0 to |chunk|
        invariant buf.Length == BUFFER && View() == old(View())
        invariant buf[..i] == chunk[..i]
      {
        buf[i] := chunk[i];
      }
      assert buf[..|chunk|] == chunk;
      reader := Offering(Output(buf[..|chunk|]));
      chunks := chunks + [chunk];
    }

    method ReadEnds()
      requires Valid() && Enabled(View(), PtyEnds)
      modifies this
      ensures Valid() && View() == Step(old(View()), PtyEnds)
    {
      StepKeeps(View(), PtyEnds);
      reader := Waiting;
    }

    method ReadFails(text: string)
      requires Valid() && Enabled(View(), PtyFails(text))
      modifies this
      ensures Valid() && View() == Step(old(View()), PtyFails(text))
    {
      StepKeeps(View(), PtyFails(text));
      failure := Some(text);
      reader := Offering(Error(text));
    }

    /** `tx.send` has room. */
    method Send()
      requires Valid() && Enabled(View(), ReaderSends)
      modifies this
      ensures Valid() && View() == Step(old(View()), ReaderSends)
    {
      StepKeeps(View(), ReaderSends);
      var m := reader.message;
      channel := channel + [m];
      match m {
        case Output(_) => reader := Reading;
        case Error(_) => reader := Waiting;
        case Exited(_) => reader := Done;
      }
    }

    /** `tx.send` finds the receiver gone. */
    method SendRefused()
      requires Valid() && Enabled(View(), ReaderRefused)
      modifies this
      ensures Valid() && View() == Step(old(View()), ReaderRefused)
    {
      StepKeeps(View(), ReaderRefused);
      reader := if reader.message.Exited? then Done else Waiting;
    }

    method ChildExited(status: Option<i32>)
      requires Valid() && Enabled(View(), ChildExits(0))
      modifies this
      ensures Valid()
      ensures View() == Step(old(View()), ChildExits(if status.Some? then status.value else -1))
    {
      var exit: i32 := if status.Some? then status.value else -1;
      StepKeeps(View(), ChildExits(exit));
      code := Some(exit);
      reader := Offering(Exited(exit));
    }

    // ---- The serving task -----------------------------------------------------------------

    method TakeMessage()
      requires Valid() && Enabled(View(), DriverTakes)
      modifies this
      ensures Valid() && View() == Step(old(View()), DriverTakes)
    {
      StepKeeps(View(), DriverTakes);
      driver := Sending(Relayed(channel[0]));
      channel := channel[1..];
    }

    method SendCompletes()
      requires Valid() && Enabled(View(), SinkAccepts)
      modifies this
      ensures Valid() && View() == Step(old(View()), SinkAccepts)
    {
      StepKeeps(View(), SinkAccepts);
      var out := driver.out;
      assert Step(View(), SinkAccepts) == OnSinkAccepts(View(), out);
      var exited := out.Relayed? && out.message.Exited?;
      sent := sent + [out];
      driver := if exited then Stopped(true, []) else Selecting;
    }

    method SendFails()
      requires Valid() && Enabled(View(), SinkFails)
      modifies this
      ensures Valid() && View() == Step(old(View()), SinkFails)
    {
      StepKeeps(View(), SinkFails);
      driver := Stopped(false, [driver.out]);
    }

    method Receive(message: Incoming, resizeWorks: bool)
      requires Valid() && Enabled(View(), ClientSends(message, resizeWorks))
      modifies this
      ensures Valid() && View() == Step(old(View()), ClientSends(message, resizeWorks))
    {
      StepKeeps(View(), ClientSends(message, resizeWorks));
      assert Step(View(), ClientSends(message, resizeWorks)) == OnClient(View(), message, resizeWorks);
      received := received + [message];
      Serve(message, resizeWorks);
    }

    /** One arm per kind of message. */
    method Serve(message: Incoming, resizeWorks: bool)
      requires driver == Selecting
      modifies `driver, `size
      ensures View() == Apply(old(View()), Meaning(message), resizeWorks)
    {
      match message {
        case Binary(frame) => ServeFrame(frame, resizeWorks);
        case Text(text) => StartWrite(Utf8.Encode(text));
        case Close => driver := Stopped(true, []);
        case Ping(data) => driver := Sending(Ponged(data));
        case Pong =>
      }
    }

    method ServeFrame(frame: seq<byte>, resizeWorks: bool)
      requires driver == Selecting
      modifies `driver, `size
      ensures View() == Apply(old(View()), Meaning(Binary(frame)), resizeWorks)
    {
      match DecodeClient(frame) {
        case Ok(Input(data)) => StartWrite(data);
        case Ok(Resize(newSize)) =>
          if resizeWorks {
            size := newSize;
          } else {
            driver := Stopped(false, []);
          }
        case Err(error) => driver := Sending(Refused(error));
      }
    }

    /** `write_all` of nothing is done at once. */
    method StartWrite(data: seq<byte>)
      requires driver == Selecting
      modifies `driver
      ensures driver == if data == [] then Selecting else Writing(data)
    {
      if data != [] {
        driver := Writing(data);
      }
    }

    method WriteSome(count: nat)
      requires Valid() && Enabled(View(), PtyAccepts(count))
      modifies this
      ensures Valid() && View() == Step(old(View()), PtyAccepts(count))
    {
      StepKeeps(View(), PtyAccepts(count));
      var rest := driver.rest;
      typed := typed + rest[..count];
      driver := if count == |rest| then Selecting else Writing(rest[count..]);
    }

    /** The three ways out of the loop that are not an exit or a close. */
    method Fail(e: Event)
      requires Valid() && Enabled(View(), e)
      requires e == ClientFails || e == PtyRejects || e == BothEnd
      modifies this
      ensures Valid() && View() == Step(old(View()), e)
    {
      StepKeeps(View(), e);
      driver := Stopped(e == BothEnd, []);
    }

    method ClientStreamEnds()
      requires Valid() && Enabled(View(), ClientEnds)
      modifies this
      ensures Valid() && View() == Step(old(View()), ClientEnds)
    {
      StepKeeps(View(), ClientEnds);
      clientOpen := false;
    }

    /** `run_socket` returns and drops the receiver. */
    method DropReceiver()
      requires Valid() && Enabled(View(), ReceiverDropped)
      modifies this
      ensures Valid() && View() == Step(old(View()), ReceiverDropped)
    {
      StepKeeps(View(), ReceiverDropped);
      listening := false;
    }
  }
}
