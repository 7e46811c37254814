/** The loops of the PTY crate: writing everything, waiting out the grace period,
    and claiming the cleanup. */
module PtyIo {
  import opened Common

  // ---- write_all ------------------------------------------------------------------------

  /** What one `write` call can answer. */
  datatype Answer = Count(n: nat) | Interrupted | WouldBlock | Broken

  /** How `write_all` stands after the answers so far. */
  datatype Progress = AllWritten | ZeroWrite | WriteFailed | StillWaiting

  function Min(a: nat, b: nat): nat {
    if a < b then a else b
  }

  /** Bytes accepted and outcome for `left` bytes against the given answers. */
  function WriteRun(left: nat, answers: seq<Answer>): (nat, Progress) {
    if left == 0 then
      (0, AllWritten)
    else if answers == [] then
      (0, StillWaiting)
    else
      match answers[0]
      case Interrupted => WriteRun(left, answers[1..])
      case WouldBlock => WriteRun(left, answers[1..])
      case Broken => (0, WriteFailed)
      case Count(n) =>
        if n == 0 then
          (0, ZeroWrite)
        else
          var k := Min(n, left);
          var (more, outcome) := WriteRun(left - k, answers[1..]);
          (k + more, outcome)
  }

  /** No error and no empty write among the answers. */
  predicate Healthy(answers: seq<Answer>) {
    forall i :: 0 <= i < |answers| ==> answers[i] != Broken && answers[i] != Count(0)
  }

  function Offered(answers: seq<Answer>): nat {
    if answers == [] then
      0
    else
      (if answers[0].Count? then answers[0].n else 0) + Offered(answers[1..])
  }

  /** Success means every byte was accepted; anything else stopped short. */
  lemma {:induction false} SuccessIsEverything(left: nat, answers: seq<Answer>)
    ensures WriteRun(left, answers).0 <= left
    ensures WriteRun(left, answers).1 == AllWritten <==> WriteRun(left, answers).0 == left
  {
    if left != 0 && answers != [] {
      match answers[0] {
        case Count(n) => SuccessIsEverything(left - Min(n, left), answers[1..]);
        case _ => SuccessIsEverything(left, answers[1..]);
      }
    }
  }

  predicate RoomAt(left: nat, answers: seq<Answer>, k: nat) {
    k <= |answers| && Healthy(answers[..k]) && Offered(answers[..k]) >= left
  }

  /** Room after one more answer is room for what that answer leaves. */
  lemma RoomStep(left: nat, answers: seq<Answer>, k: nat)
    requires left > 0 && answers != [] && k < |answers|
    ensures RoomAt(left, answers, k + 1) <==>
              && answers[0] != Broken && answers[0] != Count(0)
              && RoomAt(if answers[0].Count? then left - Min(answers[0].n, left) else left, answers[1..], k)
  {
    var first, rest := answers[0], answers[1..];
    assert answers[..k + 1] == [first] + rest[..k];
    assert answers[..k + 1][1..] == rest[..k];
    assert forall i :: 0 <= i < k ==> answers[..k + 1][i + 1] == rest[..k][i];
  }

  /** `write_all` succeeds exactly when, before any error or empty write, the
      answers offer room for all bytes; interrupts and would-blocks do not matter. */
  lemma {:induction false} SucceedsIffRoom(left: nat, answers: seq<Answer>)
    ensures WriteRun(left, answers).1 == AllWritten <==> exists k: nat :: RoomAt(left, answers, k)
  {
    if left == 0 {
      assert RoomAt(left, answers, 0);
    } else if answers != [] {
      var first, rest := answers[0], answers[1..];
      var remaining := if first.Count? then left - Min(first.n, left) else left;
      SucceedsIffRoom(remaining, rest);
      if WriteRun(left, answers).1 == AllWritten {
        var k: nat :| RoomAt(remaining, rest, k);
        RoomStep(left, answers, k);
      }
      if k: nat :| RoomAt(left, answers, k) {
        assert answers[..0] == [];
        RoomStep(left, answers, k - 1);
      }
    }
  }

  /** The answer that ends the write is the k-th: before it all went well and did not
      suffice. */
  predicate EndsAt(left: nat, answers: seq<Answer>, k: nat, answer: Answer) {
    k < |answers| && Healthy(answers[..k]) && Offered(answers[..k]) < left && answers[k] == answer
  }

  ghost predicate EndsBy(left: nat, answers: seq<Answer>, answer: Answer) {
    exists k: nat :: EndsAt(left, answers, k, answer)
  }

  lemma EndStep(left: nat, answers: seq<Answer>, k: nat, answer: Answer)
    requires left > 0 && answers != [] && k + 1 < |answers|
    ensures EndsAt(left, answers, k + 1, answer) <==>
              && answers[0] != Broken && answers[0] != Count(0)
              && (answers[0].Count? ==> answers[0].n < left)
              && EndsAt(if answers[0].Count? then left - Min(answers[0].n, left) else left, answers[1..], k, answer)
  {
    var first, rest := answers[0], answers[1..];
    assert answers[..k + 1] == [first] + rest[..k];
    assert answers[..k + 1][1..] == rest[..k];
    assert forall i :: 0 <= i < k ==> answers[..k + 1][i + 1] == rest[..k][i];
  }

  /** `write_all` fails with the system's error exactly if that error is the first bad
      answer before all bytes are taken, and for a write of nothing exactly if that is. */
  lemma {:induction false} FailsOnFirstBadAnswer(left: nat, answers: seq<Answer>)
    ensures WriteRun(left, answers).1 == WriteFailed <==> EndsBy(left, answers, Broken)
    ensures WriteRun(left, answers).1 == ZeroWrite <==> EndsBy(left, answers, Count(0))
  {
    if left != 0 && answers != [] {
      var first, rest := answers[0], answers[1..];
      var remaining := if first.Count? then left - Min(first.n, left) else left;
      FailsOnFirstBadAnswer(remaining, rest);
      assert answers[..0] == [];
      assert EndsAt(left, answers, 0, first);
      EndsBehind(left, answers, Broken);
      EndsBehind(left, answers, Count(0));
    }
  }

  lemma EndsBehind(left: nat, answers: seq<Answer>, answer: Answer)
    requires left > 0 && answers != [] && (answer == Broken || answer == Count(0))
    ensures var remaining := if answers[0].Count? then left - Min(answers[0].n, left) else left;
            EndsBy(left, answers, answer) <==>
              answers[0] == answer
              || (&& answers[0] != Broken && answers[0] != Count(0) && remaining > 0
                  && EndsBy(remaining, answers[1..], answer))
  {
    assert answers[..0] == [] && EndsAt(left, answers, 0, answers[0]);
    var remaining := if answers[0].Count? then left - Min(answers[0].n, left) else left;
    if k: nat :| EndsAt(left, answers, k, answer) && k > 0 {
      EndStep(left, answers, k - 1, answer);
    }
    if k: nat :| EndsAt(remaining, answers[1..], k, answer) {
      EndStep(left, answers, k, answer);
    }
  }

  /** The PTY master: what it has accepted, and what it will answer. */
  class Master {
    var accepted: seq<byte>
    var answers: seq<Answer>

    constructor (answers: seq<Answer>)
      ensures this.accepted == [] && this.answers == answers
    {
      accepted := [];
      this.answers := answers;
    }

    /** `write_pty`: one system call, repeated while interrupted. `None` is a call
        that has not been answered yet. */
    method WritePty(buf: seq<byte>) returns (answer: Option<Answer>)
      requires buf != []
      modifies this
      ensures answer.None? ==>
                answers == [] && accepted == old(accepted) && WriteRun(|buf|, old(answers)) == (0, StillWaiting)
      ensures answer.Some? ==>
                && answer.value != Interrupted
                && |answers| < |old(answers)|
                && WriteRun(|buf|, old(answers)) == WriteRun(|buf|, [answer.value] + answers)
      ensures answer.Some? && answer.value.Count? ==>
                answer.value.n <= |buf| && accepted == old(accepted) + buf[..answer.value.n]
      ensures answer.Some? && !answer.value.Count? ==> accepted == old(accepted)
    {
      while answers != []
        invariant accepted == old(accepted)
        invariant |answers| <= |old(answers)|
        invariant WriteRun(|buf|, old(answers)) == WriteRun(|buf|, answers)
        decreases |answers|
      {
        var next := answers[0];
        assert answers == [next] + answers[1..];
        answers := answers[1..];
        match next {
          case Interrupted =>
          case Count(n) =>
            var k := Min(n, |buf|);
            accepted := accepted + buf[..k];
            assert ([Count(n)] + answers)[1..] == ([Count(k)] + answers)[1..];
            return Some(Count(k));
          case _ =>
            return Some(next);
        }
      }
      answer := None;
    }

    /** `write_all`: the accepted bytes are always a prefix of the data, all of it
        exactly on success; no byte is skipped or sent twice. */
    method WriteAll(data: seq<byte>) returns (outcome: Progress, written: nat)
      modifies this
      ensures written <= |data|
      ensures accepted == old(accepted) + data[..written]
      ensures outcome == AllWritten <==> written == |data|
      ensures (written, outcome) == WriteRun(|data|, old(answers))
    {
      written := 0;
      while written < |data|
        invariant written <= |data|
        invariant accepted == old(accepted) + data[..written]
        invariant var (more, end) := WriteRun(|data| - written, answers);
                  WriteRun(|data|, old(answers)) == (written + more, end)
        decreases |answers|, |data| - written
      {
        var answer := WritePty(data[written..]);
        match answer {
          case None =>
            return StillWaiting, written;
          case Some(Count(count)) =>
            if count == 0 {
              return ZeroWrite, written;
            }
            assert data[..written] + data[written..][..count] == data[..written + count];
            assert ([Count(count)] + answers)[1..] == answers;
            written := written + count;
          case Some(WouldBlock) =>
            assert ([WouldBlock] + answers)[1..] == answers;
          case Some(_) =>
            return WriteFailed, written;
        }
      }
      outcome := AllWritten;
    }
  }

  // ---- read -------------------------------------------------------------------------------

  /** What one `read` call can answer; a hangup is the error that means the end. */
  datatype ReadAnswer = Data(bytes: seq<byte>) | ReadInterrupted | NotReady | Hangup | ReadBroken

  datatype ReadResult = Filled(count: nat) | ReadFailed | Unanswered

  predicate Retried(a: ReadAnswer) {
    a == ReadInterrupted || a == NotReady
  }

  /** No answer has more bytes than were asked for. */
  predicate Fit(answers: seq<ReadAnswer>, room: nat) {
    forall i :: 0 <= i < |answers| && answers[i].Data? ==> |answers[i].bytes| <= room
  }

  /** How the buffer and the result follow from one final answer. */
  predicate Reads(answer: ReadAnswer, before: seq<byte>, after: seq<byte>, result: ReadResult) {
    match answer
    case Data(bytes) =>
      |bytes| <= |before| && result == Filled(|bytes|) && after == bytes + before[|bytes|..]
    case Hangup => result == Filled(0) && after == before
    case ReadBroken => result == ReadFailed && after == before
    case _ => false
  }

  /** The PTY master as the reading task sees it. */
  class Source {
    var answers: seq<ReadAnswer>

    constructor (answers: seq<ReadAnswer>)
      ensures this.answers == answers
    {
      this.answers := answers;
    }

    /** `read_pty`: one system call, repeated while interrupted. */
    method ReadPty(buf: array<byte>) returns (answer: Option<ReadAnswer>, tries: nat)
      requires Fit(answers, buf.Length)
      modifies this, buf
      ensures tries <= |old(answers)| && forall i :: 0 <= i < tries ==> old(answers)[i] == ReadInterrupted
      ensures answer.None? ==> tries == |old(answers)| && answers == []
      ensures answer.Some? ==>
                && tries < |old(answers)| && answer.value == old(answers)[tries] && answer.value != ReadInterrupted
                && answers == old(answers)[tries + 1..]
      ensures if answer.Some? && answer.value.Data?
              then buf[..] == answer.value.bytes + old(buf[..])[|answer.value.bytes|..]
              else buf[..] == old(buf[..])
    {
      tries := 0;
      while answers != []
        invariant tries <= |old(answers)| && answers == old(answers)[tries..]
        invariant forall i :: 0 <= i < tries ==> old(answers)[i] == ReadInterrupted
        invariant buf[..] == old(buf[..])
        decreases |answers|
      {
        var next := answers[0];
        answers := answers[1..];
        if next != ReadInterrupted {
          if next.Data? {
            Fill(buf, next.bytes);
          }
          return Some(next), tries;
        }
        tries := tries + 1;
      }
      answer := None;
    }

    method Fill(buf: array<byte>, bytes: seq<byte>)
      requires |bytes| <= buf.Length
      modifies buf
      ensures buf[..] == bytes + old(buf[..])[|bytes|..]
    {
      for i := 0 to |bytes|
        invariant forall k :: 0 <= k < i ==> buf[k] == bytes[k]
        invariant forall k :: i <= k < buf.Length ==> buf[k] == old(buf[k])
      {
        buf[i] := bytes[i];
      }
    }

    /** `read`: interrupts and would-blocks are retried and leave no trace; the
        first other answer decides, its bytes fill the front of the buffer and
        nothing else of it, and a hangup reads as the end. */
    method Read(buf: array<byte>) returns (result: ReadResult, tries: nat)
      requires Fit(answers, buf.Length)
      modifies this, buf
      ensures tries <= |old(answers)| && forall i :: 0 <= i < tries ==> Retried(old(answers)[i])
      ensures result == Unanswered <==> tries == |old(answers)|
      ensures result == Unanswered ==> answers == [] && buf[..] == old(buf[..])
      ensures result != Unanswered ==>
                answers == old(answers)[tries + 1..] && Reads(old(answers)[tries], old(buf[..]), buf[..], result)
    {
      tries := 0;
      while true
        invariant tries <= |old(answers)| && answers == old(answers)[tries..]
        invariant forall i :: 0 <= i < tries ==> Retried(old(answers)[i])
        invariant buf[..] == old(buf[..])
        decreases |answers|
      {
        var answer, interrupts := ReadPty(buf);
        assert forall i :: tries <= i < tries + interrupts ==> old(answers)[i] == old(answers)[tries..][i - tries];
        tries := tries + interrupts;
        match answer {
          case None => return Unanswered, tries;
          case Some(Data(bytes)) => return Filled(|bytes|), tries;
          case Some(Hangup) => return Filled(0), tries;
          case Some(NotReady) => tries := tries + 1;
          case Some(_) => return ReadFailed, tries;
        }
      }
    }
  }

  // ---- The grace period ---------------------------------------------------------------------

  const GRACE_PERIOD: nat := 200

  const POLL_INTERVAL: nat := 10

  datatype Status = Exited | Running | Unknown

  /** The most status checks a timeout allows. */
  function MostChecks(timeout: nat, interval: nat): nat
    requires interval > 0
  {
    (timeout + interval - 1) / interval + 1
  }

  /** Every sleep lasts at least the interval. */
  ghost predicate Sleeps(start: nat, interval: nat, clock: nat -> nat) {
    clock(0) >= start && forall k: nat :: clock(k + 1) >= clock(k) + interval
  }

  lemma {:induction false} ClockAdvances(start: nat, interval: nat, clock: nat -> nat, k: nat)
    requires Sleeps(start, interval, clock)
    ensures clock(k) >= start + k * interval
  {
    if k > 0 {
      ClockAdvances(start, interval, clock, k - 1);
      assert clock(k - 1 + 1) >= clock(k - 1) + interval;
    }
  }

  lemma Monotone(a: nat, b: nat, c: nat)
    ensures a <= b ==> a * c <= b * c
  {
  }

  lemma DeadlineBound(timeout: nat, interval: nat, k: nat)
    requires interval > 0 && k * interval < timeout
    ensures k + 1 < MostChecks(timeout, interval)
  {
    var q := (timeout + interval - 1) / interval;
    assert q * interval > timeout - 1;
    Monotone(q, k, interval);
  }

  /** Before the deadline the bound leaves room for another check. */
  lemma MoreChecks(start: nat, timeout: nat, interval: nat, clock: nat -> nat, k: nat)
    requires interval > 0 && Sleeps(start, interval, clock) && clock(k) < start + timeout
    ensures k + 1 < MostChecks(timeout, interval)
  {
    ClockAdvances(start, interval, clock, k);
    DeadlineBound(timeout, interval, k);
  }

  /** `wait_for_child_exit_blocking`: `status(k)` is the k-th check and `clock(k)`
      the time read after it. It is over after at most the stated number of
      checks, says true exactly when the last check saw the exit, and false exactly
      when it saw the child alive with the deadline passed. */
  method WaitForExit(start: nat, timeout: nat, interval: nat, status: nat -> Status, clock: nat -> nat)
    returns (exited: Option<bool>, checks: nat)
    requires interval > 0 && Sleeps(start, interval, clock)
    ensures 1 <= checks <= MostChecks(timeout, interval)
    ensures forall k :: 0 <= k < checks - 1 ==> status(k) == Running && clock(k) < start + timeout
    ensures exited == Some(true) <==> status(checks - 1) == Exited
    ensures exited == Some(false) <==> status(checks - 1) == Running
    ensures exited == Some(false) ==> clock(checks - 1) >= start + timeout
  {
    var deadline := start + timeout;
    checks := 0;
    while true
      invariant checks < MostChecks(timeout, interval)
      invariant forall k :: 0 <= k < checks ==> status(k) == Running && clock(k) < deadline
      decreases MostChecks(timeout, interval) - checks
    {
      var seen, now := status(checks), clock(checks);
      checks := checks + 1;
      if seen == Unknown {
        return None, checks;
      }
      if seen == Exited {
        return Some(true), checks;
      }
      if now >= deadline {
        return Some(false), checks;
      }
      MoreChecks(start, timeout, interval, clock, checks - 1);
    }
  }

  /** The grace period of the cleanup: at most 21 checks, the last of which saw the
      exit, or saw the child alive 200 milliseconds or more after the start. */
  method GracePeriod(start: nat, status: nat -> Status, clock: nat -> nat) returns (exited: Option<bool>, checks: nat)
    requires Sleeps(start, POLL_INTERVAL, clock)
    ensures 1 <= checks <= 21
    ensures exited == Some(true) <==> status(checks - 1) == Exited
    ensures exited == Some(false) <==> status(checks - 1) == Running
    ensures exited == Some(false) ==> clock(checks - 1) >= start + 200
  {
    exited, checks := WaitForExit(start, GRACE_PERIOD, POLL_INTERVAL, status, clock);
  }

  // ---- The once-flag --------------------------------------------------------------------------

  class CleanupFlag {
    var started: bool

    constructor ()
      ensures !started
    {
      started := false;
    }

    /** `start_cleanup`: only the first caller is told to clean up. */
    method StartCleanup() returns (mine: bool)
      modifies this
      ensures mine == !old(started) && started
    {
      mine := !started;
      started := true;
    }
  }
}
