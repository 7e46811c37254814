/** The writing loop inside the session: what `write_all` makes of the answers to its
    system calls is what the serving task does in as many steps. */
module SessionWrites {
  import opened Common
  import S = Session
  import SR = SessionRuns
  import opened PtyIo

  /** The steps of a serving task with `left` bytes to write. */
  function Steps(left: nat, answers: seq<Answer>): seq<S.Event> {
    if left == 0 || answers == [] then
      []
    else
      match answers[0]
      case Interrupted => Steps(left, answers[1..])
      case WouldBlock => Steps(left, answers[1..])
      case Broken => [S.PtyRejects]
      case Count(n) =>
        if n == 0 then
          [S.PtyRejects]
        else
          [S.PtyAccepts(Min(n, left))] + Steps(left - Min(n, left), answers[1..])
  }

  /** Where a serving task stands that had `rest` to write. */
  predicate Wrote(s: S.Session, t: S.Session, rest: seq<byte>, count: nat, outcome: Progress) {
    && count <= |rest|
    && t == s.(driver := t.driver, typed := s.typed + rest[..count])
    && t.driver == match outcome {
         case AllWritten => S.Selecting
         case StillWaiting => S.Writing(rest[count..])
         case _ => S.Stopped(false, [])
       }
  }

  lemma WriteOnce(s: S.Session, k: nat)
    requires s.driver.Writing? && 0 < k <= |s.driver.rest|
    ensures var rest := s.driver.rest;
            S.Exec(s, [S.PtyAccepts(k)])
              == s.(typed := s.typed + rest[..k], driver := if k == |rest| then S.Selecting else S.Writing(rest[k..]))
  {
    SR.ExecOne(s, S.PtyAccepts(k));
  }

  lemma WroteMore(s: S.Session, t: S.Session, u: S.Session, rest: seq<byte>, k: nat, more: nat, outcome: Progress)
    requires k < |rest| && Wrote(t, u, rest[k..], more, outcome)
    requires t == s.(typed := s.typed + rest[..k], driver := t.driver)
    ensures Wrote(s, u, rest, k + more, outcome)
  {
    assert rest[..k] + rest[k..][..more] == rest[..k + more];
    assert rest[k..][more..] == rest[k + more..];
    assert s.typed + rest[..k] + rest[k..][..more] == s.typed + rest[..k + more];
  }

  /** A write of some bytes leaves the session with exactly the accepted bytes typed:
      back at `select!` when all were, out of the loop on an error or an empty write,
      and still writing the rest otherwise. */
  lemma {:induction false} SessionWritesAll(s: S.Session, answers: seq<Answer>)
    requires s.driver.Writing? && s.driver.rest != []
    ensures var (count, outcome) := WriteRun(|s.driver.rest|, answers);
            Wrote(s, S.Exec(s, Steps(|s.driver.rest|, answers)), s.driver.rest, count, outcome)
    decreases |answers|, 0
  {
    var rest := s.driver.rest;
    if answers == [] {
      assert rest[0..] == rest && s.typed + rest[..0] == s.typed;
    } else {
      match answers[0] {
        case Interrupted => SessionWritesAll(s, answers[1..]);
        case WouldBlock => SessionWritesAll(s, answers[1..]);
        case Broken => Rejected(s);
        case Count(n) =>
          if n == 0 {
            Rejected(s);
          } else {
            Accepted(s, Min(n, |rest|), answers[1..]);
          }
      }
    }
  }

  lemma Rejected(s: S.Session)
    requires s.driver.Writing?
    ensures Wrote(s, S.Exec(s, [S.PtyRejects]), s.driver.rest, 0, WriteFailed)
    ensures Wrote(s, S.Exec(s, [S.PtyRejects]), s.driver.rest, 0, ZeroWrite)
  {
    SR.ExecOne(s, S.PtyRejects);
    assert s.typed + s.driver.rest[..0] == s.typed;
  }

  lemma {:induction false} Accepted(s: S.Session, k: nat, answers: seq<Answer>)
    requires s.driver.Writing? && 0 < k <= |s.driver.rest|
    ensures var (more, outcome) := WriteRun(|s.driver.rest| - k, answers);
            var t := S.Exec(s, [S.PtyAccepts(k)] + Steps(|s.driver.rest| - k, answers));
            Wrote(s, t, s.driver.rest, k + more, outcome)
    decreases |answers|, 1
  {
    var rest, first := s.driver.rest, [S.PtyAccepts(k)];
    WriteOnce(s, k);
    if k == |rest| {
      assert rest[..k] == rest && first + [] == first;
    } else {
      var t := S.Exec(s, first);
      SessionWritesAll(t, answers);
      SR.ExecSplit(s, first, Steps(|rest| - k, answers));
      var (more, outcome) := WriteRun(|rest| - k, answers);
      WroteMore(s, t, S.Exec(t, Steps(|rest| - k, answers)), rest, k, more, outcome);
    }
  }
}
