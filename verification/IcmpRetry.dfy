/** Runs of the ICMP stage in which an address that has replied is sent another echo. */
module IcmpRetry {
  import opened Common
  import opened IcmpModel
  import opened IcmpInvariant
  import opened IcmpTheorems
  import opened IcmpRuns

  /** The first target is fed, taken and started: the run stands before Encode, nothing sent, nothing heard. */
  lemma {:induction false} FirstTargetStarted(c: Config) returns (r: Run)
    requires ValidConfig(c) && IsJob(c, 0)
    ensures IsRun(c, r) && PastCheckBy(Last(r), 0, 0) && Last(r).workers[0].pc.Encode? && Sent(Last(r), 0) == 0
    ensures Last(r).reader == Top && !ReaderCancelled(Last(r))
    ensures Last(r).workers[0].attempt == 0 && Last(r).lock.None? && Key(c, 0) !in Last(r).table.live
    ensures Last(r).heard == []
  {
    r := Run([Init(c)], []);
    var a := MainStep(Proceed);
    r := Extend(c, r, a);
    assert Last(r).jobs == [0] && Last(r).workers[0].Idle?;
    a := WorkerStep(0, Go);
    r := Extend(c, r, a);
    assert Last(r).workers[0] == Begin(0);
    r := Extend(c, r, a);
    assert Last(r).workers[0].Ping? && Last(r).workers[0].pc.CheckCtx?;
    r := Extend(c, r, a);
    r := Extend(c, r, a);
  }

  /** The reader takes in an accepted reply; nothing else moves. */
  lemma {:induction false} ReplyArrives(c: Config, r: Run, d: Datagram) returns (q: Run)
    requires IsRun(c, r) && Last(r).reader == Top && !ReaderCancelled(Last(r)) && Accepts(c, d)
    ensures IsRun(c, q) && Extends(q, r) && d.peer.value in Last(q).table.live
    ensures Last(q).workers == Last(r).workers && Last(q).wire == Last(r).wire
  {
    var a := ReaderStep(Continue);
    q := Extend(c, r, a);
    a := ReaderStep(Received(d));
    q := Extend(c, q, a);
    a := ReaderStep(Continue);
    q := Extend(c, q, a);
  }

  /** With any settings whose first target is IPv4, one run has recorded the reply of that target while no echo
      had been sent for it, and then sends one: an address that has replied can be sent another echo. */
  lemma {:induction false} LateEchoHappens(c: Config) returns (r: Run, q: Run)
    requires ValidConfig(c) && IsJob(c, 0)
    ensures IsRun(c, r) && Key(c, 0) in Last(r).table.live && Sent(Last(r), 0) == 0
    ensures IsRun(c, q) && Extends(q, r) && Sent(Last(q), 0) == 1
  {
    var started := FirstTargetStarted(c);
    r := ReplyArrives(c, started, Datagram(Some(Key(c, 0)), Message(true, Some(c.echoId))));
    q := WritesOnce(c, r, 0, 0);
  }

  /** One step of worker 0's loop: nothing the loop depends on differs but what the step does to it. */
  lemma {:induction false} PingGoes(c: Config, r: Run, choice: Choice) returns (q: Run)
    requires IsRun(c, r) && CanWork(c, Last(r), 0, choice) && Last(r).workers[0].Ping?
    ensures IsRun(c, q) && Extends(q, r)
    ensures var s, s', p := Last(r), Last(q), Last(r).workers[0];
            && 0 < |s'.workers| && s'.workers[0] == NextPing(c, s, p, choice)
            && s'.table == s.table && s'.reader == s.reader && s'.heard == s.heard
            && s'.cancelled == s.cancelled && s'.stopped == s.stopped
            && s'.lock == (if p.pc.Acquire? then Some(0) else if p.pc.Release? then None else s.lock)
            && s'.wire == if p.pc.Write? then s.wire + [p.job] else s.wire
  {
    q := Extend(c, r, WorkerStep(0, choice));
  }

  /** Worker 0 sends its echo and stands before the select. */
  lemma {:induction false} EchoSent(c: Config, r: Run) returns (q: Run)
    requires IsRun(c, r) && IsJob(c, 0) && 0 < |Last(r).workers| && Last(r).lock.None?
    requires var p := Last(r).workers[0]; p.Ping? && p.job == 0 && p.pc.Encode?
    ensures IsRun(c, q) && Extends(q, r) && 0 < |Last(q).workers|
    ensures Last(q).workers[0] == Last(r).workers[0].(pc := Select) && Last(q).wire == Last(r).wire + [0]
    ensures Last(q).table == Last(r).table && Last(q).reader == Last(r).reader && Last(q).lock.None?
    ensures Last(q).heard == Last(r).heard
    ensures Last(q).cancelled == Last(r).cancelled && Last(q).stopped == Last(r).stopped
  {
    q := PingGoes(c, r, Go);
    q := PingGoes(c, q, Go);
    q := PingGoes(c, q, Go);
    q := PingGoes(c, q, Go);
  }

  /** Worker 0 stands before Encode in its round number `attempt`, nothing having stopped it. */
  ghost predicate Pinging(c: Config, r: Run, attempt: nat) {
    && IsRun(c, r) && IsJob(c, 0) && PastCheckBy(Last(r), 0, 0) && Last(r).workers[0].pc.Encode?
    && Last(r).workers[0].attempt == attempt && Sent(Last(r), 0) == attempt
    && Last(r).lock.None? && !Last(r).cancelled && Key(c, 0) !in Last(r).table.live
  }

  /** Worker 0 goes round its loop once, its echo unanswered when the timer fires, and passes the check again. */
  lemma {:induction false} RoundUnanswered(c: Config, r: Run, attempt: nat) returns (q: Run)
    requires Pinging(c, r, attempt) && attempt + 1 < c.attempts
    ensures Pinging(c, q, attempt + 1) && Extends(q, r)
    ensures Last(q).reader == Last(r).reader && Last(q).stopped == Last(r).stopped && Last(q).heard == Last(r).heard
  {
    q := EchoSent(c, r);
    q := PingGoes(c, q, ByTimer);
    q := PingGoes(c, q, Go);
    q := PingGoes(c, q, Go);
  }

  /** The last round: the timer fires once more, and the attempts are spent. */
  lemma {:induction false} LastRound(c: Config, r: Run, attempt: nat) returns (q: Run)
    requires Pinging(c, r, attempt) && attempt + 1 == c.attempts
    ensures IsRun(c, q) && Extends(q, r) && Sent(Last(q), 0) == c.attempts
    ensures Last(q).workers != [] && Last(q).workers[0] == Finish(0)
    ensures !Last(q).cancelled && Last(q).heard == Last(r).heard && Key(c, 0) !in Last(q).table.live
  {
    q := EchoSent(c, r);
    q := PingGoes(c, q, ByTimer);
    q := PingGoes(c, q, Go);
  }

  lemma {:induction false} RoundsUnanswered(c: Config, r: Run, attempt: nat) returns (q: Run)
    requires Pinging(c, r, attempt) && attempt < c.attempts
    ensures IsRun(c, q) && Extends(q, r) && Sent(Last(q), 0) == c.attempts
    ensures Last(q).workers != [] && Last(q).workers[0] == Finish(0)
    ensures !Last(q).cancelled && Last(q).heard == Last(r).heard && Key(c, 0) !in Last(q).table.live
    decreases c.attempts - attempt
  {
    if attempt + 1 == c.attempts {
      q := LastRound(c, r, attempt);
    } else {
      q := RoundUnanswered(c, r, attempt);
      q := RoundsUnanswered(c, q, attempt + 1);
    }
  }

  /** Silence costs exactly `attempts` echoes: with any settings whose first target is IPv4, some run in which nothing
      is ever heard and nothing cancelled sends that target all of its echoes, and then its pingOne ends. */
  lemma {:induction false} SilentTarget(c: Config) returns (r: Run)
    requires ValidConfig(c) && IsJob(c, 0)
    ensures IsRun(c, r) && Sent(Last(r), 0) == c.attempts && Last(r).heard == [] && !Last(r).cancelled
    ensures Last(r).workers != [] && Last(r).workers[0] == Finish(0)
  {
    r := FirstTargetStarted(c);
    r := RoundsUnanswered(c, r, 0);
  }

  /** With two attempts or more it is a retry: a first echo is answered, and after the answer has been recorded a
      second one is sent. */
  lemma {:induction false} RetryHappens(c: Config) returns (r: Run, q: Run)
    requires ValidConfig(c) && IsJob(c, 0) && c.attempts >= 2
    ensures IsRun(c, r) && Key(c, 0) in Last(r).table.live && Sent(Last(r), 0) == 1
    ensures IsRun(c, q) && Extends(q, r) && Sent(Last(q), 0) == 2
  {
    var started := FirstTargetStarted(c);
    var again := RoundUnanswered(c, started, 0);
    r := ReplyArrives(c, again, Datagram(Some(Key(c, 0)), Message(true, Some(c.echoId))));
    q := WritesOnce(c, r, 0, 0);
  }
}
