/** What the invariant means for whole runs of the ICMP stage. */
module IcmpTheorems {
  import opened Common
  import opened Addr
  import opened TrackerTable
  import opened IcmpModel
  import opened IcmpInvariant

  // ---- wakeups and channels ----

  /** No lost wakeup: whatever the interleaving, a worker's channel is closed exactly when its address is live,
      whether the reply came before or after waiter, and whoever else shares the channel. So a worker
      blocked in select can be woken by the reply exactly when there is one, by the context exactly when it is
      cancelled, and by its timer; woken by the reply or the context its pingOne ends. */
  lemma {:induction false} NoLostWakeup(c: Config, r: Run, i: nat, w: nat)
    requires IsRun(c, r) && i < |r.states| && w < |r.states[i].workers| && r.states[i].workers[w].Ping?
    ensures var s := r.states[i]; var p := s.workers[w];
            && IsJob(c, p.job)
            && (p.ch in s.table.closes <==> Key(c, p.job) in s.table.live)
            && (p.pc.Select? ==>
                  && (CanWork(c, s, w, ByReply) <==> Key(c, p.job) in s.table.live)
                  && (CanWork(c, s, w, ByCancel) <==> s.cancelled) && CanWork(c, s, w, ByTimer)
                  && (CanWork(c, s, w, ByReply) ==> DoWork(c, s, w, ByReply).workers[w] == Finish(p.job))
                  && (CanWork(c, s, w, ByCancel) ==> DoWork(c, s, w, ByCancel).workers[w] == Finish(p.job)))
  {
    RunInv(c, r, i);
    var s := r.states[i];
    ClosedIffLive(s.table, Key(c, s.workers[w].job), s.workers[w].ch);
  }

  /** What only grows from one state to a later one; `heard` and `live` are final once the reader has exited. */
  ghost predicate Grows(s: State, s': State) {
    && s.table.closes <= s'.table.closes && s.table.live <= s'.table.live && s.heard <= s'.heard
    && (s.reader.ReaderDone? ==> s'.reader.ReaderDone? && s'.table.live == s.table.live && s'.heard == s.heard)
    && (s.cancelled ==> s'.cancelled)
  }

  lemma {:induction false} MainGrows(c: Config, s: State, m: MainChoice)
    requires CanMain(c, s, m)
    ensures Grows(s, DoMain(c, s, m))
  {
  }

  lemma {:induction false} WorkGrows(c: Config, s: State, w: nat, choice: Choice)
    requires CanWork(c, s, w, choice)
    ensures Grows(s, DoWork(c, s, w, choice))
  {
    WorkFrame(c, s, w, choice);
  }

  lemma {:induction false} ReadGrows(c: Config, s: State, r: ReadChoice)
    requires CanRead(s, r)
    ensures Grows(s, DoRead(c, s, r))
  {
  }

  lemma {:induction false} StepGrows(c: Config, s: State, a: Action)
    requires Enabled(c, s, a)
    ensures Grows(s, Do(c, s, a))
  {
    match a {
      case Cancel =>
      case MainStep(m) => MainGrows(c, s, m);
      case WorkerStep(w, choice) => WorkGrows(c, s, w, choice);
      case ReaderStep(r) => ReadGrows(c, s, r);
    }
  }

  lemma {:induction false} GrowsTransitive(s: State, t: State, u: State)
    requires Grows(s, t) && Grows(t, u)
    ensures Grows(s, u)
  {
  }

  lemma {:induction false} RunStepGrows(c: Config, r: Run, k: nat)
    requires IsRun(c, r) && k < |r.actions|
    ensures Grows(r.states[k], r.states[k + 1])
  {
    assert StepOf(c, r, k);
    StepGrows(c, r.states[k], r.actions[k]);
  }

  lemma {:induction false} RunGrows(c: Config, r: Run, i: nat, k: nat)
    requires IsRun(c, r) && i <= k < |r.states|
    ensures Grows(r.states[i], r.states[k])
    decreases k
  {
    if i == k {
    } else {
      RunGrows(c, r, i, k - 1);
      RunStepGrows(c, r, k - 1);
      GrowsTransitive(r.states[i], r.states[k - 1], r.states[k]);
    }
  }

  /** No channel is closed twice in a run: the log of close operations is only appended to and never repeats. */
  lemma {:induction false} NoDoubleClose(c: Config, r: Run, i: nat, k: nat)
    requires IsRun(c, r) && i <= k < |r.states|
    ensures r.states[i].table.closes <= r.states[k].table.closes && NoDup(r.states[k].table.closes)
  {
    RunInv(c, r, k);
    RunGrows(c, r, i, k);
  }

  /** WriteTo is never called by two workers at once. */
  lemma {:induction false} WritesExclude(c: Config, r: Run, i: nat, v: nat, w: nat)
    requires IsRun(c, r) && i < |r.states| && v < |r.states[i].workers| && w < |r.states[i].workers|
    requires HoldsLock(r.states[i].workers[v]) && HoldsLock(r.states[i].workers[w])
    ensures v == w
  {
    RunInv(c, r, i);
  }

  // ---- echoes ----

  /** Some worker has passed the `replied` check for job j and not yet written. */
  ghost predicate PastCheck(s: State, j: nat) {
    exists w: nat :: HandOf(s, w, j) && PastCheckPc(s.workers[w])
  }

  predicate PastCheckPc(worker: Worker) {
    worker.Ping? && (worker.pc.Encode? || worker.pc.Acquire? || worker.pc.Write?)
  }

  /** The two tests at the head of the loop: the context first, then `replied`. */
  datatype Gate = CtxGate | ReplyGate

  predicate Shut(c: Config, s: State, j: nat, gate: Gate)
    requires IsJob(c, j)
  {
    match gate
    case CtxGate => s.cancelled
    case ReplyGate => Key(c, j) in s.table.live
  }

  /** The worker has passed the gate and not yet written. */
  predicate Beyond(worker: Worker, gate: Gate) {
    PastCheckPc(worker) || (gate.CtxGate? && worker.Ping? && worker.pc.CheckReplied?)
  }

  ghost predicate PastGate(s: State, j: nat, gate: Gate) {
    exists w: nat :: HandOf(s, w, j) && Beyond(s.workers[w], gate)
  }

  /** The echoes job j has sent or may still send for a worker beyond the gate. */
  ghost function Committed(s: State, j: nat, gate: Gate): nat {
    Sent(s, j) + if PastGate(s, j, gate) then 1 else 0
  }

  /** No step takes a worker through a shut gate. */
  lemma {:induction false} GateHolds(c: Config, s: State, w: nat, choice: Choice, v: nat, j: nat, gate: Gate)
    requires CanWork(c, s, w, choice) && s.workers[w].Ping? && IsJob(c, j) && Shut(c, s, j, gate)
    requires HandOf(DoPing(c, s, w, choice), v, j) && Beyond(DoPing(c, s, w, choice).workers[v], gate)
    ensures HandOf(s, v, j) && Beyond(s.workers[v], gate)
  {
  }

  /** The worker that writes is beyond the gate before, and nobody is after. */
  lemma {:induction false} WriteCommits(c: Config, s: State, w: nat, choice: Choice, j: nat, gate: Gate)
    requires Inv(c, s) && CanWork(c, s, w, choice) && s.workers[w].Ping? && s.workers[w].pc.Write?
    requires s.workers[w].job == j
    ensures PastGate(s, j, gate) && !PastGate(DoPing(c, s, w, choice), j, gate)
  {
    var s' := DoPing(c, s, w, choice);
    assert HandOf(s, w, j) && Beyond(s.workers[w], gate);
    forall v: nat | HandOf(s', v, j) ensures v == w {
      assert v != w ==> HandOf(s, v, j);
    }
  }

  lemma {:induction false} PingCommits(c: Config, s: State, w: nat, choice: Choice, j: nat, gate: Gate)
    requires Inv(c, s) && CanWork(c, s, w, choice) && s.workers[w].Ping? && IsJob(c, j) && Shut(c, s, j, gate)
    ensures Committed(DoPing(c, s, w, choice), j, gate) <= Committed(s, j, gate)
  {
    var s' := DoPing(c, s, w, choice);
    var p := s.workers[w];
    assert Sent(s', j) == Sent(s, j) + if p.pc.Write? && p.job == j then 1 else 0;
    if p.pc.Write? && p.job == j {
      WriteCommits(c, s, w, choice, j, gate);
    } else if PastGate(s', j, gate) {
      var v: nat :| HandOf(s', v, j) && Beyond(s'.workers[v], gate);
      GateHolds(c, s, w, choice, v, j, gate);
    }
  }

  /** A step that writes nothing and puts no worker beyond the gate. */
  lemma {:induction false} UncommittedStep(s: State, s': State, w: nat, j: nat, gate: Gate)
    requires s'.wire == s.wire && OnlyMoves(s, s', w) && |s'.workers| == |s.workers|
    requires forall v: nat | v < |s.workers| && v != w :: s'.workers[v] == s.workers[v]
    requires w < |s.workers| ==> s'.workers[w] == s.workers[w] || !Beyond(s'.workers[w], gate)
    ensures Committed(s', j, gate) <= Committed(s, j, gate)
  {
    if PastGate(s', j, gate) {
      var v: nat :| HandOf(s', v, j) && Beyond(s'.workers[v], gate);
      assert HandOf(s, v, j) && Beyond(s.workers[v], gate);
    }
  }

  lemma {:induction false} WorkCommits(c: Config, s: State, w: nat, choice: Choice, j: nat, gate: Gate)
    requires Inv(c, s) && CanWork(c, s, w, choice) && IsJob(c, j) && Shut(c, s, j, gate)
    ensures Committed(DoWork(c, s, w, choice), j, gate) <= Committed(s, j, gate)
  {
    WorkFrame(c, s, w, choice);
    if s.workers[w].Ping? {
      PingCommits(c, s, w, choice, j, gate);
    } else {
      UncommittedStep(s, DoWork(c, s, w, choice), w, j, gate);
    }
  }

  lemma {:induction false} OtherCommits(s: State, s': State, j: nat, gate: Gate)
    requires s'.workers == s.workers && s'.wire == s.wire
    ensures Committed(s', j, gate) == Committed(s, j, gate)
  {
    assert forall w: nat :: HandOf(s', w, j) <==> HandOf(s, w, j);
  }

  lemma {:induction false} OtherFrame(c: Config, s: State, a: Action)
    requires Enabled(c, s, a) && !a.WorkerStep?
    ensures Do(c, s, a).workers == s.workers && Do(c, s, a).wire == s.wire
  {
    if a.ReaderStep? {
      ReadFrame(c, s, a.r);
    }
  }

  /** Once the address is live, or the context cancelled, no step commits the job to another echo. */
  lemma {:induction false} StepCommits(c: Config, s: State, a: Action, j: nat, gate: Gate)
    requires Inv(c, s) && Enabled(c, s, a) && IsJob(c, j) && Shut(c, s, j, gate)
    ensures Committed(Do(c, s, a), j, gate) <= Committed(s, j, gate)
  {
    if a.WorkerStep? {
      WorkCommits(c, s, a.w, a.choice, j, gate);
    } else {
      OtherFrame(c, s, a);
      OtherCommits(s, Do(c, s, a), j, gate);
    }
  }

  lemma {:induction false} RunStepCommits(c: Config, r: Run, k: nat, j: nat, gate: Gate)
    requires IsRun(c, r) && k < |r.actions| && IsJob(c, j) && Shut(c, r.states[k], j, gate)
    ensures Committed(r.states[k + 1], j, gate) <= Committed(r.states[k], j, gate)
  {
    RunInv(c, r, k);
    assert StepOf(c, r, k);
    StepCommits(c, r.states[k], r.actions[k], j, gate);
  }

  lemma {:induction false} RunCommits(c: Config, r: Run, i: nat, k: nat, j: nat, gate: Gate)
    requires IsRun(c, r) && i <= k < |r.states| && IsJob(c, j) && Shut(c, r.states[i], j, gate)
    ensures Committed(r.states[k], j, gate) <= Committed(r.states[i], j, gate)
    decreases k
  {
    if i == k {
    } else {
      RunCommits(c, r, i, k - 1, j, gate);
      RunGrows(c, r, i, k - 1);
      RunStepCommits(c, r, k - 1, j, gate);
    }
  }

  lemma {:induction false} PastCheckIsGate(s: State, j: nat)
    ensures PastCheck(s, j) <==> PastGate(s, j, ReplyGate)
  {
    if w: nat :| HandOf(s, w, j) && PastCheckPc(s.workers[w]) {
      assert Beyond(s.workers[w], ReplyGate);
    }
  }

  /** The echo budget under races. A pingOne never sends more than `attempts` echoes; after its address has
      answered it sends at most one more, and that one only if it was already past the `replied` check; after the
      context was cancelled at most one more, and only if it was already past the check of the context. */
  lemma {:induction false} EchoBudget(c: Config, r: Run, i: nat, k: nat, j: nat)
    requires IsRun(c, r) && i <= k < |r.states| && IsJob(c, j)
    ensures Sent(r.states[k], j) <= c.attempts
    ensures Key(c, j) in r.states[i].table.live ==>
              Sent(r.states[k], j) <= Sent(r.states[i], j) + if PastCheck(r.states[i], j) then 1 else 0
    ensures r.states[i].cancelled ==>
              Sent(r.states[k], j) <= Sent(r.states[i], j) + if PastGate(r.states[i], j, CtxGate) then 1 else 0
  {
    RunInv(c, r, k);
    PastCheckIsGate(r.states[i], j);
    if Key(c, j) in r.states[i].table.live {
      RunCommits(c, r, i, k, j, ReplyGate);
    }
    if r.states[i].cancelled {
      RunCommits(c, r, i, k, j, CtxGate);
    }
  }

  /** pingOne for job j has not reached its loop. */
  ghost predicate NotStarted(s: State, j: nat) {
    j >= s.fed || j in s.jobs || exists w: nat :: w < |s.workers| && s.workers[w] == Begin(j)
  }

  /** A pingOne that starts after its address has answered, or after cancellation, sends nothing at all. */
  lemma {:induction false} LatePingIsSilent(c: Config, r: Run, i: nat, k: nat, j: nat)
    requires IsRun(c, r) && i <= k < |r.states| && IsJob(c, j)
    requires (Key(c, j) in r.states[i].table.live || r.states[i].cancelled) && NotStarted(r.states[i], j)
    ensures Sent(r.states[k], j) == 0
  {
    var s := r.states[i];
    RunInv(c, r, i);
    EchoBudget(c, r, i, k, j);
    if w: nat :| w < |s.workers| && s.workers[w] == Begin(j) {
      assert HandOf(s, w, j);
    }
    assert !PastCheck(s, j) && !PastGate(s, j, CtxGate);
  }

  /** How many targets have the address `ip`. */
  function Copies(c: Config, ip: Addr4, n: nat): nat
    requires n <= |c.targets|
  {
    if n == 0 then 0
    else Copies(c, ip, n - 1) + if IsJob(c, n - 1) && Key(c, n - 1) == ip then 1 else 0
  }

  /** How many echoes among those sent for jobs below n went to `ip`. */
  function EchoesTo(c: Config, s: State, ip: Addr4, n: nat): nat
    requires n <= |c.targets|
  {
    if n == 0 then 0
    else EchoesTo(c, s, ip, n - 1) + if IsJob(c, n - 1) && Key(c, n - 1) == ip then Sent(s, n - 1) else 0
  }

  lemma {:induction false} EchoesWithin(c: Config, s: State, ip: Addr4, n: nat)
    requires n <= |c.targets| && forall j: nat :: Sent(s, j) <= c.attempts
    ensures EchoesTo(c, s, ip, n) <= c.attempts * Copies(c, ip, n)
  {
    if n == 0 {
    } else {
      EchoesWithin(c, s, ip, n - 1);
      assert c.attempts * (Copies(c, ip, n - 1) + 1) == c.attempts * Copies(c, ip, n - 1) + c.attempts;
    }
  }

  /** An address listed m times among the targets gets at most m * attempts echoes on every run;
      an address listed once gets at most `attempts`. */
  lemma {:induction false} AddressBudget(c: Config, r: Run, i: nat, ip: Addr4)
    requires IsRun(c, r) && i < |r.states|
    ensures EchoesTo(c, r.states[i], ip, |c.targets|) <= c.attempts * Copies(c, ip, |c.targets|)
  {
    RunInv(c, r, i);
    EchoesWithin(c, r.states[i], ip, |c.targets|);
  }

  // ---- jobs and progress ----

  ghost function One(b: bool): nat {
    if b then 1 else 0
  }

  /** Every target is in exactly one place at every moment, and `done` counts the finished ones. */
  lemma {:induction false} JobsConserved(c: Config, r: Run, i: nat, j: nat)
    requires IsRun(c, r) && i < |r.states| && j < |c.targets|
    ensures var s := r.states[i];
            One(j >= s.fed) + One(j in s.jobs) + One(InHand(s, j)) + One(j in s.finished) == 1
    ensures forall v: nat, w: nat | HandOf(r.states[i], v, j) && HandOf(r.states[i], w, j) :: v == w
    ensures NoDup(r.states[i].jobs) && r.states[i].done == |r.states[i].finished|
  {
    RunInv(c, r, i);
  }

  lemma {:induction false} SegmentSize(s: set<nat>, n: nat)
    requires forall j: nat :: j in s <==> j < n
    ensures |s| == n
  {
    if n > 0 {
      SegmentSize(s - {n - 1}, n - 1);
    } else {
      assert s == {};
    }
  }

  /** Once the pool has been joined exactly the fed targets are finished; without cancellation that is all of them. */
  lemma {:induction false} AllDone(c: Config, r: Run, i: nat)
    requires IsRun(c, r) && i < |r.states| && PoolJoined(r.states[i])
    ensures var s := r.states[i];
            && (forall j: nat :: j in s.finished <==> j < s.fed) && s.done == s.fed
            && (!s.cancelled ==> s.done == |c.targets|)
  {
    RunInv(c, r, i);
    var s := r.states[i];
    assert s.workers[0].Exited?;
    forall j: nat | j < s.fed ensures j in s.finished {
      assert !InHand(s, j);
    }
    SegmentSize(s.finished, s.fed);
  }

  /** At every moment the reported numbers are distinct members of 1..done; when the pool has been joined
      they are exactly 1..done. */
  lemma {:induction false} ReportsAreOneToDone(c: Config, r: Run, i: nat)
    requires IsRun(c, r) && i < |r.states|
    ensures var s := r.states[i];
            && NoDup(s.reports) && (forall n | n in s.reports :: 1 <= n <= s.done)
            && (c.progress && PoolJoined(s) ==> forall n: nat | 1 <= n <= s.done :: n in s.reports)
  {
    RunInv(c, r, i);
    var s := r.states[i];
    if c.progress && PoolJoined(s) {
      forall n: nat | 1 <= n <= s.done ensures n in s.reports {
        assert forall w: nat :: !Reporting(s, w, n);
      }
    }
  }

  // ---- the result ----

  /** The stage returns, without repeats, exactly the target addresses from which the reader read, before it exited,
      an echo reply that carries the stage's own identifier, or 0 in its place. */
  lemma {:induction false} ResultExact(c: Config, r: Run, i: nat)
    requires IsRun(c, r) && i < |r.states| && r.states[i].main.Returned?
    ensures NoDup(r.states[i].main.result)
    ensures forall k: Addr4 :: k in r.states[i].main.result <==>
              (exists j | 0 <= j < |c.targets| :: To4(c.targets[j]) == Some(k)) &&
              (exists n | 0 <= n < |r.states[i].heard| ::
                 || r.states[i].heard[n] == Datagram(Some(k), Message(true, Some(c.echoId)))
                 || r.states[i].heard[n] == Datagram(Some(k), Message(true, Some(0))))
  {
    RunInv(c, r, i);
    var s := r.states[i];
    forall k: Addr4 ensures k in s.main.result <==> IsTarget(c, k) && RepliedIn(s.heard, k, c.echoId) {
      AnsweredIs(c, s.heard, k);
    }
  }

  /** At every moment: live addresses are targets that replied, live never shrinks, and once the reader has exited
      it holds every target that replied and never changes. */
  lemma {:induction false} LiveIsSound(c: Config, r: Run, i: nat, k: nat)
    requires IsRun(c, r) && i <= k < |r.states|
    ensures forall ip | ip in r.states[k].table.live :: IsTarget(c, ip) && RepliedIn(r.states[k].heard, ip, c.echoId)
    ensures r.states[i].table.live <= r.states[k].table.live
    ensures r.states[i].reader.ReaderDone? ==>
              forall ip :: ip in r.states[k].table.live <==>
                             IsTarget(c, ip) && RepliedIn(r.states[i].heard, ip, c.echoId)
  {
    RunInv(c, r, k);
    RunInv(c, r, i);
    RunGrows(c, r, i, k);
    forall ip: Addr4
      ensures ip in Answered(c, r.states[k].heard) <==> IsTarget(c, ip) && RepliedIn(r.states[k].heard, ip, c.echoId)
      ensures ip in Answered(c, r.states[i].heard) <==> IsTarget(c, ip) && RepliedIn(r.states[i].heard, ip, c.echoId)
    {
      AnsweredIs(c, r.states[k].heard, ip);
      AnsweredIs(c, r.states[i].heard, ip);
    }
  }
}
