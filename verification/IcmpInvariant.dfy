/** The inductive invariant of the ICMP stage, one predicate per concern, and its preservation by every step. */
module IcmpInvariant {
  import opened Common
  import opened Addr
  import opened TrackerTable
  import opened IcmpModel

  predicate Holds(worker: Worker, j: nat) {
    (worker.Begin? || worker.Ping? || worker.Finish?) && worker.job == j
  }

  /** Worker w has job j in its hands. */
  predicate HandOf(s: State, w: nat, j: nat) {
    w < |s.workers| && Holds(s.workers[w], j)
  }

  ghost predicate InHand(s: State, j: nat) {
    exists w: nat :: HandOf(s, w, j)
  }

  ghost predicate Bounded(c: Config, s: State) {
    && |s.workers| == c.workers
    && s.fed <= |c.targets|
    && |s.jobs| <= 2 * c.workers
    && (forall j | j in s.jobs :: j < s.fed && IsJob(c, j))
    && (forall w: nat, j: nat | HandOf(s, w, j) :: j < s.fed && IsJob(c, j))
    && (forall j | j in s.finished :: j < s.fed)
    && s.done == |s.finished|
  }

  /** No target is in two places. */
  ghost predicate Separate(s: State) {
    && NoDup(s.jobs)
    && (forall j | j in s.jobs :: j !in s.finished)
    && (forall w: nat, j: nat | HandOf(s, w, j) :: j !in s.jobs && j !in s.finished)
    && (forall v: nat, w: nat, j: nat | HandOf(s, v, j) && HandOf(s, w, j) :: v == w)
  }

  /** No fed target is lost. */
  ghost predicate Covered(s: State) {
    forall j: nat | j < s.fed :: j in s.jobs || j in s.finished || InHand(s, j)
  }

  /** Each fed target is in exactly one of the channel buffer, one worker's hands, and the finished set. */
  ghost predicate Conserved(c: Config, s: State) {
    Bounded(c, s) && Separate(s) && Covered(s)
  }

  /** How far the main goroutine is tells what the others have done. */
  ghost predicate Phased(c: Config, s: State) {
    && (forall w | 0 <= w < |s.workers| && s.workers[w].Exited? :: JobsClosed(s) && s.jobs == [])
    && (PoolJoined(s) ==> forall w | 0 <= w < |s.workers| :: s.workers[w].Exited?)
    && (s.stopped <==> PoolJoined(s) && !s.main.StopReader?)
    && (s.connClosed <==> s.main.JoinReader? || s.main.Returned?)
    && (s.main.Returned? ==> s.reader.ReaderDone? && Enumerates(s.main.result, s.table.live))
    && (!s.main.Feed? && !s.main.SkipReport? && !s.cancelled ==> s.fed == |c.targets|)
  }

  predicate PoolJoined(s: State) {
    s.main.StopReader? || s.main.CloseConn? || s.main.JoinReader? || s.main.Returned?
  }

  /** Every worker in the retry loop holds a channel that the tracker knows under its target's address. */
  ghost predicate Tracked(c: Config, s: State) {
    && TableOk(s.table)
    && forall w | 0 <= w < |s.workers| && s.workers[w].Ping? ::
         IsJob(c, s.workers[w].job) && WaitsFor(s.table, Key(c, s.workers[w].job), s.workers[w].ch)
  }

  predicate HoldsLock(worker: Worker) {
    worker.Ping? && (worker.pc.Write? || worker.pc.Release?)
  }

  /** writeMu is held by exactly the worker that is between Lock and Unlock. */
  ghost predicate Locked(s: State) {
    && (forall w | 0 <= w < |s.workers| :: HoldsLock(s.workers[w]) <==> s.lock == Some(w))
    && (s.lock.Some? ==> s.lock.value < |s.workers|)
  }

  /** The number of echo requests job j has put on the wire. */
  function Sent(s: State, j: nat): nat {
    multiset(s.wire)[j]
  }

  /** The echoes a worker's own position in the loop accounts for. */
  function SentByNow(worker: Worker): nat
    requires worker.Ping?
  {
    worker.attempt + if worker.pc.Release? || worker.pc.Select? then 1 else 0
  }

  /** n echoes are right for what the worker has done so far for its job. */
  predicate InBudget(c: Config, worker: Worker, n: nat) {
    match worker
    case Begin(_) => n == 0
    case Ping(_, _, attempt, pc) =>
      n == SentByNow(worker) && (attempt < c.attempts || (attempt == c.attempts && pc.CheckCtx?))
    case _ => n <= c.attempts
  }

  ghost predicate Budgeted(c: Config, s: State) {
    && (forall j: nat | j >= s.fed || j in s.jobs :: Sent(s, j) == 0)
    && (forall w: nat, j: nat | HandOf(s, w, j) :: InBudget(c, s.workers[w], Sent(s, j)))
    && (forall j: nat :: Sent(s, j) <= c.attempts)
  }

  /** Worker w is about to report the value n. */
  predicate Reporting(s: State, w: nat, n: nat) {
    w < |s.workers| && s.workers[w] == Report(n)
  }

  ghost predicate Pending(s: State, n: nat) {
    s.main == SkipReport(n) || exists w: nat :: Reporting(s, w, n)
  }

  /** The values 1..done are handed out once each: every one is reported already or about to be. */
  ghost predicate Numbered(c: Config, s: State) {
    && (!c.progress ==> s.reports == [])
    && NoDup(s.reports)
    && (forall n | n in s.reports :: 1 <= n <= s.done)
    && (forall w: nat, n: nat | Reporting(s, w, n) :: 1 <= n <= s.done && n !in s.reports && s.main != SkipReport(n))
    && (forall v: nat, w: nat, n: nat | Reporting(s, v, n) && Reporting(s, w, n) :: v == w)
    && (s.main.SkipReport? ==> 1 <= s.main.n <= s.done && s.main.n !in s.reports)
    && (c.progress ==> forall n: nat | 1 <= n <= s.done :: n in s.reports || Pending(s, n))
  }

  /** The addresses the reader has accepted a reply from, computed from the datagrams alone. */
  ghost function Answered(c: Config, heard: seq<Datagram>): set<Addr4> {
    set i | 0 <= i < |heard| && Accepts(c, heard[i]) :: heard[i].peer.value
  }

  ghost function Recording(s: State): set<Addr4> {
    if s.reader.Record? then {s.reader.key} else {}
  }

  ghost predicate Exact(c: Config, s: State) {
    s.table.live + Recording(s) == Answered(c, s.heard)
  }

  ghost predicate Inv(c: Config, s: State) {
    && Conserved(c, s) && Phased(c, s) && Tracked(c, s) && Locked(s)
    && Budgeted(c, s) && Numbered(c, s) && Exact(c, s)
  }

  lemma {:induction false} InitInv(c: Config)
    requires ValidConfig(c)
    ensures Inv(c, Init(c))
  {
  }

  /** The state outside worker w that a worker step does not touch. */
  predicate Untouched(s: State, s': State, w: nat)
    requires w < |s.workers|
  {
    && |s'.workers| == |s.workers| && s'.workers == s.workers[w := s'.workers[w]]
    && s'.main == s.main && s'.fed == s.fed && s'.cancelled == s.cancelled && s'.stopped == s.stopped
    && s'.connClosed == s.connClosed && s'.reader == s.reader && s'.heard == s.heard && s'.table.live == s.table.live
  }

  lemma {:induction false} WorkFrame(c: Config, s: State, w: nat, choice: Choice)
    requires CanWork(c, s, w, choice)
    ensures Untouched(s, DoWork(c, s, w, choice), w)
  {
  }

  // ---- conservation ----

  /** The other workers' hands are untouched. */
  ghost predicate OnlyMoves(s: State, s': State, w: nat) {
    forall v: nat, j: nat | v != w :: HandOf(s', v, j) <==> HandOf(s, v, j)
  }

  lemma {:induction false} TakeConserves(c: Config, s: State, w: nat)
    requires Conserved(c, s) && w < |s.workers| && s.workers[w].Idle? && |s.jobs| > 0
    ensures Conserved(c, Moved(s, w, Begin(s.jobs[0])).(jobs := s.jobs[1..]))
  {
    var s' := Moved(s, w, Begin(s.jobs[0])).(jobs := s.jobs[1..]);
    assert OnlyMoves(s, s', w);
    assert forall j: nat :: HandOf(s', w, j) <==> j == s.jobs[0];
    assert s.jobs == [s.jobs[0]] + s'.jobs;
    assert forall j | j in s.jobs :: j == s.jobs[0] || j in s'.jobs;
    assert HandOf(s', w, s.jobs[0]);
  }

  lemma {:induction false} FinishConserves(c: Config, s: State, w: nat, n: nat)
    requires Conserved(c, s) && w < |s.workers| && s.workers[w].Finish?
    ensures Conserved(c, Moved(s, w, Report(n)).(done := s.done + 1, finished := s.finished + {s.workers[w].job}))
  {
    var s' := Moved(s, w, Report(n)).(done := s.done + 1, finished := s.finished + {s.workers[w].job});
    assert OnlyMoves(s, s', w);
    assert HandOf(s, w, s.workers[w].job);
  }

  /** A step by which worker w keeps its job, or keeps having none. */
  lemma {:induction false} SameJobConserves(c: Config, s: State, s': State, w: nat)
    requires Conserved(c, s) && |s'.workers| == |s.workers| && OnlyMoves(s, s', w)
    requires forall j: nat :: HandOf(s', w, j) <==> HandOf(s, w, j)
    requires s'.fed == s.fed && s'.jobs == s.jobs && s'.finished == s.finished && s'.done == s.done
    ensures Conserved(c, s')
  {
  }

  lemma {:induction false} FeedConserves(c: Config, s: State)
    requires Conserved(c, s) && IsJob(c, s.fed) && |s.jobs| < 2 * c.workers
    ensures Conserved(c, s.(jobs := s.jobs + [s.fed], fed := s.fed + 1))
  {
    var s' := s.(jobs := s.jobs + [s.fed], fed := s.fed + 1);
    assert forall v: nat, j: nat :: HandOf(s', v, j) <==> HandOf(s, v, j);
    NoDupAppend(s.jobs, s.fed);
  }

  lemma {:induction false} SkipConserves(c: Config, s: State, next: Main)
    requires Conserved(c, s) && s.fed < |c.targets|
    ensures Conserved(c, s.(main := next, done := s.done + 1, finished := s.finished + {s.fed}, fed := s.fed + 1))
  {
    var s' := s.(main := next, done := s.done + 1, finished := s.finished + {s.fed}, fed := s.fed + 1);
    assert forall v: nat, j: nat :: HandOf(s', v, j) <==> HandOf(s, v, j);
  }

  lemma {:induction false} MainConserves(c: Config, s: State, m: MainChoice)
    requires Conserved(c, s) && CanMain(c, s, m)
    ensures Conserved(c, DoMain(c, s, m))
  {
    if s.main.Feed? && m.Proceed? && s.fed < |c.targets| {
      if IsIPv4(c.targets[s.fed]) {
        FeedConserves(c, s);
      } else {
        SkipConserves(c, s, SkipReport(s.done + 1));
      }
    } else {
      SameJobConserves(c, s, DoMain(c, s, m), 0);
    }
  }

  lemma {:induction false} WorkConserves(c: Config, s: State, w: nat, choice: Choice)
    requires Conserved(c, s) && CanWork(c, s, w, choice)
    ensures Conserved(c, DoWork(c, s, w, choice))
  {
    if s.workers[w].Idle? && |s.jobs| > 0 {
      TakeConserves(c, s, w);
    } else if s.workers[w].Finish? {
      FinishConserves(c, s, w, s.done + 1);
    } else {
      WorkFrame(c, s, w, choice);
      SameJobConserves(c, s, DoWork(c, s, w, choice), w);
    }
  }

  // ---- phases ----

  lemma {:induction false} MainPhased(c: Config, s: State, m: MainChoice)
    requires Conserved(c, s) && Phased(c, s) && CanMain(c, s, m)
    ensures Phased(c, DoMain(c, s, m))
  {
  }

  lemma {:induction false} WorkPhased(c: Config, s: State, w: nat, choice: Choice)
    requires Phased(c, s) && CanWork(c, s, w, choice)
    ensures Phased(c, DoWork(c, s, w, choice))
  {
    WorkFrame(c, s, w, choice);
  }

  lemma {:induction false} ReadPhased(c: Config, s: State, r: ReadChoice)
    requires Phased(c, s) && CanRead(s, r)
    ensures Phased(c, DoRead(c, s, r))
  {
  }

  // ---- channels ----

  lemma {:induction false} WorkTracked(c: Config, s: State, w: nat, choice: Choice)
    requires Tracked(c, s) && CanWork(c, s, w, choice)
    ensures Tracked(c, DoWork(c, s, w, choice))
  {
    WorkFrame(c, s, w, choice);
    if s.workers[w].Begin? {
      WaiterKeeps(s.table, Key(c, s.workers[w].job));
    }
  }

  lemma {:induction false} ReadTracked(c: Config, s: State, r: ReadChoice)
    requires Tracked(c, s) && CanRead(s, r)
    ensures Tracked(c, DoRead(c, s, r))
  {
    if s.reader.Record? {
      GotReplyKeeps(s.table, s.reader.key);
    }
  }

  // ---- the write lock ----

  lemma {:induction false} WorkLocked(c: Config, s: State, w: nat, choice: Choice)
    requires Locked(s) && CanWork(c, s, w, choice)
    ensures Locked(DoWork(c, s, w, choice))
  {
    var s' := DoWork(c, s, w, choice);
    WorkFrame(c, s, w, choice);
    if !s.workers[w].Ping? {
      assert s'.lock == s.lock && !HoldsLock(s'.workers[w]);
    } else {
      assert s'.lock == if HoldsLock(s'.workers[w]) then Some(w) else if HoldsLock(s.workers[w]) then None else s.lock;
    }
  }

  // ---- the echo budget ----

  /** A step that moves no worker, sends nothing and adds only unfed targets to the buffer. */
  lemma {:induction false} UnmovedBudgeted(c: Config, s: State, s': State)
    requires Budgeted(c, s) && s'.workers == s.workers && s'.wire == s.wire
    requires s.fed <= s'.fed && forall j | j in s'.jobs :: j in s.jobs || j >= s.fed
    ensures Budgeted(c, s')
  {
    assert forall j: nat :: Sent(s', j) == Sent(s, j);
    assert forall v: nat, j: nat :: HandOf(s', v, j) <==> HandOf(s, v, j);
  }

  lemma {:induction false} MainBudgeted(c: Config, s: State, m: MainChoice)
    requires Budgeted(c, s) && CanMain(c, s, m)
    ensures Budgeted(c, DoMain(c, s, m))
  {
    UnmovedBudgeted(c, s, DoMain(c, s, m));
  }

  lemma {:induction false} PingBudgeted(c: Config, s: State, w: nat, choice: Choice)
    requires Conserved(c, s) && Budgeted(c, s) && CanWork(c, s, w, choice) && s.workers[w].Ping?
    ensures Budgeted(c, DoPing(c, s, w, choice))
  {
    var s' := DoPing(c, s, w, choice);
    var j := s.workers[w].job;
    assert HandOf(s, w, j);
    assert OnlyMoves(s, s', w);
    assert forall i: nat | i != j :: Sent(s', i) == Sent(s, i);
    assert Sent(s', j) == Sent(s, j) + if s.workers[w].pc.Write? then 1 else 0;
    assert InBudget(c, s'.workers[w], Sent(s', j));
    assert Sent(s', j) <= c.attempts;
  }

  lemma {:induction false} WorkBudgeted(c: Config, s: State, w: nat, choice: Choice)
    requires Conserved(c, s) && Budgeted(c, s) && CanWork(c, s, w, choice)
    ensures Budgeted(c, DoWork(c, s, w, choice))
  {
    if s.workers[w].Ping? {
      PingBudgeted(c, s, w, choice);
    } else {
      WorkFrame(c, s, w, choice);
      NoEchoBudgeted(c, s, DoWork(c, s, w, choice), w);
    }
  }

  /** A step that sends nothing and leaves the worker with a job it may still echo for. */
  lemma {:induction false} NoEchoBudgeted(c: Config, s: State, s': State, w: nat)
    requires Conserved(c, s) && Budgeted(c, s) && w < |s.workers| && Untouched(s, s', w) && s'.wire == s.wire
    requires s'.workers[w].Ping? ==> s'.workers[w].attempt == 0 && s'.workers[w].pc == CheckCtx
    requires forall j | j in s'.jobs :: j in s.jobs
    requires forall j: nat | Holds(s'.workers[w], j) ::
               (s'.workers[w].Begin? && j in s.jobs) || (s'.workers[w].Ping? && s.workers[w] == Begin(j))
    ensures Budgeted(c, s')
  {
    assert OnlyMoves(s, s', w);
    assert forall j: nat :: Sent(s', j) == Sent(s, j);
    forall j: nat | HandOf(s', w, j) ensures InBudget(c, s'.workers[w], Sent(s', j)) {
      assert Holds(s'.workers[w], j);
      if j !in s.jobs {
        assert HandOf(s, w, j);
      }
    }
  }

  // ---- progress numbers ----

  /** The feeder's own report of a target it skipped. */
  lemma {:induction false} SkipNumbered(c: Config, s: State, s': State)
    requires Numbered(c, s) && s.main.SkipReport? && !s'.main.SkipReport?
    requires s'.workers == s.workers && s'.done == s.done && s'.reports == Note(c, s.reports, s.main.n)
    ensures Numbered(c, s')
  {
    NoDupAppend(s.reports, s.main.n);
    assert forall v: nat, n: nat :: Reporting(s', v, n) <==> Reporting(s, v, n);
    forall n: nat | c.progress && 1 <= n <= s'.done ensures n in s'.reports || Pending(s', n) {
      assert n in s.reports || Pending(s, n);
    }
  }

  /** The feeder counts a target it skips, and is about to report it. */
  lemma {:induction false} SkipCounted(c: Config, s: State, s': State)
    requires Numbered(c, s) && !s.main.SkipReport? && s'.main == SkipReport(s.done + 1)
    requires s'.workers == s.workers && s'.done == s.done + 1 && s'.reports == s.reports
    ensures Numbered(c, s')
  {
    assert forall v: nat, n: nat :: Reporting(s', v, n) <==> Reporting(s, v, n);
    forall n: nat | c.progress && 1 <= n <= s'.done ensures n in s'.reports || Pending(s', n) {
      assert n == s'.done || n in s.reports || Pending(s, n);
    }
  }

  lemma {:induction false} MainNumbered(c: Config, s: State, m: MainChoice)
    requires Numbered(c, s) && CanMain(c, s, m)
    ensures Numbered(c, DoMain(c, s, m))
  {
    var s' := DoMain(c, s, m);
    if s.main.SkipReport? {
      SkipNumbered(c, s, s');
    } else if s'.main.SkipReport? {
      SkipCounted(c, s, s');
    } else {
      assert forall v: nat, n: nat :: Reporting(s', v, n) <==> Reporting(s, v, n);
    }
  }

  lemma {:induction false} ReportNumbered(c: Config, s: State, w: nat)
    requires Numbered(c, s) && w < |s.workers| && s.workers[w].Report?
    ensures Numbered(c, Moved(s, w, Idle).(reports := Note(c, s.reports, s.workers[w].n)))
  {
    var n := s.workers[w].n;
    var s' := Moved(s, w, Idle).(reports := Note(c, s.reports, n));
    assert Reporting(s, w, n);
    assert forall v: nat, m: nat :: Reporting(s', v, m) <==> Reporting(s, v, m) && v != w;
    NoDupAppend(s.reports, n);
    forall m: nat | c.progress && 1 <= m <= s.done && m !in s'.reports ensures Pending(s', m) {
      assert Pending(s, m) && !Reporting(s, w, m);
    }
  }

  lemma {:induction false} FinishNumbered(c: Config, s: State, w: nat)
    requires Numbered(c, s) && w < |s.workers| && s.workers[w].Finish?
    ensures Numbered(c, Moved(s, w, Report(s.done + 1)).(
                          done := s.done + 1, finished := s.finished + {s.workers[w].job}))
  {
    var s' := Moved(s, w, Report(s.done + 1)).(done := s.done + 1, finished := s.finished + {s.workers[w].job});
    assert forall v: nat, m: nat :: Reporting(s', v, m) <==> (Reporting(s, v, m) && v != w) || (v == w && m == s'.done);
    assert Reporting(s', w, s'.done);
    forall m: nat | c.progress && 1 <= m <= s.done && m !in s'.reports ensures Pending(s', m) {
      assert Pending(s, m) && !Reporting(s, w, m);
    }
  }

  lemma {:induction false} WorkNumbered(c: Config, s: State, w: nat, choice: Choice)
    requires Numbered(c, s) && CanWork(c, s, w, choice)
    ensures Numbered(c, DoWork(c, s, w, choice))
  {
    if s.workers[w].Report? {
      ReportNumbered(c, s, w);
    } else if s.workers[w].Finish? {
      FinishNumbered(c, s, w);
    } else {
      WorkFrame(c, s, w, choice);
      NoReportNumbered(c, s, DoWork(c, s, w, choice), w);
    }
  }

  lemma {:induction false} NoReportNumbered(c: Config, s: State, s': State, w: nat)
    requires Numbered(c, s) && w < |s.workers| && Untouched(s, s', w) && s'.reports == s.reports && s'.done == s.done
    requires s'.finished == s.finished && !s.workers[w].Report? && !s'.workers[w].Report?
    ensures Numbered(c, s')
  {
    assert forall v: nat, m: nat :: Reporting(s', v, m) <==> Reporting(s, v, m);
  }

  // ---- replies ----

  /** k is the IPv4 address of some target. */
  ghost predicate IsTarget(c: Config, k: Addr4) {
    exists j | 0 <= j < |c.targets| :: To4(c.targets[j]) == Some(k)
  }

  /** `d` is an echo reply from k that carries the stage's own identifier, or 0 in its place. */
  predicate ReplyFrom(d: Datagram, k: Addr4, echoId: int) {
    d == Datagram(Some(k), Message(true, Some(echoId))) || d == Datagram(Some(k), Message(true, Some(0)))
  }

  /** Such a reply is among the datagrams. */
  ghost predicate RepliedIn(heard: seq<Datagram>, k: Addr4, echoId: int) {
    exists i | 0 <= i < |heard| :: ReplyFrom(heard[i], k, echoId)
  }

  lemma {:induction false} WantedIsTargets(c: Config, k: Addr4)
    ensures k in Wanted(c) <==> IsTarget(c, k)
  {
    if j :| 0 <= j < |c.targets| && To4(c.targets[j]) == Some(k) {
      assert IsJob(c, j) && Key(c, j) == k;
    }
  }

  /** What the reader accepts: the echo replies from targets that carry the stage's own identifier, or 0. */
  lemma {:induction false} AcceptsIff(c: Config, d: Datagram, k: Addr4)
    ensures Accepts(c, d) && d.peer == Some(k) <==> IsTarget(c, k) && ReplyFrom(d, k, c.echoId)
  {
    WantedIsTargets(c, k);
  }

  /** The addresses accepted so far, without the functions of the code: targets from which such a reply was read. */
  lemma {:induction false} AnsweredIs(c: Config, heard: seq<Datagram>, k: Addr4)
    ensures k in Answered(c, heard) <==> IsTarget(c, k) && RepliedIn(heard, k, c.echoId)
  {
    if k in Answered(c, heard) {
      var i :| 0 <= i < |heard| && Accepts(c, heard[i]) && heard[i].peer.value == k;
      AcceptsIff(c, heard[i], k);
    }
    if IsTarget(c, k) && RepliedIn(heard, k, c.echoId) {
      var i :| 0 <= i < |heard| && ReplyFrom(heard[i], k, c.echoId);
      AcceptsIff(c, heard[i], k);
    }
  }

  /** One more datagram adds its sender if and only if it is such a reply from a target. */
  lemma {:induction false} AnsweredAppend(c: Config, heard: seq<Datagram>, d: Datagram)
    ensures Answered(c, heard + [d]) == Answered(c, heard) + if Accepts(c, d) then {d.peer.value} else {}
    ensures forall k :: k in Answered(c, heard + [d]) <==>
                          k in Answered(c, heard) || (IsTarget(c, k) && ReplyFrom(d, k, c.echoId))
  {
    var all := heard + [d];
    assert forall i | 0 <= i < |heard| :: all[i] == heard[i];
    assert all[|heard|] == d;
    forall k | k in Answered(c, heard) ensures k in Answered(c, all) {
      var i :| 0 <= i < |heard| && Accepts(c, heard[i]) && heard[i].peer.value == k;
      assert all[i] == heard[i];
    }
    forall k: Addr4 ensures Accepts(c, d) && d.peer == Some(k) <==> IsTarget(c, k) && ReplyFrom(d, k, c.echoId) {
      AcceptsIff(c, d, k);
    }
  }

  lemma {:induction false} ReadExact(c: Config, s: State, r: ReadChoice)
    requires Exact(c, s) && CanRead(s, r)
    ensures Exact(c, DoRead(c, s, r))
  {
    if r.Received? {
      AnsweredAppend(c, s.heard, r.d);
    }
  }

  lemma {:induction false} MainInv(c: Config, s: State, m: MainChoice)
    requires Inv(c, s) && CanMain(c, s, m)
    ensures Inv(c, DoMain(c, s, m))
  {
    MainConserves(c, s, m);
    MainPhased(c, s, m);
    MainBudgeted(c, s, m);
    MainNumbered(c, s, m);
  }

  lemma {:induction false} WorkInv(c: Config, s: State, w: nat, choice: Choice)
    requires Inv(c, s) && CanWork(c, s, w, choice)
    ensures Inv(c, DoWork(c, s, w, choice))
  {
    WorkConserves(c, s, w, choice);
    WorkPhased(c, s, w, choice);
    WorkTracked(c, s, w, choice);
    WorkLocked(c, s, w, choice);
    WorkBudgeted(c, s, w, choice);
    WorkNumbered(c, s, w, choice);
    WorkFrame(c, s, w, choice);
  }

  /** A step that leaves the feeder and the pool alone. */
  lemma {:induction false} PoolUntouched(c: Config, s: State, s': State)
    requires Conserved(c, s) && Budgeted(c, s) && Numbered(c, s)
    requires s'.main == s.main && s'.fed == s.fed && s'.jobs == s.jobs && s'.workers == s.workers && s'.done == s.done
    requires s'.finished == s.finished && s'.wire == s.wire && s'.reports == s.reports
    ensures Conserved(c, s') && Budgeted(c, s') && Numbered(c, s')
  {
    SameJobConserves(c, s, s', 0);
    assert forall w: nat, n: nat :: Reporting(s', w, n) <==> Reporting(s, w, n);
    assert forall w: nat, j: nat :: HandOf(s', w, j) <==> HandOf(s, w, j);
    assert forall j: nat :: Sent(s', j) == Sent(s, j);
  }

  lemma {:induction false} ReadFrame(c: Config, s: State, r: ReadChoice)
    requires CanRead(s, r)
    ensures var s' := DoRead(c, s, r);
            && s'.main == s.main && s'.fed == s.fed && s'.jobs == s.jobs && s'.workers == s.workers && s'.done == s.done
            && s'.finished == s.finished && s'.wire == s.wire && s'.reports == s.reports && s'.lock == s.lock
            && s'.cancelled == s.cancelled && s'.stopped == s.stopped && s'.connClosed == s.connClosed
  {
  }

  lemma {:induction false} ReadInv(c: Config, s: State, r: ReadChoice)
    requires Inv(c, s) && CanRead(s, r)
    ensures Inv(c, DoRead(c, s, r))
  {
    ReadFrame(c, s, r);
    PoolUntouched(c, s, DoRead(c, s, r));
    ReadPhased(c, s, r);
    ReadTracked(c, s, r);
    ReadExact(c, s, r);
  }

  lemma {:induction false} CancelInv(c: Config, s: State)
    requires Inv(c, s)
    ensures Inv(c, s.(cancelled := true))
  {
    PoolUntouched(c, s, s.(cancelled := true));
  }

  /** Every step of every goroutine and of the environment keeps the invariant. */
  lemma {:induction false} StepInv(c: Config, s: State, a: Action)
    requires Inv(c, s) && Enabled(c, s, a)
    ensures Inv(c, Do(c, s, a))
  {
    match a {
      case Cancel => CancelInv(c, s);
      case MainStep(m) => MainInv(c, s, m);
      case WorkerStep(w, choice) => WorkInv(c, s, w, choice);
      case ReaderStep(r) => ReadInv(c, s, r);
    }
  }

  /** The invariant holds in every state of every run. */
  lemma {:induction false} RunInv(c: Config, r: Run, i: nat)
    requires IsRun(c, r) && i < |r.states|
    ensures Inv(c, r.states[i])
  {
    if i == 0 {
      InitInv(c);
    } else {
      RunInv(c, r, i - 1);
      assert StepOf(c, r, i - 1);
      StepInv(c, r.states[i - 1], r.actions[i - 1]);
    }
  }
}
