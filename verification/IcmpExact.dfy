/** Why a pingOne ends, and why the reader does: nothing stops either early. So on every run each target is sent
    exactly `attempts` echoes, unless it answers, the context is cancelled, or an echo cannot be encoded. */
module IcmpExact {
  import opened Common
  import opened TrackerTable
  import opened IcmpModel
  import opened IcmpInvariant
  import opened IcmpTheorems

  // ---- a step ----

  /** What the loop of pingOne tests at each of its exits. */
  ghost predicate Exit(c: Config, s: State, p: Worker, choice: Choice)
    requires p.Ping? && IsJob(c, p.job)
  {
    match p.pc
    case CheckCtx => Sent(s, p.job) == c.attempts || s.cancelled
    case CheckReplied => Key(c, p.job) in s.table.live
    case Encode => choice.Fail?
    case Select => !choice.ByTimer?
    case _ => false
  }

  /** A step takes a job out of its loop exactly at such an exit. */
  lemma {:induction false} PingExits(c: Config, s: State, w: nat, choice: Choice)
    requires Inv(c, s) && CanWork(c, s, w, choice) && s.workers[w].Ping?
    ensures Do(c, s, WorkerStep(w, choice)).workers[w].Finish? <==> Exit(c, s, s.workers[w], choice)
  {
    assert HandOf(s, w, s.workers[w].job);
  }

  /** The job has had all its echoes, or something the code looks at excuses it from the rest. */
  predicate Excused(c: Config, s: State, j: nat)
    requires IsJob(c, j)
  {
    Sent(s, j) == c.attempts || s.cancelled || Key(c, j) in s.table.live
  }

  /** Whenever a worker step takes a job from its loop to its end, the job's echoes are exactly `attempts`, or the
      context is cancelled, or the address is live, or the echo could not be encoded. */
  lemma {:induction false} PingEnds(c: Config, r: Run, i: nat)
    requires IsRun(c, r) && i < |r.actions| && r.actions[i].WorkerStep?
    requires var s, t, w := r.states[i], r.states[i + 1], r.actions[i].w;
             w < |s.workers| && w < |t.workers| && s.workers[w].Ping? && t.workers[w].Finish?
    ensures var s, j := r.states[i], r.states[i].workers[r.actions[i].w].job;
            && IsJob(c, j) && r.states[i + 1].workers[r.actions[i].w] == Finish(j)
            && (Sent(s, j) == c.attempts || s.cancelled || Key(c, j) in s.table.live || r.actions[i].choice.Fail?)
  {
    var s, w := r.states[i], r.actions[i].w;
    var p := s.workers[w];
    RunInv(c, r, i);
    assert StepOf(c, r, i);
    PingExits(c, s, w, r.actions[i].choice);
    ClosedIffLive(s.table, Key(c, p.job), p.ch);
  }

  // ---- a run ----

  /** The n-th action of the run is a failure to encode an echo for job j. */
  predicate EncodeFails(r: Run, j: nat, n: nat) {
    && n < |r.actions| && n < |r.states| && r.actions[n].WorkerStep? && r.actions[n].choice.Fail?
    && var w, workers := r.actions[n].w, r.states[n].workers;
       w < |workers| && workers[w].Ping? && workers[w].job == j
  }

  ghost predicate EncodeFailed(r: Run, j: nat, i: nat) {
    exists n: nat | n < i :: EncodeFails(r, j, n)
  }

  /** pingOne for job j has ended. */
  ghost predicate Over(s: State, j: nat) {
    j in s.finished || exists w: nat :: w < |s.workers| && s.workers[w] == Finish(j)
  }

  lemma {:induction false} StaysExcused(c: Config, r: Run, i: nat, j: nat)
    requires IsRun(c, r) && i < |r.actions| && IsJob(c, j) && Excused(c, r.states[i], j)
    ensures Excused(c, r.states[i + 1], j)
  {
    RunStepGrows(c, r, i);
    RunInv(c, r, i + 1);
    assert StepOf(c, r, i);
    WireGrows(c, r.states[i], r.actions[i]);
    SentGrows(r.states[i], r.states[i + 1], j);
  }

  lemma {:induction false} WireGrows(c: Config, s: State, a: Action)
    requires Enabled(c, s, a)
    ensures s.wire <= Do(c, s, a).wire
  {
  }

  lemma {:induction false} SentGrows(s: State, t: State, j: nat)
    requires s.wire <= t.wire
    ensures Sent(s, j) <= Sent(t, j)
  {
    assert t.wire == s.wire + t.wire[|s.wire|..];
  }

  lemma {:induction false} MainEndsNone(c: Config, s: State, m: MainChoice, j: nat)
    requires CanMain(c, s, m) && IsJob(c, j) && Over(DoMain(c, s, m), j)
    ensures Over(s, j)
  {
  }

  /** A job that a worker's step ends, and that had not ended before, was taken out of its loop by it. */
  lemma {:induction false} WorkEnds(c: Config, s: State, w: nat, choice: Choice, j: nat)
    requires CanWork(c, s, w, choice) && Over(DoWork(c, s, w, choice), j) && !Over(s, j)
    ensures s.workers[w].Ping? && s.workers[w].job == j && DoWork(c, s, w, choice).workers[w] == Finish(j)
  {
    var t := DoWork(c, s, w, choice);
    WorkFrame(c, s, w, choice);
    assert s.workers[w] != Finish(j);
    assert j !in t.finished;
    var v: nat :| v < |t.workers| && t.workers[v] == Finish(j);
    assert s.workers[v] != Finish(j);
  }

  lemma {:induction false} EndsNow(c: Config, s: State, a: Action, j: nat)
    requires Enabled(c, s, a) && IsJob(c, j) && Over(Do(c, s, a), j) && !Over(s, j)
    ensures a.WorkerStep? && a.w < |s.workers| && s.workers[a.w].Ping? && s.workers[a.w].job == j
    ensures Do(c, s, a).workers[a.w] == Finish(j)
  {
    match a {
      case MainStep(m) => MainEndsNone(c, s, m, j);
      case WorkerStep(w, choice) => WorkEnds(c, s, w, choice, j);
      case _ =>
    }
  }

  /** Every job that has ended was sent exactly `attempts` echoes, or the context is cancelled, or its address is
      live, or an echo for it could not be encoded. */
  lemma {:induction false} EndedIsExcused(c: Config, r: Run, i: nat, j: nat)
    requires IsRun(c, r) && i < |r.states| && IsJob(c, j) && Over(r.states[i], j)
    ensures Excused(c, r.states[i], j) || EncodeFailed(r, j, i)
  {
    if i == 0 {
      assert false;
    } else {
      assert StepOf(c, r, i - 1);
      if Over(r.states[i - 1], j) {
        EndedIsExcused(c, r, i - 1, j);
      } else {
        EndsNow(c, r.states[i - 1], r.actions[i - 1], j);
        PingEnds(c, r, i - 1);
        assert r.actions[i - 1].choice.Fail? ==> EncodeFails(r, j, i - 1);
      }
      if Excused(c, r.states[i - 1], j) {
        StaysExcused(c, r, i - 1, j);
      }
    }
  }

  /** The exact count. When the pool has been joined and nothing was cancelled, every IPv4 target has been sent
      exactly `attempts` echoes, unless its address answered or an echo for it could not be encoded. */
  lemma {:induction false} EveryTargetIsPinged(c: Config, r: Run, i: nat, j: nat)
    requires IsRun(c, r) && i < |r.states| && PoolJoined(r.states[i]) && !r.states[i].cancelled && IsJob(c, j)
    ensures Sent(r.states[i], j) == c.attempts || Key(c, j) in r.states[i].table.live || EncodeFailed(r, j, i)
  {
    AllDone(c, r, i);
    RunInv(c, r, i);
    assert j < r.states[i].fed;
    EndedIsExcused(c, r, i, j);
  }

  // ---- the reader ----

  /** A read failed for good. */
  ghost predicate ReadBroke(r: Run, i: nat) {
    exists n: nat | n < i && n < |r.actions| :: r.actions[n] == ReaderStep(Error)
  }

  /** The reader is done, or about to be whatever the context says. */
  predicate Leaving(reader: Reader) {
    reader.ReaderDone? || reader == ReadFailed(false)
  }

  lemma {:induction false} LeavesFor(c: Config, s: State, a: Action)
    requires Enabled(c, s, a) && Leaving(Do(c, s, a).reader) && !Leaving(s.reader)
    ensures s.cancelled || s.stopped || a == ReaderStep(Error)
  {
    if a.WorkerStep? {
      WorkFrame(c, s, a.w, a.choice);
    }
  }

  lemma {:induction false} SignalsStay(c: Config, s: State, a: Action)
    requires Enabled(c, s, a)
    ensures s.cancelled || s.stopped ==> Do(c, s, a).cancelled || Do(c, s, a).stopped
  {
    if a.WorkerStep? {
      WorkFrame(c, s, a.w, a.choice);
    }
  }

  lemma {:induction false} LeavingHasReason(c: Config, r: Run, i: nat)
    requires IsRun(c, r) && i < |r.states| && Leaving(r.states[i].reader)
    ensures r.states[i].cancelled || r.states[i].stopped || ReadBroke(r, i)
  {
    if i == 0 {
      assert false;
    } else {
      assert StepOf(c, r, i - 1);
      SignalsStay(c, r.states[i - 1], r.actions[i - 1]);
      if Leaving(r.states[i - 1].reader) {
        LeavingHasReason(c, r, i - 1);
      } else {
        LeavesFor(c, r.states[i - 1], r.actions[i - 1]);
      }
    }
  }

  /** The reader goes on reading, whatever datagrams and timeouts it gets, until the context is cancelled, the pool
      has been joined and stopReader called, or a read fails with an error that is no timeout. */
  lemma {:induction false} ReaderGoesOn(c: Config, r: Run, i: nat)
    requires IsRun(c, r) && i < |r.states| && r.states[i].reader.ReaderDone?
    ensures r.states[i].cancelled || ReadBroke(r, i) || (r.states[i].stopped && PoolJoined(r.states[i]))
  {
    RunInv(c, r, i);
    LeavingHasReason(c, r, i);
  }
}
