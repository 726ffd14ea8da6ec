/** The ICMP stage cannot deadlock and cannot run on: some goroutine can always move, every move of the feeder
    and the pool uses up a bounded budget, and the reader exits within three steps of being told to. */
module IcmpProgress {
  import opened Common
  import opened Addr
  import opened IcmpModel
  import opened IcmpInvariant

  // ---- some step is always enabled ----

  /** A worker that has not exited can move, or the worker holding writeMu can. */
  lemma {:induction false} PoolMoves(c: Config, s: State, w: nat) returns (a: Action)
    requires Inv(c, s) && w < |s.workers| && !s.workers[w].Exited? && (|s.jobs| > 0 || JobsClosed(s))
    ensures a.WorkerStep? && Enabled(c, s, a)
  {
    var worker := s.workers[w];
    if !worker.Idle? && !worker.Report? {
      assert HandOf(s, w, worker.job);
    }
    if worker.Ping? && worker.pc.Acquire? && s.lock.Some? {
      var v := s.lock.value;
      assert HoldsLock(s.workers[v]) && HandOf(s, v, s.workers[v].job);
      a := WorkerStep(v, Go);
    } else if worker.Ping? && worker.pc.Select? {
      a := WorkerStep(w, ByTimer);
    } else {
      a := WorkerStep(w, Go);
    }
  }

  predicate IsProgramStep(a: Action) {
    a.MainStep? || a.WorkerStep?
  }

  /** Deadlock freedom: until the stage has returned, the feeder or a worker can move, except that while the
      main goroutine waits to join the reader it is the reader that can move. */
  lemma {:induction false} NoDeadlock(c: Config, r: Run, i: nat) returns (a: Action)
    requires IsRun(c, r) && i < |r.states| && !r.states[i].main.Returned?
    ensures var s := r.states[i];
            && Enabled(c, s, a)
            && if s.main.JoinReader? && !s.reader.ReaderDone? then a.ReaderStep? else IsProgramStep(a)
  {
    RunInv(c, r, i);
    var s := r.states[i];
    match s.main {
      case Feed =>
        if s.fed < |c.targets| && IsIPv4(c.targets[s.fed]) && |s.jobs| >= 2 * c.workers {
          a := PoolMoves(c, s, 0);
        } else {
          a := MainStep(Proceed);
        }
      case WaitWorkers =>
        if w: nat :| w < |s.workers| && !s.workers[w].Exited? {
          a := PoolMoves(c, s, w);
        } else {
          a := MainStep(Proceed);
        }
      case JoinReader =>
        if s.reader.ReaderDone? {
          var order := EnumerationExists(s.table.live);
          a := MainStep(Deliver(order));
        } else {
          a := ReaderStep(if s.reader.Reading? then Timeout else Continue);
        }
      case _ =>
        a := MainStep(Proceed);
    }
  }

  // ---- the budget of steps ----

  /** The steps a job still costs once it is in the channel buffer. */
  function JobCost(c: Config): nat {
    7 * c.attempts + 5
  }

  function PcRank(pc: PingPc): nat {
    match pc
    case CheckCtx => 0
    case CheckReplied => 1
    case Encode => 2
    case Acquire => 3
    case Write => 4
    case Release => 5
    case Select => 6
  }

  /** The steps a worker can still take with what it has in hand. */
  function WorkerRank(c: Config, worker: Worker): nat {
    match worker
    case Exited => 0
    case Idle => 1
    case Report(_) => 2
    case Finish(_) => 3
    case Ping(_, _, attempt, pc) => if attempt >= c.attempts then 4 else 4 + 7 * (c.attempts - attempt) - PcRank(pc)
    case Begin(_) => JobCost(c)
  }

  function PoolRank(c: Config, workers: seq<Worker>): nat {
    if workers == [] then 0 else WorkerRank(c, workers[0]) + PoolRank(c, workers[1..])
  }

  function MainRank(m: Main): nat {
    match m
    case SkipReport(_) => 7
    case Feed => 6
    case CloseJobs => 5
    case WaitWorkers => 4
    case StopReader => 3
    case CloseConn => 2
    case JoinReader => 1
    case Returned(_) => 0
  }

  /** n times cost */
  function Times(n: nat, cost: nat): nat {
    if n == 0 then 0 else cost + Times(n - 1, cost)
  }

  lemma {:induction false} TimesIsProduct(n: nat, cost: nat)
    ensures Times(n, cost) == n * cost
  {
    if n == 0 {
    } else {
      TimesIsProduct(n - 1, cost);
      assert n * cost == (n - 1) * cost + cost;
    }
  }

  /** Remaining targets, buffered jobs, the workers' positions and the main goroutine's position. */
  function Measure(c: Config, s: State): nat
    requires s.fed <= |c.targets|
  {
    Times(|c.targets| - s.fed, JobCost(c) + 1) + Times(|s.jobs|, JobCost(c)) + PoolRank(c, s.workers) + MainRank(s.main)
  }

  lemma {:induction false} PoolRankUpdate(c: Config, workers: seq<Worker>, w: nat, next: Worker)
    requires w < |workers|
    ensures PoolRank(c, workers[w := next]) + WorkerRank(c, workers[w]) == PoolRank(c, workers) + WorkerRank(c, next)
  {
    if w == 0 {
      assert workers[0 := next][1..] == workers[1..];
    } else {
      assert workers[w := next][1..] == workers[1..][w - 1 := next];
      PoolRankUpdate(c, workers[1..], w - 1, next);
    }
  }

  lemma {:induction false} MainUses(c: Config, s: State, m: MainChoice)
    requires Bounded(c, s) && CanMain(c, s, m)
    ensures DoMain(c, s, m).fed <= |c.targets| && Measure(c, DoMain(c, s, m)) < Measure(c, s)
  {
  }

  lemma {:induction false} PingRankDrops(c: Config, s: State, p: Worker, choice: Choice)
    requires p.Ping? && IsJob(c, p.job) && CanPing(s, p, choice)
    requires p.attempt < c.attempts || (p.attempt == c.attempts && p.pc.CheckCtx?)
    ensures WorkerRank(c, NextPing(c, s, p, choice)) < WorkerRank(c, p)
  {
  }

  lemma {:induction false} RankDrops(c: Config, s: State, w: nat, choice: Choice)
    requires Budgeted(c, s) && CanWork(c, s, w, choice) && !(s.workers[w].Idle? && |s.jobs| > 0)
    ensures DoWork(c, s, w, choice).jobs == s.jobs
    ensures WorkerRank(c, DoWork(c, s, w, choice).workers[w]) < WorkerRank(c, s.workers[w])
  {
    if s.workers[w].Ping? {
      assert HandOf(s, w, s.workers[w].job);
      PingRankDrops(c, s, s.workers[w], choice);
    }
  }

  lemma {:induction false} WorkUses(c: Config, s: State, w: nat, choice: Choice)
    requires Bounded(c, s) && Budgeted(c, s) && CanWork(c, s, w, choice)
    ensures DoWork(c, s, w, choice).fed <= |c.targets| && Measure(c, DoWork(c, s, w, choice)) < Measure(c, s)
  {
    var s' := DoWork(c, s, w, choice);
    WorkFrame(c, s, w, choice);
    PoolRankUpdate(c, s.workers, w, s'.workers[w]);
    if s.workers[w].Idle? && |s.jobs| > 0 {
      assert |s'.jobs| == |s.jobs| - 1;
    } else {
      RankDrops(c, s, w, choice);
    }
  }

  /** Every step of the feeder or a worker lowers the measure; cancellation and the reader leave it alone. */
  lemma {:induction false} StepUses(c: Config, s: State, a: Action)
    requires Bounded(c, s) && Budgeted(c, s) && Enabled(c, s, a)
    ensures Do(c, s, a).fed <= |c.targets|
    ensures Measure(c, Do(c, s, a)) + (if IsProgramStep(a) then 1 else 0) <= Measure(c, s)
  {
    match a {
      case MainStep(m) => MainUses(c, s, m);
      case WorkerStep(w, choice) => WorkUses(c, s, w, choice);
      case _ =>
    }
  }

  function ProgramSteps(actions: seq<Action>): nat {
    if actions == [] then 0
    else ProgramSteps(actions[..|actions| - 1]) + if IsProgramStep(actions[|actions| - 1]) then 1 else 0
  }

  lemma {:induction false} IdlePoolRank(c: Config, n: nat)
    ensures PoolRank(c, seq(n, _ => Idle)) == n
  {
    if n == 0 {
    } else {
      assert seq(n, _ => Idle)[1..] == seq(n - 1, _ => Idle);
      IdlePoolRank(c, n - 1);
    }
  }

  lemma {:induction false} RunStepUses(c: Config, r: Run, k: nat)
    requires IsRun(c, r) && k < |r.actions|
    ensures r.states[k].fed <= |c.targets| && r.states[k + 1].fed <= |c.targets|
    ensures Measure(c, r.states[k + 1]) + (if IsProgramStep(r.actions[k]) then 1 else 0) <= Measure(c, r.states[k])
  {
    RunInv(c, r, k);
    assert StepOf(c, r, k);
    StepUses(c, r.states[k], r.actions[k]);
  }

  lemma {:induction false} StepsUsed(c: Config, r: Run, k: nat)
    requires IsRun(c, r) && k < |r.states|
    ensures r.states[k].fed <= |c.targets|
    ensures ProgramSteps(r.actions[..k]) + Measure(c, r.states[k]) <= Measure(c, Init(c))
  {
    if k == 0 {
    } else {
      StepsUsed(c, r, k - 1);
      RunStepUses(c, r, k - 1);
      assert r.actions[..k][..k - 1] == r.actions[..k - 1];
    }
  }

  lemma {:induction false} InitialMeasure(c: Config)
    ensures Measure(c, Init(c)) == |c.targets| * (7 * c.attempts + 6) + c.workers + 6
  {
    IdlePoolRank(c, c.workers);
    TimesIsProduct(|c.targets|, JobCost(c) + 1);
  }

  /** Termination: on every run, however it is scheduled, the feeder and the workers take at most this many
      steps in all. That every run can go on to return is CanReturn in IcmpRuns. */
  lemma {:induction false} StepsBounded(c: Config, r: Run)
    requires IsRun(c, r)
    ensures ProgramSteps(r.actions) <= |c.targets| * (7 * c.attempts + 6) + c.workers + 6
  {
    StepsUsed(c, r, |r.actions|);
    assert r.actions[..|r.actions|] == r.actions;
    InitialMeasure(c);
  }

  // ---- the reader's exit ----

  function ReaderRank(reader: Reader): nat {
    match reader
    case ReaderDone => 0
    case Top => 1
    case ReadFailed(_) => 1
    case Record(_) => 2
    case Reading => 3
  }

  function ReaderSteps(actions: seq<Action>): nat {
    if actions == [] then 0
    else ReaderSteps(actions[..|actions| - 1]) + if actions[|actions| - 1].ReaderStep? then 1 else 0
  }

  lemma {:induction false} StoppedStep(c: Config, s: State, a: Action)
    requires Enabled(c, s, a) && ReaderCancelled(s)
    ensures ReaderCancelled(Do(c, s, a))
    ensures ReaderRank(Do(c, s, a).reader) + (if a.ReaderStep? then 1 else 0) <= ReaderRank(s.reader)
  {
    if a.WorkerStep? {
      WorkFrame(c, s, a.w, a.choice);
    }
  }

  lemma {:induction false} RunStoppedStep(c: Config, r: Run, k: nat)
    requires IsRun(c, r) && k < |r.actions| && ReaderCancelled(r.states[k])
    ensures ReaderCancelled(r.states[k + 1])
    ensures ReaderRank(r.states[k + 1].reader) + (if r.actions[k].ReaderStep? then 1 else 0)
            <= ReaderRank(r.states[k].reader)
  {
    assert StepOf(c, r, k);
    StoppedStep(c, r.states[k], r.actions[k]);
  }

  lemma {:induction false} StoppedRun(c: Config, r: Run, i: nat, k: nat)
    requires IsRun(c, r) && i <= k < |r.states| && ReaderCancelled(r.states[i])
    ensures ReaderCancelled(r.states[k])
    ensures ReaderSteps(r.actions[i..k]) + ReaderRank(r.states[k].reader) <= ReaderRank(r.states[i].reader)
    decreases k
  {
    if i < k {
      StoppedRun(c, r, i, k - 1);
      RunStoppedStep(c, r, k - 1);
      var steps := r.actions[i..k];
      assert steps[..k - i - 1] == r.actions[i..k - 1] && steps[k - i - 1] == r.actions[k - 1];
    } else {
      assert r.actions[i..k] == [];
    }
  }

  /** After stopReader, or after cancellation, the reader takes at most three more steps whatever ReadFrom
      returns, and when it has used them up it has exited. */
  lemma {:induction false} ReaderExits(c: Config, r: Run, i: nat, k: nat)
    requires IsRun(c, r) && i <= k < |r.states| && ReaderCancelled(r.states[i])
    ensures ReaderSteps(r.actions[i..k]) <= 3
    ensures ReaderSteps(r.actions[i..k]) == 3 ==> r.states[k].reader.ReaderDone?
  {
    StoppedRun(c, r, i, k);
  }
}
