/** The concurrent ICMP stage as a step relation: one feeding main goroutine, a pool of workers running
    pingOne, and one reader. Every action is one atomic step; `Enabled` says when it may happen and `Do`
    what it does. Timers, cancellation, replies and read errors are choices of the environment. */
module IcmpModel {
  import opened Common
  import opened Addr
  import opened TrackerTable

  const DEFAULT_ATTEMPTS: nat := 3
  const DEFAULT_WORKERS: nat := 64

  /** The stage's settings once Run has normalised them. */
  datatype Config = Config(targets: seq<IP>, workers: nat, attempts: nat, echoId: int, progress: bool)

  datatype Setup = NothingToDo | ListenFailed | Started(config: Config)

  /** The head of Run: what is decided before any goroutine starts. */
  function Prepare(targets: seq<IP>, attempts: int, workers: int, listenOk: bool, echoId: int, progress: bool): Setup {
    if |targets| == 0 then NothingToDo
    else if !listenOk then ListenFailed
    else
      var a := if attempts <= 0 then DEFAULT_ATTEMPTS else attempts;
      var w := if workers <= 0 then DEFAULT_WORKERS else workers;
      var c := Config(targets, if w > |targets| then |targets| else w, a, echoId, progress);
      if Wanted(c) == {} then NothingToDo else Started(c)
  }

  /** What Prepare guarantees of a started stage. */
  predicate ValidConfig(c: Config) {
    1 <= c.workers <= |c.targets| && 1 <= c.attempts
  }

  predicate IsJob(c: Config, j: nat) {
    j < |c.targets| && IsIPv4(c.targets[j])
  }

  function Key(c: Config, j: nat): Addr4
    requires IsJob(c, j)
  {
    To4(c.targets[j]).value
  }

  function Wanted(c: Config): set<Addr4> {
    set j | 0 <= j < |c.targets| && IsJob(c, j) :: Key(c, j)
  }

  /** What the head of Run decides. Nothing is pinged without targets, or when the socket opens but no target is
      IPv4; the error of a socket that does not open is returned; otherwise the stage starts with the attempts asked
      for or 3, and as many workers as asked for or 64, but no more than targets. */
  lemma {:induction false} PreparedIsValid(
    targets: seq<IP>, attempts: int, workers: int, listenOk: bool, echoId: int, progress: bool)
    ensures match Prepare(targets, attempts, workers, listenOk, echoId, progress)
            case NothingToDo => targets == [] || (listenOk && forall i | 0 <= i < |targets| :: To4(targets[i]).None?)
            case ListenFailed => targets != [] && !listenOk
            case Started(c) =>
              && ValidConfig(c) && listenOk && (exists i | 0 <= i < |targets| :: To4(targets[i]).Some?)
              && c.targets == targets && c.echoId == echoId && c.progress == progress
              && c.attempts == (if attempts > 0 then attempts else 3)
              && c.workers <= |targets| && c.workers <= (if workers > 0 then workers else 64)
              && (c.workers == |targets| || c.workers == if workers > 0 then workers else 64)
  {
    forall c: Config, i | c.targets == targets && 0 <= i < |targets| && To4(targets[i]).Some? ensures Wanted(c) != {} {
      assert IsJob(c, i) && Key(c, i) in Wanted(c);
    }
  }

  /** A datagram as ReadFrom returns it: the peer if it has an IPv4 address, and the parsed ICMP message. */
  datatype Packet = Malformed | Message(isEchoReply: bool, echoId: Option<int>)
  datatype Datagram = Datagram(peer: Option<Addr4>, packet: Packet)

  /** isOurEchoReply */
  predicate IsOurEchoReply(p: Packet, echoId: int) {
    p.Message? && p.isEchoReply && p.echoId.Some? && (p.echoId.value == echoId || p.echoId.value == 0)
  }

  predicate Accepts(c: Config, d: Datagram) {
    d.peer.Some? && d.peer.value in Wanted(c) && IsOurEchoReply(d.packet, c.echoId)
  }

  datatype Main =
    | Feed
    | SkipReport(n: nat)
    | CloseJobs
    | WaitWorkers
    | StopReader
    | CloseConn
    | JoinReader
    | Returned(result: seq<Addr4>)

  /** Where a worker stands inside one iteration of pingOne's loop. */
  datatype PingPc = CheckCtx | CheckReplied | Encode | Acquire | Write | Release | Select

  /** A job is the index of a target, so equal addresses stay distinct jobs. */
  datatype Worker =
    | Idle
    | Begin(job: nat)
    | Ping(job: nat, ch: nat, attempt: nat, pc: PingPc)
    | Finish(job: nat)
    | Report(n: nat)
    | Exited

  datatype Reader = Top | Reading | ReadFailed(timeout: bool) | Record(key: Addr4) | ReaderDone

  /** The shared state. `finished`, `wire`, `reports` and `heard` only record what happened:
      jobs done, the job behind each WriteTo, the values passed to Progress, the datagrams read. */
  datatype State = State(
    cancelled: bool, main: Main, fed: nat, jobs: seq<nat>, workers: seq<Worker>, lock: Option<nat>,
    table: Table, reader: Reader, stopped: bool, connClosed: bool, done: nat,
    finished: set<nat>, wire: seq<nat>, reports: seq<nat>, heard: seq<Datagram>)

  datatype Choice = Go | Fail | ByCancel | ByReply | ByTimer
  datatype MainChoice = Proceed | Abandon | Deliver(order: seq<Addr4>)
  datatype ReadChoice = Continue | Timeout | Error | Received(d: Datagram)

  datatype Action = Cancel | MainStep(m: MainChoice) | WorkerStep(w: nat, choice: Choice) | ReaderStep(r: ReadChoice)

  function Init(c: Config): State {
    State(false, Feed, 0, [], seq(c.workers, _ => Idle), None, EMPTY_TABLE, Top, false, false, 0, {}, [], [], [])
  }

  predicate JobsClosed(s: State) {
    !s.main.Feed? && !s.main.SkipReport? && !s.main.CloseJobs?
  }

  predicate ReaderCancelled(s: State) {
    s.cancelled || s.stopped
  }

  function Note(c: Config, reports: seq<nat>, n: nat): seq<nat> {
    if c.progress then reports + [n] else reports
  }

  ghost predicate CanMain(c: Config, s: State, m: MainChoice) {
    match s.main
    case Feed =>
      if s.fed >= |c.targets| || !IsIPv4(c.targets[s.fed]) then m.Proceed?
      else (m.Proceed? && |s.jobs| < 2 * c.workers) || (m.Abandon? && s.cancelled)
    case WaitWorkers => m.Proceed? && forall w: nat | w < |s.workers| :: s.workers[w].Exited?
    case JoinReader => m.Deliver? && s.reader.ReaderDone? && Enumerates(m.order, s.table.live)
    case Returned(_) => false
    case _ => m.Proceed?
  }

  ghost function DoMain(c: Config, s: State, m: MainChoice): State
    requires CanMain(c, s, m)
  {
    match s.main
    case Feed =>
      if s.fed >= |c.targets| || m.Abandon? then s.(main := CloseJobs)
      else if !IsIPv4(c.targets[s.fed]) then
        s.(main := SkipReport(s.done + 1), done := s.done + 1, finished := s.finished + {s.fed}, fed := s.fed + 1)
      else s.(jobs := s.jobs + [s.fed], fed := s.fed + 1)
    case SkipReport(n) => s.(main := Feed, reports := Note(c, s.reports, n))
    case CloseJobs => s.(main := WaitWorkers)
    case WaitWorkers => s.(main := StopReader)
    case StopReader => s.(main := CloseConn, stopped := true)
    case CloseConn => s.(main := JoinReader, connClosed := true)
    case JoinReader => s.(main := Returned(m.order))
    case Returned(_) => s
  }

  predicate CanPing(s: State, p: Worker, choice: Choice)
    requires p.Ping?
  {
    match p.pc
    case Encode => choice.Go? || choice.Fail?
    case Acquire => choice.Go? && s.lock.None?
    case Select => (choice.ByCancel? && s.cancelled) || (choice.ByReply? && p.ch in s.table.closes) || choice.ByTimer?
    case _ => choice.Go?
  }

  predicate CanWork(c: Config, s: State, w: nat, choice: Choice) {
    w < |s.workers| &&
    match s.workers[w]
    case Idle => choice.Go? && (|s.jobs| > 0 || JobsClosed(s))
    case Begin(j) => choice.Go? && IsJob(c, j)
    case Ping(j, _, _, _) => IsJob(c, j) && CanPing(s, s.workers[w], choice)
    case Exited => false
    case _ => choice.Go?
  }

  /** Worker w moves on to `next`. */
  function Moved(s: State, w: nat, next: Worker): State
    requires w < |s.workers|
  {
    s.(workers := s.workers[w := next])
  }

  /** One step of pingOne's retry loop: where the worker goes next. */
  function NextPing(c: Config, s: State, p: Worker, choice: Choice): (next: Worker)
    requires p.Ping? && IsJob(c, p.job)
    ensures (next.Ping? || next.Finish?) && next.job == p.job
  {
    match p.pc
    case CheckCtx => if p.attempt >= c.attempts || s.cancelled then Finish(p.job) else p.(pc := CheckReplied)
    case CheckReplied => if Key(c, p.job) in s.table.live then Finish(p.job) else p.(pc := Encode)
    case Encode => if choice.Fail? then Finish(p.job) else p.(pc := Acquire)
    case Acquire => p.(pc := Write)
    case Write => p.(pc := Release)
    case Release => p.(pc := Select)
    case Select => if choice.ByTimer? then p.(attempt := p.attempt + 1, pc := CheckCtx) else Finish(p.job)
  }

  /** The same step's effect: Lock and Unlock on writeMu, and WriteTo in between. */
  function DoPing(c: Config, s: State, w: nat, choice: Choice): State
    requires w < |s.workers| && s.workers[w].Ping? && CanWork(c, s, w, choice)
  {
    var p := s.workers[w];
    s.(workers := s.workers[w := NextPing(c, s, p, choice)],
       lock := if p.pc.Acquire? then Some(w) else if p.pc.Release? then None else s.lock,
       wire := if p.pc.Write? then s.wire + [p.job] else s.wire)
  }

  function DoWork(c: Config, s: State, w: nat, choice: Choice): State
    requires CanWork(c, s, w, choice)
  {
    match s.workers[w]
    case Idle =>
      if |s.jobs| > 0 then Moved(s, w, Begin(s.jobs[0])).(jobs := s.jobs[1..]) else Moved(s, w, Exited)
    case Begin(j) =>
      var (table, ch) := Waiter(s.table, Key(c, j));
      Moved(s, w, Ping(j, ch, 0, CheckCtx)).(table := table)
    case Ping(_, _, _, _) => DoPing(c, s, w, choice)
    case Finish(j) => Moved(s, w, Report(s.done + 1)).(done := s.done + 1, finished := s.finished + {j})
    case Report(n) => Moved(s, w, Idle).(reports := Note(c, s.reports, n))
    case Exited => s
  }

  /** ReadFrom may return anything at any time, also after Close. */
  predicate CanRead(s: State, r: ReadChoice) {
    !s.reader.ReaderDone? && (s.reader.Reading? <==> !r.Continue?)
  }

  function DoRead(c: Config, s: State, r: ReadChoice): State
    requires CanRead(s, r)
  {
    match s.reader
    case Top => s.(reader := if ReaderCancelled(s) then ReaderDone else Reading)
    case Reading =>
      (match r
       case Received(d) => s.(heard := s.heard + [d], reader := if Accepts(c, d) then Record(d.peer.value) else Top)
       case _ => s.(reader := ReadFailed(r.Timeout?)))
    case ReadFailed(timeout) => s.(reader := if timeout && !ReaderCancelled(s) then Top else ReaderDone)
    case Record(key) => s.(table := GotReply(s.table, key), reader := Top)
    case ReaderDone => s
  }

  ghost predicate Enabled(c: Config, s: State, a: Action) {
    match a
    case Cancel => !s.cancelled
    case MainStep(m) => CanMain(c, s, m)
    case WorkerStep(w, choice) => CanWork(c, s, w, choice)
    case ReaderStep(r) => CanRead(s, r)
  }

  ghost function Do(c: Config, s: State, a: Action): State
    requires Enabled(c, s, a)
  {
    match a
    case Cancel => s.(cancelled := true)
    case MainStep(m) => DoMain(c, s, m)
    case WorkerStep(w, choice) => DoWork(c, s, w, choice)
    case ReaderStep(r) => DoRead(c, s, r)
  }

  /** A run of the stage: the states passed through and the actions taken between them. */
  datatype Run = Run(states: seq<State>, actions: seq<Action>)

  /** The i-th action of the run was possible, and led to the next state. */
  ghost predicate StepOf(c: Config, r: Run, i: nat)
    requires i < |r.actions| && |r.states| == |r.actions| + 1
  {
    Enabled(c, r.states[i], r.actions[i]) && r.states[i + 1] == Do(c, r.states[i], r.actions[i])
  }

  ghost predicate IsRun(c: Config, r: Run) {
    && ValidConfig(c)
    && |r.states| == |r.actions| + 1
    && r.states[0] == Init(c)
    && forall i | 0 <= i < |r.actions| :: StepOf(c, r, i)
  }
}
