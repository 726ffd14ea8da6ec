/** What runs of the ICMP stage can go on to do: every run can be completed, and a reply is followed by another
    echo exactly when a worker is past its `replied` check. */
module IcmpRuns {
  import opened Common
  import opened IcmpModel
  import opened IcmpInvariant
  import opened IcmpTheorems
  import opened IcmpProgress

  function Last(r: Run): State
    requires r.states != []
  {
    r.states[|r.states| - 1]
  }

  /** `q` goes on from `r`. */
  predicate Extends(q: Run, r: Run) {
    r.states <= q.states && r.actions <= q.actions
  }

  /** One more step. */
  lemma {:induction false} Extend(c: Config, r: Run, a: Action) returns (q: Run)
    requires IsRun(c, r) && Enabled(c, Last(r), a)
    ensures IsRun(c, q) && Extends(q, r) && Last(q) == Do(c, Last(r), a)
  {
    q := Run(r.states + [Do(c, Last(r), a)], r.actions + [a]);
    forall i | 0 <= i < |q.actions| ensures StepOf(c, q, i) {
      if i < |r.actions| {
        assert StepOf(c, r, i);
      }
    }
  }

  lemma {:induction false} LastInv(c: Config, r: Run)
    requires IsRun(c, r)
    ensures Inv(c, Last(r))
  {
    RunInv(c, r, |r.states| - 1);
  }

  /** The steps of the feeder and the pool that are still to come, at most. */
  function Remaining(c: Config, s: State): nat {
    if s.fed <= |c.targets| then Measure(c, s) else 0
  }

  // ---- every run can be completed ----

  /** Whatever has happened so far, some way of scheduling the goroutines lets the stage return. */
  lemma {:induction false} CanReturn(c: Config, r: Run) returns (q: Run)
    requires IsRun(c, r)
    ensures IsRun(c, q) && Extends(q, r) && Last(q).main.Returned?
    decreases Remaining(c, Last(r)), ReaderRank(Last(r).reader)
  {
    if Last(r).main.Returned? {
      q := r;
    } else {
      LastInv(c, r);
      var a := NoDeadlock(c, r, |r.states| - 1);
      StepUses(c, Last(r), a);
      if a.ReaderStep? {
        StoppedStep(c, Last(r), a);
      }
      q := Extend(c, r, a);
      q := CanReturn(c, q);
    }
  }

  // ---- an echo after the reply ----

  /** Worker w is past the check for job j. */
  predicate PastCheckBy(s: State, w: nat, j: nat) {
    HandOf(s, w, j) && PastCheckPc(s.workers[w])
  }

  /** The holder of writeMu moves on; another worker past the check stays where it is. */
  lemma {:induction false} HolderMoves(c: Config, s: State, v: nat, w: nat, j: nat)
    requires Inv(c, s) && PastCheckBy(s, w, j) && s.workers[w].pc.Acquire? && s.lock == Some(v)
    ensures Enabled(c, s, WorkerStep(v, Go))
    ensures var s' := Do(c, s, WorkerStep(v, Go)); PastCheckBy(s', w, j) && Sent(s', j) == Sent(s, j)
  {
    assert HoldsLock(s.workers[v]) && HandOf(s, v, s.workers[v].job);
    assert v != w;
    assert s.workers[v].job != j;
  }

  lemma {:induction false} WriterMoves(c: Config, s: State, w: nat, j: nat)
    requires Inv(c, s) && PastCheckBy(s, w, j) && (s.workers[w].pc.Acquire? ==> s.lock.None?)
    ensures Enabled(c, s, WorkerStep(w, Go))
    ensures var s' := Do(c, s, WorkerStep(w, Go));
            if s.workers[w].pc.Write? then Sent(s', j) == Sent(s, j) + 1
            else PastCheckBy(s', w, j) && Sent(s', j) == Sent(s, j)
  {
  }

  /** A worker past its check can still write, whatever the others hold. */
  lemma {:induction false} WritesOnce(c: Config, r: Run, w: nat, j: nat) returns (q: Run)
    requires IsRun(c, r) && PastCheckBy(Last(r), w, j)
    ensures IsRun(c, q) && Extends(q, r) && Sent(Last(q), j) == Sent(Last(r), j) + 1
    decreases Remaining(c, Last(r))
  {
    var s := Last(r);
    LastInv(c, r);
    var blocked := s.workers[w].pc.Acquire? && s.lock.Some?;
    var a := WorkerStep(if blocked then s.lock.value else w, Go);
    if blocked {
      HolderMoves(c, s, s.lock.value, w, j);
    } else {
      WriterMoves(c, s, w, j);
    }
    StepUses(c, s, a);
    q := Extend(c, r, a);
    if blocked || !s.workers[w].pc.Write? {
      q := WritesOnce(c, q, w, j);
    }
  }

  /** In every reachable state in which the address has answered, another echo can follow if and only if a worker
      is past its `replied` check for the job. */
  lemma {:induction false} LateEchoIff(c: Config, r: Run, j: nat)
    requires IsRun(c, r) && IsJob(c, j) && Key(c, j) in Last(r).table.live
    ensures PastCheck(Last(r), j) <==>
              exists q :: IsRun(c, q) && Extends(q, r) && Sent(Last(q), j) > Sent(Last(r), j)
  {
    if PastCheck(Last(r), j) {
      var w: nat :| HandOf(Last(r), w, j) && PastCheckPc(Last(r).workers[w]);
      var q := WritesOnce(c, r, w, j);
      assert Sent(Last(q), j) > Sent(Last(r), j);
    }
    if q :| IsRun(c, q) && Extends(q, r) && Sent(Last(q), j) > Sent(Last(r), j) {
      EchoBudget(c, q, |r.states| - 1, |q.states| - 1, j);
    }
  }

  // ---- the channel buffer ----

  /** The jobs channel takes two jobs a worker before any is received, and not one more. */
  lemma {:induction false} BufferFills(c: Config, n: nat) returns (r: Run)
    requires ValidConfig(c) && n <= 2 * c.workers && n <= |c.targets| && forall j | 0 <= j < n :: IsJob(c, j)
    ensures IsRun(c, r) && Last(r).main.Feed? && Last(r).fed == n && !Last(r).cancelled
    ensures |Last(r).jobs| == n && forall j | 0 <= j < n :: Last(r).jobs[j] == j
    ensures n == 2 * c.workers && n < |c.targets| && IsJob(c, n) ==> forall m :: !CanMain(c, Last(r), m)
  {
    if n == 0 {
      r := Run([Init(c)], []);
    } else {
      r := BufferFills(c, n - 1);
      assert IsJob(c, n - 1);
      r := Extend(c, r, MainStep(Proceed));
    }
  }
}
