/** The sender in file mode: the start and failure counters (my_sdr.cpp, threading_ctrl.cpp). */
module SenderFile {
  import opened Runs
  import opened ThreadingCtrl
  import opened Pool

  ghost predicate Counted(cfg: Config, p: Pool) {
    && !p.boss.HaveCount? && !p.boss.HaveSum?
    && p.starts + Pending(p) == |p.workers| < TWO_TO_32
    && p.fails <= |p.workers|
    && (p.workers != [] ==> cfg.maxThread > 0)
    && |p.workers| - p.fails <= cfg.maxThread
    && (p.boss.Granted? || p.boss.Creating? ==> |p.workers| - p.fails < cfg.maxThread)
  }

  lemma CountedStep(cfg: Config, p: Pool, step: Step)
    requires cfg.mode.SendFile? && Inv(p) && Counted(cfg, p) && Enabled(cfg, p, step)
    ensures Counted(cfg, Apply(cfg, p, step))
  {
    CountsStep(cfg, p, step);
    TallyMonotone(Apply(cfg, p, step).workers, (st: Stage) => st.Failed?, (st: Stage) => st.Failed?);
    if p.boss.Asking? {
      FilePermitIsTheDifference(p.starts, p.fails, cfg.maxThread);
    }
  }

  lemma {:induction false} RunCounted(cfg: Config, file: string, run: seq<Pool>, steps: seq<Step>)
    requires IsRun(cfg, file, run, steps) && cfg.mode.SendFile?
    ensures Inv(Last(run)) && Counted(cfg, Last(run))
  {
    RunInv(cfg, file, run, steps);
    if steps != [] {
      PathPrefix(NextOf(cfg), run, steps);
      RunCounted(cfg, file, run[..|run|-1], steps[..|steps|-1]);
      CountedStep(cfg, run[|steps|-1], Last(steps));
    }
  }

  /** Whenever the boss evaluates the permit, failures do not exceed starts, the
      unsigned subtraction does not wrap, and the permit says that fewer than
      `max_thread` started threads have not failed. */
  lemma PermitIsTheDifference(cfg: Config, file: string, run: seq<Pool>, steps: seq<Step>)
    requires IsRun(cfg, file, run, steps) && cfg.mode.SendFile? && Last(run).boss.Asking?
    ensures var p := Last(run);
      && p.fails <= p.starts && Wrap(p.starts - p.fails) == p.starts - p.fails
      && (FilePermit(p.starts, p.fails, cfg.maxThread) <==> p.starts - p.fails < cfg.maxThread)
  {
    RunCounted(cfg, file, run, steps);
    FilePermitIsTheDifference(Last(run).starts, Last(run).fails, cfg.maxThread);
  }

  /** In every run, created threads minus failed ones stay within `max_thread`;
      with its limit of one and no failure a second file sender never exists. */
  lemma FileSendersBounded(cfg: Config, file: string, run: seq<Pool>, steps: seq<Step>)
    requires IsRun(cfg, file, run, steps) && cfg.mode.SendFile?
    ensures Last(run).starts - Last(run).fails <= |Last(run).workers| - CountFailed(Last(run).workers) <= cfg.maxThread
    ensures Last(run).fails == 0 && cfg.maxThread == 1 ==> |Last(run).workers| <= 1
  {
    RunCounted(cfg, file, run, steps);
  }

  /** Away from the permit the order can be the other way round: a thread may
      fail before its creator has counted it. */
  lemma FailureCanPrecedeItsStart(cfg: Config, file: string) returns (run: seq<Pool>, steps: seq<Step>)
    requires cfg.mode.SendFile? && cfg.maxThread > 0
    ensures IsRun(cfg, file, run, steps)
    ensures Last(run).fails == 1 && Last(run).starts == 0 && !Last(run).boss.Asking?
  {
    var p := Initial(file);
    run, steps := [p], [];
    run, steps := Take(NextOf(cfg), run, steps, BossStep(true), p.(boss := Asking));
    run, steps := Take(NextOf(cfg), run, steps, BossStep(true), p.(boss := Granted));
    var locked := p.(mutex := BossHolds);
    run, steps := Take(NextOf(cfg), run, steps, BossStep(true), locked.(boss := Creating));
    var made := locked.(boss := Informing(true), workers := [Working], got := [""]);
    assert [] + [Working] == [Working];
    run, steps := Take(NextOf(cfg), run, steps, BossStep(true), made);
    run, steps := Take(NextOf(cfg), run, steps, Fail(0), made.(workers := [Failed], fails := 1));
  }

  /** Exactly there: all threads have failed and the newest is not counted yet. */
  lemma FailureAheadIff(cfg: Config, file: string, run: seq<Pool>, steps: seq<Step>)
    requires IsRun(cfg, file, run, steps) && cfg.mode.SendFile?
    ensures var p := Last(run); p.fails > p.starts <==> Pending(p) == 1 && p.fails == |p.workers|
  {
    RunCounted(cfg, file, run, steps);
  }

  // ---- The queue ----

  /** A failed sender never leaves the queue, but its place is given away. */
  lemma FileQueueBounded(cfg: Config, file: string, run: seq<Pool>, steps: seq<Step>)
    requires IsRun(cfg, file, run, steps) && cfg.mode.SendFile?
    ensures |Last(run).queue| <= cfg.maxThread + Last(run).fails - CountPopped(Last(run).workers)
    ensures Last(run).fails == 0 ==> |Last(run).queue| <= cfg.maxThread
  {
    RunCounted(cfg, file, run, steps);
  }

  /** `n` senders are started and queued, the first `f` have failed, nobody else has moved. */
  ghost predicate Standing(p: Pool, n: nat, f: nat) {
    && |p.workers| == n && |p.queue| == n && p.starts == n && p.fails == f && p.reports == 0
    && p.boss.Testing? && p.mutex.Free?
    && forall i :: f <= i < n ==> p.workers[i].Working?
  }

  lemma OneMoreStands(cfg: Config, run0: seq<Pool>, steps0: seq<Step>, n: nat, f: nat)
      returns (run: seq<Pool>, steps: seq<Step>)
    requires IsRun(cfg, "", run0, steps0) && cfg.mode.SendFile?
    requires Standing(Last(run0), n, f) && f <= n < f + cfg.maxThread && n + 1 < TWO_TO_32
    ensures IsRun(cfg, "", run, steps) && Standing(Last(run), n + 1, f)
  {
    var p := Last(run0);
    FilePermitIsTheDifference(n, f, cfg.maxThread);
    run, steps := Take(NextOf(cfg), run0, steps0, BossStep(true), p.(boss := Asking));
    run, steps := Take(NextOf(cfg), run, steps, BossStep(true), p.(boss := Granted));
    run, steps := TakeCreate(cfg, "", run, steps);
  }

  lemma {:induction false} AllStand(cfg: Config, n: nat) returns (run: seq<Pool>, steps: seq<Step>)
    requires cfg.mode.SendFile? && n <= cfg.maxThread
    ensures IsRun(cfg, "", run, steps) && Standing(Last(run), n, 0)
  {
    if n == 0 {
      run, steps := [Initial("")], [];
    } else {
      run, steps := AllStand(cfg, n - 1);
      run, steps := OneMoreStands(cfg, run, steps, n - 1, 0);
    }
  }

  /** Each failure lets one more sender be started and queued. */
  lemma {:induction false} QueueCanGrowByFailures(cfg: Config, f: nat) returns (run: seq<Pool>, steps: seq<Step>)
    requires cfg.mode.SendFile? && cfg.maxThread > 0 && cfg.maxThread + f < TWO_TO_32
    ensures IsRun(cfg, "", run, steps) && Standing(Last(run), cfg.maxThread + f, f)
    ensures |Last(run).queue| == cfg.maxThread + f
  {
    if f == 0 {
      run, steps := AllStand(cfg, cfg.maxThread);
    } else {
      run, steps := QueueCanGrowByFailures(cfg, f - 1);
      var p := Last(run);
      run, steps := Take(NextOf(cfg), run, steps, Fail(f - 1), p.(workers := p.workers[f - 1 := Failed], fails := f));
      run, steps := OneMoreStands(cfg, run, steps, cfg.maxThread + f - 1, f);
    }
  }

  ghost predicate QueueWithinLimit(cfg: Config, f: nat) {
    forall run, steps | IsRun(cfg, "", run, steps) && Last(run).fails == f :: |Last(run).queue| <= cfg.maxThread
  }

  /** The queue keeps within `max_thread` in all schedules with `f` failures
      exactly when `f` is 0, or there can be no sender at all. */
  lemma {:induction false} QueueWithinLimitIff(cfg: Config, f: nat)
    requires cfg.mode.SendFile? && cfg.maxThread + f < TWO_TO_32
    ensures QueueWithinLimit(cfg, f) <==> f == 0 || cfg.maxThread == 0
  {
    if f == 0 || cfg.maxThread == 0 {
      forall run, steps | IsRun(cfg, "", run, steps) && Last(run).fails == f
        ensures |Last(run).queue| <= cfg.maxThread
      {
        RunCounted(cfg, "", run, steps);
      }
    } else {
      var run, steps := QueueCanGrowByFailures(cfg, f);
      assert !(|Last(run).queue| <= cfg.maxThread);
    }
  }

  // ---- Live workers in every mode ----

  /** Never more than `max_thread` workers between creation and exit, nor queue
      entries, but for those of failed file senders. */
  lemma LiveWorkersBounded(cfg: Config, file: string, run: seq<Pool>, steps: seq<Step>)
    requires IsRun(cfg, file, run, steps)
    ensures var p, failed := Last(run), if cfg.mode.SendFile? then Last(run).fails else 0;
      && |p.queue| <= cfg.maxThread + failed
      && |p.workers| - CountPopped(p.workers) <= cfg.maxThread + failed
  {
    if cfg.mode.SendFile? {
      RunCounted(cfg, file, run, steps);
    } else {
      RunRoom(cfg, file, run, steps);
    }
  }
}
