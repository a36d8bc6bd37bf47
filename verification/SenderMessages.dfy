/** The sender in message mode: how many threads it starts, and that it finishes. */
module SenderMessages {
  import opened Runs
  import opened ThreadingCtrl
  import opened Pool

  // ---- The bound ----

  /** Holds in every run. A permit compares a count read earlier with a queue
      length read later, so it may be out of date by the workers then alive. */
  ghost predicate Bounded(cfg: Config, p: Pool) {
    && (p.boss.HaveCount? ==> p.boss.c <= p.reports && |p.workers| <= p.boss.c + cfg.maxThread)
    && (p.boss.HaveSum? || p.boss.Granted? || p.boss.Creating? ==> |p.workers| < cfg.amount + cfg.maxThread && cfg.amount > 0)
    && |p.workers| <= cfg.amount + cfg.maxThread
    && (p.workers != [] ==> cfg.amount > 0 && cfg.maxThread > 0)
    && (p.boss.Done? ==> p.reports >= cfg.amount)
  }

  lemma BoundedStep(cfg: Config, p: Pool, step: Step)
    requires cfg.mode.SendMessages? && Inv(p) && Room(cfg, p) && Bounded(cfg, p) && Enabled(cfg, p, step)
    ensures Bounded(cfg, Apply(cfg, p, step))
  {
    TallyMonotone(p.workers, HasPopped, HasReported);
  }

  lemma {:induction false} RunBounded(cfg: Config, file: string, run: seq<Pool>, steps: seq<Step>)
    requires IsRun(cfg, file, run, steps) && cfg.mode.SendMessages?
    ensures Inv(Last(run)) && Room(cfg, Last(run)) && Bounded(cfg, Last(run))
  {
    RunRoom(cfg, file, run, steps);
    if steps != [] {
      PathPrefix(NextOf(cfg), run, steps);
      RunBounded(cfg, file, run[..|run|-1], steps[..|steps|-1]);
      BoundedStep(cfg, run[|steps|-1], Last(steps));
    }
  }

  /** d (d - 1) / 2 */
  function Tri(d: nat): nat { if d <= 1 then 0 else Tri(d - 1) + d - 1 }

  lemma {:induction false} TriangularNumber(d: nat)
    ensures 2 * Tri(d) == d * (d - 1)
  {
    if d > 1 {
      TriangularNumber(d - 1);
      assert d * (d - 1) == (d - 1) * (d - 2) + 2 * (d - 1);
    }
  }

  lemma TriMonotone(a: nat, b: nat)
    requires a <= b
    ensures Tri(a) <= Tri(b)
  {}

  /** A pool that is `d` threads over the amount. Each further thread needs a
      count that is older by one more report, and pool entries that outlive it. */
  ghost predicate Strained(cfg: Config, p: Pool) {
    var d := |p.workers| - cfg.amount;
    && (d >= 1 ==>
          && |p.workers| - p.reports + Tri(d) <= cfg.maxThread && Tri(d + 1) <= p.reports
          && 1 + Tri(d) <= cfg.maxThread && 1 + Tri(d) <= cfg.amount)
    && (d >= 1 && p.boss.HaveCount? ==> |p.workers| - p.boss.c + Tri(d) <= cfg.maxThread && Tri(d + 1) <= p.boss.c)
    && (d >= 0 && (p.boss.HaveSum? || p.boss.Granted? || p.boss.Creating?) ==>
          && |p.workers| - p.reports + d + 1 + Tri(d) <= cfg.maxThread && Tri(d + 2) <= p.reports
          && 1 + Tri(d + 1) <= cfg.amount)
  }

  /** The old count and the new length are below the amount: so many have reported since. */
  lemma StrainedWhenSummed(cfg: Config, p: Pool)
    requires cfg.mode.SendMessages? && CountsOk(p) && Bounded(cfg, p) && Strained(cfg, p)
    requires p.boss.HaveCount? && p.boss.c + |p.queue| < cfg.amount
    ensures Strained(cfg, p.(boss := HaveSum))
  {
    TallyMonotone(p.workers, HasPopped, HasReported);
    assert |p.workers| - p.reports <= |p.queue|;
  }

  lemma StrainedWhenCreated(cfg: Config, p: Pool)
    requires CountsOk(p) && Strained(cfg, p) && p.boss.Creating?
    ensures Strained(cfg, p.(workers := p.workers + [Working], got := p.got + [""], boss := Informing(true)))
  {
    TallyMonotone(p.workers, HasReported, HasReported);
    assert p.reports <= |p.workers|;
  }

  lemma StrainedBossOtherwise(cfg: Config, p: Pool, ok: bool)
    requires cfg.mode.SendMessages? && Strained(cfg, p) && Enabled(cfg, p, BossStep(ok))
    requires !p.boss.HaveCount? && !p.boss.Creating?
    ensures Strained(cfg, ApplyBoss(cfg, p, ok))
  {
    var q := ApplyBoss(cfg, p, ok);
    assert |q.workers| == |p.workers| && q.reports == p.reports;
    assert q.boss.HaveCount? ==> q.boss.c == p.reports;
  }

  lemma StrainedBoss(cfg: Config, p: Pool, ok: bool)
    requires cfg.mode.SendMessages? && Inv(p) && Bounded(cfg, p) && Strained(cfg, p) && Enabled(cfg, p, BossStep(ok))
    ensures Strained(cfg, ApplyBoss(cfg, p, ok))
  {
    if p.boss.HaveCount? {
      if p.boss.c + |p.queue| < cfg.amount {
        StrainedWhenSummed(cfg, p);
      }
    } else if p.boss.Creating? {
      if ok {
        StrainedWhenCreated(cfg, p);
      }
    } else {
      StrainedBossOtherwise(cfg, p, ok);
    }
  }

  lemma StrainedWorker(cfg: Config, p: Pool, i: nat)
    requires Strained(cfg, p) && i < |p.workers|
    ensures Strained(cfg, ApplyWorker(p, i))
  {
    var q := ApplyWorker(p, i);
    assert |q.workers| == |p.workers| && q.reports >= p.reports && q.boss == p.boss;
  }

  lemma StrainedStep(cfg: Config, p: Pool, step: Step)
    requires cfg.mode.SendMessages? && Inv(p) && Bounded(cfg, p) && Strained(cfg, p) && Enabled(cfg, p, step)
    ensures Strained(cfg, Apply(cfg, p, step))
  {
    match step
    case BossStep(ok) => StrainedBoss(cfg, p, ok);
    case WorkerStep(i) => StrainedWorker(cfg, p, i);
    case _ =>
  }

  lemma {:induction false} RunStrained(cfg: Config, file: string, run: seq<Pool>, steps: seq<Step>)
    requires IsRun(cfg, file, run, steps) && cfg.mode.SendMessages?
    ensures Strained(cfg, Last(run))
  {
    if steps != [] {
      var r, q := run[..|run|-1], steps[..|steps|-1];
      PathPrefix(NextOf(cfg), run, steps);
      RunStrained(cfg, file, r, q);
      RunBounded(cfg, file, r, q);
      StrainedStep(cfg, run[|q|], Last(steps));
    }
  }

  /** A run with `d` threads more than the amount needs d (d - 1) / 2 + 1
      messages and as many pool entries. */
  lemma ExcessIsBounded(cfg: Config, file: string, run: seq<Pool>, steps: seq<Step>)
    requires IsRun(cfg, file, run, steps) && cfg.mode.SendMessages?
    ensures |Last(run).workers| <= cfg.amount + cfg.maxThread
    ensures |Last(run).workers| > cfg.amount ==>
      var d := |Last(run).workers| - cfg.amount;
      1 + Tri(d) <= cfg.amount && 1 + Tri(d) <= cfg.maxThread
  {
    RunBounded(cfg, file, run, steps);
    RunStrained(cfg, file, run, steps);
  }

  /** Each permit that passes its first test is a snapshot: no worker has
      reported between the two reads. */
  ghost predicate Snapshots(run: seq<Pool>, steps: seq<Step>)
    requires |run| == |steps| + 1
  {
    forall i :: 0 <= i < |steps| && run[i].boss.HaveCount? && run[i+1].boss.HaveSum? ==>
      run[i].boss.c == run[i].reports
  }

  ghost predicate Tight(cfg: Config, p: Pool) {
    && (p.boss.HaveSum? || p.boss.Granted? || p.boss.Creating? ==> |p.workers| < cfg.amount)
    && |p.workers| <= cfg.amount
  }

  lemma TightStep(cfg: Config, p: Pool, step: Step)
    requires cfg.mode.SendMessages? && Inv(p) && Tight(cfg, p) && Enabled(cfg, p, step)
    requires p.boss.HaveCount? && Apply(cfg, p, step).boss.HaveSum? ==> p.boss.c == p.reports
    ensures Tight(cfg, Apply(cfg, p, step))
  {
    TallyMonotone(p.workers, HasPopped, HasReported);
  }

  lemma {:induction false} RunTight(cfg: Config, file: string, run: seq<Pool>, steps: seq<Step>)
    requires IsRun(cfg, file, run, steps) && cfg.mode.SendMessages?
    requires Snapshots(run, steps)
    ensures Tight(cfg, Last(run))
  {
    if steps != [] {
      var r, q := run[..|run|-1], steps[..|steps|-1];
      PathPrefix(NextOf(cfg), run, steps);
      assert forall i :: 0 <= i < |r| ==> r[i] == run[i];
      RunTight(cfg, file, r, q);
      RunInv(cfg, file, r, q);
      assert run[|q|+1] == Last(run);
      TightStep(cfg, run[|q|], Last(steps));
    }
  }

  /** With snapshot permits no schedule starts more than `msg_amount` threads,
      and when the loop ends exactly that many were started and counted. */
  lemma SnapshotsStartExactlyTheAmount(cfg: Config, file: string, run: seq<Pool>, steps: seq<Step>)
    requires IsRun(cfg, file, run, steps) && cfg.mode.SendMessages?
    requires Snapshots(run, steps)
    ensures CountPopped(Last(run).workers) <= Last(run).reports <= |Last(run).workers| <= cfg.amount
    ensures Last(run).boss.Done? ==> Last(run).reports == cfg.amount && |Last(run).workers| == cfg.amount
  {
    RunBounded(cfg, file, run, steps);
    RunTight(cfg, file, run, steps);
    TallyMonotone(Last(run).workers, HasPopped, HasReported);
    TallyMonotone(Last(run).workers, HasReported, HasReported);
  }

  // ---- Without snapshots the bound fails, by exactly so much ----

  /** The boss tests and reads the count. */
  lemma BossReadsCount(cfg: Config, run0: seq<Pool>, steps0: seq<Step>) returns (run: seq<Pool>, steps: seq<Step>)
    requires IsRun(cfg, "", run0, steps0) && cfg.mode.SendMessages?
    requires Last(run0).boss.Testing? && Last(run0).reports < cfg.amount
    ensures IsRun(cfg, "", run, steps)
    ensures Last(run) == Last(run0).(boss := HaveCount(Last(run0).reports))
  {
    var p := Last(run0);
    run, steps := Take(NextOf(cfg), run0, steps0, BossStep(true), p.(boss := Asking));
    run, steps := Take(NextOf(cfg), run, steps, BossStep(true), p.(boss := HaveCount(p.reports)));
  }

  /** With a low enough count in hand and room in the queue, it creates a worker. */
  lemma BossCreates(cfg: Config, run0: seq<Pool>, steps0: seq<Step>) returns (run: seq<Pool>, steps: seq<Step>)
    requires IsRun(cfg, "", run0, steps0) && cfg.mode.SendMessages?
    requires var p := Last(run0);
      p.boss.HaveCount? && p.boss.c + |p.queue| < cfg.amount && |p.queue| < cfg.maxThread && p.mutex.Free?
    ensures IsRun(cfg, "", run, steps) && Last(run) == Grown(cfg, Last(run0))
  {
    var p := Last(run0);
    run, steps := Take(NextOf(cfg), run0, steps0, BossStep(true), p.(boss := HaveSum));
    run, steps := Take(NextOf(cfg), run, steps, BossStep(true), p.(boss := Granted));
    run, steps := TakeCreate(cfg, "", run, steps);
  }

  /** The first `r` of `w` workers have left and the others have not moved. */
  predicate Band(p: Pool, w: int, r: int) {
    && |p.workers| == w && 0 <= r <= w && p.reports == r && |p.queue| == w - r && p.mutex.Free?
    && forall i :: 0 <= i < w ==> p.workers[i] == if i < r then Gone else Working
  }

  lemma {:induction false} SomeLeave(cfg: Config, run0: seq<Pool>, steps0: seq<Step>, w: nat, r: nat, n: nat)
      returns (run: seq<Pool>, steps: seq<Step>)
    requires IsRun(cfg, "", run0, steps0) && Band(Last(run0), w, r) && r + n <= w
    ensures IsRun(cfg, "", run, steps) && Band(Last(run), w, r + n) && Last(run).boss == Last(run0).boss
    decreases n
  {
    if n == 0 {
      run, steps := run0, steps0;
    } else {
      run, steps := WorkerLeaves(cfg, "", run0, steps0, r);
      run, steps := SomeLeave(cfg, run, steps, w, r + 1, n - 1);
    }
  }

  lemma {:induction false} SomeAreCreated(cfg: Config, run0: seq<Pool>, steps0: seq<Step>, w: nat, r: nat, n: nat)
      returns (run: seq<Pool>, steps: seq<Step>)
    requires IsRun(cfg, "", run0, steps0) && cfg.mode.SendMessages?
    requires Band(Last(run0), w, r) && Last(run0).boss.Testing? && w + n <= cfg.amount && w + n - r <= cfg.maxThread
    ensures IsRun(cfg, "", run, steps) && Band(Last(run), w + n, r) && Last(run).boss.Testing?
    decreases n
  {
    if n == 0 {
      run, steps := run0, steps0;
    } else {
      run, steps := BossReadsCount(cfg, run0, steps0);
      run, steps := BossCreates(cfg, run, steps);
      run, steps := SomeAreCreated(cfg, run, steps, w + 1, r, n - 1);
    }
  }

  /** The boss is at its test and the `n` workers created so far have all left. */
  predicate Quiet(p: Pool, n: nat) { Band(p, n, n) && p.boss.Testing? }

  lemma {:induction false} QuietIsReachable(cfg: Config, n: nat) returns (run: seq<Pool>, steps: seq<Step>)
    requires cfg.mode.SendMessages? && cfg.maxThread > 0 && n <= cfg.amount
    ensures IsRun(cfg, "", run, steps) && Quiet(Last(run), n)
  {
    if n == 0 {
      run, steps := [Initial("")], [];
    } else {
      run, steps := QuietIsReachable(cfg, n - 1);
      run, steps := SomeAreCreated(cfg, run, steps, n - 1, n - 1, 1);
      run, steps := SomeLeave(cfg, run, steps, n, n - 1, 1);
    }
  }

  /** Between the two reads of one permit so many workers leave that the old
      count and the new length together stay below the amount. */
  lemma OneMore(cfg: Config, run0: seq<Pool>, steps0: seq<Step>, i: nat, r: nat)
      returns (run: seq<Pool>, steps: seq<Step>)
    requires IsRun(cfg, "", run0, steps0) && cfg.mode.SendMessages?
    requires Band(Last(run0), cfg.amount + i, r) && Last(run0).boss.Testing?
    requires r < cfg.amount && cfg.amount - r <= cfg.maxThread
    ensures IsRun(cfg, "", run, steps) && Band(Last(run), cfg.amount + i + 1, r + i + 1) && Last(run).boss.Testing?
  {
    run, steps := BossReadsCount(cfg, run0, steps0);
    run, steps := SomeLeave(cfg, run, steps, cfg.amount + i, r, i + 1);
    run, steps := BossCreates(cfg, run, steps);
  }

  /** From all messages under way but 1 + d (d - 1) / 2 counted: the `i`-th thread too many. */
  lemma {:induction false} ExcessIsReachable(cfg: Config, d: nat, i: nat) returns (run: seq<Pool>, steps: seq<Step>)
    requires cfg.mode.SendMessages? && i <= d
    requires 1 + Tri(d) <= cfg.amount && 1 + Tri(d) <= cfg.maxThread
    ensures IsRun(cfg, "", run, steps) && Last(run).boss.Testing?
    ensures Band(Last(run), cfg.amount + i, cfg.amount - 1 - Tri(d) + Tri(i + 1))
  {
    if i == 0 {
      var gone := cfg.amount - 1 - Tri(d);
      run, steps := QuietIsReachable(cfg, gone);
      run, steps := SomeAreCreated(cfg, run, steps, gone, gone, 1 + Tri(d));
    } else {
      TriMonotone(i, d);
      run, steps := ExcessIsReachable(cfg, d, i - 1);
      run, steps := OneMore(cfg, run, steps, i - 1, cfg.amount - 1 - Tri(d) + Tri(i));
    }
  }

  ghost predicate SomeRunStarts(cfg: Config, n: nat) {
    exists run, steps :: IsRun(cfg, "", run, steps) && |Last(run).workers| == n
  }

  /** With the permit's reads unlocked, `d` threads too many are possible exactly
      when amount and pool both exceed d (d - 1) / 2. */
  lemma {:induction false} ExcessIff(cfg: Config, d: nat)
    requires cfg.mode.SendMessages? && d > 0
    ensures SomeRunStarts(cfg, cfg.amount + d) <==> d * (d - 1) / 2 < cfg.amount && d * (d - 1) / 2 < cfg.maxThread
  {
    TriangularNumber(d);
    if SomeRunStarts(cfg, cfg.amount + d) {
      var run, steps :| IsRun(cfg, "", run, steps) && |Last(run).workers| == cfg.amount + d;
      ExcessIsBounded(cfg, "", run, steps);
    }
    if 1 + Tri(d) <= cfg.amount && 1 + Tri(d) <= cfg.maxThread {
      var run, steps := ExcessIsReachable(cfg, d, d);
    }
  }

  /** At the values of the sources, 104 threads for 100 messages, and no more. */
  lemma {:induction false} AtTheSourcesValues(cfg: Config)
    requires cfg == Config(SendMessages, 100, 10)
    ensures SomeRunStarts(cfg, 104)
    ensures forall run, steps | IsRun(cfg, "", run, steps) :: |Last(run).workers| <= 104
  {
    ExcessIff(cfg, 4);
    forall run, steps | IsRun(cfg, "", run, steps)
      ensures |Last(run).workers| <= 104
    {
      ExcessIsBounded(cfg, "", run, steps);
      if |Last(run).workers| > 104 {
        TriangularNumber(5);
        TriMonotone(5, |Last(run).workers| - 100);
      }
    }
  }

  ghost predicate NeverMoreThanAmount(cfg: Config) {
    forall run, steps | IsRun(cfg, "", run, steps) :: |Last(run).workers| <= cfg.amount
  }

  /** So the message limit holds in all schedules only if there is nothing to
      send or no thread to send it. */
  lemma {:induction false} LimitHoldsIff(cfg: Config)
    requires cfg.mode.SendMessages?
    ensures NeverMoreThanAmount(cfg) <==> cfg.amount == 0 || cfg.maxThread == 0
  {
    ExcessIff(cfg, 1);
    if cfg.amount == 0 || cfg.maxThread == 0 {
      forall run, steps | IsRun(cfg, "", run, steps)
        ensures |Last(run).workers| <= cfg.amount
      {
        ExcessIsBounded(cfg, "", run, steps);
      }
    }
  }
}
