/** The sender's main loop, in both modes: nobody is stuck, it can always still
    end, and under a scheduler that does not forget a worker for ever it does.
 */
module SenderLiveness {
  import opened Runs
  import opened ThreadingCtrl
  import opened Pool
  import opened SenderMessages
  import opened SenderFile

  predicate Sends(cfg: Config) { cfg.mode.SendMessages? || cfg.mode.SendFile? }

  /** The condition that ends the loop. */
  predicate Enough(cfg: Config, p: Pool) { if cfg.mode.SendFile? then p.reports > 0 else p.reports >= cfg.amount }

  // ---- Work ----

  function BossWeight(b: Boss): nat {
    match b
    case Creating => 2
    case Informing(_) => 5
    case Unlocking => 4
    case Done => 0
    case _ => 3
  }

  /** Threads that may be started if none fails. */
  function Budget(cfg: Config): nat { if cfg.mode.SendFile? then cfg.maxThread else cfg.amount + cfg.maxThread }

  /** Threads still to be started, phases of live threads, and the rest of the
      boss's critical section. */
  function Work(cfg: Config, p: Pool): int {
    12 * (Budget(cfg) - |p.workers|) + Weights(p.workers) + BossWeight(p.boss)
  }

  /** A step that is neither an unlocked read of the boss nor a failed creation. */
  predicate Decisive(p: Pool, step: Step) {
    match step
    case BossStep(ok) => p.boss.Granted? || (p.boss.Creating? && ok) || p.boss.Informing? || p.boss.Unlocking?
    case _ => true
  }

  predicate FailedCreation(p: Pool, step: Step) { step == BossStep(false) && p.boss.Creating? }

  lemma BossWorkDrops(cfg: Config, p: Pool, ok: bool)
    requires Sends(cfg) && Enabled(cfg, p, BossStep(ok))
    ensures var q := ApplyBoss(cfg, p, ok);
      if p.boss.Creating? && !ok then Work(cfg, q) == Work(cfg, p) + 3
      else if Decisive(p, BossStep(ok)) then Work(cfg, q) < Work(cfg, p)
      else Work(cfg, q) <= Work(cfg, p)
  {
    assert (p.workers + [Working])[..|p.workers|] == p.workers;
  }

  /** Every step but refused permits and failed creations uses up work. */
  lemma WorkDrops(cfg: Config, p: Pool, step: Step)
    requires Sends(cfg) && Enabled(cfg, p, step)
    ensures Decisive(p, step) ==> Work(cfg, Apply(cfg, p, step)) < Work(cfg, p)
    ensures !FailedCreation(p, step) ==> Work(cfg, Apply(cfg, p, step)) <= Work(cfg, p)
  {
    match step
    case BossStep(ok) => BossWorkDrops(cfg, p, ok);
    case WorkerStep(i) => WeightsUpdate(p.workers, i, NextStage(p.workers[i]));
    case Fail(i) => WeightsUpdate(p.workers, i, Failed);
    case _ =>
  }

  function CountDecisive(run: seq<Pool>, steps: seq<Step>): nat
    requires |run| == |steps| + 1
  {
    if steps == [] then 0 else
      CountDecisive(run[..|run|-1], steps[..|steps|-1])
      + One(Decisive(run[|steps|-1], steps[|steps|-1]))
  }

  lemma {:induction false} WorkIsUsedUp(cfg: Config, file: string, run: seq<Pool>, steps: seq<Step>)
    requires IsRun(cfg, file, run, steps) && Sends(cfg)
    requires forall i {:trigger steps[i]} :: 0 <= i < |steps| ==> !FailedCreation(run[i], steps[i])
    ensures CountDecisive(run, steps) + Work(cfg, Last(run)) <= Work(cfg, Initial(file))
  {
    if steps != [] {
      var r, q := run[..|run|-1], steps[..|steps|-1];
      PathPrefix(NextOf(cfg), run, steps);
      assert forall i {:trigger q[i]} :: 0 <= i < |q| ==> r[i] == run[i] && q[i] == steps[i];
      WorkIsUsedUp(cfg, file, r, q);
      WorkDrops(cfg, run[|q|], steps[|q|]);
    }
  }

  /** If no creation fails, a run holds only boundedly many steps besides the
      boss's unlocked reads; each failed file sender makes room for one more. */
  lemma {:induction false} OnlyFinitelyManyDecisiveSteps(cfg: Config, file: string, run: seq<Pool>, steps: seq<Step>)
    requires IsRun(cfg, file, run, steps) && Sends(cfg)
    requires forall i {:trigger steps[i]} :: 0 <= i < |steps| ==> !FailedCreation(run[i], steps[i])
    ensures CountDecisive(run, steps) <= 12 * (Budget(cfg) + if cfg.mode.SendFile? then Last(run).fails else 0) + 3
  {
    if cfg.mode.SendFile? {
      RunCounted(cfg, file, run, steps);
    } else {
      RunBounded(cfg, file, run, steps);
    }
    WorkIsUsedUp(cfg, file, run, steps);
  }

  // ---- States from which the loop can end ----

  ghost predicate Fine(cfg: Config, p: Pool) {
    && Sends(cfg) && cfg.maxThread > 0 && Inv(p)
    && (cfg.mode.SendMessages? ==> Room(cfg, p) && Bounded(cfg, p))
    && (cfg.mode.SendFile? ==> Counted(cfg, p) && p.fails == 0)
    && (p.boss.Done? ==> Enough(cfg, p))
    && forall i :: 0 <= i < |p.workers| ==> !p.workers[i].Failed?
  }

  lemma FineStep(cfg: Config, p: Pool, step: Step)
    requires Fine(cfg, p) && Enabled(cfg, p, step) && !step.Fail?
    ensures Fine(cfg, Apply(cfg, p, step))
  {
    LockStep(cfg, p, step);
    CountsStep(cfg, p, step);
    if cfg.mode.SendMessages? {
      RoomStep(cfg, p, step);
      BoundedStep(cfg, p, step);
    } else {
      CountedStep(cfg, p, step);
    }
    NobodyFails(cfg, p, step);
  }

  lemma NobodyFails(cfg: Config, p: Pool, step: Step)
    requires Enabled(cfg, p, step) && !step.Fail?
    requires forall i :: 0 <= i < |p.workers| ==> !p.workers[i].Failed?
    ensures forall i :: 0 <= i < |Apply(cfg, p, step).workers| ==> !Apply(cfg, p, step).workers[i].Failed?
    ensures Apply(cfg, p, step).fails == p.fails
  {}

  lemma {:induction false} RunFine(cfg: Config, file: string, run: seq<Pool>, steps: seq<Step>)
    requires IsRun(cfg, file, run, steps) && Sends(cfg) && cfg.maxThread > 0
    requires Last(run).fails == 0 || cfg.mode.SendMessages?
    ensures Fine(cfg, Last(run))
  {
    if steps != [] {
      PathPrefix(NextOf(cfg), run, steps);
      RunFine(cfg, file, run[..|run|-1], steps[..|steps|-1]);
      FineStep(cfg, run[|steps|-1], Last(steps));
    }
  }

  /** Nobody is stuck, as long as no file sender has failed: before the end the
      holder of the mutex can move, or if it is free the boss and every live
      worker can; with no live worker left and something missing, a permit
      evaluated now is granted. */
  lemma NeverStuck(cfg: Config, file: string, run: seq<Pool>, steps: seq<Step>)
    requires IsRun(cfg, file, run, steps) && Sends(cfg) && cfg.maxThread > 0
    requires Last(run).fails == 0 || cfg.mode.SendMessages?
    requires !Last(run).boss.Done?
    ensures var p := Last(run);
      && (p.mutex.WorkerHolds? ==> Enabled(cfg, p, WorkerStep(p.mutex.i)))
      && (!p.mutex.WorkerHolds? ==> Enabled(cfg, p, BossStep(true)))
      && (forall i :: 0 <= i < |p.workers| && p.mutex.Free? && !p.workers[i].Gone? ==> Enabled(cfg, p, WorkerStep(i)))
      && (CountPopped(p.workers) == |p.workers| && !Enough(cfg, p) ==>
            if cfg.mode.SendFile? then FilePermit(p.starts, p.fails, cfg.maxThread)
            else MessagePermit(p.reports, |p.queue|, cfg.amount, cfg.maxThread))
  {
    RunFine(cfg, file, run, steps);
    TallyMonotone(Last(run).workers, HasPopped, HasReported);
  }

  // ---- From every reachable state the loop can still end ----

  predicate AllGone(ws: seq<Stage>) { forall i :: 0 <= i < |ws| ==> ws[i].Gone? }

  /** How many reads the boss is from a decision, once no worker is left. */
  function Reads(cfg: Config, p: Pool): nat {
    match p.boss
    case Testing => if Enough(cfg, p) then 1 else 4
    case Asking => 3
    case HaveCount(_) => 2
    case HaveSum => 1
    case _ => 0
  }

  /** A step that brings the end of the loop nearer. */
  lemma NextTowardsDone(cfg: Config, p: Pool) returns (step: Step)
    requires Fine(cfg, p) && !p.boss.Done?
    ensures Enabled(cfg, p, step) && !step.Fail?
    ensures var p' := Apply(cfg, p, step);
      Work(cfg, p') < Work(cfg, p) || (Work(cfg, p') == Work(cfg, p) && Reads(cfg, p') < Reads(cfg, p))
  {
    if p.mutex.BossHolds? {
      step := BossStep(true);
    } else if p.mutex.WorkerHolds? {
      step := WorkerStep(p.mutex.i);
    } else if i :| 0 <= i < |p.workers| && !p.workers[i].Gone? {
      step := WorkerStep(i);
    } else {
      step := BossStep(true);
      AllGoneCounts(p.workers);
    }
    WorkDrops(cfg, p, step);
  }

  lemma {:induction false} AllGoneCounts(ws: seq<Stage>)
    requires AllGone(ws)
    ensures CountReported(ws) == |ws| && CountPopped(ws) == |ws|
  {
    if ws != [] {
      AllGoneCounts(ws[..|ws|-1]);
    }
  }

  /** Extends a run, step by step, until the boss is done. */
  lemma {:induction false} RunsOn(cfg: Config, file: string, run0: seq<Pool>, steps0: seq<Step>)
      returns (run: seq<Pool>, steps: seq<Step>)
    requires IsRun(cfg, file, run0, steps0) && Fine(cfg, Last(run0))
    ensures IsRun(cfg, file, run, steps) && run0 <= run && Last(run).boss.Done? && Fine(cfg, Last(run))
    decreases Work(cfg, Last(run0)), Reads(cfg, Last(run0))
  {
    var p := Last(run0);
    if p.boss.Done? {
      run, steps := run0, steps0;
    } else {
      var step := NextTowardsDone(cfg, p);
      run, steps := Take(NextOf(cfg), run0, steps0, step, Apply(cfg, p, step));
      FineStep(cfg, p, step);
      run, steps := RunsOn(cfg, file, run, steps);
    }
  }

  /** Whatever has happened so far (but a failed file sender), some continuation
      ends the loop, with the messages counted or the file finished. */
  lemma EveryRunCanFinish(cfg: Config, file: string, run0: seq<Pool>, steps0: seq<Step>)
      returns (run: seq<Pool>, steps: seq<Step>)
    requires IsRun(cfg, file, run0, steps0) && Sends(cfg) && cfg.maxThread > 0
    requires Last(run0).fails == 0 || cfg.mode.SendMessages?
    ensures IsRun(cfg, file, run, steps) && run0 <= run
    ensures Last(run).boss.Done? && Enough(cfg, Last(run))
  {
    RunFine(cfg, file, run0, steps0);
    run, steps := RunsOn(cfg, file, run0, steps0);
  }

  // ---- Under fair schedules the loop ends ----

  /** One step of an endless schedule; nothing is asked once the loop has ended. */
  predicate Moves(cfg: Config, p: Pool, step: Step, q: Pool) {
    if p.boss.Done? then q == p
    else Enabled(cfg, p, step) && !FailedCreation(p, step) && !step.Fail? && q == Apply(cfg, p, step)
  }

  ghost predicate Schedule(cfg: Config, file: string, s: nat -> Pool, a: nat -> Step) {
    && s(0) == Initial(file)
    && forall n: nat {:trigger a(n)} :: Moves(cfg, s(n), a(n), s(n + 1))
  }

  /** At `n` or later worker `i` moves or cannot move. */
  ghost predicate Attended(cfg: Config, s: nat -> Pool, a: nat -> Step, i: nat, n: nat) {
    exists m: nat :: n <= m && (a(m) == WorkerStep(i) || !Enabled(cfg, s(m), WorkerStep(i)))
  }

  /** No worker stays able to move for ever without moving. The boss needs no fairness. */
  ghost predicate WorkersFair(cfg: Config, s: nat -> Pool, a: nat -> Step) {
    forall i: nat, n: nat :: Attended(cfg, s, a, i, n)
  }

  lemma {:induction false} AlwaysFine(cfg: Config, file: string, s: nat -> Pool, a: nat -> Step, n: nat)
    requires Sends(cfg) && cfg.maxThread > 0 && Schedule(cfg, file, s, a)
    ensures Fine(cfg, s(n))
  {
    if n > 0 {
      AlwaysFine(cfg, file, s, a, n - 1);
      var p, step := s(n - 1), a(n - 1);
      assert s(n - 1 + 1) == s(n);
      if !p.boss.Done? {
        FineStep(cfg, p, step);
      }
    }
  }

  /** While worker `i` can move, some decisive step is taken. */
  lemma {:induction false} WaitForWorker(cfg: Config, file: string, s: nat -> Pool, a: nat -> Step, i: nat, n: nat, until: nat)
      returns (m: nat)
    requires Sends(cfg) && Schedule(cfg, file, s, a)
    requires !s(n).boss.Done? && Enabled(cfg, s(n), WorkerStep(i))
    requires n <= until && (a(until) == WorkerStep(i) || !Enabled(cfg, s(until), WorkerStep(i)))
    ensures n < m && (s(m).boss.Done? || Work(cfg, s(m)) < Work(cfg, s(n)))
    decreases until - n
  {
    var p, step := s(n), a(n);
    WorkDrops(cfg, p, step);
    if Decisive(p, step) || s(n + 1).boss.Done? {
      m := n + 1;
    } else {
      m := WaitForWorker(cfg, file, s, a, i, n + 1, until);
    }
  }

  /** With every worker gone only the boss moves, and soon decides. */
  lemma {:induction false} WaitForBoss(cfg: Config, file: string, s: nat -> Pool, a: nat -> Step, n: nat)
      returns (m: nat)
    requires Sends(cfg) && cfg.maxThread > 0 && Schedule(cfg, file, s, a)
    requires !s(n).boss.Done? && AllGone(s(n).workers)
    ensures n < m && (s(m).boss.Done? || Work(cfg, s(m)) < Work(cfg, s(n)))
    decreases Reads(cfg, s(n))
  {
    var p, step := s(n), a(n);
    AlwaysFine(cfg, file, s, a, n);
    AllGoneCounts(p.workers);
    WorkDrops(cfg, p, step);
    if Decisive(p, step) || s(n + 1).boss.Done? {
      m := n + 1;
    } else {
      m := WaitForBoss(cfg, file, s, a, n + 1);
    }
  }

  /** Inside the boss's critical section every possible step is decisive. */
  lemma BossHoldsDecides(cfg: Config, p: Pool, step: Step)
    requires Fine(cfg, p) && p.mutex.BossHolds? && Enabled(cfg, p, step) && !FailedCreation(p, step)
    ensures Decisive(p, step)
  {}

  lemma SomeWorkerCanMove(cfg: Config, p: Pool) returns (i: nat)
    requires Fine(cfg, p) && !p.mutex.BossHolds? && !AllGone(p.workers)
    ensures Enabled(cfg, p, WorkerStep(i))
  {
    if p.mutex.WorkerHolds? {
      i := p.mutex.i;
    } else {
      i :| i < |p.workers| && !p.workers[i].Gone?;
    }
  }

  lemma WaitWhileBossHolds(cfg: Config, file: string, s: nat -> Pool, a: nat -> Step, n: nat)
    requires Sends(cfg) && Schedule(cfg, file, s, a)
    requires Fine(cfg, s(n)) && !s(n).boss.Done? && s(n).mutex.BossHolds?
    ensures Work(cfg, s(n + 1)) < Work(cfg, s(n))
  {
    BossHoldsDecides(cfg, s(n), a(n));
    WorkDrops(cfg, s(n), a(n));
  }

  lemma WhenAttended(cfg: Config, s: nat -> Pool, a: nat -> Step, i: nat, n: nat) returns (m: nat)
    requires WorkersFair(cfg, s, a)
    ensures n <= m && (a(m) == WorkerStep(i) || !Enabled(cfg, s(m), WorkerStep(i)))
  {
    assert Attended(cfg, s, a, i, n);
    m :| n <= m && (a(m) == WorkerStep(i) || !Enabled(cfg, s(m), WorkerStep(i)));
  }

  lemma WorkGoesDown(cfg: Config, file: string, s: nat -> Pool, a: nat -> Step, n: nat) returns (m: nat)
    requires Sends(cfg) && cfg.maxThread > 0
    requires Schedule(cfg, file, s, a) && WorkersFair(cfg, s, a) && !s(n).boss.Done?
    requires Fine(cfg, s(n))
    ensures n < m && (s(m).boss.Done? || Work(cfg, s(m)) < Work(cfg, s(n)))
  {
    if s(n).mutex.BossHolds? {
      WaitWhileBossHolds(cfg, file, s, a, n);
      m := n + 1;
    } else if AllGone(s(n).workers) {
      m := WaitForBoss(cfg, file, s, a, n);
    } else {
      var i := SomeWorkerCanMove(cfg, s(n));
      var until := WhenAttended(cfg, s, a, i, n);
      m := WaitForWorker(cfg, file, s, a, i, n, until);
    }
  }

  lemma {:induction false} DoneAfter(cfg: Config, file: string, s: nat -> Pool, a: nat -> Step, n: nat) returns (m: nat)
    requires Sends(cfg) && cfg.maxThread > 0
    requires Schedule(cfg, file, s, a) && WorkersFair(cfg, s, a)
    ensures s(m).boss.Done?
    decreases Work(cfg, s(n))
  {
    if s(n).boss.Done? {
      m := n;
    } else {
      AlwaysFine(cfg, file, s, a, n);
      m := WorkGoesDown(cfg, file, s, a, n);
      if !s(m).boss.Done? {
        AlwaysFine(cfg, file, s, a, m);
        m := DoneAfter(cfg, file, s, a, m);
      }
    }
  }

  /** In every endless schedule that is fair to the workers and in which no
      creation and no file sender fails, the loop ends, with the messages counted
      or the file finished. */
  lemma TheLoopEnds(cfg: Config, file: string, s: nat -> Pool, a: nat -> Step)
    requires Sends(cfg) && cfg.maxThread > 0
    requires Schedule(cfg, file, s, a) && WorkersFair(cfg, s, a)
    ensures exists n: nat :: s(n).boss.Done? && Enough(cfg, s(n))
  {
    var n := DoneAfter(cfg, file, s, a, 0);
    AlwaysFine(cfg, file, s, a, n);
  }
}
