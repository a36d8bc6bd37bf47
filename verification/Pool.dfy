/** The thread pools of the sender and the receiver (my_sdr.cpp, my_rcvr.cpp):
    a boss that creates workers under a mutex, and workers that report and then
    leave in two later critical sections. One step is one read or one action,
    so every interleaving of the critical sections is a run.
 */
module Pool {
  import opened Bytes
  import opened Runs
  import opened ThreadingCtrl

  datatype Mode = SendMessages | SendFile | ReceiveMessages | ReceiveFile

  datatype Config = Config(mode: Mode, amount: UInt, maxThread: UInt)

  /** A worker: sending or receiving; then lock, report, unlock; then lock, pop,
      unlock. `Failed` is a file sender between raising the failure count and `exit`. */
  datatype Stage =
    | Working | Reporting | ReportDone | Reported | Popping | PopDone | Gone | Failed

  /** The boss: one state per read of shared data, then lock, create, inform, unlock. */
  datatype Boss =
    | Testing | Asking | HaveCount(c: nat) | HaveSum | Granted
    | Creating | Informing(created: bool) | Unlocking | Done

  datatype Holder = Free | BossHolds | WorkerHolds(i: nat)

  /** `reports` is `msg_count` in message mode; in file mode `filefinished` is
      `reports > 0`. `file` is the receiver's file, `got[i]` what worker `i` received. */
  datatype Pool = Pool(
    queue: seq<nat>, workers: seq<Stage>, mutex: Holder, boss: Boss,
    reports: nat, starts: nat, fails: nat,
    file: string, got: seq<string>)

  datatype Step =
    | BossStep(ok: bool)
    | WorkerStep(i: nat)
    | Fail(i: nat)
    | Recv(i: nat, b: char)

  function Initial(file: string): Pool { Pool([], [], Free, Testing, 0, 0, 0, file, []) }

  /** `ok` is the result of `pthread_create`. A file sender's failures stay below
      2^32 because each one ends the process. */
  predicate Enabled(cfg: Config, p: Pool, step: Step) {
    match step
    case BossStep(ok) =>
      && !p.boss.Done?
      && (p.boss.Granted? ==> p.mutex.Free?)
      && (p.boss.Creating? && ok && cfg.mode.SendFile? ==> |p.workers| + 1 < TWO_TO_32)
    case WorkerStep(i) =>
      && i < |p.workers| && !p.workers[i].Gone? && !p.workers[i].Failed?
      && (p.workers[i].Working? || p.workers[i].Reported? ==> p.mutex.Free?)
    case Fail(i) => cfg.mode.SendFile? && i < |p.workers| && p.workers[i].Working?
    case Recv(i, _) => cfg.mode.ReceiveFile? && i < |p.workers| && i < |p.got| && p.workers[i].Working?
  }

  /** What the boss decides from one read of shared data. In file mode only the
      failure count is shared: nobody else writes the start count. */
  function BossRead(cfg: Config, p: Pool): Boss {
    match p.boss
    case Testing => (match cfg.mode
      case SendMessages => if p.reports < cfg.amount then Asking else Done
      case SendFile => if p.reports == 0 then Asking else Done
      case _ => if |p.queue| < cfg.maxThread then Granted else Testing)
    case Asking => (match cfg.mode
      case SendMessages => HaveCount(p.reports)
      case SendFile => if FilePermit(p.starts, p.fails, cfg.maxThread) then Granted else Testing
      case _ => Testing)
    case HaveCount(c) => if c + |p.queue| < cfg.amount then HaveSum else Testing
    case HaveSum => if |p.queue| < cfg.maxThread then Granted else Testing
    case _ => p.boss
  }

  /** The id `pthread_create` has just returned. */
  function Newest(p: Pool): nat { if p.workers == [] then 0 else |p.workers| - 1 }

  function ApplyBoss(cfg: Config, p: Pool, ok: bool): Pool
    requires Enabled(cfg, p, BossStep(ok))
  {
    match p.boss
    case Granted => p.(mutex := BossHolds, boss := Creating)
    case Creating =>
      if ok then p.(workers := p.workers + [Working], got := p.got + [""], boss := Informing(true))
      else p.(boss := Informing(false))
    case Informing(created) =>
      if created then
        p.(queue := p.queue + [Newest(p)], boss := Unlocking,
           starts := if cfg.mode.SendFile? || cfg.mode.ReceiveFile? then p.starts + 1 else p.starts)
      else p.(boss := Unlocking)
    case Unlocking => p.(mutex := Free, boss := Testing)
    case _ => p.(boss := BossRead(cfg, p))
  }

  /** `queue::pop` removes the front, whichever worker calls it. */
  function ApplyWorker(p: Pool, i: nat): Pool
    requires i < |p.workers|
  {
    var p' := p.(workers := p.workers[i := NextStage(p.workers[i])]);
    match p.workers[i]
    case Working => p'.(mutex := WorkerHolds(i))
    case Reporting => p'.(reports := p.reports + 1)
    case ReportDone => p'.(mutex := Free)
    case Reported => p'.(mutex := WorkerHolds(i))
    case Popping => p'.(queue := if p.queue == [] then [] else p.queue[1..])
    case PopDone => p'.(mutex := Free)
    case _ => p'
  }

  function NextStage(st: Stage): Stage {
    match st
    case Working => Reporting
    case Reporting => ReportDone
    case ReportDone => Reported
    case Reported => Popping
    case Popping => PopDone
    case PopDone => Gone
    case _ => st
  }

  function Apply(cfg: Config, p: Pool, step: Step): Pool
    requires Enabled(cfg, p, step)
  {
    match step
    case BossStep(ok) => ApplyBoss(cfg, p, ok)
    case WorkerStep(i) => ApplyWorker(p, i)
    case Fail(i) => p.(workers := p.workers[i := Failed], fails := p.fails + 1)
    case Recv(i, b) => p.(file := p.file + [b], got := p.got[i := p.got[i] + [b]])
  }

  ghost predicate Next(cfg: Config, p: Pool, step: Step, q: Pool) {
    Enabled(cfg, p, step) && q == Apply(cfg, p, step)
  }

  ghost function NextOf(cfg: Config): (Pool, Step, Pool) -> bool { (p, step, q) => Next(cfg, p, step, q) }

  /** A schedule of the whole program. */
  ghost predicate IsRun(cfg: Config, file: string, run: seq<Pool>, steps: seq<Step>) {
    Path(NextOf(cfg), run, steps) && run[0] == Initial(file)
  }

  /** The boss's critical section, undisturbed. */
  lemma TakeCreate(cfg: Config, file: string, run0: seq<Pool>, steps0: seq<Step>)
      returns (run: seq<Pool>, steps: seq<Step>)
    requires IsRun(cfg, file, run0, steps0)
    requires var p := Last(run0);
      p.boss.Granted? && p.mutex.Free? && (cfg.mode.SendFile? ==> |p.workers| + 1 < TWO_TO_32)
    ensures IsRun(cfg, file, run, steps) && Last(run) == Grown(cfg, Last(run0))
  {
    var p := Last(run0);
    var locked := p.(mutex := BossHolds, boss := Creating);
    run, steps := Take(NextOf(cfg), run0, steps0, BossStep(true), locked);
    var made := locked.(workers := p.workers + [Working], got := p.got + [""], boss := Informing(true));
    run, steps := Take(NextOf(cfg), run, steps, BossStep(true), made);
    var queued := Grown(cfg, p).(mutex := BossHolds, boss := Unlocking);
    run, steps := Take(NextOf(cfg), run, steps, BossStep(true), queued);
    run, steps := Take(NextOf(cfg), run, steps, BossStep(true), Grown(cfg, p));
  }

  /** One more worker, created and queued. */
  function Grown(cfg: Config, p: Pool): Pool {
    p.(workers := p.workers + [Working], got := p.got + [""], queue := p.queue + [|p.workers|],
       starts := if cfg.mode.SendFile? || cfg.mode.ReceiveFile? then p.starts + 1 else p.starts,
       mutex := Free, boss := Testing)
  }

  function At(p: Pool, i: nat, st: Stage): Pool
    requires i < |p.workers|
  {
    p.(workers := p.workers[i := st])
  }

  /** A worker reports and leaves. */
  lemma WorkerLeaves(cfg: Config, file: string, run0: seq<Pool>, steps0: seq<Step>, i: nat)
      returns (run: seq<Pool>, steps: seq<Step>)
    requires IsRun(cfg, file, run0, steps0)
    requires var p := Last(run0); i < |p.workers| && p.workers[i].Working? && p.mutex.Free? && p.queue != []
    ensures IsRun(cfg, file, run, steps)
    ensures var p := Last(run0);
      Last(run) == p.(workers := p.workers[i := Gone], queue := p.queue[1..], reports := p.reports + 1)
  {
    var p := Last(run0);
    var held := p.(mutex := WorkerHolds(i));
    run, steps := Take(NextOf(cfg), run0, steps0, WorkerStep(i), At(held, i, Reporting));
    var counted := p.(reports := p.reports + 1);
    held := counted.(mutex := WorkerHolds(i));
    run, steps := Take(NextOf(cfg), run, steps, WorkerStep(i), At(held, i, ReportDone));
    run, steps := Take(NextOf(cfg), run, steps, WorkerStep(i), At(counted, i, Reported));
    run, steps := Take(NextOf(cfg), run, steps, WorkerStep(i), At(held, i, Popping));
    run, steps := Take(NextOf(cfg), run, steps, WorkerStep(i), At(held, i, PopDone).(queue := p.queue[1..]));
    run, steps := Take(NextOf(cfg), run, steps, WorkerStep(i), At(counted, i, Gone).(queue := p.queue[1..]));
  }

  // ---- Counting workers ----

  function Tally(ws: seq<Stage>, p: Stage -> bool): nat {
    if ws == [] then 0 else Tally(ws[..|ws|-1], p) + if p(Last(ws)) then 1 else 0
  }

  function One(b: bool): nat { if b then 1 else 0 }

  lemma TallySnoc(ws: seq<Stage>, st: Stage, p: Stage -> bool)
    ensures Tally(ws + [st], p) == Tally(ws, p) + One(p(st))
  {
    assert (ws + [st])[..|ws|] == ws;
  }

  lemma {:induction false} TallyUpdate(ws: seq<Stage>, i: nat, st: Stage, p: Stage -> bool)
    requires i < |ws|
    ensures Tally(ws[i := st], p) + One(p(ws[i])) == Tally(ws, p) + One(p(st))
  {
    var init := ws[..|ws|-1];
    if i < |init| {
      assert ws[i := st][..|ws|-1] == init[i := st];
      TallyUpdate(init, i, st, p);
    } else {
      assert ws[i := st][..|ws|-1] == init;
    }
  }

  lemma {:induction false} TallyMonotone(ws: seq<Stage>, p: Stage -> bool, q: Stage -> bool)
    requires forall st :: p(st) ==> q(st)
    ensures Tally(ws, p) <= Tally(ws, q) <= |ws|
  {
    if ws != [] {
      TallyMonotone(ws[..|ws|-1], p, q);
    }
  }

  lemma {:induction false} TallyFull(ws: seq<Stage>, p: Stage -> bool, i: nat)
    requires i < |ws| && !p(ws[i])
    ensures Tally(ws, p) < |ws|
  {
    TallyMonotone(ws[..|ws|-1], p, p);
    if i < |ws| - 1 {
      TallyFull(ws[..|ws|-1], p, i);
    }
  }

  predicate HasReported(st: Stage) { st.ReportDone? || st.Reported? || st.Popping? || st.PopDone? || st.Gone? }

  predicate HasPopped(st: Stage) { st.PopDone? || st.Gone? }

  function CountReported(ws: seq<Stage>): nat { Tally(ws, HasReported) }

  function CountPopped(ws: seq<Stage>): nat { Tally(ws, HasPopped) }

  function CountFailed(ws: seq<Stage>): nat { Tally(ws, (st: Stage) => st.Failed?) }

  /** Steps a worker still has to take. */
  function Weight(st: Stage): nat {
    match st
    case Working => 6
    case Reporting => 5
    case ReportDone => 4
    case Reported => 3
    case Popping => 2
    case PopDone => 1
    case _ => 0
  }

  function Weights(ws: seq<Stage>): nat {
    if ws == [] then 0 else Weights(ws[..|ws|-1]) + Weight(Last(ws))
  }

  lemma {:induction false} WeightsUpdate(ws: seq<Stage>, i: nat, st: Stage)
    requires i < |ws|
    ensures Weights(ws[i := st]) == Weights(ws) - Weight(ws[i]) + Weight(st)
  {
    var init := ws[..|ws|-1];
    if i < |init| {
      assert ws[i := st][..|ws|-1] == init[i := st];
      WeightsUpdate(init, i, st);
    } else {
      assert ws[i := st][..|ws|-1] == init;
    }
  }

  // ---- The invariant of all modes ----

  predicate HoldsLock(st: Stage) { st.Reporting? || st.ReportDone? || st.Popping? || st.PopDone? }

  predicate BossLocked(b: Boss) { b.Creating? || b.Informing? || b.Unlocking? }

  /** At most one thread is inside a critical section, and it is the mutex's holder. */
  ghost predicate LockOk(p: Pool) {
    && (p.mutex.BossHolds? <==> BossLocked(p.boss))
    && (forall i :: 0 <= i < |p.workers| ==> (HoldsLock(p.workers[i]) <==> p.mutex == WorkerHolds(i)))
    && (p.mutex.WorkerHolds? ==> p.mutex.i < |p.workers|)
  }

  /** Created but not yet entered in the queue. */
  function Pending(p: Pool): nat { One(p.boss == Informing(true)) }

  ghost predicate CountsOk(p: Pool) {
    && p.reports == CountReported(p.workers)
    && p.fails == CountFailed(p.workers)
    && |p.queue| + CountPopped(p.workers) + Pending(p) == |p.workers|
    && (forall j :: 0 <= j < |p.queue| ==> p.queue[j] == CountPopped(p.workers) + j)
    && |p.got| == |p.workers|
  }

  ghost predicate Inv(p: Pool) { LockOk(p) && CountsOk(p) }

  lemma LockStep(cfg: Config, p: Pool, step: Step)
    requires LockOk(p) && Enabled(cfg, p, step)
    ensures LockOk(Apply(cfg, p, step))
  {}

  lemma WorkerCounts(p: Pool, i: nat, st: Stage)
    requires i < |p.workers|
    ensures var ws := p.workers[i := st];
      && CountReported(ws) + One(HasReported(p.workers[i])) == CountReported(p.workers) + One(HasReported(st))
      && CountPopped(ws) + One(HasPopped(p.workers[i])) == CountPopped(p.workers) + One(HasPopped(st))
      && CountFailed(ws) + One(p.workers[i].Failed?) == CountFailed(p.workers) + One(st.Failed?)
  {
    TallyUpdate(p.workers, i, st, HasReported);
    TallyUpdate(p.workers, i, st, HasPopped);
    TallyUpdate(p.workers, i, st, (s: Stage) => s.Failed?);
  }

  /** A worker about to pop always finds the queue non-empty. */
  lemma PopFindsAnEntry(p: Pool, i: nat)
    requires Inv(p) && i < |p.workers| && p.workers[i].Popping?
    ensures p.queue != []
  {
    assert p.mutex == WorkerHolds(i);
    TallyFull(p.workers, HasPopped, i);
  }

  lemma BossCounts(cfg: Config, p: Pool, ok: bool)
    requires Inv(p) && Enabled(cfg, p, BossStep(ok))
    ensures CountsOk(ApplyBoss(cfg, p, ok))
  {
    if p.boss.Creating? && ok {
      TallySnoc(p.workers, Working, HasReported);
      TallySnoc(p.workers, Working, HasPopped);
      TallySnoc(p.workers, Working, (st: Stage) => st.Failed?);
    } else if p.boss == Informing(true) {
      assert Newest(p) == CountPopped(p.workers) + |p.queue|;
    }
  }

  lemma WorkerStepCounts(cfg: Config, p: Pool, i: nat)
    requires Inv(p) && Enabled(cfg, p, WorkerStep(i))
    ensures CountsOk(ApplyWorker(p, i))
  {
    WorkerCounts(p, i, NextStage(p.workers[i]));
    if p.workers[i].Popping? {
      PopFindsAnEntry(p, i);
    }
  }

  lemma CountsStep(cfg: Config, p: Pool, step: Step)
    requires Inv(p) && Enabled(cfg, p, step)
    ensures CountsOk(Apply(cfg, p, step))
  {
    match step
    case BossStep(ok) => BossCounts(cfg, p, ok);
    case WorkerStep(i) => WorkerStepCounts(cfg, p, i);
    case Fail(i) => WorkerCounts(p, i, Failed);
    case Recv(_, _) =>
  }

  lemma {:induction false} RunInv(cfg: Config, file: string, run: seq<Pool>, steps: seq<Step>)
    requires IsRun(cfg, file, run, steps)
    ensures Inv(Last(run))
  {
    if steps != [] {
      PathPrefix(NextOf(cfg), run, steps);
      RunInv(cfg, file, run[..|run|-1], steps[..|steps|-1]);
      LockStep(cfg, run[|steps|-1], Last(steps));
      CountsStep(cfg, run[|steps|-1], Last(steps));
    }
  }

  // ---- The queue is the set of workers that have not left ----

  /** Popping the front instead of the caller's own entry does not matter: in
      every run the length is the number of created workers that have not run
      their exit step (one less while the boss is about to push), the entries
      are the newest ones in order, a pop never meets an empty queue, and
      critical sections exclude each other. */
  lemma QueueCountsLiveWorkers(cfg: Config, file: string, run: seq<Pool>, steps: seq<Step>)
    requires IsRun(cfg, file, run, steps)
    ensures var p := Last(run);
      && |p.queue| + Pending(p) == |p.workers| - CountPopped(p.workers)
      && (forall j :: 0 <= j < |p.queue| ==> p.queue[j] == |p.workers| - Pending(p) - |p.queue| + j)
      && (forall i :: 0 <= i < |p.workers| && p.workers[i].Popping? ==> p.queue != [])
      && (forall i, j :: 0 <= i < j < |p.workers| ==> !(HoldsLock(p.workers[i]) && HoldsLock(p.workers[j])))
      && (forall i :: 0 <= i < |p.workers| && HoldsLock(p.workers[i]) ==> !BossLocked(p.boss))
  {
    RunInv(cfg, file, run, steps);
    var p := Last(run);
    forall i | 0 <= i < |p.workers| && p.workers[i].Popping?
      ensures p.queue != []
    {
      PopFindsAnEntry(p, i);
    }
  }

  // ---- The limit on live workers ----

  /** All modes but the file sender read the queue's length before creating. */
  ghost predicate Room(cfg: Config, p: Pool) {
    && |p.queue| <= cfg.maxThread
    && (p.boss.Granted? || p.boss.Creating? || p.boss == Informing(true) ==> |p.queue| < cfg.maxThread)
  }

  lemma RoomStep(cfg: Config, p: Pool, step: Step)
    requires !cfg.mode.SendFile? && Room(cfg, p) && Inv(p) && Enabled(cfg, p, step)
    requires cfg.mode.SendMessages? || !p.boss.Asking?
    ensures Room(cfg, Apply(cfg, p, step))
  {}

  lemma {:induction false} RunRoom(cfg: Config, file: string, run: seq<Pool>, steps: seq<Step>)
    requires IsRun(cfg, file, run, steps) && !cfg.mode.SendFile?
    ensures Room(cfg, Last(run)) && Inv(Last(run))
    ensures cfg.mode.SendMessages? || Last(run).boss.Testing? || Last(run).boss.Granted? || BossLocked(Last(run).boss)
  {
    RunInv(cfg, file, run, steps);
    if steps != [] {
      PathPrefix(NextOf(cfg), run, steps);
      RunRoom(cfg, file, run[..|run|-1], steps[..|steps|-1]);
      RoomStep(cfg, run[|steps|-1], Last(steps));
    }
  }
}
