/** The code of the two programs around the admission controller, each action
    proved to be a step of the pool, and the critical sections put together.
 */
module PoolCode {
  import opened ThreadingCtrl
  import opened Pool

  class Process {
    const cfg: Config
    const thCtrl: ThreadCtrl
    var workers: seq<Stage>
    var mutex: Holder
    var boss: Boss
    /** `msg_count`, or in file mode the number of times `filefinished` was set. */
    var reports: nat
    var file: string
    var got: seq<string>

    ghost function View(): Pool
      reads this, thCtrl
    {
      Pool(thCtrl.threadQueue, workers, mutex, boss, reports,
           thCtrl.fileThreadStartCount, thCtrl.fileThreadFailCount, file, got)
    }

    /** The controller was initialised for this mode, and fewer than 2^32
        threads have been started. */
    ghost predicate Valid()
      reads this, thCtrl
    {
      && thCtrl.isFile == (cfg.mode.SendFile? || cfg.mode.ReceiveFile?)
      && thCtrl.maxThread == cfg.maxThread && thCtrl.msgAmount == cfg.amount
      && thCtrl.fileThreadStartCount <= |workers|
    }

    constructor (cfg: Config, thCtrl: ThreadCtrl, file: string)
      requires thCtrl.View() == Ctrl([], cfg.amount, cfg.maxThread, 0, 0, cfg.mode.SendFile? || cfg.mode.ReceiveFile?)
      ensures Valid() && View() == Initial(file) && this.cfg == cfg && this.thCtrl == thCtrl
    {
      this.cfg, this.thCtrl := cfg, thCtrl;
      workers, mutex, boss, reports := [], Free, Testing, 0;
      this.file, got := file, [];
    }

    // ---- main ----

    /** The test of the main loop; in the receiver, the `if` on the queue's length. */
    method BossTest()
      requires Valid() && boss.Testing?
      modifies this`boss
      ensures Valid() && View() == Apply(cfg, old(View()), BossStep(true))
    {
      match cfg.mode
      case SendMessages => boss := if reports < cfg.amount then Asking else Done;
      case SendFile => boss := if reports == 0 then Asking else Done;
      case _ => boss := if |thCtrl.threadQueue| < thCtrl.maxThread then Granted else Testing;
    }

    method BossLock()
      requires Valid() && boss.Granted? && mutex.Free?
      modifies this`mutex, this`boss
      ensures Valid() && View() == Apply(cfg, old(View()), BossStep(true))
    {
      mutex := BossHolds;
      boss := Creating;
    }

    /** `pthread_create`: on success the thread may run from here on. */
    method PthreadCreate(ok: bool) returns (threadId: nat)
      requires Valid() && boss.Creating? && Enabled(cfg, View(), BossStep(ok))
      modifies this`workers, this`got, this`boss
      ensures Valid() && View() == Apply(cfg, old(View()), BossStep(ok))
      ensures ok ==> threadId == |old(workers)|
    {
      threadId := |workers|;
      if ok {
        workers := workers + [Working];
        got := got + [""];
      }
      boss := Informing(ok);
    }

    method Inform(threadId: nat)
      requires Valid() && boss.Informing?
      requires boss.created ==> threadId + 1 == |workers| && thCtrl.fileThreadStartCount < |workers|
      requires boss.created && thCtrl.isFile ==> |workers| < TWO_TO_32
      modifies this`boss, thCtrl
      ensures Valid() && View() == Apply(cfg, old(View()), BossStep(true))
    {
      thCtrl.ThreadCreatingInfo(threadId, boss.created);
      boss := Unlocking;
    }

    method BossUnlock()
      requires Valid() && boss.Unlocking?
      modifies this`mutex, this`boss
      ensures Valid() && View() == Apply(cfg, old(View()), BossStep(true))
    {
      mutex := Free;
      boss := Testing;
    }

    /** The critical section that both `main` functions run after a permit. */
    method CreateSection(ok: bool)
      requires Valid() && boss.Granted? && mutex.Free?
      requires ok && thCtrl.isFile ==> |workers| + 1 < TWO_TO_32
      modifies this, thCtrl
      ensures Valid() && mutex.Free? && boss.Testing?
      ensures reports == old(reports) && file == old(file)
      ensures workers == (if ok then old(workers) + [Working] else old(workers))
      ensures thCtrl.threadQueue == (if ok then old(thCtrl.threadQueue) + [|old(workers)|] else old(thCtrl.threadQueue))
    {
      BossLock();
      var threadId := PthreadCreate(ok);
      Inform(threadId);
      BossUnlock();
    }

    /** One undisturbed evaluation of the permit; what the boss's separate reads
        give when nobody moves between them. */
    method Permit() returns (permit: bool)
      requires Valid() && boss.Asking? && (cfg.mode.SendMessages? || cfg.mode.SendFile?)
      requires reports < TWO_TO_32
      modifies this`boss
      ensures boss == if permit then Granted else Testing
      ensures cfg.mode.SendMessages? ==>
        var counted := Apply(cfg, old(View()), BossStep(true));
        var summed := Apply(cfg, counted, BossStep(true));
        View() == if summed.boss.HaveSum? then Apply(cfg, summed, BossStep(true)) else summed
      ensures cfg.mode.SendFile? ==> View() == Apply(cfg, old(View()), BossStep(true))
    {
      permit := thCtrl.ThreadCreatingPermit(reports);
      boss := if permit then Granted else Testing;
    }

    // ---- the threads ----

    /** A failed `send` in a file sender: the count is raised without the lock. */
    method FailSend(i: nat)
      requires Valid() && Enabled(cfg, View(), Fail(i)) && thCtrl.fileThreadFailCount + 1 < TWO_TO_32
      modifies this`workers, thCtrl`fileThreadFailCount
      ensures Valid() && View() == Apply(cfg, old(View()), Fail(i))
    {
      thCtrl.fileThreadFailCount := thCtrl.fileThreadFailCount + 1;
      workers := workers[i := Failed];
    }

    /** A receiver writes one byte to the file that all of them share. */
    method ReceiveByte(i: nat, b: char)
      requires Valid() && Enabled(cfg, View(), Recv(i, b))
      modifies this`file, this`got
      ensures Valid() && View() == Apply(cfg, old(View()), Recv(i, b))
    {
      file := file + [b];
      got := got[i := got[i] + [b]];
    }

    method WorkerLock(i: nat)
      requires Valid() && i < |workers| && (workers[i].Working? || workers[i].Reported?) && mutex.Free?
      modifies this`mutex, this`workers
      ensures Valid() && View() == Apply(cfg, old(View()), WorkerStep(i))
    {
      mutex := WorkerHolds(i);
      workers := workers[i := if workers[i].Working? then Reporting else Popping];
    }

    method Report(i: nat)
      requires Valid() && i < |workers| && workers[i].Reporting?
      modifies this`reports, this`workers
      ensures Valid() && View() == Apply(cfg, old(View()), WorkerStep(i))
    {
      reports := reports + 1;
      workers := workers[i := ReportDone];
    }

    method Leave(i: nat)
      requires Valid() && i < |workers| && workers[i].Popping? && thCtrl.threadQueue != []
      modifies this`workers, thCtrl
      ensures Valid() && View() == Apply(cfg, old(View()), WorkerStep(i))
    {
      thCtrl.ThreadExitingInfo();
      workers := workers[i := PopDone];
    }

    method WorkerUnlock(i: nat)
      requires Valid() && i < |workers| && (workers[i].ReportDone? || workers[i].PopDone?)
      modifies this`mutex, this`workers
      ensures Valid() && View() == Apply(cfg, old(View()), WorkerStep(i))
    {
      mutex := Free;
      workers := workers[i := if workers[i].ReportDone? then Reported else Gone];
    }

    /** The first critical section of a thread function, undisturbed. */
    method ReportSection(i: nat)
      requires Valid() && Inv(View()) && i < |workers| && workers[i].Working? && mutex.Free?
      modifies this`reports, this`mutex, this`workers
      ensures Valid() && Inv(View()) && mutex.Free?
      ensures reports == old(reports) + 1 && workers == old(workers)[i := Reported]
    {
      Advance(WorkerStep(i));
      WorkerLock(i);
      Advance(WorkerStep(i));
      Report(i);
      Advance(WorkerStep(i));
      WorkerUnlock(i);
    }

    /** The second one: the pop finds an entry, though not this thread's own. */
    method ExitSection(i: nat)
      requires Valid() && Inv(View()) && i < |workers| && workers[i].Reported? && mutex.Free?
      modifies this`mutex, this`workers, thCtrl
      ensures Valid() && Inv(View()) && mutex.Free? && workers == old(workers)[i := Gone]
      ensures old(thCtrl.threadQueue) != [] && thCtrl.threadQueue == old(thCtrl.threadQueue)[1..]
    {
      Advance(WorkerStep(i));
      WorkerLock(i);
      PopFindsAnEntry(View(), i);
      Advance(WorkerStep(i));
      Leave(i);
      Advance(WorkerStep(i));
      WorkerUnlock(i);
    }

    lemma Advance(step: Step)
      requires Inv(View()) && Enabled(cfg, View(), step)
      ensures Inv(Apply(cfg, View(), step))
    {
      LockStep(cfg, View(), step);
      CountsStep(cfg, View(), step);
    }
  }
}
