/** The receiver (my_rcvr.cpp): what its file holds, given the bytes that arrive,
    and that it goes on serving connections.
 */
module ReceiverFile {
  import opened Bytes
  import opened Runs
  import opened Pool

  // ---- Every byte that arrives is written ----

  /** The bytes that worker `i` received, in order. */
  function BytesOf(steps: seq<Step>, i: nat): string {
    if steps == [] then "" else
      BytesOf(steps[..|steps|-1], i) + match Last(steps) case Recv(j, b) => (if i == j then [b] else "") case _ => ""
  }

  /** The bytes that all workers received, in order. */
  function AllBytes(steps: seq<Step>): string {
    if steps == [] then "" else
      AllBytes(steps[..|steps|-1]) + match Last(steps) case Recv(_, b) => [b] case _ => ""
  }

  /** The streams of the first `n` workers. */
  function StreamsOf(steps: seq<Step>, n: nat): (r: seq<string>)
    ensures |r| == n && forall i :: 0 <= i < n ==> r[i] == BytesOf(steps, i)
  {
    seq(n, i requires 0 <= i < n => BytesOf(steps, i))
  }

  /** For every pool size and schedule: the file is its initial content and then
      all the bytes that arrived, and each worker's share is what it received. */
  lemma {:induction false} EveryByteIsWritten(cfg: Config, file: string, run: seq<Pool>, steps: seq<Step>)
    requires IsRun(cfg, file, run, steps)
    ensures Last(run).file == file + AllBytes(steps)
    ensures Last(run).got == StreamsOf(steps, |Last(run).workers|)
  {
    RunReceived(cfg, file, run, steps);
    RunInv(cfg, file, run, steps);
  }

  lemma {:induction false} RunReceived(cfg: Config, file: string, run: seq<Pool>, steps: seq<Step>)
    requires IsRun(cfg, file, run, steps)
    ensures Last(run).file == file + AllBytes(steps)
    ensures forall i :: 0 <= i < |Last(run).got| ==> Last(run).got[i] == BytesOf(steps, i)
    ensures forall i :: i >= |Last(run).got| ==> BytesOf(steps, i) == ""
  {
    if steps != [] {
      PathPrefix(NextOf(cfg), run, steps);
      RunReceived(cfg, file, run[..|run|-1], steps[..|steps|-1]);
    }
  }

  // ---- One connection after the other ----

  /** With a pool of one, all workers but the newest have left the queue, and
      nobody is created before the newest has. */
  ghost predicate OneAtATime(p: Pool, file: string) {
    && (forall i :: 0 <= i < |p.workers| - 1 ==> HasPopped(p.workers[i]))
    && (p.boss.Granted? || p.boss.Creating? ==> forall i :: 0 <= i < |p.workers| ==> HasPopped(p.workers[i]))
    && |p.got| == |p.workers|
    && p.file == file + Flatten(p.got)
  }

  lemma EmptyQueueMeansAllLeft(p: Pool)
    requires Inv(p) && p.queue == [] && Pending(p) == 0
    ensures forall i :: 0 <= i < |p.workers| ==> HasPopped(p.workers[i])
  {
    forall i | 0 <= i < |p.workers|
      ensures HasPopped(p.workers[i])
    {
      if !HasPopped(p.workers[i]) {
        TallyFull(p.workers, HasPopped, i);
      }
    }
  }

  lemma OneAtATimeBoss(cfg: Config, p: Pool, ok: bool, file: string)
    requires cfg.mode.ReceiveFile? && cfg.maxThread <= 1
    requires Inv(p) && OneAtATime(p, file) && Enabled(cfg, p, BossStep(ok))
    requires p.boss.Testing? || p.boss.Granted? || BossLocked(p.boss)
    ensures OneAtATime(ApplyBoss(cfg, p, ok), file)
  {
    if p.boss.Testing? {
      if p.queue == [] {
        EmptyQueueMeansAllLeft(p);
      }
    } else if p.boss.Creating? {
      FlattenSnoc(p.got, "");
      assert Flatten(p.got) + "" == Flatten(p.got);
    }
  }

  lemma OneAtATimeStep(cfg: Config, p: Pool, step: Step, file: string)
    requires cfg.mode.ReceiveFile? && cfg.maxThread <= 1
    requires Inv(p) && Room(cfg, p) && OneAtATime(p, file) && Enabled(cfg, p, step)
    requires p.boss.Testing? || p.boss.Granted? || BossLocked(p.boss)
    ensures OneAtATime(Apply(cfg, p, step), file)
  {
    match step
    case BossStep(ok) => OneAtATimeBoss(cfg, p, ok, file);
    case Recv(i, b) =>
      FlattenLast(p.got, i, b);
    case _ =>
  }

  /** A byte for the last stream goes to the end of the whole. */
  lemma FlattenLast(got: seq<string>, i: nat, b: char)
    requires i + 1 == |got|
    ensures Flatten(got[i := got[i] + [b]]) == Flatten(got) + [b]
  {
    var before := got[..i];
    assert got == before + [got[i]];
    assert got[i := got[i] + [b]] == before + [got[i] + [b]];
    FlattenSnoc(before, got[i]);
    FlattenSnoc(before, got[i] + [b]);
  }

  /** With a pool of one the file is the initial content followed by what the
      workers received, one after the other in the order of their creation. */
  lemma RunOneAtATime(cfg: Config, file: string, run: seq<Pool>, steps: seq<Step>)
    requires IsRun(cfg, file, run, steps) && cfg.mode.ReceiveFile? && cfg.maxThread <= 1
    ensures Last(run).file == file + Flatten(StreamsOf(steps, |Last(run).workers|))
  {
    RunInOrder(cfg, file, run, steps);
    EveryByteIsWritten(cfg, file, run, steps);
  }

  lemma {:induction false} RunInOrder(cfg: Config, file: string, run: seq<Pool>, steps: seq<Step>)
    requires IsRun(cfg, file, run, steps) && cfg.mode.ReceiveFile? && cfg.maxThread <= 1
    ensures OneAtATime(Last(run), file)
  {
    if steps != [] {
      var r, q := run[..|run|-1], steps[..|steps|-1];
      PathPrefix(NextOf(cfg), run, steps);
      RunInOrder(cfg, file, r, q);
      RunRoom(cfg, file, r, q);
      OneAtATimeStep(cfg, run[|q|], Last(steps), file);
    }
  }

  /** The file is the initial content followed by what each connection
      delivered, connection after connection. */
  ghost predicate NeverInterleaves(cfg: Config) {
    forall file, run, steps | IsRun(cfg, file, run, steps) ::
      Last(run).file == file + Flatten(StreamsOf(steps, |Last(run).workers|))
  }

  lemma TwoWaiting(cfg: Config, file: string) returns (run: seq<Pool>, steps: seq<Step>)
    requires cfg.mode.ReceiveFile? && cfg.maxThread >= 2
    ensures IsRun(cfg, file, run, steps)
    ensures Last(run).file == file && Last(run).got == ["", ""] && Last(run).workers == [Working, Working]
  {
    run, steps := [Initial(file)], [];
    run, steps := Create(cfg, file, run, steps);
    run, steps := Create(cfg, file, run, steps);
  }

  /** Two live workers can write in turns: the file is neither order of the streams. */
  lemma TwoWorkersInterleave(cfg: Config, file: string) returns (run: seq<Pool>, steps: seq<Step>)
    requires cfg.mode.ReceiveFile? && cfg.maxThread >= 2
    ensures IsRun(cfg, file, run, steps)
    ensures Last(run).file == file + "aba" && |Last(run).workers| == 2 && StreamsOf(steps, 2) == ["aa", "b"]
    ensures Last(run).file != file + "aa" + "b" && Last(run).file != file + "b" + "aa"
  {
    run, steps := TwoWaiting(cfg, file);
    assert file + ['a'] == file + "a" && (file + "a") + ['b'] == file + "ab" && (file + "ab") + ['a'] == file + "aba";
    assert "" + ['a'] == "a" && "" + ['b'] == "b" && "a" + ['a'] == "aa";
    var p := Last(run);
    run, steps := Take(NextOf(cfg), run, steps, Recv(0, 'a'), p.(file := file + "a", got := ["a", ""]));
    run, steps := Take(NextOf(cfg), run, steps, Recv(1, 'b'), p.(file := file + "ab", got := ["a", "b"]));
    run, steps := Take(NextOf(cfg), run, steps, Recv(0, 'a'), p.(file := file + "aba", got := ["aa", "b"]));
    EveryByteIsWritten(cfg, file, run, steps);
    assert (file + "aba")[|file| + 1] == 'b' && (file + "aa" + "b")[|file| + 1] == 'a';
    assert (file + "aba")[|file|] == 'a' && (file + "b" + "aa")[|file|] == 'b';
  }

  lemma Create(cfg: Config, file: string, run0: seq<Pool>, steps0: seq<Step>)
      returns (run: seq<Pool>, steps: seq<Step>)
    requires IsRun(cfg, file, run0, steps0) && cfg.mode.ReceiveFile?
    requires var p := Last(run0); p.boss.Testing? && p.mutex.Free? && |p.queue| < cfg.maxThread
    ensures IsRun(cfg, file, run, steps) && Last(run) == Grown(cfg, Last(run0))
  {
    run, steps := Take(NextOf(cfg), run0, steps0, BossStep(true), Last(run0).(boss := Granted));
    run, steps := TakeCreate(cfg, file, run, steps);
  }

  /** Streams stay apart in all schedules exactly when the pool holds one worker. */
  lemma NeverInterleavesIff(cfg: Config)
    requires cfg.mode.ReceiveFile?
    ensures NeverInterleaves(cfg) <==> cfg.maxThread <= 1
  {
    if cfg.maxThread <= 1 {
      forall file, run, steps | IsRun(cfg, file, run, steps)
        ensures Last(run).file == file + Flatten(StreamsOf(steps, |Last(run).workers|))
      {
        RunOneAtATime(cfg, file, run, steps);
      }
    } else {
      var run, steps := TwoWorkersInterleave(cfg, "");
      assert Flatten(["aa", "b"]) == Flatten(["aa"]) + "b" == "aab" by {
        FlattenSnoc(["aa"], "b");
        FlattenSnoc([], "aa");
        assert [] + ["aa"] == ["aa"] && ["aa"] + ["b"] == ["aa", "b"];
      }
      assert Last(run).file != "" + Flatten(StreamsOf(steps, 2));
    }
  }

  // ---- Every connection can be served ----

  lemma {:induction false} ReceiveAll(cfg: Config, file: string, run0: seq<Pool>, steps0: seq<Step>, i: nat, s: string)
      returns (run: seq<Pool>, steps: seq<Step>)
    requires IsRun(cfg, file, run0, steps0) && cfg.mode.ReceiveFile?
    requires i < |Last(run0).workers| && i < |Last(run0).got| && Last(run0).workers[i].Working?
    ensures IsRun(cfg, file, run, steps)
    ensures var p := Last(run0); Last(run) == p.(file := p.file + s, got := p.got[i := p.got[i] + s])
  {
    var p := Last(run0);
    if s == "" {
      run, steps := run0, steps0;
      assert p.file + s == p.file && p.got[i] + s == p.got[i];
    } else {
      var init := s[..|s|-1];
      run, steps := ReceiveAll(cfg, file, run0, steps0, i, init);
      assert s == init + [Last(s)];
      assert p.file + init + [Last(s)] == p.file + s && p.got[i] + init + [Last(s)] == p.got[i] + s;
      run, steps := Take(NextOf(cfg), run, steps, Recv(i, Last(s)), p.(file := p.file + s, got := p.got[i := p.got[i] + s]));
    }
  }

  /** The boss is at its test and all workers have left. */
  predicate Idle(p: Pool) {
    && (forall i :: 0 <= i < |p.workers| ==> p.workers[i].Gone?) && |p.got| == |p.workers|
    && p.queue == [] && p.boss.Testing? && p.mutex.Free?
  }

  lemma ServeOne(cfg: Config, file: string, run0: seq<Pool>, steps0: seq<Step>, s: string)
      returns (run: seq<Pool>, steps: seq<Step>)
    requires IsRun(cfg, file, run0, steps0) && cfg.mode.ReceiveFile? && cfg.maxThread > 0 && Idle(Last(run0))
    ensures IsRun(cfg, file, run, steps) && Idle(Last(run))
    ensures Last(run).got == Last(run0).got + [s] && Last(run).file == Last(run0).file + s
  {
    var p := Last(run0);
    var i := |p.workers|;
    run, steps := Create(cfg, file, run0, steps0);
    run, steps := ReceiveAll(cfg, file, run, steps, i, s);
    assert "" + s == s;
    run, steps := WorkerLeaves(cfg, file, run, steps, i);
  }

  lemma {:induction false} ServeAll(cfg: Config, file: string, streams: seq<string>)
      returns (run: seq<Pool>, steps: seq<Step>)
    requires cfg.mode.ReceiveFile? && cfg.maxThread > 0
    ensures IsRun(cfg, file, run, steps) && Idle(Last(run))
    ensures Last(run).got == streams && Last(run).file == file + Flatten(streams)
  {
    if streams == [] {
      run, steps := [Initial(file)], [];
      assert file + [] == file;
    } else {
      var init, s := streams[..|streams|-1], Last(streams);
      run, steps := ServeAll(cfg, file, init);
      run, steps := ServeOne(cfg, file, run, steps, s);
    }
  }

  /** Any list of connections, each with any bytes, can be served one after the
      other, and then the next one. */
  lemma {:induction false} AnyConnectionsAreServed(cfg: Config, file: string, streams: seq<string>)
      returns (run: seq<Pool>, steps: seq<Step>)
    requires cfg.mode.ReceiveFile? && cfg.maxThread > 0
    ensures IsRun(cfg, file, run, steps) && Idle(Last(run)) && |Last(run).workers| == |streams|
    ensures Last(run).file == file + Flatten(streams) && StreamsOf(steps, |streams|) == streams
  {
    run, steps := ServeAll(cfg, file, streams);
    EveryByteIsWritten(cfg, file, run, steps);
  }

  /** A step that starts a worker or brings that nearer. */
  lemma TowardsTheNext(cfg: Config, p: Pool) returns (step: Step)
    requires (cfg.mode.ReceiveFile? || cfg.mode.ReceiveMessages?) && cfg.maxThread > 0
    requires Inv(p) && Room(cfg, p) && (p.boss.Testing? || p.boss.Granted? || BossLocked(p.boss))
    requires forall i :: 0 <= i < |p.workers| ==> !p.workers[i].Failed?
    ensures Enabled(cfg, p, step)
    ensures var q := Apply(cfg, p, step);
      |q.workers| > |p.workers|
      || (|q.workers| == |p.workers| && Distance(q) < Distance(p) && forall i :: 0 <= i < |q.workers| ==> !q.workers[i].Failed?)
  {
    if p.mutex.WorkerHolds? {
      step := WorkerStep(p.mutex.i);
      WeightsUpdate(p.workers, p.mutex.i, NextStage(p.workers[p.mutex.i]));
    } else if p.mutex.BossHolds? || p.boss.Granted? || |p.queue| < cfg.maxThread {
      step := BossStep(true);
    } else {
      var i := SomeoneIsAlive(p);
      step := WorkerStep(i);
      WeightsUpdate(p.workers, i, NextStage(p.workers[i]));
    }
  }

  lemma SomeoneIsAlive(p: Pool) returns (i: nat)
    requires Inv(p) && p.queue != [] && forall i :: 0 <= i < |p.workers| ==> !p.workers[i].Failed?
    ensures i < |p.workers| && !p.workers[i].Gone?
  {
    if forall i :: 0 <= i < |p.workers| ==> HasPopped(p.workers[i]) {
      AllPopped(p.workers);
    }
    i :| 0 <= i < |p.workers| && !HasPopped(p.workers[i]);
  }

  lemma {:induction false} AllPopped(ws: seq<Stage>)
    requires forall i :: 0 <= i < |ws| ==> HasPopped(ws[i])
    ensures CountPopped(ws) == |ws|
  {
    if ws != [] {
      AllPopped(ws[..|ws|-1]);
    }
  }

  /** How far the boss is from creating, should every worker leave first. */
  function Distance(p: Pool): nat {
    4 * Weights(p.workers) + match p.boss
      case Testing => 2
      case Granted => 1
      case Informing(_) => 4
      case Unlocking => 3
      case _ => 0
  }

  lemma {:induction false} NextIsStarted(cfg: Config, file: string, run0: seq<Pool>, steps0: seq<Step>)
      returns (run: seq<Pool>, steps: seq<Step>)
    requires IsRun(cfg, file, run0, steps0) && (cfg.mode.ReceiveFile? || cfg.mode.ReceiveMessages?) && cfg.maxThread > 0
    requires forall i :: 0 <= i < |Last(run0).workers| ==> !Last(run0).workers[i].Failed?
    ensures IsRun(cfg, file, run, steps) && run0 <= run && |Last(run).workers| > |Last(run0).workers|
    decreases Distance(Last(run0))
  {
    RunRoom(cfg, file, run0, steps0);
    var p := Last(run0);
    var step := TowardsTheNext(cfg, p);
    run, steps := Take(NextOf(cfg), run0, steps0, step, Apply(cfg, p, step));
    if |Last(run).workers| == |p.workers| {
      run, steps := NextIsStarted(cfg, file, run, steps);
    }
  }

  /** The receiver never stops serving: from every reachable state a further
      worker can be started, whatever the pool size above 0. */
  lemma ServiceGoesOn(cfg: Config, file: string, run0: seq<Pool>, steps0: seq<Step>)
      returns (run: seq<Pool>, steps: seq<Step>)
    requires IsRun(cfg, file, run0, steps0) && (cfg.mode.ReceiveFile? || cfg.mode.ReceiveMessages?) && cfg.maxThread > 0
    ensures IsRun(cfg, file, run, steps) && run0 <= run && |Last(run).workers| > |Last(run0).workers|
  {
    NobodyFails(cfg, file, run0, steps0);
    run, steps := NextIsStarted(cfg, file, run0, steps0);
  }

  lemma {:induction false} NobodyFails(cfg: Config, file: string, run: seq<Pool>, steps: seq<Step>)
    requires IsRun(cfg, file, run, steps) && !cfg.mode.SendFile?
    ensures forall i :: 0 <= i < |Last(run).workers| ==> !Last(run).workers[i].Failed?
  {
    if steps != [] {
      PathPrefix(NextOf(cfg), run, steps);
      NobodyFails(cfg, file, run[..|run|-1], steps[..|steps|-1]);
    }
  }
}
