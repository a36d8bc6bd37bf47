/** Which bytes get lost, swapped or added when a second sender reads on from
    the shared stream, and exactly when that can happen.
 */
module FileLosses {
  import opened Runs
  import opened ThreadingCtrl
  import P = Pool
  import opened FileCopy

  // ---- Pieces of schedules ----

  /** The boss may start a sender, and nobody has reported. */
  predicate Ready(c: Copy) {
    && !c.exited && !c.closed && c.pool.boss.Testing? && c.pool.mutex.Free? && c.pool.reports == 0
    && |c.hands| == |c.pool.workers|
  }

  lemma BossIsPermitted(cfg: P.Config, run0: seq<Copy>, steps0: seq<Step>) returns (run: seq<Copy>, steps: seq<Step>)
    requires Path(NextOf(cfg), run0, steps0) && cfg.mode.SendFile? && Ready(Last(run0))
    requires FilePermit(Last(run0).pool.starts, Last(run0).pool.fails, cfg.maxThread)
    ensures Path(NextOf(cfg), run, steps) && run[0] == run0[0]
    ensures Last(run) == Last(run0).(pool := Last(run0).pool.(boss := P.Creating, mutex := P.BossHolds))
  {
    var c := Last(run0);
    var step := PoolStep(P.BossStep(true));
    run, steps := Take(NextOf(cfg), run0, steps0, step, c.(pool := c.pool.(boss := P.Asking)));
    run, steps := Take(NextOf(cfg), run, steps, step, c.(pool := c.pool.(boss := P.Granted)));
    run, steps := Take(NextOf(cfg), run, steps, step, c.(pool := c.pool.(boss := P.Creating, mutex := P.BossHolds)));
  }

  lemma StartSender(cfg: P.Config, run0: seq<Copy>, steps0: seq<Step>) returns (run: seq<Copy>, steps: seq<Step>)
    requires Path(NextOf(cfg), run0, steps0) && cfg.mode.SendFile? && Ready(Last(run0))
    requires FilePermit(Last(run0).pool.starts, Last(run0).pool.fails, cfg.maxThread)
    requires |Last(run0).pool.workers| + 1 < TWO_TO_32
    ensures Path(NextOf(cfg), run, steps) && run[0] == run0[0]
    ensures Last(run) == Last(run0).(pool := P.Grown(cfg, Last(run0).pool), hands := Last(run0).hands + [Empty])
  {
    var c := Last(run0);
    var step := PoolStep(P.BossStep(true));
    run, steps := BossIsPermitted(cfg, run0, steps0);
    var grown := P.Grown(cfg, c.pool);
    var d := c.(hands := c.hands + [Empty]);
    var made := c.pool.(workers := grown.workers, got := grown.got, mutex := P.BossHolds, boss := P.Informing(true));
    run, steps := Take(NextOf(cfg), run, steps, step, d.(pool := made));
    run, steps := Take(NextOf(cfg), run, steps, step, d.(pool := grown.(mutex := P.BossHolds, boss := P.Unlocking)));
    run, steps := Take(NextOf(cfg), run, steps, step, d.(pool := grown));
  }

  /** A sender reads the next byte. */
  lemma TakeByte(cfg: P.Config, run0: seq<Copy>, steps0: seq<Step>, i: nat) returns (run: seq<Copy>, steps: seq<Step>)
    requires Path(NextOf(cfg), run0, steps0) && Sending(Last(run0), i)
    requires Last(run0).hands[i].Empty? && Last(run0).pos < |Last(run0).content|
    ensures Path(NextOf(cfg), run, steps) && run[0] == run0[0]
    ensures var c := Last(run0); Last(run) == c.(pos := c.pos + 1, hands := c.hands[i := Holds(c.content[c.pos])])
  {
    var c := Last(run0);
    var peeked := c.(hands := c.hands[i := Peeked]);
    run, steps := Take(NextOf(cfg), run0, steps0, Peek(i), peeked);
    assert peeked.hands[i := Holds(c.content[c.pos])] == c.hands[i := Holds(c.content[c.pos])];
    run, steps := Take(NextOf(cfg), run, steps, Read(i), AfterRead(peeked, i));
  }

  /** A sender reads and sends the next byte. */
  lemma PassByte(cfg: P.Config, run0: seq<Copy>, steps0: seq<Step>, i: nat) returns (run: seq<Copy>, steps: seq<Step>)
    requires Path(NextOf(cfg), run0, steps0) && Sending(Last(run0), i) && !Last(run0).closed
    requires Last(run0).hands[i].Empty? && Last(run0).pos < |Last(run0).content|
    ensures Path(NextOf(cfg), run, steps) && run[0] == run0[0]
    ensures var c := Last(run0);
      Last(run) == c.(pos := c.pos + 1, sent := c.sent + [c.content[c.pos]], channel := c.channel + [c.content[c.pos]])
  {
    var c := Last(run0);
    run, steps := TakeByte(cfg, run0, steps0, i);
    var d := Last(run);
    assert d.hands[i := Empty] == c.hands;
    run, steps := Take(NextOf(cfg), run, steps, Send(i), AfterSend(d, i));
  }

  lemma {:induction false} PassRest(cfg: P.Config, run0: seq<Copy>, steps0: seq<Step>, i: nat)
      returns (run: seq<Copy>, steps: seq<Step>)
    requires Path(NextOf(cfg), run0, steps0) && Sending(Last(run0), i) && !Last(run0).closed
    requires Last(run0).hands[i].Empty? && Last(run0).pos <= |Last(run0).content|
    ensures Path(NextOf(cfg), run, steps) && run[0] == run0[0]
    ensures var c := Last(run0);
      Last(run) == c.(pos := |c.content|, sent := c.sent + c.content[c.pos..], channel := c.channel + c.content[c.pos..])
    decreases |Last(run0).content| - Last(run0).pos
  {
    var c := Last(run0);
    if c.pos == |c.content| {
      run, steps := run0, steps0;
      assert c.sent + [] == c.sent && c.channel + [] == c.channel;
    } else {
      run, steps := PassByte(cfg, run0, steps0, i);
      run, steps := PassRest(cfg, run, steps, i);
      assert c.content[c.pos..] == [c.content[c.pos]] + c.content[c.pos + 1..];
    }
  }

  /** A sender sees the end of the stream and reports; the boss leaves its loop. */
  lemma Finish(cfg: P.Config, run0: seq<Copy>, steps0: seq<Step>, i: nat) returns (run: seq<Copy>, steps: seq<Step>)
    requires Path(NextOf(cfg), run0, steps0) && cfg.mode.SendFile? && Ready(Last(run0)) && Sending(Last(run0), i)
    requires Last(run0).hands[i].Empty? && Last(run0).pos == |Last(run0).content|
    ensures Path(NextOf(cfg), run, steps) && run[0] == run0[0]
    ensures var c := Last(run0);
      Last(run) == c.(pool := c.pool.(workers := c.pool.workers[i := P.Reported], reports := 1, boss := P.Done))
  {
    var c := Last(run0);
    var p := c.pool;
    var held := p.(mutex := P.WorkerHolds(i));
    run, steps := Take(NextOf(cfg), run0, steps0, PoolStep(P.WorkerStep(i)),
      c.(pool := held.(workers := p.workers[i := P.Reporting])));
    run, steps := Take(NextOf(cfg), run, steps, PoolStep(P.WorkerStep(i)),
      c.(pool := held.(workers := p.workers[i := P.ReportDone], reports := 1)));
    var reported := p.(workers := p.workers[i := P.Reported], reports := 1);
    run, steps := Take(NextOf(cfg), run, steps, PoolStep(P.WorkerStep(i)), c.(pool := reported));
    run, steps := Take(NextOf(cfg), run, steps, PoolStep(P.BossStep(true)), c.(pool := reported.(boss := P.Done)));
  }

  // ---- Failed senders take a byte each ----

  /** `n` senders have been started, each has read one byte and failed to send it. */
  predicate Lost(c: Copy, n: nat) {
    && Ready(c) && |c.pool.workers| == n && c.pool.starts == n && c.pool.fails == n
    && c.pos == n && c.sent == "" && !c.ended
  }

  lemma {:induction false} LoseBytes(cfg: P.Config, content: string, initial: string, n: nat)
      returns (run: seq<Copy>, steps: seq<Step>)
    requires cfg.mode.SendFile? && cfg.maxThread > 0 && n <= |content| && n < TWO_TO_32
    ensures IsRun(cfg, content, initial, run, steps) && Lost(Last(run), n) && Last(run).content == content
  {
    if n == 0 {
      run, steps := [Initial(content, initial)], [];
    } else {
      run, steps := LoseBytes(cfg, content, initial, n - 1);
      run, steps := StartNext(cfg, run, steps, n - 1);
      run, steps := TakeByte(cfg, run, steps, n - 1);
      var c := Last(run);
      run, steps := Take(NextOf(cfg), run, steps, PoolStep(P.Fail(n - 1)),
        c.(pool := c.pool.(workers := c.pool.workers[n - 1 := P.Failed], fails := n)));
    }
  }

  lemma StartNext(cfg: P.Config, run0: seq<Copy>, steps0: seq<Step>, n: nat) returns (run: seq<Copy>, steps: seq<Step>)
    requires Path(NextOf(cfg), run0, steps0) && cfg.mode.SendFile? && cfg.maxThread > 0
    requires Lost(Last(run0), n) && n + 1 < TWO_TO_32
    ensures Path(NextOf(cfg), run, steps) && run[0] == run0[0]
    ensures Last(run) == Last(run0).(pool := P.Grown(cfg, Last(run0).pool), hands := Last(run0).hands + [Empty])
  {
    FilePermitIsTheDifference(n, n, cfg.maxThread);
    run, steps := StartSender(cfg, run0, steps0);
  }

  /** After `f` failures one more sender sends the rest of the file: the loop ends,
      the file counts as finished, and its first `f` bytes are missing. */
  lemma {:induction false} FailuresLoseTheStart(cfg: P.Config, content: string, initial: string, f: nat)
      returns (run: seq<Copy>, steps: seq<Step>)
    requires cfg.mode.SendFile? && cfg.maxThread > 0 && f <= |content| && f + 1 < TWO_TO_32
    ensures IsRun(cfg, content, initial, run, steps)
    ensures Last(run).pool.fails == f && Last(run).pool.boss.Done?
    ensures Last(run).sent == content[f..] && !Last(run).exited && !Last(run).ended
  {
    run, steps := LoseBytes(cfg, content, initial, f);
    run, steps := StartNext(cfg, run, steps, f);
    run, steps := PassRest(cfg, run, steps, f);
    run, steps := Finish(cfg, run, steps, f);
  }

  // ---- A whole transfer ----

  lemma {:induction false} ReceiveRest(cfg: P.Config, run0: seq<Copy>, steps0: seq<Step>) returns (run: seq<Copy>, steps: seq<Step>)
    requires Path(NextOf(cfg), run0, steps0) && !Last(run0).ended
    ensures Path(NextOf(cfg), run, steps) && run[0] == run0[0]
    ensures var c := Last(run0); Last(run) == c.(file := c.file + c.channel, channel := "")
    decreases |Last(run0).channel|
  {
    var c := Last(run0);
    if c.channel == "" {
      run, steps := run0, steps0;
      assert c.file + c.channel == c.file;
    } else {
      assert c.channel == [c.channel[0]] + c.channel[1..];
      run, steps := Take(NextOf(cfg), run0, steps0, Recv, c.(file := c.file + [c.channel[0]], channel := c.channel[1..]));
      run, steps := ReceiveRest(cfg, run, steps);
    }
  }

  /** Every file can come through: the loop ends, the process exits, and the
      receiver that sees the end has appended all of it. */
  lemma {:induction false} AnyFileComesThrough(cfg: P.Config, content: string, initial: string)
      returns (run: seq<Copy>, steps: seq<Step>)
    requires cfg.mode.SendFile? && cfg.maxThread > 0
    ensures IsRun(cfg, content, initial, run, steps)
    ensures Last(run).ended && Last(run).pool.fails == 0 && Last(run).file == initial + content
  {
    run, steps := FailuresLoseTheStart(cfg, content, initial, 0);
    RunConserved(cfg, content, initial, run, steps);
    RunOrderly(cfg, content, initial, run, steps);
    run, steps := Exits(cfg, run, steps);
    run, steps := ReceiveRest(cfg, run, steps);
    run, steps := Take(NextOf(cfg), run, steps, RecvEnd, Last(run).(ended := true));
  }

  lemma Exits(cfg: P.Config, run0: seq<Copy>, steps0: seq<Step>) returns (run: seq<Copy>, steps: seq<Step>)
    requires Path(NextOf(cfg), run0, steps0) && !Last(run0).exited && Last(run0).pool.boss.Done?
    ensures Path(NextOf(cfg), run, steps) && run[0] == run0[0]
    ensures Last(run) == Last(run0).(exited := true)
  {
    run, steps := Take(NextOf(cfg), run0, steps0, Exit, Last(run0).(exited := true));
  }

  // ---- Two live senders ----

  /** Two senders are in the loop and nothing has been read. */
  predicate TwoAtWork(c: Copy) {
    && Ready(c) && Sending(c, 0) && Sending(c, 1) && c.hands == [Empty, Empty]
    && c.pos == 0 && c.sent == "" && c.pool.fails == 0
  }

  lemma TwoSenders(cfg: P.Config, content: string, initial: string) returns (run: seq<Copy>, steps: seq<Step>)
    requires cfg.mode.SendFile? && cfg.maxThread >= 2
    ensures IsRun(cfg, content, initial, run, steps) && TwoAtWork(Last(run)) && Last(run).content == content
  {
    run, steps := [Initial(content, initial)], [];
    run, steps := StartSender(cfg, run, steps);
    run, steps := StartSender(cfg, run, steps);
  }

  /** The second of two bytes overtakes the first. */
  lemma TwoSendersSwap(cfg: P.Config, a: char, b: char, initial: string) returns (run: seq<Copy>, steps: seq<Step>)
    requires cfg.mode.SendFile? && cfg.maxThread >= 2
    ensures IsRun(cfg, [a, b], initial, run, steps)
    ensures Last(run).pool.fails == 0 && Last(run).pool.boss.Done?
    ensures Last(run).sent == [b, a]
  {
    run, steps := TwoSenders(cfg, [a, b], initial);
    run, steps := TakeByte(cfg, run, steps, 0);
    run, steps := PassByte(cfg, run, steps, 1);
    assert "" + [b] == [b] && [b] + [a] == [b, a];
    run, steps := Take(NextOf(cfg), run, steps, Send(0), AfterSend(Last(run), 0));
    run, steps := Finish(cfg, run, steps, 0);
  }

  /** Both senders see that there is one more byte; the one that comes second
      sends the zero its buffer was cleared to. */
  lemma TwoSendersAddAByte(cfg: P.Config, a: char, initial: string) returns (run: seq<Copy>, steps: seq<Step>)
    requires cfg.mode.SendFile? && cfg.maxThread >= 2
    ensures IsRun(cfg, [a], initial, run, steps)
    ensures Last(run).pool.fails == 0 && Last(run).sent == [a, '\0']
  {
    run, steps := TwoSenders(cfg, [a], initial);
    var c := Last(run);
    run, steps := Take(NextOf(cfg), run, steps, Peek(0), c.(hands := [Peeked, Empty]));
    run, steps := Take(NextOf(cfg), run, steps, Peek(1), c.(hands := [Peeked, Peeked]));
    run, steps := Take(NextOf(cfg), run, steps, Read(0), c.(hands := [Holds(a), Peeked], pos := 1));
    run, steps := Take(NextOf(cfg), run, steps, Read(1), c.(hands := [Holds(a), Holds('\0')], pos := 1, past := c.past + 1));
    assert "" + [a] == [a] && [a] + ['\0'] == [a, '\0'];
    run, steps := Take(NextOf(cfg), run, steps, Send(0), AfterSend(Last(run), 0));
    run, steps := Take(NextOf(cfg), run, steps, Send(1), AfterSend(Last(run), 1));
  }

  // ---- Exactly when the file comes through ----

  /** Nothing but the beginning of the file is ever sent, in any run with `f` failures. */
  ghost predicate AlwaysAPrefix(cfg: P.Config, f: nat) {
    forall content, initial, run, steps | IsRun(cfg, content, initial, run, steps) && Last(run).pool.fails == f ::
      Last(run).sent <= content
  }

  /** Whenever the loop ends after `f` failures, the whole file has been sent. */
  ghost predicate AlwaysWhole(cfg: P.Config, f: nat) {
    forall content, initial, run, steps |
      IsRun(cfg, content, initial, run, steps) && Last(run).pool.fails == f && Last(run).pool.boss.Done? ::
      Last(run).sent == content
  }

  /** No more bytes are sent than the file has. */
  ghost predicate NeverLonger(cfg: P.Config) {
    forall content, initial, run, steps | IsRun(cfg, content, initial, run, steps) :: |Last(run).sent| <= |content|
  }

  predicate Safe(cfg: P.Config, f: nat) { cfg.maxThread == 0 || (cfg.maxThread == 1 && f == 0) }

  lemma NoSenderAtAll(cfg: P.Config, content: string, initial: string, run: seq<Copy>, steps: seq<Step>)
    requires IsRun(cfg, content, initial, run, steps) && cfg.mode.SendFile? && cfg.maxThread == 0
    ensures Last(run).pool.fails == 0
  {
    RunOrderly(cfg, content, initial, run, steps);
  }

  lemma UnsafeRun(cfg: P.Config, f: nat) returns (content: string, run: seq<Copy>, steps: seq<Step>)
    requires cfg.mode.SendFile? && cfg.maxThread + f < TWO_TO_32 && !Safe(cfg, f)
    ensures IsRun(cfg, content, "", run, steps) && Last(run).pool.fails == f && Last(run).pool.boss.Done?
    ensures !(Last(run).sent <= content)
  {
    if f == 0 {
      content := "ab";
      run, steps := TwoSendersSwap(cfg, 'a', 'b', "");
      assert Last(run).sent[0] == 'b';
    } else {
      content := seq(f, _ => 'a') + "b";
      run, steps := FailuresLoseTheStart(cfg, content, "", f);
      assert content[f..] == "b";
      assert Last(run).sent[0] == 'b' && content[0] == 'a';
    }
  }

  /** What is sent is a prefix of the file in all schedules with `f` failures
      exactly when no sender can be started, or only one and none has failed. */
  lemma {:induction false} AlwaysAPrefixIff(cfg: P.Config, f: nat)
    requires cfg.mode.SendFile? && cfg.maxThread + f < TWO_TO_32
    ensures AlwaysAPrefix(cfg, f) <==> Safe(cfg, f)
  {
    if Safe(cfg, f) {
      forall content, initial, run, steps | IsRun(cfg, content, initial, run, steps) && Last(run).pool.fails == f
        ensures Last(run).sent <= content
      {
        if cfg.maxThread == 0 {
          NoSenderAtAll(cfg, content, initial, run, steps);
        }
        CopyIsAPrefixAndCompleteIff(cfg, content, initial, run, steps);
      }
    } else {
      var content, run, steps := UnsafeRun(cfg, f);
    }
  }

  /** And exactly then a loop that ends has sent the whole file. */
  lemma {:induction false} AlwaysWholeIff(cfg: P.Config, f: nat)
    requires cfg.mode.SendFile? && cfg.maxThread + f < TWO_TO_32
    ensures AlwaysWhole(cfg, f) <==> Safe(cfg, f)
  {
    if Safe(cfg, f) {
      forall content, initial, run, steps |
        IsRun(cfg, content, initial, run, steps) && Last(run).pool.fails == f && Last(run).pool.boss.Done?
        ensures Last(run).sent == content
      {
        if cfg.maxThread == 0 {
          NoSenderAtAll(cfg, content, initial, run, steps);
        }
        CopyIsAPrefixAndCompleteIff(cfg, content, initial, run, steps);
      }
    } else {
      var content, run, steps := UnsafeRun(cfg, f);
      assert !(Last(run).sent == content);
    }
  }

  /** Bytes that the file does not have are sent in some schedule exactly when
      two senders can be alive. */
  lemma {:induction false} NeverLongerIff(cfg: P.Config)
    requires cfg.mode.SendFile?
    ensures NeverLonger(cfg) <==> cfg.maxThread <= 1
  {
    if cfg.maxThread <= 1 {
      forall content, initial, run, steps | IsRun(cfg, content, initial, run, steps)
        ensures |Last(run).sent| <= |content|
      {
        CopyIsAPrefixAndCompleteIff(cfg, content, initial, run, steps);
      }
    } else {
      var run, steps := TwoSendersAddAByte(cfg, 'a', "");
      assert |Last(run).sent| == 2;
    }
  }
}
