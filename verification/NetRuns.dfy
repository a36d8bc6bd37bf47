/** What holds in every run of the message server. */
module NetRuns {
  import opened Bytes
  import opened Messages
  import opened NetParser
  import opened NetServer
  import opened Runs

  // ---- The inductive invariant of all runs ----

  ghost predicate SocketsOk(s: Server) {
    && (forall i, j :: 0 <= i < j < |s.recvsock| ==> s.recvsock[i] != s.recvsock[j])
    && (forall i :: 0 <= i < |s.recvsock| ==> s.recvsock[i] > 0 && s.recvsock[i] in s.arrived)
    && (forall sock :: sock in s.arrived ==>
          sock in s.recvsock && sock in s.cursor && s.cursor[sock] <= |s.arrived[sock]|)
    && (forall sock :: sock in s.cursor ==> sock in s.arrived)
  }

  ghost predicate ThreadsOk(s: Server) {
    && |s.threads| == |s.recvsock|
    && forall k :: 0 <= k < |s.threads| ==> PhaseOk(s, s.threads[k])
  }

  ghost predicate PhaseOk(s: Server, p: Phase) {
    && (!p.Unstarted? ==> p.sock in s.recvsock)
    && (p.HasHead? ==> |p.head| == HEAD_BYTES)
  }

  ghost predicate TableOk(s: Server) {
    forall n :: n in s.regtable ==> s.regtable[n] in s.recvsock
  }

  ghost predicate Basic(s: Server) { SocketsOk(s) && ThreadsOk(s) && TableOk(s) }

  /** Local delivery exactly for the server's own name; everything else went to
      the descriptor its name is registered with, or to 0. */
  ghost predicate GoodEvent(s: Server, e: Event) {
    && |e.frame| == FRAME_BYTES
    && e.handler < |s.threads|
    && (e.Delivered? <==> DestName(e.frame) == s.name)
    && (e.Relayed? ==> e.dest != 0)
    && (!e.Delivered? && e.dest != 0 ==>
          DestName(e.frame) in s.regtable && s.regtable[DestName(e.frame)] == e.dest)
  }

  ghost predicate Inv(s: Server) {
    Basic(s) && forall i :: 0 <= i < |s.log| ==> GoodEvent(s, s.log[i])
  }

  lemma SocketsStep(s: Server, step: Step)
    requires SocketsOk(s) && Enabled(s, step)
    ensures SocketsOk(Apply(s, step))
  {
    if step.Accept? {
      SocketsAfterAccept(s, step.sock);
    } else {
      var t := Apply(s, step);
      assert forall sock :: sock in t.arrived ==> sock in s.arrived && t.cursor[sock] <= |t.arrived[sock]|;
    }
  }

  lemma SocketsAfterAccept(s: Server, sock: int)
    requires SocketsOk(s) && Enabled(s, Accept(sock))
    ensures SocketsOk(Apply(s, Accept(sock)))
  {
    var t := Apply(s, Accept(sock));
    assert t.recvsock[|s.recvsock|] == sock;
    assert forall x :: x in s.recvsock ==> x in t.recvsock;
  }

  lemma ThreadsStep(s: Server, step: Step)
    requires ThreadsOk(s) && Enabled(s, step)
    ensures ThreadsOk(Apply(s, step))
  {
    var t := Apply(s, step);
    assert s.recvsock <= t.recvsock;
    forall k | 0 <= k < |t.threads|
      ensures PhaseOk(t, t.threads[k])
    {
      if k < |s.threads| {
        assert PhaseOk(s, s.threads[k]);
        assert s.recvsock != [] ==> s.recvsock[|s.recvsock|-1] in s.recvsock;
      }
    }
  }

  lemma TableStep(s: Server, step: Step)
    requires TableOk(s) && Enabled(s, step)
    ensures TableOk(Apply(s, step))
  {
    assert s.recvsock <= Apply(s, step).recvsock;
    assert s.recvsock != [] ==> s.recvsock[|s.recvsock|-1] in s.recvsock;
  }

  lemma {:induction false} InvStep(s: Server, step: Step)
    requires Inv(s) && Enabled(s, step)
    ensures Inv(Apply(s, step))
  {
    SocketsStep(s, step);
    ThreadsStep(s, step);
    TableStep(s, step);
    var t := Apply(s, step);
    forall i | 0 <= i < |s.log|
      ensures GoodEvent(t, s.log[i])
    {
      assert GoodEvent(s, s.log[i]);
    }
    if step.ReadBody? {
      assert t.log[..|s.log|] == s.log;
      assert GoodEvent(t, Last(t.log));
    }
  }

  lemma {:induction false} RunInv(name: string, run: seq<Server>, steps: seq<Step>)
    requires IsRun(name, run, steps)
    ensures Inv(Last(run))
    ensures Last(run).name == name
  {
    if steps != [] {
      PathPrefix(Next, run, steps);
      RunInv(name, run[..|run|-1], steps[..|steps|-1]);
      InvStep(run[|steps|-1], Last(steps));
    }
  }

  // ---- What later states keep ----

  /** Names are never re-registered or removed, sockets never leave the queue,
      threads never change socket, and nothing received, printed or sent is undone. */
  ghost predicate Extends(s: Server, t: Server) {
    && t.name == s.name
    && s.recvsock <= t.recvsock
    && s.log <= t.log
    && (forall n :: n in s.regtable ==> n in t.regtable && t.regtable[n] == s.regtable[n])
    && (forall d :: d in s.arrived ==> d in t.arrived && s.arrived[d] <= t.arrived[d])
    && (forall d :: d in s.cursor ==> d in t.cursor && s.cursor[d] <= t.cursor[d])
    && |s.threads| <= |t.threads|
    && (forall k :: 0 <= k < |s.threads| && !s.threads[k].Unstarted? ==>
          !t.threads[k].Unstarted? && t.threads[k].sock == s.threads[k].sock)
  }

  lemma ExtendsStep(s: Server, step: Step)
    requires Basic(s) && Enabled(s, step)
    ensures Extends(s, Apply(s, step))
  {}

  lemma InvAt(name: string, run: seq<Server>, steps: seq<Step>, i: nat)
    requires IsRun(name, run, steps) && i < |run|
    ensures Inv(run[i])
    ensures run[i].name == name
  {
    PathUpTo(Next, run, steps, i);
    RunInv(name, run[..i+1], steps[..i]);
  }

  lemma ExtendsTransitive(s: Server, t: Server, u: Server)
    requires Extends(s, t) && Extends(t, u)
    ensures Extends(s, u)
  {}

  lemma NextExtends(name: string, run: seq<Server>, steps: seq<Step>, i: nat)
    requires IsRun(name, run, steps) && i < |steps|
    ensures Extends(run[i], run[i+1])
  {
    InvAt(name, run, steps, i);
    ExtendsStep(run[i], steps[i]);
  }

  /** Later states extend earlier ones. */
  lemma {:induction false} LaterExtends(name: string, run: seq<Server>, steps: seq<Step>, i: nat, j: nat)
    requires IsRun(name, run, steps)
    requires i <= j < |run|
    ensures Extends(run[i], run[j])
  {
    if i < j {
      LaterExtends(name, run, steps, i, j - 1);
      NextExtends(name, run, steps, j - 1);
      ExtendsTransitive(run[i], run[j-1], run[j]);
    }
  }

  // ---- Registration ----

  /** Step `i` reads a "reg" head that enters the new name `n`. */
  ghost predicate Introduces(run: seq<Server>, steps: seq<Step>, i: nat, n: string)
    requires |run| == |steps| + 1 && i < |steps|
  {
    && steps[i].ReadHead? && Enabled(run[i], steps[i])
    && n !in run[i].regtable
    && var h := DecodeHead(Unread(run[i], run[i].threads[steps[i].k].sock, HEAD_BYTES));
       h.kind == "reg" && h.srcName == n
  }

  /** Every entry of the table was introduced by one "reg" frame, and has the
      socket that was accepted last at that moment. */
  lemma {:induction false} RegistrationOrigin(name: string, run: seq<Server>, steps: seq<Step>, n: string)
      returns (i: nat)
    requires IsRun(name, run, steps)
    requires n in Last(run).regtable
    ensures i < |steps| && Introduces(run, steps, i, n)
    ensures Last(run).regtable[n] == Back(run[i].recvsock)
  {
    var m := |steps| - 1;
    PathPrefix(Next, run, steps);
    var r, q := run[..|run|-1], steps[..m];
    if n in run[m].regtable {
      i := RegistrationOrigin(name, r, q, n);
      assert run[i] == r[i] && steps[i] == q[i];
      KeepsTable(run[m], steps[m], n);
    } else {
      i := m;
      assert run[m+1] == Apply(run[m], steps[m]);
      NewEntry(run[m], steps[m], n);
    }
  }

  lemma KeepsTable(s: Server, step: Step, n: string)
    requires Enabled(s, step) && n in s.regtable
    ensures n in Apply(s, step).regtable && Apply(s, step).regtable[n] == s.regtable[n]
  {}

  lemma NewEntry(s: Server, step: Step, n: string)
    requires Enabled(s, step) && n !in s.regtable && n in Apply(s, step).regtable
    ensures step.ReadHead?
    ensures var h := DecodeHead(Unread(s, s.threads[step.k].sock, HEAD_BYTES)); h.kind == "reg" && h.srcName == n
    ensures Apply(s, step).regtable[n] == Back(s.recvsock)
  {}

  /** A name is bound to the connection whose frame introduced it (its `c`-th)
      exactly when nobody was accepted since that connection. */
  lemma RegisteredSocketIsOwn(name: string, run: seq<Server>, steps: seq<Step>, i: nat, n: string, c: nat)
    requires IsRun(name, run, steps)
    requires i < |steps| && Introduces(run, steps, i, n)
    requires c < |run[i].recvsock|
    requires run[i].threads[steps[i].k].sock == run[i].recvsock[c]
    ensures n in Last(run).regtable
    ensures Last(run).regtable[n] == run[i].recvsock[c] <==> |run[i].recvsock| == c + 1
  {
    var s := run[i];
    InvAt(name, run, steps, i);
    assert run[i+1] == Apply(s, steps[i]);
    assert run[i+1].regtable[n] == s.recvsock[|s.recvsock|-1];
    LaterExtends(name, run, steps, i + 1, |run| - 1);
    assert Last(run).regtable[n] == run[i+1].regtable[n];
    assert SocketsOk(s);
  }

  // ---- Which connection a thread serves ----

  /** Every started thread serves the connection it was created for. */
  ghost predicate Own(s: Server) {
    |s.threads| == |s.recvsock| &&
    forall k :: 0 <= k < |s.threads| && !s.threads[k].Unstarted? ==> s.threads[k].sock == s.recvsock[k]
  }

  /** Every thread started before the next connection was accepted. */
  ghost predicate Prompt(run: seq<Server>, steps: seq<Step>)
    requires |run| == |steps| + 1
  {
    forall i :: 0 <= i < |steps| && steps[i].Start? ==> |run[i].recvsock| == steps[i].k + 1
  }

  lemma OwnStep(s: Server, step: Step)
    requires Own(s) && Enabled(s, step)
    requires step.Start? ==> |s.recvsock| == step.k + 1
    ensures Own(Apply(s, step))
  {}

  lemma {:induction false} PromptRunOwns(name: string, run: seq<Server>, steps: seq<Step>)
    requires IsRun(name, run, steps) && Prompt(run, steps)
    ensures Own(Last(run))
  {
    if steps != [] {
      PathPrefix(Next, run, steps);
      PromptPrefix(run, steps);
      PromptRunOwns(name, run[..|run|-1], steps[..|steps|-1]);
      OwnStep(run[|steps|-1], steps[|steps|-1]);
    }
  }

  lemma PromptPrefix(run: seq<Server>, steps: seq<Step>)
    requires |run| == |steps| + 1 && steps != [] && Prompt(run, steps)
    ensures Prompt(run[..|run|-1], steps[..|steps|-1])
  {
    var r, q := run[..|run|-1], steps[..|steps|-1];
    forall i | 0 <= i < |q| && q[i].Start?
      ensures |r[i].recvsock| == q[i].k + 1
    {
      assert steps[i] == q[i] && run[i] == r[i];
    }
  }

  /** The threads of a run serve their own connections exactly when each one
      started before the next accept. */
  lemma OwnIffPrompt(name: string, run: seq<Server>, steps: seq<Step>)
    requires IsRun(name, run, steps)
    ensures Own(Last(run)) <==> Prompt(run, steps)
  {
    if Prompt(run, steps) {
      PromptRunOwns(name, run, steps);
    } else {
      var i :| 0 <= i < |steps| && steps[i].Start? && |run[i].recvsock| != steps[i].k + 1;
      LateStartIsWrong(name, run, steps, i);
    }
  }

  /** A thread that starts late serves another connection than its own to the end. */
  lemma LateStartIsWrong(name: string, run: seq<Server>, steps: seq<Step>, i: nat)
    requires IsRun(name, run, steps)
    requires i < |steps| && steps[i].Start? && |run[i].recvsock| != steps[i].k + 1
    ensures var s, k := Last(run), steps[i].k;
      && k < |s.threads| && k < |s.recvsock| && !s.threads[k].Unstarted?
      && s.threads[k].sock == Back(run[i].recvsock) != s.recvsock[k]
  {
    var k, m := steps[i].k, |run[i].recvsock| - 1;
    InvAt(name, run, steps, i);
    assert run[i+1] == Apply(run[i], steps[i]);
    assert run[i].recvsock[k] != run[i].recvsock[m];
    LaterExtends(name, run, steps, i + 1, |run| - 1);
    assert Last(run).recvsock[k] == run[i].recvsock[k];
  }

  // ---- When all threads have started ----

  /** No two started threads read from the same socket. */
  ghost predicate Distinct(s: Server) {
    forall j, k :: 0 <= j < k < |s.threads| && !s.threads[j].Unstarted? && !s.threads[k].Unstarted? ==>
      s.threads[j].sock != s.threads[k].sock
  }

  predicate AllStarted(s: Server) { forall k :: 0 <= k < |s.threads| ==> !s.threads[k].Unstarted? }

  /** A thread serves its own connection or one accepted later. */
  ghost predicate ServesOwnOrLater(s: Server) {
    |s.threads| == |s.recvsock| &&
    forall k :: 0 <= k < |s.threads| && !s.threads[k].Unstarted? ==> s.threads[k].sock in s.recvsock[k..]
  }

  lemma ServesOwnOrLaterStep(s: Server, step: Step)
    requires ServesOwnOrLater(s) && Enabled(s, step)
    ensures ServesOwnOrLater(Apply(s, step))
  {
    var t := Apply(s, step);
    forall k | 0 <= k < |t.threads| && !t.threads[k].Unstarted?
      ensures t.threads[k].sock in t.recvsock[k..]
    {
      if step == Start(k) {
        assert t.recvsock[k..][|t.recvsock| - k - 1] == Back(s.recvsock);
      } else {
        assert s.threads[k].sock in s.recvsock[k..];
        assert s.recvsock[k..] <= t.recvsock[k..];
      }
    }
  }

  lemma {:induction false} RunServesOwnOrLater(name: string, run: seq<Server>, steps: seq<Step>)
    requires IsRun(name, run, steps)
    ensures ServesOwnOrLater(Last(run))
  {
    if steps != [] {
      PathPrefix(Next, run, steps);
      RunServesOwnOrLater(name, run[..|run|-1], steps[..|steps|-1]);
      ServesOwnOrLaterStep(run[|steps|-1], Last(steps));
    }
  }

  /** From the newest connection down: distinct sockets leave each thread only its own. */
  lemma {:induction false} DistinctMeansOwn(s: Server, k: nat)
    requires Basic(s) && ServesOwnOrLater(s) && AllStarted(s) && Distinct(s)
    requires k < |s.threads|
    ensures s.threads[k].sock == s.recvsock[k]
    decreases |s.threads| - k
  {
    var c :| 0 <= c < |s.recvsock[k..]| && s.recvsock[k..][c] == s.threads[k].sock;
    if c > 0 {
      DistinctMeansOwn(s, k + c);
    }
  }

  /** Once all threads have started, they have distinct sockets exactly when each
      one started before the next accept. */
  lemma DistinctIffPrompt(name: string, run: seq<Server>, steps: seq<Step>)
    requires IsRun(name, run, steps) && AllStarted(Last(run))
    ensures Distinct(Last(run)) <==> Prompt(run, steps)
  {
    var s := Last(run);
    RunInv(name, run, steps);
    OwnIffPrompt(name, run, steps);
    if Distinct(s) {
      RunServesOwnOrLater(name, run, steps);
      forall k | 0 <= k < |s.threads|
        ensures s.threads[k].sock == s.recvsock[k]
      {
        DistinctMeansOwn(s, k);
      }
    }
    if Own(s) {
      assert Distinct(s);
    }
  }
}
