/** The server's state read off the steps alone: what has arrived, who is
    registered, and what goes out when `send` succeeds or fails.
 */
module NetHistory {
  import opened Bytes
  import opened Messages
  import opened NetServer
  import opened NetRuns
  import opened NetFraming
  import opened NetRaces
  import opened Runs

  // ---- What has been accepted and what has arrived ----

  /** The sockets of the accepted connections, oldest first. */
  function AcceptedIn(steps: seq<Step>): seq<int> {
    if steps == [] then [] else
      AcceptedIn(steps[..|steps|-1]) + match Last(steps) case Accept(sock) => [sock] case _ => []
  }

  /** All bytes that peers sent on `d`, in order. */
  function ArrivedOn(steps: seq<Step>, d: int): string {
    if steps == [] then "" else
      ArrivedOn(steps[..|steps|-1], d) + match Last(steps) case Arrive(from, bytes) => (if from == d then bytes else "") case _ => ""
  }

  /** In every run the queue holds exactly the accepted sockets in order, each
      with a thread, and a stream is all that was sent on it. */
  lemma {:induction false} NothingArrivesOrGetsLost(name: string, run: seq<Server>, steps: seq<Step>)
    requires IsRun(name, run, steps)
    ensures Last(run).recvsock == AcceptedIn(steps) && |Last(run).threads| == |AcceptedIn(steps)|
    ensures forall d :: d in Last(run).arrived <==> d in AcceptedIn(steps)
    ensures forall d :: d in Last(run).arrived ==> Last(run).arrived[d] == ArrivedOn(steps, d)
  {
    RunHistory(name, run, steps);
    RunInv(name, run, steps);
    assert SocketsOk(Last(run));
  }

  lemma {:induction false} RunHistory(name: string, run: seq<Server>, steps: seq<Step>)
    requires IsRun(name, run, steps)
    ensures Last(run).recvsock == AcceptedIn(steps)
    ensures forall d :: d in Last(run).arrived ==> Last(run).arrived[d] == ArrivedOn(steps, d)
    ensures forall d :: d !in Last(run).arrived ==> ArrivedOn(steps, d) == ""
  {
    if steps != [] {
      var r, q := run[..|run|-1], steps[..|steps|-1];
      PathPrefix(Next, run, steps);
      RunHistory(name, r, q);
      RunInv(name, r, q);
      HistoryStep(run[|q|], Last(steps), q);
    }
  }

  lemma HistoryStep(s: Server, step: Step, before: seq<Step>)
    requires SocketsOk(s) && Enabled(s, step)
    requires forall d :: d in s.arrived ==> s.arrived[d] == ArrivedOn(before, d)
    requires forall d :: d !in s.arrived ==> ArrivedOn(before, d) == ""
    ensures forall d :: d in Apply(s, step).arrived ==> Apply(s, step).arrived[d] == ArrivedOn(before + [step], d)
    ensures forall d :: d !in Apply(s, step).arrived ==> ArrivedOn(before + [step], d) == ""
  {
    assert (before + [step])[..|before|] == before;
    assert forall d :: ArrivedOn(before, d) + "" == ArrivedOn(before, d);
  }

  // ---- Who is registered ----

  /** Step `i` receives a head from the socket of its thread, of type "reg" and
      with source name `n`. */
  ghost predicate ReadsRegistration(run: seq<Server>, steps: seq<Step>, i: nat, n: string)
    requires |run| == |steps| + 1 && i < |steps|
  {
    var s, step := run[i], steps[i];
    step.ReadHead? && Enabled(s, step) &&
    var sock := s.threads[step.k].sock;
    var head := s.arrived[sock][s.cursor[sock]..s.cursor[sock] + 60];
    head[57..60] == "reg" && UpToHash(head[41..49]) == n
  }

  /** The registered names are exactly those of the "reg" heads received so far,
      whatever connection, position in the stream or thread they came by. */
  lemma {:induction false} RegisteredIff(name: string, run: seq<Server>, steps: seq<Step>, n: string)
    requires IsRun(name, run, steps)
    ensures n in Last(run).regtable <==> exists i :: 0 <= i < |steps| && ReadsRegistration(run, steps, i, n)
  {
    if n in Last(run).regtable {
      var i := SomeRegistration(name, run, steps, n);
    }
    if i :| 0 <= i < |steps| && ReadsRegistration(run, steps, i, n) {
      RegistrationStays(name, run, steps, i, n);
    }
  }

  lemma SomeRegistration(name: string, run: seq<Server>, steps: seq<Step>, n: string) returns (i: nat)
    requires IsRun(name, run, steps) && n in Last(run).regtable
    ensures i < |steps| && ReadsRegistration(run, steps, i, n)
  {
    i := RegistrationOrigin(name, run, steps, n);
  }

  lemma RegistrationStays(name: string, run: seq<Server>, steps: seq<Step>, i: nat, n: string)
    requires IsRun(name, run, steps) && i < |steps| && ReadsRegistration(run, steps, i, n)
    ensures n in Last(run).regtable
  {
    assert Next(run[i], steps[i], run[i+1]);
    RegistrationEnters(run, steps, i, n);
    LaterExtends(name, run, steps, i + 1, |run| - 1);
  }

  lemma RegistrationEnters(run: seq<Server>, steps: seq<Step>, i: nat, n: string)
    requires |run| == |steps| + 1 && i < |steps| && ReadsRegistration(run, steps, i, n)
    ensures n in Apply(run[i], steps[i]).regtable
  {
    var s, k := run[i], steps[i].k;
    var h := DecodeHead(Unread(s, s.threads[k].sock, 60));
    assert h.kind == "reg" && h.srcName == n;
  }

  // ---- What goes out ----

  /** Thread `k` holds a head, and a body has arrived. */
  predicate BodyIsThere(s: Server, k: nat) {
    && k < |s.threads| && s.threads[k].HasHead? && s.threads[k].sock in s.arrived && s.threads[k].sock in s.cursor
    && s.cursor[s.threads[k].sock] + 40 <= |s.arrived[s.threads[k].sock]|
  }

  /** The frame that thread `k` completes with the next 40 bytes. */
  function Completed(s: Server, k: nat): string
    requires BodyIsThere(s, k)
  {
    var sock := s.threads[k].sock;
    s.threads[k].head + s.arrived[sock][s.cursor[sock]..s.cursor[sock] + 40]
  }

  /** A body that is there can be taken, whether `send` is going to succeed or
      not. The completed frame is shown if it is for the server; otherwise, if its
      destination is registered, it goes out on that socket exactly if `send`
      succeeds and is lost exactly if `send` fails; and it goes out nowhere else. */
  lemma {:induction false} FrameGoesOutIffSendSucceeds(name: string, run: seq<Server>, steps: seq<Step>, k: nat, ok: bool, d: int)
    requires IsRun(name, run, steps) && BodyIsThere(Last(run), k)
    ensures Enabled(Last(run), ReadBody(k, ok))
    ensures var s := Last(run); var t, f := Apply(s, ReadBody(k, ok)), Completed(s, k); var n := DestName(f);
      && |f| == 100 && |t.log| == |s.log| + 1 && s.log <= t.log
      && SentTo(t.log, d) == SentTo(s.log, d)
           + (if ok && n != name && n in s.regtable && s.regtable[n] == d then [f] else [])
      && (n == name ==> Last(t.log) == Delivered(k, f))
      && (n != name && n in s.regtable ==>
            Last(t.log) == if ok then Relayed(k, s.regtable[n], f) else Lost(k, s.regtable[n], f))
      && (n != name && n !in s.regtable ==> Last(t.log) == Lost(k, 0, f))
  {
    RunInv(name, run, steps);
    var s := Last(run);
    assert PhaseOk(s, s.threads[k]);
    var t, f := Apply(s, ReadBody(k, ok)), Completed(s, k);
    assert DestName(f) in s.regtable ==> s.regtable[DestName(f)] in s.recvsock;
    SelectSnoc(s.log, EventFor(s, k, f, ok), (e: Event) => e.Relayed? && e.dest == d);
    assert SentTo(s.log, d) + [] == SentTo(s.log, d);
  }

  /** No other step shows, sends or loses anything. */
  lemma OnlyBodiesAreHandled(s: Server, step: Step)
    requires Enabled(s, step) && !step.ReadBody?
    ensures Apply(s, step).log == s.log
  {}

  /** If every send from state `i` on succeeds, nothing is lost from then on but
      frames for unknown names. */
  lemma {:induction false} NothingForARegisteredNameIsLost(name: string, run: seq<Server>, steps: seq<Step>, i: nat, x: nat)
    requires IsRun(name, run, steps) && i < |run| && SendsSucceed(steps, i)
    requires |run[i].log| <= x < |Last(run).log| && Last(run).log[x].Lost?
    ensures Last(run).log[x].dest == 0
  {
    if i == |steps| {
      assert false;
    } else {
      var r, q := run[..|run|-1], steps[..|steps|-1];
      PathPrefix(Next, run, steps);
      var s, step := run[|q|], steps[|q|];
      LogGrows(s, step);
      if x < |s.log| {
        assert SendsSucceed(q, i) by {
          assert forall j :: 0 <= j < |q| ==> q[j] == steps[j];
        }
        NothingForARegisteredNameIsLost(name, r, q, i, x);
      } else {
        assert step.ReadBody? && step.sendOk;
        FrameGoesOutIffSendSucceeds(name, r, q, step.k, true, 0);
        assert Completed(s, step.k) == Last(Last(run).log).frame;
      }
    }
  }

  /** From one client to another, by the schedule alone: with `n` registered at
      state `i` and every send since successful, what thread `k` put on that
      socket under that name are, in order, the frames of exactly the messages
      for `n` that its peer sent since, as far as they have been read. */
  lemma {:induction false} SuccessfulSendsReachTheSocket(name: string, run: seq<Server>, steps: seq<Step>,
                                                         sent: map<int, seq<Message>>, i: nat, k: nat, n: string)
    requires IsRun(name, run, steps) && Distinct(Last(run)) && PeersSend(Last(run), sent)
    requires i < |run| && n in run[i].regtable && n != name && SendsSucceed(steps, i)
    requires k < |Last(run).threads| && !Last(run).threads[k].Unstarted?
    ensures run[i].log <= Last(run).log && Last(run).threads[k].sock in sent
    ensures PutInOrder(run[i].log, Last(run).log, sent[Last(run).threads[k].sock], k, n, run[i].regtable[n])
  {
    InvAt(name, run, steps, i);
    assert run[i].regtable[n] in run[i].recvsock;
    forall x | |run[i].log| <= x < |Last(run).log| && Last(run).log[x].Lost?
      ensures Last(run).log[x].dest != run[i].regtable[n]
    {
      NothingForARegisteredNameIsLost(name, run, steps, i, x);
    }
    MessagesReachTheSocketInOrder(name, run, steps, sent, i, k, n);
  }

  // ---- Whatever has arrived can be handled ----

  lemma {:induction false} SameChunks(a: string, b: string)
    requires a <= b && |b| / FRAME_BYTES == |a| / FRAME_BYTES
    ensures Chunks(a) == Chunks(b)
  {
    ChunksOfPrefix(a, b);
  }

  /** Thread `k` alone can go on until all whole frames of its stream are
      handled, with every send successful. */
  lemma {:induction false} AllThatArrivedCanBeHandled(name: string, run0: seq<Server>, steps0: seq<Step>, k: nat)
      returns (run: seq<Server>, steps: seq<Step>)
    requires IsRun(name, run0, steps0) && Distinct(Last(run0))
    requires k < |Last(run0).threads| && !Last(run0).threads[k].Unstarted?
    ensures Continues(name, run0, steps0, run, steps) && SendsSucceed(steps, |steps0|)
    ensures Last(run).arrived == Last(run0).arrived
    ensures Last(run0).threads[k].sock in Last(run0).arrived
    ensures FramesBy(Last(run).log, k) == Chunks(Last(run0).arrived[Last(run0).threads[k].sock])
  {
    var s := Last(run0);
    var d := s.threads[k].sock;
    RunInv(name, run0, steps0);
    assert PhaseOk(s, s.threads[k]);
    run, steps := run0, steps0;
    if s.threads[k].HasHead? && Rest(s, d) >= BODY_BYTES {
      run, steps := Settle(name, run0, steps0, run0, steps0, k);
    }
    var t := Last(run);
    if t.threads[k].Idle? {
      run, steps := DrainAll(name, run0, steps0, run, steps, k);
    }
    StaysDistinct(name, run0, steps0, run, steps);
    FramesHandledAreFramesRead(name, run, steps, k);
    SameChunks(Received(Last(run), k), s.arrived[d]);
  }

  lemma DrainAll(name: string, run0: seq<Server>, steps0: seq<Step>, run1: seq<Server>, steps1: seq<Step>, k: nat)
      returns (run: seq<Server>, steps: seq<Step>)
    requires Continues(name, run0, steps0, run1, steps1) && steps0 <= steps1 && SendsSucceed(steps1, |steps0|)
    requires k < |Last(run1).threads| && Last(run1).threads[k].Idle?
    ensures Continues(name, run0, steps0, run, steps) && SendsSucceed(steps, |steps0|)
    ensures Last(run).threads == Last(run1).threads && Last(run).arrived == Last(run1).arrived
    ensures var d := Last(run1).threads[k].sock; d in Last(run).arrived && d in Last(run).cursor && 0 <= Rest(Last(run), d) < FRAME_BYTES
  {
    var s := Last(run1);
    var d := s.threads[k].sock;
    RunInv(name, run1, steps1);
    assert PhaseOk(s, s.threads[k]);
    run, steps := Drain(name, run0, steps0, run1, steps1, k, Rest(s, d) / FRAME_BYTES);
    assert forall i :: 0 <= i < |steps1| ==> steps[i] == steps1[i];
  }
}
