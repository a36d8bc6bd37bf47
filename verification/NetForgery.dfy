/** Peers that send nothing but well-formed messages are no protection: two
    threads on one socket put together, out of two such messages, a third one.
 */
module NetForgery {
  import opened Bytes
  import opened Messages
  import opened NetParser
  import opened NetServer
  import opened NetRuns
  import opened NetFraming
  import opened NetRaces
  import opened Runs

  // ---- Where a socket's stream stands ----

  predicate HoldsOn(p: Phase, d: int) { p.HasHead? && p.sock == d }

  /** How many threads hold a head that came from `d`. */
  function HeldOn(threads: seq<Phase>, d: int): nat {
    if threads == [] then 0 else HeldOn(threads[..|threads|-1], d) + if HoldsOn(Last(threads), d) then 1 else 0
  }

  lemma {:induction false} HeldUpdate(threads: seq<Phase>, k: nat, p: Phase, d: int)
    requires k < |threads|
    ensures HeldOn(threads[k := p], d) + (if HoldsOn(threads[k], d) then 1 else 0)
      == HeldOn(threads, d) + if HoldsOn(p, d) then 1 else 0
  {
    var init := threads[..|threads|-1];
    if k < |init| {
      assert threads[k := p][..|threads|-1] == init[k := p];
      HeldUpdate(init, k, p, d);
    } else {
      assert threads[k := p][..|threads|-1] == init;
    }
  }

  lemma {:induction false} HeldAtMost(threads: seq<Phase>, d: int)
    ensures HeldOn(threads, d) <= |threads|
    ensures HeldOn(threads, d) == 0 ==> forall k :: 0 <= k < |threads| ==> !HoldsOn(threads[k], d)
  {
    if threads != [] {
      HeldAtMost(threads[..|threads|-1], d);
    }
  }

  lemma {:induction false} SomeHolds(threads: seq<Phase>, d: int) returns (k: nat)
    requires HeldOn(threads, d) > 0
    ensures k < |threads| && HoldsOn(threads[k], d)
  {
    k := |threads| - 1;
    if !HoldsOn(threads[k], d) {
      k := SomeHolds(threads[..k], d);
    }
  }

  /** With the bodies that are owed, whole frames have been received. */
  predicate AlignedAt(s: Server, d: int) {
    d in s.cursor ==> (s.cursor[d] + BODY_BYTES * HeldOn(s.threads, d)) % FRAME_BYTES == 0
  }

  lemma {:induction false} NoneHolds(threads: seq<Phase>, d: int)
    requires forall k :: 0 <= k < |threads| ==> !HoldsOn(threads[k], d)
    ensures HeldOn(threads, d) == 0
  {
    if threads != [] {
      NoneHolds(threads[..|threads|-1], d);
    }
  }

  lemma AlignedAccept(s: Server, sock: int, d: int)
    requires Basic(s) && AlignedAt(s, d) && Enabled(s, Accept(sock))
    ensures AlignedAt(Apply(s, Accept(sock)), d)
  {
    assert (s.threads + [Unstarted])[..|s.threads|] == s.threads;
    if sock == d {
      forall k | 0 <= k < |s.threads|
        ensures !HoldsOn(s.threads[k], d)
      {
        assert PhaseOk(s, s.threads[k]);
      }
      NoneHolds(s.threads, d);
    }
  }

  lemma AlignedHead(s: Server, k: nat, d: int)
    requires AlignedAt(s, d) && Enabled(s, ReadHead(k))
    ensures AlignedAt(AfterHead(s, k), d)
  {
    HeldUpdate(s.threads, k, HasHead(s.threads[k].sock, Unread(s, s.threads[k].sock, HEAD_BYTES)), d);
  }

  lemma AlignedBody(s: Server, k: nat, sendOk: bool, d: int)
    requires AlignedAt(s, d) && Enabled(s, ReadBody(k, sendOk))
    ensures AlignedAt(AfterBody(s, k, sendOk), d)
  {
    HeldUpdate(s.threads, k, Idle(s.threads[k].sock), d);
    assert AfterBody(s, k, sendOk).threads == s.threads[k := Idle(s.threads[k].sock)];
  }

  lemma AlignedStep(s: Server, step: Step, d: int)
    requires Basic(s) && AlignedAt(s, d) && Enabled(s, step)
    ensures AlignedAt(Apply(s, step), d)
  {
    match step
    case Accept(sock) => AlignedAccept(s, sock, d);
    case Start(k) => HeldUpdate(s.threads, k, Idle(Back(s.recvsock)), d);
    case ReadHead(k) => AlignedHead(s, k, d);
    case ReadBody(k, sendOk) => AlignedBody(s, k, sendOk, d);
    case _ =>
  }

  /** In every run, whoever shares the socket. */
  lemma {:induction false} RunAligned(name: string, run: seq<Server>, steps: seq<Step>, d: int)
    requires IsRun(name, run, steps)
    ensures AlignedAt(Last(run), d)
  {
    if steps != [] {
      PathPrefix(Next, run, steps);
      RunInv(name, run[..|run|-1], steps[..|steps|-1]);
      RunAligned(name, run[..|run|-1], steps[..|steps|-1], d);
      AlignedStep(run[|steps|-1], Last(steps), d);
    }
  }

  // ---- To the end of a stream of whole messages ----

  /** Threads keep the sockets they read from, and idle ones stay idle. */
  ghost predicate KeepsThreads(s: Server, t: Server) {
    && |t.threads| == |s.threads|
    && forall k :: 0 <= k < |s.threads| ==>
         t.threads[k] == s.threads[k] || (s.threads[k].HasHead? && t.threads[k] == Idle(s.threads[k].sock))
  }

  /** All threads on `d` take the body that their head is waiting for. */
  lemma {:induction false} SettleAll(name: string, run0: seq<Server>, steps0: seq<Step>, run1: seq<Server>, steps1: seq<Step>, d: int)
      returns (run: seq<Server>, steps: seq<Step>)
    requires Continues(name, run0, steps0, run1, steps1)
    requires CanRead(Last(run1), d, BODY_BYTES * HeldOn(Last(run1).threads, d))
    requires forall k :: 0 <= k < |Last(run1).threads| && Last(run1).threads[k].HasHead? ==>
      |Last(run1).threads[k].head| == HEAD_BYTES
    ensures Continues(name, run0, steps0, run, steps)
    ensures Consumed(Last(run1), Last(run), d, BODY_BYTES * HeldOn(Last(run1).threads, d))
    ensures HeldOn(Last(run).threads, d) == 0 && KeepsThreads(Last(run1), Last(run))
    decreases HeldOn(Last(run1).threads, d)
  {
    var s := Last(run1);
    if HeldOn(s.threads, d) == 0 {
      run, steps := run1, steps1;
    } else {
      var k := SomeHolds(s.threads, d);
      HeldUpdate(s.threads, k, Idle(d), d);
      run, steps := Settle(name, run0, steps0, run1, steps1, k);
      var t := Last(run);
      run, steps := SettleAll(name, run0, steps0, run, steps, d);
      ConsumedTwice(s, t, Last(run), d, BODY_BYTES, BODY_BYTES * HeldOn(t.threads, d));
    }
  }

  /** What the peers have decided to send grew, and still does not contain `m`. */
  ghost predicate Extended(sent: map<int, seq<Message>>, sent': map<int, seq<Message>>) {
    sent.Keys == sent'.Keys && forall d :: d in sent ==> sent[d] <= sent'[d]
  }

  ghost predicate Withheld(sent: map<int, seq<Message>>, m: Message) { forall d :: d in sent ==> m !in sent[d] }

  /** `ms` arrives on `d` after all that its peer was going to send. */
  lemma MoreArrives(name: string, run0: seq<Server>, steps0: seq<Step>, run1: seq<Server>, steps1: seq<Step>,
                    sent: map<int, seq<Message>>, d: int, ms: seq<Message>)
      returns (run: seq<Server>, steps: seq<Step>, sent': map<int, seq<Message>>)
    requires Continues(name, run0, steps0, run1, steps1)
    requires PeersSend(Last(run1), sent) && d in Last(run1).arrived && AllWellFormed(ms)
    ensures Continues(name, run0, steps0, run, steps)
    ensures d in sent && sent' == sent[d := sent[d] + ms] && PeersSend(Last(run), sent')
    ensures Last(run) == Last(run1).(arrived := Last(run1).arrived[d := StreamOf(sent'[d])])
  {
    var s := Last(run1);
    sent' := sent[d := sent[d] + ms];
    StreamConcat(sent[d], ms);
    var all := StreamOf(sent'[d]);
    assert s.arrived[d] <= all;
    var bytes := all[|s.arrived[d]|..];
    assert s.arrived[d] + bytes == all;
    run, steps := Go(name, run0, steps0, run1, steps1, Arrive(d, bytes), Apply(s, Arrive(d, bytes)));
  }

  /** Whole messages until every thread on `d` is idle, and then to the end. */
  lemma ReadAll(name: string, run0: seq<Server>, steps0: seq<Step>, run1: seq<Server>, steps1: seq<Step>, j: nat, k: nat, d: int)
      returns (run: seq<Server>, steps: seq<Step>)
    requires Continues(name, run0, steps0, run1, steps1) && Share(Last(run1), j, k, d)
    requires Inv(Last(run1)) && AlignedAt(Last(run1), d) && d in Last(run1).arrived
    requires |Last(run1).arrived[d]| % FRAME_BYTES == 0
    requires Rest(Last(run1), d) >= FRAME_BYTES * |Last(run1).threads|
    ensures Continues(name, run0, steps0, run, steps)
    ensures Waiting(Last(run), j, k, d) && KeepsEntries(Last(run1), Last(run)) && Last(run).arrived == Last(run1).arrived
  {
    var s := Last(run1);
    var h := HeldOn(s.threads, d);
    HeldAtMost(s.threads, d);
    forall x | 0 <= x < |s.threads| && s.threads[x].HasHead?
      ensures |s.threads[x].head| == HEAD_BYTES
    {
      assert PhaseOk(s, s.threads[x]);
    }
    run, steps := SettleAll(name, run0, steps0, run1, steps1, d);
    var t := Last(run);
    HeldAtMost(t.threads, d);
    assert !HoldsOn(t.threads[j], d) && !HoldsOn(t.threads[k], d);
    var n := (Rest(s, d) - BODY_BYTES * h) / FRAME_BYTES;
    WholeRest(|s.arrived[d]|, s.cursor[d], h);
    run, steps := Drain(name, run0, steps0, run, steps, k, n);
    ConsumedTwice(s, t, Last(run), d, BODY_BYTES * h, FRAME_BYTES * n);
  }

  lemma WholeRest(arrived: nat, cursor: nat, h: nat)
    requires arrived % FRAME_BYTES == 0 && (cursor + BODY_BYTES * h) % FRAME_BYTES == 0
    ensures (arrived - cursor - BODY_BYTES * h) % FRAME_BYTES == 0
  {}

  lemma WholeStream(ms: seq<Message>, n: nat)
    requires AllWellFormed(ms) && n <= |ms|
    ensures |StreamOf(ms)| % FRAME_BYTES == 0
    ensures |StreamOf(ms)| - |StreamOf(ms[..n])| == FRAME_BYTES * (|ms| - n)
  {
    StreamChunks(ms);
    StreamChunks(ms[..n]);
  }

  function Copies(m: Message, n: nat): seq<Message> { seq(n, _ => m) }

  /** Enough copies of `p` bring the two threads to the end of the stream. */
  lemma CalmDown(name: string, run0: seq<Server>, steps0: seq<Step>, sent: map<int, seq<Message>>,
                 j: nat, k: nat, d: int, p: Message)
      returns (run: seq<Server>, steps: seq<Step>, sent': map<int, seq<Message>>)
    requires IsRun(name, run0, steps0) && PeersSend(Last(run0), sent) && Share(Last(run0), j, k, d) && WellFormed(p)
    ensures Continues(name, run0, steps0, run, steps)
    ensures Waiting(Last(run), j, k, d) && KeepsEntries(Last(run0), Last(run))
    ensures d in sent && sent' == sent[d := sent[d] + Copies(p, |Last(run0).threads|)] && PeersSend(Last(run), sent')
    ensures d in Last(run).arrived && Last(run).arrived[d] == StreamOf(sent'[d])
  {
    var s := Last(run0);
    RunInv(name, run0, steps0);
    RunAligned(name, run0, steps0, d);
    assert PhaseOk(s, s.threads[j]);
    run, steps, sent' := MoreArrives(name, run0, steps0, run0, steps0, sent, d, Copies(p, |s.threads|));
    var t := Last(run);
    WholeStream(sent'[d], |sent[d]|);
    assert sent'[d][..|sent[d]|] == sent[d];
    RunInv(name, run, steps);
    run, steps := ReadAll(name, run0, steps0, run, steps, j, k, d);
  }

  // ---- The forged message ----

  /** A message with the head of `m` but another body, and one with its body but another head. */
  function SameHead(m: Message): Message { m.(content := if m.content == "" then "x" else "") }

  function SameBody(m: Message): Message { m.(kind := if m.kind == "nor" then "hrt" else "nor") }

  lemma HeadAndBody(m: Message)
    requires WellFormed(m)
    ensures WellFormed(SameHead(m)) && WellFormed(SameBody(m)) && SameHead(m) != m && SameBody(m) != m
    ensures |Frame(m)| == |Frame(SameHead(m))| == |Frame(SameBody(m))| == FRAME_BYTES
    ensures Frame(SameHead(m))[..60] + Frame(SameBody(m))[60..] == Frame(m)
  {
    var p, q := SameHead(m), SameBody(m);
    WellFormedRoundTrips(m);
    WellFormedRoundTrips(p);
    WellFormedRoundTrips(q);
    FrameParts(m);
    FrameParts(p);
    FrameParts(q);
    assert Frame(m) == Frame(m)[..60] + Frame(m)[60..];
  }

  function PrintedHead(m: Message): string {
    m.fromIp + Decimal(m.fromPort) + m.toIp + Decimal(m.toPort) + [Flag(m.isFile)] + m.fromName + m.toName + m.kind
  }

  lemma FrameParts(m: Message)
    requires WellFormed(m)
    ensures |Frame(m)| == FRAME_BYTES
    ensures Frame(m)[..60] == PrintedHead(PadFields(m)) && Frame(m)[60..] == Padded(m.content, 40)
  {
    WellFormedRoundTrips(m);
    PadThenRead(m.content, 40);
    assert Frame(m) == PrintedHead(PadFields(m)) + Padded(m.content, 40);
    assert |Padded(m.content, 40)| == 40;
  }

  /** `j` takes the head of the first message, `k` its body and the head of the
      second one, `j` the body of the second. */
  lemma CutAndPaste(name: string, run0: seq<Server>, steps0: seq<Step>, run1: seq<Server>, steps1: seq<Step>,
                    j: nat, k: nat, d: int, f: string, g: string)
      returns (run: seq<Server>, steps: seq<Step>)
    requires Continues(name, run0, steps0, run1, steps1)
    requires |f| == |g| == FRAME_BYTES
    requires var s := Last(run1);
      && Share(s, j, k, d) && s.threads[j].Idle? && s.threads[k].Idle? && s.recvsock != []
      && CanRead(s, d, 200) && Unread(s, d, 200) == f + g
    ensures Continues(name, run0, steps0, run, steps)
    ensures Last(run).arrived == Last(run1).arrived
    ensures |f[..60] + g[60..]| == FRAME_BYTES && Handles(Last(run1), Last(run), j, f[..60] + g[60..])
  {
    var s := Last(run1);
    assert Unread(s, d, 60) == Unread(s, d, 200)[..60] == f[..60];
    run, steps := TakeHead(name, run0, steps0, run1, steps1, j);
    var t := Last(run);
    run, steps := TakeHead(name, run0, steps0, run, steps, k);
    ConsumedTwice(s, t, Last(run), d, 60, 60);
    var u := Last(run);
    run, steps := Settle(name, run0, steps0, run, steps, k);
    ConsumedTwice(s, u, Last(run), d, 120, 40);
    var v := Last(run);
    assert Unread(v, d, 40) == Unread(s, d, 200)[160..] == g[60..];
    run, steps := TakeBody(name, run0, steps0, run, steps, j, f[..60] + g[60..]);
    assert Last(run).arrived == s.arrived;
  }

  lemma TakeBody(name: string, run0: seq<Server>, steps0: seq<Step>, run1: seq<Server>, steps1: seq<Step>, j: nat, f: string)
      returns (run: seq<Server>, steps: seq<Step>)
    requires Continues(name, run0, steps0, run1, steps1) && Enabled(Last(run1), ReadBody(j, true))
    requires var s := Last(run1); f == s.threads[j].head + Unread(s, s.threads[j].sock, BODY_BYTES)
    ensures Continues(name, run0, steps0, run, steps) && Last(run).arrived == Last(run1).arrived
    ensures |f| == FRAME_BYTES && Handles(Last(run1), Last(run), j, f)
  {
    run, steps := Go(name, run0, steps0, run1, steps1, ReadBody(j, true), Apply(Last(run1), ReadBody(j, true)));
  }

  lemma HandlesEarlier(s: Server, t: Server, u: Server, j: nat, f: string)
    requires |f| == FRAME_BYTES && KeepsEntries(s, t) && Handles(t, u, j, f)
    ensures Handles(s, u, j, f)
  {}

  /** Two more messages for two threads at the end of a stream of whole ones. */
  lemma PasteTwo(name: string, run0: seq<Server>, steps0: seq<Step>, run1: seq<Server>, steps1: seq<Step>,
                 sent: map<int, seq<Message>>, j: nat, k: nat, d: int, p: Message, q: Message)
      returns (run: seq<Server>, steps: seq<Step>, sent': map<int, seq<Message>>)
    requires Continues(name, run0, steps0, run1, steps1) && Waiting(Last(run1), j, k, d)
    requires PeersSend(Last(run1), sent) && d in sent && Last(run1).arrived[d] == StreamOf(sent[d])
    requires WellFormed(p) && WellFormed(q) && |Frame(p)| == |Frame(q)| == FRAME_BYTES
    ensures Continues(name, run0, steps0, run, steps)
    ensures sent' == sent[d := sent[d] + [p, q]] && PeersSend(Last(run), sent')
    ensures |Frame(p)[..60] + Frame(q)[60..]| == FRAME_BYTES
    ensures Handles(Last(run1), Last(run), j, Frame(p)[..60] + Frame(q)[60..])
  {
    var t := Last(run1);
    run, steps, sent' := MoreArrives(name, run0, steps0, run1, steps1, sent, d, [p, q]);
    TwoMore(t, Last(run), sent[d], p, q, d);
    var u := Last(run);
    run, steps := CutAndPaste(name, run0, steps0, run, steps, j, k, d, Frame(p), Frame(q));
    HandlesEarlier(t, u, Last(run), j, Frame(p)[..60] + Frame(q)[60..]);
  }

  lemma StillWithheld(sent: map<int, seq<Message>>, d: int, n: nat, p: Message, q: Message, m: Message)
    requires d in sent && Withheld(sent, m) && p != m && q != m
    ensures var sent' := sent[d := sent[d] + Copies(p, n)][d := sent[d] + Copies(p, n) + [p, q]];
      Withheld(sent', m) && Extended(sent, sent')
  {}

  /** From every reachable state with two threads on one socket: whatever
      well-formed message `m` nobody sends, the peers can send well-formed
      messages other than `m` after which the server handles `m`, and sends it on
      if its destination is registered. */
  lemma {:induction false} WellFormedPeersForge(name: string, run0: seq<Server>, steps0: seq<Step>, sent0: map<int, seq<Message>>,
                                                j: nat, k: nat, d: int, m: Message)
      returns (run: seq<Server>, steps: seq<Step>, sent: map<int, seq<Message>>)
    requires IsRun(name, run0, steps0) && PeersSend(Last(run0), sent0) && Withheld(sent0, m)
    requires Share(Last(run0), j, k, d) && WellFormed(m)
    ensures Continues(name, run0, steps0, run, steps)
    ensures PeersSend(Last(run), sent) && Withheld(sent, m) && Extended(sent0, sent)
    ensures Last(run).log != [] && Last(Last(run).log).frame == Frame(m)
    ensures m.toName in Last(run0).regtable && m.toName != name ==>
      Last(Last(run).log) == Relayed(j, Last(run0).regtable[m.toName], Frame(m))
  {
    var s := Last(run0);
    HeadAndBody(m);
    var p, q := SameHead(m), SameBody(m);
    run, steps, sent := CalmDown(name, run0, steps0, sent0, j, k, d, p);
    var t := Last(run);
    run, steps, sent := PasteTwo(name, run0, steps0, run, steps, sent, j, k, d, p, q);
    StillWithheld(sent0, d, |s.threads|, p, q, m);
    HandlesEarlier(s, t, Last(run), j, Frame(m));
    DestOfFrame(m);
    if m.toName in s.regtable {
      RegisteredIsASocket(name, run0, steps0, m.toName);
    }
  }

  lemma RegisteredIsASocket(name: string, run: seq<Server>, steps: seq<Step>, n: string)
    requires IsRun(name, run, steps) && n in Last(run).regtable
    ensures Last(run).regtable[n] > 0 && Last(run).name == name
  {
    RunInv(name, run, steps);
    var s := Last(run);
    assert s.regtable[n] in s.recvsock;
    var i :| 0 <= i < |s.recvsock| && s.recvsock[i] == s.regtable[n];
  }

  lemma TwoMore(t: Server, u: Server, ms: seq<Message>, p: Message, q: Message, d: int)
    requires d in t.arrived && d in t.cursor && t.cursor[d] == |t.arrived[d]|
    requires t.arrived[d] == StreamOf(ms) && |Frame(p)| == |Frame(q)| == FRAME_BYTES
    requires u == t.(arrived := t.arrived[d := StreamOf(ms + [p, q])])
    ensures CanRead(u, d, 200) && Unread(u, d, 200) == Frame(p) + Frame(q)
  {
    StreamConcat(ms, [p, q]);
    assert Frames([p, q]) == [] + [Frame(p)] + [Frame(q)];
    FlattenSnoc([Frame(p)], Frame(q));
    FlattenSnoc([], Frame(p));
    assert [] + [Frame(p)] == [Frame(p)];
  }

  // ---- Exactly when ----

  /** However the run goes on without another thread starting, as long as the
      peers send well-formed messages other than `m`, no frame of `m` is handled. */
  ghost predicate NeverForged(name: string, run0: seq<Server>, steps0: seq<Step>, m: Message) {
    forall run, steps, sent | Continues(name, run0, steps0, run, steps) && PeersSend(Last(run), sent) && Withheld(sent, m) ::
      HasNoFrame(Last(run).log, Frame(m))
  }

  predicate HasNoFrame(log: seq<Event>, f: string) { forall i :: 0 <= i < |log| ==> log[i].frame != f }

  lemma FrameIsInjective(m: Message, n: Message)
    requires WellFormed(m) && WellFormed(n) && Frame(m) == Frame(n)
    ensures m == n
  {
    WellFormedRoundTrips(m);
    WellFormedRoundTrips(n);
    TextIsInjective(m, n);
  }

  /** For a message that no peer sends: it cannot be forged exactly when no two
      started threads share a socket. */
  lemma {:induction false} NeverForgedIff(name: string, run0: seq<Server>, steps0: seq<Step>, sent0: map<int, seq<Message>>, m: Message)
    requires IsRun(name, run0, steps0) && PeersSend(Last(run0), sent0) && Withheld(sent0, m) && WellFormed(m)
    ensures NeverForged(name, run0, steps0, m) <==> Distinct(Last(run0))
  {
    if Distinct(Last(run0)) {
      forall run, steps, sent | Continues(name, run0, steps0, run, steps) && PeersSend(Last(run), sent) && Withheld(sent, m)
        ensures HasNoFrame(Last(run).log, Frame(m))
      {
        StaysDistinct(name, run0, steps0, run, steps);
        NotForged(name, run, steps, sent, m);
      }
    } else {
      var s := Last(run0);
      var j: nat, k: nat :| j < k < |s.threads| && !s.threads[j].Unstarted? && !s.threads[k].Unstarted?
        && s.threads[j].sock == s.threads[k].sock;
      var run, steps, sent := WellFormedPeersForge(name, run0, steps0, sent0, j, k, s.threads[j].sock, m);
      var log := Last(run).log;
      assert log[|log|-1].frame == Frame(m);
    }
  }

  lemma NotForged(name: string, run: seq<Server>, steps: seq<Step>, sent: map<int, seq<Message>>, m: Message)
    requires IsRun(name, run, steps) && Distinct(Last(run)) && PeersSend(Last(run), sent)
    requires Withheld(sent, m) && WellFormed(m)
    ensures HasNoFrame(Last(run).log, Frame(m))
  {
    var log := Last(run).log;
    forall i | 0 <= i < |log|
      ensures log[i].frame != Frame(m)
    {
      var sock, x := EventCarriesMessage(name, run, steps, sent, i);
      RoundTripIff(sent[sock][x]);
      if log[i].frame == Frame(m) {
        FrameIsInjective(m, sent[sock][x]);
      }
    }
  }
}
