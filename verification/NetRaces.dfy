/** What goes wrong when the back of the socket queue is the wrong connection:
    a name bound to a stranger, and two threads on one socket, which lets through
    any frame whatever, although no peer sent it.
 */
module NetRaces {
  import opened Bytes
  import opened Messages
  import opened NetParser
  import opened NetServer
  import opened NetRuns
  import opened NetFraming
  import opened Runs

  lemma PromptSnoc(run: seq<Server>, steps: seq<Step>, step: Step, t: Server)
    requires |run| == |steps| + 1 && Prompt(run, steps)
    requires step.Start? ==> |Last(run).recvsock| == step.k + 1
    ensures Prompt(run + [t], steps + [step])
  {
    var r, q := run + [t], steps + [step];
    forall i | 0 <= i < |q| && q[i].Start?
      ensures |r[i].recvsock| == q[i].k + 1
    {
      assert r[i] == run[i];
      assert i < |steps| ==> q[i] == steps[i];
    }
  }

  lemma TakePrompt(name: string, run0: seq<Server>, steps0: seq<Step>, s: Server, step: Step, t: Server)
      returns (run: seq<Server>, steps: seq<Step>)
    requires IsRun(name, run0, steps0) && Last(run0) == s && Next(s, step, t)
    requires Prompt(run0, steps0) && (step.Start? ==> |s.recvsock| == step.k + 1)
    ensures IsRun(name, run, steps) && Last(run) == t && Prompt(run, steps)
  {
    PromptSnoc(run0, steps0, step, t);
    run, steps := Take(Next, run0, steps0, step, t);
  }

  // ---- A name bound to a stranger ----

  /** Client 4 is accepted, its thread starts, and its registration arrives. */
  lemma FirstClient(name: string, m: Message) returns (run: seq<Server>, steps: seq<Step>)
    requires |Frame(m)| == FRAME_BYTES
    ensures IsRun(name, run, steps) && Prompt(run, steps)
    ensures Last(run) == Server(name, [4], [Idle(4)], map[], map[4 := Frame(m)], map[4 := 0], [])
  {
    var s0 := Initial(name);
    run, steps := [s0], [];
    var s1 := Server(name, [4], [Unstarted], map[], map[4 := ""], map[4 := 0], []);
    run, steps := TakePrompt(name, run, steps, s0, Accept(4), s1);
    var s2 := s1.(threads := [Idle(4)]);
    run, steps := TakePrompt(name, run, steps, s1, Start(0), s2);
    assert "" + Frame(m) == Frame(m);
    var s3 := s2.(arrived := map[4 := Frame(m)]);
    run, steps := TakePrompt(name, run, steps, s2, Arrive(4, Frame(m)), s3);
  }

  /** The first head of a "reg" frame enters the name with the back of the queue. */
  lemma HeadRegisters(s: Server, m: Message)
    requires WellFormed(m) && m.kind == "reg" && Enabled(s, ReadHead(0)) && s.regtable == map[]
    requires s.threads[0] == Idle(4) && s.arrived[4] == Frame(m) && s.cursor[4] == 0
    ensures AfterHead(s, 0).regtable == map[m.fromName := Back(s.recvsock)]
  {
    WellFormedRoundTrips(m);
    assert Unread(s, 4, HEAD_BYTES) == Frame(m)[..HEAD_BYTES];
    assert DecodeHead(Unread(s, 4, HEAD_BYTES)) == TextOf(m).0;
  }

  /** Connection 5 is accepted between the start of thread 0 and its reading of
      a registration from connection 4: whatever the registration says, the
      name is bound to 5. */
  lemma RegistrationCanMissItsSocket(name: string, m: Message) returns (run: seq<Server>, steps: seq<Step>)
    requires WellFormed(m) && m.kind == "reg"
    ensures IsRun(name, run, steps) && Prompt(run, steps)
    ensures 4 in Last(run).arrived && Last(run).arrived[4] == Frame(m)
    ensures m.fromName in Last(run).regtable && Last(run).regtable[m.fromName] == 5
  {
    WellFormedRoundTrips(m);
    run, steps := FirstClient(name, m);
    var s := Last(run);
    var t := Apply(s, Accept(5));
    run, steps := TakePrompt(name, run, steps, s, Accept(5), t);
    HeadRegisters(t, m);
    run, steps := TakePrompt(name, run, steps, t, ReadHead(0), AfterHead(t, 0));
  }

  // ---- Continuing a run ----

  /** `run` continues `run0` without starting another thread. */
  ghost predicate Continues(name: string, run0: seq<Server>, steps0: seq<Step>, run: seq<Server>, steps: seq<Step>) {
    && IsRun(name, run, steps) && run0 <= run && run0 != [] && steps0 <= steps
    && forall i :: |steps0| <= i < |steps| ==> !steps[i].Start?
  }

  lemma Go(name: string, run0: seq<Server>, steps0: seq<Step>, run1: seq<Server>, steps1: seq<Step>, step: Step, t: Server)
      returns (run: seq<Server>, steps: seq<Step>)
    requires Continues(name, run0, steps0, run1, steps1)
    requires Next(Last(run1), step, t) && !step.Start?
    ensures Continues(name, run0, steps0, run, steps) && Last(run) == t && steps == steps1 + [step]
  {
    run, steps := Take(Next, run1, steps1, step, t);
  }

  /** From `s` to `t` exactly `n` bytes of socket `d` were received and no table entry changed. */
  ghost predicate Consumed(s: Server, t: Server, d: int, n: nat) {
    && d in s.cursor && t.name == s.name && t.recvsock == s.recvsock && t.arrived == s.arrived
    && t.cursor == s.cursor[d := s.cursor[d] + n]
    && forall m :: m in s.regtable ==> m in t.regtable && t.regtable[m] == s.regtable[m]
  }

  lemma ConsumedTwice(s: Server, t: Server, u: Server, d: int, m: nat, n: nat)
    requires Consumed(s, t, d, m) && Consumed(t, u, d, n)
    ensures Consumed(s, u, d, m + n)
  {}

  /** An idle thread takes a head. */
  lemma TakeHead(name: string, run0: seq<Server>, steps0: seq<Step>, run1: seq<Server>, steps1: seq<Step>, k: nat)
      returns (run: seq<Server>, steps: seq<Step>)
    requires Continues(name, run0, steps0, run1, steps1)
    requires Enabled(Last(run1), ReadHead(k))
    ensures Continues(name, run0, steps0, run, steps) && steps == steps1 + [ReadHead(k)]
    ensures var s, t := Last(run1), Last(run); var d := s.threads[k].sock;
      && Consumed(s, t, d, HEAD_BYTES) && t.log == s.log
      && t.threads == s.threads[k := HasHead(d, Unread(s, d, HEAD_BYTES))]
  {
    run, steps := Go(name, run0, steps0, run1, steps1, ReadHead(k), AfterHead(Last(run1), k));
  }

  /** All sends from the `n`-th step on succeed. */
  predicate SendsSucceed(steps: seq<Step>, n: nat) {
    forall i {:trigger steps[i]} :: n <= i < |steps| && steps[i].ReadBody? ==> steps[i].sendOk
  }

  /** A thread that holds a head takes a body. */
  lemma Settle(name: string, run0: seq<Server>, steps0: seq<Step>, run1: seq<Server>, steps1: seq<Step>, k: nat)
      returns (run: seq<Server>, steps: seq<Step>)
    requires Continues(name, run0, steps0, run1, steps1)
    requires Enabled(Last(run1), ReadBody(k, true))
    ensures Continues(name, run0, steps0, run, steps) && steps1 <= steps && SendsSucceed(steps, |steps1|)
    ensures Consumed(Last(run1), Last(run), Last(run1).threads[k].sock, BODY_BYTES)
    ensures Last(run).threads == Last(run1).threads[k := Idle(Last(run1).threads[k].sock)]
  {
    run, steps := Go(name, run0, steps0, run1, steps1, ReadBody(k, true), Apply(Last(run1), ReadBody(k, true)));
  }

  /** An idle thread receives `n` whole frames. */
  lemma {:induction false} Drain(name: string, run0: seq<Server>, steps0: seq<Step>, run1: seq<Server>, steps1: seq<Step>, k: nat, n: nat)
      returns (run: seq<Server>, steps: seq<Step>)
    requires Continues(name, run0, steps0, run1, steps1)
    requires k < |Last(run1).threads| && Last(run1).threads[k].Idle? && Last(run1).recvsock != []
    requires CanRead(Last(run1), Last(run1).threads[k].sock, FRAME_BYTES * n)
    ensures Continues(name, run0, steps0, run, steps) && steps1 <= steps && SendsSucceed(steps, |steps1|)
    ensures Consumed(Last(run1), Last(run), Last(run1).threads[k].sock, FRAME_BYTES * n)
    ensures Last(run).threads == Last(run1).threads
    decreases n
  {
    if n == 0 {
      run, steps := run1, steps1;
    } else {
      var s := Last(run1);
      var d := s.threads[k].sock;
      run, steps := TakeHead(name, run0, steps0, run1, steps1, k);
      var t := Last(run);
      run, steps := Settle(name, run0, steps0, run, steps, k);
      var u := Last(run);
      ConsumedTwice(s, t, u, d, HEAD_BYTES, BODY_BYTES);
      run, steps := Drain(name, run0, steps0, run, steps, k, n - 1);
      ConsumedTwice(s, u, Last(run), d, FRAME_BYTES, FRAME_BYTES * (n - 1));
    }
  }

  /** Threads `j` and `k` share socket `d`. */
  ghost predicate Share(s: Server, j: nat, k: nat, d: int) {
    && j < |s.threads| && k < |s.threads| && j != k
    && !s.threads[j].Unstarted? && s.threads[j].sock == d
    && !s.threads[k].Unstarted? && s.threads[k].sock == d
  }

  /** Two threads take a head each. */
  lemma TwoHeads(name: string, run0: seq<Server>, steps0: seq<Step>, run1: seq<Server>, steps1: seq<Step>,
                 j: nat, k: nat, d: int)
      returns (run: seq<Server>, steps: seq<Step>)
    requires Continues(name, run0, steps0, run1, steps1)
    requires var s := Last(run1);
      && Share(s, j, k, d) && s.threads[j].Idle? && s.threads[k].Idle? && s.recvsock != [] && CanRead(s, d, 160)
    ensures Continues(name, run0, steps0, run, steps)
    ensures Consumed(Last(run1), Last(run), d, 120) && Last(run).log == Last(run1).log
    ensures j < |Last(run).threads| && Last(run).threads[j] == HasHead(d, Unread(Last(run1), d, 60))
  {
    run, steps := TakeHead(name, run0, steps0, run1, steps1, j);
    var t := Last(run);
    run, steps := TakeHead(name, run0, steps0, run, steps, k);
    ConsumedTwice(Last(run1), t, Last(run), d, 60, 60);
  }

  // ---- Two threads on one socket ----

  /** A run up to the registration of `m.fromName` with socket 4. */
  lemma NameOnSocket4(name: string, m: Message) returns (run: seq<Server>, steps: seq<Step>)
    requires WellFormed(m) && m.kind == "reg"
    ensures IsRun(name, run, steps)
    ensures var s := Last(run);
      && s.name == name && s.recvsock == [4] && s.regtable == map[m.fromName := 4] && s.log == []
      && |s.threads| == 1 && s.arrived.Keys == {4}
  {
    WellFormedRoundTrips(m);
    run, steps := FirstClient(name, m);
    var s := Last(run);
    HeadRegisters(s, m);
    run, steps := Take(Next, run, steps, ReadHead(0), AfterHead(s, 0));
  }

  /** Then 5 and 6 are accepted before threads 1 and 2 start: both read socket 6. */
  lemma TwoOnSocket6(name: string, m: Message, bytes: string) returns (run: seq<Server>, steps: seq<Step>)
    requires WellFormed(m) && m.kind == "reg"
    ensures IsRun(name, run, steps)
    ensures var s := Last(run);
      && s.name == name && m.fromName in s.regtable && s.regtable[m.fromName] == 4 && s.log == [] && s.recvsock != []
      && |s.threads| == 3 && s.threads[1] == Idle(6) && s.threads[2] == Idle(6)
      && 6 in s.arrived && s.arrived[6] == bytes && 6 in s.cursor && s.cursor[6] == 0
  {
    run, steps := NameOnSocket4(name, m);
    var s0 := Last(run);
    var s1 := Apply(s0, Accept(5));
    run, steps := Take(Next, run, steps, Accept(5), s1);
    var s2 := Apply(s1, Accept(6));
    run, steps := Take(Next, run, steps, Accept(6), s2);
    var s3 := Apply(s2, Start(1));
    run, steps := Take(Next, run, steps, Start(1), s3);
    var s4 := Apply(s3, Start(2));
    run, steps := Take(Next, run, steps, Start(2), s4);
    assert s4.arrived[6] == "" && s4.cursor[6] == 0;
    run, steps := Take(Next, run, steps, Arrive(6, bytes), Apply(s4, Arrive(6, bytes)));
    assert "" + bytes == bytes;
  }

  /** The two threads take turns on the frames `f` and `g` of one peer: the
      registered client on socket 4 is sent the head of `f` with part of the
      head of `g`. */
  lemma LateStartMixesFrames(name: string, m: Message, f: string, g: string)
      returns (run: seq<Server>, steps: seq<Step>)
    requires WellFormed(m) && m.kind == "reg" && m.fromName != name
    requires |f| == FRAME_BYTES && |g| == FRAME_BYTES && DestName(f) == m.fromName
    ensures IsRun(name, run, steps)
    ensures 6 in Last(run).arrived && Last(run).arrived[6] == f + g
    ensures Last(run).log == [Relayed(1, 4, f[..60] + g[20..60])]
  {
    run, steps := TwoOnSocket6(name, m, f + g);
    assert Unread(Last(run), 6, 60) == (f + g)[0..60] == f[..60];
    run, steps := TwoHeads(name, run, steps, run, steps, 1, 2, 6);
    var s := Last(run);
    assert Unread(s, 6, 40) == (f + g)[120..160] == g[20..60];
    assert (f[..60] + g[20..60])[..60] == f[..60];
    run, steps := Take(Next, run, steps, ReadBody(1, true), Apply(s, ReadBody(1, true)));
  }

  // ---- The bytes to use ----

  function Fill(z: char, n: nat): string { seq(n, _ => z) }

  /** Of |f| + 1 characters one does not occur in `f`. */
  lemma CharNotIn(f: string) returns (z: char)
    requires |f| == FRAME_BYTES
    ensures z !in f
  {
    var used := set c | c in f;
    var some := FirstChars(FRAME_BYTES + 1);
    UsedAtMost(f);
    SomeChars(FRAME_BYTES + 1);
    if some <= used {
      SubsetSize(some, used);
    }
    z :| z in some && z !in used;
  }

  lemma {:induction false} UsedAtMost(f: string)
    ensures |set c | c in f| <= |f|
  {
    if f != [] {
      UsedAtMost(f[1..]);
      assert (set c | c in f) == {f[0]} + set c | c in f[1..];
    }
  }

  function FirstChars(n: nat): set<char>
    requires n <= 1000
  {
    if n == 0 then {} else FirstChars(n - 1) + {(n - 1) as char}
  }

  lemma {:induction false} SomeChars(n: nat)
    requires n <= 1000
    ensures |FirstChars(n)| == n
    ensures forall c :: c in FirstChars(n) ==> c as int < n
  {
    if n > 0 {
      SomeChars(n - 1);
    }
  }

  lemma {:induction false} SubsetSize(a: set<char>, b: set<char>)
    requires a <= b
    ensures |a| <= |b|
  {
    if a != {} {
      var c :| c in a;
      SubsetSize(a - {c}, b - {c});
    }
  }

  /** With fillers around its two parts, `f` is no frame of the stream unless it was before. */
  lemma NotAmongChunks(before: string, p: nat, f: string, z: char)
    requires |f| == FRAME_BYTES && z !in f && p > 0 && f !in Chunks(before)
    ensures f !in Chunks(before + Fill(z, p) + (f[..60] + Fill(z, 60) + f[60..]))
  {
    var all := before + Fill(z, p) + (f[..60] + Fill(z, 60) + f[60..]);
    var b := |before|;
    forall i | 0 <= i < |Chunks(all)|
      ensures Chunks(all)[i] != f
    {
      var chunk := Chunks(all)[i];
      assert chunk == all[100 * i..100 * i + 100];
      if 100 * i + 100 <= b {
        assert chunk == before[100 * i..100 * i + 100] == Chunks(before)[i];
      } else if 100 * i < b + p {
        var at := if 100 * i < b then b else 100 * i;
        assert all[at] == z && chunk[at - 100 * i] == z;
      } else {
        assert all[b + p + 60] == z && chunk[b + p + 60 - 100 * i] == z;
      }
    }
  }

  // ---- The forged frame ----

  /** The two threads wait on an exhausted stream. */
  ghost predicate Waiting(s: Server, j: nat, k: nat, d: int) {
    && Share(s, j, k, d) && s.threads[j].Idle? && s.threads[k].Idle? && s.recvsock != []
    && d in s.arrived && d in s.cursor && s.cursor[d] == |s.arrived[d]|
  }

  ghost predicate KeepsEntries(s: Server, t: Server) {
    && t.name == s.name
    && forall m :: m in s.regtable ==> m in t.regtable && t.regtable[m] == s.regtable[m]
  }

  function Owed(p: Phase): nat { if p.HasHead? then BODY_BYTES else 0 }

  function Rest(s: Server, d: int): int
    requires d in s.arrived && d in s.cursor
  {
    |s.arrived[d]| - s.cursor[d]
  }

  lemma SettleIfHeld(name: string, run0: seq<Server>, steps0: seq<Step>, run1: seq<Server>, steps1: seq<Step>, k: nat)
      returns (run: seq<Server>, steps: seq<Step>)
    requires Continues(name, run0, steps0, run1, steps1)
    requires var s := Last(run1);
      && k < |s.threads| && !s.threads[k].Unstarted? && (s.threads[k].HasHead? ==> |s.threads[k].head| == HEAD_BYTES)
      && CanRead(s, s.threads[k].sock, Owed(s.threads[k]))
    ensures Continues(name, run0, steps0, run, steps)
    ensures Consumed(Last(run1), Last(run), Last(run1).threads[k].sock, Owed(Last(run1).threads[k]))
    ensures Last(run).threads == Last(run1).threads[k := Idle(Last(run1).threads[k].sock)]
  {
    if Last(run1).threads[k].HasHead? {
      run, steps := Settle(name, run0, steps0, run1, steps1, k);
    } else {
      run, steps := run1, steps1;
    }
  }

  /** Both threads put down what they hold, and one receives all but the last `n` frames' worth. */
  lemma UseUp(name: string, run0: seq<Server>, steps0: seq<Step>, run1: seq<Server>, steps1: seq<Step>,
              j: nat, k: nat, d: int, n: nat)
      returns (run: seq<Server>, steps: seq<Step>)
    requires Continues(name, run0, steps0, run1, steps1)
    requires Inv(Last(run1)) && Share(Last(run1), j, k, d) && d in Last(run1).arrived && d in Last(run1).cursor
    requires Rest(Last(run1), d) == Owed(Last(run1).threads[j]) + Owed(Last(run1).threads[k]) + FRAME_BYTES * n
    ensures Continues(name, run0, steps0, run, steps)
    ensures Waiting(Last(run), j, k, d) && KeepsEntries(Last(run1), Last(run)) && Last(run).arrived == Last(run1).arrived
  {
    var s := Last(run1);
    assert PhaseOk(s, s.threads[j]) && PhaseOk(s, s.threads[k]);
    run, steps := SettleIfHeld(name, run0, steps0, run1, steps1, j);
    var s1 := Last(run);
    run, steps := SettleIfHeld(name, run0, steps0, run, steps, k);
    var s2 := Last(run);
    ConsumedTwice(s, s1, s2, d, Owed(s.threads[j]), Owed(s.threads[k]));
    run, steps := Drain(name, run0, steps0, run, steps, k, n);
    ConsumedTwice(s, s2, Last(run), d, Owed(s.threads[j]) + Owed(s.threads[k]), FRAME_BYTES * n);
  }

  /** Some bytes of one kind bring the two threads to the end of the stream. */
  lemma Quiesce(name: string, run0: seq<Server>, steps0: seq<Step>, j: nat, k: nat, d: int, z: char)
      returns (run: seq<Server>, steps: seq<Step>, p: nat)
    requires IsRun(name, run0, steps0) && Share(Last(run0), j, k, d) && d in Last(run0).arrived
    ensures Continues(name, run0, steps0, run, steps) && p > 0
    ensures Waiting(Last(run), j, k, d) && KeepsEntries(Last(run0), Last(run))
    ensures Last(run).arrived == Last(run0).arrived[d := Last(run0).arrived[d] + Fill(z, p)]
  {
    var s := Last(run0);
    RunInv(name, run0, steps0);
    var u := Rest(s, d);
    var n := u / FRAME_BYTES + 2;
    p := Owed(s.threads[j]) + Owed(s.threads[k]) + FRAME_BYTES * n - u;
    var step := Arrive(d, Fill(z, p));
    var t := Apply(s, step);
    InvStep(s, step);
    run, steps := Go(name, run0, steps0, run0, steps0, step, t);
    run, steps := UseUp(name, run0, steps0, run, steps, j, k, d, n);
  }

  /** Thread `j` has handled `f`, and sent it on if its destination is registered in `s`. */
  ghost predicate Handles(s: Server, t: Server, j: nat, f: string)
    requires |f| == FRAME_BYTES
  {
    && t.log != [] && Last(t.log).handler == j && Last(t.log).frame == f
    && (DestName(f) in s.regtable && s.regtable[DestName(f)] != 0 && DestName(f) != s.name ==>
          Last(t.log) == Relayed(j, s.regtable[DestName(f)], f))
  }

  /** The next bytes are `f` with a filler between head and body: `j` takes the
      head of `f`, `k` the filler, `j` the body. */
  lemma Interpose(name: string, run0: seq<Server>, steps0: seq<Step>, run1: seq<Server>, steps1: seq<Step>,
                  j: nat, k: nat, d: int, f: string, filler: string)
      returns (run: seq<Server>, steps: seq<Step>)
    requires Continues(name, run0, steps0, run1, steps1) && Waiting(Last(run1), j, k, d)
    requires |f| == FRAME_BYTES && |filler| == HEAD_BYTES
    ensures Continues(name, run0, steps0, run, steps)
    ensures Last(run).arrived == Last(run1).arrived[d := Last(run1).arrived[d] + (f[..60] + filler + f[60..])]
    ensures Handles(Last(run1), Last(run), j, f)
  {
    var s := Last(run1);
    var b := |s.arrived[d]|;
    var bytes := f[..60] + filler + f[60..];
    var t := Apply(s, Arrive(d, bytes));
    run, steps := Go(name, run0, steps0, run1, steps1, Arrive(d, bytes), t);
    assert Unread(t, d, 60) == (s.arrived[d] + bytes)[b..b + 60] == f[..60];
    run, steps := TwoHeads(name, run0, steps0, run, steps, j, k, d);
    var v := Last(run);
    assert Unread(v, d, 40) == (s.arrived[d] + bytes)[b + 120..b + 160] == f[60..];
    assert f[..60] + f[60..] == f;
    run, steps := Go(name, run0, steps0, run, steps, ReadBody(j, true), Apply(v, ReadBody(j, true)));
  }

  /** Two threads on one socket: any frame `f` can still be handled, and sent to
      its destination if that is registered, although it is no frame of any
      peer's stream. */
  lemma {:induction false} SharedSocketForges(name: string, run0: seq<Server>, steps0: seq<Step>, j: nat, k: nat, d: int, f: string)
      returns (run: seq<Server>, steps: seq<Step>)
    requires IsRun(name, run0, steps0) && Share(Last(run0), j, k, d)
    requires |f| == FRAME_BYTES && !IsSent(Last(run0), f)
    ensures Continues(name, run0, steps0, run, steps) && !IsSent(Last(run), f)
    ensures Last(run).log != [] && Last(Last(run).log).frame == f
    ensures DestName(f) in Last(run0).regtable && DestName(f) != name ==>
      Last(Last(run).log) == Relayed(j, Last(run0).regtable[DestName(f)], f)
  {
    var s := Last(run0);
    RunInv(name, run0, steps0);
    assert PhaseOk(s, s.threads[j]);
    assert DestName(f) in s.regtable ==> s.regtable[DestName(f)] in s.recvsock;
    var z := CharNotIn(f);
    var p: nat;
    run, steps, p := Quiesce(name, run0, steps0, j, k, d, z);
    run, steps := Interpose(name, run0, steps0, run, steps, j, k, d, f, Fill(z, 60));
    NotAmongChunks(s.arrived[d], p, f, z);
  }

  ghost predicate Genuine(s: Server) {
    forall i :: 0 <= i < |s.log| ==> IsSent(s, s.log[i].frame)
  }

  ghost predicate StaysGenuine(name: string, run0: seq<Server>, steps0: seq<Step>) {
    forall run, steps | Continues(name, run0, steps0, run, steps) :: Genuine(Last(run))
  }

  lemma {:induction false} StaysDistinct(name: string, run0: seq<Server>, steps0: seq<Step>, run: seq<Server>, steps: seq<Step>)
    requires IsRun(name, run0, steps0) && Distinct(Last(run0))
    requires Continues(name, run0, steps0, run, steps)
    ensures Distinct(Last(run))
    decreases |steps|
  {
    if |steps| > |steps0| {
      var r, q := run[..|run|-1], steps[..|steps|-1];
      PathPrefix(Next, run, steps);
      assert run0 <= r by {
        assert |run0| <= |r|;
      }
      assert steps0 <= q;
      assert forall i :: |steps0| <= i < |q| ==> q[i] == steps[i];
      StaysDistinct(name, run0, steps0, r, q);
      assert !steps[|steps|-1].Start?;
    } else {
      assert run == run0;
    }
  }

  /** Framing holds under distinct sockets and only there: while some frame is
      unsent, every frame handled in every continuation (with no further thread
      started) is one that a peer sent, exactly when no two started threads
      share a socket. */
  lemma {:induction false} GenuineIff(name: string, run0: seq<Server>, steps0: seq<Step>, f: string)
    requires IsRun(name, run0, steps0)
    requires |f| == FRAME_BYTES && !IsSent(Last(run0), f)
    ensures StaysGenuine(name, run0, steps0) <==> Distinct(Last(run0))
  {
    if Distinct(Last(run0)) {
      forall run, steps | Continues(name, run0, steps0, run, steps)
        ensures Genuine(Last(run))
      {
        StaysDistinct(name, run0, steps0, run, steps);
        forall i | 0 <= i < |Last(run).log|
          ensures IsSent(Last(run), Last(run).log[i].frame)
        {
          HandledFramesAreGenuine(name, run, steps, i);
        }
      }
    } else {
      var s := Last(run0);
      var j: nat, k: nat :| j < k < |s.threads| && !s.threads[j].Unstarted? && !s.threads[k].Unstarted?
        && s.threads[j].sock == s.threads[k].sock;
      var run, steps := SharedSocketForges(name, run0, steps0, j, k, s.threads[j].sock, f);
      var log := Last(run).log;
      assert log[|log|-1].frame == f;
      assert !Genuine(Last(run));
    }
  }
}
