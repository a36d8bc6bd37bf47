/** Framing, relay order and what arrives at the other end, in every run whose
    started threads read from distinct sockets.
 */
module NetFraming {
  import opened Bytes
  import opened Messages
  import opened NetParser
  import opened NetServer
  import opened NetRuns
  import opened Runs

  // ---- Distinct sockets, backwards along a run ----

  /** Sharing never ends: distinct sockets now were distinct before. */
  lemma DistinctBefore(s: Server, t: Server)
    requires Extends(s, t) && Distinct(t)
    ensures Distinct(s)
  {}

  lemma DistinctAt(name: string, run: seq<Server>, steps: seq<Step>, i: nat)
    requires IsRun(name, run, steps) && Distinct(Last(run)) && i < |run|
    ensures Distinct(run[i])
  {
    LaterExtends(name, run, steps, i, |run| - 1);
    DistinctBefore(run[i], Last(run));
  }

  // ---- Framing ----

  /** What thread `k` has had received from its connection so far. */
  function Received(s: Server, k: nat): string
    requires Basic(s) && k < |s.threads|
  {
    if s.threads[k].Unstarted? then "" else
      assert PhaseOk(s, s.threads[k]);
      s.arrived[s.threads[k].sock][..s.cursor[s.threads[k].sock]]
  }

  function HeldHead(p: Phase): string { if p.HasHead? then p.head else "" }

  predicate Served(s: Server, sock: int) {
    exists k :: 0 <= k < |s.threads| && !s.threads[k].Unstarted? && s.threads[k].sock == sock
  }

  /** Nothing has been received from a socket that no thread serves. */
  ghost predicate UnservedUntouched(s: Server) {
    forall sock :: sock in s.cursor && !Served(s, sock) ==> s.cursor[sock] == 0
  }

  /** The bytes received from a thread's connection are the frames the thread has
      handled, in order, followed by the head it is holding. */
  ghost predicate FramedAt(s: Server, k: nat)
    requires Basic(s) && k < |s.threads|
  {
    Received(s, k) == Flatten(FramesBy(s.log, k)) + HeldHead(s.threads[k])
  }

  ghost predicate Framed(s: Server)
    requires Basic(s)
  {
    forall k :: 0 <= k < |s.threads| ==> FramedAt(s, k)
  }

  lemma UnservedStep(s: Server, step: Step)
    requires Basic(s) && UnservedUntouched(s) && Enabled(s, step)
    ensures UnservedUntouched(Apply(s, step))
  {
    var t := Apply(s, step);
    forall sock | Served(s, sock)
      ensures Served(t, sock)
    {
      var k :| 0 <= k < |s.threads| && !s.threads[k].Unstarted? && s.threads[k].sock == sock;
      assert !t.threads[k].Unstarted? && t.threads[k].sock == sock;
    }
    forall sock | sock in t.cursor && !Served(t, sock)
      ensures t.cursor[sock] == 0
    {
      assert !Served(s, sock);
    }
  }

  /** A step keeps the framing of every thread, as long as the sockets stay distinct. */
  lemma FramedStep(s: Server, step: Step, k: nat)
    requires Inv(s) && UnservedUntouched(s) && Framed(s) && Enabled(s, step)
    requires Basic(Apply(s, step)) && Distinct(Apply(s, step)) && k < |Apply(s, step).threads|
    ensures FramedAt(Apply(s, step), k)
  {
    var t := Apply(s, step);
    if k == |s.threads| {
      FramedWhenNew(s, step, k);
    } else {
      assert FramedAt(s, k);
      ExtendsStep(s, step);
      DistinctBefore(s, t);
      match step
      case Start(j) =>
        if j == k {
          FramedAfterStart(s, k);
        } else {
          FramedWhenUntouched(s, t, k);
        }
      case ReadHead(j) => FramedAfterHead(s, j, k);
      case ReadBody(j, sendOk) => FramedAfterBody(s, j, sendOk, k);
      case _ => FramedWhenUntouched(s, t, k);
    }
  }

  lemma FramedWhenNew(s: Server, step: Step, k: nat)
    requires Inv(s) && Enabled(s, step) && Basic(Apply(s, step))
    requires k == |s.threads| < |Apply(s, step).threads|
    ensures FramedAt(Apply(s, step), k)
  {
    forall i | 0 <= i < |s.log|
      ensures s.log[i].handler < k
    {
      assert GoodEvent(s, s.log[i]);
    }
    NoFramesYet(s.log, k);
  }

  /** A thread starts on a socket that nobody has read from. */
  lemma FramedAfterStart(s: Server, k: nat)
    requires Basic(s) && UnservedUntouched(s) && Enabled(s, Start(k)) && FramedAt(s, k)
    requires Basic(Apply(s, Start(k))) && Distinct(Apply(s, Start(k)))
    ensures FramedAt(Apply(s, Start(k)), k)
  {
    var t := Apply(s, Start(k));
    forall j | 0 <= j < |s.threads| && !s.threads[j].Unstarted?
      ensures s.threads[j].sock != Back(s.recvsock)
    {
      assert t.threads[j] == s.threads[j] && t.threads[k] == Idle(Back(s.recvsock));
    }
    assert !Served(s, Back(s.recvsock));
    assert s.recvsock[|s.recvsock|-1] in s.arrived;
    assert Received(t, k) == "";
  }

  lemma FramedWhenUntouched(s: Server, t: Server, k: nat)
    requires Basic(s) && Basic(t) && k < |s.threads| && k < |t.threads| && FramedAt(s, k)
    requires FramesBy(t.log, k) == FramesBy(s.log, k) && t.threads[k] == s.threads[k]
    requires !s.threads[k].Unstarted? ==>
      var sock := s.threads[k].sock;
      sock in s.cursor && sock in t.cursor && sock in s.arrived && sock in t.arrived &&
      t.cursor[sock] == s.cursor[sock] && s.arrived[sock] <= t.arrived[sock]
    ensures FramedAt(t, k)
  {
    assert Received(t, k) == Received(s, k);
  }

  lemma ReceivedAfterConsume(s: Server, t: Server, k: nat, n: nat)
    requires Basic(s) && Basic(t) && k < |s.threads| && k < |t.threads|
    requires !s.threads[k].Unstarted? && !t.threads[k].Unstarted? && t.threads[k].sock == s.threads[k].sock
    requires t.arrived == s.arrived && CanRead(s, s.threads[k].sock, n)
    requires t.cursor == s.cursor[s.threads[k].sock := s.cursor[s.threads[k].sock] + n]
    ensures Received(t, k) == Received(s, k) + Unread(s, s.threads[k].sock, n)
  {}

  lemma FramedAfterHead(s: Server, j: nat, k: nat)
    requires Basic(s) && Distinct(s) && k < |s.threads| && FramedAt(s, k)
    requires Enabled(s, ReadHead(j)) && Basic(AfterHead(s, j))
    ensures FramedAt(AfterHead(s, j), k)
  {
    var t := AfterHead(s, j);
    if j == k {
      ReceivedAfterConsume(s, t, k, HEAD_BYTES);
    } else {
      assert PhaseOk(s, s.threads[k]);
      FramedWhenUntouched(s, t, k);
    }
  }

  lemma FramesAfterBody(s: Server, j: nat, sendOk: bool, k: nat)
    requires Enabled(s, ReadBody(j, sendOk))
    ensures FramesBy(AfterBody(s, j, sendOk).log, k) == FramesBy(s.log, k)
      + if j == k then [s.threads[j].head + Unread(s, s.threads[j].sock, BODY_BYTES)] else []
  {
    var e := EventFor(s, j, s.threads[j].head + Unread(s, s.threads[j].sock, BODY_BYTES), sendOk);
    assert AfterBody(s, j, sendOk).log == s.log + [e] && e.handler == j;
    SelectSnoc(s.log, e, (v: Event) => v.handler == k);
  }

  lemma FramedAfterBody(s: Server, j: nat, sendOk: bool, k: nat)
    requires Basic(s) && Distinct(s) && k < |s.threads| && FramedAt(s, k)
    requires Enabled(s, ReadBody(j, sendOk)) && Basic(AfterBody(s, j, sendOk))
    ensures FramedAt(AfterBody(s, j, sendOk), k)
  {
    FramesAfterBody(s, j, sendOk, k);
    if j == k {
      FramedAfterOwnBody(s, k, sendOk);
    } else {
      assert PhaseOk(s, s.threads[k]);
      FramedWhenUntouched(s, AfterBody(s, j, sendOk), k);
    }
  }

  lemma FramedAfterOwnBody(s: Server, k: nat, sendOk: bool)
    requires Basic(s) && k < |s.threads| && FramedAt(s, k)
    requires Enabled(s, ReadBody(k, sendOk)) && Basic(AfterBody(s, k, sendOk))
    ensures FramedAt(AfterBody(s, k, sendOk), k)
  {
    var t := AfterBody(s, k, sendOk);
    var head, body := s.threads[k].head, Unread(s, s.threads[k].sock, BODY_BYTES);
    var fs := FramesBy(s.log, k);
    FramesAfterBody(s, k, sendOk, k);
    FlattenSnoc(fs, head + body);
    ReceivedAfterConsume(s, t, k, BODY_BYTES);
    calc {
      Received(t, k);
      (Flatten(fs) + head) + body;
      Flatten(fs) + (head + body);
      Flatten(FramesBy(t.log, k));
      Flatten(FramesBy(t.log, k)) + "";
    }
  }

  lemma {:induction false} NoFramesYet(log: seq<Event>, k: nat)
    requires forall i :: 0 <= i < |log| ==> log[i].handler < k
    ensures FramesBy(log, k) == []
  {
    if log != [] {
      NoFramesYet(log[..|log|-1], k);
    }
  }

  lemma {:induction false} RunUnserved(name: string, run: seq<Server>, steps: seq<Step>)
    requires IsRun(name, run, steps)
    ensures UnservedUntouched(Last(run))
  {
    if steps != [] {
      PathPrefix(Next, run, steps);
      RunUnserved(name, run[..|run|-1], steps[..|steps|-1]);
      RunInv(name, run[..|run|-1], steps[..|steps|-1]);
      UnservedStep(run[|steps|-1], Last(steps));
    }
  }

  lemma {:induction false} DistinctRunFramed(name: string, run: seq<Server>, steps: seq<Step>)
    requires IsRun(name, run, steps) && Distinct(Last(run))
    ensures Inv(Last(run)) && Framed(Last(run))
  {
    RunInv(name, run, steps);
    if steps != [] {
      var r, q := run[..|run|-1], steps[..|steps|-1];
      PathPrefix(Next, run, steps);
      DistinctAt(name, run, steps, |steps| - 1);
      DistinctRunFramed(name, r, q);
      RunUnserved(name, r, q);
      forall k | 0 <= k < |Last(run).threads|
        ensures FramedAt(Last(run), k)
      {
        FramedStep(run[|steps|-1], Last(steps), k);
      }
    }
  }

  lemma FramesAreWhole(s: Server, p: Event -> bool)
    requires Inv(s)
    ensures WholeFrames(Select(s.log, p))
  {
    var fs := Select(s.log, p);
    forall x | 0 <= x < |fs|
      ensures |fs[x]| == FRAME_BYTES
    {
      SelectedFrame(s.log, p, x);
      var i :| 0 <= i < |s.log| && p(s.log[i]) && s.log[i].frame == fs[x];
      assert GoodEvent(s, s.log[i]);
    }
  }

  /** Framing, conservation and order at once: the frames a thread has
      delivered, relayed or lost are, one for one and in order, the 100-byte
      frames received from its connection; between messages the cursor is a
      multiple of 100, after a head it is 60 further. */
  lemma FramesHandledAreFramesRead(name: string, run: seq<Server>, steps: seq<Step>, k: nat)
    requires IsRun(name, run, steps) && Distinct(Last(run))
    requires k < |Last(run).threads|
    ensures Basic(Last(run))
    ensures FramesBy(Last(run).log, k) == Chunks(Received(Last(run), k))
    ensures |Received(Last(run), k)|
      == FRAME_BYTES * |FramesBy(Last(run).log, k)| + (if Last(run).threads[k].HasHead? then HEAD_BYTES else 0)
  {
    DistinctRunFramed(name, run, steps);
    var s := Last(run);
    assert FramedAt(s, k) && PhaseOk(s, s.threads[k]);
    var fs := FramesBy(s.log, k);
    FramesAreWhole(s, (e: Event) => e.handler == k);
    ChunksOfFlatten(fs);
    WholeFramesLength(fs);
    ChunksIgnoreTail(Flatten(fs), HeldHead(s.threads[k]));
  }

  lemma {:induction false} ChunksIgnoreTail(s: string, tail: string)
    requires |s| % FRAME_BYTES == 0 && |tail| < FRAME_BYTES
    ensures Chunks(s + tail) == Chunks(s)
    decreases |s|
  {
    if |s| >= FRAME_BYTES {
      assert (s + tail)[..100] == s[..100];
      assert (s + tail)[100..] == s[100..] + tail;
      ChunksIgnoreTail(s[100..], tail);
    }
  }

  /** Some peer's stream has `f` among its frames. */
  ghost predicate IsSent(s: Server, f: string) {
    exists sock :: sock in s.arrived && f in Chunks(s.arrived[sock])
  }

  /** Every frame handled is a frame of the stream of its thread's connection. */
  lemma HandledFramesAreGenuine(name: string, run: seq<Server>, steps: seq<Step>, i: nat)
    requires IsRun(name, run, steps) && Distinct(Last(run)) && i < |Last(run).log|
    ensures IsSent(Last(run), Last(run).log[i].frame)
  {
    RunInv(name, run, steps);
    var s := Last(run);
    assert GoodEvent(s, s.log[i]);
    var k := s.log[i].handler;
    FramesHandledAreFramesRead(name, run, steps, k);
    SelectedEvent(s.log, (e: Event) => e.handler == k, i);
    assert !s.threads[k].Unstarted? && PhaseOk(s, s.threads[k]);
    var sock := s.threads[k].sock;
    ChunksOfPrefix(Received(s, k), s.arrived[sock]);
    var x :| 0 <= x < |FramesBy(s.log, k)| && FramesBy(s.log, k)[x] == s.log[i].frame;
    assert Chunks(s.arrived[sock])[x] == s.log[i].frame;
  }

  lemma {:induction false} ChunksOfPrefix(s: string, t: string)
    requires s <= t
    ensures Chunks(s) <= Chunks(t)
  {
    if |s| >= FRAME_BYTES {
      assert s[..100] == t[..100];
      ChunksOfPrefix(s[100..], t[100..]);
    }
  }

  // ---- Relay order ----

  lemma {:induction false} KeepOfSelect(log: seq<Event>, p: Event -> bool, q: string -> bool)
    ensures Keep(Select(log, p), q) == Select(log, (e: Event) => p(e) && q(e.frame))
  {
    if log != [] {
      var fs := Select(log[..|log|-1], p);
      KeepOfSelect(log[..|log|-1], p, q);
      if p(Last(log)) {
        assert (fs + [Last(log).frame])[..|fs|] == fs;
      } else {
        assert fs + [] == fs;
      }
    }
  }

  lemma {:induction false} SelectAgrees(log: seq<Event>, p: Event -> bool, q: Event -> bool)
    requires forall i :: 0 <= i < |log| ==> p(log[i]) == q(log[i])
    ensures Select(log, p) == Select(log, q)
  {
    if log != [] {
      SelectAgrees(log[..|log|-1], p, q);
    }
  }

  ghost predicate GoesTo(e: Event, n: string, d: int) {
    |e.frame| == FRAME_BYTES && DestName(e.frame) == n ==> !e.Delivered? && e.dest == d
  }

  lemma AttemptsAreAddressed(more: seq<Event>, k: nat, n: string, d: int)
    requires forall i :: 0 <= i < |more| ==> GoesTo(more[i], n, d)
    ensures AddressedTo(AttemptsBy(more, k, d), n) == AddressedTo(FramesBy(more, k), n)
  {
    var q := f => |f| == FRAME_BYTES && DestName(f) == n;
    var p1 := (e: Event) => e.handler == k && !e.Delivered? && e.dest == d;
    var p2 := (e: Event) => e.handler == k;
    KeepOfSelect(more, p1, q);
    KeepOfSelect(more, p2, q);
    SelectAgrees(more, (e: Event) => p1(e) && q(e.frame), (e: Event) => p2(e) && q(e.frame));
  }

  lemma NewEventIsRouted(s: Server, step: Step, n: string, x: nat)
    requires Enabled(s, step) && n in s.regtable && n != s.name
    requires |s.log| <= x < |Apply(s, step).log|
    ensures GoesTo(Apply(s, step).log[x], n, s.regtable[n])
  {}

  lemma LogGrows(s: Server, step: Step)
    requires Enabled(s, step)
    ensures s.log <= Apply(s, step).log
  {}

  lemma EntryStays(name: string, run: seq<Server>, steps: seq<Step>, i: nat, j: nat, n: string)
    requires IsRun(name, run, steps) && i <= j < |run| && n in run[i].regtable
    ensures run[j].name == name && n in run[j].regtable && run[j].regtable[n] == run[i].regtable[n]
    ensures run[i].log <= run[j].log
  {
    LaterExtends(name, run, steps, i, j);
    InvAt(name, run, steps, j);
  }

  /** Once a name is registered (state `i`), whatever comes for it later goes to
      that one socket, in every run. */
  lemma {:induction false} RegisteredNameIsRouted(name: string, run: seq<Server>, steps: seq<Step>, i: nat, j: nat, x: nat, n: string)
    requires IsRun(name, run, steps)
    requires i <= j < |run| && n in run[i].regtable && n != name
    requires |run[i].log| <= x < |run[j].log|
    ensures GoesTo(run[j].log[x], n, run[i].regtable[n])
  {
    assert i < j;
    var s, step := run[j-1], steps[j-1];
    assert Enabled(s, step) && run[j] == Apply(s, step);
    EntryStays(name, run, steps, i, j - 1, n);
    LogGrows(s, step);
    if x < |s.log| {
      RegisteredNameIsRouted(name, run, steps, i, j - 1, x, n);
    } else {
      NewEventIsRouted(s, step, n, x);
    }
  }

  lemma RoutedSince(name: string, run: seq<Server>, steps: seq<Step>, i: nat, n: string)
    requires IsRun(name, run, steps)
    requires i < |run| && n in run[i].regtable && n != name && run[i].log <= Last(run).log
    ensures var since := Last(run).log[|run[i].log|..];
      forall x :: 0 <= x < |since| ==> GoesTo(since[x], n, run[i].regtable[n])
  {
    var since := Last(run).log[|run[i].log|..];
    forall x | 0 <= x < |since|
      ensures GoesTo(since[x], n, run[i].regtable[n])
    {
      RegisteredNameIsRouted(name, run, steps, i, |run| - 1, |run[i].log| + x, n);
    }
  }

  /** What thread `k` handled after state `i` is what it read after state `i`. */
  lemma HandledSince(name: string, run: seq<Server>, steps: seq<Step>, i: nat, k: nat)
    requires IsRun(name, run, steps) && Distinct(Last(run))
    requires i < |run| && k < |run[i].threads|
    ensures Basic(run[i]) && Basic(Last(run)) && k < |Last(run).threads|
    ensures run[i].log <= Last(run).log
    ensures Chunks(Received(run[i], k)) + FramesBy(Last(run).log[|run[i].log|..], k) == Chunks(Received(Last(run), k))
  {
    LaterExtends(name, run, steps, i, |run| - 1);
    HandledAt(name, run, steps, i, k);
    HandledAt(name, run, steps, |run| - 1, k);
    FramesByConcat(run[i].log, Last(run).log, k);
  }

  lemma HandledAt(name: string, run: seq<Server>, steps: seq<Step>, i: nat, k: nat)
    requires IsRun(name, run, steps) && Distinct(Last(run))
    requires i < |run| && k < |run[i].threads|
    ensures Basic(run[i]) && FramesBy(run[i].log, k) == Chunks(Received(run[i], k))
  {
    PathUpTo(Next, run, steps, i);
    DistinctAt(name, run, steps, i);
    FramesHandledAreFramesRead(name, run[..i+1], steps[..i], k);
  }

  lemma FramesByConcat(log: seq<Event>, longer: seq<Event>, k: nat)
    requires log <= longer
    ensures FramesBy(longer, k) == FramesBy(log, k) + FramesBy(longer[|log|..], k)
  {
    assert longer == log + longer[|log|..];
    SelectConcat(log, longer[|log|..], (e: Event) => e.handler == k);
  }

  /** First in, first out per source: with `n` registered at state `i`, the
      frames thread `k` then tries to send to `n`'s socket under that name are
      exactly the frames for `n` that it read from its connection since, in
      the order they were sent by the peer, whatever other threads do. */
  lemma RelayIsFifo(name: string, run: seq<Server>, steps: seq<Step>, i: nat, k: nat, n: string)
    requires IsRun(name, run, steps) && Distinct(Last(run))
    requires i < |run| && n in run[i].regtable && n != name && k < |run[i].threads|
    ensures Basic(run[i]) && Basic(Last(run)) && k < |Last(run).threads|
    ensures run[i].log <= Last(run).log
    ensures
      var before, all := Chunks(Received(run[i], k)), Chunks(Received(Last(run), k));
      before <= all &&
      AddressedTo(AttemptsBy(Last(run).log[|run[i].log|..], k, run[i].regtable[n]), n)
        == AddressedTo(all[|before|..], n)
  {
    HandledSince(name, run, steps, i, k);
    RoutedSince(name, run, steps, i, n);
    AttemptsAreAddressed(Last(run).log[|run[i].log|..], k, n, run[i].regtable[n]);
  }

  // ---- On the wire ----

  /** Frames thread `k` put on descriptor `d`. */
  function PutBy(log: seq<Event>, k: nat, d: int): seq<string> {
    Select(log, (e: Event) => e.handler == k && e.Relayed? && e.dest == d)
  }

  /** Where no `send` to `d` failed, the attempts are what went on the wire. */
  lemma {:induction false} AttemptsReachTheWire(log: seq<Event>, k: nat, d: int)
    requires forall i :: 0 <= i < |log| && log[i].Lost? ==> log[i].dest != d
    ensures AttemptsBy(log, k, d) == PutBy(log, k, d)
  {
    if log != [] {
      AttemptsReachTheWire(log[..|log|-1], k, d);
    }
  }

  lemma {:induction false} SelectedIsSubsequence(log: seq<Event>, p: Event -> bool, q: Event -> bool)
    requires forall e :: p(e) ==> q(e)
    ensures Subsequence(Select(log, p), Select(log, q))
  {
    if log != [] {
      var init := log[..|log|-1];
      SelectedIsSubsequence(init, p, q);
      var a, b := Select(init, p), Select(init, q);
      if q(Last(log)) {
        assert (b + [Last(log).frame])[..|b|] == b;
        if p(Last(log)) {
          assert (a + [Last(log).frame])[..|a|] == a;
        } else {
          assert a + [] == a;
        }
      } else {
        assert a + [] == a && b + [] == b;
      }
    }
  }

  /** The frames of one thread under one name appear on the socket's wire in order. */
  lemma PutOnTheWire(log: seq<Event>, k: nat, n: string, d: int)
    ensures Subsequence(AddressedTo(PutBy(log, k, d), n), SentTo(log, d))
  {
    var p := (e: Event) => e.handler == k && e.Relayed? && e.dest == d;
    var q := f => |f| == FRAME_BYTES && DestName(f) == n;
    KeepOfSelect(log, p, q);
    SelectedIsSubsequence(log, (e: Event) => p(e) && q(e.frame), (e: Event) => e.Relayed? && e.dest == d);
  }

  // ---- End to end ----

  /** What the peers send: the stream on a socket is that of `sent[sock]`, as far
      as it has arrived. */
  ghost predicate PeersSend(s: Server, sent: map<int, seq<Message>>) {
    forall sock :: sock in s.arrived ==>
      sock in sent && AllWellFormed(sent[sock]) && s.arrived[sock] <= StreamOf(sent[sock])
  }

  function MessagesTo(ms: seq<Message>, n: string): seq<Message> {
    if ms == [] then [] else
      MessagesTo(ms[..|ms|-1], n) + if Last(ms).toName == n then [Last(ms)] else []
  }

  lemma {:induction false} FramesOfMessagesTo(ms: seq<Message>, n: string)
    requires AllWellFormed(ms)
    ensures AddressedTo(Frames(ms), n) == Frames(MessagesTo(ms, n))
  {
    if ms != [] {
      var init, m := ms[..|ms|-1], Last(ms);
      FramesOfMessagesTo(init, n);
      DestOfFrame(m);
      FramesSnoc(init, m);
      assert ms == init + [m];
      KeepSnoc(Frames(init), Frame(m), n);
      if m.toName == n {
        FramesSnoc(MessagesTo(init, n), m);
      } else {
        assert MessagesTo(init, n) + [] == MessagesTo(init, n);
      }
    }
  }

  lemma DestOfFrame(m: Message)
    requires WellFormed(m)
    ensures |Frame(m)| == FRAME_BYTES && DestName(Frame(m)) == m.toName
  {
    WellFormedRoundTrips(m);
    assert DecodeFrame(Frame(m)).0 == TextOf(m).0;
  }

  lemma FramesSnoc(ms: seq<Message>, m: Message)
    ensures Frames(ms + [m]) == Frames(ms) + [Frame(m)]
  {}

  lemma KeepSnoc(fs: seq<string>, f: string, n: string)
    requires |f| == FRAME_BYTES
    ensures AddressedTo(fs + [f], n) == if DestName(f) == n then AddressedTo(fs, n) + [f] else AddressedTo(fs, n)
  {
    assert (fs + [f])[..|fs|] == fs;
  }

  /** A started thread handles exactly the first messages its peer sent, and each
      frame it handles is the printed form of that message. */
  lemma {:induction false} HandledMessages(name: string, run: seq<Server>, steps: seq<Step>, sent: map<int, seq<Message>>, k: nat)
    requires IsRun(name, run, steps) && Distinct(Last(run))
    requires PeersSend(Last(run), sent)
    requires k < |Last(run).threads| && !Last(run).threads[k].Unstarted?
    ensures Last(run).threads[k].sock in sent
    ensures FramesBy(Last(run).log, k) <= Frames(sent[Last(run).threads[k].sock])
  {
    RunInv(name, run, steps);
    var s := Last(run);
    assert PhaseOk(s, s.threads[k]);
    var ms := sent[s.threads[k].sock];
    FramesHandledAreFramesRead(name, run, steps, k);
    StreamChunks(ms);
    ChunksOfPrefix(Received(s, k), StreamOf(ms));
  }

  lemma AddressedSlice(ms: seq<Message>, a: nat, b: nat, n: string)
    requires a <= b <= |ms| && AllWellFormed(ms)
    ensures AddressedTo(Frames(ms)[a..b], n) == Frames(MessagesTo(ms[a..b], n))
  {
    assert Frames(ms)[a..b] == Frames(ms[a..b]);
    FramesOfMessagesTo(ms[a..b], n);
  }

  /** Between two states of the log, what thread `k` put on socket `d` under name
      `n` are the frames of exactly the messages for `n` among those of `ms` that
      it handled meanwhile, and they lie in this order on the socket's wire. */
  ghost predicate PutInOrder(before: seq<Event>, after: seq<Event>, ms: seq<Message>, k: nat, n: string, d: int)
    requires before <= after
  {
    var since := after[|before|..];
    var a, b := |FramesBy(before, k)|, |FramesBy(after, k)|;
    && a <= b <= |ms|
    && AddressedTo(PutBy(since, k, d), n) == Frames(MessagesTo(ms[a..b], n))
    && Subsequence(Frames(MessagesTo(ms[a..b], n)), SentTo(since, d))
    && SentTo(after, d) == SentTo(before, d) + SentTo(since, d)
  }

  lemma PutFromHandled(before: seq<Event>, after: seq<Event>, ms: seq<Message>, k: nat, n: string, d: int)
    requires before <= after && AllWellFormed(ms) && FramesBy(after, k) <= Frames(ms)
    requires forall x :: 0 <= x < |after[|before|..]| ==> GoesTo(after[|before|..][x], n, d)
    requires forall x :: |before| <= x < |after| && after[x].Lost? ==> after[x].dest != d
    ensures PutInOrder(before, after, ms, k, n, d)
  {
    var since := after[|before|..];
    var a, b := |FramesBy(before, k)|, |FramesBy(after, k)|;
    FramesByConcat(before, after, k);
    AttemptsAreAddressed(since, k, n, d);
    AttemptsReachTheWire(since, k, d);
    PutOnTheWire(since, k, n, d);
    assert after == before + since;
    SelectConcat(before, since, (e: Event) => e.Relayed? && e.dest == d);
    assert FramesBy(since, k) == Frames(ms)[a..b];
    AddressedSlice(ms, a, b, n);
  }

  /** From one client to another: with `n` registered at state `i` and no failed
      `send` to its socket since, the frames that thread `k` put on that socket
      under that name are, in order, those of exactly the messages for `n` that
      its peer sent since, as far as they have been read; and they lie in this
      order on the socket's wire. */
  lemma MessagesReachTheSocketInOrder(name: string, run: seq<Server>, steps: seq<Step>, sent: map<int, seq<Message>>,
                                      i: nat, k: nat, n: string)
    requires IsRun(name, run, steps) && Distinct(Last(run)) && PeersSend(Last(run), sent)
    requires i < |run| && n in run[i].regtable && n != name
    requires k < |Last(run).threads| && !Last(run).threads[k].Unstarted?
    requires forall x :: |run[i].log| <= x < |Last(run).log| && Last(run).log[x].Lost? ==>
      Last(run).log[x].dest != run[i].regtable[n]
    ensures run[i].log <= Last(run).log && Last(run).threads[k].sock in sent
    ensures PutInOrder(run[i].log, Last(run).log, sent[Last(run).threads[k].sock], k, n, run[i].regtable[n])
  {
    LaterExtends(name, run, steps, i, |run| - 1);
    HandledMessages(name, run, steps, sent, k);
    RoutedSince(name, run, steps, i, n);
    RunInv(name, run, steps);
    assert PhaseOk(Last(run), Last(run).threads[k]);
    PutFromHandled(run[i].log, Last(run).log, sent[Last(run).threads[k].sock], k, n, run[i].regtable[n]);
  }

  /** The frame of every event is the printed form of a message some peer sent. */
  lemma EventCarriesMessage(name: string, run: seq<Server>, steps: seq<Step>, sent: map<int, seq<Message>>, i: nat)
      returns (sock: int, j: nat)
    requires IsRun(name, run, steps) && Distinct(Last(run))
    requires PeersSend(Last(run), sent)
    requires i < |Last(run).log|
    ensures sock in sent && j < |sent[sock]|
    ensures Last(run).log[i].frame == Frame(sent[sock][j]) && RoundTrips(sent[sock][j])
  {
    RunInv(name, run, steps);
    var log := Last(run).log;
    assert GoodEvent(Last(run), log[i]);
    var k := log[i].handler;
    SelectedEvent(log, (e: Event) => e.handler == k, i);
    FramesHandledAreFramesRead(name, run, steps, k);
    HandledMessages(name, run, steps, sent, k);
    assert PhaseOk(Last(run), Last(run).threads[k]);
    sock := Last(run).threads[k].sock;
    j :| 0 <= j < |FramesBy(log, k)| && FramesBy(log, k)[j] == log[i].frame;
    assert FramesBy(log, k)[j] == Frames(sent[sock])[j];
    WellFormedRoundTrips(sent[sock][j]);
  }

  /** The bytes on a descriptor are whole frames, one for each relay event. */
  lemma WireIsWholeFrames(name: string, run: seq<Server>, steps: seq<Step>, d: int)
    requires IsRun(name, run, steps)
    ensures Chunks(Wire(Last(run).log, d)) == SentTo(Last(run).log, d)
    ensures |Wire(Last(run).log, d)| == FRAME_BYTES * |SentTo(Last(run).log, d)|
  {
    RunInv(name, run, steps);
    FramesAreWhole(Last(run), (e: Event) => e.Relayed? && e.dest == d);
    ChunksOfFlatten(SentTo(Last(run).log, d));
    WholeFramesLength(SentTo(Last(run).log, d));
  }

  lemma RelayGoesWhereRegistered(s: Server, i: nat, m: Message)
    requires Inv(s) && i < |s.log| && s.log[i].Relayed?
    requires s.log[i].frame == Frame(m) && RoundTrips(m)
    ensures m.toName != s.name && m.toName in s.regtable && s.regtable[m.toName] == s.log[i].dest
  {
    assert GoodEvent(s, s.log[i]);
    assert DestName(s.log[i].frame) == TextOf(m).0.destName;
  }

  /** Decoding the bytes sent to a socket gives messages that some peer sent,
      byte for byte, each to a name registered with that socket. */
  lemma {:induction false} WireDecodesToSentMessages(name: string, run: seq<Server>, steps: seq<Step>,
                                                     sent: map<int, seq<Message>>, d: int, x: nat)
      returns (sock: int, j: nat)
    requires IsRun(name, run, steps) && Distinct(Last(run))
    requires PeersSend(Last(run), sent)
    requires x < |DecodeStream(Wire(Last(run).log, d))|
    ensures sock in sent && j < |sent[sock]|
    ensures DecodeStream(Wire(Last(run).log, d))[x] == TextOf(sent[sock][j])
    ensures Wire(Last(run).log, d)[100 * x..100 * x + 100] == Frame(sent[sock][j])
    ensures sent[sock][j].toName != name
    ensures sent[sock][j].toName in Last(run).regtable && Last(run).regtable[sent[sock][j].toName] == d
  {
    var log := Last(run).log;
    var p := (e: Event) => e.Relayed? && e.dest == d;
    WireIsWholeFrames(name, run, steps, d);
    SelectedFrame(log, p, x);
    var i: nat :| i < |log| && p(log[i]) && log[i].frame == SentTo(log, d)[x];
    sock, j := EventCarriesMessage(name, run, steps, sent, i);
    RunInv(name, run, steps);
    RelayGoesWhereRegistered(Last(run), i, sent[sock][j]);
  }
}
