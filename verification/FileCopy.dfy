/** Byte-wise file transfer over one connection (my_sdr.cpp, my_rcvr.cpp). All
    senders of the pool read one stream and write one socket, without a lock; at
    the other end one thread of the receiver appends to its file.
 */
module FileCopy {
  import opened Bytes
  import opened Runs
  import P = Pool
  import opened SenderFile

  /** A sender between `peek`, `read` and `send`. */
  datatype Hand = Empty | Peeked | Holds(b: char)

  /** `pos` is the stream's position and `past` the number of reads at its end,
      `hands[i]` belongs to worker `i` of the pool. `sent` is all that went into
      the channel. `closed`: a sender has closed the socket; `exited`: the
      sending process has ended; `ended`: the receiver has seen the end. */
  datatype Copy = Copy(
    pool: P.Pool, content: string, pos: nat, past: nat, hands: seq<Hand>, sent: string,
    closed: bool, exited: bool, channel: string, initial: string, file: string, ended: bool)

  /** A failed `send` is the pool's `Fail`. */
  datatype Step =
    | PoolStep(step: P.Step)
    | Peek(i: nat) | Read(i: nat) | Send(i: nat) | Close(i: nat)
    | Exit
    | Recv | RecvEnd

  function Initial(content: string, initial: string): Copy {
    Copy(P.Initial(""), content, 0, 0, [], "", false, false, "", initial, initial, false)
  }

  predicate Sending(c: Copy, i: nat) {
    !c.exited && i < |c.pool.workers| && i < |c.hands| && c.pool.workers[i].Working?
  }

  /** What the loop adds to the pool's conditions: a sender reports after the end
      of the stream, leaves after closing the socket, and fails with a byte in hand. */
  predicate Fits(c: Copy, step: P.Step) {
    match step
    case WorkerStep(i) =>
      && i < |c.hands| && i < |c.pool.workers|
      && (c.pool.workers[i].Working? ==> c.hands[i].Empty? && c.pos >= |c.content|)
      && (c.pool.workers[i].Reported? ==> c.closed)
    case Fail(i) => i < |c.hands| && c.hands[i].Holds?
    case _ => true
  }

  /** The process ends with `main`, or with the `exit` of a sender that failed.
      `recv` waits for a byte or for the end of the connection. */
  predicate Enabled(cfg: P.Config, c: Copy, step: Step) {
    match step
    case PoolStep(s) => !c.exited && P.Enabled(cfg, c.pool, s) && Fits(c, s)
    case Peek(i) => Sending(c, i) && c.hands[i].Empty? && c.pos < |c.content|
    case Read(i) => Sending(c, i) && c.hands[i].Peeked?
    case Send(i) => Sending(c, i) && c.hands[i].Holds? && !c.closed
    case Close(i) => !c.exited && i < |c.pool.workers| && c.pool.workers[i].Reported?
    case Exit => !c.exited && (c.pool.boss.Done? || c.pool.fails > 0)
    case Recv => !c.ended && c.channel != ""
    case RecvEnd => !c.ended && c.channel == "" && (c.closed || c.exited)
  }

  function WithPool(c: Copy, pool: P.Pool): Copy {
    c.(pool := pool, hands := if |pool.workers| > |c.hands| then c.hands + [Empty] else c.hands)
  }

  /** A read at the end of the stream leaves the zero that the buffer was cleared to. */
  function AfterRead(c: Copy, i: nat): Copy
    requires i < |c.hands|
  {
    if c.pos < |c.content| then c.(hands := c.hands[i := Holds(c.content[c.pos])], pos := c.pos + 1)
    else c.(hands := c.hands[i := Holds('\0')], past := c.past + 1)
  }

  function AfterSend(c: Copy, i: nat): Copy
    requires i < |c.hands| && c.hands[i].Holds?
  {
    c.(hands := c.hands[i := Empty], sent := c.sent + [c.hands[i].b], channel := c.channel + [c.hands[i].b])
  }

  function Apply(cfg: P.Config, c: Copy, step: Step): Copy
    requires Enabled(cfg, c, step)
  {
    match step
    case PoolStep(s) => WithPool(c, P.Apply(cfg, c.pool, s))
    case Peek(i) => c.(hands := c.hands[i := Peeked])
    case Read(i) => AfterRead(c, i)
    case Send(i) => AfterSend(c, i)
    case Close(_) => c.(closed := true)
    case Exit => c.(exited := true)
    case Recv => c.(file := c.file + [c.channel[0]], channel := c.channel[1..])
    case RecvEnd => c.(ended := true)
  }

  ghost predicate Next(cfg: P.Config, c: Copy, step: Step, d: Copy) {
    Enabled(cfg, c, step) && d == Apply(cfg, c, step)
  }

  ghost function NextOf(cfg: P.Config): (Copy, Step, Copy) -> bool { (c, step, d) => Next(cfg, c, step, d) }

  ghost predicate IsRun(cfg: P.Config, content: string, initial: string, run: seq<Copy>, steps: seq<Step>) {
    Path(NextOf(cfg), run, steps) && run[0] == Initial(content, initial)
  }

  // ---- The loops ----

  class Transfer {
    const cfg: P.Config
    const content: string
    const initial: string
    var pool: P.Pool
    var pos: nat
    var past: nat
    var hands: seq<Hand>
    var sent: string
    var closed: bool
    var exited: bool
    var channel: string
    var file: string
    var ended: bool

    function View(): Copy
      reads this
    {
      Copy(pool, content, pos, past, hands, sent, closed, exited, channel, initial, file, ended)
    }

    constructor (cfg: P.Config, content: string, initial: string)
      ensures View() == Initial(content, initial) && this.cfg == cfg
    {
      this.cfg, this.content, this.initial := cfg, content, initial;
      pool, pos, past, hands, sent := P.Initial(""), 0, 0, [], "";
      closed, exited := false, false;
      channel, file, ended := "", initial, false;
    }

    method PeekByte(i: nat) returns (more: bool)
      requires Sending(View(), i) && hands[i].Empty?
      modifies this`hands
      ensures more <==> pos < |content|
      ensures View() == if more then Apply(cfg, old(View()), Peek(i)) else old(View())
    {
      more := pos < |content|;
      if more {
        hands := hands[i := Peeked];
      }
    }

    /** One byte into the cleared buffer. */
    method ReadByte(i: nat) returns (b: char)
      requires Enabled(cfg, View(), Read(i))
      modifies this`pos, this`past, this`hands
      ensures View() == Apply(cfg, old(View()), Read(i)) && hands[i] == Holds(b)
    {
      b := '\0';
      if pos < |content| {
        b := content[pos];
        pos := pos + 1;
      } else {
        past := past + 1;
      }
      hands := hands[i := Holds(b)];
    }

    /** A failed send ends the process, after the failure has been counted. */
    method SendByte(i: nat, b: char, ok: bool)
      requires Sending(View(), i) && hands[i] == Holds(b) && !closed && cfg.mode.SendFile?
      requires |hands| == |pool.workers|
      modifies this`pool, this`hands, this`sent, this`channel
      ensures View() == Apply(cfg, old(View()), if ok then Send(i) else PoolStep(P.Fail(i)))
    {
      if ok {
        sent, channel := sent + [b], channel + [b];
        hands := hands[i := Empty];
      } else {
        pool := pool.(workers := pool.workers[i := P.Failed], fails := pool.fails + 1);
      }
    }

    /** The loop's condition. */
    method AtByte(i: nat) returns (more: bool)
      requires Sending(View(), i) && hands[i].Empty?
      modifies this`hands
      ensures more <==> pos < |content|
      ensures hands == if more then old(hands)[i := Peeked] else old(hands)
    {
      more := PeekByte(i);
    }

    /** The two steps of one round. */
    method PassByte(i: nat, ok: bool)
      requires cfg.mode.SendFile? && Enabled(cfg, View(), Read(i)) && !closed
      requires pos < |content| && |hands| == |pool.workers|
      modifies this`pool, this`pos, this`past, this`hands, this`sent, this`channel
      ensures pos == old(pos) + 1
      ensures ok ==> pool == old(pool) && hands == old(hands)[i := Empty]
      ensures ok ==> sent == old(sent) + [content[old(pos)]] && channel == old(channel) + [content[old(pos)]]
      ensures !ok ==> sent == old(sent) && channel == old(channel)
      ensures !ok ==> pool == old(pool).(workers := old(pool.workers)[i := P.Failed], fails := old(pool.fails) + 1)
    {
      var sendBuff := ReadByte(i);
      SendByte(i, sendBuff, ok);
    }

    /** The loop of one sender, from wherever the shared stream stands and
        undisturbed: read one byte, send it; the send after `failAt` successful
        ones, if there are that many bytes, fails. */
    method SendingLoop(i: nat, failAt: nat)
      requires cfg.mode.SendFile? && Sending(View(), i) && hands[i].Empty? && !closed
      requires pos <= |content| && |hands| == |pool.workers|
      modifies this`pool, this`pos, this`past, this`hands, this`sent, this`channel
      ensures var n := if |content| - old(pos) <= failAt then |content| - old(pos) else failAt;
        sent == old(sent) + content[old(pos)..old(pos) + n] && channel == old(channel) + content[old(pos)..old(pos) + n]
      ensures if |content| - old(pos) <= failAt
        then pool == old(pool) && i < |hands| && hands[i].Empty? && pos == |content|
        else pool == old(pool).(workers := old(pool.workers)[i := P.Failed], fails := old(pool.fails) + 1)
    {
      var start := pos;
      var more := AtByte(i);
      while more
        invariant |hands| == |pool.workers| && pool == old(pool)
        invariant start <= pos <= |content| && pos - start <= failAt
        invariant sent == old(sent) + content[start..pos] && channel == old(channel) + content[start..pos]
        invariant hands[i] == if more then Peeked else Empty
        invariant more <==> pos < |content|
        decreases |content| - pos, more
      {
        if pos - start == failAt {
          PassByte(i, false);
          return;
        }
        SliceGrows(old(sent), content, start, pos);
        SliceGrows(old(channel), content, start, pos);
        PassByte(i, true);
        more := AtByte(i);
      }
    }

    method RecvByte() returns (b: char)
      requires Enabled(cfg, View(), Recv)
      modifies this`channel
      ensures old(channel) == [b] + channel && View().(file := file + [b]) == Apply(cfg, old(View()), Recv)
    {
      b := channel[0];
      channel := channel[1..];
    }

    method WriteByte(b: char)
      modifies this`file
      ensures file == old(file) + [b]
    {
      file := file + [b];
    }

    method ReceiveOne()
      requires Enabled(cfg, View(), Recv)
      modifies this`channel, this`file
      ensures channel == old(channel)[1..] && file == old(file) + [old(channel)[0]]
    {
      var recvBuff := RecvByte();
      WriteByte(recvBuff);
      assert View() == Apply(cfg, old(View()), Recv);
    }

    method SeeEnd()
      requires Enabled(cfg, View(), RecvEnd)
      modifies this`ended
      ensures View() == Apply(cfg, old(View()), RecvEnd)
    {
      ended := true;
    }

    /** One byte at a time until `recv` reports the end: here with a sender that
        has already ended. */
    method ReceivingLoop()
      requires !ended && (closed || exited)
      modifies this`channel, this`file, this`ended
      ensures file == old(file) + old(channel) && channel == "" && ended
    {
      while channel != ""
        invariant !ended && file + channel == old(file) + old(channel)
        decreases |channel|
      {
        ghost var b, rest := channel[0], channel[1..];
        assert channel == [b] + rest;
        ReceiveOne();
      }
      SeeEnd();
    }
  }

  lemma SliceGrows(s: string, content: string, start: nat, pos: nat)
    requires start <= pos < |content|
    ensures s + content[start..pos] + [content[pos]] == s + content[start..pos + 1]
  {
    assert content[start..pos + 1] == content[start..pos] + [content[pos]];
  }

  // ---- Every number of senders ----

  function Copies(s: string, b: char): nat { multiset(s)[b] }

  /** How often byte `b` was read and not sent: it is in hand, or lost with a sender that failed. */
  function Carried(hands: seq<Hand>, b: char): nat {
    if hands == [] then 0 else Carried(hands[..|hands|-1], b) + P.One(Last(hands) == Holds(b))
  }

  lemma {:induction false} CarriedUpdate(hands: seq<Hand>, i: nat, h: Hand, b: char)
    requires i < |hands|
    ensures Carried(hands[i := h], b) + P.One(hands[i] == Holds(b)) == Carried(hands, b) + P.One(h == Holds(b))
  {
    var init, later := hands[..|hands|-1], hands[i := h];
    if i < |init| {
      assert later[..|hands|-1] == init[i := h];
      CarriedUpdate(init, i, h, b);
    } else {
      assert later[..|hands|-1] == init;
    }
  }

  /** The account of byte `b`. */
  predicate Accounted(c: Copy, b: char)
    requires c.pos <= |c.content|
  {
    Copies(c.sent, b) + Carried(c.hands, b)
      == Copies(c.content[..c.pos], b) + if b == '\0' then c.past else 0
  }

  ghost predicate Conserved(c: Copy) {
    && c.pos <= |c.content|
    && c.file + c.channel == c.initial + c.sent
    && forall b :: Accounted(c, b)
  }

  lemma AccountedRead(c: Copy, i: nat, b: char)
    requires c.pos <= |c.content| && i < |c.hands| && c.hands[i].Peeked? && Accounted(c, b)
    ensures Accounted(AfterRead(c, i), b)
  {
    if c.pos < |c.content| {
      CarriedUpdate(c.hands, i, Holds(c.content[c.pos]), b);
      assert c.content[..c.pos + 1] == c.content[..c.pos] + [c.content[c.pos]];
    } else {
      CarriedUpdate(c.hands, i, Holds('\0'), b);
    }
  }

  lemma AccountedSend(c: Copy, i: nat, b: char)
    requires c.pos <= |c.content| && i < |c.hands| && c.hands[i].Holds? && Accounted(c, b)
    ensures Accounted(AfterSend(c, i), b)
  {
    CarriedUpdate(c.hands, i, Empty, b);
  }

  lemma AccountedStep(cfg: P.Config, c: Copy, step: Step, b: char)
    requires c.pos <= |c.content| && Accounted(c, b) && Enabled(cfg, c, step)
    ensures Apply(cfg, c, step).pos <= |c.content| && Accounted(Apply(cfg, c, step), b)
  {
    match step
    case PoolStep(_) => assert (c.hands + [Empty])[..|c.hands|] == c.hands;
    case Peek(i) => CarriedUpdate(c.hands, i, Peeked, b);
    case Read(i) => AccountedRead(c, i, b);
    case Send(i) => AccountedSend(c, i, b);
    case _ =>
  }

  lemma ConservedStep(cfg: P.Config, c: Copy, step: Step)
    requires Conserved(c) && Enabled(cfg, c, step)
    ensures Conserved(Apply(cfg, c, step))
  {
    var d := Apply(cfg, c, step);
    forall b
      ensures Accounted(d, b)
    {
      AccountedStep(cfg, c, step, b);
    }
    match step
    case Send(i) => assert d.file + d.channel == (c.file + c.channel) + [c.hands[i].b];
    case Recv =>
      assert c.channel == [c.channel[0]] + c.channel[1..];
      assert d.file + d.channel == c.file + c.channel;
    case _ =>
  }

  /** Conservation, for any pool and any failures: what was sent, is in hand or
      was lost with a failed sender is what was read of the file plus one zero
      for each read at its end; what the receiver has and what is under way is
      what was sent, in order. */
  lemma {:induction false} RunConserved(cfg: P.Config, content: string, initial: string, run: seq<Copy>, steps: seq<Step>)
    requires IsRun(cfg, content, initial, run, steps)
    ensures Conserved(Last(run)) && Last(run).content == content && Last(run).initial == initial
  {
    if steps != [] {
      PathPrefix(NextOf(cfg), run, steps);
      RunConserved(cfg, content, initial, run[..|run|-1], steps[..|steps|-1]);
      ConservedStep(cfg, run[|steps|-1], Last(steps));
    }
  }

  // ---- How a transfer ends ----

  /** The socket is closed and the loop left only after some sender has reported. */
  ghost predicate Orderly(cfg: P.Config, c: Copy) {
    && |c.hands| == |c.pool.workers|
    && P.Inv(c.pool) && Counted(cfg, c.pool)
    && (c.pool.boss.Done? || c.closed ==> c.pool.reports > 0)
    && (c.exited ==> c.pool.reports > 0 || c.pool.fails > 0)
    && (c.ended ==> c.channel == "" && (c.closed || c.exited))
  }

  lemma {:induction false} TallySome(ws: seq<P.Stage>, p: P.Stage -> bool, i: nat)
    requires i < |ws| && p(ws[i])
    ensures P.Tally(ws, p) > 0
  {
    if i < |ws| - 1 {
      TallySome(ws[..|ws|-1], p, i);
    }
  }

  lemma {:induction false} SomeOfTally(ws: seq<P.Stage>, p: P.Stage -> bool) returns (i: nat)
    requires P.Tally(ws, p) > 0
    ensures i < |ws| && p(ws[i])
  {
    i := |ws| - 1;
    if !p(ws[i]) {
      i := SomeOfTally(ws[..i], p);
    }
  }

  lemma OrderlyPoolStep(cfg: P.Config, c: Copy, s: P.Step)
    requires cfg.mode.SendFile? && Orderly(cfg, c) && Enabled(cfg, c, PoolStep(s))
    ensures Orderly(cfg, WithPool(c, P.Apply(cfg, c.pool, s)))
  {
    P.LockStep(cfg, c.pool, s);
    P.CountsStep(cfg, c.pool, s);
    CountedStep(cfg, c.pool, s);
  }

  lemma OrderlyStep(cfg: P.Config, c: Copy, step: Step)
    requires cfg.mode.SendFile? && Orderly(cfg, c) && Enabled(cfg, c, step)
    ensures Orderly(cfg, Apply(cfg, c, step))
  {
    match step
    case PoolStep(s) => OrderlyPoolStep(cfg, c, s);
    case Close(i) => TallySome(c.pool.workers, P.HasReported, i);
    case _ =>
  }

  // ---- At most one live sender ----

  ghost predicate Live(c: Copy) { c.pool.workers != [] && !Last(c.pool.workers).Failed? }

  /** 1 if the live sender has read a byte that it has not sent. */
  function InFlight(c: Copy): nat
    requires |c.hands| == |c.pool.workers|
  {
    if c.pool.workers != [] && !Last(c.pool.workers).Failed? && Last(c.hands).Holds? then 1 else 0
  }

  /** With a limit of one all senders but the newest have failed, each with one
      byte of the file; the others were sent in order. */
  ghost predicate OneSender(c: Copy)
    requires |c.hands| == |c.pool.workers|
  {
    var n := |c.pool.workers|;
    && c.pos <= |c.content|
    && (forall i :: 0 <= i < n - 1 ==> c.pool.workers[i].Failed?)
    && (c.pool.boss.Granted? || c.pool.boss.Creating? ==> forall i :: 0 <= i < n ==> c.pool.workers[i].Failed?)
    && (Live(c) ==>
          && (c.hands[n-1].Peeked? ==> c.pos < |c.content|)
          && (c.hands[n-1].Holds? ==> c.pos > 0 && c.hands[n-1].b == c.content[c.pos - 1])
          && (!c.pool.workers[n-1].Working? ==> c.hands[n-1].Empty? && c.pos == |c.content|))
    && |c.sent| + InFlight(c) + c.pool.fails == c.pos
    && Subsequence(c.sent, c.content[..c.pos - InFlight(c)])
    && c.past == 0
  }

  lemma AllFailed(p: P.Pool)
    requires P.CountsOk(p) && p.fails >= |p.workers|
    ensures forall i :: 0 <= i < |p.workers| ==> p.workers[i].Failed?
  {
    forall i | 0 <= i < |p.workers|
      ensures p.workers[i].Failed?
    {
      if !p.workers[i].Failed? {
        P.TallyFull(p.workers, (st: P.Stage) => st.Failed?, i);
      }
    }
  }

  lemma OneSenderCreated(c: Copy, p: P.Pool)
    requires |c.hands| == |c.pool.workers| && OneSender(c) && c.pool.boss.Creating?
    requires p.workers == c.pool.workers + [P.Working] && p.fails == c.pool.fails && NotCreating(p.boss)
    ensures OneSender(WithPool(c, p))
  {
    var d := WithPool(c, p);
    assert InFlight(c) == 0 && InFlight(d) == 0;
  }

  predicate NotCreating(b: P.Boss) { !b.Granted? && !b.Creating? }

  lemma OneSenderWaits(c: Copy, p: P.Pool)
    requires |c.hands| == |c.pool.workers| && OneSender(c)
    requires p.workers == c.pool.workers && p.fails == c.pool.fails
    requires !NotCreating(p.boss) ==> forall i :: 0 <= i < |p.workers| ==> p.workers[i].Failed?
    ensures OneSender(WithPool(c, p))
  {
    assert InFlight(WithPool(c, p)) == InFlight(c);
  }

  lemma OneSenderBoss(cfg: P.Config, c: Copy, ok: bool)
    requires cfg.mode.SendFile? && cfg.maxThread <= 1 && Orderly(cfg, c) && Conserved(c) && OneSender(c)
    requires Enabled(cfg, c, PoolStep(P.BossStep(ok))) && Orderly(cfg, WithPool(c, P.ApplyBoss(cfg, c.pool, ok)))
    ensures OneSender(WithPool(c, P.ApplyBoss(cfg, c.pool, ok)))
  {
    var p := P.ApplyBoss(cfg, c.pool, ok);
    if c.pool.boss.Creating? && ok {
      OneSenderCreated(c, p);
    } else {
      if p.boss.Granted? || p.boss.Creating? {
        AllFailed(p);
      }
      OneSenderWaits(c, p);
    }
  }

  lemma OneSenderWorker(cfg: P.Config, c: Copy, i: nat)
    requires Orderly(cfg, c) && Conserved(c) && OneSender(c)
    requires Enabled(cfg, c, PoolStep(P.WorkerStep(i)))
    ensures OneSender(WithPool(c, P.ApplyWorker(c.pool, i)))
  {
    assert i == |c.pool.workers| - 1;
  }

  lemma OneSenderLoses(c: Copy, p: P.Pool)
    requires |c.hands| == |c.pool.workers| > 0 && OneSender(c) && Live(c) && Last(c.hands).Holds?
    requires p.workers == c.pool.workers[|c.hands| - 1 := P.Failed] && p.fails == c.pool.fails + 1 && NotCreating(p.boss)
    ensures OneSender(WithPool(c, p))
  {
    var d := WithPool(c, p);
    assert InFlight(c) == 1 && InFlight(d) == 0 && d.hands == c.hands;
    SubsequenceSkip(c.sent, c.content[..c.pos - 1], c.content[c.pos - 1]);
    assert c.content[..c.pos] == c.content[..c.pos - 1] + [c.content[c.pos - 1]];
  }

  lemma OneSenderFails(cfg: P.Config, c: Copy, i: nat)
    requires Orderly(cfg, c) && Conserved(c) && OneSender(c)
    requires Enabled(cfg, c, PoolStep(P.Fail(i)))
    ensures OneSender(WithPool(c, P.Apply(cfg, c.pool, P.Fail(i))))
  {
    assert i == |c.pool.workers| - 1;
    OneSenderLoses(c, P.Apply(cfg, c.pool, P.Fail(i)));
  }

  lemma OneSenderSends(cfg: P.Config, c: Copy, i: nat)
    requires Orderly(cfg, c) && Conserved(c) && OneSender(c)
    requires Enabled(cfg, c, Send(i))
    ensures OneSender(AfterSend(c, i))
  {
    assert i == |c.pool.workers| - 1 && InFlight(c) == 1 && InFlight(AfterSend(c, i)) == 0;
    SubsequenceTake(c.sent, c.content[..c.pos - 1], c.content[c.pos - 1]);
    assert c.content[..c.pos] == c.content[..c.pos - 1] + [c.content[c.pos - 1]];
  }

  lemma OneSenderPool(cfg: P.Config, c: Copy, s: P.Step)
    requires cfg.mode.SendFile? && cfg.maxThread <= 1 && Orderly(cfg, c) && Conserved(c) && OneSender(c)
    requires Enabled(cfg, c, PoolStep(s)) && Orderly(cfg, Apply(cfg, c, PoolStep(s)))
    ensures OneSender(Apply(cfg, c, PoolStep(s)))
  {
    match s
    case BossStep(ok) => OneSenderBoss(cfg, c, ok);
    case WorkerStep(i) => OneSenderWorker(cfg, c, i);
    case Fail(i) => OneSenderFails(cfg, c, i);
    case Recv(_, _) =>
  }

  lemma OneSenderStep(cfg: P.Config, c: Copy, step: Step)
    requires cfg.mode.SendFile? && cfg.maxThread <= 1 && Orderly(cfg, c) && Conserved(c) && OneSender(c)
    requires Enabled(cfg, c, step) && Orderly(cfg, Apply(cfg, c, step))
    ensures OneSender(Apply(cfg, c, step))
  {
    match step
    case PoolStep(s) => OneSenderPool(cfg, c, s);
    case Peek(i) => assert i == |c.pool.workers| - 1;
    case Read(i) => assert i == |c.pool.workers| - 1;
    case Send(i) => OneSenderSends(cfg, c, i);
    case _ =>
  }

  lemma {:induction false} RunOrderly(cfg: P.Config, content: string, initial: string, run: seq<Copy>, steps: seq<Step>)
    requires IsRun(cfg, content, initial, run, steps) && cfg.mode.SendFile?
    ensures Orderly(cfg, Last(run))
  {
    if steps != [] {
      PathPrefix(NextOf(cfg), run, steps);
      RunOrderly(cfg, content, initial, run[..|run|-1], steps[..|steps|-1]);
      OrderlyStep(cfg, run[|steps|-1], Last(steps));
    }
  }

  lemma {:induction false} RunOneSender(cfg: P.Config, content: string, initial: string, run: seq<Copy>, steps: seq<Step>)
    requires IsRun(cfg, content, initial, run, steps) && cfg.mode.SendFile? && cfg.maxThread <= 1
    ensures Orderly(cfg, Last(run)) && OneSender(Last(run))
  {
    RunOrderly(cfg, content, initial, run, steps);
    if steps == [] {
      OneSenderAtFirst(content, initial);
    } else {
      var r, q := run[..|run|-1], steps[..|steps|-1];
      PathPrefix(NextOf(cfg), run, steps);
      RunOneSender(cfg, content, initial, r, q);
      RunConserved(cfg, content, initial, r, q);
      OneSenderStep(cfg, run[|q|], Last(steps));
    }
  }

  lemma OneSenderAtFirst(content: string, initial: string)
    ensures OneSender(Initial(content, initial))
  {}

  lemma ReportedAllRead(cfg: P.Config, c: Copy)
    requires Orderly(cfg, c) && OneSender(c) && c.pool.reports > 0
    ensures c.pos == |c.content| && InFlight(c) == 0
  {
    var i := SomeOfTally(c.pool.workers, P.HasReported);
    assert i == |c.pool.workers| - 1;
  }

  /** With the limit of one that the controller sets for files: in every
      interleaving what was sent is the file less one byte for each sender that
      failed (less one more that is in hand, or what is not yet read), and a
      receiver's file is a prefix of that. When the loop ends, or the socket is
      closed, or the receiver sees the end, the whole file is through exactly if
      no sender has failed. */
  lemma CopyIsAPrefixAndCompleteIff(cfg: P.Config, content: string, initial: string, run: seq<Copy>, steps: seq<Step>)
    requires IsRun(cfg, content, initial, run, steps) && cfg.mode.SendFile? && cfg.maxThread <= 1
    ensures var c := Last(run);
      && Subsequence(c.sent, content) && |c.sent| + c.pool.fails <= |content|
      && (c.pool.fails == 0 ==> c.sent <= content)
      && c.file <= initial + c.sent
      && (c.pool.boss.Done? || c.closed ==> |c.sent| + c.pool.fails == |content|)
      && (c.pool.boss.Done? || c.closed ==> (c.sent == content <==> c.pool.fails == 0))
      && (c.ended ==> c.file == initial + c.sent && (c.file == initial + content <==> c.pool.fails == 0))
  {
    var c := Last(run);
    RunOneSender(cfg, content, initial, run, steps);
    RunConserved(cfg, content, initial, run, steps);
    SentSoFar(c);
    if c.pool.reports > 0 {
      ReportedAllRead(cfg, c);
    }
    ReceivedSoFar(c);
    if c.sent == content {
      assert c.pool.fails == 0;
    }
  }

  lemma SentSoFar(c: Copy)
    requires |c.hands| == |c.pool.workers| && OneSender(c)
    ensures Subsequence(c.sent, c.content) && |c.sent| + c.pool.fails <= |c.content|
    ensures c.pool.fails == 0 ==> c.sent <= c.content
    ensures c.pool.fails == 0 && c.pos == |c.content| && InFlight(c) == 0 ==> c.sent == c.content
  {
    var part := c.content[..c.pos - InFlight(c)];
    SubsequenceLength(c.sent, part);
    SubsequenceOfPrefix(c.sent, part, c.content);
  }

  lemma ReceivedSoFar(c: Copy)
    requires c.file + c.channel == c.initial + c.sent
    ensures c.file <= c.initial + c.sent
    ensures c.channel == "" ==> c.file == c.initial + c.sent
    ensures c.initial + c.sent == c.initial + c.content <==> c.sent == c.content
  {
    assert c.file <= c.file + c.channel;
    if c.channel == "" {
      assert c.file + "" == c.file;
    }
    assert (c.initial + c.sent)[|c.initial|..] == c.sent && (c.initial + c.content)[|c.initial|..] == c.content;
  }

  lemma {:induction false} SubsequenceOfPrefix(a: string, b: string, c: string)
    requires Subsequence(a, b) && b <= c
    ensures Subsequence(a, c)
    decreases |c|
  {
    if |b| < |c| {
      SubsequenceOfPrefix(a, b, c[..|c|-1]);
    } else {
      assert b == c;
    }
  }
}
