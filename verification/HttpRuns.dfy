/** The HTTP server's two threads over the table (main.cpp): the event loop, which
    works off a batch of reported events one after the other, and the sweep, which
    looks at an entry without the lock and then takes the lock to close it.
 */
module HttpRuns {
  import opened Bytes
  import opened Runs
  import opened HttpIO
  import opened HttpTable

  type Event = (int, Interest)

  /** `ready` is the rest of the batch, `reading` what was read and is not yet
      appended, `noticed` the entry that the sweep is about to close. `crashed`: a
      null entry was used. */
  datatype State = State(
    table: Table, ready: seq<Event>, reading: Option<(int, string)>, noticed: Option<int>, crashed: bool)

  datatype Step =
    | Wait(events: seq<Event>)
    | Accept(fd: int, now: int)
    | ReadBytes(buf: string)
    | Append(now: int)
    | Writable(k: nat, r: int, now: int)
    | Notice(fd: int, tm: int)
    | Expire

  function Initial(): State { State(HttpTable.Initial(), [], None, None, false) }

  predicate DistinctEvents(es: seq<Event>) { forall i, j :: 0 <= i < j < |es| ==> es[i].0 != es[j].0 }

  /** What `epoll_wait` may return. */
  predicate Reportable(t: Table, es: seq<Event>) {
    DistinctEvents(es) && forall i :: 0 <= i < |es| ==> es[i].0 in t.watched && t.watched[es[i].0] == es[i].1
  }

  /** The kernel hands out a descriptor that is not open. A read happens before
      the lock is taken; the write branch holds it all the time. */
  predicate Enabled(resp: string, s: State, step: Step) {
    !s.crashed &&
    match step
    case Wait(es) => s.ready == [] && s.reading.None? && Reportable(s.table, es)
    case Accept(fd, _) => s.reading.None? && fd !in s.table.open
    case ReadBytes(buf) => s.reading.None? && s.ready != [] && s.ready[0].1.ReadEvents? && |buf| == BUFSIZE
    case Append(_) => s.reading.Some?
    case Writable(k, r, _) =>
      s.reading.None? && s.ready != [] && s.ready[0].1.WriteEvents? && k <= |resp| && WriteOutcome(resp, k, r)
    case Notice(fd, tm) => s.noticed.None? && Expired(s.table, fd, tm)
    case Expire => s.noticed.Some?
  }

  /** Neither the event branches nor the sweep, once it has the lock, ask whether the entry is null. */
  function Apply(resp: string, s: State, step: Step): State
    requires Enabled(resp, s, step)
  {
    match step
    case Wait(es) => s.(ready := es)
    case Accept(fd, now) => s.(table := Accepted(s.table, fd, now))
    case ReadBytes(buf) => s.(reading := Some((s.ready[0].0, buf)), ready := s.ready[1..])
    case Append(now) =>
      var fd := s.reading.value.0;
      if Live(s.table, fd) then s.(table := Answering(s.table, fd, s.reading.value.1, now), reading := None)
      else s.(crashed := true)
    case Writable(k, r, now) =>
      var fd := s.ready[0].0;
      if Live(s.table, fd) then s.(table := Written(s.table, resp, fd, k, r, now), ready := s.ready[1..])
      else s.(crashed := true)
    case Notice(fd, _) => s.(noticed := Some(fd))
    case Expire =>
      if Live(s.table, s.noticed.value) then s.(table := Cleared(s.table, {s.noticed.value}), noticed := None)
      else s.(crashed := true)
  }

  ghost predicate Next(resp: string, s: State, step: Step, t: State) {
    Enabled(resp, s, step) && t == Apply(resp, s, step)
  }

  ghost function NextOf(resp: string): (State, Step, State) -> bool { (s, step, t) => Next(resp, s, step, t) }

  ghost predicate IsRun(resp: string, run: seq<State>, steps: seq<Step>) {
    Path(NextOf(resp), run, steps) && run[0] == Initial()
  }

  // ---- The table, the open descriptors and the epoll set ----

  lemma {:induction false} AgreesStep(resp: string, s: State, step: Step)
    requires Agrees(s.table) && Enabled(resp, s, step)
    ensures Agrees(Apply(resp, s, step).table)
  {
    var t := s.table;
    match step
    case Accept(fd, now) => EntryAgrees(t, Accepted(t, fd, now), fd, ClientState(fd, now, "", []));
    case Append(now) =>
      var fd := s.reading.value.0;
      if Live(t, fd) {
        var u := Answering(t, fd, s.reading.value.1, now);
        assert fd in LiveSet(t);
        EntryAgrees(t, u, fd, u.fds[fd].value);
      }
    case Writable(k, r, now) =>
      var fd := s.ready[0].0;
      if Live(t, fd) {
        WrittenAgrees(t, resp, fd, k, r, now);
      }
    case Expire =>
      if Live(t, s.noticed.value) {
        ExpiryAgrees(t, s.noticed.value);
      }
    case _ =>
  }

  lemma WrittenAgrees(t: Table, resp: string, fd: int, k: nat, r: int, now: int)
    requires Agrees(t) && Live(t, fd) && k <= |resp|
    ensures Agrees(Written(t, resp, fd, k, r, now))
  {
    var u := Recorded(t, fd, resp[..k], now);
    assert fd in LiveSet(t);
    EntryAgrees(t, u, fd, u.fds[fd].value);
    if r == |resp| || r < 0 {
      ClosedAgrees(u, fd, r == |resp|);
    }
  }

  lemma {:induction false} RunAgrees(resp: string, run: seq<State>, steps: seq<Step>)
    requires IsRun(resp, run, steps)
    ensures Agrees(Last(run).table)
  {
    if steps != [] {
      PathPrefix(NextOf(resp), run, steps);
      RunAgrees(resp, run[..|run|-1], steps[..|steps|-1]);
      AgreesStep(resp, run[|steps|-1], Last(steps));
    }
  }

  /** In every reachable state, also between two entries of a sweep and between a
      read and its append, an entry is non-null exactly when its descriptor is
      open, and exactly when it is watched. So an accepted descriptor never hides
      a live client, and each client is deleted at most once. */
  lemma TableAgreesWithDescriptors(resp: string, run: seq<State>, steps: seq<Step>, fd: int)
    requires IsRun(resp, run, steps)
    ensures var s := Last(run); var t := s.table;
      && (Live(t, fd) <==> fd in t.open) && (Live(t, fd) <==> fd in t.watched)
      && (forall now :: Enabled(resp, s, Accept(fd, now)) ==> !Live(t, fd))
      && t.made - t.freed == |LiveSet(t)|
  {
    RunAgrees(resp, run, steps);
    var t := Last(run).table;
    assert fd in LiveSet(t) <==> fd in t.open;
  }

  // ---- An entry, read off the steps ----

  /** The event loop renews or replaces the entry of `fd`. */
  predicate Touches(s: State, step: Step, fd: int) {
    match step
    case Accept(x, _) => x == fd
    case Append(_) => s.reading.Some? && s.reading.value.0 == fd
    case Writable(_, _, _) => s.ready != [] && s.ready[0].0 == fd
    case _ => false
  }

  /** The time a step enters. */
  function NowOf(step: Step): int {
    match step
    case Accept(_, now) => now
    case Append(now) => now
    case Writable(_, _, now) => now
    case _ => 0
  }

  /** The connection ends: the response is out, or writing it failed; or the sweep closes it. */
  predicate Ends(resp: string, s: State, step: Step, fd: int) {
    match step
    case Writable(_, r, _) => s.ready != [] && s.ready[0].0 == fd && (r == |resp| || r < 0)
    case Expire => s.noticed == Some(fd)
    case _ => false
  }

  /** All buffers appended for `fd` after step `a`. */
  function BuffersSince(run: seq<State>, steps: seq<Step>, fd: int, a: nat): string
    requires |run| == |steps| + 1
  {
    if |steps| <= a + 1 then "" else
      var s, step := run[|steps|-1], Last(steps);
      BuffersSince(run[..|run|-1], steps[..|steps|-1], fd, a)
      + if step.Append? && s.reading.Some? && s.reading.value.0 == fd then s.reading.value.1 else ""
  }

  /** What each write attempt for `fd` after step `a` put out. */
  function WritesSince(resp: string, run: seq<State>, steps: seq<Step>, fd: int, a: nat): seq<string>
    requires |run| == |steps| + 1
  {
    if |steps| <= a + 1 then [] else
      var s, step := run[|steps|-1], Last(steps);
      WritesSince(resp, run[..|run|-1], steps[..|steps|-1], fd, a)
      + if step.Writable? && s.ready != [] && s.ready[0].0 == fd && step.k <= |resp| then [resp[..step.k]] else []
  }

  /** The connection that `fd` stands for was accepted by step `a` and has not ended. */
  ghost predicate OpenSince(resp: string, run: seq<State>, steps: seq<Step>, fd: int, a: nat)
    requires |run| == |steps| + 1
  {
    && a < |steps| && steps[a].Accept? && steps[a].fd == fd
    && forall i {:trigger steps[i]} :: a < i < |steps| ==>
         !(steps[i].Accept? && steps[i].fd == fd) && !Ends(resp, run[i], steps[i], fd)
  }

  /** Step `b` is the latest one to touch the entry of `fd`. */
  ghost predicate LatestTouch(run: seq<State>, steps: seq<Step>, fd: int, b: nat)
    requires |run| == |steps| + 1
  {
    && b < |steps| && Touches(run[b], steps[b], fd)
    && forall i {:trigger steps[i]} :: b < i < |steps| ==> !Touches(run[i], steps[i], fd)
  }

  /** A live entry in a run that has not crashed. */
  ghost predicate EntryIs(resp: string, run: seq<State>, steps: seq<Step>, fd: int, c: ClientState, a: nat, b: nat)
    requires |run| == |steps| + 1
  {
    && OpenSince(resp, run, steps, fd, a) && LatestTouch(run, steps, fd, b) && a <= b
    && c.fd == fd && c.lastAlive == NowOf(steps[b])
    && c.readBuf == BuffersSince(run, steps, fd, a) && c.writes == WritesSince(resp, run, steps, fd, a)
  }

  /** What one step makes of the entry of `fd`. */
  lemma EntryUntouched(resp: string, s: State, step: Step, fd: int)
    requires Enabled(resp, s, step) && !Touches(s, step, fd) && !Ends(resp, s, step, fd)
    ensures var t := Apply(resp, s, step).table;
      (Live(t, fd) <==> Live(s.table, fd)) && (Live(t, fd) ==> t.fds[fd] == s.table.fds[fd])
  {}

  lemma EntryTouched(resp: string, s: State, step: Step, fd: int)
    requires Enabled(resp, s, step) && Touches(s, step, fd) && !step.Accept? && Live(s.table, fd) && !Ends(resp, s, step, fd)
    ensures var t, c := Apply(resp, s, step).table, s.table.fds[fd].value;
      && Live(t, fd)
      && t.fds[fd].value == c.(
           lastAlive := NowOf(step),
           readBuf := c.readBuf + (if step.Append? then s.reading.value.1 else ""),
           writes := c.writes + if step.Writable? then [resp[..step.k]] else [])
  {
    var c := s.table.fds[fd].value;
    assert c.readBuf + "" == c.readBuf && c.writes + [] == c.writes;
  }

  lemma EntryEnds(resp: string, s: State, step: Step, fd: int)
    requires Enabled(resp, s, step) && Ends(resp, s, step, fd)
    ensures !Live(Apply(resp, s, step).table, fd)
  {}

  lemma EntryMissing(resp: string, s: State, step: Step, fd: int)
    requires Enabled(resp, s, step) && !Live(s.table, fd) && !(step.Accept? && step.fd == fd)
    ensures !Live(Apply(resp, s, step).table, fd)
  {}

  /** The three things that are read off the steps, one step further. */
  lemma OneStepFurther(resp: string, run: seq<State>, steps: seq<Step>, fd: int, a: nat, b: nat)
    requires |run| == |steps| + 1 > 1
    ensures var r, q, s, step := run[..|run|-1], steps[..|steps|-1], run[|steps|-1], Last(steps);
      && (OpenSince(resp, run, steps, fd, a) <==>
            if a == |q| then step.Accept? && step.fd == fd
            else OpenSince(resp, r, q, fd, a) && !(step.Accept? && step.fd == fd) && !Ends(resp, s, step, fd))
      && (LatestTouch(r, q, fd, b) && !Touches(s, step, fd) ==> LatestTouch(run, steps, fd, b))
      && (Touches(s, step, fd) ==> LatestTouch(run, steps, fd, |q|))
  {
    var r, q := run[..|run|-1], steps[..|steps|-1];
    assert forall i {:trigger steps[i]} :: 0 <= i < |q| ==> q[i] == steps[i] && r[i] == run[i];
    assert forall i {:trigger q[i]} :: 0 <= i < |q| ==> q[i] == steps[i] && r[i] == run[i];
  }

  /** In every run, a live entry was made by the latest accept of its descriptor,
      which has not ended since; its time is that of the latest step to touch
      it, its buffer all that was appended since, its writes all that was put
      out since. */
  lemma {:induction false} LiveEntryIs(resp: string, run: seq<State>, steps: seq<Step>, fd: int) returns (a: nat, b: nat)
    requires IsRun(resp, run, steps) && Live(Last(run).table, fd)
    ensures EntryIs(resp, run, steps, fd, Last(run).table.fds[fd].value, a, b)
  {
    assert steps != [];
    var r, q, s, step := run[..|run|-1], steps[..|steps|-1], run[|steps|-1], Last(steps);
    PathPrefix(NextOf(resp), run, steps);
    if step.Accept? && step.fd == fd {
      a, b := |q|, |q|;
      OneStepFurther(resp, run, steps, fd, a, b);
    } else {
      if !Live(s.table, fd) {
        EntryMissing(resp, s, step, fd);
      }
      if Ends(resp, s, step, fd) {
        EntryEnds(resp, s, step, fd);
      }
      a, b := LiveEntryIs(resp, r, q, fd);
      OneStepFurther(resp, run, steps, fd, a, b);
      if Touches(s, step, fd) {
        EntryTouched(resp, s, step, fd);
        b := |q|;
      } else {
        EntryUntouched(resp, s, step, fd);
        NothingMore(resp, run, steps, fd, a);
      }
    }
  }

  lemma NothingMore(resp: string, run: seq<State>, steps: seq<Step>, fd: int, a: nat)
    requires |run| == |steps| + 1 > 1 && !Touches(run[|steps|-1], Last(steps), fd)
    ensures BuffersSince(run, steps, fd, a) == BuffersSince(run[..|run|-1], steps[..|steps|-1], fd, a)
    ensures WritesSince(resp, run, steps, fd, a) == WritesSince(resp, run[..|run|-1], steps[..|steps|-1], fd, a)
  {}

  /** A descriptor has a live entry exactly if some accept of it has not ended. */
  lemma {:induction false} LiveIffOpen(resp: string, run: seq<State>, steps: seq<Step>, fd: int)
    requires IsRun(resp, run, steps)
    ensures Live(Last(run).table, fd) <==> exists a :: OpenSince(resp, run, steps, fd, a)
  {
    if Live(Last(run).table, fd) {
      var a, b := LiveEntryIs(resp, run, steps, fd);
    }
    if a :| OpenSince(resp, run, steps, fd, a) {
      OpenIsLive(resp, run, steps, fd, a);
    }
  }

  lemma {:induction false} OpenIsLive(resp: string, run: seq<State>, steps: seq<Step>, fd: int, a: nat)
    requires IsRun(resp, run, steps) && OpenSince(resp, run, steps, fd, a)
    ensures Live(Last(run).table, fd)
  {
    var r, q, s, step := run[..|run|-1], steps[..|steps|-1], run[|steps|-1], Last(steps);
    PathPrefix(NextOf(resp), run, steps);
    OneStepFurther(resp, run, steps, fd, a, 0);
    if a < |q| {
      OpenIsLive(resp, r, q, fd, a);
      if Touches(s, step, fd) {
        EntryTouched(resp, s, step, fd);
      } else {
        EntryUntouched(resp, s, step, fd);
      }
    }
  }

  /** The timeout, read off the steps: a live entry is expired at `tm` exactly if
      the latest accept, append or write for it was 30 seconds ago or more. */
  lemma {:induction false} ExpiredIff(resp: string, run: seq<State>, steps: seq<Step>, fd: int, b: nat, tm: int)
    requires IsRun(resp, run, steps) && Live(Last(run).table, fd) && LatestTouch(run, steps, fd, b)
    ensures Last(run).table.fds[fd].value.lastAlive == NowOf(steps[b])
    ensures Expired(Last(run).table, fd, tm) <==> tm - NowOf(steps[b]) >= 30
  {
    var a, c := LiveEntryIs(resp, run, steps, fd);
    assert b == c by {
      assert steps[b] == steps[b] && steps[c] == steps[c];
    }
  }

  // ---- A pass of the sweep ----

  lemma ExpireOne(resp: string, run0: seq<State>, steps0: seq<Step>, fd: int, tm: int)
      returns (run: seq<State>, steps: seq<Step>)
    requires IsRun(resp, run0, steps0) && !Last(run0).crashed && Last(run0).noticed.None?
    requires Expired(Last(run0).table, fd, tm)
    ensures IsRun(resp, run, steps) && Last(run) == Last(run0).(table := Cleared(Last(run0).table, {fd}))
    ensures run0 <= run
  {
    var s := Last(run0);
    run, steps := Take(NextOf(resp), run0, steps0, Notice(fd, tm), s.(noticed := Some(fd)));
    run, steps := Take(NextOf(resp), run, steps, Expire, s.(table := Cleared(s.table, {fd})));
  }

  predicate Within(fd: int, s: set<int>) { fd in s }

  /** Undisturbed, the sweep's steps come to what the table's pass does. */
  lemma {:induction false} PassIsSteps(resp: string, run0: seq<State>, steps0: seq<Step>, tm: int)
      returns (run: seq<State>, steps: seq<Step>)
    requires IsRun(resp, run0, steps0) && !Last(run0).crashed && Last(run0).noticed.None?
    ensures IsRun(resp, run, steps) && run0 <= run
    ensures Last(run) == Last(run0).(table := Swept(Last(run0).table, tm))
    decreases ExpiredSet(Last(run0).table, tm)
  {
    var t := Last(run0).table;
    var gone := ExpiredSet(t, tm);
    if gone == {} {
      ClearNothing(t);
      run, steps := run0, steps0;
    } else {
      assert gone == set fd | fd in gone && Within(fd, gone);
      var fd :| fd in gone && Within(fd, gone);
      run, steps := ExpireOne(resp, run0, steps0, fd, tm);
      assert ExpiredSet(Cleared(t, {fd}), tm) == gone - {fd};
      ClearedTwice(t, {fd}, gone - {fd});
      assert {fd} + (gone - {fd}) == gone;
      run, steps := PassIsSteps(resp, run, steps, tm);
    }
  }

  // ---- When a null entry is used ----

  /** The event loop is going to use the entry of `fd`. */
  predicate Awaited(s: State, fd: int) {
    (exists i :: 0 <= i < |s.ready| && s.ready[i].0 == fd) || (s.reading.Some? && s.reading.value.0 == fd)
  }

  /** The sweep closes what the event loop is going to use, or the write branch
      closes what the sweep is about to close. */
  predicate Races(resp: string, s: State, step: Step)
    requires Enabled(resp, s, step)
  {
    match step
    case Expire => Awaited(s, s.noticed.value)
    case Writable(_, r, _) => (r == |resp| || r < 0) && s.noticed == Some(s.ready[0].0)
    case _ => false
  }

  ghost predicate Steady(s: State) {
    && !s.crashed && DistinctEvents(s.ready)
    && (forall i :: 0 <= i < |s.ready| && s.reading.Some? ==> s.ready[i].0 != s.reading.value.0)
    && (forall fd :: Awaited(s, fd) ==> Live(s.table, fd))
    && (s.noticed.Some? ==> Live(s.table, s.noticed.value))
  }

  lemma SteadyStep(resp: string, s: State, step: Step)
    requires Agrees(s.table) && Steady(s) && Enabled(resp, s, step) && !Races(resp, s, step)
    ensures Steady(Apply(resp, s, step))
  {
    var u := Apply(resp, s, step);
    assert s.reading.Some? ==> Awaited(s, s.reading.value.0);
    assert s.ready != [] ==> Awaited(s, s.ready[0].0);
    forall fd | Awaited(u, fd)
      ensures Live(u.table, fd)
    {
      AwaitedBefore(resp, s, step, fd);
    }
  }

  lemma AwaitedBefore(resp: string, s: State, step: Step, fd: int)
    requires Agrees(s.table) && Steady(s) && Enabled(resp, s, step) && !Races(resp, s, step)
    requires Awaited(Apply(resp, s, step), fd)
    ensures Live(Apply(resp, s, step).table, fd)
  {
    if step.Wait? {
      var i :| 0 <= i < |step.events| && step.events[i].0 == fd;
      assert fd in s.table.watched;
      assert fd in LiveSet(s.table);
    } else {
      assert Awaited(s, fd);
      if step.Accept? {
        assert fd in LiveSet(s.table);
      } else if step.Writable? {
        assert s.ready[0].0 != fd;
      }
    }
  }

  /** No step from the `n`-th on races. */
  ghost predicate RaceFreeFrom(resp: string, run: seq<State>, steps: seq<Step>, n: nat)
    requires |run| == |steps| + 1
  {
    forall i {:trigger steps[i]} :: n <= i < |steps| ==> Enabled(resp, run[i], steps[i]) && !Races(resp, run[i], steps[i])
  }

  lemma {:induction false} NoCrashWithoutARace(resp: string, run: seq<State>, steps: seq<Step>)
    requires IsRun(resp, run, steps) && RaceFreeFrom(resp, run, steps, 0)
    ensures !Last(run).crashed && Steady(Last(run))
  {
    if steps != [] {
      var r, q := run[..|run|-1], steps[..|steps|-1];
      PathPrefix(NextOf(resp), run, steps);
      assert forall i :: 0 <= i < |q| ==> r[i] == run[i] && q[i] == steps[i];
      NoCrashWithoutARace(resp, r, q);
      RunAgrees(resp, r, q);
      assert !Races(resp, run[|q|], steps[|q|]);
      SteadyStep(resp, run[|q|], steps[|q|]);
    }
  }

  predicate Dead(s: State, fd: int) { Awaited(s, fd) && !Live(s.table, fd) }

  /** The next step of the event loop when it has something to do. */
  function NextEvent(resp: string, s: State): Step
    requires s.reading.Some? || s.ready != []
  {
    if s.reading.Some? then Append(0)
    else if s.ready[0].1.ReadEvents? then ReadBytes(seq(BUFSIZE, _ => '\0'))
    else Writable(0, 0, 0)
  }

  lemma DeadStaysDead(resp: string, s: State, fd: int)
    requires !s.crashed && Dead(s, fd)
    ensures (s.reading.Some? || s.ready != []) && Enabled(resp, s, NextEvent(resp, s))
    ensures var u := Apply(resp, s, NextEvent(resp, s)); u.crashed || Dead(u, fd)
  {
    var u := Apply(resp, s, NextEvent(resp, s));
    if !u.crashed {
      if i :| 0 <= i < |s.ready| && s.ready[i].0 == fd {
        if u.ready == s.ready {
          assert Awaited(u, fd);
        } else if i > 0 {
          assert u.ready[i - 1].0 == fd;
        }
      }
    }
  }

  /** The event loop works on and comes to the dead entry. */
  lemma {:induction false} WorksUntilTheCrash(resp: string, run0: seq<State>, steps0: seq<Step>, fd: int)
      returns (run: seq<State>, steps: seq<Step>)
    requires IsRun(resp, run0, steps0)
    requires !Last(run0).crashed && Last(run0).noticed.None? && Dead(Last(run0), fd)
    ensures IsRun(resp, run, steps) && run0 <= run && steps0 <= steps
    ensures Last(run).crashed && RaceFreeFrom(resp, run, steps, |steps0|)
    decreases 2 * |Last(run0).ready| + if Last(run0).reading.Some? then 1 else 0
  {
    var s := Last(run0);
    DeadStaysDead(resp, s, fd);
    var step := NextEvent(resp, s);
    var u := Apply(resp, s, step);
    run, steps := Take(NextOf(resp), run0, steps0, step, u);
    if !u.crashed {
      run, steps := WorksUntilTheCrash(resp, run, steps, fd);
    }
    assert run[|steps0|] == s && steps[|steps0|] == step;
  }

  /** `step` after `run0` can be followed by a crash without any further race. */
  ghost predicate CanCrash(resp: string, run0: seq<State>, steps0: seq<Step>, step: Step) {
    exists run, steps :: Crashes(resp, run0, steps0, step, run, steps)
  }

  ghost predicate Crashes(resp: string, run0: seq<State>, steps0: seq<Step>, step: Step, run: seq<State>, steps: seq<Step>) {
    && IsRun(resp, run, steps) && run0 <= run && steps0 + [step] <= steps
    && RaceFreeFrom(resp, run, steps, |steps0| + 1) && Last(run).crashed
  }

  /** Any race can bring the server down. */
  lemma {:induction false} ARaceCanCrash(resp: string, run0: seq<State>, steps0: seq<Step>, step: Step)
      returns (run: seq<State>, steps: seq<Step>)
    requires IsRun(resp, run0, steps0) && Agrees(Last(run0).table) && Steady(Last(run0))
    requires Enabled(resp, Last(run0), step) && Races(resp, Last(run0), step)
    ensures Crashes(resp, run0, steps0, step, run, steps)
  {
    var s := Last(run0);
    var u := Apply(resp, s, step);
    run, steps := Take(NextOf(resp), run0, steps0, step, u);
    if step.Expire? {
      assert Dead(u, s.noticed.value);
      run, steps := WorksUntilTheCrash(resp, run, steps, s.noticed.value);
    } else {
      assert Awaited(s, s.ready[0].0);
      assert !Live(u.table, u.noticed.value) && !Awaited(u, u.noticed.value);
      run, steps := Take(NextOf(resp), run, steps, Expire, u.(crashed := true));
    }
  }

  /** While there has been no race, a step can be followed by a crash (with no
      other race in between) exactly when it races itself. */
  lemma {:induction false} CrashIffRace(resp: string, run0: seq<State>, steps0: seq<Step>, step: Step)
    requires IsRun(resp, run0, steps0) && RaceFreeFrom(resp, run0, steps0, 0) && Enabled(resp, Last(run0), step)
    ensures CanCrash(resp, run0, steps0, step) <==> Races(resp, Last(run0), step)
  {
    if Races(resp, Last(run0), step) {
      NoCrashWithoutARace(resp, run0, steps0);
      RunAgrees(resp, run0, steps0);
      var run, steps := ARaceCanCrash(resp, run0, steps0, step);
    } else {
      forall run, steps | Crashes(resp, run0, steps0, step, run, steps)
        ensures false
      {
        RaceFreeThroughout(resp, run0, steps0, step, run, steps);
        NoCrashWithoutARace(resp, run, steps);
      }
    }
  }

  lemma RaceFreeThroughout(resp: string, run0: seq<State>, steps0: seq<Step>, step: Step, run: seq<State>, steps: seq<Step>)
    requires |run0| == |steps0| + 1 && RaceFreeFrom(resp, run0, steps0, 0)
    requires Enabled(resp, Last(run0), step) && !Races(resp, Last(run0), step)
    requires |run| == |steps| + 1 && run0 <= run && steps0 + [step] <= steps && RaceFreeFrom(resp, run, steps, |steps0| + 1)
    ensures RaceFreeFrom(resp, run, steps, 0)
  {
    forall i | 0 <= i < |steps|
      ensures Enabled(resp, run[i], steps[i]) && !Races(resp, run[i], steps[i])
    {
      if i <= |steps0| {
        assert run[i] == run0[i] && steps[i] == (steps0 + [step])[i];
        assert i < |steps0| ==> steps[i] == steps0[i];
      }
    }
  }

  // ---- A race is possible ----

  /** One client, accepted at time 0. */
  lemma OneClient(resp: string) returns (run: seq<State>, steps: seq<Step>)
    ensures IsRun(resp, run, steps) && Last(run) == Initial().(table := Accepted(HttpTable.Initial(), 5, 0))
  {
    run, steps := [Initial()], [];
    run, steps := Take(NextOf(resp), run, steps, Accept(5, 0), Initial().(table := Accepted(HttpTable.Initial(), 5, 0)));
  }

  /** Its first request comes after 30 seconds, just when the sweep has looked at it. */
  lemma SweepCanCrashTheServer(resp: string) returns (run: seq<State>, steps: seq<Step>)
    ensures IsRun(resp, run, steps) && Last(run).crashed
  {
    run, steps := OneClient(resp);
    var s := Last(run);
    run, steps := Take(NextOf(resp), run, steps, Notice(5, 30), s.(noticed := Some(5)));
    var t := s.(noticed := Some(5), ready := [(5, ReadEvents)]);
    run, steps := Take(NextOf(resp), run, steps, Wait([(5, ReadEvents)]), t);
    assert t.ready[0].0 == 5;
    run, steps := Take(NextOf(resp), run, steps, Expire, t.(noticed := None, table := Cleared(t.table, {5})));
    assert Last(run).ready[0].0 == 5;
    run, steps := WorksUntilTheCrash(resp, run, steps, 5);
  }

  /** Or its request is served in between: the sweep closes a client that has
      just been active. */
  lemma ActiveClientIsClosed(resp: string) returns (run: seq<State>, steps: seq<Step>)
    ensures IsRun(resp, run, steps) && steps != [] && Last(steps) == Expire
    ensures Live(run[|steps|-1].table, 5) && run[|steps|-1].table.fds[5].value.lastAlive == 30
    ensures Last(run).table.fds == map[5 := None] && !Last(run).crashed
    ensures exists i :: 0 <= i < |steps| && steps[i] == Notice(5, 30)
  {
    run, steps := OneClient(resp);
    var s := Last(run);
    run, steps := Take(NextOf(resp), run, steps, Notice(5, 30), s.(noticed := Some(5)));
    ghost var at := |steps| - 1;
    var t := s.(noticed := Some(5), ready := [(5, ReadEvents)]);
    run, steps := Take(NextOf(resp), run, steps, Wait([(5, ReadEvents)]), t);
    var buf := seq(BUFSIZE, _ => 'x');
    var u := s.(noticed := Some(5), reading := Some((5, buf)));
    run, steps := Take(NextOf(resp), run, steps, ReadBytes(buf), u);
    var v := s.(noticed := Some(5), table := Answering(s.table, 5, buf, 30));
    run, steps := Take(NextOf(resp), run, steps, Append(30), v);
    run, steps := Take(NextOf(resp), run, steps, Expire, v.(noticed := None, table := Cleared(v.table, {5})));
    assert steps[at] == Notice(5, 30);
  }

  lemma StillIdle(resp: string, s: State, step: Step, fd: int, tm: int)
    requires Enabled(resp, s, step) && s.noticed == Some(fd) && Expired(s.table, fd, tm)
    requires step != Expire && !Touches(s, step, fd)
    ensures Apply(resp, s, step).noticed == Some(fd) && Expired(Apply(resp, s, step).table, fd, tm)
  {}

  /** An entry that the event loop leaves alone between the sweep's look and its
      lock is still as idle as it was then. */
  lemma {:induction false} UntouchedIsStillIdle(resp: string, run: seq<State>, steps: seq<Step>, i: nat, j: nat, fd: int, tm: int)
    requires IsRun(resp, run, steps) && i < j < |run| && steps[i] == Notice(fd, tm)
    requires forall k {:trigger steps[k]} :: i < k < j ==> steps[k] != Expire && !Touches(run[k], steps[k], fd)
    ensures run[j].noticed == Some(fd) && Expired(run[j].table, fd, tm)
  {
    var m := j - 1;
    StepAt(resp, run, steps, m);
    if i < m {
      UntouchedIsStillIdle(resp, run, steps, i, m, fd, tm);
      StillIdle(resp, run[m], steps[m], fd, tm);
    }
  }

  lemma StepAt(resp: string, run: seq<State>, steps: seq<Step>, i: nat)
    requires IsRun(resp, run, steps) && i < |steps|
    ensures Enabled(resp, run[i], steps[i]) && run[i+1] == Apply(resp, run[i], steps[i])
  {
    assert NextOf(resp)(run[i], steps[i], run[i+1]);
  }

  // ---- What a connection is sent ----

  /** No write of a positive count returns 0. */
  predicate NoZeroWrites(steps: seq<Step>) { forall i :: 0 <= i < |steps| && steps[i].Writable? ==> steps[i].r != 0 }

  lemma OutputsStep(resp: string, s: State, step: Step)
    requires OutputsOk(s.table, resp) && Enabled(resp, s, step)
    ensures OutputsOk(Apply(resp, s, step).table, resp)
  {
    if step.Writable? && Live(s.table, s.ready[0].0) {
      WrittenOutputs(s.table, resp, s.ready[0].0, step.k, step.r, step.now);
    }
  }

  /** In every run, a connection that the write branch closed was sent some
      proper prefixes of the response, each from its start, and then one last
      attempt, which was whole exactly when the lengths were equal. */
  lemma {:induction false} ClosedConnectionsGotResponses(resp: string, run: seq<State>, steps: seq<Step>)
    requires IsRun(resp, run, steps)
    ensures OutputsOk(Last(run).table, resp)
  {
    if steps != [] {
      PathPrefix(NextOf(resp), run, steps);
      ClosedConnectionsGotResponses(resp, run[..|run|-1], steps[..|steps|-1]);
      OutputsStep(resp, run[|steps|-1], Last(steps));
    }
  }

  lemma OneAttemptStep(resp: string, s: State, step: Step)
    requires OneAttempt(s.table) && Enabled(resp, s, step)
    requires step.Writable? ==> step.r != 0
    ensures OneAttempt(Apply(resp, s, step).table)
  {
    var u := Apply(resp, s, step).table;
    if step.Writable? && Live(s.table, s.ready[0].0) {
      assert forall x :: x != s.ready[0].0 && Live(u, x) ==> Live(s.table, x) && u.fds[x] == s.table.fds[x];
    }
  }

  lemma {:induction false} RunOneAttempt(resp: string, run: seq<State>, steps: seq<Step>)
    requires IsRun(resp, run, steps) && NoZeroWrites(steps)
    ensures OneAttempt(Last(run).table)
  {
    if steps != [] {
      PathPrefix(NextOf(resp), run, steps);
      RunOneAttempt(resp, run[..|run|-1], steps[..|steps|-1]);
      assert steps[|steps|-1] == Last(steps);
      OneAttemptStep(resp, run[|steps|-1], Last(steps));
    }
  }

  /** Without writes of 0 bytes a closed connection was sent a prefix of one
      response; it was sent all of it exactly when the lengths were equal. */
  lemma ClosedConnectionsGotOneResponse(resp: string, run: seq<State>, steps: seq<Step>, i: nat)
    requires IsRun(resp, run, steps) && NoZeroWrites(steps) && i < |Last(run).table.closed|
    ensures var (ws, complete) := Last(run).table.closed[i]; Flatten(ws) <= resp && (complete <==> Flatten(ws) == resp)
  {
    ClosedConnectionsGotResponses(resp, run, steps);
    RunOneAttempt(resp, run, steps);
    var (ws, complete) := Last(run).table.closed[i];
    assert Attempts(ws, complete, resp);
    FlattenOne(ws);
  }

  /** A client whose request has been read. */
  lemma OneRequest(resp: string) returns (run: seq<State>, steps: seq<Step>)
    ensures IsRun(resp, run, steps)
    ensures var s := Last(run);
      && s == Initial().(table := s.table) && s.table.watched == map[5 := WriteEvents]
      && s.table.fds.Keys == {5} && s.table.fds[5].Some? && s.table.fds[5].value.writes == [] && s.table.closed == []
  {
    run, steps := OneClient(resp);
    var s := Last(run);
    var buf := seq(BUFSIZE, _ => 'x');
    run, steps := Take(NextOf(resp), run, steps, Wait([(5, ReadEvents)]), s.(ready := [(5, ReadEvents)]));
    run, steps := Take(NextOf(resp), run, steps, ReadBytes(buf), s.(reading := Some((5, buf))));
    run, steps := Take(NextOf(resp), run, steps, Append(0), s.(table := Answering(s.table, 5, buf, 0)));
  }

  /** A writable client can be written to with any outcome of the write loop. */
  lemma OneWrite(resp: string, run0: seq<State>, steps0: seq<Step>, k: nat, r: int)
      returns (run: seq<State>, steps: seq<Step>)
    requires IsRun(resp, run0, steps0) && k <= |resp| && WriteOutcome(resp, k, r)
    requires var s := Last(run0);
      && s == Initial().(table := s.table)
      && 5 in s.table.watched && s.table.watched[5] == WriteEvents && Live(s.table, 5)
    ensures IsRun(resp, run, steps)
    ensures Last(run) == Last(run0).(table := Written(Last(run0).table, resp, 5, k, r, 0))
  {
    var s := Last(run0);
    run, steps := Take(NextOf(resp), run0, steps0, Wait([(5, WriteEvents)]), s.(ready := [(5, WriteEvents)]));
    run, steps := Take(NextOf(resp), run, steps, Writable(k, r, 0), s.(table := Written(s.table, resp, 5, k, r, 0)));
  }

  /** A write takes one byte and the next one none: the response is later sent from its start. */
  lemma ResponseIsRepeated(resp: string) returns (run: seq<State>, steps: seq<Step>)
    requires |resp| >= 2
    ensures IsRun(resp, run, steps)
    ensures Last(run).table.closed == [([resp[..1], resp], true)]
  {
    run, steps := OneRequest(resp);
    run, steps := OneWrite(resp, run, steps, 1, 0);
    assert Last(run).table.fds[5].value.writes == [] + [resp[..1]];
    var t := Last(run).table;
    run, steps := OneWrite(resp, run, steps, |resp|, |resp|);
    assert resp[..|resp|] == resp;
    assert Recorded(t, 5, resp[..|resp|], 0).fds[5].value.writes == [] + [resp[..1]] + [resp] == [resp[..1], resp];
  }

  /** No closed connection was sent more than one response. */
  ghost predicate NeverRepeats(resp: string) {
    forall run, steps, i | IsRun(resp, run, steps) && 0 <= i < |Last(run).table.closed| ::
      Flatten(Last(run).table.closed[i].0) <= resp
  }

  /** That is so in all runs exactly when no write can take part of the response. */
  lemma {:induction false} NeverRepeatsIff(resp: string)
    ensures NeverRepeats(resp) <==> |resp| <= 1
  {
    if |resp| <= 1 {
      forall run, steps, i | IsRun(resp, run, steps) && 0 <= i < |Last(run).table.closed|
        ensures Flatten(Last(run).table.closed[i].0) <= resp
      {
        ClosedConnectionsGotResponses(resp, run, steps);
        var ws := Last(run).table.closed[i].0;
        assert Attempts(ws, Last(run).table.closed[i].1, resp);
        OnlyTheLast(ws);
      }
    } else {
      var run, steps := ResponseIsRepeated(resp);
      var ws := Last(run).table.closed[0].0;
      assert ws == [resp[..1]] + [resp];
      FlattenSnoc([resp[..1]], resp);
      FlattenOne([resp[..1]]);
      assert |Flatten(ws)| == |resp| + 1;
      assert !(Flatten(ws) <= resp);
    }
  }
}
