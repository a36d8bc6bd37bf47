/** The connection table of the HTTP server (main.cpp). */
module HttpTable {
  import opened Bytes
  import opened HttpIO
  import opened Runs

  datatype Option<T> = None | Some(value: T)

  const TIMEOUT: int := 30
  const BUFSIZE: int := 8192

  /** A client entry: its descriptor, the time it was last active, the read
      buffer, and (for the statements below) what each call of `writen` put out,
      oldest first. */
  datatype ClientState = ClientState(fd: int, lastAlive: int, readBuf: string, writes: seq<string>)

  /** What a descriptor in the epoll set is watched for. */
  datatype Interest = ReadEvents | WriteEvents

  /** `open` and `watched` are the kernel's open connections and its epoll set;
      `freed` counts deleted clients, `made` allocated ones; `closed` has the
      writes of each connection closed by the write branch, oldest first, and
      whether the last one was complete. */
  datatype Table = Table(
    fds: map<int, Option<ClientState>>, open: set<int>, watched: map<int, Interest>,
    made: nat, freed: nat, closed: seq<(seq<string>, bool)>)

  function Initial(): Table { Table(map[], {}, map[], 0, 0, []) }

  predicate Live(t: Table, fd: int) { fd in t.fds && t.fds[fd].Some? }

  predicate Expired(t: Table, fd: int, tm: int) {
    Live(t, fd) && tm - t.fds[fd].value.lastAlive >= TIMEOUT
  }

  function Accepted(t: Table, fd: int, now: int): Table {
    t.(fds := t.fds[fd := Some(ClientState(fd, now, "", []))], open := t.open + {fd},
       watched := t.watched[fd := ReadEvents], made := t.made + 1)
  }

  /** The whole buffer is appended, however little was read; then the descriptor
      is watched for output. */
  function Answering(t: Table, fd: int, buf: string, now: int): Table
    requires Live(t, fd)
  {
    var c := t.fds[fd].value;
    t.(fds := t.fds[fd := Some(c.(lastAlive := now, readBuf := c.readBuf + buf))],
       watched := t.watched[fd := WriteEvents])
  }

  function Recorded(t: Table, fd: int, bytes: string, now: int): Table
    requires Live(t, fd)
  {
    var c := t.fds[fd].value;
    t.(fds := t.fds[fd := Some(c.(lastAlive := now, writes := c.writes + [bytes]))])
  }

  /** The entries of `gone` are cleared, closed, unwatched and deleted. */
  function Cleared(t: Table, gone: set<int>): Table {
    t.(fds := map fd | fd in t.fds :: if fd in gone then None else t.fds[fd],
       open := t.open - gone, watched := t.watched - gone, freed := t.freed + |gone|)
  }

  function Closed(t: Table, fd: int, complete: bool): Table
    requires Live(t, fd)
  {
    Cleared(t, {fd}).(closed := t.closed + [(t.fds[fd].value.writes, complete)])
  }

  function Written(t: Table, resp: string, fd: int, k: nat, r: int, now: int): Table
    requires Live(t, fd) && k <= |resp|
  {
    var u := Recorded(t, fd, resp[..k], now);
    if r == |resp| || r < 0 then Closed(u, fd, r == |resp|) else u
  }

  function ExpiredSet(t: Table, tm: int): set<int> { set fd | fd in t.fds && Expired(t, fd, tm) }

  function Swept(t: Table, tm: int): Table { Cleared(t, ExpiredSet(t, tm)) }

  // ---- The table, the open descriptors and the epoll set ----

  function LiveSet(t: Table): set<int> { set fd | fd in t.fds && Live(t, fd) }

  ghost predicate Agrees(t: Table) {
    && LiveSet(t) == t.open && t.open == t.watched.Keys
    && (forall fd :: Live(t, fd) ==> t.fds[fd].value.fd == fd)
    && t.made == t.freed + |t.open|
  }

  /** An entry is entered or changed: its descriptor is open and watched. */
  lemma EntryAgrees(t: Table, u: Table, fd: int, c: ClientState)
    requires Agrees(t) && u.fds == t.fds[fd := Some(c)] && c.fd == fd
    requires u.open == t.open + {fd} && u.watched.Keys == t.watched.Keys + {fd}
    requires u.freed == t.freed && u.made == t.made + if fd in t.open then 0 else 1
    ensures Agrees(u)
  {
    assert LiveSet(u) == LiveSet(t) + {fd};
    if fd in t.open {
      assert u.open == t.open;
    }
  }

  lemma ClosedAgrees(t: Table, fd: int, complete: bool)
    requires Agrees(t) && Live(t, fd)
    ensures Agrees(Closed(t, fd, complete))
  {
    var u := Closed(t, fd, complete);
    assert fd in LiveSet(t);
    assert LiveSet(u) == LiveSet(t) - {fd};
    assert u.watched.Keys == t.watched.Keys - {fd};
  }

  lemma ExpiryAgrees(t: Table, fd: int)
    requires Agrees(t) && Live(t, fd)
    ensures Agrees(Cleared(t, {fd}))
  {
    ClosedAgrees(t, fd, false);
    assert LiveSet(Cleared(t, {fd})) == LiveSet(Closed(t, fd, false));
  }

  lemma ClearNothing(t: Table)
    ensures Cleared(t, {}) == t
  {
    assert t.open - {} == t.open && t.watched - {} == t.watched;
  }

  lemma ClearedTwice(t: Table, gone: set<int>, more: set<int>)
    requires gone !! more
    ensures Cleared(Cleared(t, gone), more) == Cleared(t, gone + more)
  {
    assert (t.open - gone) - more == t.open - (gone + more);
    assert (t.watched - gone) - more == t.watched - (gone + more);
    assert |gone + more| == |gone| + |more|;
  }

  lemma NothingExpiresAgain(t: Table, tm: int)
    ensures ExpiredSet(Swept(t, tm), tm) == {}
  {
    var u := Swept(t, tm);
    forall fd | fd in u.fds
      ensures !Expired(u, fd, tm)
    {
      assert fd in t.fds && (u.fds[fd] == None || u.fds[fd] == t.fds[fd]);
    }
  }

  /** A sweep leaves open exactly the live entries idle for less than 30 seconds;
      a second one at the same time finds nothing to do. */
  lemma SweepClearsExactlyTheIdle(t: Table, tm: int)
    requires Agrees(t)
    ensures forall fd :: fd in Swept(t, tm).open <==> fd in t.open && Live(t, fd) && tm - t.fds[fd].value.lastAlive < 30
    ensures Swept(Swept(t, tm), tm) == Swept(t, tm)
  {
    var u := Swept(t, tm);
    forall fd
      ensures fd in u.open <==> fd in t.open && Live(t, fd) && tm - t.fds[fd].value.lastAlive < 30
    {
      assert fd in t.open <==> fd in LiveSet(t);
    }
    NothingExpiresAgain(t, tm);
    ClearNothing(u);
  }

  // ---- What a connection is sent ----

  predicate Partial(ws: seq<string>, resp: string) { forall i :: 0 <= i < |ws| ==> ws[i] < resp }

  /** Some unfinished attempts, then one that ended the connection. */
  predicate Attempts(ws: seq<string>, complete: bool, resp: string) {
    && ws != [] && Partial(ws[..|ws|-1], resp) && Last(ws) <= resp
    && (complete <==> Last(ws) == resp)
  }

  ghost predicate OutputsOk(t: Table, resp: string) {
    && (forall fd :: Live(t, fd) ==> Partial(t.fds[fd].value.writes, resp))
    && forall i :: 0 <= i < |t.closed| ==> Attempts(t.closed[i].0, t.closed[i].1, resp)
  }

  lemma WrittenOutputs(t: Table, resp: string, fd: int, k: nat, r: int, now: int)
    requires OutputsOk(t, resp) && Live(t, fd) && k <= |resp| && WriteOutcome(resp, k, r)
    ensures OutputsOk(Written(t, resp, fd, k, r, now), resp)
  {
    var u := Written(t, resp, fd, k, r, now);
    var ws := t.fds[fd].value.writes;
    assert (ws + [resp[..k]])[..|ws|] == ws;
    assert forall x :: x != fd && Live(u, x) ==> Live(t, x) && u.fds[x] == t.fds[x];
  }

  ghost predicate OneAttempt(t: Table) {
    && (forall fd :: Live(t, fd) ==> t.fds[fd].value.writes == [])
    && forall i :: 0 <= i < |t.closed| ==> |t.closed[i].0| == 1
  }

  lemma FlattenOne(ws: seq<string>)
    requires |ws| == 1
    ensures Flatten(ws) == ws[0]
  {
    assert [] + [ws[0]] == ws;
    FlattenSnoc([], ws[0]);
  }

  lemma {:induction false} OnlyTheLast(ws: seq<string>)
    requires ws != [] && forall i :: 0 <= i < |ws| - 1 ==> ws[i] == ""
    ensures Flatten(ws) == Last(ws)
  {
    var init := ws[..|ws|-1];
    assert ws == init + [Last(ws)];
    FlattenSnoc(init, Last(ws));
    if init == [] {
      assert Flatten(init) == "";
    } else {
      OnlyTheLast(init);
    }
  }
}
