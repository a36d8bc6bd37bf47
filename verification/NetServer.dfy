/** The message server as a step system (netapi.cpp, server.cpp). Each accepted
    connection gets a thread; threads interleave between any two `recv` calls.
 */
module NetServer {
  import opened Bytes
  import opened Messages
  import opened NetParser
  import opened Runs

  /** Where a handler thread stands. `sock` is the descriptor it read from the
      back of the queue when it started. */
  datatype Phase = Unstarted | Idle(sock: int) | HasHead(sock: int, head: string)

  /** What became of one frame. `handler` is the number of the thread that read it. */
  datatype Event =
    | Delivered(handler: nat, frame: string)
    | Relayed(handler: nat, dest: int, frame: string)
    | Lost(handler: nat, dest: int, frame: string)

  /** `arrived` is everything a connection's peer has sent so far, `cursor` how
      much of it has been received, `log` what has been printed or sent. */
  datatype Server = Server(
    name: string,
    recvsock: seq<int>,
    threads: seq<Phase>,
    regtable: map<string, int>,
    arrived: map<int, string>,
    cursor: map<int, nat>,
    log: seq<Event>)

  datatype Step =
    | Accept(sock: int)
    | Arrive(from: int, bytes: string)
    | Start(k: nat)
    | ReadHead(k: nat)
    | ReadBody(k: nat, sendOk: bool)

  function Initial(name: string): Server { Server(name, [], [], map[], map[], map[], []) }

  function Back(q: seq<int>): int
    requires q != []
  {
    q[|q|-1]
  }

  predicate CanRead(s: Server, sock: int, n: nat) {
    sock in s.arrived && sock in s.cursor && s.cursor[sock] + n <= |s.arrived[sock]|
  }

  function Unread(s: Server, sock: int, n: nat): string
    requires CanRead(s, sock, n)
  {
    s.arrived[sock][s.cursor[sock]..s.cursor[sock] + n]
  }

  /** `accept` hands out a descriptor that is not open; none of them is ever closed. */
  predicate Enabled(s: Server, step: Step) {
    match step
    case Accept(sock) => sock > 0 && sock !in s.recvsock
    case Arrive(from, _) => from in s.arrived
    case Start(k) => k < |s.threads| && s.threads[k].Unstarted? && s.recvsock != []
    case ReadHead(k) =>
      && k < |s.threads| && s.threads[k].Idle? && s.recvsock != []
      && CanRead(s, s.threads[k].sock, HEAD_BYTES)
    case ReadBody(k, _) =>
      && k < |s.threads| && s.threads[k].HasHead? && |s.threads[k].head| == HEAD_BYTES
      && CanRead(s, s.threads[k].sock, BODY_BYTES)
  }

  /** `map::insert`: an existing key keeps its value. */
  function Insert(t: map<string, int>, key: string, value: int): map<string, int> {
    if key in t then t else t[key := value]
  }

  function Consume(s: Server, sock: int, n: nat): Server
    requires CanRead(s, sock, n)
  {
    s.(cursor := s.cursor[sock := s.cursor[sock] + n])
  }

  function AfterHead(s: Server, k: nat): Server
    requires Enabled(s, ReadHead(k))
  {
    var sock := s.threads[k].sock;
    var bytes := Unread(s, sock, HEAD_BYTES);
    var h := DecodeHead(bytes);
    var table := if h.kind == "reg" then Insert(s.regtable, h.srcName, Back(s.recvsock)) else s.regtable;
    Consume(s, sock, HEAD_BYTES).(threads := s.threads[k := HasHead(sock, bytes)], regtable := table)
  }

  /** `sendOk` is the kernel's choice, but descriptor 0, which stands for an
      unknown name, is not a socket: `send` fails on it. */
  function EventFor(s: Server, k: nat, frame: string, sendOk: bool): Event
    requires |frame| == FRAME_BYTES
  {
    var dest := LookUp(s.regtable, DestName(frame));
    if DestName(frame) == s.name then Delivered(k, frame)
    else if sendOk && dest != 0 then Relayed(k, dest, frame)
    else Lost(k, dest, frame)
  }

  function AfterBody(s: Server, k: nat, sendOk: bool): Server
    requires Enabled(s, ReadBody(k, sendOk))
  {
    var sock := s.threads[k].sock;
    var frame := s.threads[k].head + Unread(s, sock, BODY_BYTES);
    Consume(s, sock, BODY_BYTES).(threads := s.threads[k := Idle(sock)],
                                  log := s.log + [EventFor(s, k, frame, sendOk)])
  }

  function Apply(s: Server, step: Step): Server
    requires Enabled(s, step)
  {
    match step
    case Accept(sock) =>
      s.(recvsock := s.recvsock + [sock], threads := s.threads + [Unstarted],
         arrived := s.arrived[sock := ""], cursor := s.cursor[sock := 0])
    case Arrive(from, bytes) => s.(arrived := s.arrived[from := s.arrived[from] + bytes])
    case Start(k) => s.(threads := s.threads[k := Idle(Back(s.recvsock))])
    case ReadHead(k) => AfterHead(s, k)
    case ReadBody(k, sendOk) => AfterBody(s, k, sendOk)
  }

  ghost predicate Next(s: Server, step: Step, t: Server) { Enabled(s, step) && t == Apply(s, step) }

  /** A schedule of the server from its start. */
  ghost predicate IsRun(name: string, run: seq<Server>, steps: seq<Step>) {
    Path(Next, run, steps) && run[0] == Initial(name)
  }

  // ---- Reading the log ----

  /** The name a frame is addressed to. */
  function DestName(frame: string): string
    requires |frame| == FRAME_BYTES
  {
    DecodeHead(frame[..HEAD_BYTES]).destName
  }

  /** Frames of the events that satisfy `p`, oldest first. */
  function Select(log: seq<Event>, p: Event -> bool): seq<string> {
    if log == [] then [] else
      Select(log[..|log|-1], p) + if p(Last(log)) then [Last(log).frame] else []
  }

  function FramesBy(log: seq<Event>, k: nat): seq<string> {
    Select(log, (e: Event) => e.handler == k)
  }

  /** Frames that `send` put on descriptor `d`. */
  function SentTo(log: seq<Event>, d: int): seq<string> {
    Select(log, (e: Event) => e.Relayed? && e.dest == d)
  }

  /** All bytes that went out on descriptor `d`. */
  function Wire(log: seq<Event>, d: int): string { Flatten(SentTo(log, d)) }

  /** Frames thread `k` tried to send to `d`, whether or not `send` succeeded. */
  function AttemptsBy(log: seq<Event>, k: nat, d: int): seq<string> {
    Select(log, (e: Event) => e.handler == k && !e.Delivered? && e.dest == d)
  }

  function Keep(fs: seq<string>, p: string -> bool): seq<string> {
    if fs == [] then [] else
      Keep(fs[..|fs|-1], p) + if p(Last(fs)) then [Last(fs)] else []
  }

  function AddressedTo(fs: seq<string>, n: string): seq<string> {
    Keep(fs, f => |f| == FRAME_BYTES && DestName(f) == n)
  }

  lemma SelectSnoc(log: seq<Event>, e: Event, p: Event -> bool)
    ensures Select(log + [e], p) == Select(log, p) + if p(e) then [e.frame] else []
  {
    assert (log + [e])[..|log|] == log;
  }

  lemma {:induction false} SelectConcat(log: seq<Event>, more: seq<Event>, p: Event -> bool)
    ensures Select(log + more, p) == Select(log, p) + Select(more, p)
  {
    if more == [] {
      assert log + more == log;
    } else {
      var init := more[..|more|-1];
      assert log + more == (log + init) + [Last(more)];
      SelectSnoc(log + init, Last(more), p);
      SelectConcat(log, init, p);
    }
  }

  /** Every selected frame is the frame of some selected event. */
  lemma {:induction false} SelectedFrame(log: seq<Event>, p: Event -> bool, x: nat)
    requires x < |Select(log, p)|
    ensures exists i :: 0 <= i < |log| && p(log[i]) && log[i].frame == Select(log, p)[x]
  {
    var init := log[..|log|-1];
    if x < |Select(init, p)| {
      SelectedFrame(init, p, x);
      var i :| 0 <= i < |init| && p(init[i]) && init[i].frame == Select(init, p)[x];
      assert log[i] == init[i];
    }
  }

  lemma {:induction false} SelectedEvent(log: seq<Event>, p: Event -> bool, i: nat)
    requires i < |log| && p(log[i])
    ensures log[i].frame in Select(log, p)
  {
    if i < |log| - 1 {
      SelectedEvent(log[..|log|-1], p, i);
    }
  }
}
