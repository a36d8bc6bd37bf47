/** The server's code (class netapi and class server), each piece proved to be a
    step of the step system in NetServer.
 */
module NetCode {
  import opened Bytes
  import opened Messages
  import opened NetParser
  import opened NetServer
  import opened Runs

  class NetApi {
    const processName: string
    var recvsock: seq<int>
    var regtable: map<string, int>

    // The handler threads, and the kernel's side of their sockets.
    var threads: seq<Phase>
    var arrived: map<int, string>
    var cursor: map<int, nat>
    var log: seq<Event>
    /** The message texts shown by local delivery, oldest first. */
    var shown: seq<string>

    ghost function View(): Server
      reads this
    {
      Server(processName, recvsock, threads, regtable, arrived, cursor, log)
    }

    constructor (name: string)
      ensures View() == Initial(name) && shown == []
    {
      processName := name;
      recvsock, regtable, threads := [], map[], [];
      arrived, cursor, log, shown := map[], map[], [], [];
    }

    /** Queues the new socket and creates a handler, which may start at any later time. */
    method ServerHandleAccept(newSock: int)
      requires Enabled(View(), Accept(newSock))
      modifies this
      ensures View() == Apply(old(View()), Accept(newSock)) && shown == old(shown)
    {
      arrived, cursor := arrived[newSock := ""], cursor[newSock := 0];
      recvsock := recvsock + [newSock];
      threads := threads + [Unstarted];
    }

    /** The entry of a handler thread: it takes whatever socket is at the back now. */
    method MsgHandleCalling(k: nat)
      requires Enabled(View(), Start(k))
      modifies this`threads
      ensures View() == Apply(old(View()), Start(k))
    {
      var sockfd := recvsock[|recvsock|-1];
      threads := threads[k := Idle(sockfd)];
    }

    /** A `recv` that finds the full count. */
    method Recv(sock: int, n: nat) returns (buf: array<char>)
      requires CanRead(View(), sock, n)
      modifies this`cursor
      ensures fresh(buf) && buf.Length == n && buf[..] == Unread(old(View()), sock, n)
      ensures View() == Consume(old(View()), sock, n)
    {
      buf := new char[n];
      var at := cursor[sock];
      for i := 0 to n
        invariant buf[..i] == arrived[sock][at..at + i]
        invariant cursor == old(cursor)
      {
        buf[i] := arrived[sock][at + i];
      }
      cursor := cursor[sock := at + n];
    }

    method Regist(procName: string, recvSockFd: int)
      modifies this`regtable
      ensures regtable == Insert(old(regtable), procName, recvSockFd)
    {
      if procName !in regtable {
        regtable := regtable[procName := recvSockFd];
      }
    }

    /** The first half of `handle_msghead`: receive, parse, maybe register. */
    method ReceiveHead(k: nat) returns (headBuf: array<char>, h: Head)
      requires Enabled(View(), ReadHead(k))
      modifies this`cursor, this`regtable, this`threads
      ensures View() == Apply(old(View()), ReadHead(k))
      ensures fresh(headBuf) && headBuf.Length == HEAD_BYTES
      ensures threads[k] == HasHead(old(threads)[k].sock, headBuf[..])
      ensures h == DecodeHead(headBuf[..])
    {
      var sockfd := threads[k].sock;
      headBuf := Recv(sockfd, 60);
      h := ParseHead(headBuf);
      if h.kind == "reg" {
        Regist(h.srcName, recvsock[|recvsock|-1]);
      }
      threads := threads[k := HasHead(sockfd, headBuf[..])];
    }

    /** Local delivery: show the body up to its padding. */
    method HandleMsgBody(k: nat, headBuf: array<char>, sendOk: bool)
      requires Enabled(View(), ReadBody(k, sendOk))
      requires headBuf.Length == HEAD_BYTES && headBuf[..] == threads[k].head
      requires DecodeHead(headBuf[..]).destName == processName
      modifies this`cursor, this`threads, this`log, this`shown
      ensures View() == Apply(old(View()), ReadBody(k, sendOk))
      ensures shown == old(shown) + [DecodeBody(Last(log).frame[HEAD_BYTES..])]
    {
      var sockfd := threads[k].sock;
      var buf := Recv(sockfd, 40);
      var text := ParseBody(buf);
      shown := shown + [text];
      threads := threads[k := Idle(sockfd)];
      var frame := headBuf[..] + buf[..];
      assert frame[..60] == headBuf[..] && frame[60..] == buf[..];
      log := log + [Delivered(k, frame)];
    }

    /** Relay: put head and body together again and send them on. */
    method RelayBody(k: nat, headBuf: array<char>, h: Head, sendOk: bool)
      requires Enabled(View(), ReadBody(k, sendOk))
      requires headBuf.Length == HEAD_BYTES && headBuf[..] == threads[k].head
      requires h == DecodeHead(headBuf[..]) && h.destName != processName
      modifies this`cursor, this`threads, this`log
      ensures View() == Apply(old(View()), ReadBody(k, sendOk))
    {
      var sockfd := threads[k].sock;
      var bodyBuf := Recv(sockfd, 40);
      var transBuf := FillTransBuf(headBuf, bodyBuf);
      var transSock := FindSock(regtable, h.destName);
      assert transBuf[..][..60] == headBuf[..];
      if sendOk && transSock != 0 {
        log := log + [Relayed(k, transSock, transBuf[..])];
      } else {
        log := log + [Lost(k, transSock, transBuf[..])];
      }
      threads := threads[k := Idle(sockfd)];
    }

    /** One undisturbed call: whichever branch is taken, 100 bytes are consumed
        and one frame is accounted for. */
    method HandleMsgHead(k: nat, sendOk: bool)
      requires Enabled(View(), ReadHead(k)) && CanRead(View(), threads[k].sock, FRAME_BYTES)
      modifies this
      ensures Enabled(Apply(old(View()), ReadHead(k)), ReadBody(k, sendOk))
      ensures View() == Apply(Apply(old(View()), ReadHead(k)), ReadBody(k, sendOk))
      ensures cursor == old(cursor)[old(threads)[k].sock := old(cursor)[old(threads)[k].sock] + FRAME_BYTES]
      ensures |log| == |old(log)| + 1 && Last(log).frame == Unread(old(View()), old(threads)[k].sock, FRAME_BYTES)
    {
      ghost var start := View();
      var headBuf, h := ReceiveHead(k);
      ghost var middle := View();
      assert Unread(start, start.threads[k].sock, FRAME_BYTES)
        == middle.threads[k].head + Unread(middle, start.threads[k].sock, BODY_BYTES);
      if h.destName == processName {
        HandleMsgBody(k, headBuf, sendOk);
      } else {
        RelayBody(k, headBuf, h, sendOk);
      }
    }
  }
}
