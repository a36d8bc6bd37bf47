/** The server's code around the table: client objects, the three branches of
    the event loop, and the sweep thread's pass (main.cpp).
 */
module HttpCode {
  import opened HttpTable
  import opened HttpIO

  class ClientT {
    var fd: int
    var lastAliveTime: int
    var readBuf: string
    var writeBuf: string
    /** What each call of `writen` put out on this connection. */
    ghost var writes: seq<string>

    constructor (fd: int, now: int)
      ensures this.fd == fd && lastAliveTime == now && readBuf == "" && writes == []
    {
      this.fd, lastAliveTime, readBuf, writeBuf := fd, now, "", "";
      writes := [];
    }
  }

  class HttpServer {
    var fds: map<int, ClientT?>
    var open: set<int>
    var watched: map<int, Interest>
    /** Clients that were allocated and not yet deleted. */
    ghost var heap: set<ClientT>
    ghost var made: nat
    ghost var freed: nat
    ghost var closed: seq<(seq<string>, bool)>

    /** Every live object is reachable from exactly its own table entry. */
    ghost predicate Owned()
      reads this, heap
    {
      && (forall fd :: fd in fds && fds[fd] != null ==> fds[fd] in heap && fds[fd].fd == fd)
      && (forall c :: c in heap ==> c.fd in fds && fds[c.fd] == c)
    }

    ghost function Entry(fd: int): Option<ClientState>
      requires Owned() && fd in fds
      reads this, heap
    {
      if fds[fd] == null then None else Some(ClientState(fds[fd].fd, fds[fd].lastAliveTime, fds[fd].readBuf, fds[fd].writes))
    }

    ghost function View(): Table
      requires Owned()
      reads this, heap
    {
      Table(map fd | fd in fds :: Entry(fd), open, watched, made, freed, closed)
    }

    constructor ()
      ensures Owned() && View() == Initial()
    {
      fds, open, watched := map[], {}, map[];
      heap, made, freed, closed := {}, 0, 0, [];
    }

    /** `delete` of an object that is not allocated would be undefined. */
    method Delete(c: ClientT)
      requires c in heap
      modifies this`heap, this`freed
      ensures heap == old(heap) - {c} && freed == old(freed) + 1
    {
      heap, freed := heap - {c}, freed + 1;
    }

    method HandleAccept(connSock: int, now: int)
      requires Owned() && !Live(View(), connSock)
      modifies this
      ensures Owned() && fresh(heap - old(heap))
      ensures View() == Accepted(old(View()), connSock, now)
    {
      ghost var before := View();
      assert connSock in fds ==> before.fds[connSock] == Entry(connSock) && fds[connSock] == null;
      var clientPtr := new ClientT(connSock, now);
      open, watched := open + {connSock}, watched[connSock := ReadEvents];
      fds := fds[connSock := clientPtr];
      heap, made := heap + {clientPtr}, made + 1;
      assert forall fd :: fd in before.fds && fd != connSock ==> before.fds[fd] == Entry(fd);
    }

    /** Appends the whole buffer, of which `got` bytes were read, and asks for
        output events. The branch for a negative result is never taken. */
    method HandleReadable(fd: int, socket: Socket, now: int) returns (ghost received: string, ghost got: int)
      requires Owned() && fd in fds && fds[fd] != null
      modifies this, heap, socket`readResults, socket`input
      ensures Owned() && heap == old(heap)
      ensures socket.readResults == old(socket.readResults) + [got]
      ensures -1 <= got <= |received| == BUFSIZE
      ensures socket.input == old(socket.input) + received[..if got > 0 then got else 0]
      ensures forall i :: 0 <= i < BUFSIZE && got <= i ==> received[i] == '\0'
      ensures View() == Answering(old(View()), fd, received, now)
    {
      var n, bytes;
      n, bytes, got := Receive(socket);
      received := bytes;
      Append(fd, bytes, now);
      assert n >= 0;
      watched := watched[fd := WriteEvents];
    }

    /** The content of a zeroed buffer after one call of `readn`. */
    static method Receive(socket: Socket) returns (n: int, bytes: string, ghost got: int)
      modifies socket`readResults, socket`input
      ensures n >= 0 && socket.readResults == old(socket.readResults) + [got]
      ensures -1 <= got <= |bytes| == BUFSIZE
      ensures socket.input == old(socket.input) + bytes[..if got > 0 then got else 0]
      ensures forall i :: 0 <= i < BUFSIZE && got <= i ==> bytes[i] == '\0'
    {
      var buf := new char[BUFSIZE](_ => '\0');
      n, got := Readn(socket, buf);
      bytes := buf[..];
    }

    method Append(fd: int, bytes: string, now: int)
      requires Owned() && fd in fds && fds[fd] != null
      modifies heap
      ensures Owned() && View() == Answering(old(View()), fd, bytes, now).(watched := watched)
    {
      var client := fds[fd];
      client.readBuf := client.readBuf + bytes;
      client.lastAliveTime := now;
    }

    /** Writes one response; closes and deletes on completion or error. */
    method HandleWritable(fd: int, socket: Socket, resp: string, now: int) returns (ghost k: nat, n: int)
      requires Owned() && fd in fds && fds[fd] != null
      modifies this, heap, socket`sent, socket`writeResults
      ensures Owned()
      ensures old(socket.writeResults) <= socket.writeResults
      ensures n == |resp| <==> AllPositive(socket.writeResults[|old(socket.writeResults)|..])
      ensures k <= |resp| && WriteOutcome(resp, k, n) && socket.sent == old(socket.sent) + resp[..k]
      ensures View() == Written(old(View()), resp, fd, k, n, now)
    {
      n := Writen(socket, resp);
      k :| k <= |resp| && WriteOutcome(resp, k, n) && socket.sent == old(socket.sent) + resp[..k];
      Record(fd, resp, resp[..k], now);
      if n == |resp| || n < 0 {
        CloseClient(fd, n == |resp|);
      }
    }

    method Record(fd: int, resp: string, ghost written: string, now: int)
      requires Owned() && fd in fds && fds[fd] != null
      modifies heap
      ensures Owned() && View() == Recorded(old(View()), fd, written, now)
    {
      var client := fds[fd];
      client.writeBuf := resp;
      client.writes := client.writes + [written];
      client.lastAliveTime := now;
    }

    /** Takes the connection out of the epoll set, closes and deletes it. */
    method CloseClient(fd: int, complete: bool)
      requires Owned() && fd in fds && fds[fd] != null
      modifies this
      ensures Owned() && View() == Closed(old(View()), fd, complete)
    {
      closed := closed + [(fds[fd].writes, complete)];
      Remove(fd);
    }

    method Remove(fd: int)
      requires Owned() && fd in fds && fds[fd] != null
      modifies this
      ensures Owned() && View() == Cleared(old(View()), {fd}) && fds == old(fds)[fd := null]
    {
      var client := fds[fd];
      watched := watched - {client.fd};
      open := open - {client.fd};
      Delete(client);
      fds := fds[fd := null];
    }

    static predicate Among(fd: int, rest: set<int>) { fd in rest }

    /** The iterator: some entry not visited yet. */
    static method Next(rest: set<int>) returns (it: int)
      requires rest != {}
      ensures it in rest
    {
      assert rest == set fd | fd in rest && Among(fd, rest);
      it :| it in rest && Among(it, rest);
    }

    /** The sweep's look at one entry. */
    method CheckEntry(it: int, tm: int)
      requires Owned() && it in fds
      modifies this
      ensures Owned()
      ensures View() == if Expired(old(View()), it, tm) then Cleared(old(View()), {it}) else old(View())
      ensures fds == old(fds) || fds == old(fds)[it := null]
    {
      assert View().fds[it] == Entry(it);
      var client := fds[it];
      if client != null {
        var runTm := tm - client.lastAliveTime;
        if runTm >= 30 {
          Remove(it);
        }
      }
    }

    /** The loop over the table. */
    method CheckEntries(tm: int)
      requires Owned()
      modifies this
      ensures Owned() && View() == Swept(old(View()), tm)
      ensures forall fd :: fd in fds ==> fd in old(fds) && (fds[fd] == null || fds[fd] == old(fds)[fd])
    {
      var rest := fds.Keys;
      ghost var before := View();
      assert before.fds.Keys == rest;
      SweepStarts(before, tm);
      while rest != {}
        invariant rest <= before.fds.Keys && Owned()
        invariant View() == Cleared(before, ExpiredBut(before, rest, tm))
        invariant forall fd :: fd in fds ==> fd in old(fds) && (fds[fd] == null || fds[fd] == old(fds)[fd])
        decreases rest
      {
        var it := Next(rest);
        SweepGoesOn(before, rest, it, tm);
        assert it in View().fds;
        CheckEntry(it, tm);
        rest := rest - {it};
      }
      assert ExpiredBut(before, {}, tm) == ExpiredSet(before, tm);
    }

    /** One pass of the sweep at time `tm`: exactly the entries idle for 30
        seconds or more are closed, deleted and cleared. */
    method CheckTimeOut(tm: int)
      requires Owned()
      modifies this
      ensures Owned() && View() == Swept(old(View()), tm)
      ensures fds.Keys == old(fds).Keys
      ensures forall fd :: fd in old(fds) ==>
        fds[fd] == if old(fds)[fd] != null && tm - old(fds)[fd].lastAliveTime >= 30 then null else old(fds)[fd]
    {
      ghost var before := View();
      CheckEntries(tm);
      assert forall fd :: fd in fds <==> fd in View().fds;
      forall fd | fd in old(fds)
        ensures fds[fd] == if old(fds)[fd] != null && tm - old(fds)[fd].lastAliveTime >= 30 then null else old(fds)[fd]
      {
        assert View().fds[fd] == Entry(fd) && before.fds[fd] == old(Entry(fd));
      }
    }
  }

  /** What a sweep has cleared when the entries of `rest` are still to be visited. */
  function ExpiredBut(t: Table, rest: set<int>, tm: int): set<int> {
    set fd | fd in t.fds && fd !in rest && Expired(t, fd, tm)
  }

  lemma SweepStarts(t: Table, tm: int)
    ensures Cleared(t, ExpiredBut(t, t.fds.Keys, tm)) == t
  {
    assert ExpiredBut(t, t.fds.Keys, tm) == {};
    ClearNothing(t);
  }

  lemma SweepGoesOn(t: Table, rest: set<int>, it: int, tm: int)
    requires it in rest && rest <= t.fds.Keys
    ensures var u := Cleared(t, ExpiredBut(t, rest, tm));
      Cleared(t, ExpiredBut(t, rest - {it}, tm)) == if Expired(u, it, tm) then Cleared(u, {it}) else u
  {
    var gone := ExpiredBut(t, rest, tm);
    assert Expired(Cleared(t, gone), it, tm) <==> Expired(t, it, tm);
    if Expired(t, it, tm) {
      assert ExpiredBut(t, rest - {it}, tm) == gone + {it};
      ClearedTwice(t, gone, {it});
    } else {
      assert ExpiredBut(t, rest - {it}, tm) == gone;
    }
  }
}
