/** The read and write loops of the HTTP server (main.cpp, `readn` and `writen`). */
module HttpIO {

  /** A non-blocking socket: each call takes or gives some bytes, or reports an error. */
  class Socket {
    var sent: string
    /** The results of all `write` and all `read` calls, and the bytes read. */
    ghost var writeResults: seq<int>
    ghost var readResults: seq<int>
    ghost var input: string

    constructor ()
      ensures sent == "" && writeResults == [] && readResults == [] && input == ""
    {
      sent, writeResults, readResults, input := "", [], [], "";
    }

    /** Any result the kernel may give: `n <= 0` writes nothing. */
    method Write(data: string) returns (n: int)
      modifies this`sent, this`writeResults
      ensures n <= |data| && writeResults == old(writeResults) + [n]
      ensures sent == if n > 0 then old(sent) + data[..n] else old(sent)
    {
      n :| n <= |data|;
      writeResults := writeResults + [n];
      if n > 0 {
        sent := sent + data[..n];
      }
    }

    /** Any bytes, at most `n`; -1 for an error. */
    method Read(buf: array<char>, at: nat, n: nat) returns (count: int)
      requires at + n <= buf.Length
      modifies this`readResults, this`input, buf
      ensures -1 <= count <= n && readResults == old(readResults) + [count]
      ensures input == if count > 0 then old(input) + buf[at..at + count] else old(input)
      ensures forall i :: 0 <= i < buf.Length && !(at <= i < at + count) ==> buf[i] == old(buf[i])
    {
      count :| -1 <= count <= n;
      var i := 0;
      while i < count
        invariant readResults == old(readResults) && input == old(input)
        invariant 0 <= i && i <= (if count < 0 then 0 else count)
        invariant forall j :: 0 <= j < buf.Length && !(at <= j < at + i) ==> buf[j] == old(buf[j])
      {
        var c: char := *;
        buf[at + i] := c;
        i := i + 1;
      }
      readResults := readResults + [count];
      if count > 0 {
        input := input + buf[at..at + count];
      }
    }
  }

  /** Meant to read until `buf` is full or the peer has closed. The comparison is
      what is assigned to `nread`: one `read` is made, the result is 1 if that
      failed and 0 if not, and never the number of bytes. */
  method Readn(socket: Socket, buf: array<char>) returns (r: int, ghost got: int)
    modifies socket`readResults, socket`input, buf
    ensures buf.Length == 0 ==> r == 0 && got == 0
    ensures socket.readResults == old(socket.readResults) + if buf.Length > 0 then [got] else []
    ensures -1 <= got <= buf.Length
    ensures socket.input == old(socket.input) + buf[..if got > 0 then got else 0]
    ensures (r == 1 <==> got < 0) && (r == 0 <==> got >= 0)
    ensures forall i :: got <= i < buf.Length && 0 <= i ==> buf[i] == old(buf[i])
  {
    var nleft, ptr := buf.Length, 0;
    got := 0;
    // a loop in the source; each branch of its body leaves it
    if nleft > 0 {
      var result := socket.Read(buf, ptr, nleft);
      got := result;
      var nread := if result < 0 then 1 else 0;
      if nread != 0 {
        return nread, got;
      }
    }
    r := buf.Length - nleft;
  }

  /** What one call did, given its result: `k` bytes of `data` went out. */
  predicate WriteOutcome(data: string, k: nat, r: int) {
    (r == |data| && k == |data|) || (r <= 0 && k < |data|)
  }

  predicate AllPositive(rs: seq<int>) { forall i :: 0 <= i < |rs| ==> rs[i] > 0 }

  /** Writes until all bytes are out or a `write` does not progress: it gives up
      at the first result that is not positive, and only then. */
  method Writen(socket: Socket, data: string) returns (r: int)
    modifies socket`sent, socket`writeResults
    ensures old(socket.writeResults) <= socket.writeResults
    ensures var results := socket.writeResults[|old(socket.writeResults)|..];
      && (r == |data| <==> AllPositive(results))
      && (r != |data| ==> results != [] && r <= 0 && results[|results|-1] == r && AllPositive(results[..|results|-1]))
    ensures exists k: nat :: k <= |data| && WriteOutcome(data, k, r) && socket.sent == old(socket.sent) + data[..k]
    ensures r == |data| <==> socket.sent == old(socket.sent) + data
  {
    var nleft := |data|;
    var ptr := 0;
    while nleft > 0
      invariant nleft >= 0 && ptr + nleft == |data| && ptr >= 0
      invariant socket.sent == old(socket.sent) + data[..ptr]
      invariant old(socket.writeResults) <= socket.writeResults && AllPositive(socket.writeResults[|old(socket.writeResults)|..])
      decreases nleft
    {
      ghost var results := socket.writeResults[|old(socket.writeResults)|..];
      var nwritten := socket.Write(data[ptr..]);
      assert socket.writeResults[|old(socket.writeResults)|..] == results + [nwritten];
      if nwritten <= 0 {
        assert (results + [nwritten])[|results|] <= 0;
        assert WriteOutcome(data, ptr, nwritten);
        return nwritten;
      }
      assert data[..ptr + nwritten] == data[..ptr] + data[ptr..][..nwritten];
      nleft := nleft - nwritten;
      ptr := ptr + nwritten;
    }
    assert data[..|data|] == data;
    assert WriteOutcome(data, |data|, |data|);
    return |data|;
  }
}
