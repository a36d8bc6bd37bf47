/** The reader's loops over the receive buffers (netapi.cpp). */
module NetParser {
  import opened Bytes
  import opened Messages

  /** Appends bytes from `from` up to the first '#', or up to `to`. */
  method ReadField(buf: array<char>, from: nat, to: nat) returns (field: string)
    requires from <= to <= buf.Length
    ensures field == UpToHash(buf[from..to])
  {
    field := "";
    var i := from;
    while i < to
      invariant from <= i <= to
      invariant field == buf[from..i]
      invariant '#' !in field
    {
      if buf[i] == '#' {
        break;
      }
      field := field + [buf[i]];
      i := i + 1;
    }
    UpToHashIsTheOnly(buf[from..to], field);
  }

  /** Appends all bytes of the slice: ports and the message type carry no padding. */
  method ReadRaw(buf: array<char>, from: nat, to: nat) returns (field: string)
    requires from <= to <= buf.Length
    ensures field == buf[from..to]
  {
    field := "";
    for i := from to to
      invariant field == buf[from..i]
    {
      field := field + [buf[i]];
    }
  }

  method ParseHead(headBuf: array<char>) returns (h: Head)
    requires headBuf.Length == HEAD_BYTES
    ensures h == DecodeHead(headBuf[..])
  {
    var srcIp := ReadField(headBuf, 0, 15);
    var srcPort := ReadRaw(headBuf, 15, 20);
    var destIp := ReadField(headBuf, 20, 35);
    var destPort := ReadRaw(headBuf, 35, 40);
    var isFile := headBuf[40];
    var procName := ReadField(headBuf, 41, 49);
    var toProcName := ReadField(headBuf, 49, 57);
    var msgType := ReadRaw(headBuf, 57, 60);
    h := Head(srcIp, srcPort, destIp, destPort, isFile, procName, toProcName, msgType);
    assert headBuf[..] == headBuf[0..60];
  }

  method ParseBody(buf: array<char>) returns (text: string)
    requires buf.Length == BODY_BYTES
    ensures text == DecodeBody(buf[..])
  {
    text := ReadField(buf, 0, 40);
    assert buf[..] == buf[0..40];
  }

  /** Copies head and body side by side into the relay buffer, as two `memcpy` calls do. */
  method FillTransBuf(headBuf: array<char>, bodyBuf: array<char>) returns (transBuf: array<char>)
    requires headBuf.Length == HEAD_BYTES && bodyBuf.Length == BODY_BYTES
    ensures fresh(transBuf) && transBuf.Length == FRAME_BYTES
    ensures transBuf[..] == headBuf[..] + bodyBuf[..]
  {
    transBuf := new char[100];
    for i := 0 to 60
      invariant forall j :: 0 <= j < i ==> transBuf[j] == headBuf[j]
    {
      transBuf[i] := headBuf[i];
    }
    for i := 0 to 40
      invariant forall j :: 0 <= j < 60 ==> transBuf[j] == headBuf[j]
      invariant forall j :: 60 <= j < 60 + i ==> transBuf[j] == bodyBuf[j - 60]
    {
      transBuf[60 + i] := bodyBuf[i];
    }
  }

  function LookUp(regtable: map<string, int>, name: string): int {
    if name in regtable then regtable[name] else 0
  }

  /** The iterator scan over the table: stops at the first equal key, and leaves
      descriptor 0 when there is none. */
  method FindSock(regtable: map<string, int>, toProcName: string) returns (transSock: int)
    ensures transSock == LookUp(regtable, toProcName)
  {
    transSock := 0;
    var rest := regtable.Keys;
    while rest != {}
      invariant rest <= regtable.Keys
      invariant toProcName in regtable ==> toProcName in rest
      invariant transSock == 0
      decreases rest
    {
      var first :| first in rest;
      if first == toProcName {
        transSock := regtable[first];
        break;
      }
      rest := rest - {first};
    }
  }
}
