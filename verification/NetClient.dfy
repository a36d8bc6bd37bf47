/** What a client puts on its stream (client.cpp, netapi::sendmsg), and what its
    first frame does to the server's table.
 */
module NetClient {
  import opened Bytes
  import opened Messages
  import opened NetServer
  import opened NetRuns

  const SERVER_ADDR := "127.0.0.1"
  const SERVER_PORT: Port := 10003
  const SERVER_NAME := "server1"

  function MessageFrom(name: string, ip: string, port: Port, kind: string, content: string, to: string): Message {
    Message(ip, port, SERVER_ADDR, SERVER_PORT, false, name, to, kind, content)
  }

  function RegMessage(name: string, ip: string, port: Port): Message {
    MessageFrom(name, ip, port, "reg", "this is a reg msg", SERVER_NAME)
  }

  /** What a caller can check: the parts fit their fields, and the port has five digits. */
  predicate Fitting(name: string, ip: string, port: Port, kind: string, content: string, to: string) {
    && FitsField(name, 8) && FitsField(ip, 15) && FitsField(to, 8) && FitsField(content, 40)
    && |kind| == 3 && port >= 10000
  }

  class Client {
    const processName: string
    /** The local address and port as `getsockname` reports them. */
    const localIp: string
    const localPort: Port
    /** All bytes written to the connected socket. */
    var wire: string
    ghost var sent: seq<Message>

    /** The stream is the frames of the messages sent so far, a registration first. */
    ghost predicate Valid()
      reads this
    {
      && wire == StreamOf(sent)
      && sent != [] && sent[0] == RegMessage(processName, localIp, localPort)
    }

    /** Start-up registers as soon as the socket is connected. */
    constructor (name: string, ip: string, port: Port)
      ensures Valid() && sent == [RegMessage(name, ip, port)]
      ensures processName == name && localIp == ip && localPort == port
    {
      processName, localIp, localPort := name, ip, port;
      wire, sent := "", [];
      new;
      SendMsg("reg", "this is a reg msg", SERVER_NAME);
      assert StreamOf([]) == "";
    }

    method SendMsg(msgType: string, msgContent: string, toProcName: string)
      requires wire == StreamOf(sent)
      modifies this
      ensures wire == StreamOf(sent)
      ensures sent == old(sent) + [MessageFrom(processName, localIp, localPort, msgType, msgContent, toProcName)]
      ensures Fitting(processName, localIp, localPort, msgType, msgContent, toProcName) ==>
        && old(wire) <= wire && |wire| == |old(wire)| + 100
        && DecodeFrame(wire[|old(wire)|..])
           == (Head(localIp, Decimal(localPort), "127.0.0.1", "10003", '0', processName, toProcName, msgType), msgContent)
    {
      if Fitting(processName, localIp, localPort, msgType, msgContent, toProcName) {
        ClientFrameText(processName, localIp, localPort, msgType, msgContent, toProcName);
      }
      ghost var m := MessageFrom(processName, localIp, localPort, msgType, msgContent, toProcName);
      var serialStr := Compose(msgType, msgContent, toProcName);
      StreamConcat(sent, [m]);
      StreamOfOne(m);
      wire := wire + serialStr;
      sent := sent + [m];
    }

    /** Fills in a message object, pads its fields and prints it. */
    method Compose(msgType: string, msgContent: string, toProcName: string) returns (serialStr: string)
      ensures serialStr == Frame(MessageFrom(processName, localIp, localPort, msgType, msgContent, toProcName))
    {
      var msg1 := new Msg();
      msg1.fromIp, msg1.fromPort := localIp, localPort;
      msg1.toIp, msg1.toPort := SERVER_ADDR, SERVER_PORT;
      msg1.fromIp := Msg.IpPadding(msg1.fromIp);
      msg1.toIp := Msg.IpPadding(msg1.toIp);
      msg1.fromProcessName := Msg.NamePadding(processName);
      msg1.toProcessName := Msg.NamePadding(toProcName);
      msg1.msgType := msgType;
      msg1.msgContent := Msg.BodyPadding(msgContent);
      assert msg1.Fields() ==
        PadFields(MessageFrom(processName, localIp, localPort, msgType, msgContent, toProcName));
      serialStr := msg1.Serialize();
    }

    method ClientSendMsgTo(content: string, toProcName: string)
      requires Valid()
      modifies this
      ensures Valid()
      ensures sent == old(sent) + [MessageFrom(processName, localIp, localPort, "nor", content, toProcName)]
    {
      SendMsg("nor", content, toProcName);
    }

    /** One round of the heartbeat loop. */
    method ClientHeartbeat()
      requires Valid()
      modifies this
      ensures Valid()
      ensures sent == old(sent) + [MessageFrom(processName, localIp, localPort, "hrt", "this is a heart msg", SERVER_NAME)]
    {
      SendMsg("hrt", "this is a heart msg", SERVER_NAME);
    }

    method ClientDereg()
      requires Valid()
      modifies this
      ensures Valid()
      ensures sent == old(sent) + [MessageFrom(processName, localIp, localPort, "deg", "this is a deg msg", SERVER_NAME)]
    {
      SendMsg("deg", "this is a deg msg", SERVER_NAME);
    }
  }

  /** A client's message is well formed exactly when its caller-chosen parts fit. */
  lemma ClientMessageFits(name: string, ip: string, port: Port, kind: string, content: string, to: string)
    ensures WellFormed(MessageFrom(name, ip, port, kind, content, to)) <==> Fitting(name, ip, port, kind, content, to)
  {
    assert FitsField(SERVER_ADDR, 15);
  }

  /** The text a reader finds in a client's frame. */
  lemma {:induction false} ClientFrameText(name: string, ip: string, port: Port, kind: string, content: string, to: string)
    requires Fitting(name, ip, port, kind, content, to)
    ensures var f := Frame(MessageFrom(name, ip, port, kind, content, to));
      && |f| == 100
      && DecodeFrame(f) == (Head(ip, Decimal(port), "127.0.0.1", "10003", '0', name, to, kind), content)
  {
    ClientMessageFits(name, ip, port, kind, content, to);
    WellFormedRoundTrips(MessageFrom(name, ip, port, kind, content, to));
    SomePorts();
  }

  /** What every client sends first. */
  lemma {:induction false} RegistrationText(name: string, ip: string, port: Port)
    requires FitsField(name, 8) && FitsField(ip, 15) && port >= 10000
    ensures var f := Frame(RegMessage(name, ip, port));
      && |f| == 100
      && DecodeFrame(f) == (Head(ip, Decimal(port), "127.0.0.1", "10003", '0', name, "server1", "reg"), "this is a reg msg")
  {
    ClientFrameText(name, ip, port, "reg", "this is a reg msg", "server1");
  }

  /** When a thread has received the first 60 bytes of a client's stream, the
      client's own name is in the table; it is bound to the connection they came
      on exactly when it was free and nobody had been accepted since, or was
      already bound to it. */
  lemma {:induction false} ClientRegistersItsName(s: Server, k: nat, c: nat, name: string, ip: string, port: Port, later: seq<Message>)
    requires Basic(s) && Enabled(s, ReadHead(k)) && c < |s.recvsock| && s.threads[k].sock == s.recvsock[c]
    requires FitsField(name, 8) && FitsField(ip, 15) && port >= 10000
    requires var wire := StreamOf([RegMessage(name, ip, port)] + later);
      s.cursor[s.recvsock[c]] == 0 && |wire| >= 60 && wire[..60] <= s.arrived[s.recvsock[c]]
    ensures var t := Apply(s, ReadHead(k));
      && name in t.regtable
      && (t.regtable[name] == s.recvsock[c] <==>
            if name in s.regtable then s.regtable[name] == s.recvsock[c] else |s.recvsock| == c + 1)
  {
    var m := RegMessage(name, ip, port);
    ClientMessageFits(name, ip, port, "reg", "this is a reg msg", SERVER_NAME);
    StreamConcat([m], later);
    StreamOfOne(m);
    RegistrationText(name, ip, port);
    FirstFrameRegisters(s, k, c, m);
  }

  /** The first frame of a well-formed client, read by a thread that serves its
      `c`-th connection, enters its name. The entry is the client's own
      connection exactly when the name was free and nobody had been accepted
      since, or the name was already bound to it. */
  lemma FirstFrameRegisters(s: Server, k: nat, c: nat, m: Message)
    requires Basic(s) && Enabled(s, ReadHead(k)) && c < |s.recvsock| && s.threads[k].sock == s.recvsock[c]
    requires WellFormed(m) && m.kind == "reg"
    requires s.cursor[s.recvsock[c]] == 0 && |Frame(m)| >= 60 && Frame(m)[..60] <= s.arrived[s.recvsock[c]]
    ensures var t := Apply(s, ReadHead(k));
      && m.fromName in t.regtable
      && (t.regtable[m.fromName] == s.recvsock[c] <==>
            if m.fromName in s.regtable then s.regtable[m.fromName] == s.recvsock[c]
            else |s.recvsock| == c + 1)
  {
    WellFormedRoundTrips(m);
    assert Unread(s, s.recvsock[c], HEAD_BYTES) == Frame(m)[..HEAD_BYTES];
    var h := DecodeHead(Unread(s, s.recvsock[c], HEAD_BYTES));
    assert h == TextOf(m).0;
    assert SocketsOk(s);
  }
}
