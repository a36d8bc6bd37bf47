/** The message printer (msg.cpp) and the frame format it shares with the server's reader. */
module Messages {
  import opened Bytes

  const HEAD_BYTES: nat := 60
  const BODY_BYTES: nat := 40

  type Port = p: nat | p < 0x1_0000

  /** The fields a caller of `sendmsg` supplies, before padding. */
  datatype Message = Message(
    fromIp: string, fromPort: Port, toIp: string, toPort: Port, isFile: bool,
    fromName: string, toName: string, kind: string, content: string)

  /** The head fields as the reader recovers them from 60 bytes. */
  datatype Head = Head(
    srcIp: string, srcPort: string, destIp: string, destPort: string, isFile: char,
    srcName: string, destName: string, kind: string)

  function Flag(b: bool): char { if b then '1' else '0' }

  /** The bytes printed for fields that are already padded. */
  function Printed(m: Message): string {
    m.fromIp + Decimal(m.fromPort) + m.toIp + Decimal(m.toPort)
    + [Flag(m.isFile)] + m.fromName + m.toName + m.kind + m.content
  }

  function PadFields(m: Message): Message {
    m.(fromIp := Padded(m.fromIp, 15), toIp := Padded(m.toIp, 15),
       fromName := Padded(m.fromName, 8), toName := Padded(m.toName, 8),
       content := Padded(m.content, 40))
  }

  /** What one `sendmsg` puts on the stream. */
  function Frame(m: Message): string { Printed(PadFields(m)) }

  function DecodeHead(b: string): Head
    requires |b| == HEAD_BYTES
  {
    Head(UpToHash(b[0..15]), b[15..20], UpToHash(b[20..35]), b[35..40], b[40],
         UpToHash(b[41..49]), UpToHash(b[49..57]), b[57..60])
  }

  function DecodeBody(b: string): string
    requires |b| == BODY_BYTES
  {
    UpToHash(b)
  }

  function DecodeFrame(f: string): (Head, string)
    requires |f| == FRAME_BYTES
  {
    (DecodeHead(f[..HEAD_BYTES]), DecodeBody(f[HEAD_BYTES..]))
  }

  /** The head and body a reader should see for `m`. */
  function TextOf(m: Message): (Head, string) {
    (Head(m.fromIp, Decimal(m.fromPort), m.toIp, Decimal(m.toPort), Flag(m.isFile),
          m.fromName, m.toName, m.kind), m.content)
  }

  predicate FitsField(s: string, w: nat) { |s| <= w && '#' !in s }

  /** What a caller can check before sending. */
  predicate WellFormed(m: Message) {
    && FitsField(m.fromIp, 15) && FitsField(m.toIp, 15)
    && FitsField(m.fromName, 8) && FitsField(m.toName, 8) && FitsField(m.content, 40)
    && |m.kind| == 3
    && m.fromPort >= 10000 && m.toPort >= 10000
  }

  /** The frame has the width the reader slices, and the reader gets the message back. */
  predicate RoundTrips(m: Message) {
    |Frame(m)| == FRAME_BYTES && DecodeFrame(Frame(m)) == TextOf(m)
  }

  /** The nine pieces lie where the reader looks for them. */
  lemma PiecesInPlace(a: string, b: string, c: string, d: string, e: string,
                      f: string, g: string, h: string, i: string)
    requires |a| == |c| == 15 && |b| == |d| == 5 && |e| == 1 && |f| == |g| == 8 && |h| == 3 && |i| == 40
    ensures var s := a + b + c + d + e + f + g + h + i;
      && |s| == 100
      && s[..60][0..15] == a && s[..60][15..20] == b && s[..60][20..35] == c && s[..60][35..40] == d
      && s[..60][40] == e[0] && s[..60][41..49] == f && s[..60][49..57] == g && s[..60][57..60] == h
      && s[60..] == i
  {
  }

  lemma WellFormedRoundTrips(m: Message)
    requires WellFormed(m)
    ensures RoundTrips(m)
  {
    FiveDigits(m.fromPort);
    FiveDigits(m.toPort);
    PadThenRead(m.fromIp, 15);
    PadThenRead(m.toIp, 15);
    PadThenRead(m.fromName, 8);
    PadThenRead(m.toName, 8);
    PadThenRead(m.content, 40);
    var p := PadFields(m);
    PiecesInPlace(p.fromIp, Decimal(p.fromPort), p.toIp, Decimal(p.toPort),
                  [Flag(p.isFile)], p.fromName, p.toName, p.kind, p.content);
    assert p.fromIp[..15] == p.fromIp && p.toIp[..15] == p.toIp;
    assert p.fromName[..8] == p.fromName && p.toName[..8] == p.toName;
    assert p.content[..40] == p.content;
  }

  predicate WithinWidths(m: Message) {
    |m.fromIp| <= 15 && |m.toIp| <= 15 && |m.fromName| <= 8 && |m.toName| <= 8
    && |m.content| <= 40 && |m.kind| == 3
  }

  /** Fields within their widths fill a frame exactly when both ports have five
      digits: the printer pads every field but the ports. */
  lemma FrameLengthIff(m: Message)
    requires WithinWidths(m)
    ensures |Frame(m)| == FRAME_BYTES <==> m.fromPort >= 10000 && m.toPort >= 10000
    ensures |Frame(m)| <= FRAME_BYTES
  {
    FiveDigits(m.fromPort);
    FiveDigits(m.toPort);
    DecimalLength(m.fromPort, 5);
    DecimalLength(m.toPort, 5);
    assert Pow10(5) == 10 * 10 * 10 * 10 * Pow10(1);
    var p := PadFields(m);
    assert |p.fromIp| == 15 && |p.toIp| == 15 && |p.fromName| == 8 && |p.toName| == 8 && |p.content| == 40;
  }

  function Max(a: nat, b: nat): nat { if a < b then b else a }

  /** The length of any frame: every field but the ports and the type has at
      least its width, and all of a longer one is printed. */
  lemma {:induction false} FrameLength(m: Message)
    ensures |Frame(m)| == Max(15, |m.fromIp|) + |Decimal(m.fromPort)| + Max(15, |m.toIp|) + |Decimal(m.toPort)| + 1
      + Max(8, |m.fromName|) + Max(8, |m.toName|) + |m.kind| + Max(40, |m.content|)
  {
    PaddedShape(m.fromIp, 15);
    PaddedShape(m.toIp, 15);
    PaddedShape(m.fromName, 8);
    PaddedShape(m.toName, 8);
    PaddedShape(m.content, 40);
  }

  /** With five-digit ports and a type of three bytes a frame is never shorter
      than 100 bytes, and longer exactly when some field exceeds its width. */
  lemma OverlongIff(m: Message)
    requires m.fromPort >= 10000 && m.toPort >= 10000 && |m.kind| == 3
    ensures |Frame(m)| >= 100
    ensures |Frame(m)| > 100 <==>
      |m.fromIp| > 15 || |m.toIp| > 15 || |m.fromName| > 8 || |m.toName| > 8 || |m.content| > 40
  {
    FiveDigits(m.fromPort);
    FiveDigits(m.toPort);
    FrameLength(m);
  }

  /** A field that is read from `w` bytes stands at their beginning. */
  lemma ReadAt(f: string, i: nat, w: nat)
    requires i + w <= |f|
    ensures UpToHash(f[i..i + w]) <= f[i..]
  {
    assert f[i..i + w] == f[i..][..w];
  }

  lemma TextInPlace(f: string)
    requires |f| == FRAME_BYTES
    ensures var (h, text) := DecodeFrame(f);
      && h.srcIp <= f && h.srcPort == f[15..20] && h.destIp <= f[20..] && h.destPort == f[35..40] && h.isFile == f[40]
      && h.srcName <= f[41..] && h.destName <= f[49..] && h.kind == f[57..60] && text <= f[60..]
  {
    ReadAt(f, 0, 15);
    ReadAt(f, 20, 15);
    ReadAt(f, 41, 8);
    ReadAt(f, 49, 8);
    var b := f[..HEAD_BYTES];
    assert b[0..15] == f[0..15] && b[15..20] == f[15..20] && b[20..35] == f[20..35] && b[35..40] == f[35..40];
    assert b[41..49] == f[41..49] && b[49..57] == f[49..57] && b[57..60] == f[57..60];
  }

  /** Which byte of a well-formed message is where. */
  lemma {:induction false} FrameLayout(m: Message)
    requires WellFormed(m)
    ensures |Frame(m)| == 100
    ensures m.fromIp <= Frame(m) && Frame(m)[15..20] == Decimal(m.fromPort)
    ensures m.toIp <= Frame(m)[20..] && Frame(m)[35..40] == Decimal(m.toPort)
    ensures Frame(m)[40] == if m.isFile then '1' else '0'
    ensures m.fromName <= Frame(m)[41..] && m.toName <= Frame(m)[49..] && Frame(m)[57..60] == m.kind
    ensures m.content <= Frame(m)[60..]
  {
    WellFormedRoundTrips(m);
    TextInPlace(Frame(m));
  }

  lemma SomePorts()
    ensures Decimal(40001) == "40001" && Decimal(10003) == "10003"
  {
    assert Decimal(40) == Decimal(4) + "0" == "40";
    assert Decimal(400) == "400" && Decimal(4000) == "4000";
    assert Decimal(10) == Decimal(1) + "0" == "10";
    assert Decimal(100) == "100" && Decimal(1000) == "1000";
  }

  lemma PaddedIs(s: string, w: nat, p: string)
    requires |p| == w && s <= p && forall i :: |s| <= i < w ==> p[i] == '#'
    ensures Padded(s, w) == p
  {
    PaddedShape(s, w);
  }

  /** A whole frame, byte by byte. */
  lemma {:induction false} ExampleFrame()
    ensures Frame(Message("1.2.3.4", 40001, "127.0.0.1", 10003, false, "c1", "server1", "reg", "hi"))
      == "1.2.3.4########" + "40001" + "127.0.0.1######" + "10003" + "0" + "c1######" + "server1#" + "reg"
         + "hi######################################"
  {
    SomePorts();
    PaddedIs("1.2.3.4", 15, "1.2.3.4########");
    PaddedIs("127.0.0.1", 15, "127.0.0.1######");
    PaddedIs("c1", 8, "c1######");
    PaddedIs("server1", 8, "server1#");
    PaddedIs("hi", 40, "hi######################################");
  }

  /** One message survives printing and slicing exactly when it is well formed. */
  lemma RoundTripIff(m: Message)
    ensures RoundTrips(m) <==> WellFormed(m)
  {
    if RoundTrips(m) {
      var b := Frame(m)[..HEAD_BYTES];
      assert DecodeHead(b) == TextOf(m).0;
      assert |Decimal(m.fromPort)| == |b[15..20]| == 5;
      assert |Decimal(m.toPort)| == |b[35..40]| == 5;
      FiveDigits(m.fromPort);
      FiveDigits(m.toPort);
    }
    if WellFormed(m) {
      WellFormedRoundTrips(m);
    }
  }

  // ---- The printer itself ----

  /** class msg: a bag of public fields, three padding routines and `serialize`. */
  class Msg {
    var toIp: string
    var fromIp: string
    var toPort: Port
    var fromPort: Port
    var isFile: bool
    var msgType: string
    var fromProcessName: string
    var toProcessName: string
    var msgContent: string

    ghost function Fields(): Message
      reads this
    {
      Message(fromIp, fromPort, toIp, toPort, isFile, fromProcessName, toProcessName, msgType, msgContent)
    }

    constructor ()
      ensures Fields() == Message("", 0, "", 0, false, "", "", "nor", "")
    {
      toIp, fromIp, toPort, fromPort := "", "", 0, 0;
      isFile, msgType := false, "nor";
      fromProcessName, toProcessName, msgContent := "", "", "";
    }

    /** The three padding routines differ only in the width; each takes its
        string by reference in the source, here as in- and out-parameter. */
    static method IpPadding(addr: string) returns (padded: string)
      ensures padded == Padded(addr, 15)
    {
      padded := addr;
      var padPos := |addr|;
      if padPos < 15 {
        for i := padPos to 15
          invariant padded == addr + Hashes(i - padPos)
        {
          padded := padded + "#";
        }
      }
    }

    static method BodyPadding(content: string) returns (padded: string)
      ensures padded == Padded(content, 40)
    {
      padded := content;
      var padPos := |content|;
      if padPos < 40 {
        for i := padPos to 40
          invariant padded == content + Hashes(i - padPos)
        {
          padded := padded + "#";
        }
      }
    }

    static method NamePadding(procName: string) returns (padded: string)
      ensures padded == Padded(procName, 8)
    {
      padded := procName;
      var padPos := |procName|;
      if padPos < 8 {
        for i := padPos to 8
          invariant padded == procName + Hashes(i - padPos)
        {
          padded := padded + "#";
        }
      }
    }

    /** Streams the fields as they are: padding is the caller's business. */
    method Serialize() returns (ss: string)
      ensures ss == Printed(Fields())
    {
      ss := fromIp + Decimal(fromPort) + toIp + Decimal(toPort);
      ss := ss + [Flag(isFile)] + fromProcessName + toProcessName + msgType + msgContent;
    }
  }

  // ---- Streams of frames ----

  function Frames(ms: seq<Message>): seq<string> { seq(|ms|, i requires 0 <= i < |ms| => Frame(ms[i])) }

  function Texts(ms: seq<Message>): seq<(Head, string)> { seq(|ms|, i requires 0 <= i < |ms| => TextOf(ms[i])) }

  function StreamOf(ms: seq<Message>): string { Flatten(Frames(ms)) }

  /** Slicing 60 and 40 bytes off the stream again and again. */
  function DecodeStream(s: string): seq<(Head, string)> {
    var cs := Chunks(s);
    seq(|cs|, i requires 0 <= i < |cs| => DecodeFrame(cs[i]))
  }

  predicate AllWellFormed(ms: seq<Message>) { forall i :: 0 <= i < |ms| ==> WellFormed(ms[i]) }

  lemma StreamChunks(ms: seq<Message>)
    requires AllWellFormed(ms)
    ensures Chunks(StreamOf(ms)) == Frames(ms)
    ensures |StreamOf(ms)| == FRAME_BYTES * |ms|
  {
    forall i | 0 <= i < |ms|
      ensures |Frames(ms)[i]| == FRAME_BYTES
    {
      WellFormedRoundTrips(ms[i]);
    }
    ChunksOfFlatten(Frames(ms));
    WholeFramesLength(Frames(ms));
  }

  lemma StreamConcat(ms: seq<Message>, ns: seq<Message>)
    ensures StreamOf(ms + ns) == StreamOf(ms) + StreamOf(ns)
  {
    assert Frames(ms + ns) == Frames(ms) + Frames(ns);
    FlattenConcat(Frames(ms), Frames(ns));
  }

  lemma StreamOfOne(m: Message)
    ensures StreamOf([m]) == Frame(m)
  {
    assert Frames([m]) == [] + [Frame(m)];
    FlattenSnoc([], Frame(m));
  }

  /** The reader gets exactly the list of messages that was printed. */
  lemma StreamRoundTrip(ms: seq<Message>)
    requires AllWellFormed(ms)
    ensures DecodeStream(StreamOf(ms)) == Texts(ms)
  {
    StreamChunks(ms);
    var ds := DecodeStream(StreamOf(ms));
    assert |ds| == |Chunks(StreamOf(ms))| == |ms|;
    forall i | 0 <= i < |ms|
      ensures ds[i] == Texts(ms)[i]
    {
      WellFormedRoundTrips(ms[i]);
      assert Chunks(StreamOf(ms))[i] == Frame(ms[i]);
    }
  }

  lemma TextIsInjective(m: Message, n: Message)
    requires TextOf(m) == TextOf(n)
    ensures m == n
  {
    ValueOfDecimal(m.fromPort);
    ValueOfDecimal(n.fromPort);
    ValueOfDecimal(m.toPort);
    ValueOfDecimal(n.toPort);
  }

  /** No two lists of well-formed messages share a stream. */
  lemma UniquelyDecodable(ms: seq<Message>, ns: seq<Message>)
    requires AllWellFormed(ms) && AllWellFormed(ns)
    requires StreamOf(ms) == StreamOf(ns)
    ensures ms == ns
  {
    StreamRoundTrip(ms);
    StreamRoundTrip(ns);
    assert |Texts(ms)| == |ms| && |Texts(ns)| == |ns|;
    forall i | 0 <= i < |ms|
      ensures ms[i] == ns[i]
    {
      assert Texts(ms)[i] == Texts(ns)[i];
      TextIsInjective(ms[i], ns[i]);
    }
  }
}
