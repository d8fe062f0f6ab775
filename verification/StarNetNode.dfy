/** One node of the line (ARpcStarNetDevice): two parsers, three writers and the consume/forward decision. */
module StarNetNode {
  import opened Common
  import opened StreamCodec
  import opened StreamWriter
  import opened StreamParser
  import opened Dispatch
  import Uuid

  // ----- what one packet makes a node do

  /** `srcId`, `dstId` are what the callback object holds afterwards. */
  datatype Decision = Decision(srcId: Uuid.Id, dstId: Uuid.Id, catched: bool, redirect: bool)

  predicate IsReserved(p: Fields) {
    |p| >= 2 && p[1] != "" && p[1][0] == '#'
  }

  /** Without a destination a message is only looked at while no sender is known. */
  predicate Addressable(srcId: Uuid.Id, p: Fields) {
    p != [] && (Uuid.IsValid(Uuid.Parse(srcId, p[0])) ==> |p| >= 2)
  }

  /** The callback keeps the ids of earlier packets: a text that is too short to be an id leaves them. */
  function Decide(own: Uuid.Id, srcId: Uuid.Id, dstId: Uuid.Id, p: Fields): Decision
    requires Addressable(srcId, p)
  {
    var src := Uuid.Parse(srcId, p[0]);
    if !Uuid.IsValid(src) then Decision(src, dstId, false, false)
    else if IsReserved(p) then Decision(src, dstId, p[1] == BROADCAST_NAME, true)
    else
      var dst := Uuid.Parse(dstId, p[1]);
      Decision(src, dst, dst == own, dst != own)
  }

  function EscapedArgs(args: seq<string>): string {
    if args == [] then "" else "|" + Escaped(args[0]) + EscapedArgs(args[1..])
  }

  /** The text of a forwarded packet: the two addresses are not escaped again. */
  function Relayed(p: Fields): string
    requires |p| >= 2
  {
    p[0] + "|" + p[1] + EscapedArgs(p[2..]) + "\n"
  }

  function ReplyHeader(own: Uuid.Id, srcId: Uuid.Id): seq<string> {
    [Uuid.Hex(own), Uuid.Hex(srcId)]
  }

  /** What a node sends back to the side a packet came from and on to the other side. */
  datatype Reaction = Reaction(back: string, on: string)

  function React(dev: Device, callId: string, d: Decision, p: Fields): Reaction
    requires (d.catched ==> |p| >= 3) && (d.redirect ==> |p| >= 2)
  {
    var answers :=
      if d.catched then EncodeReplies(ReplyHeader(dev.id, d.srcId), Replies(dev, callId, p[2], p[3..])) else "";
    Reaction(answers, answers + if d.redirect then Relayed(p) else "")
  }

  lemma {:induction false} EscapedIsLonger(s: string)
    ensures if Plain(s) then Escaped(s) == s else |Escaped(s)| > |s|
  {
    if Plain(s) {
      PlainNeedsNoEscape(s);
    } else {
      EscapedIsLonger(s[1..]);
      if Plain(s[1..]) { assert |EscapeChar(s[0])| == 2; }
    }
  }

  lemma {:induction false} JoinedTail(first: string, args: seq<string>)
    ensures Joined([first] + args) == Escaped(first) + EscapedArgs(args)
    decreases |args|
  {
    var f := [first] + args;
    assert f[1..] == args;
    if args != [] {
      assert [args[0]] + args[1..] == args;
      JoinedTail(args[0], args[1..]);
    }
  }

  /** A forwarded packet is the encoding of the packet exactly when its addresses need no escapes. */
  lemma {:induction false} RelayedIsEncodedIffPlain(p: Fields)
    requires |p| >= 2
    ensures Relayed(p) == Encode(p) <==> Plain(p[0]) && Plain(p[1])
  {
    JoinedTail(p[0], p[1..]);
    assert p == [p[0]] + p[1..];
    assert p[1..][1..] == p[2..];
    var e0, e1, rest := Escaped(p[0]), Escaped(p[1]), EscapedArgs(p[2..]);
    EncodedParts(p, e0, e1, rest);
    EscapedIsLonger(p[0]);
    EscapedIsLonger(p[1]);
    if Relayed(p) == Encode(p) { SameParts(p[0], p[1], e0, e1, rest + "\n"); }
  }

  lemma {:induction false} SameParts(x0: string, x1: string, y0: string, y1: string, rest: string)
    requires |x0| <= |y0| && |x1| <= |y1| && x0 + "|" + x1 + rest == y0 + "|" + y1 + rest
    ensures x0 == y0 && x1 == y1
  {
    var x, y := x0 + "|" + x1 + rest, y0 + "|" + y1 + rest;
    assert |x0| == |y0| && |x1| == |y1|;
    assert x[..|x0|] == x0 && y[..|y0|] == y0;
    var k := |x0| + 1;
    assert x[k..k + |x1|] == x1 && y[k..k + |y1|] == y1;
  }

  lemma {:induction false} EncodedParts(p: Fields, e0: string, e1: string, rest: string)
    requires Encode(p) == e0 + ("|" + e1 + rest) + "\n"
    ensures Encode(p) == e0 + "|" + e1 + rest + "\n"
  {
  }

  /** One hop: what the next parser's callback reads is the packet, exactly when its texts have no zero
      characters, its addresses need no escapes; this also needs the packet to fit the next buffer. */
  lemma {:induction false} HopIffClean(bufSize: nat, p: Fields)
    requires |p| >= 2 && Fits(bufSize, p) && Plain(p[0]) && Plain(p[1])
    ensures Feed(bufSize, INIT, Relayed(p)) == Run(INIT, [Decoded(p)])
    ensures View(Decoded(p)) == p <==> AllZeroFree(p)
  {
    RelayedIsEncodedIffPlain(p);
    FeedEncoded(bufSize, p);
    ViewIsFieldsIffZeroFree(p);
  }

  // ----- the object

  class MsgCallback {
    const wNum: nat
    var srcId: Uuid.Id
    var dstId: Uuid.Id
    var catched: bool
    var redirect: bool

    constructor (n: nat)
      ensures wNum == n && srcId == dstId == Uuid.NULL_ID
    {
      wNum, srcId, dstId, catched, redirect := n, Uuid.NULL_ID, Uuid.NULL_ID, false, true;
    }
  }

  /** What the callback may be handed: the reads of `args[0]` and `args[1]` are not guarded by the count. */
  predicate Processable(own: Uuid.Id, srcId: Uuid.Id, dstId: Uuid.Id, p: Fields) {
    Addressable(srcId, p) && (Decide(own, srcId, dstId, p).catched ==> |p| >= 3)
  }

  /** What one side of a node remembers from message to message. */
  datatype Mind = Mind(srcId: Uuid.Id, dstId: Uuid.Id, callId: string)

  function Remembered(dev: Device, m: Mind, p: Fields): Mind
    requires Processable(dev.id, m.srcId, m.dstId, p)
  {
    var d := Decide(dev.id, m.srcId, m.dstId, p);
    Mind(d.srcId, d.dstId, if d.catched then NextCallId(m.callId, p[2], p[3..]) else m.callId)
  }

  predicate AllProcessable(dev: Device, m: Mind, ps: seq<Fields>)
    decreases |ps|
  {
    ps == [] || (Processable(dev.id, m.srcId, m.dstId, ps[0])
      && AllProcessable(dev, Remembered(dev, m, ps[0]), ps[1..]))
  }

  function RememberedAll(dev: Device, m: Mind, ps: seq<Fields>): Mind
    requires AllProcessable(dev, m, ps)
    decreases |ps|
  {
    if ps == [] then m else RememberedAll(dev, Remembered(dev, m, ps[0]), ps[1..])
  }

  function Joint(a: Reaction, b: Reaction): Reaction {
    Reaction(a.back + b.back, a.on + b.on)
  }

  /** The reactions to some messages, one after the other. */
  function ReactAll(dev: Device, m: Mind, ps: seq<Fields>): Reaction
    requires AllProcessable(dev, m, ps)
    decreases |ps|
  {
    if ps == [] then Reaction("", "")
    else Joint(React(dev, m.callId, Decide(dev.id, m.srcId, m.dstId, ps[0]), ps[0]),
           ReactAll(dev, Remembered(dev, m, ps[0]), ps[1..]))
  }

  lemma {:induction false} JointTwice(a: Reaction, b: Reaction, c: Reaction)
    ensures Joint(Joint(a, b), c) == Joint(a, Joint(b, c))
    ensures Joint(a, Reaction("", "")) == a == Joint(Reaction("", ""), a)
  {
    Regroup3(a.back, b.back, c.back);
    Regroup3(a.on, b.on, c.on);
    assert a.back + "" == a.back && a.on + "" == a.on && "" + a.back == a.back && "" + a.on == a.on;
  }

  /** Messages in two parts make a node do what the parts make it do. */
  lemma {:induction false} ReactSplit(dev: Device, m: Mind, a: seq<Fields>, b: seq<Fields>)
    ensures AllProcessable(dev, m, a + b)
            <==> AllProcessable(dev, m, a) && AllProcessable(dev, RememberedAll(dev, m, a), b)
    ensures AllProcessable(dev, m, a + b) ==>
              && ReactAll(dev, m, a + b) == Joint(ReactAll(dev, m, a), ReactAll(dev, RememberedAll(dev, m, a), b))
              && RememberedAll(dev, m, a + b) == RememberedAll(dev, RememberedAll(dev, m, a), b)
    decreases |a|
  {
    if a == [] {
      assert a + b == b;
      if AllProcessable(dev, m, b) { JointTwice(ReactAll(dev, m, b), Reaction("", ""), Reaction("", "")); }
    } else {
      assert (a + b)[0] == a[0] && (a + b)[1..] == a[1..] + b;
      if Processable(dev.id, m.srcId, m.dstId, a[0]) {
        var n := Remembered(dev, m, a[0]);
        ReactSplit(dev, n, a[1..], b);
        if AllProcessable(dev, m, a + b) {
          JointTwice(React(dev, m.callId, Decide(dev.id, m.srcId, m.dstId, a[0]), a[0]), ReactAll(dev, n, a[1..]),
                     ReactAll(dev, RememberedAll(dev, n, a[1..]), b));
        }
      }
    }
  }

  function Listed<T>(x: Option<T>): seq<T> {
    if x.Some? then [x.value] else []
  }

  class ARpcStarNetDevice {
    const wcb1: Sink
    const wcb2: Sink
    const msg1Cb: MsgCallback
    const msg2Cb: MsgCallback
    const writer1: ARpcStreamWriter
    const writer2: ARpcStreamWriter
    const writerAny: ARpcStreamWriter
    const parser1: ARpcStreamParser
    const parser2: ARpcStreamParser
    const msgDisp: ARpcRealDeviceMessageDispatch

    ghost predicate Wired()
      reads this
    {
      && wcb1 != wcb2 && msg1Cb != msg2Cb && msg1Cb.wNum == 0 && msg2Cb.wNum == 1
      && writer1 != writer2 && writerAny != writer1 && writerAny != writer2
      && writer1.side1 == wcb1 && writer1.side2 == null && writer2.side1 == wcb2 && writer2.side2 == null
      && writerAny.side1 == wcb1 && writerAny.side2 == wcb2
      && msgDisp.mWriter == writerAny && writerAny.starNet && writerAny.srcIdStr == Uuid.Hex(msgDisp.dev.id)
      && parser1 != parser2 && parser1.buffer != parser2.buffer && parser1.args != parser2.args
    }

    ghost predicate Valid()
      reads this, writer1, writer2, writerAny, msgDisp, parser1, parser2
    {
      && Wired() && msgDisp.Valid() && parser1.Valid() && parser2.Valid()
      && writer1.Valid() && !writer1.needArgDelim && writer2.Valid() && !writer2.needArgDelim
    }

    constructor (buf1: array<char>, buf2: array<char>, w1: Sink, w2: Sink, dev: Device)
      requires w1 != w2 && buf1 != buf2 && buf1.Length >= 1 && buf2.Length >= 1
      ensures Valid() && wcb1 == w1 && wcb2 == w2 && msgDisp.dev == dev
      ensures parser1.Config() == INIT && parser2.Config() == INIT
    {
      wcb1, wcb2 := w1, w2;
      msg1Cb := new MsgCallback(0);
      msg2Cb := new MsgCallback(1);
      writer1 := new ARpcStreamWriter.StarNet(dev.id, w1, null);
      writer2 := new ARpcStreamWriter.StarNet(dev.id, w2, null);
      var any := new ARpcStreamWriter.StarNet(dev.id, w1, w2);
      writerAny := any;
      parser1 := new ARpcStreamParser(buf1);
      parser2 := new ARpcStreamParser(buf2);
      msgDisp := new ARpcRealDeviceMessageDispatch(dev, any);
    }

    method WriteDeviceIdentified()
      requires Valid()
      modifies writerAny, wcb1, wcb2
      ensures Valid()
      ensures var announcement: Fields :=
                [Uuid.Hex(msgDisp.dev.id), BROADCAST_NAME, "device_identified", CStr(msgDisp.dev.name)];
              wcb1.written == old(wcb1.written) + Encode(announcement)
              && wcb2.written == old(wcb2.written) + Encode(announcement)
    {
      BeginBroadcast();
      WriteAnnouncement();
      writerAny.EndWriteMsg();
    }

    method BeginBroadcast()
      requires Valid()
      modifies writerAny, wcb1, wcb2
      ensures writerAny.Open() && writerAny.fields == [Uuid.Hex(msgDisp.dev.id), BROADCAST_NAME]
      ensures writerAny.start1 == old(wcb1.written) && writerAny.start2 == old(wcb2.written)
    {
      writerAny.SetBroadcast();
      var ok := writerAny.BeginWriteMsg();
    }

    method WriteAnnouncement()
      requires Wired() && writerAny.Open() && writerAny.fields == [Uuid.Hex(msgDisp.dev.id), BROADCAST_NAME]
      modifies writerAny`needArgDelim, writerAny`fields, wcb1, wcb2
      ensures writerAny.Open()
      ensures writerAny.fields == [Uuid.Hex(msgDisp.dev.id), BROADCAST_NAME, "device_identified",
                CStr(msgDisp.dev.name)]
    {
      assert Plain("device_identified");
      writerAny.WriteArgNoEscape("device_identified");
      writerAny.WriteArg(CStr(msgDisp.dev.name));
    }

    /** `processMessage`: the answers go to both sides, addressed to the sender. */
    method ProcessMessage(srcId: Uuid.Id, msg: string, args: seq<string>)
      requires Valid()
      modifies writerAny, msgDisp, wcb1, wcb2
      ensures Valid() && msgDisp.callIdStr == NextCallId(old(msgDisp.callIdStr), msg, args)
      ensures var answers := EncodeReplies(ReplyHeader(msgDisp.dev.id, srcId),
                Replies(msgDisp.dev, old(msgDisp.callIdStr), msg, args));
              wcb1.written == old(wcb1.written) + answers && wcb2.written == old(wcb2.written) + answers
    {
      writerAny.SetDestId(srcId);
      msgDisp.ProcessMessage(msg, args);
      writerAny.SetBroadcast();
    }

    method Forward(wr: ARpcStreamWriter, p: Fields)
      requires |p| >= 2 && wr.Valid() && !wr.needArgDelim && wr.side2 == null
      modifies wr, wr.side1
      ensures wr.Valid() && !wr.needArgDelim
      ensures wr.side1.written == old(wr.side1.written) + Relayed(p)
    {
      ghost var was, rest := wr.side1.written, EscapedArgs(p[2..]);
      ForwardAddresses(wr, p[0], p[1]);
      ForwardArgs(wr, p);
      wr.EndWriteMsg();
      assert was + (p[0] + "|" + p[1]) + rest + "\n" == was + (p[0] + "|" + p[1] + rest + "\n");
    }

    method ForwardAddresses(wr: ARpcStreamWriter, src: string, dst: string)
      requires wr.Valid() && !wr.needArgDelim && wr.side2 == null
      modifies wr`needArgDelim, wr`fields, wr.side1
      ensures wr.Valid() && wr.needArgDelim
      ensures wr.side1.written == old(wr.side1.written) + (src + "|" + dst)
    {
      ghost var was := wr.side1.written;
      wr.WriteArgNoEscape(src);
      wr.WriteArgNoEscape(dst);
      assert was + "" + src + "|" + dst == was + (src + "|" + dst);
    }

    method ForwardArgs(wr: ARpcStreamWriter, p: Fields)
      requires |p| >= 2 && wr.Valid() && wr.needArgDelim && wr.side2 == null
      modifies wr`needArgDelim, wr`fields, wr.side1
      ensures wr.Valid() && wr.needArgDelim
      ensures wr.side1.written == old(wr.side1.written) + EscapedArgs(p[2..])
    {
      ghost var base := wr.side1.written;
      assert p[2..2] == [];
      for i := 2 to |p|
        invariant wr.Valid() && wr.needArgDelim
        invariant wr.side1.written == base + EscapedArgs(p[2..i])
      {
        EscapedArgsGrow(base, p, i);
        wr.WriteArg(p[i]);
      }
      assert p[2..|p|] == p[2..];
    }

    /** The callback of the parser of side `cb.wNum`. */
    method ProcessMsg(cb: MsgCallback, p: Fields)
      requires Valid() && cb in {msg1Cb, msg2Cb} && Processable(msgDisp.dev.id, cb.srcId, cb.dstId, p)
      modifies cb, writer1, writer2, writerAny, msgDisp, wcb1, wcb2
      ensures Valid()
      ensures var d := Decide(msgDisp.dev.id, old(cb.srcId), old(cb.dstId), p);
              && Mind(cb.srcId, cb.dstId, msgDisp.callIdStr)
                 == Remembered(msgDisp.dev, old(Mind(cb.srcId, cb.dstId, msgDisp.callIdStr)), p)
              && var r := React(msgDisp.dev, old(msgDisp.callIdStr), d, p);
              && wcb1.written == old(wcb1.written) + (if cb == msg1Cb then r.back else r.on)
              && wcb2.written == old(wcb2.written) + (if cb == msg1Cb then r.on else r.back)
    {
      ghost var d := Decide(msgDisp.dev.id, cb.srcId, cb.dstId, p);
      var known := ReadAddresses(cb, p);
      assert React(msgDisp.dev, msgDisp.callIdStr, d, p) == React(msgDisp.dev, msgDisp.callIdStr, Judged(known, cb), p);
      Act(known && cb.catched, known && cb.redirect, cb, p);
    }

    ghost function Judged(known: bool, cb: MsgCallback): Decision
      reads cb
    {
      Decision(cb.srcId, cb.dstId, known && cb.catched, known && cb.redirect)
    }

    method Act(catched: bool, redirect: bool, cb: MsgCallback, p: Fields)
      requires Valid() && cb in {msg1Cb, msg2Cb} && (catched ==> |p| >= 3) && (redirect ==> |p| >= 2)
      modifies writer1, writer2, writerAny, msgDisp, wcb1, wcb2
      ensures Valid()
      ensures msgDisp.callIdStr == if catched then NextCallId(old(msgDisp.callIdStr), p[2], p[3..])
              else old(msgDisp.callIdStr)
      ensures var r := React(msgDisp.dev, old(msgDisp.callIdStr), Decision(cb.srcId, cb.dstId, catched, redirect), p);
              && wcb1.written == old(wcb1.written) + (if cb == msg1Cb then r.back else r.on)
              && wcb2.written == old(wcb2.written) + (if cb == msg1Cb then r.on else r.back)
    {
      ghost var out1, out2 := wcb1.written, wcb2.written;
      ghost var d := Decision(cb.srcId, cb.dstId, catched, redirect);
      ghost var answers := React(msgDisp.dev, msgDisp.callIdStr, d, p).back;
      if catched { ProcessMessage(cb.srcId, p[2], p[3..]); }
      assert wcb1.written == out1 + answers && wcb2.written == out2 + answers;
      if redirect {
        if cb.wNum == 0 { Forward(writer2, p); } else { Forward(writer1, p); }
        Regroup3(out1, answers, Relayed(p));
        Regroup3(out2, answers, Relayed(p));
      } else {
        assert answers + "" == answers;
      }
    }

    /** The addresses of a packet and what they ask for; without a valid sender it is dropped. */
    method ReadAddresses(cb: MsgCallback, p: Fields) returns (known: bool)
      requires Addressable(cb.srcId, p)
      modifies cb
      ensures var d := Decide(msgDisp.dev.id, old(cb.srcId), old(cb.dstId), p);
              && cb.srcId == d.srcId && cb.dstId == d.dstId
              && d.catched == (known && cb.catched) && d.redirect == (known && cb.redirect)
    {
      cb.srcId := Uuid.Parse(cb.srcId, p[0]);
      cb.catched := false;
      cb.redirect := true;
      if !Uuid.IsValid(cb.srcId) { return false; }
      if p[1] != "" && p[1][0] == '#' {
        if p[1] == BROADCAST_NAME { cb.catched := true; }
      } else {
        cb.dstId := Uuid.Parse(cb.dstId, p[1]);
        if cb.dstId == msgDisp.dev.id {
          cb.catched := true;
          cb.redirect := false;
        }
      }
      known := true;
    }

    ghost function MindOf(cb: MsgCallback): Mind
      reads this, cb, msgDisp
    {
      Mind(cb.srcId, cb.dstId, msgDisp.callIdStr)
    }

    ghost function Mind1(): Mind
      reads this, msg1Cb, msgDisp
    {
      MindOf(msg1Cb)
    }

    ghost function Mind2(): Mind
      reads this, msg2Cb, msgDisp
    {
      MindOf(msg2Cb)
    }

    /** A byte on the first side. */
    method PutByte1(c: char)
      requires Valid() && SlotFree(parser1.Config(), c)
      requires AllProcessable(msgDisp.dev, Mind1(), Views(Step(parser1.buffer.Length, parser1.Config(), c).out))
      modifies parser1, parser1.buffer, parser1.args, msg1Cb, writer1, writer2, writerAny, msgDisp, wcb1, wcb2
      ensures Valid()
      ensures var r := Step(parser1.buffer.Length, old(parser1.Config()), c);
              && parser1.Config() == r.config
              && Mind1() == RememberedAll(msgDisp.dev, old(Mind1()), Views(r.out))
              && var reaction := ReactAll(msgDisp.dev, old(Mind1()), Views(r.out));
              && wcb1.written == old(wcb1.written) + reaction.back && wcb2.written == old(wcb2.written) + reaction.on
    {
      var m := parser1.PutByte(c);
      Deliver(msg1Cb, m);
    }

    /** A byte on the second side. */
    method PutByte2(c: char)
      requires Valid() && SlotFree(parser2.Config(), c)
      requires AllProcessable(msgDisp.dev, Mind2(), Views(Step(parser2.buffer.Length, parser2.Config(), c).out))
      modifies parser2, parser2.buffer, parser2.args, msg2Cb, writer1, writer2, writerAny, msgDisp, wcb1, wcb2
      ensures Valid()
      ensures var r := Step(parser2.buffer.Length, old(parser2.Config()), c);
              && parser2.Config() == r.config
              && Mind2() == RememberedAll(msgDisp.dev, old(Mind2()), Views(r.out))
              && var reaction := ReactAll(msgDisp.dev, old(Mind2()), Views(r.out));
              && wcb2.written == old(wcb2.written) + reaction.back && wcb1.written == old(wcb1.written) + reaction.on
    {
      var m := parser2.PutByte(c);
      Deliver(msg2Cb, m);
    }

    /** The parser of a side hands over the message it has completed, if it has completed one. */
    method Deliver(cb: MsgCallback, m: Option<Message>)
      requires Valid() && cb in {msg1Cb, msg2Cb} && AllProcessable(msgDisp.dev, MindOf(cb), Views(Listed(m)))
      modifies cb, writer1, writer2, writerAny, msgDisp, wcb1, wcb2
      ensures Valid() && MindOf(cb) == RememberedAll(msgDisp.dev, old(MindOf(cb)), Views(Listed(m)))
      ensures var reaction := ReactAll(msgDisp.dev, old(MindOf(cb)), Views(Listed(m)));
              && wcb1.written == old(wcb1.written) + (if cb == msg1Cb then reaction.back else reaction.on)
              && wcb2.written == old(wcb2.written) + (if cb == msg1Cb then reaction.on else reaction.back)
    {
      OneMessage(msgDisp.dev, MindOf(cb), Listed(m));
      if m.Some? { ProcessMsg(cb, View(m.value)); }
    }

    /** A block of bytes on the first side. */
    method PutData1(byteData: string)
      requires Valid() && Takes(parser1.buffer.Length, parser1.Config(), msgDisp.dev, Mind1(), byteData)
      modifies parser1, parser1.buffer, parser1.args, msg1Cb, writer1, writer2, writerAny, msgDisp, wcb1, wcb2
      ensures Valid()
      ensures var end := EndOf(parser1.buffer.Length, old(parser1.Config()), msgDisp.dev, old(Mind1()), byteData);
              && parser1.Config() == end.config && Mind1() == end.mind
              && wcb1.written == old(wcb1.written) + end.reaction.back
              && wcb2.written == old(wcb2.written) + end.reaction.on
    {
      ghost var n, dev, done := parser1.buffer.Length, msgDisp.dev, Reaction("", "");
      ghost var end := EndOf(n, parser1.Config(), dev, Mind1(), byteData);
      JointTwice(end.reaction, done, done);
      var i := 0;
      while i < |byteData|
        invariant 0 <= i <= |byteData| && Valid()
        invariant Remains(n, parser1.Config(), dev, Mind1(), byteData, i, done, end)
        invariant wcb1.written == old(wcb1.written) + done.back && wcb2.written == old(wcb2.written) + done.on
      {
        ghost var next := RemainsNext(n, parser1.Config(), dev, Mind1(), byteData, i, done, end);
        ghost var one := ReactAll(dev, Mind1(), Views(Step(n, parser1.Config(), byteData[i]).out));
        PutByte1(byteData[i]);
        Regroup3(old(wcb1.written), done.back, one.back);
        Regroup3(old(wcb2.written), done.on, one.on);
        done := next;
        i := i + 1;
      }
      RemainsNothing(n, parser1.Config(), dev, Mind1(), byteData, i, done, end);
    }

    /** A block of bytes on the second side. */
    method PutData2(byteData: string)
      requires Valid() && Takes(parser2.buffer.Length, parser2.Config(), msgDisp.dev, Mind2(), byteData)
      modifies parser2, parser2.buffer, parser2.args, msg2Cb, writer1, writer2, writerAny, msgDisp, wcb1, wcb2
      ensures Valid()
      ensures var end := EndOf(parser2.buffer.Length, old(parser2.Config()), msgDisp.dev, old(Mind2()), byteData);
              && parser2.Config() == end.config && Mind2() == end.mind
              && wcb2.written == old(wcb2.written) + end.reaction.back
              && wcb1.written == old(wcb1.written) + end.reaction.on
    {
      ghost var n, dev, done := parser2.buffer.Length, msgDisp.dev, Reaction("", "");
      ghost var end := EndOf(n, parser2.Config(), dev, Mind2(), byteData);
      JointTwice(end.reaction, done, done);
      var i := 0;
      while i < |byteData|
        invariant 0 <= i <= |byteData| && Valid()
        invariant Remains(n, parser2.Config(), dev, Mind2(), byteData, i, done, end)
        invariant wcb2.written == old(wcb2.written) + done.back && wcb1.written == old(wcb1.written) + done.on
      {
        ghost var next := RemainsNext(n, parser2.Config(), dev, Mind2(), byteData, i, done, end);
        ghost var one := ReactAll(dev, Mind2(), Views(Step(n, parser2.Config(), byteData[i]).out));
        PutByte2(byteData[i]);
        Regroup3(old(wcb2.written), done.back, one.back);
        Regroup3(old(wcb1.written), done.on, one.on);
        done := next;
        i := i + 1;
      }
      RemainsNothing(n, parser2.Config(), dev, Mind2(), byteData, i, done, end);
    }
  }

  /** The argument slots and what the parser delivers allow these bytes. */
  predicate Takes(bufSize: nat, rx: Config, dev: Device, m: Mind, input: string) {
    SlotsSuffice(bufSize, rx, input) && AllProcessable(dev, m, Views(Feed(bufSize, rx, input).out))
  }

  lemma {:induction false} TakesNext(bufSize: nat, rx: Config, dev: Device, m: Mind, input: string)
    requires input != "" && Takes(bufSize, rx, dev, m, input)
    ensures var first := Step(bufSize, rx, input[0]);
            var all, one := Views(Feed(bufSize, rx, input).out), Views(first.out);
            var rest := Views(Feed(bufSize, first.config, input[1..]).out);
            && SlotFree(rx, input[0]) && AllProcessable(dev, m, one)
            && Takes(bufSize, first.config, dev, RememberedAll(dev, m, one), input[1..])
            && ReactAll(dev, m, all) == Joint(ReactAll(dev, m, one), ReactAll(dev, RememberedAll(dev, m, one), rest))
            && RememberedAll(dev, m, all) == RememberedAll(dev, RememberedAll(dev, m, one), rest)
  {
    var first := Step(bufSize, rx, input[0]);
    var rest := Feed(bufSize, first.config, input[1..]);
    ViewsConcat(first.out, rest.out);
    ReactSplit(dev, m, Views(first.out), Views(rest.out));
  }

  /** What some bytes come to. */
  datatype End = End(config: Config, mind: Mind, reaction: Reaction)

  function EndOf(bufSize: nat, rx: Config, dev: Device, m: Mind, input: string): End
    requires Takes(bufSize, rx, dev, m, input)
  {
    var r := Feed(bufSize, rx, input);
    End(r.config, RememberedAll(dev, m, Views(r.out)), ReactAll(dev, m, Views(r.out)))
  }

  /** With `done` written, the bytes from the `i`-th on lead to `end`. */
  ghost predicate Remains(bufSize: nat, rx: Config, dev: Device, m: Mind, input: string, i: nat, done: Reaction,
      end: End) {
    && i <= |input| && Takes(bufSize, rx, dev, m, input[i..])
    && var rest := EndOf(bufSize, rx, dev, m, input[i..]);
    && rest.config == end.config && rest.mind == end.mind && Joint(done, rest.reaction) == end.reaction
  }

  lemma {:induction false} RemainsNext(bufSize: nat, rx: Config, dev: Device, m: Mind, input: string, i: nat,
      done: Reaction, end: End)
    returns (next: Reaction)
    requires Remains(bufSize, rx, dev, m, input, i, done, end) && i < |input|
    ensures var first := Step(bufSize, rx, input[i]);
            var one := Views(first.out);
            && SlotFree(rx, input[i]) && AllProcessable(dev, m, one) && next == Joint(done, ReactAll(dev, m, one))
            && Remains(bufSize, first.config, dev, RememberedAll(dev, m, one), input, i + 1, next, end)
  {
    var rest := input[i..];
    assert rest[0] == input[i] && rest[1..] == input[i + 1..];
    TakesNext(bufSize, rx, dev, m, rest);
    var first := Step(bufSize, rx, rest[0]);
    var one := Views(first.out);
    next := Joint(done, ReactAll(dev, m, one));
    JointTwice(done, ReactAll(dev, m, one),
               ReactAll(dev, RememberedAll(dev, m, one), Views(Feed(bufSize, first.config, rest[1..]).out)));
  }

  lemma {:induction false} RemainsNothing(bufSize: nat, rx: Config, dev: Device, m: Mind, input: string, i: nat,
      done: Reaction, end: End)
    requires Remains(bufSize, rx, dev, m, input, i, done, end) && i == |input|
    ensures end == End(rx, m, done)
  {
    assert input[i..] == "";
    JointTwice(done, Reaction("", ""), Reaction("", ""));
  }

  lemma {:induction false} OneMessage(dev: Device, m: Mind, ms: seq<Message>)
    requires |ms| <= 1 && AllProcessable(dev, m, Views(ms))
    ensures if ms == [] then ReactAll(dev, m, Views(ms)) == Reaction("", "") && RememberedAll(dev, m, Views(ms)) == m
            else
              var p := View(ms[0]);
              && Processable(dev.id, m.srcId, m.dstId, p)
              && ReactAll(dev, m, Views(ms)) == React(dev, m.callId, Decide(dev.id, m.srcId, m.dstId, p), p)
              && RememberedAll(dev, m, Views(ms)) == Remembered(dev, m, p)
  {
    if ms != [] {
      var p := View(ms[0]);
      assert Views(ms) == [p] && [p][1..] == [];
      JointTwice(React(dev, m.callId, Decide(dev.id, m.srcId, m.dstId, p), p), Reaction("", ""), Reaction("", ""));
    }
  }

  lemma {:induction false} Regroup3(a: string, b: string, c: string)
    ensures a + b + c == a + (b + c)
  {
  }

  lemma {:induction false} EscapedArgsGrow(base: string, p: Fields, i: nat)
    requires 2 <= i < |p|
    ensures base + EscapedArgs(p[2..i]) + "|" + Escaped(p[i]) == base + EscapedArgs(p[2..i + 1])
  {
    assert p[2..i + 1] == p[2..i] + [p[i]];
    EscapedArgsSplit(p[2..i], p[i]);
  }

  lemma {:induction false} EscapedArgsSplit(a: seq<string>, last: string)
    ensures EscapedArgs(a + [last]) == EscapedArgs(a) + ("|" + Escaped(last))
  {
    if a == [] {
      assert a + [last] == [last] && [last][1..] == [];
    } else {
      assert (a + [last])[1..] == a[1..] + [last];
      EscapedArgsSplit(a[1..], last);
    }
  }
}
