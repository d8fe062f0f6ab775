/** The StarNet line down to the byte: the delivery theorems for runs of single bytes, and the tie between the
    device object and the line model. */
module StarNetWire {
  import opened Common
  import opened StreamCodec
  import opened StreamWriter
  import opened Dispatch
  import opened DispatchAnswers
  import opened StarNetNode
  import opened Line
  import opened Wire
  import opened StarNetLine
  import Uuid

  lemma {:induction false} RepliesAreEncoded(header: seq<string>, bodies: seq<Fields>)
    ensures EncodeReplies(header, bodies) == EncodeAll(Addressed(header, bodies))
    decreases |bodies|
  {
    if bodies != [] {
      RepliesAreEncoded(header, bodies[1..]);
      assert Addressed(header, bodies)[1..] == Addressed(header, bodies[1..]);
    }
  }

  lemma {:induction false} RepliesForgetCallId(dev: Device, callId: string, msg: string, args: seq<string>)
    requires msg != "identify_hub"
    ensures Replies(dev, callId, msg, args) == Replies(dev, "", msg, args)
  {
  }

  /** What the device object of node `i` writes about a well-formed packet, whatever its callbacks and its dispatcher
      remember, is what the line model says. */
  lemma {:induction false} DeviceReactsAsModelled(devs: seq<Device>, i: nat, callId: string, srcId: Uuid.Id,
      dstId: Uuid.Id, p: Fields)
    requires i < |devs| && WellFormed(p)
    ensures Processable(devs[i].id, srcId, dstId, p)
    ensures React(devs[i], callId, Decide(devs[i].id, srcId, dstId, p), p)
            == Reaction(AnswerText(StarNet(devs), i, p), PassText(StarNet(devs), i, p))
  {
    DecideForgets(devs[i], srcId, dstId, p);
    ReactionText(devs[i], callId, Decide(devs[i].id, srcId, dstId, p), p);
    ModelText(devs, i, p);
  }

  lemma {:induction false} ReactionText(dev: Device, callId: string, d: Decision, p: Fields)
    requires WellFormed(p) && d.srcId == SourceOf(p)
    ensures var answers := if d.catched then EncodeAll(ReplyPackets(dev, p)) else "";
            React(dev, callId, d, p) == Reaction(answers, answers + if d.redirect then Encode(p) else "")
  {
    RepliesForgetCallId(dev, callId, p[2], p[3..]);
    RepliesAreEncoded(ReplyHeader(dev.id, SourceOf(p)), Replies(dev, "", p[2], p[3..]));
    RelayedIsEncodedIffPlain(p);
  }

  lemma {:induction false} ModelText(devs: seq<Device>, i: nat, p: Fields)
    requires i < |devs| && |p| >= 3
    ensures var answers := if Consumes(devs[i], p) then EncodeAll(ReplyPackets(devs[i], p)) else "";
            && AnswerText(StarNet(devs), i, p) == answers
            && PassText(StarNet(devs), i, p) == answers + if Forwards(devs[i], p) then Encode(p) else ""
  {
  }

  /** The answers of the line to `p` and `p` itself fit the parsers' buffers. */
  ghost predicate Fitting(devs: seq<Device>, bufSize: nat, p: Fields)
    requires |p| >= 3
  {
    && Fits(bufSize, p) && |p| <= MAX_ARGS + 1
    && forall i, k | 0 <= i < |devs| && 0 <= k < |ReplyPackets(devs[i], p)| ::
         Fits(bufSize, ReplyPackets(devs[i], p)[k]) && |ReplyPackets(devs[i], p)[k]| <= MAX_ARGS + 1
  }

  ghost predicate ValidIds(devs: seq<Device>) {
    DistinctIds(devs) && forall i | 0 <= i < |devs| :: Uuid.IsValid(devs[i].id)
  }

  lemma {:induction false} FittingIsSafe(devs: seq<Device>, bufSize: nat, p: Fields)
    requires ValidIds(devs) && WellFormed(p) && Fitting(devs, bufSize, p)
    ensures Safe(StarNet(devs), bufSize, p)
  {
    forall i: nat | i < StarNet(devs).count ensures AllClean(bufSize, StarNet(devs).replies(i, p)) {
      AnswersOnLine(devs, i, p);
      RepliesAreClean(devs, bufSize, p, i);
    }
    assert Clean(bufSize, p);
  }

  lemma {:induction false} RepliesAreClean(devs: seq<Device>, bufSize: nat, p: Fields, i: nat)
    requires ValidIds(devs) && WellFormed(p) && Fitting(devs, bufSize, p) && i < |devs|
    ensures AllClean(bufSize, ReplyPackets(devs[i], p))
  {
    RepliesWellFormed(devs[i], p);
    forall k | 0 <= k < |ReplyPackets(devs[i], p)| ensures Clean(bufSize, ReplyPackets(devs[i], p)[k]) {
      assert WellFormed(ReplyPackets(devs[i], p)[k]);
    }
  }

  /** Broadcast, byte by byte: however the bytes of the line are interleaved, once no byte is under way every other
      node has processed the packet once and the sender has processed every answer once. */
  lemma {:induction false} BroadcastOverBytes(devs: seq<Device>, bufSize: nat, s: nat, p: Fields, sched: seq<Chan>,
      end: Wires, i: int, q: Fields)
    requires ValidIds(devs) && s < |devs| && WellFormed(p) && SourceOf(p) == devs[s].id && p[1] == BROADCAST_NAME
    requires Fitting(devs, bufSize, p)
    requires BytesReach(StarNet(devs), bufSize, SentWires(StarNet(devs), s, p), sched, end) && Quiet(end)
    ensures var nodes := StarNet(devs);
            && Count(end.log, Consumed(i, q))
               == (if q == p && 0 <= i < |devs| && i != s then 1 else 0)
                  + (if i == s then AnswersIn(nodes, p, q, 0, s) + AnswersIn(nodes, p, q, s + 1, |devs|) else 0)
            && Count(end.log, Relay(i, p)) == if 0 <= i < |devs| && i != s then 1 else 0
  {
    StarNetIsLawful(devs);
    FittingIsSafe(devs, bufSize, p);
    var packets, net := QuietRun(StarNet(devs), bufSize, s, p, sched, end);
    BroadcastIsDelivered(devs, s, p, packets, net, i, q);
  }

  /** Unicast, byte by byte. */
  lemma {:induction false} UnicastOverBytes(devs: seq<Device>, bufSize: nat, s: nat, d: nat, p: Fields,
      sched: seq<Chan>, end: Wires, i: int, q: Fields)
    requires ValidIds(devs) && s < |devs| && d < |devs| && WellFormed(p) && Fitting(devs, bufSize, p)
    requires SourceOf(p) == devs[s].id && !IsReserved(p) && DestOf(p) == devs[d].id
    requires BytesReach(StarNet(devs), bufSize, SentWires(StarNet(devs), s, p), sched, end) && Quiet(end)
    ensures Count(end.log, Consumed(i, q))
            == if d == s then 0
               else (if q == p && i == d then 1 else 0)
                    + (if i == s then Occurrences(q, ReplyPackets(devs[d], p)) else 0)
    ensures Count(end.log, Relay(i, p))
            == if 0 <= i < |devs| && i != s && !(s < d <= i) && !(i <= d < s) then 1 else 0
  {
    StarNetIsLawful(devs);
    FittingIsSafe(devs, bufSize, p);
    var packets, net := QuietRun(StarNet(devs), bufSize, s, p, sched, end);
    UnicastIsDelivered(devs, s, d, p, packets, net, i, q);
  }

  /** Discovery, byte by byte: one `identify` to every other node, one `deviceinfo` back from every other node. */
  lemma {:induction false} DiscoveryOverBytes(devs: seq<Device>, bufSize: nat, s: nat, sched: seq<Chan>, end: Wires,
      i: int, q: Fields)
    requires ValidIds(devs) && s < |devs|
    requires Fits(bufSize, Identify(devs[s])) && forall k | 0 <= k < |devs| :: Fits(bufSize, Info(devs[k], devs[s]))
    requires BytesReach(StarNet(devs), bufSize, SentWires(StarNet(devs), s, Identify(devs[s])), sched, end)
             && Quiet(end)
    ensures i != s ==> Count(end.log, Consumed(i, q)) == if q == Identify(devs[s]) && 0 <= i < |devs| then 1 else 0
    ensures Count(end.log, Consumed(s, q))
            == if IsInfo(devs, s, q, 0, s) || IsInfo(devs, s, q, s + 1, |devs|) then 1 else 0
  {
    var p := Identify(devs[s]);
    StarNetIsLawful(devs);
    IdentifyWellFormed(devs[s]);
    IdentifyFits(devs, bufSize, s);
    FittingIsSafe(devs, bufSize, p);
    var packets, net := QuietRun(StarNet(devs), bufSize, s, p, sched, end);
    DiscoveryIsComplete(devs, s, packets, net, i, q);
  }

  /** What discovery tells the sender, byte by byte. */
  lemma {:induction false} DiscoveryTeachesOverBytes(devs: seq<Device>, bufSize: nat, s: nat, sched: seq<Chan>,
      end: Wires, u: Uuid.Id)
    requires ValidIds(devs) && s < |devs|
    requires Fits(bufSize, Identify(devs[s])) && forall k | 0 <= k < |devs| :: Fits(bufSize, Info(devs[k], devs[s]))
    requires BytesReach(StarNet(devs), bufSize, SentWires(StarNet(devs), s, Identify(devs[s])), sched, end)
             && Quiet(end)
    ensures Learned(devs, s, end.log, u)
  {
    forall q: Fields
      ensures Count(end.log, Consumed(s, q))
              == if IsInfo(devs, s, q, 0, s) || IsInfo(devs, s, q, s + 1, |devs|) then 1 else 0
    {
      DiscoveryOverBytes(devs, bufSize, s, sched, end, s, q);
    }
    CountsTeach(devs, s, end.log, u);
  }

  lemma {:induction false} IdentifyFits(devs: seq<Device>, bufSize: nat, s: nat)
    requires s < |devs|
    requires Fits(bufSize, Identify(devs[s])) && forall k | 0 <= k < |devs| :: Fits(bufSize, Info(devs[k], devs[s]))
    ensures Fitting(devs, bufSize, Identify(devs[s]))
  {
    forall i, k | 0 <= i < |devs| && 0 <= k < |ReplyPackets(devs[i], Identify(devs[s]))|
      ensures Fits(bufSize, ReplyPackets(devs[i], Identify(devs[s]))[k])
              && |ReplyPackets(devs[i], Identify(devs[s]))[k]| <= MAX_ARGS + 1
    {
      InfoFits(devs[i], devs[s], bufSize, k);
    }
  }

  lemma {:induction false} InfoFits(dev: Device, to: Device, bufSize: nat, k: nat)
    requires Fits(bufSize, Info(dev, to)) && k < |ReplyPackets(dev, Identify(to))|
    ensures Fits(bufSize, ReplyPackets(dev, Identify(to))[k]) && |ReplyPackets(dev, Identify(to))[k]| <= MAX_ARGS + 1
  {
    IdentifyAnswer(dev, to);
  }

  ghost predicate AllFitting(devs: seq<Device>, bufSize: nat, acts: seq<Action>) {
    forall k | 0 <= k < |acts| && acts[k].Write? :: |acts[k].p| >= 3 && Fitting(devs, bufSize, acts[k].p)
  }

  /** Any number of messages, written by any nodes at any time between single bytes: once no byte is under way, every
      node has processed what each of them would have brought it alone, no more and no less. */
  lemma {:induction false} AllOverBytes(devs: seq<Device>, bufSize: nat, acts: seq<Action>, end: Wires, i: int,
      q: Fields)
    requires ValidIds(devs) && AllSendable(devs, acts) && AllFitting(devs, bufSize, acts)
    requires BytesPlay(StarNet(devs), bufSize, IdleWires(StarNet(devs)), acts, end) && Quiet(end)
    ensures Count(end.log, Consumed(i, q)) == AllDeliveries(devs, acts, i, q)
  {
    StarNetIsLawful(devs);
    forall k | 0 <= k < |acts| && acts[k].Write? ensures Safe(StarNet(devs), bufSize, acts[k].p) {
      FittingIsSafe(devs, bufSize, acts[k].p);
    }
    BytesPlayedCount(StarNet(devs), bufSize, acts, end, Consumed(i, q));
    WrittenDeliveries(devs, acts, i, q);
  }

  /** Messages that the line carries. */
  ghost predicate AllCarried(devs: seq<Device>, bufSize: nat, acts: seq<Action>) {
    AllFitting(devs, bufSize, acts) && forall k | 0 <= k < |acts| && acts[k].Write? :: WellFormed(acts[k].p)
  }

  lemma {:induction false} PlayIsSafe(devs: seq<Device>, bufSize: nat, acts: seq<Action>, ws: Wires)
    requires ValidIds(devs) && AllCarried(devs, bufSize, acts)
    requires BytesPlay(StarNet(devs), bufSize, IdleWires(StarNet(devs)), acts, ws)
    ensures Lawful(StarNet(devs)) && WiresOk(StarNet(devs), bufSize, ws)
  {
    StarNetIsLawful(devs);
    forall k | 0 <= k < |acts| && acts[k].Write? ensures Safe(StarNet(devs), bufSize, acts[k].p) {
      FittingIsSafe(devs, bufSize, acts[k].p);
    }
    IdleWiresRefine(StarNet(devs), bufSize);
    BytesPlayConserves(StarNet(devs), bufSize, Relay(0, [""]), IdleWires(StarNet(devs)), acts, ws);
  }

  /** However bytes are read and messages written, the parsers' preconditions hold, and every byte read lowers a
      measure: between two writes no run of bytes goes on for ever. */
  lemma {:induction false} BytesEndSafely(devs: seq<Device>, bufSize: nat, acts: seq<Action>, ws: Wires, c: Chan)
    requires ValidIds(devs) && AllCarried(devs, bufSize, acts)
    requires BytesPlay(StarNet(devs), bufSize, IdleWires(StarNet(devs)), acts, ws) && Readable(StarNet(devs), ws, c)
    ensures Lawful(StarNet(devs)) && WiresOk(StarNet(devs), bufSize, ws)
    ensures var l := LinkAt(StarNet(devs), ws, c);
            SlotFree(l.rx, l.bytes[0])
    ensures var next := ReadByte(StarNet(devs), bufSize, ws, c);
            var f := Future(StarNet(devs), Any(), Abstract(bufSize, ws));
            var f' := Future(StarNet(devs), Any(), Abstract(bufSize, next));
            f' < f || (f' == f && Bytes(next.right) + Bytes(next.left) < Bytes(ws.right) + Bytes(ws.left))
  {
    PlayIsSafe(devs, bufSize, acts, ws);
    ReadByteMakesProgress(StarNet(devs), bufSize, ws, c);
  }

  /** And from wherever they have come some run of bytes brings the links to rest. */
  lemma {:induction false} BytesFallQuiet(devs: seq<Device>, bufSize: nat, acts: seq<Action>, ws: Wires)
    returns (sched: seq<Chan>, end: Wires)
    requires ValidIds(devs) && AllCarried(devs, bufSize, acts)
    requires BytesPlay(StarNet(devs), bufSize, IdleWires(StarNet(devs)), acts, ws)
    ensures BytesReach(StarNet(devs), bufSize, ws, sched, end) && Quiet(end)
  {
    PlayIsSafe(devs, bufSize, acts, ws);
    sched, end := SomeBytesFallQuiet(StarNet(devs), bufSize, ws);
  }

  // ----- a node on a line that is not clean

  /** What the line model says node `i` writes about some packets, one after the other. */
  function ModelReactions(devs: seq<Device>, i: nat, ps: seq<Fields>): Reaction {
    if ps == [] then Reaction("", "")
    else Joint(Reaction(AnswerText(StarNet(devs), i, ps[0]), PassText(StarNet(devs), i, ps[0])),
           ModelReactions(devs, i, ps[1..]))
  }

  ghost predicate AllWellFormed(ps: seq<Fields>) {
    forall k | 0 <= k < |ps| :: WellFormed(ps[k])
  }

  lemma {:induction false} PacketsReactAsModelled(devs: seq<Device>, i: nat, m: Mind, ps: seq<Fields>)
    requires i < |devs| && AllWellFormed(ps)
    ensures AllProcessable(devs[i], m, ps) && ReactAll(devs[i], m, ps) == ModelReactions(devs, i, ps)
    decreases |ps|
  {
    if ps != [] {
      DeviceReactsAsModelled(devs, i, m.callId, m.srcId, m.dstId, ps[0]);
      PacketsReactAsModelled(devs, i, Remembered(devs[i], m, ps[0]), ps[1..]);
    }
  }

  /** Packets that fit a parser's buffer. */
  ghost predicate AllFit(bufSize: nat, ps: seq<Fields>) {
    forall k | 0 <= k < |ps| :: Fits(bufSize, ps[k]) && |ps[k]| <= MAX_ARGS + 1
  }

  lemma {:induction false} PacketsAreViewed(bufSize: nat, ps: seq<Fields>)
    requires AllWellFormed(ps) && AllFit(bufSize, ps)
    ensures Views(DecodedAll(ps)) == ps && SlotsSuffice(bufSize, INIT, EncodeAll(ps))
  {
    ViewsOfDecoded(bufSize, ps);
    StreamSlots(bufSize, ps);
  }

  // ----- what the neighbours read

  /** A parser that is given `text` reads these packets. */
  ghost predicate ReadAs(bufSize: nat, text: string, ps: seq<Fields>) {
    Views(Feed(bufSize, INIT, text).out) == ps
  }

  lemma {:induction false} PacketsRead(bufSize: nat, ps: seq<Fields>)
    requires AllWellFormed(ps) && AllFit(bufSize, ps)
    ensures ReadAs(bufSize, EncodeAll(ps), ps)
  {
    PacketsAreViewed(bufSize, ps);
    StreamRoundTrip(bufSize, ps);
  }

  lemma {:induction false} EncodeAllWithLast(ps: seq<Fields>, p: Fields)
    ensures EncodeAll(ps + [p]) == EncodeAll(ps) + Encode(p)
    decreases |ps|
  {
    if ps == [] {
      assert [p][1..] == [] && ps + [p] == [p];
    } else {
      assert (ps + [p])[1..] == ps[1..] + [p];
      EncodeAllWithLast(ps[1..], p);
    }
  }

  /** The packet is for this node, and whether it is for others too. */
  predicate IsFor(p: Fields, own: Uuid.Id)
    requires |p| >= 2
  {
    p[1] == "#broadcast" || (p[1] != "" && p[1][0] != '#' && Uuid.Parse(Uuid.NULL_ID, p[1]) == own)
  }

  predicate GoesOn(p: Fields, own: Uuid.Id)
    requires |p| >= 2
  {
    (p[1] != "" && p[1][0] == '#') || Uuid.Parse(Uuid.NULL_ID, p[1]) != own
  }

  /** What the neighbours read of a node's reaction: its answers, each behind its own id and the id of the sender, and
      on the far side, behind them, the packet itself when it goes on. */
  lemma {:induction false} NeighboursRead(bufSize: nat, dev: Device, callId: string, srcId: Uuid.Id, dstId: Uuid.Id,
      p: Fields)
    requires WellFormed(p) && AllFit(bufSize, [p]) && Uuid.IsValid(dev.id) && AllFit(bufSize, ReplyPackets(dev, p))
    ensures Processable(dev.id, srcId, dstId, p)
    ensures var r := React(dev, callId, Decide(dev.id, srcId, dstId, p), p);
            var answers := if IsFor(p, dev.id) then ReplyPackets(dev, p) else [];
            && ReadAs(bufSize, r.back, answers)
            && ReadAs(bufSize, r.on, answers + if GoesOn(p, dev.id) then [p] else [])
  {
    DecideForgets(dev, srcId, dstId, p);
    var d := Decide(dev.id, srcId, dstId, p);
    ReactionText(dev, callId, d, p);
    AnswersAreWellFormed(dev, p);
    var answers := if IsFor(p, dev.id) then ReplyPackets(dev, p) else [];
    TextsRead(bufSize, answers, p, d.redirect);
  }

  lemma {:induction false} AnswersAreWellFormed(dev: Device, p: Fields)
    requires WellFormed(p) && Uuid.IsValid(dev.id)
    ensures AllWellFormed(ReplyPackets(dev, p))
  {
    RepliesWellFormed(dev, p);
  }

  lemma {:induction false} TextsRead(bufSize: nat, answers: seq<Fields>, p: Fields, goesOn: bool)
    requires AllWellFormed(answers) && AllFit(bufSize, answers) && WellFormed(p) && AllFit(bufSize, [p])
    ensures ReadAs(bufSize, EncodeAll(answers), answers)
    ensures ReadAs(bufSize, EncodeAll(answers) + if goesOn then Encode(p) else "", answers + if goesOn then [p] else [])
  {
    PacketsRead(bufSize, answers);
    if goesOn {
      WithLastFits(bufSize, answers, p);
      PacketsRead(bufSize, answers + [p]);
      EncodeAllWithLast(answers, p);
    } else {
      assert EncodeAll(answers) + "" == EncodeAll(answers) && answers + [] == answers;
    }
  }

  lemma {:induction false} WithLastFits(bufSize: nat, answers: seq<Fields>, p: Fields)
    requires AllWellFormed(answers) && AllFit(bufSize, answers) && WellFormed(p) && AllFit(bufSize, [p])
    ensures AllWellFormed(answers + [p]) && AllFit(bufSize, answers + [p])
  {
    assert [p][0] == p;
  }

  // ----- what a node remembers

  /** The call id a node refuses a later `identify_hub` with is that of the last call it has processed, even when other
      packets have gone through in between. */
  lemma {:induction false} CallIdIsKept(dev: Device, m: Mind, p: Fields, q: Fields)
    requires WellFormed(p) && IsFor(p, dev.id) && p[2] == "call" && |p| >= 5 && p[3] != "" && p[4] != ""
    requires WellFormed(q) && !IsFor(q, dev.id)
    ensures Processable(dev.id, m.srcId, m.dstId, p)
    ensures var n := Remembered(dev, m, p);
            && Processable(dev.id, n.srcId, n.dstId, q)
            && n.callId == p[3] == Remembered(dev, n, q).callId
            && Replies(dev, n.callId, "identify_hub", []) == [["err", p[3], "not a hub device"]]
  {
    DecideForgets(dev, m.srcId, m.dstId, p);
    var n := Remembered(dev, m, p);
    DecideForgets(dev, n.srcId, n.dstId, q);
    assert p[3..][0] == p[3] && p[3..][1] == p[4];
    OtherMessagesTell(dev, p[3], []);
  }

  /** A text in neither form of an id does not change who a node thinks is speaking: such a packet is judged as one from
      the sender of the packet before. */
  lemma {:induction false} SenderIsKept(dev: Device, m: Mind, p: Fields, q: Fields)
    requires WellFormed(p) && |q| >= 2
    requires if |q[0]| == 38 then q[0][0] != '{' else |q[0]| == 32 ==> q[0][0] == '{'
    ensures Processable(dev.id, m.srcId, m.dstId, p)
    ensures var n := Remembered(dev, m, p);
            Addressable(n.srcId, q) && Decide(dev.id, n.srcId, n.dstId, q).srcId == SourceOf(p)
  {
    DecideForgets(dev, m.srcId, m.dstId, p);
    Uuid.OtherTextKeepsId(Remembered(dev, m, p).srcId, q[0]);
  }

  /** The same for the destination: a packet whose destination is in neither form is taken to be for whom the last
      packet to a device was for. */
  lemma {:induction false} DestinationIsKept(dev: Device, m: Mind, p: Fields, q: Fields)
    requires WellFormed(p) && p[1][0] != '#' && |q| >= 3 && IsSource(q[0]) && (q[1] != "" ==> q[1][0] != '#')
    requires if |q[1]| == 38 then q[1][0] != '{' else |q[1]| == 32 ==> q[1][0] == '{'
    ensures Processable(dev.id, m.srcId, m.dstId, p)
    ensures var n := Remembered(dev, m, p);
            && Addressable(n.srcId, q)
            && var d := Decide(dev.id, n.srcId, n.dstId, q);
            d.dstId == DestOf(p) && d.catched == IsFor(p, dev.id) && d.redirect == !IsFor(p, dev.id)
  {
    DecideForgets(dev, m.srcId, m.dstId, p);
    Uuid.OtherTextKeepsId(Remembered(dev, m, p).dstId, q[1]);
  }

  /** After noise that the node can take, and three newlines, it answers and forwards the packets that follow as the
      line model says, whatever the noise has left in its parser, its callback and its dispatcher. */
  lemma {:induction false} NodeAfterNoise(devs: seq<Device>, i: nat, bufSize: nat, rx: Config, m: Mind, noise: string,
      ps: seq<Fields>)
    requires i < |devs| && bufSize >= 1 && AllWellFormed(ps) && AllFit(bufSize, ps)
    requires Takes(bufSize, rx, devs[i], m, noise + "\n\n\n")
    ensures Takes(bufSize, rx, devs[i], m, noise + "\n\n\n" + EncodeAll(ps))
    ensures EndOf(bufSize, rx, devs[i], m, noise + "\n\n\n" + EncodeAll(ps)).config == INIT
    ensures EndOf(bufSize, rx, devs[i], m, noise + "\n\n\n" + EncodeAll(ps)).reaction
            == Joint(EndOf(bufSize, rx, devs[i], m, noise + "\n\n\n").reaction, ModelReactions(devs, i, ps))
  {
    var before := noise + "\n\n\n";
    var garbled := Feed(bufSize, rx, before).out;
    FeedSplit(bufSize, rx, noise, "\n\n\n");
    ThreeNewlinesResync(bufSize, Feed(bufSize, rx, noise).config);
    StreamAfterNoise(bufSize, rx, noise, ps);
    PacketsAreViewed(bufSize, ps);
    SlotsSplit(bufSize, rx, before, EncodeAll(ps));
    ViewsConcat(garbled, DecodedAll(ps));
    PacketsReactAsModelled(devs, i, RememberedAll(devs[i], m, Views(garbled)), ps);
    ReactSplit(devs[i], m, Views(garbled), ps);
  }

  function Newlines(n: nat): (t: string)
    ensures |t| == n
  {
    if n == 0 then "" else "\n" + Newlines(n - 1)
  }

  lemma {:induction false} EmptyIsDropped(dev: Device, m: Mind)
    requires !Uuid.IsValid(m.srcId)
    ensures AllProcessable(dev, m, [[""]]) && ReactAll(dev, m, [[""]]) == Reaction("", "")
            && RememberedAll(dev, m, [[""]]) == m
  {
    assert Processable(dev.id, m.srcId, m.dstId, [""]) && Remembered(dev, m, [""]) == m;
    assert [[""]][1..] == [];
  }

  lemma {:induction false} NewlineIsEmpty(bufSize: nat)
    requires bufSize >= 1
    ensures Step(bufSize, INIT, '\n').config == INIT && Views(Step(bufSize, INIT, '\n').out) == [[""]]
  {
    assert Step(bufSize, INIT, '\n') == Run(INIT, [Message("", [])]);
    assert TextAt("", 0) == "" && View(Message("", [])) == [""];
  }

  /** A node that knows no sender yet drops the empty messages of any number of newlines. */
  lemma {:induction false} FreshNodeTakesNewlines(bufSize: nat, dev: Device, m: Mind, n: nat)
    requires bufSize >= 1 && !Uuid.IsValid(m.srcId)
    ensures Takes(bufSize, INIT, dev, m, Newlines(n))
            && EndOf(bufSize, INIT, dev, m, Newlines(n)) == End(INIT, m, Reaction("", ""))
  {
    if n > 0 {
      FreshNodeTakesNewlines(bufSize, dev, m, n - 1);
      var one, rest := Step(bufSize, INIT, '\n'), Feed(bufSize, INIT, Newlines(n - 1));
      assert Newlines(n)[0] == '\n' && Newlines(n)[1..] == Newlines(n - 1);
      NewlineIsEmpty(bufSize);
      EmptyIsDropped(dev, m);
      ViewsConcat(one.out, rest.out);
      ReactSplit(dev, m, Views(one.out), Views(rest.out));
    }
  }
}
