/** StarNet nodes on a line: the delivery theorems for whole runs. */
module StarNetLine {
  import opened Common
  import opened StreamCodec
  import opened StreamWriter
  import opened Dispatch
  import opened DispatchAnswers
  import opened StarNetNode
  import opened Line
  import Uuid

  // ----- packets

  function SourceOf(p: Fields): Uuid.Id {
    Uuid.Parse(Uuid.NULL_ID, p[0])
  }

  function DestOf(p: Fields): Uuid.Id
    requires |p| >= 2
  {
    Uuid.Parse(Uuid.NULL_ID, p[1])
  }

  /** A text that names a device, and one that names a device or a reserved destination. */
  ghost predicate IsSource(s: string) {
    Plain(s) && Uuid.FullForm(s) && Uuid.IsValid(Uuid.Parse(Uuid.NULL_ID, s))
  }

  ghost predicate IsDestination(s: string) {
    Plain(s) && ((s != "" && s[0] == '#') || Uuid.FullForm(s))
  }

  /** `identify_hub` is left out: its answer carries a call id that was never set. */
  ghost predicate WellFormed(p: Fields) {
    |p| >= 3 && AllZeroFree(p) && IsSource(p[0]) && IsDestination(p[1]) && p[2] != "identify_hub"
  }

  predicate Consumes(dev: Device, p: Fields)
    requires |p| >= 2
  {
    if IsReserved(p) then p[1] == BROADCAST_NAME else DestOf(p) == dev.id
  }

  predicate Forwards(dev: Device, p: Fields)
    requires |p| >= 2
  {
    IsReserved(p) || DestOf(p) != dev.id
  }

  /** A well-formed packet is judged without regard to what the callback object remembers. */
  lemma {:induction false} DecideForgets(dev: Device, srcId: Uuid.Id, dstId: Uuid.Id, p: Fields)
    requires WellFormed(p)
    ensures var d := Decide(dev.id, srcId, dstId, p);
            d.catched == Consumes(dev, p) && d.redirect == Forwards(dev, p) && d.srcId == SourceOf(p)
  {
  }

  function Addressed(header: seq<string>, rs: seq<Fields>): (r: seq<Fields>)
    ensures |r| == |rs|
    ensures forall i | 0 <= i < |rs| :: r[i] == header + rs[i]
  {
    seq(|rs|, i requires 0 <= i < |rs| => header + rs[i])
  }

  /** The packets a node puts on both sides when it consumes `p`. */
  function ReplyPackets(dev: Device, p: Fields): seq<Fields>
    requires |p| >= 3
  {
    Addressed(ReplyHeader(dev.id, SourceOf(p)), Replies(dev, "", p[2], p[3..]))
  }

  predicate ReplyShape(own: Uuid.Id, to: Uuid.Id, r: Fields) {
    |r| >= 3 && r[0] == Uuid.Hex(own) && r[1] == Uuid.Hex(to) && !Triggers(r[2])
  }

  lemma {:induction false} AddressedShape(own: Uuid.Id, to: Uuid.Id, bodies: seq<Fields>)
    requires NoneTriggers(bodies)
    ensures forall k | 0 <= k < |bodies| :: ReplyShape(own, to, Addressed(ReplyHeader(own, to), bodies)[k])
  {
    var r := Addressed(ReplyHeader(own, to), bodies);
    forall k | 0 <= k < |bodies| ensures ReplyShape(own, to, r[k]) {
      assert r[k][2] == bodies[k][0];
    }
  }

  /** Answers are final: from the node, addressed to the sender, and never answered. */
  lemma {:induction false} ReplyPacketsShape(dev: Device, p: Fields)
    requires |p| >= 3
    ensures !Triggers(p[2]) ==> ReplyPackets(dev, p) == []
    ensures forall k | 0 <= k < |ReplyPackets(dev, p)| :: ReplyShape(dev.id, SourceOf(p), ReplyPackets(dev, p)[k])
  {
    AnswersAreFinal(dev, "", p[2], p[3..]);
    AddressedShape(dev.id, SourceOf(p), Replies(dev, "", p[2], p[3..]));
  }

  lemma {:induction false} ReplyIsUnicast(own: Uuid.Id, to: Uuid.Id, r: Fields)
    requires ReplyShape(own, to, r)
    ensures !IsReserved(r) && DestOf(r) == to && SourceOf(r) == own
  {
    Uuid.HexParses(Uuid.NULL_ID, own);
    Uuid.HexParses(Uuid.NULL_ID, to);
    HexIsNotReserved(to);
  }

  lemma {:induction false} HexIsNotReserved(u: Uuid.Id)
    ensures Uuid.Hex(u)[0] != '#'
  {
    Uuid.HexRoundTrip(u);
    assert Uuid.ByteFromHexChar(Uuid.Hex(u)[0]) != Uuid.BAD_DIGIT;
  }

  // ----- well-formedness is kept

  lemma {:induction false} WriteBodyClean(callId: string, w: CommandWrite)
    requires ZeroFree(callId)
    ensures AllZeroFree(WriteBody(callId, w))
  {
    var b := WriteBody(callId, w);
    assert ZeroFree("ok") && ZeroFree("err") && ZeroFree("info") && ZeroFree("meas");
    var k := if IsAnswer(w) then 2 else 1;
    forall i | 0 <= i < |b| ensures ZeroFree(b[i]) {
      if i >= k { assert b[i] == CStrs(w.args)[i - k]; }
    }
  }

  lemma {:induction false} AnswerClean(title: string, callId: string, args: seq<string>)
    requires ZeroFree(title) && ZeroFree(callId)
    ensures AllZeroFree(Answer(title, callId, args))
  {
    var b := Answer(title, callId, args);
    forall i | 0 <= i < |b| ensures ZeroFree(b[i]) {
      if i >= 2 { assert b[i] == CStrs(args)[i - 2]; }
    }
  }

  ghost predicate AllZeroFreeReplies(rs: seq<Fields>) {
    forall k | 0 <= k < |rs| :: AllZeroFree(rs[k])
  }

  lemma {:induction false} RepliesClean(dev: Device, msg: string, args: seq<string>)
    requires AllZeroFree(args) && msg != "identify_hub"
    ensures AllZeroFreeReplies(Replies(dev, "", msg, args))
  {
    if msg == "identify" {
      InfoClean(dev);
    } else if msg == "call" && |args| >= 2 {
      assert ZeroFree(args[0]);
      if args[0] != "" && args[1] != "" {
        if args[1][0] == '#' {
          SystemReplyClean(dev, args);
        } else {
          UserReplyClean(dev, args);
        }
      }
    }
  }

  lemma {:induction false} InfoClean(dev: Device)
    ensures AllZeroFree(DeviceInfo(dev))
  {
    RfcIsPlain(dev.id);
    if dev.typeId.Some? { RfcIsPlain(dev.typeId.value); }
  }

  lemma {:induction false} UserReplyClean(dev: Device, args: seq<string>)
    requires |args| >= 2 && ZeroFree(args[0])
    ensures AllZeroFreeReplies(UserCallReplies(dev, args))
  {
    var ws := CommandWrites(dev, args[1], args[2..]);
    forall i | 0 <= i < |ws| ensures AllZeroFree(WriteBodies(args[0], ws)[i]) {
      WriteBodyClean(args[0], ws[i]);
    }
  }

  lemma {:induction false} SystemReplyClean(dev: Device, args: seq<string>)
    requires |args| >= 2 && ZeroFree(args[0])
    ensures AllZeroFree(SystemCallReply(dev, args))
  {
    assert ZeroFree("ok");
    AnswerClean("ok", args[0], []);
    AnswerClean("ok", args[0], dev.state);
    if dev.sensors.Some? { AnswerClean("ok", args[0], [dev.sensors.value]); }
    if dev.controls.Some? { AnswerClean("ok", args[0], [dev.controls.value]); }
  }

  lemma {:induction false} HexIsAddress(u: Uuid.Id)
    ensures ZeroFree(Uuid.Hex(u)) && IsDestination(Uuid.Hex(u)) && (Uuid.IsValid(u) ==> IsSource(Uuid.Hex(u)))
  {
    Uuid.HexParses(Uuid.NULL_ID, u);
    HexOfIsPlain(u);
  }

  lemma {:induction false} AssembledWellFormed(own: Uuid.Id, to: Uuid.Id, body: Fields)
    requires Uuid.IsValid(own) && AllZeroFree(body) && body[0] != "identify_hub"
    ensures WellFormed(ReplyHeader(own, to) + body)
  {
    HexIsAddress(own);
    HexIsAddress(to);
    HeaderOnto(Uuid.Hex(own), Uuid.Hex(to), body);
  }

  lemma {:induction false} HeaderOnto(a: string, b: string, body: Fields)
    requires ZeroFree(a) && ZeroFree(b) && AllZeroFree(body)
    ensures var r := [a, b] + body;
            |r| >= 3 && r[0] == a && r[1] == b && r[2] == body[0] && AllZeroFree(r)
  {
    var r := [a, b] + body;
    forall i | 0 <= i < |r| ensures ZeroFree(r[i]) {
      if i >= 2 { assert r[i] == body[i - 2]; }
    }
  }

  /** What a node answers to a well-formed packet is well formed. */
  lemma {:induction false} RepliesWellFormed(dev: Device, p: Fields)
    requires WellFormed(p) && Uuid.IsValid(dev.id)
    ensures forall k | 0 <= k < |ReplyPackets(dev, p)| :: WellFormed(ReplyPackets(dev, p)[k])
  {
    var bodies := Replies(dev, "", p[2], p[3..]);
    AnswersAreFinal(dev, "", p[2], p[3..]);
    RepliesClean(dev, p[2], p[3..]);
    forall k | 0 <= k < |bodies| ensures WellFormed(Addressed(ReplyHeader(dev.id, SourceOf(p)), bodies)[k]) {
      AssembledWellFormed(dev.id, SourceOf(p), bodies[k]);
    }
  }

  // ----- the line

  function StarNet(devs: seq<Device>): Nodes {
    Nodes(
      |devs|,
      (i: nat, p: Fields) => i < |devs| && |p| >= 3 && Consumes(devs[i], p),
      (i: nat, p: Fields) => i >= |devs| || |p| < 3 || Forwards(devs[i], p),
      (i: nat, p: Fields) => if i < |devs| && |p| >= 3 then ReplyPackets(devs[i], p) else [],
      (p: Fields) => |p| >= 3 && Triggers(p[2]))
  }

  lemma {:induction false} StarNetIsLawful(devs: seq<Device>)
    ensures Lawful(StarNet(devs))
  {
    var nodes := StarNet(devs);
    forall i: nat, p | true
      ensures (!nodes.triggers(p) ==> nodes.replies(i, p) == []) && Final(nodes, nodes.replies(i, p))
    {
      if i < |devs| && |p| >= 3 {
        ReplyPacketsShape(devs[i], p);
      }
    }
  }

  ghost predicate DistinctIds(devs: seq<Device>) {
    forall i, j | 0 <= i < |devs| && 0 <= j < |devs| && i != j :: devs[i].id != devs[j].id
  }

  lemma {:induction false} ReplyOnLine(devs: seq<Device>, s: nat, own: Uuid.Id, r: Fields)
    requires DistinctIds(devs) && s < |devs| && ReplyShape(own, devs[s].id, r)
    ensures IsUnicast(StarNet(devs), r, s) && !IsReserved(r) && DestOf(r) == devs[s].id
  {
    ReplyIsUnicast(own, devs[s].id, r);
    UnicastOnLine(devs, s, s, r);
  }

  /** The answers of every node to a packet of node `s` are unicasts to node `s`. */
  lemma {:induction false} AnswersGoBack(devs: seq<Device>, s: nat, p: Fields)
    requires DistinctIds(devs) && s < |devs| && |p| >= 3 && SourceOf(p) == devs[s].id
    requires IsReserved(p) || DestOf(p) != devs[s].id
    ensures AnswersReturn(StarNet(devs), p, s)
  {
    var nodes := StarNet(devs);
    forall k: nat | k < |devs| ensures AllUnicast(nodes, nodes.replies(k, p), s, p) {
      var rs := nodes.replies(k, p);
      ReplyPacketsShape(devs[k], p);
      forall j | 0 <= j < |rs| ensures IsUnicast(nodes, rs[j], s) && rs[j] != p {
        assert ReplyShape(devs[k].id, devs[s].id, rs[j]);
        ReplyOnLine(devs, s, devs[k].id, rs[j]);
      }
    }
  }

  /** Broadcast: in every interleaving, once the line is silent every node but the sender has processed the packet
      exactly once, and the sender has processed every answer of every other node exactly once. */
  lemma {:induction false} BroadcastIsDelivered(devs: seq<Device>, s: nat, p: Fields, sched: seq<Chan>, end: Net,
      i: int, q: Fields)
    requires DistinctIds(devs) && s < |devs| && WellFormed(p) && SourceOf(p) == devs[s].id && p[1] == BROADCAST_NAME
    requires Reaches(StarNet(devs), Sent(StarNet(devs), s, p), sched, end) && Silent(end)
    ensures var nodes := StarNet(devs);
            && Count(end.log, Consumed(i, q))
               == (if q == p && 0 <= i < |devs| && i != s then 1 else 0)
                  + (if i == s then AnswersIn(nodes, p, q, 0, s) + AnswersIn(nodes, p, q, s + 1, |devs|) else 0)
            && Count(end.log, Relay(i, p)) == if 0 <= i < |devs| && i != s then 1 else 0
  {
    StarNetIsLawful(devs);
    AnswersGoBack(devs, s, p);
    BroadcastRuns(StarNet(devs), s, p, sched, end, i, q);
  }

  /** Unicast: the addressee alone processes the packet, once; it is not forwarded there or beyond; the sender
      processes each answer once. A packet to the sender itself is processed by nobody. */
  lemma {:induction false} UnicastIsDelivered(devs: seq<Device>, s: nat, d: nat, p: Fields, sched: seq<Chan>, end: Net,
      i: int, q: Fields)
    requires DistinctIds(devs) && s < |devs| && d < |devs| && WellFormed(p)
    requires SourceOf(p) == devs[s].id && !IsReserved(p) && DestOf(p) == devs[d].id
    requires Reaches(StarNet(devs), Sent(StarNet(devs), s, p), sched, end) && Silent(end)
    ensures Count(end.log, Consumed(i, q))
            == if d == s then 0
               else (if q == p && i == d then 1 else 0)
                    + (if i == s then Occurrences(q, ReplyPackets(devs[d], p)) else 0)
    ensures Count(end.log, Relay(i, p))
            == if 0 <= i < |devs| && i != s && !(s < d <= i) && !(i <= d < s) then 1 else 0
  {
    StarNetIsLawful(devs);
    UnicastOnLine(devs, s, d, p);
    if s != d { AnswersGoBack(devs, s, p); }
    AnswersOnLine(devs, d, p);
    UnicastRuns(StarNet(devs), s, d, p, sched, end, i, q);
  }

  lemma {:induction false} UnicastOnLine(devs: seq<Device>, s: nat, d: nat, p: Fields)
    requires DistinctIds(devs) && s < |devs| && d < |devs| && |p| >= 3 && !IsReserved(p) && DestOf(p) == devs[d].id
    ensures IsUnicast(StarNet(devs), p, d) && (s != d ==> DestOf(p) != devs[s].id)
  {
  }

  // ----- any packets at any time

  /** Where on the line the device with this id is, or -1. */
  function Place(devs: seq<Device>, id: Uuid.Id): (d: int)
    ensures -1 <= d < |devs|
    ensures if d < 0 then forall k | 0 <= k < |devs| :: devs[k].id != id else devs[d].id == id
  {
    if devs == [] then -1
    else if devs[|devs| - 1].id == id then |devs| - 1
    else Place(devs[..|devs| - 1], id)
  }

  /** The node a packet is for, or -1 for a reserved destination or one that is not on the line. */
  function Target(devs: seq<Device>, p: Fields): (d: int)
    requires |p| >= 2
    ensures -1 <= d < |devs|
  {
    if IsReserved(p) then -1 else Place(devs, DestOf(p))
  }

  /** A packet that node `s` may write: well formed, in its own name. */
  ghost predicate Sendable(devs: seq<Device>, s: nat, p: Fields) {
    s < |devs| && WellFormed(p) && SourceOf(p) == devs[s].id
  }

  /** How often node `i` processes `q` on account of the packet `p` of node `s`: as one it is sent, or as an answer. */
  ghost function Deliveries(devs: seq<Device>, s: nat, p: Fields, i: int, q: Fields): nat
    requires |p| >= 3
  {
    var nodes, d := StarNet(devs), Target(devs, p);
    if p[1] == BROADCAST_NAME then
      (if q == p && 0 <= i < |devs| && i != s then 1 else 0)
      + (if i == s then AnswersIn(nodes, p, q, 0, s) + AnswersIn(nodes, p, q, s + 1, |devs|) else 0)
    else if d < 0 || d == s then 0
    else (if q == p && i == d then 1 else 0) + (if i == s then Occurrences(q, ReplyPackets(devs[d], p)) else 0)
  }

  lemma {:induction false} TargetOnLine(devs: seq<Device>, s: nat, p: Fields)
    requires DistinctIds(devs) && Sendable(devs, s, p) && p[1] != BROADCAST_NAME
    ensures IsUnicast(StarNet(devs), p, Target(devs, p))
    ensures Target(devs, p) == s <==> !IsReserved(p) && DestOf(p) == devs[s].id
  {
  }

  lemma {:induction false} DeliveriesOfOne(devs: seq<Device>, s: nat, p: Fields, i: int, q: Fields)
    requires DistinctIds(devs) && Sendable(devs, s, p)
    ensures Lawful(StarNet(devs)) && SentOutcome(StarNet(devs), Consumed(i, q), s, p) == Deliveries(devs, s, p, i, q)
  {
    StarNetIsLawful(devs);
    if p[1] == BROADCAST_NAME {
      AnswersGoBack(devs, s, p);
      BroadcastOnLine(devs, p);
      BroadcastOutcome(StarNet(devs), s, p, i, q);
    } else {
      TargetOnLine(devs, s, p);
      if Target(devs, p) != s { AnswersGoBack(devs, s, p); }
      UnicastOutcome(StarNet(devs), s, Target(devs, p), p, i, q);
      AnswersOnLine(devs, Target(devs, p), p);
    }
  }

  lemma {:induction false} BroadcastOnLine(devs: seq<Device>, p: Fields)
    requires |p| >= 3 && p[1] == BROADCAST_NAME
    ensures IsBroadcast(StarNet(devs), p) && StarNet(devs).count == |devs|
  {
  }

  lemma {:induction false} AnswersOnLine(devs: seq<Device>, d: int, p: Fields)
    requires |p| >= 3
    ensures 0 <= d < |devs| ==> StarNet(devs).replies(d, p) == ReplyPackets(devs[d], p)
  {
  }

  ghost predicate AllSendable(devs: seq<Device>, acts: seq<Action>) {
    forall k | 0 <= k < |acts| && acts[k].Write? :: Sendable(devs, acts[k].s, acts[k].p)
  }

  ghost function AllDeliveries(devs: seq<Device>, acts: seq<Action>, i: int, q: Fields): nat
    requires AllSendable(devs, acts)
    decreases |acts|
  {
    if acts == [] then 0
    else (if acts[0].Write? then Deliveries(devs, acts[0].s, acts[0].p, i, q) else 0)
         + AllDeliveries(devs, acts[1..], i, q)
  }

  lemma {:induction false} WrittenDeliveries(devs: seq<Device>, acts: seq<Action>, i: int, q: Fields)
    requires DistinctIds(devs) && AllSendable(devs, acts) && Lawful(StarNet(devs))
    ensures WrittenOutcome(StarNet(devs), Consumed(i, q), acts) == AllDeliveries(devs, acts, i, q)
    decreases |acts|
  {
    if acts != [] {
      if acts[0].Write? { DeliveriesOfOne(devs, acts[0].s, acts[0].p, i, q); }
      WrittenDeliveries(devs, acts[1..], i, q);
    }
  }

  /** Any number of packets, put on the line by any nodes at any time while it is at work: once it is silent, every
      node has processed what each of them would have brought it alone, no more and no less. */
  lemma {:induction false} AllAreDelivered(devs: seq<Device>, acts: seq<Action>, end: Net, i: int, q: Fields)
    requires DistinctIds(devs) && AllSendable(devs, acts)
    requires Plays(StarNet(devs), Idle(StarNet(devs)), acts, end) && Silent(end)
    ensures Count(end.log, Consumed(i, q)) == AllDeliveries(devs, acts, i, q)
  {
    StarNetIsLawful(devs);
    PlayedCount(StarNet(devs), acts, end, Consumed(i, q));
    WrittenDeliveries(devs, acts, i, q);
  }

  // ----- every run ends

  /** Every run ends: its length is bounded by a number computed from the packets in flight at its start. */
  lemma {:induction false} EveryRunEnds(devs: seq<Device>, net: Net, sched: seq<Chan>, end: Net)
    requires Shaped(StarNet(devs), net) && Reaches(StarNet(devs), net, sched, end)
    ensures Lawful(StarNet(devs)) && |sched| <= Future(StarNet(devs), Any(), net)
    ensures Silent(end) <==> forall c :: !Enabled(StarNet(devs), end, c)
  {
    StarNetIsLawful(devs);
    RunsEndAndAgree(StarNet(devs), net, sched, end, Relay(0, [""]));
  }

  // ----- identify

  function Identify(dev: Device): Fields {
    [Uuid.Hex(dev.id), BROADCAST_NAME, "identify"]
  }

  /** The answer of `dev` to `Identify(to)`. */
  function Info(dev: Device, to: Device): Fields {
    [Uuid.Hex(dev.id), Uuid.Hex(to.id)] + DeviceInfo(dev)
  }

  /** And some run does fall silent: delivery does happen. */
  lemma {:induction false} LineFallsSilent(devs: seq<Device>, net: Net) returns (sched: seq<Chan>, end: Net)
    requires Shaped(StarNet(devs), net)
    ensures Reaches(StarNet(devs), net, sched, end) && Silent(end)
  {
    StarNetIsLawful(devs);
    sched, end := SomeRunFallsSilent(StarNet(devs), net);
  }

  lemma {:induction false} IdentifyAnswer(dev: Device, to: Device)
    ensures SourceOf(Identify(to)) == to.id
    ensures ReplyPackets(dev, Identify(to)) == [Info(dev, to)]
  {
    Uuid.HexParses(Uuid.NULL_ID, to.id);
    var bodies := Replies(dev, "", "identify", Identify(to)[3..]);
    assert bodies == [DeviceInfo(dev)];
    assert ReplyPackets(dev, Identify(to)) == [Info(dev, to)];
  }

  lemma {:induction false} IdentifyWellFormed(dev: Device)
    requires Uuid.IsValid(dev.id)
    ensures WellFormed(Identify(dev))
  {
    HexIsAddress(dev.id);
    HeaderOnto(Uuid.Hex(dev.id), BROADCAST_NAME, ["identify"]);
    assert [Uuid.Hex(dev.id), BROADCAST_NAME] + ["identify"] == Identify(dev);
    assert |"identify"| != |"identify_hub"|;
  }

  lemma {:induction false} InfosDiffer(a: Device, b: Device, to: Device)
    requires a.id != b.id
    ensures Info(a, to) != Info(b, to)
  {
    Uuid.HexParses(Uuid.NULL_ID, a.id);
    Uuid.HexParses(Uuid.NULL_ID, b.id);
    assert Info(a, to)[0] == Uuid.Hex(a.id) && Info(b, to)[0] == Uuid.Hex(b.id);
  }

  lemma {:induction false} OccursInOne(q: Fields, x: Fields)
    ensures Occurrences(q, [x]) == if q == x then 1 else 0
  {
    assert [x][1..] == [];
  }

  lemma {:induction false} InfoOccurs(devs: seq<Device>, s: nat, q: Fields, k: nat)
    requires s < |devs| && k < |devs|
    ensures Occurrences(q, StarNet(devs).replies(k, Identify(devs[s]))) == if q == Info(devs[k], devs[s]) then 1 else 0
  {
    IdentifyAnswer(devs[k], devs[s]);
    OccursInOne(q, Info(devs[k], devs[s]));
  }

  ghost predicate IsInfo(devs: seq<Device>, s: nat, q: Fields, lo: nat, hi: nat)
    requires s < |devs| && hi <= |devs|
  {
    exists k :: lo <= k < hi && q == Info(devs[k], devs[s])
  }

  /** The answers of the nodes from `lo` up to `hi` hold each of their infos once, and nothing else. */
  lemma {:induction false} InfosIn(devs: seq<Device>, s: nat, q: Fields, lo: nat, hi: nat)
    requires DistinctIds(devs) && s < |devs| && lo <= hi <= |devs|
    ensures AnswersIn(StarNet(devs), Identify(devs[s]), q, lo, hi) == if IsInfo(devs, s, q, lo, hi) then 1 else 0
  {
    if IsInfo(devs, s, q, lo, hi) {
      var at :| lo <= at < hi && q == Info(devs[at], devs[s]);
      InfoOnlyAt(devs, s, q, lo, hi, at);
      OneAnswer(StarNet(devs), Identify(devs[s]), q, lo, hi, at);
    } else {
      InfoOnlyAt(devs, s, q, lo, hi, -1);
      OneAnswer(StarNet(devs), Identify(devs[s]), q, lo, hi, -1);
    }
  }

  lemma {:induction false} InfoOnlyAt(devs: seq<Device>, s: nat, q: Fields, lo: nat, hi: nat, at: int)
    requires DistinctIds(devs) && s < |devs| && lo <= hi <= |devs|
    requires if IsInfo(devs, s, q, lo, hi) then lo <= at < hi && q == Info(devs[at], devs[s]) else at == -1
    ensures forall k: nat | lo <= k < hi ::
              Occurrences(q, StarNet(devs).replies(k, Identify(devs[s]))) == if k == at then 1 else 0
  {
    forall k: nat | lo <= k < hi
      ensures Occurrences(q, StarNet(devs).replies(k, Identify(devs[s]))) == if k == at then 1 else 0
    {
      InfoOccurs(devs, s, q, k);
      if at >= 0 && k != at { InfosDiffer(devs[k], devs[at], devs[s]); }
    }
  }

  /** Discovery: once the line is silent every other node has processed the `identify` exactly once, and the sender
      has processed exactly one `deviceinfo` of every other node, and no other packet. */
  lemma {:induction false} DiscoveryIsComplete(devs: seq<Device>, s: nat, sched: seq<Chan>, end: Net, i: int, q: Fields)
    requires DistinctIds(devs) && s < |devs| && Uuid.IsValid(devs[s].id)
    requires Reaches(StarNet(devs), Sent(StarNet(devs), s, Identify(devs[s])), sched, end) && Silent(end)
    ensures i != s ==> Count(end.log, Consumed(i, q)) == if q == Identify(devs[s]) && 0 <= i < |devs| then 1 else 0
    ensures Count(end.log, Consumed(s, q))
            == if IsInfo(devs, s, q, 0, s) || IsInfo(devs, s, q, s + 1, |devs|) then 1 else 0
  {
    var p := Identify(devs[s]);
    IdentifyWellFormed(devs[s]);
    IdentifyAnswer(devs[s], devs[s]);
    BroadcastIsDelivered(devs, s, p, sched, end, i, q);
    BroadcastIsDelivered(devs, s, p, sched, end, s, q);
    InfosIn(devs, s, q, 0, s);
    InfosIn(devs, s, q, s + 1, |devs|);
    OnlyOneInfo(devs, s, q);
  }

  lemma {:induction false} OnlyOneInfo(devs: seq<Device>, s: nat, q: Fields)
    requires DistinctIds(devs) && s < |devs|
    ensures !(IsInfo(devs, s, q, 0, s) && IsInfo(devs, s, q, s + 1, |devs|))
  {
    if a :| 0 <= a < s && q == Info(devs[a], devs[s]) {
      forall k | s + 1 <= k < |devs| ensures q != Info(devs[k], devs[s]) {
        InfosDiffer(devs[a], devs[k], devs[s]);
      }
    }
  }

  // ----- what discovery tells

  /** `q` tells its reader that it comes from `dev` and is for `to`, and what `dev` is. */
  ghost predicate Introduces(q: Fields, dev: Device, to: Device, u: Uuid.Id) {
    |q| >= 3 && Uuid.Parse(u, q[0]) == dev.id && Uuid.Parse(u, q[1]) == to.id && Tells(q[2..], dev, u)
  }

  lemma {:induction false} AddressedIntroduces(a: string, b: string, body: Fields, dev: Device, to: Device, u: Uuid.Id)
    requires Uuid.Parse(u, a) == dev.id && Uuid.Parse(u, b) == to.id && Tells(body, dev, u)
    ensures Introduces([a, b] + body, dev, to, u)
  {
    assert ([a, b] + body)[2..] == body;
  }

  lemma {:induction false} InfoIntroduces(dev: Device, to: Device, u: Uuid.Id)
    ensures Introduces(Info(dev, to), dev, to, u)
  {
    Uuid.HexParses(u, dev.id);
    Uuid.HexParses(u, to.id);
    DeviceInfoTells(dev, u);
    AddressedIntroduces(Uuid.Hex(dev.id), Uuid.Hex(to.id), DeviceInfo(dev), dev, to, u);
  }

  ghost predicate IntroducesOther(devs: seq<Device>, s: nat, q: Fields, u: Uuid.Id)
    requires s < |devs|
  {
    exists k | 0 <= k < |devs| && k != s :: Introduces(q, devs[k], devs[s], u)
  }

  /** What the sender has learned from the packets it has processed: of every other node the id, the name and the type,
      in one packet; and whatever it has processed introduces one of the others. */
  ghost predicate Learned(devs: seq<Device>, s: nat, log: seq<Event>, u: Uuid.Id)
    requires s < |devs|
  {
    && (forall k | 0 <= k < |devs| && k != s ::
          exists q: Fields :: Introduces(q, devs[k], devs[s], u) && Count(log, Consumed(s, q)) == 1)
    && forall q: Fields | Count(log, Consumed(s, q)) > 0 :: IntroducesOther(devs, s, q, u)
  }

  lemma {:induction false} CountsTeach(devs: seq<Device>, s: nat, log: seq<Event>, u: Uuid.Id)
    requires s < |devs|
    requires forall q: Fields :: Count(log, Consumed(s, q))
                                 == if IsInfo(devs, s, q, 0, s) || IsInfo(devs, s, q, s + 1, |devs|) then 1 else 0
    ensures Learned(devs, s, log, u)
  {
    forall k | 0 <= k < |devs| && k != s
      ensures exists q: Fields :: Introduces(q, devs[k], devs[s], u) && Count(log, Consumed(s, q)) == 1
    {
      var q := Info(devs[k], devs[s]);
      InfoIntroduces(devs[k], devs[s], u);
      assert IsInfo(devs, s, q, 0, s) || IsInfo(devs, s, q, s + 1, |devs|);
      assert Count(log, Consumed(s, q)) == 1;
    }
    forall q: Fields | Count(log, Consumed(s, q)) > 0 ensures IntroducesOther(devs, s, q, u) {
      var k :| 0 <= k < |devs| && k != s && q == Info(devs[k], devs[s]);
      InfoIntroduces(devs[k], devs[s], u);
    }
  }

  /** Discovery works: once the line is silent the sender has learned the id, the name and the type of every other
      node, from exactly one packet of each, and nothing else. */
  lemma {:induction false} DiscoveryTeaches(devs: seq<Device>, s: nat, sched: seq<Chan>, end: Net, u: Uuid.Id)
    requires DistinctIds(devs) && s < |devs| && Uuid.IsValid(devs[s].id)
    requires Reaches(StarNet(devs), Sent(StarNet(devs), s, Identify(devs[s])), sched, end) && Silent(end)
    ensures Learned(devs, s, end.log, u)
  {
    forall q: Fields
      ensures Count(end.log, Consumed(s, q))
              == if IsInfo(devs, s, q, 0, s) || IsInfo(devs, s, q, s + 1, |devs|) then 1 else 0
    {
      DiscoveryIsComplete(devs, s, sched, end, s, q);
    }
    CountsTeach(devs, s, end.log, u);
  }
}
