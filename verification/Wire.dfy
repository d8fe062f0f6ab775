/** The same line down to the byte: FIFO links, one parser at the end of each, one byte a step.
    It refines the packet model of `Line`. */
module Wire {
  import opened Common
  import opened StreamCodec
  import opened Line

  /** A link: the bytes under way and the parser that will read them. */
  datatype Link = Link(bytes: string, rx: Config)

  datatype Wires = Wires(right: seq<Link>, left: seq<Link>, log: seq<Event>)

  predicate WShaped(nodes: Nodes, ws: Wires) {
    |ws.right| == |ws.left| == nodes.count
  }

  function LinkAt(nodes: Nodes, ws: Wires, c: Chan): Link
    requires WShaped(nodes, ws) && IsChan(nodes, c)
  {
    if c.ToRight? then ws.right[c.node] else ws.left[c.node]
  }

  function WithLink(nodes: Nodes, ws: Wires, c: Chan, l: Link): (r: Wires)
    requires WShaped(nodes, ws) && IsChan(nodes, c)
    ensures WShaped(nodes, r)
  {
    if c.ToRight? then ws.(right := ws.right[c.node := l]) else ws.(left := ws.left[c.node := l])
  }

  function Write(nodes: Nodes, ws: Wires, c: Chan, text: string): (r: Wires)
    requires WShaped(nodes, ws)
    ensures WShaped(nodes, r)
  {
    if IsChan(nodes, c) then
      var l := LinkAt(nodes, ws, c);
      WithLink(nodes, ws, c, Link(l.bytes + text, l.rx))
    else ws
  }

  /** Where a node answers and passes on what came over `c`: back to the side it came from, on to the other. */
  function Back(c: Chan): Chan {
    match c
    case ToRight(i) => ToLeft(i - 1)
    case ToLeft(i) => ToRight(i + 1)
  }

  function AnswerText(nodes: Nodes, i: nat, p: Fields): string {
    if nodes.consumes(i, p) then EncodeAll(nodes.replies(i, p)) else ""
  }

  function PassText(nodes: Nodes, i: nat, p: Fields): string {
    AnswerText(nodes, i, p) + if nodes.forwards(i, p) then Encode(p) else ""
  }

  function Reacted(nodes: Nodes, ws: Wires, c: Chan, p: Fields): (r: Wires)
    requires WShaped(nodes, ws) && IsChan(nodes, c)
    ensures WShaped(nodes, r)
  {
    var r := Write(nodes, Write(nodes, ws, Back(c), AnswerText(nodes, c.node, p)), Next(c), PassText(nodes, c.node, p));
    r.(log := ws.log + Handled(nodes, c.node, p))
  }

  predicate Readable(nodes: Nodes, ws: Wires, c: Chan) {
    WShaped(nodes, ws) && IsChan(nodes, c) && LinkAt(nodes, ws, c).bytes != ""
  }

  function Shifted(nodes: Nodes, bufSize: nat, ws: Wires, c: Chan): (r: Wires)
    requires Readable(nodes, ws, c)
    ensures WShaped(nodes, r)
  {
    var l := LinkAt(nodes, ws, c);
    WithLink(nodes, ws, c, Link(l.bytes[1..], Step(bufSize, l.rx, l.bytes[0]).config))
  }

  /** One byte: the parser at the end of link `c` takes it, and the node reacts to a completed message. */
  function ReadByte(nodes: Nodes, bufSize: nat, ws: Wires, c: Chan): (r: Wires)
    requires Readable(nodes, ws, c)
    ensures WShaped(nodes, r)
  {
    var l := LinkAt(nodes, ws, c);
    var out := Step(bufSize, l.rx, l.bytes[0]).out;
    var shifted := Shifted(nodes, bufSize, ws, c);
    if out == [] then shifted else Reacted(nodes, shifted, c, View(out[0]))
  }

  predicate BytesReach(nodes: Nodes, bufSize: nat, ws: Wires, sched: seq<Chan>, end: Wires)
    decreases |sched|
  {
    if sched == [] then ws == end
    else Readable(nodes, ws, sched[0])
         && BytesReach(nodes, bufSize, ReadByte(nodes, bufSize, ws, sched[0]), sched[1..], end)
  }

  // ----- the packets the bytes stand for

  function Under(bufSize: nat, l: Link): seq<Fields> {
    Views(Feed(bufSize, l.rx, l.bytes).out)
  }

  function Unders(bufSize: nat, ls: seq<Link>): (r: seq<seq<Fields>>)
    ensures |r| == |ls|
    ensures forall i | 0 <= i < |ls| :: r[i] == Under(bufSize, ls[i])
  {
    seq(|ls|, i requires 0 <= i < |ls| => Under(bufSize, ls[i]))
  }

  function Abstract(bufSize: nat, ws: Wires): Net {
    Net(Unders(bufSize, ws.right), Unders(bufSize, ws.left), ws.log)
  }

  /** A packet that the links carry unharmed; a safe one is answered only with such packets. */
  ghost predicate Clean(bufSize: nat, p: Fields) {
    AllZeroFree(p) && Fits(bufSize, p) && |p| <= MAX_ARGS + 1
  }

  ghost predicate AllClean(bufSize: nat, ps: seq<Fields>) {
    forall k | 0 <= k < |ps| :: Clean(bufSize, ps[k])
  }

  ghost predicate Safe(nodes: Nodes, bufSize: nat, p: Fields) {
    Clean(bufSize, p) && forall i: nat | i < nodes.count :: AllClean(bufSize, nodes.replies(i, p))
  }

  ghost predicate AllSafe(nodes: Nodes, bufSize: nat, ps: seq<Fields>) {
    forall k | 0 <= k < |ps| :: Safe(nodes, bufSize, ps[k])
  }

  ghost predicate LinkOk(nodes: Nodes, bufSize: nat, l: Link) {
    && Feed(bufSize, l.rx, l.bytes).config == INIT
    && SlotsSuffice(bufSize, l.rx, l.bytes)
    && AllSafe(nodes, bufSize, Under(bufSize, l))
  }

  ghost predicate WiresOk(nodes: Nodes, bufSize: nat, ws: Wires) {
    && WShaped(nodes, ws)
    && (forall i | 0 <= i < |ws.right| :: LinkOk(nodes, bufSize, ws.right[i]))
    && (forall i | 0 <= i < |ws.left| :: LinkOk(nodes, bufSize, ws.left[i]))
  }

  lemma {:induction false} ViewsOfDecoded(bufSize: nat, ps: seq<Fields>)
    requires AllClean(bufSize, ps)
    ensures Views(DecodedAll(ps)) == ps
  {
    forall i | 0 <= i < |ps| ensures View(Decoded(ps[i])) == ps[i] {
      ViewIsFieldsIffZeroFree(ps[i]);
    }
  }

  /** Writing whole messages onto a link puts exactly these packets under way, behind the others. */
  lemma {:induction false} UnderWritten(nodes: Nodes, bufSize: nat, l: Link, ps: seq<Fields>)
    requires LinkOk(nodes, bufSize, l) && AllClean(bufSize, ps)
    ensures var w := Link(l.bytes + EncodeAll(ps), l.rx);
            && Under(bufSize, w) == Under(bufSize, l) + ps
            && Feed(bufSize, w.rx, w.bytes).config == INIT && SlotsSuffice(bufSize, w.rx, w.bytes)
  {
    var sent := EncodeAll(ps);
    FeedSplit(bufSize, l.rx, l.bytes, sent);
    assert Feed(bufSize, INIT, sent) == Run(INIT, DecodedAll(ps)) by {
      StreamRoundTrip(bufSize, ps);
    }
    StreamSlots(bufSize, ps);
    SlotsSplit(bufSize, l.rx, l.bytes, sent);
    ViewsOfDecoded(bufSize, ps);
    ViewsConcat(Feed(bufSize, l.rx, l.bytes).out, DecodedAll(ps));
  }

  /** Reading a byte takes a packet from those under way, if it completes one, and changes nothing else. */
  lemma {:induction false} UnderShifted(nodes: Nodes, bufSize: nat, l: Link)
    requires LinkOk(nodes, bufSize, l) && l.bytes != ""
    ensures var r := Step(bufSize, l.rx, l.bytes[0]);
            var next := Link(l.bytes[1..], r.config);
            && LinkOk(nodes, bufSize, next) && |r.out| <= 1
            && Under(bufSize, l) == Views(r.out) + Under(bufSize, next)
  {
    var r := Step(bufSize, l.rx, l.bytes[0]);
    var next := Link(l.bytes[1..], r.config);
    var rest := Feed(bufSize, next.rx, next.bytes).out;
    assert Views(r.out + rest) == Views(r.out) + Views(rest);
    assert Under(bufSize, l) == Views(r.out) + Under(bufSize, next);
    BackIsSafe(nodes, bufSize, Views(r.out), Under(bufSize, next));
  }

  lemma {:induction false} BackIsSafe(nodes: Nodes, bufSize: nat, a: seq<Fields>, b: seq<Fields>)
    requires AllSafe(nodes, bufSize, a + b)
    ensures AllSafe(nodes, bufSize, b)
  {
    forall k | 0 <= k < |b| ensures Safe(nodes, bufSize, b[k]) {
      assert (a + b)[|a| + k] == b[k];
    }
  }

  // ----- appending several packets at once

  function SendAll(nodes: Nodes, net: Net, c: Chan, ps: seq<Fields>): (r: Net)
    requires Shaped(nodes, net)
    ensures Shaped(nodes, r)
  {
    if IsChan(nodes, c) then WithQueue(nodes, net, c, Queue(nodes, net, c) + ps) else net
  }

  lemma {:induction false} SendIsSendAll(nodes: Nodes, net: Net, c: Chan, p: Fields)
    requires Shaped(nodes, net)
    ensures Send(nodes, net, c, p) == SendAll(nodes, net, c, [p])
  {
  }

  lemma {:induction false} SendAllTwice(nodes: Nodes, net: Net, c: Chan, a: seq<Fields>, b: seq<Fields>)
    requires Shaped(nodes, net)
    ensures SendAll(nodes, SendAll(nodes, net, c, a), c, b) == SendAll(nodes, net, c, a + b)
  {
    if IsChan(nodes, c) {
      var q := Queue(nodes, net, c);
      assert q + a + b == q + (a + b);
      if c.ToRight? {
        assert net.right[c.node := q + a][c.node := q + a + b] == net.right[c.node := q + (a + b)];
      } else {
        assert net.left[c.node := q + a][c.node := q + a + b] == net.left[c.node := q + (a + b)];
      }
    }
  }

  lemma {:induction false} SendAllNone(nodes: Nodes, net: Net, c: Chan)
    requires Shaped(nodes, net)
    ensures SendAll(nodes, net, c, []) == net
  {
    if IsChan(nodes, c) {
      assert Queue(nodes, net, c) + [] == Queue(nodes, net, c);
      if c.ToRight? {
        assert net.right[c.node := net.right[c.node]] == net.right;
      } else {
        assert net.left[c.node := net.left[c.node]] == net.left;
      }
    }
  }

  lemma {:induction false} SendAllCommutes(nodes: Nodes, net: Net, i: int, j: int, a: seq<Fields>, b: seq<Fields>)
    requires Shaped(nodes, net)
    ensures SendAll(nodes, SendAll(nodes, net, ToRight(i), a), ToLeft(j), b)
            == SendAll(nodes, SendAll(nodes, net, ToLeft(j), b), ToRight(i), a)
  {
  }

  /** Answering packet by packet is answering all at once on either side. */
  lemma {:induction false} SendBothIsSendAll(nodes: Nodes, net: Net, i: int, ps: seq<Fields>)
    requires Shaped(nodes, net)
    ensures SendBoth(nodes, net, i, ps) == SendAll(nodes, SendAll(nodes, net, ToRight(i + 1), ps), ToLeft(i - 1), ps)
    decreases |ps|
  {
    var r, l := ToRight(i + 1), ToLeft(i - 1);
    if ps == [] {
      SendAllNone(nodes, net, r);
      SendAllNone(nodes, net, l);
    } else {
      var h, t := [ps[0]], ps[1..];
      var one := SendAll(nodes, SendAll(nodes, net, r, h), l, h);
      SendIsSendAll(nodes, net, r, ps[0]);
      SendIsSendAll(nodes, SendAll(nodes, net, r, h), l, ps[0]);
      SendBothIsSendAll(nodes, one, i, t);
      SendAllCommutes(nodes, SendAll(nodes, net, r, h), i + 1, i - 1, t, h);
      SendAllTwice(nodes, net, r, h, t);
      SendAllTwice(nodes, SendAll(nodes, net, r, h + t), l, h, t);
      assert h + t == ps;
    }
  }

  // ----- refinement

  lemma {:induction false} AbstractWithLink(nodes: Nodes, bufSize: nat, ws: Wires, c: Chan, l: Link)
    requires WShaped(nodes, ws) && IsChan(nodes, c)
    ensures Shaped(nodes, Abstract(bufSize, ws))
    ensures Abstract(bufSize, WithLink(nodes, ws, c, l))
            == WithQueue(nodes, Abstract(bufSize, ws), c, Under(bufSize, l))
    ensures Queue(nodes, Abstract(bufSize, ws), c) == Under(bufSize, LinkAt(nodes, ws, c))
  {
    if c.ToRight? {
      assert Unders(bufSize, ws.right[c.node := l]) == Unders(bufSize, ws.right)[c.node := Under(bufSize, l)];
    } else {
      assert Unders(bufSize, ws.left[c.node := l]) == Unders(bufSize, ws.left)[c.node := Under(bufSize, l)];
    }
  }

  lemma {:induction false} WriteRefines(nodes: Nodes, bufSize: nat, ws: Wires, c: Chan, ps: seq<Fields>)
    requires WiresOk(nodes, bufSize, ws) && AllSafe(nodes, bufSize, ps)
    ensures WiresOk(nodes, bufSize, Write(nodes, ws, c, EncodeAll(ps)))
    ensures Abstract(bufSize, Write(nodes, ws, c, EncodeAll(ps))) == SendAll(nodes, Abstract(bufSize, ws), c, ps)
  {
    if IsChan(nodes, c) {
      var l := LinkAt(nodes, ws, c);
      var w := Link(l.bytes + EncodeAll(ps), l.rx);
      assert AllClean(bufSize, ps);
      UnderWritten(nodes, bufSize, l, ps);
      AbstractWithLink(nodes, bufSize, ws, c, w);
      assert LinkOk(nodes, bufSize, w);
    }
  }

  /** An answer is final, so it is safe as soon as it is clean. */
  lemma {:induction false} AnswersSafe(nodes: Nodes, bufSize: nat, i: nat, p: Fields)
    requires Lawful(nodes) && Safe(nodes, bufSize, p) && i < nodes.count
    ensures AllSafe(nodes, bufSize, nodes.replies(i, p))
  {
    var rs := nodes.replies(i, p);
    assert Final(nodes, rs);
    forall k | 0 <= k < |rs| ensures Safe(nodes, bufSize, rs[k]) {
      assert AllClean(bufSize, rs);
      forall j: nat | j < nodes.count ensures AllClean(bufSize, nodes.replies(j, rs[k])) {
        assert nodes.replies(j, rs[k]) == [];
      }
    }
  }

  lemma {:induction false} PassTextIsEncoded(nodes: Nodes, i: nat, p: Fields)
    ensures PassText(nodes, i, p) == EncodeAll(PassPackets(nodes, i, p))
    ensures AnswerText(nodes, i, p) == EncodeAll(AnswerPackets(nodes, i, p))
  {
    EncodeAllSplit(AnswerPackets(nodes, i, p), if nodes.forwards(i, p) then [p] else []);
    assert [p][1..] == [];
    assert Encode(p) + "" == Encode(p);
  }

  function AnswerPackets(nodes: Nodes, i: nat, p: Fields): seq<Fields> {
    if nodes.consumes(i, p) then nodes.replies(i, p) else []
  }

  function PassPackets(nodes: Nodes, i: nat, p: Fields): seq<Fields> {
    AnswerPackets(nodes, i, p) + if nodes.forwards(i, p) then [p] else []
  }

  lemma {:induction false} EncodeAllSplit(a: seq<Fields>, b: seq<Fields>)
    ensures EncodeAll(a + b) == EncodeAll(a) + EncodeAll(b)
    decreases |a|
  {
    if a == [] {
      assert a + b == b;
    } else {
      assert (a + b)[1..] == a[1..] + b;
      EncodeAllSplit(a[1..], b);
    }
  }

  lemma {:induction false} ReactedRefines(nodes: Nodes, bufSize: nat, ws: Wires, c: Chan, p: Fields)
    requires Lawful(nodes) && WiresOk(nodes, bufSize, ws) && IsChan(nodes, c) && Safe(nodes, bufSize, p)
    ensures WiresOk(nodes, bufSize, Reacted(nodes, ws, c, p))
    ensures Abstract(bufSize, Reacted(nodes, ws, c, p)).(log := ws.log)
            == SendAll(nodes, SendAll(nodes, Abstract(bufSize, ws), Back(c), AnswerPackets(nodes, c.node, p)),
                       Next(c), PassPackets(nodes, c.node, p))
    ensures Abstract(bufSize, Reacted(nodes, ws, c, p)).log == ws.log + Handled(nodes, c.node, p)
  {
    var a, b := AnswerPackets(nodes, c.node, p), PassPackets(nodes, c.node, p);
    AnswersSafe(nodes, bufSize, c.node, p);
    assert AllSafe(nodes, bufSize, a);
    assert AllSafe(nodes, bufSize, b);
    PassTextIsEncoded(nodes, c.node, p);
    WriteRefines(nodes, bufSize, ws, Back(c), a);
    WriteRefines(nodes, bufSize, Write(nodes, ws, Back(c), EncodeAll(a)), Next(c), b);
  }

  /** The packet model puts the same packets on the same channels. */
  lemma {:induction false} DeliverIsSendAll(nodes: Nodes, net: Net, c: Chan, p: Fields)
    requires Shaped(nodes, net) && IsChan(nodes, c)
    ensures Passed(nodes, Answered(nodes, net, c.node, p), c, p)
            == SendAll(nodes, SendAll(nodes, net, Back(c), AnswerPackets(nodes, c.node, p)), Next(c),
               PassPackets(nodes, c.node, p))
  {
    var a, i := AnswerPackets(nodes, c.node, p), c.node;
    var f: seq<Fields> := if nodes.forwards(i, p) then [p] else [];
    SendBothIsSendAll(nodes, net, i, a);
    SendAllNone(nodes, net, Back(c));
    if !nodes.consumes(i, p) { SendAllNone(nodes, net, Next(c)); }
    SendAllCommutes(nodes, net, i + 1, i - 1, a, a);
    var sent := SendAll(nodes, net, Back(c), a);
    SendAllTwice(nodes, sent, Next(c), a, f);
    var answered := SendAll(nodes, sent, Next(c), a);
    SendAllNone(nodes, answered, Next(c));
    if f != [] { SendIsSendAll(nodes, answered, Next(c), p); }
  }

  /** One byte is one step of the packet model, or none. */
  lemma {:induction false} ReadByteRefines(nodes: Nodes, bufSize: nat, ws: Wires, c: Chan)
    requires Lawful(nodes) && WiresOk(nodes, bufSize, ws) && Readable(nodes, ws, c)
    ensures WiresOk(nodes, bufSize, ReadByte(nodes, bufSize, ws, c))
    ensures var net, next := Abstract(bufSize, ws), Abstract(bufSize, ReadByte(nodes, bufSize, ws, c));
            next == net || (Enabled(nodes, net, c) && next == Deliver(nodes, net, c))
  {
    var l := LinkAt(nodes, ws, c);
    if Step(bufSize, l.rx, l.bytes[0]).out == [] {
      SilentByteRefines(nodes, bufSize, ws, c);
    } else {
      LastByteRefines(nodes, bufSize, ws, c);
    }
  }

  lemma {:induction false} SilentByteRefines(nodes: Nodes, bufSize: nat, ws: Wires, c: Chan)
    requires WiresOk(nodes, bufSize, ws) && Readable(nodes, ws, c)
    requires Step(bufSize, LinkAt(nodes, ws, c).rx, LinkAt(nodes, ws, c).bytes[0]).out == []
    ensures WiresOk(nodes, bufSize, Shifted(nodes, bufSize, ws, c))
    ensures Abstract(bufSize, Shifted(nodes, bufSize, ws, c)) == Abstract(bufSize, ws)
  {
    var l, shifted := LinkAt(nodes, ws, c), Shifted(nodes, bufSize, ws, c);
    UnderShifted(nodes, bufSize, l);
    AbstractWithLink(nodes, bufSize, ws, c, LinkAt(nodes, shifted, c));
    assert Under(bufSize, l) == Under(bufSize, LinkAt(nodes, shifted, c));
    SendAllNone(nodes, Abstract(bufSize, ws), c);
  }

  lemma {:induction false} LastByteRefines(nodes: Nodes, bufSize: nat, ws: Wires, c: Chan)
    requires Lawful(nodes) && WiresOk(nodes, bufSize, ws) && Readable(nodes, ws, c)
    requires Step(bufSize, LinkAt(nodes, ws, c).rx, LinkAt(nodes, ws, c).bytes[0]).out != []
    ensures WiresOk(nodes, bufSize, ReadByte(nodes, bufSize, ws, c))
    ensures var net := Abstract(bufSize, ws);
            Enabled(nodes, net, c) && Abstract(bufSize, ReadByte(nodes, bufSize, ws, c)) == Deliver(nodes, net, c)
  {
    var l, shifted, net := LinkAt(nodes, ws, c), Shifted(nodes, bufSize, ws, c), Abstract(bufSize, ws);
    UnderShifted(nodes, bufSize, l);
    AbstractWithLink(nodes, bufSize, ws, c, LinkAt(nodes, shifted, c));
    var p := View(Step(bufSize, l.rx, l.bytes[0]).out[0]);
    assert Under(bufSize, l)[0] == p && Under(bufSize, l)[1..] == Under(bufSize, LinkAt(nodes, shifted, c));
    assert Safe(nodes, bufSize, p);
    ReactedRefines(nodes, bufSize, shifted, c, p);
    DeliverIsSendAll(nodes, Taken(nodes, net, c), c, p);
  }

  /** Every run of bytes is a run of packets. */
  lemma {:induction false} BytesRefine(nodes: Nodes, bufSize: nat, ws: Wires, sched: seq<Chan>, end: Wires)
      returns (packets: seq<Chan>)
    requires Lawful(nodes) && WiresOk(nodes, bufSize, ws) && BytesReach(nodes, bufSize, ws, sched, end)
    ensures WiresOk(nodes, bufSize, end)
    ensures Reaches(nodes, Abstract(bufSize, ws), packets, Abstract(bufSize, end))
    decreases |sched|
  {
    if sched == [] {
      packets := [];
    } else {
      var next := ReadByte(nodes, bufSize, ws, sched[0]);
      ReadByteRefines(nodes, bufSize, ws, sched[0]);
      var rest := BytesRefine(nodes, bufSize, next, sched[1..], end);
      if Abstract(bufSize, next) == Abstract(bufSize, ws) {
        packets := rest;
      } else {
        packets := [sched[0]] + rest;
        assert packets[1..] == rest;
      }
    }
  }

  predicate Quiet(ws: Wires) {
    (forall i | 0 <= i < |ws.right| :: ws.right[i].bytes == "")
      && (forall i | 0 <= i < |ws.left| :: ws.left[i].bytes == "")
  }

  /** Links without bytes carry no packets. */
  lemma {:induction false} QuietIsSilent(bufSize: nat, ws: Wires)
    requires Quiet(ws)
    ensures Silent(Abstract(bufSize, ws))
  {
  }

  // ----- one message written by one node

  function IdleWires(nodes: Nodes): (ws: Wires)
    ensures WShaped(nodes, ws) && Quiet(ws)
  {
    Wires(seq(nodes.count, _ => Link("", INIT)), seq(nodes.count, _ => Link("", INIT)), [])
  }

  /** Node `s` writes one message to both sides. */
  function PutWires(nodes: Nodes, ws: Wires, s: nat, p: Fields): (r: Wires)
    requires WShaped(nodes, ws)
    ensures WShaped(nodes, r)
  {
    Write(nodes, Write(nodes, ws, ToRight(s + 1), Encode(p)), ToLeft(s - 1), Encode(p))
  }

  function SentWires(nodes: Nodes, s: nat, p: Fields): (ws: Wires)
    ensures WShaped(nodes, ws)
  {
    PutWires(nodes, IdleWires(nodes), s, p)
  }

  lemma {:induction false} PutWiresRefines(nodes: Nodes, bufSize: nat, ws: Wires, s: nat, p: Fields)
    requires WiresOk(nodes, bufSize, ws) && Safe(nodes, bufSize, p)
    ensures WiresOk(nodes, bufSize, PutWires(nodes, ws, s, p))
    ensures Abstract(bufSize, PutWires(nodes, ws, s, p)) == Put(nodes, Abstract(bufSize, ws), s, p)
  {
    assert [p][1..] == [] && Encode(p) + "" == Encode(p);
    assert EncodeAll([p]) == Encode(p);
    var one := Write(nodes, ws, ToRight(s + 1), Encode(p));
    WriteRefines(nodes, bufSize, ws, ToRight(s + 1), [p]);
    WriteRefines(nodes, bufSize, one, ToLeft(s - 1), [p]);
    SendIsSendAll(nodes, Abstract(bufSize, ws), ToRight(s + 1), p);
    SendIsSendAll(nodes, Abstract(bufSize, one), ToLeft(s - 1), p);
  }

  lemma {:induction false} IdleWiresRefine(nodes: Nodes, bufSize: nat)
    ensures WiresOk(nodes, bufSize, IdleWires(nodes)) && Abstract(bufSize, IdleWires(nodes)) == Idle(nodes)
  {
    assert Abstract(bufSize, IdleWires(nodes)) == Idle(nodes);
  }

  lemma {:induction false} SentWiresRefines(nodes: Nodes, bufSize: nat, s: nat, p: Fields)
    requires Safe(nodes, bufSize, p)
    ensures WiresOk(nodes, bufSize, SentWires(nodes, s, p))
    ensures Abstract(bufSize, SentWires(nodes, s, p)) == Sent(nodes, s, p)
  {
    IdleWiresRefine(nodes, bufSize);
    PutWiresRefines(nodes, bufSize, IdleWires(nodes), s, p);
  }

  // ----- messages written at any time

  ghost predicate BytesPlay(nodes: Nodes, bufSize: nat, ws: Wires, acts: seq<Action>, end: Wires)
    requires WShaped(nodes, ws)
    decreases |acts|
  {
    if acts == [] then ws == end
    else if acts[0].Turn? then
      Readable(nodes, ws, acts[0].c)
        && BytesPlay(nodes, bufSize, ReadByte(nodes, bufSize, ws, acts[0].c), acts[1..], end)
    else BytesPlay(nodes, bufSize, PutWires(nodes, ws, acts[0].s, acts[0].p), acts[1..], end)
  }

  ghost predicate AllWritesSafe(nodes: Nodes, bufSize: nat, acts: seq<Action>) {
    forall k | 0 <= k < |acts| && acts[k].Write? :: Safe(nodes, bufSize, acts[k].p)
  }

  /** However single bytes are read and whole messages are written between them, the messages account for the events
      one by one. */
  lemma {:induction false} BytesPlayConserves(nodes: Nodes, bufSize: nat, e: Event, ws: Wires, acts: seq<Action>,
      end: Wires)
    requires Lawful(nodes) && WiresOk(nodes, bufSize, ws) && AllWritesSafe(nodes, bufSize, acts)
    requires BytesPlay(nodes, bufSize, ws, acts, end)
    ensures WiresOk(nodes, bufSize, end)
    ensures Count(end.log, e) + Future(nodes, Only(e), Abstract(bufSize, end))
            == Count(ws.log, e) + Future(nodes, Only(e), Abstract(bufSize, ws)) + WrittenOutcome(nodes, e, acts)
    decreases |acts|
  {
    if acts != [] {
      if acts[0].Turn? {
        var next := ReadByte(nodes, bufSize, ws, acts[0].c);
        ReadByteRefines(nodes, bufSize, ws, acts[0].c);
        if Abstract(bufSize, next) != Abstract(bufSize, ws) {
          DeliverConserves(nodes, Only(e), Abstract(bufSize, ws), acts[0].c);
        }
        BytesPlayConserves(nodes, bufSize, e, next, acts[1..], end);
      } else {
        PutWiresRefines(nodes, bufSize, ws, acts[0].s, acts[0].p);
        PutFuture(nodes, Abstract(bufSize, ws), e, acts[0].s, acts[0].p);
        BytesPlayConserves(nodes, bufSize, e, PutWires(nodes, ws, acts[0].s, acts[0].p), acts[1..], end);
      }
    }
  }

  lemma {:induction false} BytesPlayedCount(nodes: Nodes, bufSize: nat, acts: seq<Action>, end: Wires, e: Event)
    requires Lawful(nodes) && AllWritesSafe(nodes, bufSize, acts)
    requires BytesPlay(nodes, bufSize, IdleWires(nodes), acts, end) && Quiet(end)
    ensures Count(end.log, e) == WrittenOutcome(nodes, e, acts)
  {
    IdleWiresRefine(nodes, bufSize);
    BytesPlayConserves(nodes, bufSize, e, IdleWires(nodes), acts, end);
    QuietIsSilent(bufSize, end);
    SilentSides(nodes, Only(e), Abstract(bufSize, end), nodes.count);
    SilentSides(nodes, Only(e), Idle(nodes), nodes.count);
  }

  /** A run of bytes that starts with one message and ends with quiet links logs what a run of packets logs. */
  lemma {:induction false} QuietRun(nodes: Nodes, bufSize: nat, s: nat, p: Fields, sched: seq<Chan>, end: Wires)
      returns (packets: seq<Chan>, net: Net)
    requires Lawful(nodes) && Safe(nodes, bufSize, p)
    requires BytesReach(nodes, bufSize, SentWires(nodes, s, p), sched, end) && Quiet(end)
    ensures Reaches(nodes, Sent(nodes, s, p), packets, net) && Silent(net) && net.log == end.log
  {
    SentWiresRefines(nodes, bufSize, s, p);
    packets := BytesRefine(nodes, bufSize, SentWires(nodes, s, p), sched, end);
    QuietIsSilent(bufSize, end);
    net := Abstract(bufSize, end);
  }

  // ----- termination

  function Bytes(ls: seq<Link>): nat {
    if ls == [] then 0 else |ls[0].bytes| + Bytes(ls[1..])
  }

  lemma {:induction false} BytesUpdate(ls: seq<Link>, i: nat, l: Link)
    requires i < |ls|
    ensures Bytes(ls[i := l]) - Bytes(ls) == |l.bytes| - |ls[i].bytes|
    decreases |ls|
  {
    if i == 0 {
      assert ls[i := l][1..] == ls[1..];
    } else {
      assert ls[i := l][1..] == ls[1..][i - 1 := l];
      BytesUpdate(ls[1..], i - 1, l);
    }
  }

  /** Every byte read lowers the pair (packets still to be handled, bytes under way): no run goes on for ever. */
  lemma {:induction false} ReadByteMakesProgress(nodes: Nodes, bufSize: nat, ws: Wires, c: Chan)
    requires Lawful(nodes) && WiresOk(nodes, bufSize, ws) && Readable(nodes, ws, c)
    ensures var next := ReadByte(nodes, bufSize, ws, c);
            var f, f' := Future(nodes, Any(), Abstract(bufSize, ws)), Future(nodes, Any(), Abstract(bufSize, next));
            f' < f || (f' == f && Bytes(next.right) + Bytes(next.left) < Bytes(ws.right) + Bytes(ws.left))
  {
    var next := ReadByte(nodes, bufSize, ws, c);
    var net := Abstract(bufSize, ws);
    ReadByteRefines(nodes, bufSize, ws, c);
    var l := LinkAt(nodes, ws, c);
    if Step(bufSize, l.rx, l.bytes[0]).out == [] {
      SilentByte(nodes, bufSize, ws, c);
    } else {
      assert next.log == ws.log + Handled(nodes, c.node, View(Step(bufSize, l.rx, l.bytes[0]).out[0]));
      assert nodes.consumes(c.node, View(Step(bufSize, l.rx, l.bytes[0]).out[0]))
          || nodes.forwards(c.node, View(Step(bufSize, l.rx, l.bytes[0]).out[0]));
      DeliverConserves(nodes, Any(), net, c);
      AnyWeighsLength(net.log);
      AnyWeighsLength(Deliver(nodes, net, c).log);
    }
  }

  lemma {:induction false} SilentByte(nodes: Nodes, bufSize: nat, ws: Wires, c: Chan)
    requires WiresOk(nodes, bufSize, ws) && Readable(nodes, ws, c)
    requires Step(bufSize, LinkAt(nodes, ws, c).rx, LinkAt(nodes, ws, c).bytes[0]).out == []
    ensures var next := ReadByte(nodes, bufSize, ws, c);
            && Abstract(bufSize, next) == Abstract(bufSize, ws)
            && Bytes(next.right) + Bytes(next.left) < Bytes(ws.right) + Bytes(ws.left)
  {
    var l := LinkAt(nodes, ws, c);
    var shifted := Shifted(nodes, bufSize, ws, c);
    UnderShifted(nodes, bufSize, l);
    AbstractWithLink(nodes, bufSize, ws, c, LinkAt(nodes, shifted, c));
    assert Under(bufSize, l) == Under(bufSize, LinkAt(nodes, shifted, c));
    SendAllNone(nodes, Abstract(bufSize, ws), c);
    if c.ToRight? {
      BytesUpdate(ws.right, c.node, LinkAt(nodes, shifted, c));
    } else {
      BytesUpdate(ws.left, c.node, LinkAt(nodes, shifted, c));
    }
  }

  /** From any links some run of bytes falls quiet. */
  lemma {:induction false} SomeBytesFallQuiet(nodes: Nodes, bufSize: nat, ws: Wires)
      returns (sched: seq<Chan>, end: Wires)
    requires Lawful(nodes) && WiresOk(nodes, bufSize, ws)
    ensures BytesReach(nodes, bufSize, ws, sched, end) && Quiet(end)
    decreases Future(nodes, Any(), Abstract(bufSize, ws)), Bytes(ws.right) + Bytes(ws.left)
  {
    if Quiet(ws) {
      return [], ws;
    }
    var c: Chan;
    if i :| 0 <= i < |ws.right| && ws.right[i].bytes != "" {
      c := ToRight(i);
    } else {
      var i :| 0 <= i < |ws.left| && ws.left[i].bytes != "";
      c := ToLeft(i);
    }
    assert Readable(nodes, ws, c);
    ReadByteRefines(nodes, bufSize, ws, c);
    ReadByteMakesProgress(nodes, bufSize, ws, c);
    var rest;
    rest, end := SomeBytesFallQuiet(nodes, bufSize, ReadByte(nodes, bufSize, ws, c));
    sched := [c] + rest;
    assert sched[1..] == rest;
  }
}
