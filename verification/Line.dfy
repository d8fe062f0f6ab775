/** A line of repeaters as a transition system of packets in flight, whatever the nodes answer. */
module Line {
  import opened StreamCodec

  /** What the nodes do with a packet. `triggers` marks the packets some node may answer. */
  datatype Nodes = Nodes(
    count: nat,
    consumes: (nat, Fields) -> bool,
    forwards: (nat, Fields) -> bool,
    replies: (nat, Fields) -> seq<Fields>,
    triggers: Fields -> bool)

  /** Every packet is consumed or passed on, and an answer is never answered. */
  ghost predicate Lawful(nodes: Nodes) {
    && (forall i: nat, p :: nodes.consumes(i, p) || nodes.forwards(i, p))
    && (forall i: nat, p :: !nodes.triggers(p) ==> nodes.replies(i, p) == [])
    && (forall i: nat, p :: Final(nodes, nodes.replies(i, p)))
  }

  ghost predicate Final(nodes: Nodes, rs: seq<Fields>) {
    forall k | 0 <= k < |rs| :: !nodes.triggers(rs[k])
  }

  /** `ToRight(i)` holds the packets about to reach node `i` going right, `ToLeft(i)` those going left. */
  datatype Chan = ToRight(node: int) | ToLeft(node: int)

  datatype Event = Consumed(node: int, packet: Fields) | Relay(node: int, packet: Fields)

  datatype Net = Net(right: seq<seq<Fields>>, left: seq<seq<Fields>>, log: seq<Event>)

  predicate Shaped(nodes: Nodes, net: Net) {
    |net.right| == |net.left| == nodes.count
  }

  predicate IsChan(nodes: Nodes, c: Chan) {
    0 <= c.node < nodes.count
  }

  function Next(c: Chan): Chan {
    match c
    case ToRight(i) => ToRight(i + 1)
    case ToLeft(i) => ToLeft(i - 1)
  }

  function Queue(nodes: Nodes, net: Net, c: Chan): seq<Fields>
    requires Shaped(nodes, net) && IsChan(nodes, c)
  {
    if c.ToRight? then net.right[c.node] else net.left[c.node]
  }

  function WithQueue(nodes: Nodes, net: Net, c: Chan, q: seq<Fields>): (r: Net)
    requires Shaped(nodes, net) && IsChan(nodes, c)
    ensures Shaped(nodes, r)
  {
    if c.ToRight? then net.(right := net.right[c.node := q]) else net.(left := net.left[c.node := q])
  }

  /** Beyond the ends of the line there is no channel. */
  function Send(nodes: Nodes, net: Net, c: Chan, p: Fields): (r: Net)
    requires Shaped(nodes, net)
    ensures Shaped(nodes, r)
  {
    if IsChan(nodes, c) then WithQueue(nodes, net, c, Queue(nodes, net, c) + [p]) else net
  }

  /** Node `i` writes to both sides. */
  function SendBoth(nodes: Nodes, net: Net, i: int, ps: seq<Fields>): (r: Net)
    requires Shaped(nodes, net)
    ensures Shaped(nodes, r)
    decreases |ps|
  {
    if ps == [] then net
    else SendBoth(nodes, Send(nodes, Send(nodes, net, ToRight(i + 1), ps[0]), ToLeft(i - 1), ps[0]), i, ps[1..])
  }

  predicate Enabled(nodes: Nodes, net: Net, c: Chan) {
    Shaped(nodes, net) && IsChan(nodes, c) && Queue(nodes, net, c) != []
  }

  /** What the log says of one packet taken by one node. */
  function Handled(nodes: Nodes, i: nat, p: Fields): seq<Event> {
    (if nodes.consumes(i, p) then [Consumed(i, p)] else []) + (if nodes.forwards(i, p) then [Relay(i, p)] else [])
  }

  function Taken(nodes: Nodes, net: Net, c: Chan): (r: Net)
    requires Enabled(nodes, net, c)
    ensures Shaped(nodes, r)
  {
    WithQueue(nodes, net, c, Queue(nodes, net, c)[1..])
  }

  function Answered(nodes: Nodes, net: Net, i: nat, p: Fields): (r: Net)
    requires Shaped(nodes, net)
    ensures Shaped(nodes, r)
  {
    if nodes.consumes(i, p) then SendBoth(nodes, net, i, nodes.replies(i, p)) else net
  }

  function Passed(nodes: Nodes, net: Net, c: Chan, p: Fields): (r: Net)
    requires Shaped(nodes, net) && IsChan(nodes, c)
    ensures Shaped(nodes, r)
  {
    if nodes.forwards(c.node, p) then Send(nodes, net, Next(c), p) else net
  }

  /** One step: the node at the end of channel `c` takes its first packet, answers to both sides, passes it on. */
  function Deliver(nodes: Nodes, net: Net, c: Chan): (r: Net)
    requires Enabled(nodes, net, c)
    ensures Shaped(nodes, r)
  {
    var p := Queue(nodes, net, c)[0];
    var r := Passed(nodes, Answered(nodes, Taken(nodes, net, c), c.node, p), c, p);
    r.(log := net.log + Handled(nodes, c.node, p))
  }

  /** `sched` names the channel of each step: any interleaving of the nodes. */
  predicate Reaches(nodes: Nodes, net: Net, sched: seq<Chan>, end: Net)
    decreases |sched|
  {
    if sched == [] then net == end
    else Enabled(nodes, net, sched[0]) && Reaches(nodes, Deliver(nodes, net, sched[0]), sched[1..], end)
  }

  predicate Silent(net: Net) {
    (forall i | 0 <= i < |net.right| :: net.right[i] == []) && (forall i | 0 <= i < |net.left| :: net.left[i] == [])
  }

  // ----- weighing the past and the future of a net

  type Weight = Event -> nat

  /** Counts one event. */
  function Only(e: Event): Weight {
    x => if x == e then 1 else 0
  }

  function Any(): Weight {
    x => 1
  }

  function LogWeight(w: Weight, log: seq<Event>): nat {
    if log == [] then 0 else w(log[0]) + LogWeight(w, log[1..])
  }

  function Count(log: seq<Event>, e: Event): nat {
    LogWeight(Only(e), log)
  }

  function HandledWeight(nodes: Nodes, w: Weight, i: nat, p: Fields): nat {
    (if nodes.consumes(i, p) then w(Consumed(i, p)) else 0) + (if nodes.forwards(i, p) then w(Relay(i, p)) else 0)
  }

  function Hops(nodes: Nodes, c: Chan): nat {
    if !IsChan(nodes, c) then 0 else if c.ToRight? then nodes.count - c.node else c.node + 1
  }

  /** The weight of everything a packet on a channel will still cause, answers included. */
  ghost function Outcome(nodes: Nodes, w: Weight, c: Chan, p: Fields): nat
    requires Lawful(nodes)
    decreases if nodes.triggers(p) then 2 else 0, Hops(nodes, c)
  {
    if !IsChan(nodes, c) then 0
    else
      HandledWeight(nodes, w, c.node, p)
      + (if nodes.consumes(c.node, p) && nodes.triggers(p)
        then AnswersOutcome(nodes, w, c.node, nodes.replies(c.node, p)) else 0)
      + (if nodes.forwards(c.node, p) then Outcome(nodes, w, Next(c), p) else 0)
  }

  ghost function AnswersOutcome(nodes: Nodes, w: Weight, i: int, rs: seq<Fields>): nat
    requires Lawful(nodes) && Final(nodes, rs)
    decreases 1, |rs|
  {
    if rs == [] then 0
    else
      Outcome(nodes, w, ToRight(i + 1), rs[0]) + Outcome(nodes, w, ToLeft(i - 1), rs[0])
      + AnswersOutcome(nodes, w, i, rs[1..])
  }

  ghost function QueueOutcome(nodes: Nodes, w: Weight, c: Chan, q: seq<Fields>): nat
    requires Lawful(nodes)
    decreases |q|
  {
    if q == [] then 0 else Outcome(nodes, w, c, q[0]) + QueueOutcome(nodes, w, c, q[1..])
  }

  ghost function RightOutcome(nodes: Nodes, w: Weight, right: seq<seq<Fields>>, k: nat): nat
    requires Lawful(nodes) && k <= |right|
  {
    if k == 0 then 0 else RightOutcome(nodes, w, right, k - 1) + QueueOutcome(nodes, w, ToRight(k - 1), right[k - 1])
  }

  ghost function LeftOutcome(nodes: Nodes, w: Weight, left: seq<seq<Fields>>, k: nat): nat
    requires Lawful(nodes) && k <= |left|
  {
    if k == 0 then 0 else LeftOutcome(nodes, w, left, k - 1) + QueueOutcome(nodes, w, ToLeft(k - 1), left[k - 1])
  }

  ghost function Future(nodes: Nodes, w: Weight, net: Net): nat
    requires Lawful(nodes) && Shaped(nodes, net)
  {
    RightOutcome(nodes, w, net.right, nodes.count) + LeftOutcome(nodes, w, net.left, nodes.count)
  }

  lemma {:induction false} LogSplit(w: Weight, a: seq<Event>, b: seq<Event>)
    ensures LogWeight(w, a + b) == LogWeight(w, a) + LogWeight(w, b)
    decreases |a|
  {
    if a == [] {
      assert a + b == b;
    } else {
      assert (a + b)[1..] == a[1..] + b;
      LogSplit(w, a[1..], b);
    }
  }

  lemma {:induction false} HandledIsWeighed(nodes: Nodes, w: Weight, i: nat, p: Fields)
    ensures LogWeight(w, Handled(nodes, i, p)) == HandledWeight(nodes, w, i, p)
  {
    var a := if nodes.consumes(i, p) then [Consumed(i, p)] else [];
    var b := if nodes.forwards(i, p) then [Relay(i, p)] else [];
    LogSplit(w, a, b);
    assert a != [] ==> a[1..] == [];
    assert b != [] ==> b[1..] == [];
  }

  lemma {:induction false} QueueAppend(nodes: Nodes, w: Weight, c: Chan, q: seq<Fields>, p: Fields)
    requires Lawful(nodes)
    ensures QueueOutcome(nodes, w, c, q + [p]) == QueueOutcome(nodes, w, c, q) + Outcome(nodes, w, c, p)
    decreases |q|
  {
    if q == [] {
      assert q + [p] == [p] && [p][1..] == [];
    } else {
      assert (q + [p])[1..] == q[1..] + [p];
      QueueAppend(nodes, w, c, q[1..], p);
    }
  }

  lemma {:induction false} RightUpdate(nodes: Nodes, w: Weight, right: seq<seq<Fields>>, i: nat, q: seq<Fields>, k: nat)
    requires Lawful(nodes) && i < |right| && k <= |right|
    ensures RightOutcome(nodes, w, right[i := q], k) - RightOutcome(nodes, w, right, k)
            == if i < k then QueueOutcome(nodes, w, ToRight(i), q) - QueueOutcome(nodes, w, ToRight(i), right[i]) else 0
  {
    if k > 0 {
      RightUpdate(nodes, w, right, i, q, k - 1);
    }
  }

  lemma {:induction false} LeftUpdate(nodes: Nodes, w: Weight, left: seq<seq<Fields>>, i: nat, q: seq<Fields>, k: nat)
    requires Lawful(nodes) && i < |left| && k <= |left|
    ensures LeftOutcome(nodes, w, left[i := q], k) - LeftOutcome(nodes, w, left, k)
            == if i < k then QueueOutcome(nodes, w, ToLeft(i), q) - QueueOutcome(nodes, w, ToLeft(i), left[i]) else 0
  {
    if k > 0 {
      LeftUpdate(nodes, w, left, i, q, k - 1);
    }
  }

  lemma {:induction false} QueueUpdate(nodes: Nodes, w: Weight, net: Net, c: Chan, q: seq<Fields>)
    requires Lawful(nodes) && Shaped(nodes, net) && IsChan(nodes, c)
    ensures Future(nodes, w, WithQueue(nodes, net, c, q)) - Future(nodes, w, net)
            == QueueOutcome(nodes, w, c, q) - QueueOutcome(nodes, w, c, Queue(nodes, net, c))
  {
    if c.ToRight? {
      RightUpdate(nodes, w, net.right, c.node, q, nodes.count);
    } else {
      LeftUpdate(nodes, w, net.left, c.node, q, nodes.count);
    }
  }

  lemma {:induction false} SendFuture(nodes: Nodes, w: Weight, net: Net, c: Chan, p: Fields)
    requires Lawful(nodes) && Shaped(nodes, net)
    ensures Future(nodes, w, Send(nodes, net, c, p)) == Future(nodes, w, net) + Outcome(nodes, w, c, p)
  {
    if IsChan(nodes, c) {
      QueueUpdate(nodes, w, net, c, Queue(nodes, net, c) + [p]);
      QueueAppend(nodes, w, c, Queue(nodes, net, c), p);
    }
  }

  lemma {:induction false} SendBothFuture(nodes: Nodes, w: Weight, net: Net, i: nat, rs: seq<Fields>)
    requires Lawful(nodes) && Shaped(nodes, net) && Final(nodes, rs)
    ensures Future(nodes, w, SendBoth(nodes, net, i, rs)) == Future(nodes, w, net) + AnswersOutcome(nodes, w, i, rs)
    decreases |rs|
  {
    if rs != [] {
      var one := Send(nodes, net, ToRight(i + 1), rs[0]);
      SendFuture(nodes, w, net, ToRight(i + 1), rs[0]);
      SendFuture(nodes, w, one, ToLeft(i - 1), rs[0]);
      SendBothFuture(nodes, w, Send(nodes, one, ToLeft(i - 1), rs[0]), i, rs[1..]);
    }
  }

  lemma {:induction false} TakenFuture(nodes: Nodes, w: Weight, net: Net, c: Chan)
    requires Lawful(nodes) && Enabled(nodes, net, c)
    ensures Future(nodes, w, Taken(nodes, net, c)) + Outcome(nodes, w, c, Queue(nodes, net, c)[0])
            == Future(nodes, w, net)
  {
    QueueUpdate(nodes, w, net, c, Queue(nodes, net, c)[1..]);
  }

  ghost function AnswersWeight(nodes: Nodes, w: Weight, i: nat, p: Fields): nat
    requires Lawful(nodes)
  {
    if nodes.consumes(i, p) && nodes.triggers(p) then AnswersOutcome(nodes, w, i, nodes.replies(i, p)) else 0
  }

  lemma {:induction false} AnsweredFuture(nodes: Nodes, w: Weight, net: Net, i: nat, p: Fields)
    requires Lawful(nodes) && Shaped(nodes, net)
    ensures Future(nodes, w, Answered(nodes, net, i, p)) == Future(nodes, w, net) + AnswersWeight(nodes, w, i, p)
  {
    if nodes.consumes(i, p) {
      SendBothFuture(nodes, w, net, i, nodes.replies(i, p));
    }
  }

  /** The conservation law, for every weighing: a step moves weight from the future to the log. */
  lemma {:induction false} DeliverConserves(nodes: Nodes, w: Weight, net: Net, c: Chan)
    requires Lawful(nodes) && Enabled(nodes, net, c)
    ensures var r := Deliver(nodes, net, c);
            && LogWeight(w, r.log) + Future(nodes, w, r) == LogWeight(w, net.log) + Future(nodes, w, net)
            && |r.log| > |net.log|
  {
    var p := Queue(nodes, net, c)[0];
    var taken := Taken(nodes, net, c);
    var answered := Answered(nodes, taken, c.node, p);
    TakenFuture(nodes, w, net, c);
    AnsweredFuture(nodes, w, taken, c.node, p);
    if nodes.forwards(c.node, p) { SendFuture(nodes, w, answered, Next(c), p); }
    LogSplit(w, net.log, Handled(nodes, c.node, p));
    HandledIsWeighed(nodes, w, c.node, p);
    assert nodes.consumes(c.node, p) || nodes.forwards(c.node, p);
  }

  // ----- whole runs

  /** Over every run the log and the future add up to the same weight. */
  lemma {:induction false} RunConserves(nodes: Nodes, w: Weight, net: Net, sched: seq<Chan>, end: Net)
    requires Lawful(nodes) && Shaped(nodes, net) && Reaches(nodes, net, sched, end)
    ensures Shaped(nodes, end)
    ensures LogWeight(w, end.log) + Future(nodes, w, end) == LogWeight(w, net.log) + Future(nodes, w, net)
    ensures |end.log| >= |net.log| + |sched|
    decreases |sched|
  {
    if sched != [] {
      DeliverConserves(nodes, w, net, sched[0]);
      RunConserves(nodes, w, Deliver(nodes, net, sched[0]), sched[1..], end);
    }
  }

  lemma {:induction false} AnyWeighsLength(log: seq<Event>)
    ensures LogWeight(Any(), log) == |log|
    decreases |log|
  {
    if log != [] {
      AnyWeighsLength(log[1..]);
    }
  }

  lemma {:induction false} SilentSides(nodes: Nodes, w: Weight, net: Net, k: nat)
    requires Lawful(nodes) && Shaped(nodes, net) && Silent(net) && k <= nodes.count
    ensures RightOutcome(nodes, w, net.right, k) == 0 && LeftOutcome(nodes, w, net.left, k) == 0
  {
    if k > 0 {
      SilentSides(nodes, w, net, k - 1);
    }
  }

  /** Every run is finite, whatever the interleaving; a run that cannot go on has fallen silent; and all runs
      that have fallen silent have logged every event equally often. */
  lemma {:induction false} RunsEndAndAgree(nodes: Nodes, net: Net, sched: seq<Chan>, end: Net, e: Event)
    requires Lawful(nodes) && Shaped(nodes, net) && Reaches(nodes, net, sched, end)
    ensures |sched| <= Future(nodes, Any(), net)
    ensures Silent(end) <==> forall c :: !Enabled(nodes, end, c)
    ensures Silent(end) ==> Count(end.log, e) == Count(net.log, e) + Future(nodes, Only(e), net)
  {
    RunConserves(nodes, Any(), net, sched, end);
    AnyWeighsLength(net.log);
    AnyWeighsLength(end.log);
    RunConserves(nodes, Only(e), net, sched, end);
    if Silent(end) {
      SilentSides(nodes, Only(e), end, nodes.count);
    } else if i :| 0 <= i < |end.right| && end.right[i] != [] {
      assert Enabled(nodes, end, ToRight(i));
    } else {
      var i :| 0 <= i < |end.left| && end.left[i] != [];
      assert Enabled(nodes, end, ToLeft(i));
    }
  }

  /** From any packets in flight some run falls silent; so every run that stops short of silence can be completed. */
  lemma {:induction false} SomeRunFallsSilent(nodes: Nodes, net: Net) returns (sched: seq<Chan>, end: Net)
    requires Lawful(nodes) && Shaped(nodes, net)
    ensures Reaches(nodes, net, sched, end) && Silent(end)
    decreases Future(nodes, Any(), net)
  {
    if Silent(net) {
      return [], net;
    }
    var c: Chan;
    if i :| 0 <= i < |net.right| && net.right[i] != [] {
      c := ToRight(i);
    } else {
      var i :| 0 <= i < |net.left| && net.left[i] != [];
      c := ToLeft(i);
    }
    assert Enabled(nodes, net, c);
    var next := Deliver(nodes, net, c);
    DeliverConserves(nodes, Any(), net, c);
    AnyWeighsLength(net.log);
    AnyWeighsLength(next.log);
    var rest;
    rest, end := SomeRunFallsSilent(nodes, next);
    sched := [c] + rest;
    assert sched[1..] == rest;
  }

  // ----- packets put on the line

  function Idle(nodes: Nodes): (net: Net)
    ensures Shaped(nodes, net) && Silent(net)
  {
    Net(seq(nodes.count, _ => []), seq(nodes.count, _ => []), [])
  }

  /** Node `s` writes `p` to both sides. */
  function Put(nodes: Nodes, net: Net, s: nat, p: Fields): (r: Net)
    requires Shaped(nodes, net)
    ensures Shaped(nodes, r) && r.log == net.log
  {
    Send(nodes, Send(nodes, net, ToRight(s + 1), p), ToLeft(s - 1), p)
  }

  /** Node `s` writes `p` on a line at rest. */
  function Sent(nodes: Nodes, s: nat, p: Fields): (r: Net)
    ensures Shaped(nodes, r)
  {
    Put(nodes, Idle(nodes), s, p)
  }

  lemma {:induction false} PutFuture(nodes: Nodes, net: Net, e: Event, s: nat, p: Fields)
    requires Lawful(nodes) && Shaped(nodes, net)
    ensures Future(nodes, Only(e), Put(nodes, net, s, p)) == Future(nodes, Only(e), net) + SentOutcome(nodes, e, s, p)
  {
    SendFuture(nodes, Only(e), net, ToRight(s + 1), p);
    SendFuture(nodes, Only(e), Send(nodes, net, ToRight(s + 1), p), ToLeft(s - 1), p);
  }

  ghost function SentOutcome(nodes: Nodes, e: Event, s: int, p: Fields): nat
    requires Lawful(nodes)
  {
    Outcome(nodes, Only(e), ToRight(s + 1), p) + Outcome(nodes, Only(e), ToLeft(s - 1), p)
  }

  lemma {:induction false} SilentCount(nodes: Nodes, s: nat, p: Fields, sched: seq<Chan>, end: Net, e: Event)
    requires Lawful(nodes) && Reaches(nodes, Sent(nodes, s, p), sched, end) && Silent(end)
    ensures Count(end.log, e) == SentOutcome(nodes, e, s, p)
  {
    RunsEndAndAgree(nodes, Sent(nodes, s, p), sched, end, e);
    PutFuture(nodes, Idle(nodes), e, s, p);
    SilentSides(nodes, Only(e), Idle(nodes), nodes.count);
  }

  // ----- packets put on the line at any time

  /** A turn of the line, or a packet put on it by one of the nodes. */
  datatype Action = Turn(c: Chan) | Write(s: nat, p: Fields)

  ghost predicate Plays(nodes: Nodes, net: Net, acts: seq<Action>, end: Net)
    requires Shaped(nodes, net)
    decreases |acts|
  {
    if acts == [] then net == end
    else if acts[0].Turn? then
      Enabled(nodes, net, acts[0].c) && Plays(nodes, Deliver(nodes, net, acts[0].c), acts[1..], end)
    else Plays(nodes, Put(nodes, net, acts[0].s, acts[0].p), acts[1..], end)
  }

  ghost function WrittenOutcome(nodes: Nodes, e: Event, acts: seq<Action>): nat
    requires Lawful(nodes)
    decreases |acts|
  {
    if acts == [] then 0
    else (if acts[0].Write? then SentOutcome(nodes, e, acts[0].s, acts[0].p) else 0)
         + WrittenOutcome(nodes, e, acts[1..])
  }

  /** Packets do not disturb each other: however the nodes put packets on the line and the line takes its turns, the
      packets account for the events one by one. */
  lemma {:induction false} PlayConserves(nodes: Nodes, e: Event, net: Net, acts: seq<Action>, end: Net)
    requires Lawful(nodes) && Shaped(nodes, net) && Plays(nodes, net, acts, end)
    ensures Shaped(nodes, end)
    ensures Count(end.log, e) + Future(nodes, Only(e), end)
            == Count(net.log, e) + Future(nodes, Only(e), net) + WrittenOutcome(nodes, e, acts)
    decreases |acts|
  {
    if acts != [] {
      if acts[0].Turn? {
        DeliverConserves(nodes, Only(e), net, acts[0].c);
        PlayConserves(nodes, e, Deliver(nodes, net, acts[0].c), acts[1..], end);
      } else {
        PutFuture(nodes, net, e, acts[0].s, acts[0].p);
        PlayConserves(nodes, e, Put(nodes, net, acts[0].s, acts[0].p), acts[1..], end);
      }
    }
  }

  /** The count of every event on a line that was at rest and has fallen silent again. */
  lemma {:induction false} PlayedCount(nodes: Nodes, acts: seq<Action>, end: Net, e: Event)
    requires Lawful(nodes) && Plays(nodes, Idle(nodes), acts, end) && Silent(end)
    ensures Count(end.log, e) == WrittenOutcome(nodes, e, acts)
  {
    PlayConserves(nodes, e, Idle(nodes), acts, end);
    SilentSides(nodes, Only(e), end, nodes.count);
    SilentSides(nodes, Only(e), Idle(nodes), nodes.count);
  }

  // ----- one packet

  ghost predicate IsUnicast(nodes: Nodes, p: Fields, d: int) {
    forall i: nat | i < nodes.count :: nodes.consumes(i, p) == (i == d) && nodes.forwards(i, p) == (i != d)
  }

  ghost predicate IsBroadcast(nodes: Nodes, p: Fields) {
    forall i: nat | i < nodes.count :: nodes.consumes(i, p) && nodes.forwards(i, p)
  }

  /** The way of an unanswered unicast: relayed up to its addressee, consumed there, and no further. */
  lemma {:induction false} UnicastRight(nodes: Nodes, j: int, p: Fields, d: int, e: Event)
    requires Lawful(nodes) && IsUnicast(nodes, p, d) && !nodes.triggers(p) && 0 <= j <= nodes.count
    ensures Outcome(nodes, Only(e), ToRight(j), p)
            == if e.packet != p || !(j <= e.node < nodes.count) then 0
               else if e.Consumed? then (if e.node == d then 1 else 0)
               else (if j <= d <= e.node then 0 else 1)
    decreases nodes.count - j
  {
    if j < nodes.count {
      UnicastRight(nodes, j + 1, p, d, e);
    }
  }

  lemma {:induction false} UnicastLeft(nodes: Nodes, j: int, p: Fields, d: int, e: Event)
    requires Lawful(nodes) && IsUnicast(nodes, p, d) && !nodes.triggers(p) && -1 <= j < nodes.count
    ensures Outcome(nodes, Only(e), ToLeft(j), p)
            == if e.packet != p || !(0 <= e.node <= j) then 0
               else if e.Consumed? then (if e.node == d then 1 else 0)
               else (if e.node <= d <= j then 0 else 1)
    decreases j + 1
  {
    if j >= 0 {
      UnicastLeft(nodes, j - 1, p, d, e);
    }
  }

  function Occurrences(q: Fields, rs: seq<Fields>): nat {
    if rs == [] then 0 else (if rs[0] == q then 1 else 0) + Occurrences(q, rs[1..])
  }

  /** Answers from node `k` that are all addressed to node `s`, another node: each is consumed once, at `s`. */
  ghost predicate AllUnicast(nodes: Nodes, rs: seq<Fields>, s: int, p: Fields) {
    forall j | 0 <= j < |rs| :: IsUnicast(nodes, rs[j], s) && rs[j] != p
  }

  lemma {:induction false} AnswersConsumed(nodes: Nodes, k: int, rs: seq<Fields>, s: int, p: Fields, i: int, q: Fields)
    requires Lawful(nodes) && Final(nodes, rs) && AllUnicast(nodes, rs, s, p)
    requires 0 <= k < nodes.count && 0 <= s < nodes.count && k != s
    ensures AnswersOutcome(nodes, Only(Consumed(i, q)), k, rs) == if i == s then Occurrences(q, rs) else 0
    decreases |rs|
  {
    if rs != [] {
      UnicastRight(nodes, k + 1, rs[0], s, Consumed(i, q));
      UnicastLeft(nodes, k - 1, rs[0], s, Consumed(i, q));
      AnswersConsumed(nodes, k, rs[1..], s, p, i, q);
    }
  }

  /** They do not relay the packet they answer. */
  lemma {:induction false} AnswersRelay(nodes: Nodes, k: int, rs: seq<Fields>, s: int, p: Fields, i: int)
    requires Lawful(nodes) && Final(nodes, rs) && AllUnicast(nodes, rs, s, p) && 0 <= k < nodes.count
    ensures AnswersOutcome(nodes, Only(Relay(i, p)), k, rs) == 0
    decreases |rs|
  {
    if rs != [] {
      UnicastRight(nodes, k + 1, rs[0], s, Relay(i, p));
      UnicastLeft(nodes, k - 1, rs[0], s, Relay(i, p));
      AnswersRelay(nodes, k, rs[1..], s, p, i);
    }
  }

  /** Every node's answers to `p` are addressed to node `s`, and none of them is `p` itself. */
  ghost predicate AnswersReturn(nodes: Nodes, p: Fields, s: int) {
    0 <= s < nodes.count && forall k: nat | k < nodes.count :: AllUnicast(nodes, nodes.replies(k, p), s, p)
  }

  lemma {:induction false} AnswersWeighed(nodes: Nodes, k: nat, p: Fields, s: int, i: int, q: Fields)
    requires Lawful(nodes) && AnswersReturn(nodes, p, s) && k < nodes.count && k != s && nodes.consumes(k, p)
    ensures AnswersWeight(nodes, Only(Consumed(i, q)), k, p)
            == if i == s then Occurrences(q, nodes.replies(k, p)) else 0
    ensures AnswersWeight(nodes, Only(Relay(i, p)), k, p) == 0
  {
    AnswersConsumed(nodes, k, nodes.replies(k, p), s, p, i, q);
    AnswersRelay(nodes, k, nodes.replies(k, p), s, p, i);
  }

  /** How often `q` is among the answers to `p` of the nodes from `lo` up to `hi`. */
  function AnswersIn(nodes: Nodes, p: Fields, q: Fields, lo: nat, hi: nat): nat
    decreases hi
  {
    if lo >= hi then 0 else AnswersIn(nodes, p, q, lo, hi - 1) + Occurrences(q, nodes.replies(hi - 1, p))
  }

  lemma {:induction false} OneAnswer(nodes: Nodes, p: Fields, q: Fields, lo: nat, hi: nat, at: int)
    requires forall k: nat | lo <= k < hi :: Occurrences(q, nodes.replies(k, p)) == if k == at then 1 else 0
    ensures AnswersIn(nodes, p, q, lo, hi) == if lo <= at < hi then 1 else 0
    decreases hi
  {
    if lo < hi {
      OneAnswer(nodes, p, q, lo, hi - 1, at);
    }
  }

  lemma {:induction false} AnswersInFirst(nodes: Nodes, p: Fields, q: Fields, lo: nat, hi: nat)
    requires lo < hi
    ensures AnswersIn(nodes, p, q, lo, hi) == Occurrences(q, nodes.replies(lo, p)) + AnswersIn(nodes, p, q, lo + 1, hi)
    decreases hi
  {
    if lo < hi - 1 {
      AnswersInFirst(nodes, p, q, lo, hi - 1);
    }
  }

  lemma {:induction false} BroadcastRight(nodes: Nodes, j: nat, p: Fields, s: int, i: int, q: Fields)
    requires Lawful(nodes) && IsBroadcast(nodes, p) && AnswersReturn(nodes, p, s) && s < j <= nodes.count
    ensures Outcome(nodes, Only(Consumed(i, q)), ToRight(j), p)
            == (if q == p && j <= i < nodes.count then 1 else 0)
               + (if i == s then AnswersIn(nodes, p, q, j, nodes.count) else 0)
    ensures Outcome(nodes, Only(Relay(i, p)), ToRight(j), p) == if j <= i < nodes.count then 1 else 0
    decreases nodes.count - j
  {
    if j < nodes.count {
      BroadcastRight(nodes, j + 1, p, s, i, q);
      AnswersWeighed(nodes, j, p, s, i, q);
      AnswersInFirst(nodes, p, q, j, nodes.count);
    }
  }

  lemma {:induction false} BroadcastLeft(nodes: Nodes, j: int, p: Fields, s: int, i: int, q: Fields)
    requires Lawful(nodes) && IsBroadcast(nodes, p) && AnswersReturn(nodes, p, s) && -1 <= j < s
    ensures Outcome(nodes, Only(Consumed(i, q)), ToLeft(j), p)
            == (if q == p && 0 <= i <= j then 1 else 0) + (if i == s then AnswersIn(nodes, p, q, 0, j + 1) else 0)
    ensures Outcome(nodes, Only(Relay(i, p)), ToLeft(j), p) == if 0 <= i <= j then 1 else 0
    decreases j + 1
  {
    if j >= 0 {
      BroadcastLeft(nodes, j - 1, p, s, i, q);
      AnswersWeighed(nodes, j, p, s, i, q);
    }
  }

  lemma {:induction false} BroadcastOutcome(nodes: Nodes, s: int, p: Fields, i: int, q: Fields)
    requires Lawful(nodes) && IsBroadcast(nodes, p) && AnswersReturn(nodes, p, s)
    ensures SentOutcome(nodes, Consumed(i, q), s, p)
            == (if q == p && 0 <= i < nodes.count && i != s then 1 else 0)
               + (if i == s then AnswersIn(nodes, p, q, 0, s) + AnswersIn(nodes, p, q, s + 1, nodes.count) else 0)
    ensures SentOutcome(nodes, Relay(i, p), s, p) == if 0 <= i < nodes.count && i != s then 1 else 0
  {
    BroadcastRight(nodes, s + 1, p, s, i, q);
    BroadcastLeft(nodes, s - 1, p, s, i, q);
  }

  /** A broadcast, in any run that falls silent: every other node consumes it once and relays it once, the sender
      never; the sender consumes each answer of each other node once; nobody else consumes anything. */
  lemma {:induction false} BroadcastRuns(nodes: Nodes, s: int, p: Fields, sched: seq<Chan>, end: Net, i: int, q: Fields)
    requires Lawful(nodes) && IsBroadcast(nodes, p) && AnswersReturn(nodes, p, s)
    requires Reaches(nodes, Sent(nodes, s, p), sched, end) && Silent(end)
    ensures Count(end.log, Consumed(i, q))
            == (if q == p && 0 <= i < nodes.count && i != s then 1 else 0)
               + (if i == s then AnswersIn(nodes, p, q, 0, s) + AnswersIn(nodes, p, q, s + 1, nodes.count) else 0)
    ensures Count(end.log, Relay(i, p)) == if 0 <= i < nodes.count && i != s then 1 else 0
  {
    BroadcastOutcome(nodes, s, p, i, q);
    SilentCount(nodes, s, p, sched, end, Consumed(i, q));
    SilentCount(nodes, s, p, sched, end, Relay(i, p));
  }

  lemma {:induction false} AnsweredRight(nodes: Nodes, j: int, p: Fields, s: int, d: int, i: int, q: Fields)
    requires Lawful(nodes) && IsUnicast(nodes, p, d) && AnswersReturn(nodes, p, s)
    requires -1 <= d < nodes.count && s != d && 0 <= j <= nodes.count
    ensures Outcome(nodes, Only(Consumed(i, q)), ToRight(j), p)
            == if j <= d then
                 (if q == p && i == d then 1 else 0) + (if i == s then Occurrences(q, nodes.replies(d, p)) else 0)
               else 0
    ensures Outcome(nodes, Only(Relay(i, p)), ToRight(j), p) == if j <= i < nodes.count && !(j <= d <= i) then 1 else 0
    decreases nodes.count - j
  {
    if j < nodes.count {
      AnsweredRight(nodes, j + 1, p, s, d, i, q);
      if j == d { AnswersWeighed(nodes, d, p, s, i, q); }
    }
  }

  lemma {:induction false} AnsweredLeft(nodes: Nodes, j: int, p: Fields, s: int, d: int, i: int, q: Fields)
    requires Lawful(nodes) && IsUnicast(nodes, p, d) && AnswersReturn(nodes, p, s)
    requires -1 <= d < nodes.count && s != d && -1 <= j < nodes.count
    ensures Outcome(nodes, Only(Consumed(i, q)), ToLeft(j), p)
            == if 0 <= d <= j then
                 (if q == p && i == d then 1 else 0) + (if i == s then Occurrences(q, nodes.replies(d, p)) else 0)
               else 0
    ensures Outcome(nodes, Only(Relay(i, p)), ToLeft(j), p) == if 0 <= i <= j && !(i <= d <= j) then 1 else 0
    decreases j + 1
  {
    if j >= 0 {
      AnsweredLeft(nodes, j - 1, p, s, d, i, q);
      if j == d { AnswersWeighed(nodes, d, p, s, i, q); }
    }
  }

  /** A packet that its addressee `d` has written itself leaves it for good. */
  lemma {:induction false} OwnRight(nodes: Nodes, j: int, p: Fields, d: int, e: Event)
    requires Lawful(nodes) && IsUnicast(nodes, p, d) && 0 <= d < j <= nodes.count
    ensures Outcome(nodes, Only(e), ToRight(j), p)
            == if e == Relay(e.node, p) && j <= e.node < nodes.count then 1 else 0
    decreases nodes.count - j
  {
    if j < nodes.count {
      OwnRight(nodes, j + 1, p, d, e);
    }
  }

  lemma {:induction false} OwnLeft(nodes: Nodes, j: int, p: Fields, d: int, e: Event)
    requires Lawful(nodes) && IsUnicast(nodes, p, d) && -1 <= j < d < nodes.count
    ensures Outcome(nodes, Only(e), ToLeft(j), p) == if e == Relay(e.node, p) && 0 <= e.node <= j then 1 else 0
    decreases j + 1
  {
    if j >= 0 {
      OwnLeft(nodes, j - 1, p, d, e);
    }
  }

  lemma {:induction false} UnicastOutcome(nodes: Nodes, s: int, d: int, p: Fields, i: int, q: Fields)
    requires Lawful(nodes) && IsUnicast(nodes, p, d) && -1 <= d < nodes.count && 0 <= s < nodes.count
    requires s != d ==> AnswersReturn(nodes, p, s)
    ensures SentOutcome(nodes, Consumed(i, q), s, p)
            == if d < 0 || d == s then 0
               else (if q == p && i == d then 1 else 0) + (if i == s then Occurrences(q, nodes.replies(d, p)) else 0)
    ensures SentOutcome(nodes, Relay(i, p), s, p)
            == if 0 <= i < nodes.count && i != s && !(s < d <= i) && !(i <= d < s) then 1 else 0
  {
    if s == d {
      OwnRight(nodes, s + 1, p, d, Consumed(i, q));
      OwnLeft(nodes, s - 1, p, d, Consumed(i, q));
      OwnRight(nodes, s + 1, p, d, Relay(i, p));
      OwnLeft(nodes, s - 1, p, d, Relay(i, p));
    } else {
      AnsweredRight(nodes, s + 1, p, s, d, i, q);
      AnsweredLeft(nodes, s - 1, p, s, d, i, q);
    }
  }

  /** A unicast from `s` to `d`, in any run that falls silent: `d` alone consumes it, once; no node at or beyond `d`
      relays it, every other node but the sender does; the sender consumes each answer once; nobody else consumes
      anything. A packet for nobody on the line (`d` is -1), or for the sender itself, is relayed by all the others and
      consumed by none. */
  lemma {:induction false} UnicastRuns(nodes: Nodes, s: int, d: int, p: Fields, sched: seq<Chan>, end: Net, i: int,
      q: Fields)
    requires Lawful(nodes) && IsUnicast(nodes, p, d) && -1 <= d < nodes.count && 0 <= s < nodes.count
    requires s != d ==> AnswersReturn(nodes, p, s)
    requires Reaches(nodes, Sent(nodes, s, p), sched, end) && Silent(end)
    ensures Count(end.log, Consumed(i, q))
            == if d < 0 || d == s then 0
               else (if q == p && i == d then 1 else 0) + (if i == s then Occurrences(q, nodes.replies(d, p)) else 0)
    ensures Count(end.log, Relay(i, p))
            == if 0 <= i < nodes.count && i != s && !(s < d <= i) && !(i <= d < s) then 1 else 0
  {
    UnicastOutcome(nodes, s, d, p, i, q);
    SilentCount(nodes, s, p, sched, end, Consumed(i, q));
    SilentCount(nodes, s, p, sched, end, Relay(i, p));
  }
}
