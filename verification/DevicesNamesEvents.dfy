/** What the events of the device names database say: the name a device goes by after an event and after a run, and who
    is found under which name. */
module DevicesNamesEvents {
  import opened Common
  import opened DevicesNames

  /** A manual name always wins; an identification gives a name to a device without a manual one, and a storage only to
      a device without any. */
  predicate Renames(s: Names, op: Op)
    requires !op.InitDb?
  {
    op.SetManual? || (op.uid !in s.manual && (op.Identified? || op.uid !in s.auto))
  }

  /** After an event its device goes by the new name when the event renames it, and all others by their old names. */
  lemma {:induction false} EventNames(s: Names, op: Op, u: Uid)
    requires s.hasPath && !op.InitDb?
    ensures DeviceName(Step(s, op), u) == if u == op.uid && Renames(s, op) then op.name else DeviceName(s, u)
  {
  }

  /** After an event that renames, the device is found under its new name and not under its old one, unless that was
      empty; everything else is found as before. An event that does not rename changes no answer. */
  lemma {:induction false} EventFinds(s: Names, op: Op, n: Name)
    requires s.hasPath && !op.InitDb?
    ensures Renames(s, op) ==> FindDevice(Step(s, op), op.name) == op.uid
    ensures Renames(s, op) && n != op.name && n == DeviceName(s, op.uid) && n != "" ==> FindDevice(Step(s, op), n) == 0
    ensures !Renames(s, op) || (n != op.name && n != DeviceName(s, op.uid)) ==>
              FindDevice(Step(s, op), n) == FindDevice(s, n)
  {
  }

  function Lookup(m: map<Uid, Name>, u: Uid): Option<Name> {
    if u in m then Some(m[u]) else None
  }

  /** What is kept of either kind of name, for the file. An identification is kept even under a manual name; a name from
      a storage only where it does not take the place of an automatic name that is in use. */
  lemma {:induction false} EventKeeps(s: Names, op: Op, u: Uid)
    requires s.hasPath && !op.InitDb?
    ensures Lookup(Step(s, op).manual, u) == if op.SetManual? && u == op.uid then Some(op.name) else Lookup(s.manual, u)
    ensures Lookup(Step(s, op).auto, u)
            == if u == op.uid && (op.Identified? || (op.FromStorage? && (u in s.manual || u !in s.auto)))
               then Some(op.name) else Lookup(s.auto, u)
  {
  }

  /** A start with a path but without a usable file: no device has a name and none is found, until the next event. */
  lemma {:induction false} EmptyStart(s: Names, file: FileContent, u: Uid, n: Name, v: Uid, m: Name)
    requires !file.Entries?
    ensures var t := Step(s, InitDb(true, file));
            && DeviceName(t, u) == "" && FindDevice(t, n) == 0
            && DeviceName(Step(t, SetManual(v, m)), v) == m && FindDevice(Step(t, Identified(v, m)), m) == v
  {
  }

  /** Without a path there are no answers, and what devices and storages tell is lost. */
  lemma {:induction false} NoPathNoNames(s: Names, op: Op, u: Uid, n: Name)
    requires !s.hasPath
    ensures DeviceName(s, u) == "" && FindDevice(s, n) == 0
    ensures op.Identified? || op.FromStorage? ==> Step(s, op) == s
  {
  }

  // ----- runs

  function LastManual(ops: seq<Op>, u: Uid): Option<Name> {
    if ops == [] then None
    else if LastManual(ops[1..], u).Some? then LastManual(ops[1..], u)
    else if ops[0].SetManual? && ops[0].uid == u then Some(ops[0].name)
    else None
  }

  function LastIdentified(ops: seq<Op>, u: Uid): Option<Name> {
    if ops == [] then None
    else if LastIdentified(ops[1..], u).Some? then LastIdentified(ops[1..], u)
    else if ops[0].Identified? && ops[0].uid == u then Some(ops[0].name)
    else None
  }

  function FirstStored(ops: seq<Op>, u: Uid): Option<Name> {
    if ops == [] then None
    else if ops[0].FromStorage? && ops[0].uid == u then Some(ops[0].name)
    else FirstStored(ops[1..], u)
  }

  /** The name after a run, by the order of precedence: the last manual name, the manual name from before, the last name
      the device gave itself, the automatic name from before, the first name a storage had for it. */
  lemma {:induction false} RunNames(s: Names, ops: seq<Op>, u: Uid)
    requires s.hasPath && forall k | 0 <= k < |ops| :: !ops[k].InitDb?
    ensures DeviceName(Run(s, ops), u)
            == if LastManual(ops, u).Some? then LastManual(ops, u).value
               else if u in s.manual then s.manual[u]
               else if LastIdentified(ops, u).Some? then LastIdentified(ops, u).value
               else if u in s.auto then s.auto[u]
               else if FirstStored(ops, u).Some? then FirstStored(ops, u).value
               else ""
    decreases |ops|
  {
    if ops != [] {
      RunNames(Step(s, ops[0]), ops[1..], u);
    }
  }

  lemma {:induction false} RunSplit(s: Names, a: seq<Op>, b: seq<Op>)
    ensures Run(s, a + b) == Run(Run(s, a), b)
    decreases |a|
  {
    if a == [] {
      assert a + b == b;
    } else {
      assert (a + b)[1..] == a[1..] + b;
      RunSplit(Step(s, a[0]), a[1..], b);
    }
  }

  lemma {:induction false} RunKeepsPath(s: Names, ops: seq<Op>)
    requires s.hasPath && forall k | 0 <= k < |ops| :: !ops[k].InitDb?
    ensures Run(s, ops).hasPath
    decreases |ops|
  {
    if ops != [] { RunKeepsPath(Step(s, ops[0]), ops[1..]); }
  }

  /** Who was renamed to `n` is found under `n` for as long as later events neither rename it nor give `n` to another
      device or take it from one. */
  lemma {:induction false} RenamedIsFound(s: Names, before: seq<Op>, op: Op, after: seq<Op>)
    requires s.hasPath && !op.InitDb? && Renames(Run(s, before), op)
    requires forall k | 0 <= k < |before| :: !before[k].InitDb?
    requires forall k | 0 <= k < |after| :: !after[k].InitDb? && after[k].uid != op.uid && after[k].name != op.name
    requires forall k | 0 <= k < |after| ::
               DeviceName(Run(s, before + [op] + after[..k]), after[k].uid) != op.name
    ensures FindDevice(Run(s, before + [op] + after), op.name) == op.uid
    ensures DeviceName(Run(s, before + [op] + after), op.uid) == op.name
  {
    RunKeepsPath(s, before);
    var t := Run(s, before);
    RunSplit(s, before, [op]);
    assert [op][1..] == [] && Run(t, [op]) == Step(t, op);
    EventFinds(t, op, op.name);
    EventNames(t, op, op.uid);
    RunSplit(s, before + [op], after);
    forall k | 0 <= k < |after| ensures DeviceName(Run(Step(t, op), after[..k]), after[k].uid) != op.name {
      RunSplit(s, before + [op], after[..k]);
    }
    StaysFound(Step(t, op), op.uid, op.name, after);
  }

  lemma {:induction false} StaysFound(s: Names, u: Uid, n: Name, ops: seq<Op>)
    requires s.hasPath && FindDevice(s, n) == u && DeviceName(s, u) == n
    requires forall k | 0 <= k < |ops| :: !ops[k].InitDb? && ops[k].uid != u && ops[k].name != n
    requires forall k | 0 <= k < |ops| :: DeviceName(Run(s, ops[..k]), ops[k].uid) != n
    ensures FindDevice(Run(s, ops), n) == u && DeviceName(Run(s, ops), u) == n
    decreases |ops|
  {
    if ops != [] {
      var t := Step(s, ops[0]);
      assert ops[..0] == [] && Run(s, ops[..0]) == s;
      EventFinds(s, ops[0], n);
      EventNames(s, ops[0], u);
      forall k | 0 <= k < |ops[1..]| ensures DeviceName(Run(t, ops[1..][..k]), ops[1..][k].uid) != n {
        assert ops[..k + 1][1..] == ops[1..][..k] && ops[1..][k] == ops[k + 1];
        assert Run(s, ops[..k + 1]) == Run(t, ops[1..][..k]);
      }
      StaysFound(t, u, n, ops[1..]);
    }
  }
}
