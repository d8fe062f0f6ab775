/** The device names database (FSDevicesNamesDatabase): automatic and manual names, and the reverse map from names to
    devices. */
module DevicesNames {
  import opened Common

  /** A device id; 0 is the null id. */
  type Uid = nat
  type Name = string

  datatype Names = Names(hasPath: bool, auto: map<Uid, Name>, manual: map<Uid, Name>, reverse: map<Name, Uid>)

  /** The file read at the start: its entries in order, without the ones that lack an id or a name. */
  datatype FileContent = Missing | Malformed | Entries(auto: seq<(Uid, Name)>, manual: seq<(Uid, Name)>)

  datatype Op = InitDb(hasPath: bool, file: FileContent) | SetManual(uid: Uid, name: Name)
              | Identified(uid: Uid, name: Name) | FromStorage(uid: Uid, name: Name)

  /** The name a device goes by; empty when it has none. */
  function Current(s: Names, uid: Uid): Name {
    if uid in s.manual then s.manual[uid] else if uid in s.auto then s.auto[uid] else ""
  }

  function DeviceName(s: Names, uid: Uid): Name {
    if s.hasPath then Current(s, uid) else ""
  }

  function FindDevice(s: Names, name: Name): Uid {
    if s.hasPath && name in s.reverse then s.reverse[name] else 0
  }

  // ----- the events

  function Loaded(m: map<Uid, Name>, entries: seq<(Uid, Name)>): map<Uid, Name>
    decreases |entries|
  {
    if entries == [] then m else Loaded(m[entries[0].0 := entries[0].1], entries[1..])
  }

  function LoadedReverse(m: map<Name, Uid>, entries: seq<(Uid, Name)>): map<Name, Uid>
    decreases |entries|
  {
    if entries == [] then m else LoadedReverse(m[entries[0].1 := entries[0].0], entries[1..])
  }

  function Step(s: Names, op: Op): Names {
    match op
    case InitDb(hasPath, file) =>
      if file.Entries? then
        Names(hasPath, Loaded(map[], file.auto), Loaded(map[], file.manual),
          LoadedReverse(map[], file.auto + file.manual))
      else Names(hasPath, map[], map[], map[])
    case SetManual(uid, name) =>
      var oldName := DeviceName(s, uid);
      var reverse := if oldName != "" then s.reverse - {oldName} else s.reverse;
      s.(manual := s.manual[uid := name], reverse := reverse[name := uid])
    case Identified(uid, name) =>
      if !s.hasPath then s
      else if uid in s.manual then s.(auto := s.auto[uid := name])
      else
        var reverse := if uid in s.auto then s.reverse - {s.auto[uid]} else s.reverse;
        s.(auto := s.auto[uid := name], reverse := reverse[name := uid])
    case FromStorage(uid, name) =>
      if !s.hasPath then s
      else if uid in s.manual then s.(auto := s.auto[uid := name])
      else if uid in s.auto then s
      else s.(auto := s.auto[uid := name], reverse := s.reverse[name := uid])
  }

  function Run(s: Names, ops: seq<Op>): Names
    decreases |ops|
  {
    if ops == [] then s else Run(Step(s, ops[0]), ops[1..])
  }

  const INITIAL := Names(false, map[], map[], map[])

  // ----- the reverse map is right

  /** Whoever is found under a name (not the empty one) goes by it. */
  ghost predicate Consistent(s: Names) {
    s.hasPath ==> forall n | n in s.reverse && n != "" :: Current(s, s.reverse[n]) == n
  }

  /** Everyone who goes by a name is found under it. */
  ghost predicate Complete(s: Names) {
    forall u | u in s.manual.Keys + s.auto.Keys && Current(s, u) != "" ::
      Current(s, u) in s.reverse && s.reverse[Current(s, u)] == u
  }

  /** No two devices go by one name. */
  ghost predicate Distinct(s: Names) {
    forall u, v | u in s.manual.Keys + s.auto.Keys && v in s.manual.Keys + s.auto.Keys
      && Current(s, u) == Current(s, v) != "" :: u == v
  }

  /** A start without a file, or with one that holds nothing stale. */
  ghost predicate StartsClean(op: Op) {
    op.InitDb? && op.file.Entries? ==> Consistent(Step(INITIAL, op))
  }

  lemma {:induction false} StepIsConsistent(s: Names, op: Op)
    requires Consistent(s) && StartsClean(op)
    ensures Consistent(Step(s, op))
  {
  }

  /** Over every run of events, with any names: who is found under a name goes by it. */
  lemma {:induction false} FoundDeviceHasTheName(s: Names, ops: seq<Op>, n: Name)
    requires Consistent(s) && forall k | 0 <= k < |ops| :: StartsClean(ops[k])
    ensures var r := Run(s, ops);
            n != "" && FindDevice(r, n) != 0 ==> DeviceName(r, FindDevice(r, n)) == n
    decreases |ops|
  {
    if ops != [] {
      StepIsConsistent(s, ops[0]);
      FoundDeviceHasTheName(Step(s, ops[0]), ops[1..], n);
    }
  }

  /** Whoever is found under any name, the empty one included, is known and goes by it. */
  ghost predicate Full(s: Names) {
    forall n | n in s.reverse :: s.reverse[n] in s.manual.Keys + s.auto.Keys && Current(s, s.reverse[n]) == n
  }

  /** The one event that leaves a wrong entry: a manual name for the device found under the empty name. */
  predicate Forgets(s: Names, op: Op) {
    op.SetManual? && op.name != "" && "" in s.reverse && s.reverse[""] == op.uid
  }

  /** The event sets or drops the entry of the empty name. */
  predicate Settles(s: Names, op: Op) {
    match op
    case InitDb(_, _) => true
    case SetManual(_, name) => name == ""
    case Identified(uid, name) => s.hasPath && uid !in s.manual && (name == "" || (uid in s.auto && s.auto[uid] == ""))
    case FromStorage(uid, name) => s.hasPath && uid !in s.manual && uid !in s.auto && name == ""
  }

  /** All entries are right but perhaps the one of the empty name. */
  ghost predicate FullButEmpty(s: Names) {
    forall n | n in s.reverse && n != "" :: s.reverse[n] in s.manual.Keys + s.auto.Keys && Current(s, s.reverse[n]) == n
  }

  lemma {:induction false} StepIsFullButEmpty(s: Names, op: Op)
    requires s.hasPath && FullButEmpty(s) && !op.InitDb?
    ensures FullButEmpty(Step(s, op)) && Step(s, op).hasPath
  {
  }

  /** Whatever the entry of the empty name was: after an event it is right exactly when the event settles it, or it was
      right and the event does not forget it. */
  lemma {:induction false} StepIsFullIff(s: Names, op: Op)
    requires s.hasPath && FullButEmpty(s) && !op.InitDb?
    ensures Full(Step(s, op)) <==> Settles(s, op) || (Full(s) && !Forgets(s, op))
  {
    StepIsFullButEmpty(s, op);
    StepOnEmptyName(s, op);
    assert Full(s) <==> FullButEmpty(s) && EmptyIsRight(s);
    assert Full(Step(s, op)) <==> FullButEmpty(Step(s, op)) && EmptyIsRight(Step(s, op));
  }

  ghost predicate EmptyIsRight(s: Names) {
    "" in s.reverse ==> s.reverse[""] in s.manual.Keys + s.auto.Keys && Current(s, s.reverse[""]) == ""
  }

  lemma {:induction false} StepOnEmptyName(s: Names, op: Op)
    requires s.hasPath && !op.InitDb?
    ensures EmptyIsRight(Step(s, op)) <==> Settles(s, op) || (EmptyIsRight(s) && !Forgets(s, op))
  {
    var t := Step(s, op);
    if "" in s.reverse && !Settles(s, op) {
      assert t.reverse[""] == s.reverse[""];
    }
  }

  /** From a database that is right, one event keeps it right exactly when it does not forget. */
  lemma {:induction false} StepKeepsFullIff(s: Names, op: Op)
    requires s.hasPath && Full(s) && !op.InitDb?
    ensures Full(Step(s, op)) <==> !Forgets(s, op)
  {
    StepIsFullIff(s, op);
  }

  /** A run leaves the entry of the empty name wrong: some event forgets it and no later one settles it. */
  predicate LeavesStale(s: Names, ops: seq<Op>)
    decreases |ops|
  {
    ops != [] && (LeavesStale(Step(s, ops[0]), ops[1..])
      || (Forgets(s, ops[0]) && !AnySettles(Step(s, ops[0]), ops[1..])))
  }

  predicate AnySettles(s: Names, ops: seq<Op>)
    decreases |ops|
  {
    ops != [] && (Settles(s, ops[0]) || AnySettles(Step(s, ops[0]), ops[1..]))
  }

  lemma {:induction false} RunIsFullFrom(s: Names, ops: seq<Op>)
    requires s.hasPath && FullButEmpty(s) && forall k | 0 <= k < |ops| :: !ops[k].InitDb?
    ensures Full(Run(s, ops)) <==> !LeavesStale(s, ops) && (Full(s) || AnySettles(s, ops))
    decreases |ops|
  {
    if ops != [] {
      StepIsFullButEmpty(s, ops[0]);
      StepIsFullIff(s, ops[0]);
      RunIsFullFrom(Step(s, ops[0]), ops[1..]);
    }
  }

  /** Over every run: everyone found under a name, the empty one included, goes by it, exactly when no event that
      forgets the empty name is left unsettled. */
  lemma {:induction false} RunKeepsFullIff(s: Names, ops: seq<Op>)
    requires s.hasPath && Full(s) && forall k | 0 <= k < |ops| :: !ops[k].InitDb?
    ensures Full(Run(s, ops)) <==> !LeavesStale(s, ops)
  {
    RunIsFullFrom(s, ops);
  }

  /** Such an event: the device goes by its new name and is still found under the empty one. */
  lemma {:induction false} EmptyNameCanGoStale(s: Names, u: Uid, n: Name)
    requires s.hasPath && u != 0 && n != ""
    ensures var r := Run(s, [SetManual(u, ""), SetManual(u, n)]);
            FindDevice(r, "") == u && DeviceName(r, u) == n && !Full(r)
  {
    var ops := [SetManual(u, ""), SetManual(u, n)];
    assert ops[1..] == [SetManual(u, n)] && ops[1..][1..] == [];
    var t := Step(s, ops[0]);
    assert Run(s, ops) == Run(t, ops[1..]) == Step(t, SetManual(u, n));
    assert "" in Run(s, ops).reverse;
  }

  /** An event keeps everyone findable exactly when it leaves no two devices with one name. */
  lemma {:induction false} StepIsCompleteIffDistinct(s: Names, op: Op)
    requires s.hasPath && Complete(s) && !op.InitDb?
    ensures Complete(Step(s, op)) <==> Distinct(Step(s, op))
  {
    if Distinct(Step(s, op)) { DistinctIsComplete(s, op); }
  }

  ghost predicate IsFound(s: Names, u: Uid) {
    u in s.manual.Keys + s.auto.Keys && Current(s, u) != "" ==>
      Current(s, u) in s.reverse && s.reverse[Current(s, u)] == u
  }

  lemma {:induction false} DistinctIsComplete(s: Names, op: Op)
    requires s.hasPath && Complete(s) && !op.InitDb? && Distinct(Step(s, op))
    ensures Complete(Step(s, op))
  {
    forall u ensures IsFound(Step(s, op), u) {
      assert IsFound(s, u) && IsFound(s, op.uid);
      if u == op.uid { OwnerIsFound(s, op); } else { OthersAreFound(s, op, u); }
    }
    assert forall u | u in Step(s, op).manual.Keys + Step(s, op).auto.Keys :: IsFound(Step(s, op), u);
  }

  lemma {:induction false} OwnerIsFound(s: Names, op: Op)
    requires s.hasPath && !op.InitDb? && IsFound(s, op.uid)
    ensures IsFound(Step(s, op), op.uid)
  {
  }

  lemma {:induction false} OthersAreFound(s: Names, op: Op, u: Uid)
    requires s.hasPath && !op.InitDb? && u != op.uid && IsFound(s, op.uid) && IsFound(s, u) && Distinct(Step(s, op))
    ensures IsFound(Step(s, op), u)
  {
    var t := Step(s, op);
    assert Current(t, u) == Current(s, u);
    if u in t.manual.Keys + t.auto.Keys && Current(t, u) != "" {
      assert op.uid in t.manual.Keys + t.auto.Keys && Current(t, u) != Current(t, op.uid);
    }
  }

  /** With names that stay distinct, looking up the name of a named device gives the device. */
  lemma {:induction false} NamedDeviceIsFound(s: Names, ops: seq<Op>, u: Uid)
    requires s.hasPath && Complete(s)
    requires forall k | 0 <= k < |ops| :: !ops[k].InitDb?
    requires forall k | 0 <= k <= |ops| :: Distinct(Run(s, ops[..k]))
    ensures var r := Run(s, ops);
            DeviceName(r, u) != "" ==> FindDevice(r, DeviceName(r, u)) == u
    decreases |ops|
  {
    if ops != [] {
      var t := Step(s, ops[0]);
      assert ops[..1] == [ops[0]] && Run(s, ops[..1]) == Run(t, ops[..1][1..]) == t;
      StepIsCompleteIffDistinct(s, ops[0]);
      forall k | 0 <= k <= |ops[1..]| ensures Distinct(Run(t, ops[1..][..k])) {
        assert ops[..k + 1][0] == ops[0] && ops[..k + 1][1..] == ops[1..][..k];
        assert Run(s, ops[..k + 1]) == Run(t, ops[1..][..k]);
      }
      NamedDeviceIsFound(t, ops[1..], u);
    }
  }

  // ----- loading a file

  /** The last entry with this name. */
  function LastWith(entries: seq<(Uid, Name)>, n: Name): Option<Uid> {
    if entries == [] then None
    else if entries[|entries| - 1].1 == n then Some(entries[|entries| - 1].0)
    else LastWith(entries[..|entries| - 1], n)
  }

  lemma {:induction false} LoadedReverseLast(m: map<Name, Uid>, a: seq<(Uid, Name)>, e: (Uid, Name))
    ensures LoadedReverse(m, a + [e]) == LoadedReverse(m, a)[e.1 := e.0]
    decreases |a|
  {
    if a == [] {
      assert a + [e] == [e];
    } else {
      assert (a + [e])[1..] == a[1..] + [e];
      LoadedReverseLast(m[a[0].1 := a[0].0], a[1..], e);
    }
  }

  /** After loading a name leads to the device of its last entry. */
  lemma {:induction false} LoadedReverseIsLast(entries: seq<(Uid, Name)>, n: Name)
    ensures var r := LoadedReverse(map[], entries);
            LastWith(entries, n) == if n in r then Some(r[n]) else None
    decreases |entries|
  {
    if entries != [] {
      var k := |entries| - 1;
      LoadedReverseIsLast(entries[..k], n);
      LoadedReverseLast(map[], entries[..k], entries[k]);
      assert entries == entries[..k] + [entries[k]];
    }
  }

  /** The last entry of this device. */
  function LastName(entries: seq<(Uid, Name)>, u: Uid): Option<Name> {
    if entries == [] then None
    else if entries[|entries| - 1].0 == u then Some(entries[|entries| - 1].1)
    else LastName(entries[..|entries| - 1], u)
  }

  lemma {:induction false} LoadedLast(m: map<Uid, Name>, a: seq<(Uid, Name)>, e: (Uid, Name))
    ensures Loaded(m, a + [e]) == Loaded(m, a)[e.0 := e.1]
    decreases |a|
  {
    if a == [] {
      assert a + [e] == [e];
    } else {
      assert (a + [e])[1..] == a[1..] + [e];
      LoadedLast(m[a[0].0 := a[0].1], a[1..], e);
    }
  }

  /** After loading a device has the name of its last entry. */
  lemma {:induction false} LoadedIsLast(entries: seq<(Uid, Name)>, u: Uid)
    ensures var r := Loaded(map[], entries);
            LastName(entries, u) == if u in r then Some(r[u]) else None
    decreases |entries|
  {
    if entries != [] {
      var k := |entries| - 1;
      LoadedIsLast(entries[..k], u);
      LoadedLast(map[], entries[..k], entries[k]);
      assert entries == entries[..k] + [entries[k]];
    }
  }

  /** The name the file gives a device: its last manual entry, or else its last automatic one. */
  function NameIn(auto: seq<(Uid, Name)>, manual: seq<(Uid, Name)>, u: Uid): Option<Name> {
    if LastName(manual, u).Some? then LastName(manual, u) else LastName(auto, u)
  }

  /** Entry `k` of the file, automatic ones first, is the last to use its name, though the file gives its device
      another one. */
  predicate Stale(auto: seq<(Uid, Name)>, manual: seq<(Uid, Name)>, k: nat)
    requires k < |auto| + |manual|
  {
    var all := auto + manual;
    LastWith(all, all[k].1) == Some(all[k].0) && NameIn(auto, manual, all[k].0) != Some(all[k].1)
  }

  lemma {:induction false} LoadedCurrent(auto: seq<(Uid, Name)>, manual: seq<(Uid, Name)>, u: Uid)
    ensures var s := Step(INITIAL, InitDb(true, Entries(auto, manual)));
            && (u in s.manual.Keys + s.auto.Keys <==> NameIn(auto, manual, u).Some?)
            && (NameIn(auto, manual, u).Some? ==> Current(s, u) == NameIn(auto, manual, u).value)
  {
    LoadedIsLast(auto, u);
    LoadedIsLast(manual, u);
  }

  lemma {:induction false} LastNameIsSome(entries: seq<(Uid, Name)>, k: nat)
    requires k < |entries|
    ensures LastName(entries, entries[k].0).Some?
    decreases |entries|
  {
    var n := |entries| - 1;
    if k < n { LastNameIsSome(entries[..n], k); }
  }

  /** A loaded database is right from the start, the empty name included, exactly when its file holds no stale entry. */
  lemma {:induction false} LoadIsFullIffNothingStale(auto: seq<(Uid, Name)>, manual: seq<(Uid, Name)>)
    ensures Full(Step(INITIAL, InitDb(true, Entries(auto, manual)))) <==>
            (forall k | 0 <= k < |auto| + |manual| :: !Stale(auto, manual, k))
  {
    var s, all := Step(INITIAL, InitDb(true, Entries(auto, manual))), auto + manual;
    if Full(s) {
      forall k | 0 <= k < |all| ensures !Stale(auto, manual, k) {
        LoadedReverseIsLast(all, all[k].1);
        LoadedCurrent(auto, manual, all[k].0);
      }
    }
    if forall k | 0 <= k < |all| :: !Stale(auto, manual, k) {
      forall n | n in s.reverse ensures s.reverse[n] in s.manual.Keys + s.auto.Keys && Current(s, s.reverse[n]) == n {
        LoadedEntry(auto, manual, n);
      }
    }
  }

  lemma {:induction false} LoadedEntry(auto: seq<(Uid, Name)>, manual: seq<(Uid, Name)>, n: Name)
    requires n in LoadedReverse(map[], auto + manual)
    requires forall k | 0 <= k < |auto| + |manual| :: (auto + manual)[k].1 == n ==> !Stale(auto, manual, k)
    ensures var s := Step(INITIAL, InitDb(true, Entries(auto, manual)));
            s.reverse[n] in s.manual.Keys + s.auto.Keys && Current(s, s.reverse[n]) == n
  {
    LoadedReverseIsLast(auto + manual, n);
    var k := LastWithAt(auto + manual, n);
    assert !Stale(auto, manual, k);
    LoadedCurrent(auto, manual, LoadedReverse(map[], auto + manual)[n]);
  }

  /** Without the empty name: exactly when no entry with another name is stale. */
  lemma {:induction false} LoadIsConsistentIffNothingStale(auto: seq<(Uid, Name)>, manual: seq<(Uid, Name)>)
    ensures Consistent(Step(INITIAL, InitDb(true, Entries(auto, manual)))) <==>
            (forall k | 0 <= k < |auto| + |manual| :: (auto + manual)[k].1 != "" ==> !Stale(auto, manual, k))
  {
    var s, all := Step(INITIAL, InitDb(true, Entries(auto, manual))), auto + manual;
    if Consistent(s) {
      forall k | 0 <= k < |all| && all[k].1 != "" ensures !Stale(auto, manual, k) {
        LoadedReverseIsLast(all, all[k].1);
        LoadedCurrent(auto, manual, all[k].0);
        EntryIsNamed(auto, manual, k);
      }
    }
    if forall k | 0 <= k < |all| :: all[k].1 != "" ==> !Stale(auto, manual, k) {
      forall n | n in s.reverse && n != "" ensures Current(s, s.reverse[n]) == n {
        LoadedEntry(auto, manual, n);
      }
    }
  }

  lemma {:induction false} EntryIsNamed(auto: seq<(Uid, Name)>, manual: seq<(Uid, Name)>, k: nat)
    requires k < |auto| + |manual|
    ensures NameIn(auto, manual, (auto + manual)[k].0).Some?
  {
    if k < |auto| { LastNameIsSome(auto, k); } else { LastNameIsSome(manual, k - |auto|); }
  }

  lemma {:induction false} LastWithAt(entries: seq<(Uid, Name)>, n: Name) returns (k: nat)
    requires LastWith(entries, n).Some?
    ensures k < |entries| && entries[k] == (LastWith(entries, n).value, n)
    decreases |entries|
  {
    k := |entries| - 1;
    if entries[k].1 != n {
      k := LastWithAt(entries[..k], n);
    }
  }

  // ----- saving to a file

  /** The entries that a file can hold: those with an id and a name. */
  function Named(m: map<Uid, Name>): map<Uid, Name> {
    map u | u in m && u != 0 && m[u] != "" :: m[u]
  }

  ghost predicate IsListed(entries: seq<(Uid, Name)>, u: Uid) {
    exists k :: 0 <= k < |entries| && entries[k].0 == u
  }

  /** The entries of a map, each once, in some order. */
  ghost predicate Lists(entries: seq<(Uid, Name)>, m: map<Uid, Name>) {
    && (forall k | 0 <= k < |entries| :: entries[k].0 in m && entries[k].1 == m[entries[k].0])
    && (forall u | u in m :: IsListed(entries, u))
    && (forall i, j | 0 <= i < j < |entries| :: entries[i].0 != entries[j].0)
  }

  /** The file that a database writes. */
  ghost predicate IsSaved(file: FileContent, s: Names) {
    file.Entries? && Lists(file.auto, Named(s.auto)) && Lists(file.manual, Named(s.manual))
  }

  // ----- the database object

  class FSDevicesNamesDatabase {
    var dbPath: string
    var autoDevNames: map<Uid, Name>
    var manualDevNames: map<Uid, Name>
    var reverseMap: map<Name, Uid>
    /** What was last written to the file. */
    var written: FileContent

    ghost function State(): Names
      reads this
    {
      Names(dbPath != "", autoDevNames, manualDevNames, reverseMap)
    }

    constructor ()
      ensures State() == INITIAL && written == Missing
    {
      dbPath, autoDevNames, manualDevNames, reverseMap := "", map[], map[], map[];
      written := Missing;
    }

    /** Every entry with an id and a name, automatic and manual ones. */
    method WriteCfg() returns (ok: bool)
      modifies `written
      ensures ok == (dbPath != "")
      ensures if ok then IsSaved(written, State()) else written == old(written)
    {
      if dbPath == "" { return false; }
      var manual := EntriesOf(Named(manualDevNames));
      var auto := EntriesOf(Named(autoDevNames));
      written := Entries(auto, manual);
      return true;
    }

    method EntriesOf(m: map<Uid, Name>) returns (entries: seq<(Uid, Name)>)
      ensures Lists(entries, m)
    {
      entries := [];
      var rest := m.Keys;
      while rest != {}
        invariant rest <= m.Keys
        invariant forall k | 0 <= k < |entries| :: entries[k].0 in m.Keys - rest && entries[k].1 == m[entries[k].0]
        invariant forall u | u in m && u !in rest :: IsListed(entries, u)
        invariant forall i, j | 0 <= i < j < |entries| :: entries[i].0 != entries[j].0
        decreases |rest|
      {
        var u :| u in rest;
        ghost var before := entries;
        entries := entries + [(u, m[u])];
        rest := rest - {u};
        assert entries[|before|].0 == u;
        forall v | v in m && v !in rest && v != u ensures IsListed(entries, v) {
          var k :| 0 <= k < |before| && before[k].0 == v;
          assert entries[k].0 == v;
        }
      }
    }

    method Init(path: string, file: FileContent) returns (ok: bool)
      modifies `dbPath, `autoDevNames, `manualDevNames, `reverseMap
      ensures State() == Step(old(State()), InitDb(path != "", file)) && ok == !file.Malformed?
    {
      dbPath, autoDevNames, manualDevNames, reverseMap := path, map[], map[], map[];
      if file.Missing? { return true; }
      if file.Malformed? { return false; }
      autoDevNames := Load(file.auto);
      assert file.auto[..|file.auto|] == file.auto;
      manualDevNames := Load(file.manual);
      LoadedTwice(map[], file.auto, file.manual);
      return true;
    }

    /** The entries of one element, in order, into a map and into the reverse map. */
    method Load(entries: seq<(Uid, Name)>) returns (names: map<Uid, Name>)
      modifies `reverseMap
      ensures names == Loaded(map[], entries) && reverseMap == LoadedReverse(old(reverseMap), entries)
    {
      names := map[];
      var i := 0;
      while i < |entries|
        modifies `reverseMap
        invariant 0 <= i <= |entries|
        invariant Loaded(names, entries[i..]) == Loaded(map[], entries)
        invariant LoadedReverse(reverseMap, entries[i..]) == LoadedReverse(old(reverseMap), entries)
      {
        assert entries[i..][0] == entries[i] && entries[i..][1..] == entries[i + 1..];
        names := names[entries[i].0 := entries[i].1];
        reverseMap := reverseMap[entries[i].1 := entries[i].0];
        i := i + 1;
      }
    }

    method GetDeviceName(uid: Uid) returns (name: Name)
      ensures name == DeviceName(State(), uid)
    {
      if dbPath == "" { return ""; }
      if uid in manualDevNames { return manualDevNames[uid]; }
      return if uid in autoDevNames then autoDevNames[uid] else "";
    }

    method Find(name: Name) returns (uid: Uid)
      ensures uid == FindDevice(State(), name)
    {
      if dbPath == "" { return 0; }
      return if name in reverseMap then reverseMap[name] else 0;
    }

    method SetManualDevName(uid: Uid, name: Name) returns (ok: bool)
      modifies `manualDevNames, `reverseMap, `written
      ensures State() == Step(old(State()), SetManual(uid, name)) && ok == (dbPath != "")
      ensures if ok then IsSaved(written, State()) else written == old(written)
    {
      var oldName := GetDeviceName(uid);
      if oldName != "" { reverseMap := reverseMap - {oldName}; }
      manualDevNames := manualDevNames[uid := name];
      reverseMap := reverseMap[name := uid];
      ok := WriteCfg();
    }

    method OnDeviceIdentified(uid: Uid, name: Name)
      modifies `autoDevNames, `reverseMap, `written
      ensures State() == Step(old(State()), Identified(uid, name))
      ensures if dbPath != "" then IsSaved(written, State()) else written == old(written)
    {
      if dbPath == "" { return; }
      if uid !in manualDevNames {
        if uid in autoDevNames { reverseMap := reverseMap - {autoDevNames[uid]}; }
        autoDevNames := autoDevNames[uid := name];
        reverseMap := reverseMap[name := uid];
      } else {
        autoDevNames := autoDevNames[uid := name];
      }
      var _ := WriteCfg();
    }

    method OnNameFromStorage(uid: Uid, name: Name)
      modifies `autoDevNames, `reverseMap, `written
      ensures State() == Step(old(State()), FromStorage(uid, name))
      ensures State() != old(State()) ==> IsSaved(written, State())
    {
      if dbPath == "" { return; }
      if uid !in manualDevNames {
        if uid in autoDevNames { return; }
        autoDevNames := autoDevNames[uid := name];
        reverseMap := reverseMap[name := uid];
      } else {
        autoDevNames := autoDevNames[uid := name];
      }
      var _ := WriteCfg();
    }
  }

  lemma {:induction false} LoadedTwice(m: map<Name, Uid>, a: seq<(Uid, Name)>, b: seq<(Uid, Name)>)
    ensures LoadedReverse(m, a + b) == LoadedReverse(LoadedReverse(m, a), b)
    decreases |a|
  {
    if a == [] {
      assert a + b == b;
    } else {
      assert (a + b)[1..] == a[1..] + b;
      LoadedTwice(m[a[0].1 := a[0].0], a[1..], b);
    }
  }
}
