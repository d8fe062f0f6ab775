/** Session bookkeeping (SessionStorage): which driver pairs are alive, which sessions may be removed, and when the
    default read session can be asked. */
module SessionStorage {
  import opened Common

  /** A session id; 0 is the null id. */
  type Id = nat

  /** The two drivers of an open session: data and index. */
  datatype Pair = Pair(data: nat, index: nat)

  /** A session directory. A data or index file is absent, or present and accepted by its driver or not. */
  datatype Dir = Dir(data: Option<bool>, index: Option<bool>, title: bool, metadata: Option<map<string, string>>)

  datatype State = State(opened_: bool, sessions: map<Id, Pair>, main: Id, mainPair: Pair, read: Id,
                         live: set<nat>, next: nat, dirs: map<Id, Dir>)

  datatype Op = Open | Close | CreateSession(id: Id) | OpenMain(id: Id) | OpenSession(id: Id) | CloseMain
              | CloseSession(id: Id) | RemoveSession(id: Id) | SetAttribute(id: Id, key: string, val: string)
              | SetMainRead(id: Id)

  /** How sessions are stored: with a time index or not, and whether a block file can be made for the sensor. */
  datatype Config = Config(hasGTIndex: bool, canCreate: bool)

  predicate IsOpen(s: State, id: Id) {
    s.opened_ && (s.main == id || id in s.sessions)
  }

  // ----- what every operation does

  /** A driver that opens a missing file leaves an empty one, and refuses it. */
  function Touched(f: Option<bool>): Option<bool> {
    Some(f == Some(true))
  }

  /** Opening the files of a session: the index first, if there is one, then the data. */
  function AfterOpening(c: Config, d: Dir): Dir {
    if c.hasGTIndex && d.index != Some(true) then d.(index := Touched(d.index))
    else d.(data := Touched(d.data))
  }

  predicate CanOpen(c: Config, d: Dir) {
    (c.hasGTIndex ==> d.index == Some(true)) && d.data == Some(true)
  }

  function NewPair(s: State): Pair {
    Pair(s.next + 1, s.next)
  }

  function Opening(c: Config, s: State, id: Id): (r: (State, bool))
    requires id in s.dirs
  {
    var t := s.(dirs := s.dirs[id := AfterOpening(c, s.dirs[id])]);
    if CanOpen(c, s.dirs[id]) then (t.(next := s.next + 2, live := s.live + {s.next, s.next + 1}), true)
    else (t.(next := if c.hasGTIndex && s.dirs[id].index != Some(true) then s.next + 1 else s.next + 2), false)
  }

  function Released(live: set<nat>, p: Pair): set<nat> {
    live - {p.data, p.index}
  }

  function HandlesOf(sessions: map<Id, Pair>): set<nat> {
    (set id | id in sessions :: sessions[id].data) + (set id | id in sessions :: sessions[id].index)
  }

  function OpenedSession(c: Config, s: State, id: Id): (State, bool) {
    if !s.opened_ || id == 0 then (s, false)
    else if s.main == id || id in s.sessions then (s, true)
    else if id !in s.dirs then (s, false)
    else
      var (t, ok) := Opening(c, s, id);
      (if ok then t.(sessions := s.sessions[id := NewPair(s)]) else t, ok)
  }

  function Removable(d: Dir): bool {
    d.data.Some? && d.metadata.Some? && d.title && d.index == None
  }

  /** The files go one after the other; the first one that is missing stops the removal. */
  function AfterRemoving(d: Dir): Dir {
    if d.data == None then d
    else if d.metadata == None then d.(data := None)
    else if !d.title then d.(data := None, metadata := None)
    else d.(data := None, metadata := None, title := false)
  }

  function Step(c: Config, s: State, op: Op): (State, bool) {
    match op
    case Open => if s.opened_ then (s, false) else (s.(opened_ := true), true)
    case Close =>
      if !s.opened_ then (s, true)
      else
        var live := s.live - HandlesOf(s.sessions);
        (s.(opened_ := false, sessions := map[], main := 0,
            live := if s.main == 0 then live else Released(live, s.mainPair)), true)
    case CreateSession(id) =>
      if !s.opened_ || id == 0 || id in s.dirs then (s, false)
      else if !c.canCreate then (s, false)
      else (s.(dirs := s.dirs[id := Dir(Some(true), if c.hasGTIndex then Some(true) else None, true, None)]), true)
    case OpenMain(id) =>
      if !s.opened_ || id == 0 || s.main != 0 || id !in s.dirs then (s, false)
      else
        var (t, ok) := Opening(c, s, id);
        (if ok then t.(main := id, mainPair := NewPair(s)) else t, ok)
    case OpenSession(id) => OpenedSession(c, s, id)
    case CloseMain => if s.main == 0 then (s, true) else (s.(main := 0, live := Released(s.live, s.mainPair)), true)
    case CloseSession(id) =>
      if !s.opened_ || id == 0 then (s, false)
      else
        (s.(sessions := s.sessions - {id},
            live := if id in s.sessions then Released(s.live, s.sessions[id]) else s.live,
            read := if s.read == id then 0 else s.read), true)
    case RemoveSession(id) =>
      if !s.opened_ || id == 0 || id in s.sessions || s.main == id || id !in s.dirs then (s, false)
      else if Removable(s.dirs[id]) then (s.(dirs := s.dirs - {id}), true)
      else (s.(dirs := s.dirs[id := AfterRemoving(s.dirs[id])]), false)
    case SetAttribute(id, key, val) =>
      if !s.opened_ || id == 0 || (id !in s.sessions && s.main != id) || id !in s.dirs then (s, false)
      else
        var d := s.dirs[id];
        var oldAttributes := if d.metadata == None then map[] else d.metadata.value;
        (s.(dirs := s.dirs[id := d.(metadata := Some(oldAttributes[key := val]))]), true)
    case SetMainRead(id) =>
      if !s.opened_ then (s, false)
      else if id == 0 then (s.(read := 0), true)
      else
        var (t, ok) := if id in s.sessions then (s, true) else OpenedSession(c, s, id);
        (if ok then t.(read := id) else t, ok)
  }

  function Run(c: Config, s: State, ops: seq<Op>): State
    decreases |ops|
  {
    if ops == [] then s else Run(c, Step(c, s, ops[0]).0, ops[1..])
  }

  const INITIAL := State(false, map[], 0, Pair(0, 0), 0, {}, 1, map[])

  // ----- accounting

  predicate Disjoint(p: Pair, q: Pair) {
    p.data != q.data && p.data != q.index && p.index != q.data && p.index != q.index
  }

  /** No handle belongs to two sessions. */
  ghost predicate Separate(s: State) {
    && (forall i, j | i in s.sessions && j in s.sessions && i != j :: Disjoint(s.sessions[i], s.sessions[j]))
    && (forall i | i in s.sessions :: s.sessions[i].data != s.sessions[i].index)
    && (s.main != 0 ==>
          s.mainPair.data != s.mainPair.index && forall i | i in s.sessions :: Disjoint(s.sessions[i], s.mainPair))
  }

  /** The live handles are those of the open sessions and of the main write session, and no others; an open session
      has a directory. */
  ghost predicate Accounted(s: State) {
    && s.live == HandlesOf(s.sessions) + (if s.main == 0 then {} else {s.mainPair.data, s.mainPair.index})
    && Separate(s)
    && (forall h | h in s.live :: h < s.next)
    && (!s.opened_ ==> s.sessions == map[] && s.main == 0)
    && 0 !in s.sessions
    && s.sessions.Keys <= s.dirs.Keys && (s.main != 0 ==> s.main in s.dirs)
  }

  lemma {:induction false} PairsAreLive(s: State, id: Id)
    requires Accounted(s)
    ensures id in s.sessions ==> {s.sessions[id].data, s.sessions[id].index} <= s.live
    ensures s.main != 0 ==> {s.mainPair.data, s.mainPair.index} <= s.live
  {
  }

  lemma {:induction false} NewSessionIsAccounted(s: State, id: Id, dirs: map<Id, Dir>)
    requires Accounted(s) && s.opened_ && id != 0 && id !in s.sessions && id in dirs && s.dirs.Keys <= dirs.Keys
    ensures Accounted(s.(next := s.next + 2, live := s.live + {s.next, s.next + 1},
                         sessions := s.sessions[id := NewPair(s)], dirs := dirs))
  {
    var p := NewPair(s);
    var ss := s.sessions[id := p];
    forall i | i in s.sessions ensures Disjoint(s.sessions[i], p) {
      PairsAreLive(s, i);
    }
    PairsAreLive(s, id);
    assert HandlesOf(ss) == HandlesOf(s.sessions) + {p.data, p.index} by {
      HandlesOfMore(s.sessions, id, p);
    }
  }

  lemma {:induction false} HandlesOfMore(m: map<Id, Pair>, id: Id, p: Pair)
    requires id !in m
    ensures HandlesOf(m[id := p]) == HandlesOf(m) + {p.data, p.index}
  {
    var n := m[id := p];
    forall h | h in HandlesOf(m) ensures h in HandlesOf(n) {
      var i :| i in m && (m[i].data == h || m[i].index == h);
      assert n[i] == m[i];
    }
    assert n[id] == p;
  }

  lemma {:induction false} HandlesOfLess(m: map<Id, Pair>, id: Id)
    requires id in m
    ensures HandlesOf(m) == HandlesOf(m - {id}) + {m[id].data, m[id].index}
  {
    var n := m - {id};
    assert n[id := m[id]] == m;
    HandlesOfMore(n, id, m[id]);
  }

  lemma {:induction false} NewMainIsAccounted(s: State, id: Id, dirs: map<Id, Dir>)
    requires Accounted(s) && s.opened_ && id != 0 && s.main == 0 && id in dirs && s.dirs.Keys <= dirs.Keys
    ensures Accounted(s.(next := s.next + 2, live := s.live + {s.next, s.next + 1}, main := id, mainPair := NewPair(s),
              dirs := dirs))
  {
    forall i | i in s.sessions ensures Disjoint(s.sessions[i], NewPair(s)) {
      PairsAreLive(s, i);
    }
  }

  /** Handles of different sessions are different, so releasing one pair leaves the others alive. */
  lemma {:induction false} ClosedSessionIsAccounted(s: State, id: Id)
    requires Accounted(s) && id in s.sessions
    ensures Accounted(s.(sessions := s.sessions - {id}, live := Released(s.live, s.sessions[id])))
  {
    HandlesOfLess(s.sessions, id);
    RestIsApart(s.sessions, id);
  }

  lemma {:induction false} RestIsApart(m: map<Id, Pair>, id: Id)
    requires id in m && forall i | i in m && i != id :: Disjoint(m[i], m[id])
    ensures m[id].data !in HandlesOf(m - {id}) && m[id].index !in HandlesOf(m - {id})
  {
    var rest := m - {id};
    forall h | h in HandlesOf(rest) ensures h != m[id].data && h != m[id].index {
      var i :| i in rest && (rest[i].data == h || rest[i].index == h);
      assert Disjoint(m[i], m[id]);
    }
  }

  lemma {:induction false} ClosedMainIsAccounted(s: State)
    requires Accounted(s) && s.main != 0
    ensures Accounted(s.(main := 0, live := Released(s.live, s.mainPair)))
  {
    forall h | h in HandlesOf(s.sessions) ensures h != s.mainPair.data && h != s.mainPair.index {
      var i :| i in s.sessions && (s.sessions[i].data == h || s.sessions[i].index == h);
      assert Disjoint(s.sessions[i], s.mainPair);
    }
  }

  /** `close` releases everything. */
  lemma {:induction false} CloseReleasesAll(c: Config, s: State)
    requires Accounted(s)
    ensures Step(c, s, Close).0.live == {}
  {
  }

  /** Every operation keeps the accounts. */
  lemma {:induction false} StepIsAccounted(c: Config, s: State, op: Op)
    requires Accounted(s)
    ensures Accounted(Step(c, s, op).0)
  {
    match op
    case Open =>
    case Close => CloseReleasesAll(c, s);
    case CreateSession(id) => DirsStepIsAccounted(c, s, op);
    case OpenMain(id) =>
      if s.opened_ && id != 0 && s.main == 0 && id in s.dirs {
        if CanOpen(c, s.dirs[id]) { NewMainIsAccounted(s, id, Opening(c, s, id).0.dirs); }
      }
    case OpenSession(id) => OpenedSessionIsAccounted(c, s, id);
    case CloseMain => if s.main != 0 { ClosedMainIsAccounted(s); }
    case CloseSession(id) =>
      if s.opened_ && id != 0 {
        if id in s.sessions { ClosedSessionIsAccounted(s, id); } else { assert s.sessions - {id} == s.sessions; }
      }
    case RemoveSession(id) => DirsStepIsAccounted(c, s, op);
    case SetAttribute(id, key, val) => DirsStepIsAccounted(c, s, op);
    case SetMainRead(id) => OpenedSessionIsAccounted(c, s, id);
  }

  /** Operations that touch the directories alone. */
  lemma {:induction false} DirsStepIsAccounted(c: Config, s: State, op: Op)
    requires Accounted(s) && (op.CreateSession? || op.RemoveSession? || op.SetAttribute?)
    ensures Accounted(Step(c, s, op).0)
  {
    var t := Step(c, s, op).0;
    assert t == s.(dirs := t.dirs) && s.sessions.Keys <= t.dirs.Keys && (s.main != 0 ==> s.main in t.dirs);
    OtherDirsAreAccounted(s, t.dirs);
  }

  lemma {:induction false} OtherDirsAreAccounted(s: State, dirs: map<Id, Dir>)
    requires Accounted(s) && s.sessions.Keys <= dirs.Keys && (s.main != 0 ==> s.main in dirs)
    ensures Accounted(s.(dirs := dirs))
  {
  }

  lemma {:induction false} OpenedSessionIsAccounted(c: Config, s: State, id: Id)
    requires Accounted(s)
    ensures Accounted(OpenedSession(c, s, id).0)
    ensures OpenedSession(c, s, id).1 ==> IsOpen(OpenedSession(c, s, id).0, id)
  {
    if s.opened_ && id != 0 && s.main != id && id !in s.sessions && id in s.dirs {
      if CanOpen(c, s.dirs[id]) { NewSessionIsAccounted(s, id, Opening(c, s, id).0.dirs); }
    }
  }

  /** In every reachable state the live handles are two for each open session and two for the main write session. */
  lemma {:induction false} RunIsAccounted(c: Config, s: State, ops: seq<Op>)
    requires Accounted(s)
    ensures var r := Run(c, s, ops);
            Accounted(r) && |r.live| == 2 * |r.sessions| + (if r.main == 0 then 0 else 2)
    decreases |ops|
  {
    if ops == [] {
      LiveCount(s);
    } else {
      StepIsAccounted(c, s, ops[0]);
      RunIsAccounted(c, Step(c, s, ops[0]).0, ops[1..]);
    }
  }

  lemma {:induction false} LiveCount(s: State)
    requires Accounted(s)
    ensures |s.live| == 2 * |s.sessions| + (if s.main == 0 then 0 else 2)
  {
    PairsCount(s.sessions);
    if s.main != 0 {
      ClosedMainIsAccounted(s);
      PairsAreLive(s, 0);
      var rest := HandlesOf(s.sessions);
      assert s.live == rest + {s.mainPair.data, s.mainPair.index};
      assert rest == Released(s.live, s.mainPair);
      assert |{s.mainPair.data, s.mainPair.index}| == 2;
    } else {
      assert s.live == HandlesOf(s.sessions);
    }
  }

  lemma {:induction false} PairsCount(m: map<Id, Pair>)
    requires forall i, j | i in m && j in m && i != j :: Disjoint(m[i], m[j])
    requires forall i | i in m :: m[i].data != m[i].index
    ensures |HandlesOf(m)| == 2 * |m|
    decreases |m|
  {
    if m == map[] {
      assert HandlesOf(m) == {};
    } else {
      var id :| id in m;
      var rest, p := m - {id}, m[id];
      HandlesOfLess(m, id);
      RestIsApart(m, id);
      assert m.Keys == rest.Keys + {id};
      assert |{p.data, p.index}| == 2;
      PairsCount(rest);
    }
  }

  // ----- removal

  /** A session is removed exactly when it is closed and its directory holds data, metadata and title and no index;
      and then it is gone. */
  lemma {:induction false} RemovedIff(c: Config, s: State, id: Id)
    requires s.opened_ && id != 0
    ensures Step(c, s, RemoveSession(id)).1 <==> !IsOpen(s, id) && id in s.dirs && Removable(s.dirs[id])
    ensures Step(c, s, RemoveSession(id)).1 <==> id in s.dirs && id !in Step(c, s, RemoveSession(id)).0.dirs
  {
  }

  /** A session made, given an attribute or not, and closed again, can be removed exactly when there is no time index
      and an attribute was set; a refused removal has taken its data file, so that it cannot be opened again. */
  lemma {:induction false} FreshSessionRemovableIff(c: Config, s: State, id: Id, attribute: bool)
    requires Accounted(s) && s.opened_ && id != 0 && id !in s.dirs && c.canCreate && id !in s.sessions && s.main != id
    ensures var s1 := Run(c, s, [CreateSession(id), OpenSession(id)]);
            var s2 := if attribute then Step(c, s1, SetAttribute(id, "k", "v")).0 else s1;
            var s3 := Step(c, s2, CloseSession(id)).0;
            var (s4, removed) := Step(c, s3, RemoveSession(id));
            && (removed <==> attribute && !c.hasGTIndex)
            && !Step(c, s4, OpenSession(id)).1
  {
    var ops := [CreateSession(id), OpenSession(id)];
    var s0 := Step(c, s, ops[0]).0;
    assert ops[1..] == [OpenSession(id)] && ops[1..][1..] == [];
    assert Run(c, s, ops) == Run(c, s0, ops[1..]) == Step(c, s0, OpenSession(id)).0;
  }

  // ----- the default read session

  /** Asking for the number of values without an id is defined: the storage is closed, no id is set, or the set one
      is open. */
  predicate ReadIsSafe(s: State) {
    !s.opened_ || s.read == 0 || IsOpen(s, s.read)
  }

  /** What an operation must not do to keep it so: close the main write session while its id is the read id and is
      not open on its own, or open the storage again with a read id left over. */
  predicate KeepsRead(s: State, op: Op) {
    && (op == CloseMain && s.opened_ && s.main != 0 && s.read == s.main ==> s.main in s.sessions)
    && (op == Open && !s.opened_ ==> s.read == 0)
  }

  lemma {:induction false} ReadStaysSafeIff(c: Config, s: State, op: Op)
    requires Accounted(s) && ReadIsSafe(s)
    ensures ReadIsSafe(Step(c, s, op).0) <==> KeepsRead(s, op)
  {
    match op
    case SetMainRead(id) => OpenedSessionIsAccounted(c, s, id);
    case _ =>
  }

  /** Such a run: the read id is set while the session is open for writing only, and the write session is closed. */
  lemma {:induction false} ReadIdCanDangle(c: Config, s: State, id: Id)
    requires Accounted(s) && s.opened_ && s.main == 0 && id != 0 && id in s.dirs && CanOpen(c, s.dirs[id])
             && id !in s.sessions
    ensures !ReadIsSafe(Run(c, s, [OpenMain(id), SetMainRead(id), CloseMain]))
  {
    var ops := [OpenMain(id), SetMainRead(id), CloseMain];
    var s1 := Step(c, s, ops[0]).0;
    var s2 := Step(c, s1, ops[1]).0;
    assert ops[1..][0] == SetMainRead(id) && ops[1..][1..] == [CloseMain] && ops[1..][1..][1..] == [];
    assert Run(c, s, ops) == Run(c, s1, ops[1..]) == Run(c, s2, [CloseMain]) == Step(c, s2, CloseMain).0;
  }

  // ----- the storage object

  /** The heap of driver objects: `delete` is only for what is alive. */
  class Drivers {
    var live: set<nat>
    var next: nat

    constructor ()
      ensures live == {} && next == 1
    {
      live, next := {}, 1;
    }

    method New() returns (h: nat)
      modifies this
      ensures h == old(next) && next == h + 1 && live == old(live) + {h}
    {
      h := next;
      next := next + 1;
      live := live + {h};
    }

    method Delete(h: nat)
      requires h in live
      modifies `live
      ensures live == old(live) - {h}
    {
      live := live - {h};
    }
  }

  class SessionStorage {
    const config: Config
    const drivers: Drivers
    var isOpened: bool
    var sessions: map<Id, Pair>
    var mainWriteSessionId: Id
    var mainWriteSession: Pair
    var mainReadSessionId: Id
    var dirs: map<Id, Dir>

    ghost function St(): State
      reads this, drivers
    {
      State(isOpened, sessions, mainWriteSessionId, mainWriteSession, mainReadSessionId, drivers.live, drivers.next,
        dirs)
    }

    ghost predicate Valid()
      reads this, drivers
    {
      Accounted(St())
    }

    constructor (config: Config)
      ensures Valid() && St() == INITIAL && this.config == config && fresh(drivers)
    {
      this.config := config;
      drivers := new Drivers();
      isOpened, sessions, dirs := false, map[], map[];
      mainWriteSessionId, mainWriteSession, mainReadSessionId := 0, Pair(0, 0), 0;
    }

    method Open() returns (ok: bool)
      requires Valid()
      modifies this
      ensures (St(), ok) == Step(config, old(St()), Op.Open)
      ensures Valid()
    {
      if isOpened { return false; }
      isOpened := true;
      return true;
    }

    /** Every pair is released once: `Delete` is only called on live handles, and none is left. */
    method Close()
      requires Valid()
      modifies this, drivers
      ensures Valid() && St() == Step(config, old(St()), Op.Close).0
      ensures old(isOpened) ==> drivers.live == {}
    {
      if !isOpened { return; }
      ghost var start := St();
      CloseAllSessions();
      if mainWriteSessionId != 0 {
        PairsAreLive(St(), 0);
        CloseSessionAndDeleteDb(mainWriteSession);
        mainWriteSessionId := 0;
      }
      isOpened := false;
      CloseReleasesAll(config, start);
      assert drivers.live == {};
    }

    method CloseAllSessions()
      requires Valid()
      modifies `sessions, drivers`live
      ensures St() == old(St()).(sessions := map[], live := drivers.live) && Valid()
    {
      var rest := sessions;
      ghost var start, now := St(), St();
      while rest != map[]
        modifies drivers`live
        invariant Accounted(now) && now == start.(sessions := rest, live := drivers.live)
        decreases |rest|
      {
        var id :| id in rest;
        PairsAreLive(now, id);
        ClosedSessionIsAccounted(now, id);
        CloseSessionAndDeleteDb(rest[id]);
        now := now.(sessions := now.sessions - {id}, live := Released(now.live, now.sessions[id]));
        rest := rest - {id};
      }
      sessions := map[];
    }

    method CloseSessionAndDeleteDb(d: Pair)
      requires d.data != d.index && d.data in drivers.live && d.index in drivers.live
      modifies drivers`live
      ensures drivers.live == Released(old(drivers.live), d)
    {
      drivers.Delete(d.data);
      drivers.Delete(d.index);
    }

    method CreateSession(id: Id) returns (ok: bool)
      requires Valid() && id != 0 && id !in dirs
      modifies this
      ensures (St(), ok) == Step(config, old(St()), Op.CreateSession(id))
      ensures Valid()
    {
      StepIsAccounted(config, St(), Op.CreateSession(id));
      if !isOpened { return false; }
      ok := config.canCreate;
      if ok {
        dirs := dirs[id := Dir(Some(true), if config.hasGTIndex then Some(true) else None, true, None)];
      }
    }

    method OpenMainWriteSession(sessionId: Id) returns (ok: bool)
      requires Valid()
      modifies this, drivers
      ensures (St(), ok) == Step(config, old(St()), OpenMain(sessionId))
      ensures Valid()
    {
      StepIsAccounted(config, St(), OpenMain(sessionId));
      if !isOpened || sessionId == 0 { return false; }
      if mainWriteSessionId != 0 { return false; }
      if sessionId !in dirs { return false; }
      var pair;
      ok, pair := OpenPair(sessionId);
      if !ok { return; }
      mainWriteSession := pair;
      mainWriteSessionId := sessionId;
    }

    method OpenSession(sessionId: Id) returns (ok: bool)
      requires Valid()
      modifies this, drivers
      ensures (St(), ok) == Step(config, old(St()), Op.OpenSession(sessionId))
      ensures Valid()
    {
      StepIsAccounted(config, St(), Op.OpenSession(sessionId));
      if !isOpened || sessionId == 0 { return false; }
      if mainWriteSessionId == sessionId || sessionId in sessions { return true; }
      if sessionId !in dirs { return false; }
      var pair;
      ok, pair := OpenPair(sessionId);
      if !ok { return; }
      sessions := sessions[sessionId := pair];
    }

    /** Makes the index driver, then the data driver; what was made is deleted again when one refuses its file. */
    method OpenPair(sessionId: Id) returns (ok: bool, pair: Pair)
      requires sessionId in dirs && forall h | h in drivers.live :: h < drivers.next
      modifies `dirs, drivers
      ensures ok == CanOpen(config, old(dirs)[sessionId])
      ensures ok ==> pair == Pair(old(drivers.next) + 1, old(drivers.next))
      ensures ok ==> drivers.live == old(drivers.live) + {old(drivers.next), old(drivers.next) + 1}
      ensures !ok ==> drivers.live == old(drivers.live)
      ensures drivers.next == Opening(config, old(St()), sessionId).0.next
      ensures dirs == old(dirs)[sessionId := AfterOpening(config, old(dirs)[sessionId])]
    {
      pair := Pair(0, 0);
      var indDb := drivers.New();
      if config.hasGTIndex {
        ok := dirs[sessionId].index == Some(true);
        if !ok {
          dirs := dirs[sessionId := dirs[sessionId].(index := Touched(dirs[sessionId].index))];
          drivers.Delete(indDb);
          return;
        }
      }
      var db := drivers.New();
      ok := dirs[sessionId].data == Some(true);
      dirs := dirs[sessionId := dirs[sessionId].(data := Touched(dirs[sessionId].data))];
      if !ok {
        drivers.Delete(db);
        drivers.Delete(indDb);
        return;
      }
      pair := Pair(db, indDb);
    }

    method CloseMainWriteSession() returns (ok: bool)
      requires Valid()
      modifies this, drivers
      ensures (St(), ok) == Step(config, old(St()), CloseMain)
      ensures Valid()
    {
      StepIsAccounted(config, St(), CloseMain);
      if mainWriteSessionId == 0 { return true; }
      PairsAreLive(St(), 0);
      CloseSessionAndDeleteDb(mainWriteSession);
      mainWriteSessionId := 0;
      return true;
    }

    method CloseSession(sessionId: Id) returns (ok: bool)
      requires Valid()
      modifies this, drivers
      ensures (St(), ok) == Step(config, old(St()), Op.CloseSession(sessionId))
      ensures Valid()
    {
      StepIsAccounted(config, St(), Op.CloseSession(sessionId));
      if !isOpened || sessionId == 0 { return false; }
      if sessionId in sessions {
        PairsAreLive(St(), sessionId);
        CloseSessionAndDeleteDb(sessions[sessionId]);
        sessions := sessions - {sessionId};
      } else {
        assert sessions - {sessionId} == sessions;
      }
      if mainReadSessionId == sessionId { mainReadSessionId := 0; }
      return true;
    }

    method RemoveSession(sessionId: Id) returns (ok: bool)
      requires Valid()
      modifies this
      ensures (St(), ok) == Step(config, old(St()), Op.RemoveSession(sessionId))
      ensures Valid()
      ensures ok ==> !IsOpen(old(St()), sessionId)
    {
      if !isOpened || sessionId == 0 { return false; }
      if sessionId in sessions || mainWriteSessionId == sessionId { return false; }
      if sessionId !in dirs { return false; }
      ghost var was := dirs;
      var d := dirs[sessionId];
      if d.data == None {
        assert dirs == was[sessionId := d];
        return false;
      }
      d := d.(data := None);
      dirs := dirs[sessionId := d];
      if d.metadata == None { return false; }
      d := d.(metadata := None);
      dirs := dirs[sessionId := d];
      assert dirs == was[sessionId := d];
      if !d.title { return false; }
      d := d.(title := false);
      dirs := dirs[sessionId := d];
      assert dirs == was[sessionId := d];
      if d.index.Some? { return false; }
      dirs := dirs - {sessionId};
      assert dirs == was - {sessionId};
      return true;
    }

    method SetSessionAttribute(sessionId: Id, key: string, val: string) returns (ok: bool)
      requires Valid()
      modifies this
      ensures (St(), ok) == Step(config, old(St()), SetAttribute(sessionId, key, val))
      ensures Valid()
    {
      if !isOpened || sessionId == 0 { return false; }
      if sessionId !in sessions && mainWriteSessionId != sessionId { return false; }
      var attrs := if dirs[sessionId].metadata == None then map[] else dirs[sessionId].metadata.value;
      dirs := dirs[sessionId := dirs[sessionId].(metadata := Some(attrs[key := val]))];
      return true;
    }

    method SetMainReadSessionId(id: Id) returns (ok: bool)
      requires Valid()
      modifies this, drivers
      ensures (St(), ok) == Step(config, old(St()), SetMainRead(id))
      ensures Valid()
    {
      if !isOpened { return false; }
      if id == 0 {
        mainReadSessionId := 0;
        return true;
      }
      if id !in sessions {
        ok := OpenSession(id);
        if !ok { return; }
      }
      mainReadSessionId := id;
      return true;
    }
  }
}
