/** What the session operations are for: which sessions are open after one, what an attribute is worth after any run,
    and what stays untouched. */
module SessionStorageEffects {
  import opened Common
  import opened SessionStorage

  /** The value of an attribute of a session. */
  function Attribute(s: State, id: Id, key: string): Option<string> {
    if id in s.dirs && s.dirs[id].metadata.Some? && key in s.dirs[id].metadata.value
    then Some(s.dirs[id].metadata.value[key]) else None
  }

  /** An attribute can be set exactly on an open session. Then that key has that value, and every other attribute of
      every session is what it was. */
  lemma {:induction false} AttributeIsSet(c: Config, s: State, id: Id, key: string, val: string, id2: Id, key2: string)
    requires Accounted(s) && id != 0
    ensures Step(c, s, SetAttribute(id, key, val)).1 <==> IsOpen(s, id)
    ensures Attribute(Step(c, s, SetAttribute(id, key, val)).0, id2, key2)
            == if IsOpen(s, id) && id2 == id && key2 == key then Some(val) else Attribute(s, id2, key2)
  {
  }

  /** It leaves the files of the session and all other sessions alone, and nothing is opened or closed by it. */
  lemma {:induction false} AttributeTouchesNothingElse(c: Config, s: State, id: Id, key: string, val: string, id2: Id)
    requires Accounted(s)
    ensures var t := Step(c, s, SetAttribute(id, key, val)).0;
            && t.dirs.Keys == s.dirs.Keys && t == s.(dirs := t.dirs)
            && (id2 in s.dirs ==> t.dirs[id2] == s.dirs[id2].(metadata := t.dirs[id2].metadata))
            && (id2 in s.dirs && id2 != id ==> t.dirs[id2] == s.dirs[id2])
  {
  }

  /** No other operation changes the attributes of a session, but for an attempt to remove that very session. */
  lemma {:induction false} AttributesStay(c: Config, s: State, op: Op, id: Id, key: string)
    requires !(op.SetAttribute? && op.id == id && op.key == key) && op != RemoveSession(id) && id in s.dirs
    ensures Attribute(Step(c, s, op).0, id, key) == Attribute(s, id, key) && id in Step(c, s, op).0.dirs
  {
  }

  /** Over every run: the value set last is the value read. */
  lemma {:induction false} AttributeIsKept(c: Config, s: State, before: seq<Op>, id: Id, key: string, val: string,
      after: seq<Op>)
    requires Accounted(s) && id != 0 && IsOpen(Run(c, s, before), id)
    requires forall k | 0 <= k < |after| ::
               !(after[k].SetAttribute? && after[k].id == id && after[k].key == key) && after[k] != RemoveSession(id)
    ensures Attribute(Run(c, s, before + [SetAttribute(id, key, val)] + after), id, key) == Some(val)
  {
    var op := SetAttribute(id, key, val);
    RunIsAccounted(c, s, before);
    var t := Run(c, s, before);
    AttributeIsSet(c, t, id, key, val, id, key);
    RunAround(c, s, before, op, after);
    Keeps(c, Step(c, t, op).0, after, id, key);
  }

  lemma {:induction false} Keeps(c: Config, s: State, ops: seq<Op>, id: Id, key: string)
    requires id in s.dirs
    requires forall k | 0 <= k < |ops| ::
               !(ops[k].SetAttribute? && ops[k].id == id && ops[k].key == key) && ops[k] != RemoveSession(id)
    ensures Attribute(Run(c, s, ops), id, key) == Attribute(s, id, key)
    decreases |ops|
  {
    if ops != [] {
      AttributesStay(c, s, ops[0], id, key);
      Keeps(c, Step(c, s, ops[0]).0, ops[1..], id, key);
    }
  }

  lemma {:induction false} RunAround(c: Config, s: State, before: seq<Op>, op: Op, after: seq<Op>)
    ensures Run(c, s, before + [op] + after) == Run(c, Step(c, Run(c, s, before), op).0, after)
  {
    RunSplit(c, s, before + [op], after);
    RunSplit(c, s, before, [op]);
    OneStep(c, Run(c, s, before), op);
  }

  lemma {:induction false} OneStep(c: Config, s: State, op: Op)
    ensures Run(c, s, [op]) == Step(c, s, op).0
  {
    assert [op][1..] == [];
  }

  lemma {:induction false} RunSplit(c: Config, s: State, a: seq<Op>, b: seq<Op>)
    ensures Run(c, s, a + b) == Run(c, Run(c, s, a), b)
    decreases |a|
  {
    if a == [] {
      assert a + b == b;
    } else {
      assert (a + b)[1..] == a[1..] + b;
      RunSplit(c, Step(c, s, a[0]).0, a[1..], b);
    }
  }

  // ----- which sessions are open

  predicate OpensIt(op: Op, id: Id) {
    op == OpenMain(id) || op == OpenSession(id) || op == SetMainRead(id)
  }

  /** Its last hold on the session is given up. */
  predicate ClosesIt(s: State, op: Op, id: Id) {
    || op.Close?
    || (op.CloseMain? && s.main == id && id !in s.sessions)
    || (op == CloseSession(id) && s.main != id)
  }

  /** A session is open after an operation exactly when the operation has opened it, or it was open and the operation
      does not close it. */
  lemma {:induction false} OpenAfter(c: Config, s: State, op: Op, id: Id)
    requires Accounted(s) && id != 0
    ensures IsOpen(Step(c, s, op).0, id) <==>
            (OpensIt(op, id) && Step(c, s, op).1) || (IsOpen(s, id) && !ClosesIt(s, op, id))
  {
  }

  /** What the other operations answer: the storage is opened once, closing it and the main write session always
      succeeds, and a session can be closed whenever the storage is open, be it open or not. */
  lemma {:induction false} OtherAnswers(c: Config, s: State, id: Id)
    requires id != 0
    ensures Step(c, s, Open).1 <==> !s.opened_
    ensures Step(c, s, Close).1 && Step(c, s, CloseMain).1
    ensures Step(c, s, CloseSession(id)).1 <==> s.opened_
    ensures Step(c, s, SetMainRead(0)).1 <==> s.opened_
    ensures !s.opened_ ==> !Step(c, s, CreateSession(id)).1 && !Step(c, s, RemoveSession(id)).1
  {
  }

  /** When a session can be opened: it is open already, or its files are there and accepted; a second main write session
      never. */
  lemma {:induction false} OpensIff(c: Config, s: State, id: Id)
    requires Accounted(s) && id != 0
    ensures var usable := id in s.dirs && s.dirs[id].data == Some(true)
                          && (c.hasGTIndex ==> s.dirs[id].index == Some(true));
            && (Step(c, s, OpenSession(id)).1 <==> IsOpen(s, id) || (s.opened_ && usable))
            && (Step(c, s, SetMainRead(id)).1 <==> IsOpen(s, id) || (s.opened_ && usable))
            && (Step(c, s, OpenMain(id)).1 <==> s.opened_ && s.main == 0 && usable)
  {
  }

  /** A refused opening leaves a file behind that its driver does not accept: the index file when an index is asked for
      and not accepted, and otherwise the data file. Nothing else of the session changes. */
  lemma {:induction false} RefusedOpeningLeaves(c: Config, s: State, id: Id)
    requires s.opened_ && id != 0 && !IsOpen(s, id) && id in s.dirs && !Step(c, s, OpenSession(id)).1
    ensures var d, e := s.dirs[id], Step(c, s, OpenSession(id)).0.dirs[id];
            && e.metadata == d.metadata && e.title == d.title
            && (c.hasGTIndex && d.index != Some(true) ==> e.index == Some(false) && e.data == d.data)
            && (!(c.hasGTIndex && d.index != Some(true)) ==> e.data == Some(false) && e.index == d.index)
    ensures s.main == 0 ==>
              Step(c, s, OpenMain(id)).0.dirs == Step(c, s, OpenSession(id)).0.dirs && !Step(c, s, OpenMain(id)).1
  {
  }

  /** A session that was created can be opened, as the main one or not, has its files and no attributes; a second one
      with its id cannot be created. */
  lemma {:induction false} CreatedIsUsable(c: Config, s: State, id: Id, key: string)
    requires Accounted(s) && id != 0
    ensures var (t, ok) := Step(c, s, CreateSession(id));
            && (ok <==> s.opened_ && c.canCreate && id !in s.dirs)
            && (!ok ==> t == s)
            && (ok ==> Step(c, t, OpenSession(id)).1 && (s.main == 0 ==> Step(c, t, OpenMain(id)).1))
            && (ok ==> (t.dirs[id].index.Some? <==> c.hasGTIndex) && t.dirs[id].title && Attribute(t, id, key) == None)
            && (ok ==> !Step(c, t, CreateSession(id)).1 && t.dirs.Keys == s.dirs.Keys + {id})
  {
  }

  /** A refused removal of a closed session has taken the data file, the attributes only behind the data file, the title
      only behind both, and never the index. */
  lemma {:induction false} RefusedRemovalTakes(c: Config, s: State, id: Id)
    requires s.opened_ && id != 0 && !IsOpen(s, id) && id in s.dirs && !Step(c, s, RemoveSession(id)).1
    ensures var d, e := s.dirs[id], Step(c, s, RemoveSession(id)).0.dirs[id];
            && e.data == None && e.index == d.index
            && (e.metadata != d.metadata <==> d.data.Some? && d.metadata.Some?)
            && (e.metadata != d.metadata ==> e.metadata == None)
            && (e.title <==> d.title && !(d.data.Some? && d.metadata.Some?))
  {
  }

  /** No operation on one session touches the files of another. */
  lemma {:induction false} OthersStay(c: Config, s: State, op: Op, id: Id)
    requires op.Open? || op.Close? || op.CloseMain? || op.id != id
    ensures var t := Step(c, s, op).0;
            (id in t.dirs <==> id in s.dirs) && (id in s.dirs ==> t.dirs[id] == s.dirs[id])
  {
  }

  /** What is asked by default: the id set last, until its session or the setting is given up. */
  lemma {:induction false} ReadAfter(c: Config, s: State, op: Op)
    ensures Step(c, s, op).0.read
            == if op.SetMainRead? && Step(c, s, op).1 then op.id
               else if op.CloseSession? && Step(c, s, op).1 && op.id == s.read then 0
               else s.read
  {
  }
}
