/** Whole lives of the last-N storages, from `create` on: values written, the storage closed, opened again or handed to
    a fresh object, in any order. What is shown in the end depends on the values alone. */
module LastNValuesRuns {
  import opened Common
  import opened Blocks
  import opened Files
  import opened FixedBlocks
  import opened LastNValues

  /** `Renew` is the end of the object and a fresh one on the same directory; `Create` one more attempt to create. */
  datatype Event<V> = Write(val: V) | Close | Open | Renew | Create(count: nat)

  // ----- the plain window

  /** Whether the storage is open, and the window it keeps. */
  datatype Shelf = Shelf(isOpened: bool, window: seq<seq<byte>>)

  /** A ring of blocks refuses what is not a block long. */
  predicate Refused(fixed: bool, size: nat, x: seq<byte>) {
    x != [] && fixed && |x| != size
  }

  function OpenAfter<V>(isOpened: bool, e: Event<V>): bool {
    match e
    case Write(_) => isOpened
    case Close => false
    case Open => true
    case Renew => false
    case Create(_) => isOpened
  }

  /** Whether a value is taken. */
  predicate Takes<V>(isOpened: bool, e: Event<V>, pack: V -> seq<byte>, fixed: bool, size: nat) {
    e.Write? && isOpened && pack(e.val) != [] && !Refused(fixed, size, pack(e.val))
  }

  function ShelfStep<V>(s: Shelf, e: Event<V>, pack: V -> seq<byte>, fixed: bool, size: nat): (r: Shelf)
    requires s.window != []
    ensures |r.window| == |s.window|
  {
    Shelf(OpenAfter(s.isOpened, e),
          if Takes(s.isOpened, e, pack, fixed, size) then Pushed(s.window, pack(e.val)) else s.window)
  }

  function ShelfRun<V>(s: Shelf, events: seq<Event<V>>, pack: V -> seq<byte>, fixed: bool, size: nat): (r: Shelf)
    requires s.window != []
    ensures |r.window| == |s.window|
    decreases |events|
  {
    if events == [] then s else ShelfRun(ShelfStep(s, events[0], pack, fixed, size), events[1..], pack, fixed, size)
  }

  /** The values taken on the way, packed. */
  function Taken<V>(isOpened: bool, events: seq<Event<V>>, pack: V -> seq<byte>, fixed: bool, size: nat): seq<seq<byte>>
    decreases |events|
  {
    if events == [] then []
    else
      (if Takes(isOpened, events[0], pack, fixed, size) then [pack(events[0].val)] else [])
      + Taken(OpenAfter(isOpened, events[0]), events[1..], pack, fixed, size)
  }

  /** The window is the end of all values ever taken. */
  lemma {:induction false} ShelfShowsTheLastN<V>(s: Shelf, events: seq<Event<V>>, pack: V -> seq<byte>, fixed: bool,
      size: nat)
    requires s.window != []
    ensures ShelfRun(s, events, pack, fixed, size).window
            == PushedAll(s.window, Taken(s.isOpened, events, pack, fixed, size))
    decreases |events|
  {
    if events != [] {
      ShelfShowsTheLastN(ShelfStep(s, events[0], pack, fixed, size), events[1..], pack, fixed, size);
      var rest := Taken(OpenAfter(s.isOpened, events[0]), events[1..], pack, fixed, size);
      assert [] + rest == rest;
      if Takes(s.isOpened, events[0], pack, fixed, size) { assert ([pack(events[0].val)] + rest)[1..] == rest; }
    }
  }

  // ----- the ring and its copy

  /** Whether the storage is open, the ring on disk read from its start, and the copy in memory. */
  datatype Ringed = Ringed(isOpened: bool, queue: seq<seq<byte>>, copy: seq<seq<byte>>)

  function Turned<T>(queue: seq<T>): (r: seq<T>)
    requires queue != []
    ensures |r| == |queue|
  {
    queue[1..] + [queue[0]]
  }

  /** What one event does to ring and copy; a refused value turns the ring alone. */
  function RingStep<V>(r: Ringed, e: Event<V>, pack: V -> seq<byte>, fixed: bool, size: nat): (t: Ringed)
    requires r.queue != [] && (r.isOpened ==> r.copy != [])
    ensures |t.queue| == |r.queue| && (t.isOpened ==> t.copy != [])
  {
    match e
    case Write(val) =>
      if !r.isOpened || pack(val) == [] then r
      else if Refused(fixed, size, pack(val)) then r.(queue := Turned(r.queue))
      else Ringed(true, Pushed(r.queue, pack(val)), Pushed(r.copy, pack(val)))
    case Close => Ringed(false, r.queue, [])
    case Open => if r.isOpened then r else Ringed(true, r.queue, r.queue)
    case Renew => Ringed(false, r.queue, [])
    case Create(_) => r
  }

  function RingRun<V>(r: Ringed, events: seq<Event<V>>, pack: V -> seq<byte>, fixed: bool, size: nat): (t: Ringed)
    requires r.queue != [] && (r.isOpened ==> r.copy != [])
    ensures |t.queue| == |r.queue| && (t.isOpened ==> t.copy != [])
    decreases |events|
  {
    if events == [] then r else RingRun(RingStep(r, events[0], pack, fixed, size), events[1..], pack, fixed, size)
  }

  // ----- when the copy is right

  ghost predicate Constant<T>(window: seq<T>) {
    forall i | 0 <= i < |window| :: window[i] == window[0]
  }

  lemma {:induction false} TurnedIsSameIffConstant<T>(queue: seq<T>)
    requires queue != []
    ensures Turned(queue) == queue <==> Constant(queue)
  {
    if Turned(queue) == queue {
      forall i | 0 <= i < |queue| - 1 ensures queue[i] == queue[i + 1] {
        assert Turned(queue)[i] == queue[i + 1];
      }
      EqualNeighbours(queue, |queue| - 1);
    }
  }

  /** Every value that is refused on the way finds a window of equal values. */
  ghost predicate Unharmed<V>(s: Shelf, events: seq<Event<V>>, pack: V -> seq<byte>, fixed: bool, size: nat)
    requires s.window != []
    decreases |events|
  {
    events == [] ||
    (&& (events[0].Write? && s.isOpened && Refused(fixed, size, pack(events[0].val)) ==> Constant(s.window))
     && Unharmed(ShelfStep(s, events[0], pack, fixed, size), events[1..], pack, fixed, size))
  }

  ghost predicate InStep(r: Ringed) {
    r.isOpened ==> r.copy == r.queue
  }

  /** Copy and ring agree after every event. */
  ghost predicate AlwaysInStep<V>(r: Ringed, events: seq<Event<V>>, pack: V -> seq<byte>, fixed: bool, size: nat)
    requires r.queue != [] && (r.isOpened ==> r.copy != [])
    decreases |events|
  {
    && InStep(r)
    && (events == [] || AlwaysInStep(RingStep(r, events[0], pack, fixed, size), events[1..], pack, fixed, size))
  }

  /** Ring and copy both as the window. */
  function Both(s: Shelf): (r: Ringed)
    ensures InStep(r) && r.isOpened == s.isOpened && r.queue == s.window
  {
    Ringed(s.isOpened, s.window, if s.isOpened then s.window else [])
  }

  lemma {:induction false} BothStep<V>(s: Shelf, e: Event<V>, pack: V -> seq<byte>, fixed: bool, size: nat)
    requires s.window != []
    ensures var harmless := e.Write? && s.isOpened && Refused(fixed, size, pack(e.val)) ==> Constant(s.window);
            && (harmless ==> RingStep(Both(s), e, pack, fixed, size) == Both(ShelfStep(s, e, pack, fixed, size)))
            && (!harmless ==> !InStep(RingStep(Both(s), e, pack, fixed, size)))
  {
    TurnedIsSameIffConstant(s.window);
  }

  /** Over every run: copy and ring agree all the way exactly when every refused value finds equal values; then both
      are the plain window. */
  lemma {:induction false} AlwaysInStepIffUnharmed<V>(s: Shelf, events: seq<Event<V>>, pack: V -> seq<byte>,
      fixed: bool, size: nat)
    requires s.window != []
    ensures AlwaysInStep(Both(s), events, pack, fixed, size) <==> Unharmed(s, events, pack, fixed, size)
    ensures Unharmed(s, events, pack, fixed, size) ==>
              RingRun(Both(s), events, pack, fixed, size) == Both(ShelfRun(s, events, pack, fixed, size))
    decreases |events|
  {
    if events != [] {
      BothStep(s, events[0], pack, fixed, size);
      if RingStep(Both(s), events[0], pack, fixed, size) == Both(ShelfStep(s, events[0], pack, fixed, size)) {
        AlwaysInStepIffUnharmed(ShelfStep(s, events[0], pack, fixed, size), events[1..], pack, fixed, size);
      }
    }
  }

  // ----- the storage on disk

  /** The directory of a closed storage holds this ring, of blocks of this length if it is one of blocks. */
  ghost predicate Kept(hash: Hash, disk: Disk, queue: seq<seq<byte>>, fixed: bool, size: nat)
    reads disk, disk.dataDb
  {
    && disk.fixedBlocks == fixed && Saved(hash, disk.storedCount, fixed, disk.index, disk.dataDb.bytes)
    && (fixed ==> disk.dataDb.exists_ && Sum(Opened(hash, disk.dataDb.bytes).value.0) == size > 0)
    && queue == Ring(SlotsOnDisk(hash, Max(1, disk.storedCount.value), fixed, disk.files, disk.dataDb.bytes),
       disk.index.at)
  }

  /** The object is in this state. */
  ghost predicate Is<V>(s: LastNValuesStorage<V>, r: Ringed, fixed: bool, size: nat)
    reads s, s.disk, s.dbFixesBlocks, s.dbFixesBlocks.file, s.disk.dataDb
  {
    && s.Valid() && s.isOpened == r.isOpened && s.values == r.copy && r.queue != [] && (r.isOpened ==> r.copy != [])
    && if s.isOpened then
         && fixed == (s.dbType == FIXED_BLOCKS) && (fixed ==> s.dbFixesBlocks.wholeBlockSize == size > 0)
         && r.queue == Ring(s.Slots(), s.startIndex)
       else
         && (fixed ==> !s.dbFixesBlocks.fileIsOpen) && s.storedCount == 0
         && Kept(s.hash, s.disk, r.queue, fixed, size)
  }

  lemma {:induction false} OpenIsKept<V>(s: LastNValuesStorage<V>, r: Ringed, fixed: bool, size: nat)
    requires Is(s, r, fixed, size) && s.isOpened
    ensures Kept(s.hash, s.disk, r.queue, fixed, size)
  {
    FreshObjectSeesSameWindow(s);
  }

  ghost predicate SameSetup<V>(t: LastNValuesStorage<V>, s: LastNValuesStorage<V>) {
    && t.pack == s.pack && t.unpack == s.unpack && t.template == s.template && t.hasFixedSize == s.hasFixedSize
    && t.noteSizes == s.noteSizes && t.hash == s.hash && t.disk == s.disk
  }

  /** What the storage asks of the type of its values. */
  ghost predicate Typed<V>(s: LastNValuesStorage<V>) {
    s.hasFixedSize ==>
      && 0 < |s.noteSizes| <= MAX_NOTES && |s.pack(s.template)| == Sum(s.noteSizes) < U32 && s.pack(s.template) != []
      && forall i | 0 <= i < |s.noteSizes| :: s.noteSizes[i] < U32
  }

  method CloseLastN<V>(s: LastNValuesStorage<V>, ghost r: Ringed, ghost fixed: bool, ghost size: nat)
    requires Is(s, r, fixed, size)
    modifies s, s.dbFixesBlocks
    ensures Is(s, Ringed(false, r.queue, []), fixed, size)
  {
    if s.isOpened { OpenIsKept(s, r, fixed, size); }
    s.Close();
  }

  method OpenLastN<V>(s: LastNValuesStorage<V>, ghost r: Ringed, ghost fixed: bool, ghost size: nat)
    requires Is(s, r, fixed, size)
    modifies s, s.dbFixesBlocks, s.disk.dataDb
    ensures Is(s, if r.isOpened then r else Ringed(true, r.queue, r.queue), fixed, size)
  {
    if !s.isOpened {
      var _ := s.Open();
    }
  }

  method RenewLastN<V>(s: LastNValuesStorage<V>, ghost r: Ringed, ghost fixed: bool, ghost size: nat)
      returns (t: LastNValuesStorage<V>)
    requires Is(s, r, fixed, size)
    modifies s, s.dbFixesBlocks
    ensures fresh(t) && fresh(t.dbFixesBlocks) && SameSetup(t, s)
    ensures Is(t, Ringed(false, r.queue, []), fixed, size)
  {
    CloseLastN(s, r, fixed, size);
    t := new LastNValuesStorage(s.pack, s.unpack, s.template, s.hasFixedSize, s.noteSizes, s.hash, s.disk);
  }

  lemma {:induction false} SkipTurnsTheRing<T>(slots: seq<T>, start: nat)
    requires start < |slots|
    ensures Ring(slots, Wrap(start + 1, |slots|)) == Turned(Ring(slots, start))
  {
    var n := |slots|;
    var a, b := Ring(slots, Wrap(start + 1, n)), Turned(Ring(slots, start));
    forall i | 0 <= i < n ensures a[i] == b[i] {
      if i < n - 1 {
        assert Wrap(Wrap(start + 1, n) + i, n) == Wrap(start + (i + 1), n);
      } else {
        assert Wrap(Wrap(start + 1, n) + i, n) == start == Wrap(start, n);
      }
    }
  }

  method WriteLastN<V>(s: LastNValuesStorage<V>, val: V, ghost r: Ringed, ghost fixed: bool, ghost size: nat)
    requires Is(s, r, fixed, size)
    modifies s, s.disk, s.dbFixesBlocks, s.disk.dataDb
    ensures Is(s, RingStep(r, Write(val), s.pack, fixed, size), fixed, size)
  {
    ghost var slots: seq<seq<byte>>, was, data := [], s.startIndex, s.pack(val);
    if s.isOpened {
      slots := s.Slots();
      WriteOldestIsPush(slots, was, data);
      SkipTurnsTheRing(slots, was);
    }
    var _ := s.WriteSensorValue(val);
  }

  /** One refused value: copy and ring part exactly when the values shown are not all equal. */
  method RefuseLastN<V>(s: LastNValuesStorage<V>, val: V) returns (ok: bool)
    requires s.Valid() && s.isOpened && s.Mirrors() && s.pack(val) != []
    requires s.dbType == DbType.FIXED_BLOCKS && |s.pack(val)| != s.dbFixesBlocks.wholeBlockSize
    modifies s, s.disk, s.dbFixesBlocks, s.disk.dataDb
    ensures !ok && s.Valid() && s.isOpened && s.values == old(s.values)
    ensures s.Mirrors() <==> Constant(old(s.values))
  {
    SkipTurnsTheRing(s.Slots(), s.startIndex);
    TurnedIsSameIffConstant(s.values);
    ok := s.WriteSensorValue(val);
  }

  method CreateAgain<V>(s: LastNValuesStorage<V>, count: nat, ghost r: Ringed, ghost fixed: bool, ghost size: nat)
    requires Is(s, r, fixed, size) && Typed(s) && count <= HALF
    modifies s, s.disk, s.dbFixesBlocks, s.disk.dataDb
    ensures Is(s, r, fixed, size)
  {
    var _ := s.Create(count);
  }

  ghost predicate Possible<V>(e: Event<V>) {
    e.Create? ==> e.count <= HALF
  }

  method StepLastN<V>(s: LastNValuesStorage<V>, e: Event<V>, ghost r: Ringed, ghost fixed: bool, ghost size: nat)
    returns (t: LastNValuesStorage<V>)
    requires Is(s, r, fixed, size) && Typed(s) && Possible(e)
    modifies s, s.disk, s.dbFixesBlocks, s.disk.dataDb
    ensures t == s || (fresh(t) && fresh(t.dbFixesBlocks))
    ensures SameSetup(t, s) && Is(t, RingStep(r, e, s.pack, fixed, size), fixed, size)
  {
    t := s;
    match e
    case Write(val) => WriteLastN(s, val, r, fixed, size);
    case Close => CloseLastN(s, r, fixed, size);
    case Open => OpenLastN(s, r, fixed, size);
    case Renew => t := RenewLastN(s, r, fixed, size);
    case Create(count) => CreateAgain(s, count, r, fixed, size);
  }

  /** Any run of events, from any state: ring and copy end as the run says. */
  method PlayLastN<V>(s: LastNValuesStorage<V>, events: seq<Event<V>>, ghost r: Ringed, ghost fixed: bool,
      ghost size: nat)
    returns (t: LastNValuesStorage<V>)
    requires Is(s, r, fixed, size) && Typed(s) && forall k | 0 <= k < |events| :: Possible(events[k])
    modifies s, s.disk, s.dbFixesBlocks, s.disk.dataDb
    ensures t == s || (fresh(t) && fresh(t.dbFixesBlocks))
    ensures SameSetup(t, s) && Is(t, RingRun(r, events, s.pack, fixed, size), fixed, size)
  {
    t := s;
    ghost var q := r;
    var i := 0;
    while i < |events|
      invariant 0 <= i <= |events| && SameSetup(t, s) && Typed(t)
      invariant t == s || (fresh(t) && fresh(t.dbFixesBlocks))
      invariant Is(t, q, fixed, size)
      invariant Leads(q, events, i, RingRun(r, events, s.pack, fixed, size), s.pack, fixed, size)
    {
      LeadsOn(q, events, i, RingRun(r, events, s.pack, fixed, size), s.pack, fixed, size);
      t := StepLastN(t, events[i], q, fixed, size);
      q := RingStep(q, events[i], s.pack, fixed, size);
      i := i + 1;
    }
    assert q == RingRun(r, events, s.pack, fixed, size);
  }

  /** The events from the `i`-th on lead from `q` to `end`. */
  ghost predicate Leads<V>(q: Ringed, events: seq<Event<V>>, i: nat, end: Ringed, pack: V -> seq<byte>, fixed: bool,
      size: nat) {
    q.queue != [] && (q.isOpened ==> q.copy != []) && i <= |events| && RingRun(q, events[i..], pack, fixed, size) == end
  }

  lemma {:induction false} LeadsOn<V>(q: Ringed, events: seq<Event<V>>, i: nat, end: Ringed, pack: V -> seq<byte>,
      fixed: bool, size: nat)
    requires Leads(q, events, i, end, pack, fixed, size) && i < |events|
    ensures Leads(RingStep(q, events[i], pack, fixed, size), events, i + 1, end, pack, fixed, size)
  {
    assert events[i..][1..] == events[i + 1..];
  }

  function Templates<T>(n: nat, x: T): (r: seq<T>)
    ensures |r| == n && forall i | 0 <= i < n :: r[i] == x
  {
    seq(n, _ => x)
  }

  /** What an open storage shows at the end of a life: the last of all values taken, and before them the template. */
  function Shown<V>(window: seq<seq<byte>>, events: seq<Event<V>>, pack: V -> seq<byte>, fixed: bool,
      size: nat): seq<seq<byte>> {
    var all := Taken(true, events, pack, fixed, size);
    (window + all)[|all|..]
  }

  function OpenAtEnd<V>(isOpened: bool, events: seq<Event<V>>): bool
    decreases |events|
  {
    if events == [] then isOpened else OpenAtEnd(OpenAfter(isOpened, events[0]), events[1..])
  }

  lemma {:induction false} ShelfIsOpen<V>(s: Shelf, events: seq<Event<V>>, pack: V -> seq<byte>, fixed: bool, size: nat)
    requires s.window != []
    ensures ShelfRun(s, events, pack, fixed, size).isOpened == OpenAtEnd(s.isOpened, events)
    decreases |events|
  {
    if events != [] { ShelfIsOpen(ShelfStep(s, events[0], pack, fixed, size), events[1..], pack, fixed, size); }
  }

  lemma {:induction false} UnharmedShows<V>(window: seq<seq<byte>>, events: seq<Event<V>>, pack: V -> seq<byte>,
      fixed: bool, size: nat)
    requires window != [] && Unharmed(Shelf(true, window), events, pack, fixed, size)
    ensures var r := RingRun(Both(Shelf(true, window)), events, pack, fixed, size);
            && r.queue == Shown(window, events, pack, fixed, size)
            && r.isOpened == OpenAtEnd(true, events) && (r.isOpened ==> r.copy == r.queue)
  {
    AlwaysInStepIffUnharmed(Shelf(true, window), events, pack, fixed, size);
    ShelfShowsTheLastN(Shelf(true, window), events, pack, fixed, size);
    ShelfIsOpen(Shelf(true, window), events, pack, fixed, size);
    WindowIsTheLastN(window, Taken(true, events, pack, fixed, size));
  }

  /** The whole life of a storage, from `create` on: ring and copy are those of the run, and while every refused value
      found equal values, both are the last N of all values ever taken. */
  method LiveLastN<V>(s: LastNValuesStorage<V>, count: nat, events: seq<Event<V>>)
      returns (ok: bool, t: LastNValuesStorage<V>)
    requires s.Valid() && !s.isOpened && Typed(s) && count <= HALF
             && forall k | 0 <= k < |events| :: Possible(events[k])
    modifies s, s.disk, s.dbFixesBlocks, s.disk.dataDb
    ensures ok == (old(s.disk.index) == Missing
                   && (if s.hasFixedSize then !old(s.disk.dataDb.exists_) else s.pack(s.template) != []))
    ensures t == s || (fresh(t) && fresh(t.dbFixesBlocks))
    ensures SameSetup(t, s)
    ensures ok ==>
              var window, size := Templates(Max(1, count), s.pack(s.template)), Sum(s.noteSizes);
              && Is(t, RingRun(Both(Shelf(true, window)), events, s.pack, s.hasFixedSize, size), s.hasFixedSize, size)
              && (Unharmed(Shelf(true, window), events, s.pack, s.hasFixedSize, size) ==>
                    && t.isOpened == OpenAtEnd(true, events)
                    && (t.isOpened ==> t.Mirrors() && t.values == Shown(window, events, s.pack, s.hasFixedSize, size)))
  {
    t := s;
    ok := s.Create(count);
    if !ok { return; }
    ghost var window, size := Templates(Max(1, count), s.pack(s.template)), Sum(s.noteSizes);
    assert s.values == window;
    t := PlayLastN(s, events, Both(Shelf(true, window)), s.hasFixedSize, size);
    if Unharmed(Shelf(true, window), events, s.pack, s.hasFixedSize, size) {
      UnharmedShows(window, events, s.pack, s.hasFixedSize, size);
    }
  }

  // ----- the storage in memory, and both

  /** What the storage in memory takes of these writes. */
  function TakenInMemory<V>(vals: seq<V>, pack: V -> seq<byte>, typeFits: V -> bool): seq<seq<byte>>
    decreases |vals|
  {
    if vals == [] then []
    else (if typeFits(vals[0]) && pack(vals[0]) != [] then [pack(vals[0])] else [])
         + TakenInMemory(vals[1..], pack, typeFits)
  }

  lemma {:induction false} OneTakenInMemory<V>(window: seq<seq<byte>>, vals: seq<V>, pack: V -> seq<byte>,
      typeFits: V -> bool)
    requires window != [] && vals != []
    ensures PushedAll(window, TakenInMemory(vals, pack, typeFits))
            == PushedAll(if typeFits(vals[0]) && pack(vals[0]) != [] then Pushed(window, pack(vals[0])) else window,
                         TakenInMemory(vals[1..], pack, typeFits))
  {
    var rest := TakenInMemory(vals[1..], pack, typeFits);
    assert [] + rest == rest && ([pack(vals[0])] + rest)[1..] == rest;
  }

  /** The life of the storage in memory between `create` and `close`: the last N of all values of its type. */
  method LiveInMemory<V>(m: LastNValuesInMemoryStorage<V>, count: nat, vals: seq<V>)
    requires m.Valid() && !m.isOpened
    modifies m
    ensures m.Valid() && m.isOpened
    ensures var window, all := Templates(Max(1, count), m.pack(m.template)), TakenInMemory(vals, m.pack, m.typeFits);
            m.values == (window + all)[|all|..]
  {
    var _ := m.Create(count);
    ghost var window, all := Templates(Max(1, count), m.pack(m.template)), TakenInMemory(vals, m.pack, m.typeFits);
    assert m.values == window;
    var i := 0;
    while i < |vals|
      invariant 0 <= i <= |vals| && m.Valid() && m.isOpened
      invariant PushedAll(m.values, TakenInMemory(vals[i..], m.pack, m.typeFits)) == PushedAll(window, all)
    {
      OneTakenInMemory(m.values, vals[i..], m.pack, m.typeFits);
      assert vals[i..][1..] == vals[i + 1..];
      var _ := m.WriteSensorValue(vals[i]);
      i := i + 1;
    }
    WindowIsTheLastN(window, all);
  }

  function Writes<V>(vals: seq<V>): (r: seq<Event<V>>)
    ensures |r| == |vals| && forall i | 0 <= i < |r| :: r[i] == Write(vals[i])
  {
    seq(|vals|, i requires 0 <= i < |vals| => Write(vals[i]))
  }

  /** What both storages take: values of the type, whose packed form has the length of a block if there are blocks. */
  ghost predicate Suits<V>(vals: seq<V>, pack: V -> seq<byte>, typeFits: V -> bool, fixed: bool, size: nat) {
    forall k | 0 <= k < |vals| :: typeFits(vals[k]) && !Refused(fixed, size, pack(vals[k]))
  }

  lemma {:induction false} BothTakeTheSame<V>(window: seq<seq<byte>>, vals: seq<V>, pack: V -> seq<byte>,
      typeFits: V -> bool, fixed: bool, size: nat)
    requires window != [] && Suits(vals, pack, typeFits, fixed, size)
    ensures Taken(true, Writes(vals), pack, fixed, size) == TakenInMemory(vals, pack, typeFits)
    ensures Unharmed(Shelf(true, window), Writes(vals), pack, fixed, size) && OpenAtEnd(true, Writes(vals))
    decreases |vals|
  {
    if vals != [] {
      assert Writes(vals)[1..] == Writes(vals[1..]);
      BothTakeTheSame(ShelfStep(Shelf(true, window), Write(vals[0]), pack, fixed, size).window, vals[1..], pack,
        typeFits, fixed, size);
    }
  }

  /** Two storages created alike, one on disk and one in memory, answer alike after the same values. */
  method LiveBoth<V>(s: LastNValuesStorage<V>, m: LastNValuesInMemoryStorage<V>, count: nat, vals: seq<V>, index: nat)
    returns (ok: bool, a: Option<V>, b: Option<V>)
    requires s.Valid() && !s.isOpened && Typed(s) && count <= HALF && m.Valid() && !m.isOpened
    requires m.pack == s.pack && m.unpack == s.unpack && m.template == s.template
    requires Suits(vals, s.pack, m.typeFits, s.hasFixedSize, Sum(s.noteSizes))
    modifies m, s, s.disk, s.dbFixesBlocks, s.disk.dataDb
    ensures ok && index < U32 ==> a == b
  {
    BothTakeTheSame(Templates(Max(1, count), s.pack(s.template)), vals, s.pack, m.typeFits, s.hasFixedSize,
      Sum(s.noteSizes));
    var t;
    ok, t := LiveLastN(s, count, Writes(vals));
    if !ok { return ok, None, None; }
    a := t.ValueAt(index);
    LiveInMemory(m, count, vals);
    b := m.ValueAt(index);
    LowBits(index);
  }

  lemma {:induction false} LowBits(n: nat)
    ensures n < U32 ==> n % U32 == n
  {
  }
}
