/** Whole lives of a continuous storage, from `create` on: values written, the storage closed, opened again or handed
    to a fresh object, in any order. It holds every value taken, and its index stays in step. */
module ContinuousStorageRuns {
  import opened Common
  import opened Files
  import opened ContinuousStorage
  import FixedBlocks
  import ChainedBlocks
  import GTimeIndex

  /** `Renew` is the end of the object and a fresh one on the same files; the last two are attempts to create again. */
  datatype Event<V> =
    Write(val: V) | Close | Open | Renew | CreateAsFixed(gtIndex: bool) | CreateAsChained(gtIndex: bool)

  /** The kind of file, whether there is an index, and the length of a block. */
  datatype Layout = Layout(fixed: bool, indexed: bool, size: nat)

  /** Whether the storage is open, and whether this object can open it when it is closed. */
  datatype Door = Door(isOpened: bool, ready: bool)

  /** An object that has closed an indexed storage keeps the index, and so cannot open it again. */
  function DoorAfter<V>(d: Door, e: Event<V>, l: Layout): Door {
    match e
    case Write(_) => d
    case Close => d.(isOpened := false)
    case Open => if !d.isOpened && d.ready then Door(true, !l.indexed) else d
    case Renew => Door(false, true)
    case CreateAsFixed(_) => d
    case CreateAsChained(_) => d
  }

  /** How values are packed and timed, and which have the type of the storage. */
  datatype Codec<!V> = Codec(pack: V -> seq<byte>, timeOf: V -> int, typeFits: V -> bool)

  predicate Takes<V>(d: Door, e: Event<V>, k: Codec<V>, l: Layout) {
    e.Write? && d.isOpened && k.typeFits(e.val) && k.pack(e.val) != [] && (l.fixed ==> |k.pack(e.val)| == l.size)
  }

  datatype Shelf = Shelf(door: Door, stored: Stored)

  function ShelfStep<V>(s: Shelf, e: Event<V>, k: Codec<V>, l: Layout): Shelf {
    Shelf(DoorAfter(s.door, e, l),
          if Takes(s.door, e, k, l) then Added(s.stored, k.pack(e.val), l.indexed, k.timeOf(e.val)) else s.stored)
  }

  function ShelfRun<V>(s: Shelf, events: seq<Event<V>>, k: Codec<V>, l: Layout): Shelf
    decreases |events|
  {
    if events == [] then s else ShelfRun(ShelfStep(s, events[0], k, l), events[1..], k, l)
  }

  /** The values taken on the way, packed, with their times. */
  function Taken<V>(d: Door, events: seq<Event<V>>, k: Codec<V>, l: Layout): seq<(seq<byte>, int)>
    decreases |events|
  {
    if events == [] then []
    else
      (if Takes(d, events[0], k, l) then [(k.pack(events[0].val), k.timeOf(events[0].val))] else [])
      + Taken(DoorAfter(d, events[0], l), events[1..], k, l)
  }

  lemma {:induction false} ShelfHoldsAllTaken<V>(s: Shelf, events: seq<Event<V>>, k: Codec<V>, l: Layout)
    ensures ShelfRun(s, events, k, l).stored == AddedAll(s.stored, Taken(s.door, events, k, l), l.indexed)
    decreases |events|
  {
    if events != [] {
      ShelfHoldsAllTaken(ShelfStep(s, events[0], k, l), events[1..], k, l);
      var rest := Taken(DoorAfter(s.door, events[0], l), events[1..], k, l);
      assert [] + rest == rest;
      if Takes(s.door, events[0], k, l) {
        assert ([(k.pack(events[0].val), k.timeOf(events[0].val))] + rest)[1..] == rest;
      }
    }
  }

  const EMPTY := Stored([], [], [])

  /** These records and times in order, and with an index the number `i` at its entry `i`. */
  ghost predicate HoldsAll(c: Stored, taken: seq<(seq<byte>, int)>, indexed: bool) {
    && c.records == Records(taken)
    && c.times == (if indexed then Times(taken) else [])
    && (if indexed then Aligned(c) else c.positions == [])
  }

  /** A storage that began empty holds the values taken, in order, and entry `i` of its index the time of value `i` and
      the number `i`. */
  lemma {:induction false} LifeHoldsAllTaken<V>(d: Door, events: seq<Event<V>>, k: Codec<V>, l: Layout)
    ensures HoldsAll(ShelfRun(Shelf(d, EMPTY), events, k, l).stored, Taken(d, events, k, l), l.indexed)
  {
    var taken := Taken(d, events, k, l);
    ShelfHoldsAllTaken(Shelf(d, EMPTY), events, k, l);
    RunIsIndexed(EMPTY, taken, l.indexed);
    BehindNothing(Records(taken));
    BehindNothing(Times(taken));
  }

  lemma {:induction false} BehindNothing<T>(s: seq<T>)
    ensures [] + s == s
  {
  }

  // ----- the object

  function CodecOf<V>(s: ContinuousStorage<V>): Codec<V> {
    Codec(s.pack, s.timeOf, s.typeFits)
  }

  /** The files of a closed storage hold this. */
  ghost predicate Kept(hash: FixedBlocks.Hash, settings: Settings, dataFile: QFile, indexFile: QFile, stored: Stored,
      l: Layout)
    reads settings, dataFile, indexFile
  {
    && dataFile.exists_ && (l.indexed ==> indexFile.exists_)
    && settings.dbType == (if l.fixed then "fixed_blocks" else "chained_blocks")
    && (settings.gtIndex == "1" <==> l.indexed)
    && Readable(hash, settings.dbType, settings.gtIndex, dataFile.bytes, indexFile.bytes)
    && OnDisk(hash, settings.dbType, settings.gtIndex, dataFile.bytes, indexFile.bytes) == Some(stored)
    && if l.fixed then FixedBlocks.Sum(FixedBlocks.Opened(hash, dataFile.bytes).value.0) == l.size > 0
       else ChainedBlocks.Scan(dataFile.bytes, 8) == Some(ChainedBlocks.Chain(stored.records, 0))
  }

  ghost predicate Holds<V>(s: ContinuousStorage<V>, stored: Stored, l: Layout)
    reads s, s.fbDb, s.cbDb, s.indDb
  {
    && s.Contents() == stored && l.fixed == (s.dbType == FIXED_BLOCKS) && l.indexed == s.mHasGTIndex
    && if l.fixed then s.fbDb.wholeBlockSize == l.size > 0 else s.cbDb.chain.lack == 0
  }

  /** The object is in this state. */
  ghost predicate Is<V>(s: ContinuousStorage<V>, t: Shelf, l: Layout)
    reads s, s.settings, s.fbDb, s.cbDb, s.indDb, s.indDb.dbDriver, s.dataFile, s.indexFile
  {
    && s.Valid() && s.isOpened == t.door.isOpened
    && if s.isOpened then Holds(s, t.stored, l) && t.door.ready == !l.indexed
       else Kept(s.hash, s.settings, s.dataFile, s.indexFile, t.stored, l)
            && if t.door.ready then s.DataIsFree() && s.IndexIsFree() else l.indexed && s.indDb.dbDriver.fileIsOpen
  }

  lemma {:induction false} OpenIsKept<V>(s: ContinuousStorage<V>, t: Shelf, l: Layout)
    requires Is(s, t, l) && s.isOpened
    ensures Kept(s.hash, s.settings, s.dataFile, s.indexFile, t.stored, l)
  {
    FreshObjectSeesTheSame(s);
    if !l.fixed { ChainedBlocks.ScanIffHolds(s.dataFile.bytes, 8, s.cbDb.chain); }
  }

  ghost predicate SameSetup<V>(t: ContinuousStorage<V>, s: ContinuousStorage<V>) {
    && t.settings == s.settings && t.dataFile == s.dataFile && t.indexFile == s.indexFile && t.hash == s.hash
    && t.pack == s.pack && t.unpack == s.unpack && t.timeOf == s.timeOf && t.typeFits == s.typeFits
    && t.noteSizes == s.noteSizes && t.globalTime == s.globalTime
  }

  method CloseOne<V>(s: ContinuousStorage<V>, ghost t: Shelf, ghost l: Layout)
    requires Is(s, t, l)
    modifies s, s.fbDb, s.cbDb
    ensures Is(s, Shelf(t.door.(isOpened := false), t.stored), l)
  {
    if s.isOpened { OpenIsKept(s, t, l); }
    s.Close();
  }

  method OpenOne<V>(s: ContinuousStorage<V>, ghost t: Shelf, ghost l: Layout)
    requires Is(s, t, l)
    modifies s, s.fbDb, s.cbDb, s.indDb, s.indDb.dbDriver, s.dataFile, s.indexFile
    ensures Is(s, Shelf(if !t.door.isOpened && t.door.ready then Door(true, !l.indexed) else t.door, t.stored), l)
  {
    var _ := s.Open();
  }

  method RenewOne<V>(s: ContinuousStorage<V>, ghost t: Shelf, ghost l: Layout) returns (u: ContinuousStorage<V>)
    requires Is(s, t, l)
    modifies s, s.fbDb, s.cbDb
    ensures fresh(u) && fresh(u.fbDb) && fresh(u.cbDb) && fresh(u.indDb) && fresh(u.indDb.dbDriver) && SameSetup(u, s)
    ensures Is(u, Shelf(Door(false, true), t.stored), l)
  {
    CloseOne(s, t, l);
    u := new ContinuousStorage(s.pack, s.unpack, s.timeOf, s.typeFits, s.noteSizes, s.globalTime, s.hash, s.settings,
      s.dataFile, s.indexFile);
  }

  method WriteOne<V>(s: ContinuousStorage<V>, val: V, ghost t: Shelf, ghost l: Layout)
    requires Is(s, t, l) && IsInt64(s.timeOf(val)) && |s.pack(val)| < U32 && |t.stored.records| < U64
    modifies s, s.fbDb, s.cbDb, s.indDb, s.indDb.dbDriver, s.dataFile, s.indexFile
    ensures Is(s, ShelfStep(t, Write(val), CodecOf(s), l), l)
  {
    var _ := s.WriteSensorValue(val);
  }

  method CreateAgain<V>(s: ContinuousStorage<V>, fixed: bool, gtIndex: bool, ghost t: Shelf, ghost l: Layout)
    requires Is(s, t, l) && Typed(s)
    modifies s, s.settings, s.fbDb, s.cbDb, s.indDb.dbDriver, s.dataFile, s.indexFile
    ensures Is(s, t, l)
  {
    if fixed {
      var _ := s.CreateAsFixedBlocksDb(gtIndex);
    } else {
      var _ := s.CreateAsChainedBlocksDb(gtIndex);
    }
  }

  /** What a block file asks of the note sizes of the type. */
  ghost predicate Typed<V>(s: ContinuousStorage<V>) {
    && |s.noteSizes| <= FixedBlocks.MAX_NOTES && FixedBlocks.Sum(s.noteSizes) < U32
    && forall i | 0 <= i < |s.noteSizes| :: 0 < s.noteSizes[i] < U32
  }

  /** A time and a record as they come from the packing. */
  ghost predicate Possible<V>(e: Event<V>, k: Codec<V>) {
    e.Write? ==> IsInt64(k.timeOf(e.val)) && |k.pack(e.val)| < U32
  }

  method StepOne<V>(s: ContinuousStorage<V>, e: Event<V>, ghost t: Shelf, ghost l: Layout)
      returns (u: ContinuousStorage<V>)
    requires Is(s, t, l) && Typed(s) && Possible(e, CodecOf(s)) && |t.stored.records| < U64
    modifies s, s.settings, s.fbDb, s.cbDb, s.indDb, s.indDb.dbDriver, s.dataFile, s.indexFile
    ensures u == s || (fresh(u) && fresh(u.fbDb) && fresh(u.cbDb) && fresh(u.indDb) && fresh(u.indDb.dbDriver))
    ensures SameSetup(u, s) && Is(u, ShelfStep(t, e, CodecOf(s), l), l)
  {
    u := s;
    match e
    case Write(val) => WriteOne(s, val, t, l);
    case Close => CloseOne(s, t, l);
    case Open => OpenOne(s, t, l);
    case Renew => u := RenewOne(s, t, l);
    case CreateAsFixed(gtIndex) => CreateAgain(s, true, gtIndex, t, l);
    case CreateAsChained(gtIndex) => CreateAgain(s, false, gtIndex, t, l);
  }

  /** Any run of events, from any state. */
  method Play<V>(s: ContinuousStorage<V>, events: seq<Event<V>>, ghost t: Shelf, ghost l: Layout)
      returns (u: ContinuousStorage<V>)
    requires Is(s, t, l) && Typed(s) && |t.stored.records| + |events| <= U64
    requires forall j | 0 <= j < |events| :: Possible(events[j], CodecOf(s))
    modifies s, s.settings, s.fbDb, s.cbDb, s.indDb, s.indDb.dbDriver, s.dataFile, s.indexFile
    ensures u == s || (fresh(u) && fresh(u.fbDb) && fresh(u.cbDb) && fresh(u.indDb) && fresh(u.indDb.dbDriver))
    ensures SameSetup(u, s) && Is(u, ShelfRun(t, events, CodecOf(s), l), l)
    decreases |events|
  {
    u := s;
    if events != [] {
      u := StepOne(s, events[0], t, l);
      u := Play(u, events[1..], ShelfStep(t, events[0], CodecOf(s), l), l);
    }
  }

  /** The whole life of a storage of blocks of fixed length, from its creation on. */
  method LiveFixed<V>(s: ContinuousStorage<V>, gtIndex: bool, events: seq<Event<V>>)
      returns (ok: bool, u: ContinuousStorage<V>)
    requires s.Valid() && !s.isOpened && Typed(s) && |events| <= U64
    requires forall j | 0 <= j < |events| :: Possible(events[j], CodecOf(s))
    modifies s, s.settings, s.fbDb, s.cbDb, s.indDb, s.indDb.dbDriver, s.dataFile, s.indexFile
    ensures ok == (s.noteSizes != [] && !old(s.dataFile.exists_)
              && (gtIndex && s.globalTime ==> !old(s.indexFile.exists_)))
    ensures SameSetup(u, s)
    ensures ok ==>
              var l, k := Layout(true, gtIndex && s.globalTime, FixedBlocks.Sum(s.noteSizes)), CodecOf(s);
              && Is(u, ShelfRun(Shelf(Door(true, !l.indexed), EMPTY), events, k, l), l)
              && (u.isOpened ==> HoldsAll(u.Contents(), Taken(Door(true, !l.indexed), events, k, l), l.indexed))
  {
    u := s;
    ok := s.CreateAsFixedBlocksDb(gtIndex);
    if !ok { return; }
    ghost var l, k := Layout(true, gtIndex && s.globalTime, FixedBlocks.Sum(s.noteSizes)), CodecOf(s);
    u := Play(s, events, Shelf(Door(true, !l.indexed), EMPTY), l);
    LifeHoldsAllTaken(Door(true, !l.indexed), events, k, l);
  }

  /** The same for a storage of chained blocks, whose creation answers true even when there is a file already. */
  method LiveChained<V>(s: ContinuousStorage<V>, gtIndex: bool, events: seq<Event<V>>)
      returns (made: bool, u: ContinuousStorage<V>)
    requires s.Valid() && !s.isOpened && Typed(s) && |events| <= U64
    requires forall j | 0 <= j < |events| :: Possible(events[j], CodecOf(s))
    modifies s, s.settings, s.fbDb, s.cbDb, s.indDb, s.indDb.dbDriver, s.dataFile, s.indexFile
    ensures made == (!old(s.dataFile.exists_) && (gtIndex && s.globalTime ==> !old(s.indexFile.exists_)))
    ensures SameSetup(u, s)
    ensures made ==>
              var l, k := Layout(false, gtIndex && s.globalTime, 0), CodecOf(s);
              && Is(u, ShelfRun(Shelf(Door(true, !l.indexed), EMPTY), events, k, l), l)
              && (u.isOpened ==> HoldsAll(u.Contents(), Taken(Door(true, !l.indexed), events, k, l), l.indexed))
  {
    u := s;
    var _ := s.CreateAsChainedBlocksDb(gtIndex);
    made := s.isOpened;
    if !made { return; }
    ghost var l, k := Layout(false, gtIndex && s.globalTime, 0), CodecOf(s);
    u := Play(s, events, Shelf(Door(true, !l.indexed), EMPTY), l);
    LifeHoldsAllTaken(Door(true, !l.indexed), events, k, l);
  }

  // ----- asking for the values

  /** The answer for a number: what the record at that place unpacks to, and nothing when the storage is closed or has
      no such record. In a chained file only the low 32 bits of the number count. */
  ghost predicate Answers<V>(r: Option<V>, t: Shelf, l: Layout, unpack: seq<byte> -> Option<V>, index: nat) {
    var k := if l.fixed || index < U32 then index else index % U32;
    r == if t.door.isOpened && k < |t.stored.records| then unpack(t.stored.records[k]) else None
  }

  lemma {:induction false} SmallIsWhole(index: nat)
    ensures index < U32 ==> index % U32 == index
  {
  }

  method ReadOne<V>(s: ContinuousStorage<V>, index: nat, ghost t: Shelf, ghost l: Layout) returns (r: Option<V>)
    requires Is(s, t, l)
    modifies s.dataFile`pos
    ensures Is(s, t, l)
    ensures Answers(r, t, l, s.unpack, index)
  {
    SmallIsWhole(index);
    r := s.ValueAt(index);
  }

  /** The answer after a whole life: value `index` is the one taken as number `index`, unpacked. */
  ghost predicate AnswersTaken<V>(r: Option<V>, isOpened: bool, taken: seq<(seq<byte>, int)>,
      unpack: seq<byte> -> Option<V>, index: nat)
  {
    r == if isOpened && index < |taken| then unpack(taken[index].0) else None
  }

  lemma {:induction false} TakenAnswers<V>(r: Option<V>, d: Door, events: seq<Event<V>>, k: Codec<V>, l: Layout,
      unpack: seq<byte> -> Option<V>, index: nat)
    requires Answers(r, ShelfRun(Shelf(d, EMPTY), events, k, l), l, unpack, index) && (l.fixed || index < U32)
    ensures AnswersTaken(r, ShelfRun(Shelf(d, EMPTY), events, k, l).door.isOpened, Taken(d, events, k, l), unpack,
              index)
  {
    LifeHoldsAllTaken(d, events, k, l);
  }

  /** Created, lived through any events and asked for a value, whatever the number. */
  method LiveFixedAndRead<V>(s: ContinuousStorage<V>, gtIndex: bool, events: seq<Event<V>>, index: nat)
      returns (ok: bool, r: Option<V>)
    requires s.Valid() && !s.isOpened && Typed(s) && |events| <= U64
    requires forall j | 0 <= j < |events| :: Possible(events[j], CodecOf(s))
    modifies s, s.settings, s.fbDb, s.cbDb, s.indDb, s.indDb.dbDriver, s.dataFile, s.indexFile
    ensures ok ==>
              var l, k := Layout(true, gtIndex && s.globalTime, FixedBlocks.Sum(s.noteSizes)), CodecOf(s);
              var d := Door(true, !l.indexed);
              AnswersTaken(r, ShelfRun(Shelf(d, EMPTY), events, k, l).door.isOpened, Taken(d, events, k, l), s.unpack,
                index)
  {
    var u;
    ok, u := LiveFixed(s, gtIndex, events);
    if !ok { return ok, None; }
    ghost var l := Layout(true, gtIndex && s.globalTime, FixedBlocks.Sum(s.noteSizes));
    ghost var d := Door(true, !l.indexed);
    r := ReadOne(u, index, ShelfRun(Shelf(d, EMPTY), events, CodecOf(s), l), l);
    TakenAnswers(r, d, events, CodecOf(s), l, s.unpack, index);
  }

  method LiveChainedAndRead<V>(s: ContinuousStorage<V>, gtIndex: bool, events: seq<Event<V>>, index: nat)
      returns (made: bool, r: Option<V>)
    requires s.Valid() && !s.isOpened && Typed(s) && |events| <= U64 && index < U32
    requires forall j | 0 <= j < |events| :: Possible(events[j], CodecOf(s))
    modifies s, s.settings, s.fbDb, s.cbDb, s.indDb, s.indDb.dbDriver, s.dataFile, s.indexFile
    ensures made ==>
              var l, k := Layout(false, gtIndex && s.globalTime, 0), CodecOf(s);
              var d := Door(true, !l.indexed);
              AnswersTaken(r, ShelfRun(Shelf(d, EMPTY), events, k, l).door.isOpened, Taken(d, events, k, l), s.unpack,
                index)
  {
    var u;
    made, u := LiveChained(s, gtIndex, events);
    if !made { return made, None; }
    ghost var l := Layout(false, gtIndex && s.globalTime, 0);
    ghost var d := Door(true, !l.indexed);
    r := ReadOne(u, index, ShelfRun(Shelf(d, EMPTY), events, CodecOf(s), l), l);
    TakenAnswers(r, d, events, CodecOf(s), l, s.unpack, index);
  }

  /** The value stored for a time: whatever record carries it. */
  ghost predicate AnswersTime<V>(r: Option<V>, stored: Stored, unpack: seq<byte> -> Option<V>, ts: int) {
    exists i | 0 <= i < |stored.records| && i < |stored.times| ::
      stored.times[i] == ts && r == unpack(stored.records[i])
  }

  /** A time looked up in the index and the value at the place found: with times in order and one of them asked for, it
      is a value of that time. */
  method ReadAtTime<V>(s: ContinuousStorage<V>, ts: int, ghost t: Shelf, ghost l: Layout) returns (r: Option<V>)
    requires Is(s, t, l) && t.door.isOpened && l.indexed && Aligned(t.stored) && 2 <= |t.stored.records| <= U32
    requires GTimeIndex.Sorted(t.stored.times) && ts in t.stored.times
    modifies s.dataFile`pos
    ensures Is(s, t, l) && AnswersTime(r, t.stored, s.unpack, ts)
  {
    var index := s.FindInGTIndex(ts);
    r := ReadOne(s, index, t, l);
  }
}
