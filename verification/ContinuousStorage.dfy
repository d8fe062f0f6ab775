/** The continuous storage (ContinuousStorage): packed values in a fixed-block or a chained-block file, with the
    optional time index. The index and the data agree entry by entry. */
module ContinuousStorage {
  import opened Common
  import opened Blocks
  import opened Files
  import FixedBlocks
  import ChainedBlocks
  import GTimeIndex

  datatype DbType = FIXED_BLOCKS | CHAINED_BLOCKS

  /** What a storage holds: the packed values, and the two vectors of the index. */
  datatype Stored = Stored(records: seq<seq<byte>>, times: seq<int>, positions: seq<nat>)

  /** Entry `i` of the index names record `i`. */
  ghost predicate Aligned(s: Stored) {
    && |s.times| == |s.positions| == |s.records|
    && forall i | 0 <= i < |s.positions| :: s.positions[i] == i
  }

  function Added(s: Stored, data: seq<byte>, indexed: bool, ts: int): (r: Stored)
    ensures indexed && Aligned(s) ==> Aligned(r)
  {
    Stored(s.records + [data],
           if indexed then s.times + [ts] else s.times,
           if indexed then s.positions + [|s.records|] else s.positions)
  }

  /** What a run of writes leaves, each write a packed value and its time. */
  function AddedAll(s: Stored, writes: seq<(seq<byte>, int)>, indexed: bool): Stored
    decreases |writes|
  {
    if writes == [] then s else AddedAll(Added(s, writes[0].0, indexed, writes[0].1), writes[1..], indexed)
  }

  function Records(writes: seq<(seq<byte>, int)>): (r: seq<seq<byte>>)
    ensures |r| == |writes| && forall i | 0 <= i < |r| :: r[i] == writes[i].0
  {
    seq(|writes|, i requires 0 <= i < |writes| => writes[i].0)
  }

  function Times(writes: seq<(seq<byte>, int)>): (r: seq<int>)
    ensures |r| == |writes| && forall i | 0 <= i < |r| :: r[i] == writes[i].1
  {
    seq(|writes|, i requires 0 <= i < |writes| => writes[i].1)
  }

  /** After any run of writes the records and their times are behind what was stored, in order, and entry `i` of an
      index that was in step still names record `i`. */
  lemma {:induction false} RunIsIndexed(s: Stored, writes: seq<(seq<byte>, int)>, indexed: bool)
    ensures var r := AddedAll(s, writes, indexed);
            && r.records == s.records + Records(writes)
            && r.times == (if indexed then s.times + Times(writes) else s.times)
            && (!indexed ==> r.positions == s.positions)
    ensures indexed && Aligned(s) ==> Aligned(AddedAll(s, writes, indexed))
    decreases |writes|
  {
    if writes != [] {
      RunIsIndexed(Added(s, writes[0].0, indexed, writes[0].1), writes[1..], indexed);
      FirstMoved(s.records, Records(writes), Records(writes[1..]));
      FirstMoved(s.times, Times(writes), Times(writes[1..]));
    }
  }

  lemma {:induction false} FirstMoved<T>(before: seq<T>, all: seq<T>, rest: seq<T>)
    requires |all| == 1 + |rest| && forall i | 0 <= i < |rest| :: rest[i] == all[i + 1]
    ensures (before + [all[0]]) + rest == before + all
  {
  }

  /** The values kept beside the files in the settings of the storage. */
  class Settings {
    var dbType: string
    var gtIndex: string

    constructor ()
      ensures dbType == "" && gtIndex == ""
    {
      dbType, gtIndex := "", "";
    }
  }

  /** What a fresh object reads from the settings and the files; None when it refuses them. */
  function OnDisk(hash: FixedBlocks.Hash, dbType: string, gtIndex: string, data: seq<byte>,
      index: seq<byte>): Option<Stored>
    requires Readable(hash, dbType, gtIndex, data, index)
  {
    var records := RecordsOnDisk(hash, dbType, data);
    if records.None? then None
    else if gtIndex != "1" then Some(Stored(records.value, [], []))
    else
      var opened_ := FixedBlocks.Opened(hash, index);
      if opened_.None? then None
      else
        var entries := opened_.value.1.blocks;
        Some(Stored(records.value, GTimeIndex.TimesOf(entries), GTimeIndex.IndexesOf(entries)))
  }

  function RecordsOnDisk(hash: FixedBlocks.Hash, dbType: string, data: seq<byte>): Option<seq<seq<byte>>>
    requires dbType == "fixed_blocks" ==> FixedBlocks.Openable(hash, data)
  {
    if dbType == "fixed_blocks" then
      match FixedBlocks.Opened(hash, data)
      case None => None
      case Some(o) => Some(o.1.blocks)
    else if dbType == "chained_blocks" then
      if |data| < 8 || data[..8] != ChainedBlocks.FIXED_HEADER then None
      else
        match ChainedBlocks.Scan(data, 8)
        case None => None
        case Some(c) => Some(c.payloads)
    else None
  }

  /** Headers that pass their hash are headers this program wrote. */
  ghost predicate Readable(hash: FixedBlocks.Hash, dbType: string, gtIndex: string, data: seq<byte>, index: seq<byte>) {
    && (dbType == "fixed_blocks" ==> FixedBlocks.Openable(hash, data))
    && (gtIndex == "1" ==>
          && FixedBlocks.Openable(hash, index)
          && (FixedBlocks.Opened(hash, index).Some? ==>
                && FixedBlocks.Opened(hash, index).value.0 == GTimeIndex.SIZES
                && GTimeIndex.AllEntries(FixedBlocks.Opened(hash, index).value.1.blocks)))
  }

  /** `V` is a sensor value; packing and unpacking it are parameters. */
  class ContinuousStorage<V> {
    const pack: V -> seq<byte>
    const unpack: seq<byte> -> Option<V>
    const timeOf: V -> int
    const typeFits: V -> bool
    const noteSizes: seq<nat>
    const globalTime: bool
    const hash: FixedBlocks.Hash
    const settings: Settings
    const dataFile: QFile
    const indexFile: QFile
    const fbDb: FixedBlocks.DBDriverFixedBlocks
    const cbDb: ChainedBlocks.DBDriverChainedBlocks
    const indDb: GTimeIndex.DBDriverGTimeIndex
    var isOpened: bool
    var mHasGTIndex: bool
    var dbType: DbType
    var written: seq<V>

    ghost predicate Wired() {
      && dataFile != indexFile
      && fbDb.file == dataFile == cbDb.file && indDb.dbDriver.file == indexFile
      && fbDb != indDb.dbDriver
      && fbDb.hash == hash == indDb.dbDriver.hash
    }

    ghost predicate Valid()
      reads this, settings, fbDb, cbDb, indDb, indDb.dbDriver, dataFile, indexFile
    {
      && Wired() && fbDb.Valid() && cbDb.Valid() && indDb.Valid()
      && (isOpened ==>
            && fbDb.isOpened == (dbType == FIXED_BLOCKS) && cbDb.isOpened == (dbType == CHAINED_BLOCKS)
            && (fbDb.isOpened ==> fbDb.store.lack == 0)
            && (mHasGTIndex ==> indDb.dbDriver.isOpened)
            && settings.dbType == (if dbType == FIXED_BLOCKS then "fixed_blocks" else "chained_blocks")
            && (settings.gtIndex == "1" <==> mHasGTIndex))
    }

    ghost function Contents(): Stored
      reads this, fbDb, cbDb, indDb
    {
      Stored(if dbType == FIXED_BLOCKS then fbDb.store.blocks else cbDb.chain.payloads,
             if mHasGTIndex then indDb.times else [],
             if mHasGTIndex then indDb.dbIndexes else [])
    }

    constructor (pack: V -> seq<byte>, unpack: seq<byte> -> Option<V>, timeOf: V -> int, typeFits: V -> bool,
                 noteSizes: seq<nat>, globalTime: bool, hash: FixedBlocks.Hash, settings: Settings, dataFile: QFile,
                   indexFile: QFile)
      requires dataFile != indexFile
      ensures Valid() && !isOpened && !fbDb.fileIsOpen && !cbDb.fileIsOpen && !indDb.dbDriver.fileIsOpen
      ensures !fbDb.isOpened && !cbDb.isOpened && !indDb.dbDriver.isOpened
      ensures fresh(fbDb) && fresh(cbDb) && fresh(indDb) && fresh(indDb.dbDriver)
      ensures this.settings == settings && this.dataFile == dataFile && this.indexFile == indexFile && this.hash == hash
      ensures this.pack == pack && this.unpack == unpack && this.timeOf == timeOf && this.typeFits == typeFits
      ensures this.noteSizes == noteSizes && this.globalTime == globalTime && written == []
    {
      this.pack, this.unpack, this.timeOf, this.typeFits := pack, unpack, timeOf, typeFits;
      this.noteSizes, this.globalTime, this.hash := noteSizes, globalTime, hash;
      this.settings, this.dataFile, this.indexFile := settings, dataFile, indexFile;
      isOpened, mHasGTIndex, dbType, written := false, false, CHAINED_BLOCKS, [];
      fbDb := new FixedBlocks.DBDriverFixedBlocks(hash, dataFile);
      cbDb := new ChainedBlocks.DBDriverChainedBlocks(dataFile);
      indDb := new GTimeIndex.DBDriverGTimeIndex(hash, indexFile);
    }

    /** One more value at the end; the index, when there is one, gets its time and its number. */
    method WriteSensorValue(val: V) returns (ok: bool)
      requires Valid() && IsInt64(timeOf(val)) && |pack(val)| < U32 && (isOpened ==> |Contents().records| < U64)
      modifies `written, fbDb`totalBlocksCount, fbDb`store, dataFile`bytes, dataFile`pos
      modifies cbDb`blockOffsets, cbDb`blockSizes, cbDb`totalOffset, cbDb`chain
      modifies indDb, indDb.dbDriver`totalBlocksCount, indDb.dbDriver`store, indexFile`bytes, indexFile`pos
      ensures Valid()
      ensures ok == (isOpened && typeFits(val) && pack(val) != []
                && (dbType == FIXED_BLOCKS ==> |pack(val)| == fbDb.wholeBlockSize))
      ensures ok ==> Contents() == Added(old(Contents()), pack(val), mHasGTIndex, timeOf(val))
      ensures ok ==> written == old(written) + if unpack(pack(val)).Some? then [unpack(pack(val)).value] else []
      ensures !ok ==> Contents() == old(Contents()) && written == old(written)
      ensures !isOpened ==> unchanged(this, fbDb, cbDb, indDb, indDb.dbDriver, dataFile, indexFile)
      ensures cbDb.isOpened && (ok || old(cbDb.chain.lack) == 0) ==> cbDb.chain.lack == 0
    {
      if !isOpened { return false; }
      if !typeFits(val) { return false; }
      var ts, data := timeOf(val), pack(val);
      if data == [] { return false; }
      ok := WriteData(data, ts);
      if !ok { return; }
      var valWritten := unpack(data);
      if valWritten.Some? { written := written + [valWritten.value]; }
    }

    method WriteData(data: seq<byte>, ts: int) returns (ok: bool)
      requires Valid() && isOpened && IsInt64(ts) && |data| < U32 && |Contents().records| < U64
      modifies fbDb`totalBlocksCount, fbDb`store, dataFile`bytes, dataFile`pos
      modifies cbDb`blockOffsets, cbDb`blockSizes, cbDb`totalOffset, cbDb`chain
      modifies indDb, indDb.dbDriver`totalBlocksCount, indDb.dbDriver`store, indexFile`bytes, indexFile`pos
      ensures Valid() && ok == (dbType == FIXED_BLOCKS ==> |data| == fbDb.wholeBlockSize)
      ensures Contents() == if ok then Added(old(Contents()), data, mHasGTIndex, ts) else old(Contents())
      ensures cbDb.isOpened ==> cbDb.chain.lack == 0
    {
      if dbType == FIXED_BLOCKS {
        ok := WriteFixed(data, ts);
      } else {
        ok := WriteChained(data, ts);
      }
    }

    method WriteFixed(data: seq<byte>, ts: int) returns (ok: bool)
      requires Valid() && isOpened && dbType == FIXED_BLOCKS && IsInt64(ts) && |Contents().records| < U64
      modifies fbDb`totalBlocksCount, fbDb`store, dataFile`bytes, dataFile`pos
      modifies indDb, indDb.dbDriver`totalBlocksCount, indDb.dbDriver`store, indexFile`bytes, indexFile`pos
      ensures Valid() && ok == (|data| == fbDb.wholeBlockSize)
      ensures Contents() == if ok then Added(old(Contents()), data, mHasGTIndex, ts) else old(Contents())
    {
      ghost var was := Contents();
      ok := fbDb.WriteBlock(data);
      if !ok { return; }
      var number := fbDb.totalBlocksCount - 1;
      assert number == |was.records|;
      if mHasGTIndex { AppendToIndex(ts, number); }
      assert Contents().records == was.records + [data];
    }

    method AppendToIndex(ts: int, number: nat)
      requires Valid() && isOpened && mHasGTIndex && IsInt64(ts) && number < U64
      modifies indDb, indDb.dbDriver`totalBlocksCount, indDb.dbDriver`store, indexFile`bytes, indexFile`pos
      ensures Valid()
      ensures indDb.times == old(indDb.times) + [ts] && indDb.dbIndexes == old(indDb.dbIndexes) + [number]
    {
      var _ := indDb.Append(ts, number);
    }

    method WriteChained(data: seq<byte>, ts: int) returns (ok: bool)
      requires Valid() && isOpened && dbType == CHAINED_BLOCKS && IsInt64(ts) && |Contents().records| < U64
               && |data| < U32
      modifies cbDb`blockOffsets, cbDb`blockSizes, cbDb`totalOffset, cbDb`chain, dataFile`bytes, dataFile`pos
      modifies indDb, indDb.dbDriver`totalBlocksCount, indDb.dbDriver`store, indexFile`bytes, indexFile`pos
      ensures Valid() && ok && cbDb.chain.lack == 0
      ensures Contents() == Added(old(Contents()), data, mHasGTIndex, ts)
    {
      ghost var was := Contents();
      ok := cbDb.WriteBlock(data);
      if !ok { return; }
      var number := |cbDb.blockSizes| - 1;
      assert number == |was.records|;
      if mHasGTIndex { AppendToIndex(ts, number); }
      assert Contents().records == was.records + [data];
    }

    method CreateAsFixedBlocksDb(gtIndex: bool) returns (ok: bool)
      requires Valid()
      requires |noteSizes| <= FixedBlocks.MAX_NOTES && FixedBlocks.Sum(noteSizes) < U32
               && forall i | 0 <= i < |noteSizes| :: noteSizes[i] < U32
      modifies this, settings, fbDb, indDb.dbDriver, dataFile, indexFile
      ensures Valid()
      ensures ok ==> isOpened && dbType == FIXED_BLOCKS && mHasGTIndex == (gtIndex && globalTime)
      ensures ok ==> Contents() == Stored([], [], []) && fbDb.blockNotesSizes == noteSizes
      ensures ok == (!old(isOpened) && noteSizes != [] && !old(dataFile.exists_)
                     && (gtIndex && globalTime ==> !old(indexFile.exists_)))
      ensures !ok ==> isOpened == old(isOpened)
      ensures old(isOpened) || old(dataFile.exists_) ==>
                unchanged(this, settings, fbDb, indDb.dbDriver, dataFile, indexFile)
    {
      if isOpened { return false; }
      ok := fbDb.Create(noteSizes);
      if !ok { return; }
      ok := CreateIndex(gtIndex);
      if !ok { return; }
      settings.dbType := "fixed_blocks";
      settings.gtIndex := if mHasGTIndex then "1" else "0";
      dbType := FIXED_BLOCKS;
      isOpened := true;
    }

    /** The index, when one is asked for and the values have times of their own. */
    method CreateIndex(gtIndex: bool) returns (ok: bool)
      requires Valid() && !isOpened
      modifies `mHasGTIndex, indDb.dbDriver, indexFile
      ensures Valid() && mHasGTIndex == (gtIndex && globalTime)
      ensures ok == (mHasGTIndex ==> !old(indexFile.exists_))
      ensures ok && mHasGTIndex ==> indDb.dbDriver.isOpened && indDb.times == [] && indDb.dbIndexes == []
    {
      mHasGTIndex := gtIndex && globalTime;
      ok := true;
      if mHasGTIndex { ok := indDb.Create(); }
    }

    /** When the data file cannot be created the answer is true all the same, and the storage stays closed. */
    method CreateAsChainedBlocksDb(gtIndex: bool) returns (ok: bool)
      requires Valid()
      modifies this, settings, cbDb, indDb.dbDriver, dataFile, indexFile
      ensures Valid()
      ensures ok && isOpened ==> dbType == CHAINED_BLOCKS && mHasGTIndex == (gtIndex && globalTime)
      ensures ok && isOpened ==> Contents() == Stored([], [], []) && cbDb.chain.lack == 0
      ensures !old(isOpened) ==>
                isOpened == (!old(dataFile.exists_) && (gtIndex && globalTime ==> !old(indexFile.exists_)))
      ensures !old(isOpened) ==> ok == (isOpened || old(dataFile.exists_))
      ensures old(isOpened) ==> !ok && isOpened
      ensures old(isOpened) || old(dataFile.exists_) ==>
                unchanged(this, settings, cbDb, indDb.dbDriver, dataFile, indexFile)
    {
      if isOpened { return false; }
      var created := cbDb.Create();
      if !created { return true; }
      ok := CreateIndex(gtIndex);
      if !ok { return; }
      assert cbDb.chain.payloads == [];
      settings.dbType := "chained_blocks";
      settings.gtIndex := if mHasGTIndex then "1" else "0";
      dbType := CHAINED_BLOCKS;
      isOpened := true;
      return true;
    }

    /** Closes the data driver; the index driver, if it is open, stays open. */
    method Close()
      requires Valid()
      modifies this, fbDb, cbDb
      ensures Valid() && !isOpened
      ensures old(isOpened) ==> !fbDb.isOpened && !cbDb.isOpened
      ensures old(isOpened) ==> if dbType == FIXED_BLOCKS then !fbDb.fileIsOpen else !cbDb.fileIsOpen
      ensures mHasGTIndex == old(mHasGTIndex) && dbType == old(dbType)
      ensures !old(isOpened) ==> unchanged(this, fbDb, cbDb)
    {
      if !isOpened { return; }
      if dbType == FIXED_BLOCKS {
        fbDb.Close();
      } else {
        cbDb.Close();
      }
      isOpened := false;
    }

    /** The data driver that the settings name does not hold its file. */
    predicate DataIsFree()
      reads this, settings, fbDb, cbDb
    {
      && (settings.dbType == "fixed_blocks" ==> !fbDb.fileIsOpen)
      && (settings.dbType == "chained_blocks" ==> !cbDb.fileIsOpen)
    }

    /** The index file is there and no driver holds it, or no index is asked for. */
    predicate IndexIsFree()
      reads this, settings, indDb, indDb.dbDriver, indexFile
    {
      settings.gtIndex == "1" ==> indexFile.exists_ && !indDb.dbDriver.fileIsOpen
    }

    /** A fresh object sees what is on disk. One whose index driver was left open by `Close`, or one of whose drivers
        was left with its file open by a call that failed, refuses. */
    method Open() returns (ok: bool)
      requires Valid()
      requires !isOpened ==> Readable(hash, settings.dbType, settings.gtIndex, dataFile.bytes, indexFile.bytes)
      modifies this, fbDb, cbDb, indDb, indDb.dbDriver, dataFile, indexFile
      ensures Valid() && isOpened == (ok || old(isOpened))
      ensures ok == (&& !old(isOpened) && old(DataIsFree()) && old(IndexIsFree()) && old(dataFile.exists_)
                     && old(OnDisk(hash, settings.dbType, settings.gtIndex, dataFile.bytes, indexFile.bytes)).Some?)
      ensures ok ==> (mHasGTIndex <==> settings.gtIndex == "1")
      ensures ok ==>
                old(OnDisk(hash, settings.dbType, settings.gtIndex, dataFile.bytes, indexFile.bytes))
                == Some(Contents())
      ensures ok && settings.dbType == "fixed_blocks" ==>
                FixedBlocks.Opened(hash, old(dataFile.bytes)).value.0 == fbDb.blockNotesSizes
      ensures ok && settings.dbType == "chained_blocks" ==>
                ChainedBlocks.Scan(old(dataFile.bytes), 8) == Some(cbDb.chain)
      ensures old(dataFile.exists_) ==> dataFile.exists_ && dataFile.bytes == old(dataFile.bytes)
      ensures old(indexFile.exists_) ==> indexFile.exists_ && indexFile.bytes == old(indexFile.bytes)
      ensures old(indDb.dbDriver.fileIsOpen) ==> indDb.dbDriver.fileIsOpen
      ensures old(isOpened) ==> unchanged(this, fbDb, cbDb, indDb, indDb.dbDriver, dataFile, indexFile)
    {
      if isOpened { return false; }
      ok := OpenData();
      if !ok { return; }
      ok := OpenIndex();
      if !ok { return; }
      isOpened := true;
    }

    /** The index driver takes the index file when the settings ask for an index. */
    method OpenIndex() returns (ok: bool)
      requires Valid() && !isOpened
      requires Readable(hash, settings.dbType, settings.gtIndex, dataFile.bytes, indexFile.bytes)
      modifies `mHasGTIndex, indDb, indDb.dbDriver, indexFile
      ensures Valid()
      ensures ok == (old(IndexIsFree())
                && (settings.gtIndex == "1" ==> FixedBlocks.Opened(hash, old(indexFile.bytes)).Some?))
      ensures ok ==> (mHasGTIndex <==> settings.gtIndex == "1")
      ensures ok && mHasGTIndex ==>
                && indDb.dbDriver.isOpened
                && var entries := FixedBlocks.Opened(hash, old(indexFile.bytes)).value.1.blocks;
                && Contents().times == GTimeIndex.TimesOf(entries)
                && Contents().positions == GTimeIndex.IndexesOf(entries)
      ensures old(indexFile.exists_) ==> indexFile.exists_ && indexFile.bytes == old(indexFile.bytes)
      ensures old(indDb.dbDriver.fileIsOpen) ==> indDb.dbDriver.fileIsOpen
    {
      mHasGTIndex := settings.gtIndex == "1";
      ok := true;
      if mHasGTIndex {
        ok := indDb.Open();
      }
    }

    /** The driver that the settings name takes the data file. */
    method OpenData() returns (ok: bool)
      requires Valid() && !isOpened
      requires settings.dbType == "fixed_blocks" ==> FixedBlocks.Openable(hash, dataFile.bytes)
      modifies `dbType, fbDb, cbDb, dataFile
      ensures Valid()
      ensures ok == (old(DataIsFree()) && old(dataFile.exists_)
                && RecordsOnDisk(hash, settings.dbType, old(dataFile.bytes)).Some?)
      ensures ok ==> DataIsOpen()
      ensures ok ==> settings.dbType == (if dbType == FIXED_BLOCKS then "fixed_blocks" else "chained_blocks")
      ensures ok ==> Some(Contents().records) == RecordsOnDisk(hash, settings.dbType, old(dataFile.bytes))
      ensures ok && dbType == FIXED_BLOCKS ==>
                FixedBlocks.Opened(hash, old(dataFile.bytes)).value.0 == fbDb.blockNotesSizes
      ensures ok && dbType == CHAINED_BLOCKS ==> ChainedBlocks.Scan(old(dataFile.bytes), 8) == Some(cbDb.chain)
      ensures old(dataFile.exists_) ==> dataFile.exists_ && dataFile.bytes == old(dataFile.bytes)
    {
      var dbTypeStr := settings.dbType;
      if dbTypeStr == "fixed_blocks" {
        ok := OpenFixed();
      } else if dbTypeStr == "chained_blocks" {
        ok := OpenChained();
      } else {
        ok := false;
      }
    }

    ghost predicate DataIsOpen()
      reads this, fbDb, cbDb
    {
      && fbDb.isOpened == (dbType == FIXED_BLOCKS) && cbDb.isOpened == (dbType == CHAINED_BLOCKS)
      && (fbDb.isOpened ==> fbDb.store.lack == 0)
    }

    method OpenFixed() returns (ok: bool)
      requires Valid() && !isOpened && FixedBlocks.Openable(hash, dataFile.bytes)
      modifies `dbType, fbDb, dataFile
      ensures Valid()
      ensures ok == (!old(fbDb.fileIsOpen) && old(dataFile.exists_)
                && FixedBlocks.Opened(hash, old(dataFile.bytes)).Some?)
      ensures ok ==> dbType == FIXED_BLOCKS && DataIsOpen()
                     && FixedBlocks.Opened(hash, old(dataFile.bytes)) == Some((fbDb.blockNotesSizes, fbDb.store))
      ensures old(dataFile.exists_) ==> dataFile.exists_ && dataFile.bytes == old(dataFile.bytes)
    {
      ok := fbDb.Open();
      dbType := if ok then FIXED_BLOCKS else dbType;
    }

    method OpenChained() returns (ok: bool)
      requires Valid() && !isOpened
      modifies `dbType, cbDb, dataFile
      ensures Valid()
      ensures ok == (!old(cbDb.fileIsOpen) && old(dataFile.exists_)
                && RecordsOnDisk(hash, "chained_blocks", old(dataFile.bytes)).Some?)
      ensures ok ==> dbType == CHAINED_BLOCKS && DataIsOpen()
      ensures ok ==> ChainedBlocks.Scan(old(dataFile.bytes), 8) == Some(cbDb.chain)
                     && Some(cbDb.chain.payloads) == RecordsOnDisk(hash, "chained_blocks", old(dataFile.bytes))
      ensures old(dataFile.exists_) ==> dataFile.exists_ && dataFile.bytes == old(dataFile.bytes)
    {
      if fbDb.isOpened { FixedFileIsNotChained(hash, fbDb.blockNotesSizes, fbDb.store, dataFile.bytes); }
      ok := cbDb.Open();
      dbType := if ok then CHAINED_BLOCKS else dbType;
    }

    method ValuesCount() returns (n: nat)
      requires Valid()
      ensures n == if isOpened then |Contents().records| else 0
    {
      if !isOpened { return 0; }
      if dbType == FIXED_BLOCKS { n := fbDb.totalBlocksCount; } else { n := |cbDb.blockSizes|; }
    }

    /** The number that is looked up: in a chained file only its low 32 bits. */
    function Asked(index: nat): nat
      reads this
    {
      if dbType == FIXED_BLOCKS then index else index % U32
    }

    /** The value packed at the number asked for; the last one of a chained file only when its bytes are all there. */
    method ValueAt(index: nat) returns (r: Option<V>)
      requires Valid()
      modifies dataFile`pos
      ensures Valid()
      ensures r == if isOpened && Asked(index) < |Contents().records|
                      && (Asked(index) < |Contents().records| - 1 || (cbDb.isOpened ==> cbDb.chain.lack == 0))
                   then unpack(Contents().records[Asked(index)]) else None
    {
      if !isOpened { return None; }
      if dbType == FIXED_BLOCKS {
        Span1(fbDb.wholeBlockSize, index, fbDb.totalBlocksCount);
        var ok, data := fbDb.ReadBlock(index);
        return if ok then unpack(data) else None;
      } else {
        var ok, data := cbDb.ReadBlock(index % U32);
        return if ok then unpack(data) else None;
      }
    }

    /** A position in the index is the number of a stored value. An open index without entries is not asked. */
    method FindInGTIndex(ts: int) returns (r: nat)
      requires Valid() && (isOpened && mHasGTIndex ==> Aligned(Contents()) && Contents().records != [])
      ensures !isOpened || !mHasGTIndex ==> r == 0
      ensures isOpened && mHasGTIndex ==> r < |Contents().records|
      ensures isOpened && mHasGTIndex && |Contents().records| >= 2 && GTimeIndex.Sorted(Contents().times) ==>
                if ts in Contents().times then Contents().times[r] == ts
                else r == GTimeIndex.Neighbour(Contents().times, ts)
    {
      if !isOpened || !mHasGTIndex { return 0; }
      r := indDb.FindIndex(ts);
    }
  }

  /** A file that one of the data drivers holds is none that the other accepts. */
  lemma {:induction false} FixedFileIsNotChained(hash: FixedBlocks.Hash, sizes: seq<nat>, s: FixedBlocks.Contents,
      f: seq<byte>)
    requires Represents(0, FixedBlocks.Header(hash, sizes), FixedBlocks.Sum(sizes), s, f)
    ensures |f| >= 8 && f[..8] != ChainedBlocks.FIXED_HEADER
  {
    var h := FixedBlocks.Header(hash, sizes);
    BodyLength(s.blocks, FixedBlocks.Sum(sizes));
    assert f[0] == (f + Copies(0, s.lack))[0] == h[0];
    assert f[6] == (f + Copies(0, s.lack))[6] == h[6];
    assert h[6] == FixedBlocks.FIXED_HEADER[6] != ChainedBlocks.FIXED_HEADER[6];
  }

  lemma {:induction false} Span1(size: nat, i: nat, n: nat)
    ensures i < n ==> Span(i + 1, size) <= Span(n, size)
  {
    if i < n { SpanAdd(i + 1, n - i - 1, size); }
  }

  /** What an open storage holds is what a fresh object will read from its files. */
  lemma {:induction false} FreshObjectSeesTheSame<V>(s: ContinuousStorage<V>)
    requires s.Valid() && s.isOpened && (s.cbDb.isOpened ==> s.cbDb.chain.lack == 0)
    requires s.dbType == FIXED_BLOCKS ==> s.fbDb.wholeBlockSize > 0
    ensures s.dataFile.exists_ && (s.mHasGTIndex ==> s.indexFile.exists_)
    ensures Readable(s.hash, s.settings.dbType, s.settings.gtIndex, s.dataFile.bytes, s.indexFile.bytes)
    ensures OnDisk(s.hash, s.settings.dbType, s.settings.gtIndex, s.dataFile.bytes, s.indexFile.bytes)
            == Some(s.Contents())
    ensures s.dbType == FIXED_BLOCKS ==> FixedBlocks.Opened(s.hash, s.dataFile.bytes).value.0 == s.fbDb.blockNotesSizes
  {
    if s.dbType == FIXED_BLOCKS {
      FixedBlocks.ReopenKeepsWhatIsOnDisk(s.hash, s.fbDb.blockNotesSizes, s.fbDb.store, s.dataFile.bytes);
      assert s.fbDb.store.blocks[..|s.fbDb.store.blocks|] == s.fbDb.store.blocks;
    } else {
      ChainedBlocks.ScanIffHolds(s.dataFile.bytes, 8, s.cbDb.chain);
    }
    if s.mHasGTIndex {
      GTimeIndex.SizesShape();
      GTimeIndex.IndexSurvivesReopening(s.hash, s.indDb.dbDriver.store, s.indexFile.bytes);
    }
  }
}
