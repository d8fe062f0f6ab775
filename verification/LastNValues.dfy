/** The last N values: kept in memory only (LastNValuesInMemoryStorage), and on disk in a ring of slots with a copy in
    memory (LastNValuesStorage). The ring read from its start is the window. */
module LastNValues {
  import opened Common
  import opened Blocks
  import opened Files
  import opened FixedBlocks

  // ----- the window

  function Pushed<T>(values: seq<T>, x: T): (r: seq<T>)
    requires values != []
    ensures |r| == |values|
  {
    values[1..] + [x]
  }

  lemma {:induction false} PushedSame<T>(values: seq<T>, x: T)
    requires values != [] && forall i | 0 <= i < |values| :: values[i] == x
    ensures Pushed(values, x) == values
  {
  }

  function PushedAll<T>(values: seq<T>, xs: seq<T>): (r: seq<T>)
    requires values != []
    ensures |r| == |values|
    decreases |xs|
  {
    if xs == [] then values else PushedAll(Pushed(values, xs[0]), xs[1..])
  }

  /** After any run of writes the window is the end of all values ever put there. */
  lemma {:induction false} WindowIsTheLastN<T>(values: seq<T>, xs: seq<T>)
    requires values != []
    ensures PushedAll(values, xs) == (values + xs)[|xs|..]
    decreases |xs|
  {
    if xs == [] {
      assert values + xs == values;
    } else {
      WindowIsTheLastN(Pushed(values, xs[0]), xs[1..]);
      assert values + xs == [values[0]] + (Pushed(values, xs[0]) + xs[1..]);
    }
  }

  // ----- the ring

  /** `k` modulo `n` for a `k` below `2 * n`. */
  function Wrap(k: nat, n: nat): nat {
    if k < n then k else if k - n < n then k - n else 0
  }

  /** The slots in order, from `start` round to `start`. */
  function Ring<T>(slots: seq<T>, start: nat): (r: seq<T>)
    requires start < |slots|
    ensures |r| == |slots| && forall i | 0 <= i < |r| :: r[i] == slots[Wrap(start + i, |slots|)]
  {
    seq(|slots|, i requires 0 <= i < |slots| => slots[Wrap(start + i, |slots|)])
  }

  /** Writing the oldest slot and moving the start on is a push. */
  lemma {:induction false} WriteOldestIsPush<T>(slots: seq<T>, start: nat, x: T)
    requires start < |slots|
    ensures Ring(slots[start := x], Wrap(start + 1, |slots|)) == Pushed(Ring(slots, start), x)
  {
    var n := |slots|;
    var a, b := Ring(slots[start := x], Wrap(start + 1, n)), Pushed(Ring(slots, start), x);
    forall i | 0 <= i < n ensures a[i] == b[i] {
      if i < n - 1 {
        assert Wrap(Wrap(start + 1, n) + i, n) == Wrap(start + (i + 1), n) != start;
      } else {
        assert Wrap(Wrap(start + 1, n) + i, n) == start;
      }
    }
  }

  /** A start that moves without a write keeps the window only when all slots are equal. */
  lemma {:induction false} SkipKeepsWindowIffAllEqual<T>(slots: seq<T>, start: nat)
    requires start < |slots|
    ensures Ring(slots, Wrap(start + 1, |slots|)) == Ring(slots, start)
            <==> forall i | 0 <= i < |slots| :: slots[i] == slots[0]
  {
    var n := |slots|;
    var a, b := Ring(slots, Wrap(start + 1, n)), Ring(slots, start);
    if a == b {
      forall i | 0 <= i < n - 1 ensures slots[i] == slots[i + 1] {
        var k := Wrap(i + n - start, n);
        assert Wrap(start + k, n) == i;
        if k < n - 1 || n == 1 {
          assert a[k] == slots[Wrap(Wrap(start + 1, n) + k, n)];
          assert Wrap(Wrap(start + 1, n) + k, n) == i + 1;
        } else {
          assert a[k] == b[k];
          assert Wrap(Wrap(start + 1, n) + k, n) == Wrap(start + k + 1 - n, n) == i + 1;
        }
      }
      EqualNeighbours(slots, n - 1);
    }
    if forall i | 0 <= i < n :: slots[i] == slots[0] {
      forall i | 0 <= i < n ensures a[i] == b[i] { }
    }
  }

  lemma {:induction false} EqualNeighbours<T>(s: seq<T>, k: nat)
    requires k < |s| && forall i | 0 <= i < k :: s[i] == s[i + 1]
    ensures forall i | 0 <= i <= k :: s[i] == s[0]
    decreases k
  {
    if k > 0 {
      EqualNeighbours(s, k - 1);
      assert s[k - 1] == s[k];
    }
  }

  // ----- 32-bit arithmetic of the start

  function Next(start: nat, n: nat): nat
    requires n > 0
  {
    (start + n + 1) % U32 % n
  }

  function SlotOf(start: nat, i: nat, n: nat): nat
    requires n > 0
  {
    (start + i) % U32 % n
  }

  const HALF: nat := 0x8000_0000

  lemma {:induction false} WrapIsModulo(k: nat, n: nat)
    requires 0 < n && k <= 2 * n
    ensures k % n == Wrap(k, n)
  {
    var q := if k < n then 0 else if k < 2 * n then 1 else 2;
    Quotient(k, n, q);
  }

  lemma {:induction false} Quotient(k: nat, n: nat, q: nat)
    requires 0 < n && q <= 2 && q * n <= k < q * n + n
    ensures k / n == q && k % n == k - q * n
  {
  }

  /** The start moves to the next slot from every slot exactly when the ring has at most 2^31 slots. */
  lemma {:induction false} NextIsSuccessorIffHalf(n: nat)
    requires 0 < n < U32
    ensures (forall start | 0 <= start < n :: Next(start, n) == Wrap(start + 1, n)) <==> n <= HALF
  {
    if n <= HALF {
      forall start | 0 <= start < n ensures Next(start, n) == Wrap(start + 1, n) {
        NextInHalf(start, n);
      }
    } else {
      NextBeyondHalf(n);
    }
  }

  lemma {:induction false} NextBeyondHalf(n: nat)
    requires HALF < n < U32
    ensures Next(n - 1, n) != Wrap(n - 1 + 1, n)
  {
    var rest: nat := 2 * n - U32;
    WrapIsModulo(2 * n, U32);
    WrapIsModulo(rest, n);
    assert (n - 1) + n + 1 == 2 * n;
  }

  lemma {:induction false} NextInHalf(start: nat, n: nat)
    requires start < n <= HALF
    ensures Next(start, n) == Wrap(start + 1, n)
  {
    var x := start + n + 1;
    WrapIsModulo(x, U32);
    WrapIsModulo(x, n);
    WrapIsModulo(0, n);
  }

  lemma {:induction false} SlotInHalf(start: nat, i: nat, n: nat)
    requires start < n <= HALF && i < n
    ensures SlotOf(start, i, n) == Wrap(start + i, n)
  {
    WrapIsModulo(start + i, U32);
    WrapIsModulo(start + i, n);
  }

  // ----- in memory

  class LastNValuesInMemoryStorage<V> {
    const pack: V -> seq<byte>
    const unpack: seq<byte> -> Option<V>
    const typeFits: V -> bool
    const template: V
    var isOpened: bool
    var values: seq<seq<byte>>
    var storedCount: nat
    var announced: seq<V>

    ghost predicate Valid()
      reads this
    {
      isOpened ==> values != []
    }

    constructor (pack: V -> seq<byte>, unpack: seq<byte> -> Option<V>, typeFits: V -> bool, template: V)
      ensures Valid() && !isOpened && this.pack == pack && this.unpack == unpack && this.typeFits == typeFits
              && this.template == template
    {
      this.pack, this.unpack, this.typeFits, this.template := pack, unpack, typeFits, template;
      isOpened, values, storedCount, announced := false, [], 0, [];
    }

    method Create(storedValuesCount: nat) returns (ok: bool)
      requires Valid()
      modifies this
      ensures Valid() && ok == !old(isOpened)
      ensures ok ==> isOpened && values == seq(Max(1, storedValuesCount), _ => pack(template))
      ensures !ok ==> unchanged(this)
    {
      if isOpened { return false; }
      storedCount := if storedValuesCount == 0 then 1 else storedValuesCount;
      ResizeValues(storedCount);
      isOpened := true;
      return true;
    }

    /** Values do not outlive `close`: the window starts again with the template. */
    method Open() returns (ok: bool)
      requires Valid()
      modifies this
      ensures Valid() && ok == !old(isOpened)
      ensures ok ==> isOpened && values == seq(Max(1, old(storedCount)), _ => pack(template))
      ensures !ok ==> unchanged(this)
    {
      if isOpened { return false; }
      ResizeValues(if storedCount == 0 then 1 else storedCount);
      isOpened := true;
      return true;
    }

    method WriteSensorValue(val: V) returns (ok: bool)
      requires Valid()
      modifies `values, `announced
      ensures Valid() && ok == (isOpened && typeFits(val) && pack(val) != [])
      ensures ok ==> old(values) != [] && values == Pushed(old(values), pack(val))
      ensures ok ==> announced == old(announced) + if unpack(pack(val)).Some? then [unpack(pack(val)).value] else []
      ensures !ok ==> values == old(values) && announced == old(announced)
    {
      if !isOpened || !typeFits(val) { return false; }
      var valData := pack(val);
      if valData == [] { return false; }
      values := values[1..];
      values := values + [valData];
      var valWritten := unpack(valData);
      if valWritten.Some? { announced := announced + [valWritten.value]; }
      return true;
    }

    method ValueAt(index: nat) returns (r: Option<V>)
      ensures r == if index < |values| then unpack(values[index]) else None
    {
      return if index < |values| then unpack(values[index]) else None;
    }

    method Close()
      requires Valid()
      modifies this
      ensures Valid() && !isOpened && storedCount == old(storedCount)
    {
      if !isOpened { return; }
      values := [];
      isOpened := false;
    }

    method ResizeValues(sz: nat)
      modifies `values
      ensures values == seq(sz, _ => pack(template))
    {
      values := [];
      var templateData := pack(template);
      var i := 0;
      while i < sz
        modifies `values
        invariant 0 <= i <= sz && values == seq(i, _ => templateData)
      {
        values := values + [templateData];
        i := i + 1;
      }
    }
  }

  // ----- on disk

  datatype DbType = FILES | FIXED_BLOCKS

  /** The file `db.index`. */
  datatype IndexFile = Missing | Unreadable | Start(at: nat)

  /** The directory of a storage: settings, the start in `db.index`, one file for each slot, the block file. The count
      in the settings is None when it cannot be read as a number. */
  class Disk {
    var storedCount: Option<nat>
    var fixedBlocks: bool
    var index: IndexFile
    var files: map<nat, seq<byte>>
    const dataDb: QFile

    constructor (dataDb: QFile)
      ensures storedCount == None && index == Missing && files == map[] && this.dataDb == dataDb
    {
      storedCount, fixedBlocks, index, files := None, false, Missing, map[];
      this.dataDb := dataDb;
    }
  }

  /** A missing file reads as nothing. */
  function FileData(files: map<nat, seq<byte>>, k: nat): seq<byte> {
    if k in files then files[k] else []
  }

  function FileSlots(files: map<nat, seq<byte>>, n: nat): (slots: seq<seq<byte>>)
    ensures |slots| == n && forall k | 0 <= k < n :: slots[k] == if k in files then files[k] else []
  {
    seq(n, k requires 0 <= k => FileData(files, k))
  }

  /** What `create` and `writeSensorValue` leave on the disk. */
  ghost predicate Saved(hash: Hash, storedCount: Option<nat>, fixedBlocks: bool, index: IndexFile, data: seq<byte>) {
    && storedCount.Some? && index.Start?
    && storedCount.value <= HALF && index.at < Max(1, storedCount.value)
    && (fixedBlocks ==>
          && Openable(hash, data) && Opened(hash, data).Some?
          && |Opened(hash, data).value.1.blocks| == Max(1, storedCount.value))
  }

  /** Everything `open` reads is there and can be read. */
  ghost predicate Legible(hash: Hash, storedCount: Option<nat>, fixedBlocks: bool, index: IndexFile, exists_: bool,
      data: seq<byte>) {
    && storedCount.Some? && index.Start?
    && (fixedBlocks ==> exists_ && Openable(hash, data) && Opened(hash, data).Some?)
  }

  function SlotsOnDisk(hash: Hash, n: nat, fixedBlocks: bool, files: map<nat, seq<byte>>,
      data: seq<byte>): seq<seq<byte>>
    requires fixedBlocks ==> Openable(hash, data) && Opened(hash, data).Some?
  {
    if fixedBlocks then Opened(hash, data).value.1.blocks else FileSlots(files, n)
  }

  class LastNValuesStorage<V> {
    const pack: V -> seq<byte>
    const unpack: seq<byte> -> Option<V>
    const template: V
    const hasFixedSize: bool
    const noteSizes: seq<nat>
    const hash: Hash
    const disk: Disk
    const dbFixesBlocks: DBDriverFixedBlocks
    var isOpened: bool
    var dbType: DbType
    var startIndex: nat
    var storedCount: nat
    var values: seq<seq<byte>>
    var announced: seq<Option<V>>

    ghost predicate Valid()
      reads this, disk, dbFixesBlocks, dbFixesBlocks.file
    {
      && dbFixesBlocks.file == disk.dataDb && dbFixesBlocks.hash == hash
      && dbFixesBlocks.Valid()
      && (dbFixesBlocks.isOpened ==> isOpened && dbType == FIXED_BLOCKS)
      && (!isOpened ==> values == [])
      && (isOpened ==>
            && SlotsReadable() && |values| == storedCount
            && disk.index == Start(startIndex)
            && disk.storedCount.Some? && storedCount == Max(1, disk.storedCount.value)
            && disk.fixedBlocks == (dbType == FIXED_BLOCKS))
    }

    ghost predicate SlotsReadable()
      reads this, dbFixesBlocks
    {
      && 0 < storedCount <= HALF && startIndex < storedCount
      && (dbType == FIXED_BLOCKS ==>
            && dbFixesBlocks.isOpened
            && storedCount <= |dbFixesBlocks.store.blocks|
            && dbFixesBlocks.store.lack == Span(|dbFixesBlocks.store.blocks| - storedCount,
               dbFixesBlocks.wholeBlockSize))
    }

    ghost function Slots(): (slots: seq<seq<byte>>)
      requires SlotsReadable()
      reads this, disk, dbFixesBlocks
      ensures |slots| == storedCount
    {
      if dbType == FILES then FileSlots(disk.files, storedCount) else dbFixesBlocks.store.blocks[..storedCount]
    }

    /** The copy in memory is the ring read from its start. */
    ghost predicate Mirrors()
      requires Valid() && isOpened
      reads this, disk, dbFixesBlocks, dbFixesBlocks.file
    {
      values == Ring(Slots(), startIndex)
    }

    constructor (pack: V -> seq<byte>, unpack: seq<byte> -> Option<V>, template: V, hasFixedSize: bool,
        noteSizes: seq<nat>,
                 hash: Hash, disk: Disk)
      ensures Valid() && !isOpened && fresh(dbFixesBlocks) && !dbFixesBlocks.fileIsOpen
      ensures this.pack == pack && this.unpack == unpack && this.template == template
              && this.hasFixedSize == hasFixedSize
      ensures this.noteSizes == noteSizes && this.hash == hash && this.disk == disk && announced == []
      ensures storedCount == 0
    {
      this.pack, this.unpack, this.template, this.hasFixedSize := pack, unpack, template, hasFixedSize;
      this.noteSizes, this.hash, this.disk := noteSizes, hash, disk;
      isOpened, dbType, startIndex, storedCount, values, announced := false, FILES, 0, 0, [], [];
      dbFixesBlocks := new DBDriverFixedBlocks(hash, disk.dataDb);
    }

    /** The window starts as `storedValuesCount` templates (at least one). */
    method Create(storedValuesCount: nat) returns (ok: bool)
      requires Valid() && storedValuesCount <= HALF
      requires hasFixedSize ==>
                 && 0 < |noteSizes| <= MAX_NOTES && Sum(noteSizes) < U32
                 && (forall i | 0 <= i < |noteSizes| :: noteSizes[i] < U32)
                 && |pack(template)| == Sum(noteSizes)
      modifies this, disk, dbFixesBlocks, disk.dataDb
      ensures ok == (!old(isOpened) && old(disk.index) == Missing
                     && (if hasFixedSize then !old(disk.dataDb.exists_) else pack(template) != []))
      ensures ok ==> Valid() && isOpened && Mirrors() && startIndex == 0
                     && values == seq(Max(1, storedValuesCount), _ => pack(template))
      ensures ok ==> dbType == (if hasFixedSize then FIXED_BLOCKS else FILES)
      ensures ok && hasFixedSize ==> dbFixesBlocks.blockNotesSizes == noteSizes
      ensures old(isOpened) || old(disk.index) != Missing ==> unchanged(this, disk, dbFixesBlocks, disk.dataDb)
      ensures !ok && !old(isOpened) && old(disk.index) == Missing ==>
                isOpened && storedCount == Max(1, storedValuesCount) && Valid() == !hasFixedSize
    {
      if isOpened { return false; }
      var count := if storedValuesCount == 0 then 1 else storedValuesCount;
      if disk.index != Missing { return false; }
      storedCount := count;
      dbType := if hasFixedSize then FIXED_BLOCKS else FILES;
      disk.storedCount, disk.fixedBlocks := Some(storedCount), dbType == FIXED_BLOCKS;
      disk.index := Start(0);
      isOpened := true;
      startIndex := 0;
      var valData := pack(template);
      FillValues(valData);
      if dbType == FIXED_BLOCKS {
        ok := CreateSlots(valData);
      } else {
        ok := FillSlots(valData);
      }
    }

    method FillValues(valData: seq<byte>)
      modifies `values
      ensures values == seq(storedCount, _ => valData)
    {
      values := [];
      var i := 0;
      while i < storedCount
        modifies `values
        invariant 0 <= i <= storedCount && values == seq(i, _ => valData)
      {
        values := values + [valData];
        i := i + 1;
      }
    }

    /** The block file with one block for each slot. */
    method CreateSlots(valData: seq<byte>) returns (ok: bool)
      requires dbFixesBlocks.file == disk.dataDb && dbFixesBlocks.hash == hash && dbFixesBlocks.Valid()
               && !dbFixesBlocks.isOpened
      requires isOpened && dbType == FIXED_BLOCKS && disk.fixedBlocks && startIndex == 0 && 0 < storedCount <= HALF
      requires disk.index == Start(0) && disk.storedCount.Some? && storedCount == Max(1, disk.storedCount.value)
               && values == seq(storedCount, _ => valData)
      requires 0 < |noteSizes| <= MAX_NOTES && |valData| == Sum(noteSizes) < U32
               && forall i | 0 <= i < |noteSizes| :: noteSizes[i] < U32
      modifies dbFixesBlocks, disk.dataDb
      ensures ok == !old(disk.dataDb.exists_)
      ensures if ok then Valid() && Mirrors() && dbFixesBlocks.blockNotesSizes == noteSizes else !dbFixesBlocks.isOpened
    {
      ok := dbFixesBlocks.Create(noteSizes);
      if !ok { return false; }
      RepeatedShape(Store([], 0), storedCount, valData);
      var _ := dbFixesBlocks.AddManyBlocksOf(storedCount, valData);
    }

    /** A template written into every slot leaves the start where it was. */
    method FillSlots(valData: seq<byte>) returns (ok: bool)
      requires Valid() && isOpened && dbType == FILES && startIndex == 0 && valData == pack(template)
      requires values == seq(storedCount, _ => valData)
      modifies `startIndex, `values, `announced, disk`index, disk`files
      modifies dbFixesBlocks`store, dbFixesBlocks`totalBlocksCount, disk.dataDb`bytes, disk.dataDb`pos
      ensures Valid() && isOpened && ok == (valData != [])
      ensures ok ==> Mirrors() && startIndex == 0 && values == old(values)
    {
      var i := 0;
      while i < storedCount
        invariant 0 <= i <= storedCount == old(storedCount) && Valid() && isOpened && dbType == FILES
        invariant values == old(values)
        invariant startIndex == if i == storedCount then 0 else i
        invariant forall k | 0 <= k < i :: Slots()[k] == valData
        invariant i > 0 ==> valData != []
      {
        PushedSame(values, valData);
        ok := WriteSensorValue(template);
        if !ok { return; }
        i := i + 1;
      }
      return true;
    }

    /** The value goes into the oldest slot and to the end of the copy; the value announced is read back from the
        ring and is the one just written. A block of the wrong length is refused, but the start has moved on. */
    method WriteSensorValue(val: V) returns (ok: bool)
      requires Valid()
      modifies `startIndex, `values, `announced, disk`index, disk`files
      modifies dbFixesBlocks`store, dbFixesBlocks`totalBlocksCount, disk.dataDb`bytes, disk.dataDb`pos
      ensures Valid()
      ensures ok == (isOpened && pack(val) != []
                && (dbType == FIXED_BLOCKS ==> |pack(val)| == dbFixesBlocks.wholeBlockSize))
      ensures isOpened && pack(val) != [] ==> startIndex == Wrap(old(startIndex) + 1, storedCount)
      ensures ok ==> Slots() == old(Slots())[old(startIndex) := pack(val)]
      ensures ok ==> values == Pushed(old(values), pack(val)) && announced == old(announced) + [unpack(pack(val))]
      ensures !ok ==> values == old(values) && announced == old(announced) && (isOpened ==> Slots() == old(Slots()))
      ensures !isOpened || pack(val) == [] ==> unchanged(this, disk, dbFixesBlocks, disk.dataDb)
      ensures ok && old(Mirrors()) ==> Mirrors()
    {
      if !isOpened { return false; }
      var data := pack(val);
      if data == [] { return false; }
      ghost var slots, was := Slots(), startIndex;
      NextInHalf(startIndex, storedCount);
      var next := Next(startIndex, storedCount);
      if dbType == FILES {
        PutFile(next, data);
      } else {
        ok := UpdateSlot(next, data);
        if !ok { return; }
      }
      WriteOldestIsPush(slots, was, data);
      PushValue(was, data);
      return true;
    }

    /** The end of a write: the copy moves on, and the newest slot is announced. */
    method PushValue(ghost was: nat, data: seq<byte>)
      requires Valid() && isOpened && was < storedCount && startIndex == Wrap(was + 1, storedCount)
               && Slots()[was] == data
      modifies `values, `announced, disk.dataDb`pos
      ensures Valid() && values == Pushed(old(values), data)
      ensures announced == old(announced) + [unpack(data)]
    {
      values := values[1..];
      values := values + [data];
      assert Wrap(startIndex + (storedCount - 1), storedCount) == was;
      var newVal := ReadValueData(storedCount - 1);
      announced := announced + [unpack(newVal)];
    }

    method PutFile(next: nat, data: seq<byte>)
      requires Valid() && isOpened && dbType == FILES && next < storedCount
      modifies `startIndex, disk`index, disk`files
      ensures Valid() && startIndex == next && Slots() == old(Slots())[old(startIndex) := data]
    {
      disk.index := Start(next);
      disk.files := disk.files[startIndex := data];
      startIndex := next;
    }

    method UpdateSlot(next: nat, data: seq<byte>) returns (ok: bool)
      requires Valid() && isOpened && dbType == FIXED_BLOCKS && next < storedCount
      modifies `startIndex, disk`index
      modifies dbFixesBlocks`store, dbFixesBlocks`totalBlocksCount, disk.dataDb`bytes, disk.dataDb`pos
      ensures Valid()
      ensures startIndex == next && ok == (|data| == dbFixesBlocks.wholeBlockSize)
      ensures Slots() == if ok then old(Slots())[old(startIndex) := data] else old(Slots())
    {
      disk.index := Start(next);
      ok := ReplaceBlock(startIndex, data);
      startIndex := next;
    }

    method ReplaceBlock(at: nat, data: seq<byte>) returns (ok: bool)
      requires dbFixesBlocks.file == disk.dataDb && dbFixesBlocks.Valid() && SlotsReadable()
      requires dbType == FIXED_BLOCKS && at < storedCount
      modifies dbFixesBlocks`store, dbFixesBlocks`totalBlocksCount, disk.dataDb`bytes, disk.dataDb`pos
      ensures dbFixesBlocks.Valid() && SlotsReadable()
      ensures ok == (|data| == dbFixesBlocks.wholeBlockSize)
      ensures Slots() == if ok then old(Slots())[at := data] else old(Slots())
    {
      if |data| == dbFixesBlocks.wholeBlockSize {
        UpdateStaysInPlace(dbFixesBlocks.blockNotesSizes, dbFixesBlocks.store, at, data, storedCount);
      }
      ok := dbFixesBlocks.UpdateBlock(at, data);
    }

    /** A refused write that moved the start leaves a copy that still mirrors the ring only if all slots are equal. */
    lemma {:induction false} RefusedWriteKeepsMirrorIffAllEqual(start: nat)
      requires Valid() && isOpened && start < storedCount && startIndex == Wrap(start + 1, storedCount)
      requires values == Ring(Slots(), start)
      ensures Mirrors() <==> forall i | 0 <= i < storedCount :: Slots()[i] == Slots()[0]
    {
      SkipKeepsWindowIffAllEqual(Slots(), start);
    }

    method ValueAt(index: nat) returns (r: Option<V>)
      requires Valid() && (!isOpened ==> storedCount == 0)
      ensures r == if index % U32 < storedCount then unpack(values[index % U32]) else None
    {
      if index % U32 >= storedCount { return None; }
      return unpack(values[index % U32]);
    }

    /** Everything `Open` reads is there, and no failed call has left the block file open. */
    ghost predicate CanOpen()
      reads this, disk, disk.dataDb, dbFixesBlocks
    {
      && Legible(hash, disk.storedCount, disk.fixedBlocks, disk.index, disk.dataDb.exists_, disk.dataDb.bytes)
      && (disk.fixedBlocks ==> !dbFixesBlocks.fileIsOpen)
    }

    /** A fresh object, or one closed before, reads the window the last owner had. A call that fails behind the
        settings leaves the count it read, with no values. */
    method Open() returns (ok: bool)
      requires Valid()
      requires !isOpened && disk.fixedBlocks ==> Openable(hash, disk.dataDb.bytes)
      requires !isOpened && CanOpen() ==>
                 Saved(hash, disk.storedCount, disk.fixedBlocks, disk.index, disk.dataDb.bytes)
      modifies this, dbFixesBlocks, disk.dataDb
      ensures Valid() && isOpened == (ok || old(isOpened))
      ensures ok == (!old(isOpened) && old(CanOpen()))
      ensures ok ==> Mirrors() && startIndex == disk.index.at && storedCount == Max(1, disk.storedCount.value)
      ensures ok ==> Slots() == SlotsOnDisk(hash, storedCount, disk.fixedBlocks, disk.files, old(disk.dataDb.bytes))
      ensures ok && disk.fixedBlocks ==> dbFixesBlocks.blockNotesSizes == Opened(hash, old(disk.dataDb.bytes)).value.0
      ensures !ok ==> values == old(values)
      ensures !ok && !isOpened ==>
                storedCount == if disk.index == Missing then old(storedCount)
                               else if disk.storedCount == None then 0
                               else Max(1, disk.storedCount.value)
    {
      if isOpened { return false; }
      if disk.index == Missing { return false; }
      if disk.storedCount == None {
        storedCount := 0;
        return false;
      }
      storedCount := disk.storedCount.value;
      if storedCount == 0 { storedCount := 1; }
      if disk.index == Unreadable {
        startIndex := 0;
        return false;
      }
      startIndex := disk.index.at % U32;
      ok := OpenSlots();
    }

    /** The end of `Open`: the slots are taken and the copy is filled. */
    method OpenSlots() returns (ok: bool)
      requires Valid() && !isOpened && disk.storedCount.Some? && storedCount == Max(1, disk.storedCount.value)
      requires disk.index.Start? && startIndex == disk.index.at % U32
      requires disk.fixedBlocks ==> Openable(hash, disk.dataDb.bytes)
      requires CanOpen() ==>
                 Saved(hash, disk.storedCount, disk.fixedBlocks, disk.index, disk.dataDb.bytes)
      modifies `isOpened, `dbType, `values, dbFixesBlocks, disk.dataDb
      ensures Valid() && isOpened == ok
      ensures ok == old(CanOpen())
      ensures ok ==> Mirrors() && startIndex == disk.index.at
      ensures ok ==> Slots() == SlotsOnDisk(hash, storedCount, disk.fixedBlocks, disk.files, old(disk.dataDb.bytes))
      ensures ok && disk.fixedBlocks ==> dbFixesBlocks.blockNotesSizes == Opened(hash, old(disk.dataDb.bytes)).value.0
      ensures !ok ==> values == []
    {
      dbType := if disk.fixedBlocks then FIXED_BLOCKS else FILES;
      if dbType == FIXED_BLOCKS {
        ok := dbFixesBlocks.Open();
        if !ok { return; }
      }
      LoadValues();
      isOpened := true;
      return true;
    }

    method LoadValues()
      requires dbFixesBlocks.file == disk.dataDb && dbFixesBlocks.Valid() && values == [] && SlotsReadable()
      modifies `values, disk.dataDb`pos
      ensures dbFixesBlocks.Valid() && SlotsReadable()
      ensures values == Ring(Slots(), startIndex)
    {
      ghost var slots := Slots();
      var i := 0;
      while i < storedCount
        modifies `values, disk.dataDb`pos
        invariant 0 <= i <= storedCount && |values| == i && dbFixesBlocks.Valid() && SlotsReadable()
        invariant forall k | 0 <= k < i :: values[k] == slots[Wrap(startIndex + k, storedCount)]
      {
        var data := ReadValueData(i);
        values := values + [data];
        i := i + 1;
      }
    }

    method Close()
      requires Valid()
      modifies this, dbFixesBlocks
      ensures Valid() && !isOpened && storedCount == 0 && values == []
      ensures old(isOpened && dbType == FIXED_BLOCKS) ==> !dbFixesBlocks.fileIsOpen
      ensures dbFixesBlocks.fileIsOpen ==> old(dbFixesBlocks.fileIsOpen)
    {
      isOpened, storedCount, startIndex, values := false, 0, 0, [];
      if dbType == FIXED_BLOCKS { dbFixesBlocks.Close(); }
    }

    method ReadValueData(index: nat) returns (data: seq<byte>)
      requires dbFixesBlocks.file == disk.dataDb && dbFixesBlocks.Valid() && SlotsReadable()
      modifies disk.dataDb`pos
      ensures dbFixesBlocks.Valid()
      ensures data == if index < storedCount then Slots()[Wrap(startIndex + index, storedCount)] else []
    {
      if index >= storedCount { return []; }
      SlotInHalf(startIndex, index, storedCount);
      var slot := SlotOf(startIndex, index, storedCount);
      if dbType == FILES {
        data := FileData(disk.files, slot);
        if data == [] { return []; }
      } else {
        SlotIsOnDisk(slot, storedCount, |dbFixesBlocks.store.blocks|, dbFixesBlocks.wholeBlockSize);
        var ok;
        ok, data := dbFixesBlocks.ReadBlock(slot);
        if !ok { return []; }
      }
    }
  }

  lemma {:induction false} SlotIsOnDisk(slot: nat, n: nat, count: nat, size: nat)
    requires slot < n <= count
    ensures Span(slot + 1, size) + Span(count - n, size) <= Span(count, size)
  {
    SpanAdd(slot + 1, n - slot - 1, size);
    SpanAdd(n, count - n, size);
  }

  /** The ring of an open storage is what a fresh object will read from its directory. */
  lemma {:induction false} FreshObjectSeesSameWindow<V>(s: LastNValuesStorage<V>)
    requires s.Valid() && s.isOpened
    requires s.dbType == FIXED_BLOCKS ==> s.dbFixesBlocks.wholeBlockSize > 0
    ensures Saved(s.hash, s.disk.storedCount, s.disk.fixedBlocks, s.disk.index, s.disk.dataDb.bytes)
    ensures s.disk.fixedBlocks ==> && s.disk.dataDb.exists_
                                   && Opened(s.hash, s.disk.dataDb.bytes).value.0 == s.dbFixesBlocks.blockNotesSizes
    ensures var slots := SlotsOnDisk(s.hash, s.storedCount, s.disk.fixedBlocks, s.disk.files, s.disk.dataDb.bytes);
            |slots| == s.storedCount && Ring(slots, s.disk.index.at) == Ring(s.Slots(), s.startIndex)
  {
    if s.dbType == FIXED_BLOCKS {
      var d := s.dbFixesBlocks;
      ReopenKeepsWhatIsOnDisk(s.hash, d.blockNotesSizes, d.store, s.disk.dataDb.bytes);
      ModMultiple(|d.store.blocks| - s.storedCount, d.wholeBlockSize);
    }
  }
}
