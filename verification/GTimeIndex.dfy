/** The time index (DBDriverGTimeIndex): a fixed-block file of (time, block number) pairs, mirrored in two vectors and
    searched by halving. */
module GTimeIndex {
  import opened Common
  import opened Blocks
  import opened Files
  import opened FixedBlocks

  const SIZES: seq<nat> := [8, 8]

  function Entry(tm: int, dbInd: nat): (b: seq<byte>)
    requires IsInt64(tm)
    ensures |b| == 16
  {
    ToInt64(tm) + ToLE(dbInd, 8)
  }

  ghost predicate AllEntries(blocks: seq<seq<byte>>) {
    forall i | 0 <= i < |blocks| :: |blocks[i]| == 16
  }

  function TimesOf(blocks: seq<seq<byte>>): (times: seq<int>)
    requires AllEntries(blocks)
    ensures |times| == |blocks| && forall i | 0 <= i < |times| :: times[i] == FromInt64(blocks[i][..8])
  {
    seq(|blocks|, i requires 0 <= i < |blocks| => FromInt64(blocks[i][..8]))
  }

  function IndexesOf(blocks: seq<seq<byte>>): (indexes: seq<nat>)
    requires AllEntries(blocks)
    ensures |indexes| == |blocks| && forall i | 0 <= i < |indexes| :: indexes[i] == FromLE(blocks[i][8..])
  {
    seq(|blocks|, i requires 0 <= i < |blocks| => FromLE(blocks[i][8..]))
  }

  lemma {:induction false} SizesShape()
    ensures Sum(SIZES) == 16 && Offset(SIZES, 0) == 0 && Offset(SIZES, 1) == 8
  {
    SumStep(SIZES, 0);
    SumStep(SIZES, 1);
    assert SIZES[..0] == [] && SIZES[..2] == SIZES;
  }

  lemma {:induction false} EntryRoundTrip(tm: int, dbInd: nat)
    requires IsInt64(tm) && dbInd < U64
    ensures FromInt64(Entry(tm, dbInd)[..8]) == tm && FromLE(Entry(tm, dbInd)[8..]) == dbInd
  {
    var a, b := ToInt64(tm), ToLE(dbInd, 8);
    Int64RoundTrip(tm);
    Widths();
    LERoundTrip(dbInd, 8);
    assert (a + b)[..8] == a && (a + b)[8..] == b;
  }

  lemma {:induction false} EntryAppended(blocks: seq<seq<byte>>, tm: int, dbInd: nat)
    requires AllEntries(blocks) && IsInt64(tm) && dbInd < U64
    ensures AllEntries(blocks + [Entry(tm, dbInd)])
    ensures TimesOf(blocks + [Entry(tm, dbInd)]) == TimesOf(blocks) + [tm]
    ensures IndexesOf(blocks + [Entry(tm, dbInd)]) == IndexesOf(blocks) + [dbInd]
  {
    EntryRoundTrip(tm, dbInd);
  }

  /** A zero block with both notes written into it is the entry. */
  lemma {:induction false} AppendSteps(s: Contents, tm: int, dbInd: nat)
    requires AllOf(s.blocks, 16) && s.lack == 0 && IsInt64(tm)
    ensures Sum(SIZES) == 16
    ensures var s1 := Step(SIZES, s, AddBlock);
            var s2 := Step(SIZES, s1, WriteNote(0, ToInt64(tm)));
            Step(SIZES, s2, WriteNote(1, ToLE(dbInd, 8))) == Appended(s, Entry(tm, dbInd))
  {
    SizesShape();
    var a, b, n := ToInt64(tm), ToLE(dbInd, 8), |s.blocks|;
    var s1 := Step(SIZES, s, AddBlock);
    var s2 := Step(SIZES, s1, WriteNote(0, a));
    var s3 := Step(SIZES, s2, WriteNote(1, b));
    assert s2 == Patched(s1, 16, n, 0, a);
    assert s3 == Patched(s2, 16, n, 8, b);
    var zeros := Copies(0, 16);
    var half := Splice(zeros, 0, a);
    assert s1.blocks == s.blocks + [zeros];
    UpdateLast(s.blocks, zeros, half);
    assert s2.blocks == s1.blocks[n := half];
    UpdateLast(s.blocks, half, a + b);
    assert Splice(half, 8, b) == a + b;
    assert s3.blocks == s2.blocks[n := Splice(half, 8, b)];
  }

  lemma {:induction false} UpdateLast<T>(s: seq<T>, x: T, y: T)
    ensures (s + [x])[|s| := y] == s + [y]
  {
  }

  // ----- search

  ghost predicate Sorted(times: seq<int>) {
    forall i, j | 0 <= i < j < |times| :: times[i] <= times[j]
  }

  function CountBelow(times: seq<int>, ts: int): (n: nat)
    ensures n <= |times|
  {
    if times == [] then 0
    else CountBelow(times[..|times| - 1], ts) + if times[|times| - 1] < ts then 1 else 0
  }

  /** The position before the first entry that is not below `ts`, kept inside 0..n-2. */
  function Neighbour(times: seq<int>, ts: int): int
    requires |times| >= 2
  {
    var k := CountBelow(times, ts) - 1;
    if k < 0 then 0 else if k > |times| - 2 then |times| - 2 else k
  }

  lemma {:induction false} CountBelowIsFirst(times: seq<int>, ts: int, k: nat)
    requires Sorted(times) && k <= |times|
    requires forall i | 0 <= i < k :: times[i] < ts
    requires forall i | k <= i < |times| :: times[i] >= ts
    ensures CountBelow(times, ts) == k
    decreases |times|
  {
    if times != [] {
      var n := |times| - 1;
      if k == |times| {
        CountBelowIsFirst(times[..n], ts, n);
      } else {
        CountBelowIsFirst(times[..n], ts, k);
      }
    }
  }

  /** Where the halving stops: next to where `ts` would be. */
  ghost predicate Beside(times: seq<int>, ts: int, r: nat) {
    && r + 2 <= |times|
    && times[r] != ts && times[r + 1] != ts
    && (r == 0 || times[r] < ts)
    && (r + 2 == |times| || ts < times[r + 1])
  }

  lemma {:induction false} BesideIsNeighbour(times: seq<int>, ts: int, r: nat)
    requires Sorted(times) && Beside(times, ts, r)
    ensures ts !in times && r == Neighbour(times, ts)
  {
    var k := if times[r] > ts then r else if times[r + 1] > ts then r + 1 else r + 2;
    forall i | 0 <= i < k ensures times[i] < ts {
      assert i == k - 1 || times[i] <= times[k - 1];
    }
    forall i | k <= i < |times| ensures times[i] > ts {
      assert i == k || times[k] <= times[i];
    }
    CountBelowIsFirst(times, ts, k);
  }

  // ----- the driver

  class DBDriverGTimeIndex {
    const dbDriver: DBDriverFixedBlocks
    var times: seq<int>
    var dbIndexes: seq<nat>

    /** The vectors mirror the file. */
    ghost predicate Valid()
      reads this, dbDriver, dbDriver.file
    {
      && dbDriver.Valid()
      && (dbDriver.isOpened ==>
            && dbDriver.blockNotesSizes == SIZES && dbDriver.store.lack == 0
            && AllEntries(dbDriver.store.blocks)
            && times == TimesOf(dbDriver.store.blocks)
            && dbIndexes == IndexesOf(dbDriver.store.blocks))
      && (!dbDriver.isOpened ==> times == [] && dbIndexes == [])
    }

    constructor (hash: Hash, file: QFile)
      ensures Valid() && !dbDriver.fileIsOpen && !dbDriver.isOpened && fresh(dbDriver) && dbDriver.file == file
              && dbDriver.hash == hash
    {
      dbDriver := new DBDriverFixedBlocks(hash, file);
      times, dbIndexes := [], [];
    }

    method Create() returns (ok: bool)
      requires Valid()
      modifies dbDriver, dbDriver.file
      ensures Valid()
      ensures ok == (!old(dbDriver.isOpened) && !old(dbDriver.file.exists_))
      ensures ok ==> dbDriver.isOpened && times == [] && dbIndexes == []
      ensures !ok ==> unchanged(dbDriver, dbDriver.file)
    {
      SizesShape();
      ok := dbDriver.Create(SIZES);
    }

    /** A fresh look at the file gives the entries that are in it. */
    method Open() returns (ok: bool)
      requires Valid() && Openable(dbDriver.hash, dbDriver.file.bytes)
      requires Opened(dbDriver.hash, dbDriver.file.bytes).Some? ==>
                 Opened(dbDriver.hash, dbDriver.file.bytes).value.0 == SIZES
      modifies this, dbDriver, dbDriver.file
      ensures Valid()
      ensures ok == (!old(dbDriver.fileIsOpen) && old(dbDriver.file.exists_)
                && Opened(dbDriver.hash, old(dbDriver.file.bytes)).Some?)
      ensures ok ==> dbDriver.isOpened && dbDriver.file.bytes == old(dbDriver.file.bytes)
                     && Opened(dbDriver.hash, dbDriver.file.bytes) == Some((SIZES, dbDriver.store))
      ensures !ok ==> dbDriver.isOpened == old(dbDriver.isOpened) && dbDriver.fileIsOpen
                      && (old(dbDriver.file.exists_) ==> dbDriver.file.bytes == old(dbDriver.file.bytes))
      ensures old(dbDriver.fileIsOpen) ==> unchanged(this, dbDriver, dbDriver.file)
    {
      ok := dbDriver.Open();
      if !ok { return; }
      LoadIndex();
    }

    method Close()
      requires Valid()
      modifies this, dbDriver
      ensures Valid() && !dbDriver.isOpened
    {
      if dbDriver.isOpened {
        dbDriver.Close();
        times, dbIndexes := [], [];
      }
    }

    /** One more entry, at the end of the file and of both vectors. */
    method Append(tm: int, dbInd: nat) returns (ok: bool)
      requires Valid() && IsInt64(tm) && dbInd < U64
      modifies this, dbDriver`totalBlocksCount, dbDriver`store, dbDriver.file`bytes, dbDriver.file`pos
      ensures Valid()
      ensures ok == dbDriver.isOpened
      ensures ok ==> times == old(times) + [tm] && dbIndexes == old(dbIndexes) + [dbInd]
      ensures ok ==> dbDriver.store == Appended(old(dbDriver.store), Entry(tm, dbInd))
      ensures !ok ==> times == old(times) && dbIndexes == old(dbIndexes)
    {
      SizesShape();
      if dbDriver.isOpened {
        AppendSteps(dbDriver.store, tm, dbInd);
        EntryAppended(dbDriver.store.blocks, tm, dbInd);
      }
      ok := dbDriver.AddBlock();
      if !ok { return false; }
      ok := dbDriver.WriteNote(0, ToInt64(tm));
      if !ok { return false; }
      ok := dbDriver.WriteNote(1, ToLE(dbInd, 8));
      if !ok { return false; }
      times := times + [tm];
      dbIndexes := dbIndexes + [dbInd];
    }

    /** With one entry the answer is its block number. With more it is a position: one that holds `ts`, or one beside
        the place of `ts`; in times that never decrease, a position of `ts` whenever there is one, and else its
        lower neighbour. */
    method FindIndex(ts: int) returns (r: nat)
      requires |times| == |dbIndexes| && dbIndexes != []
      ensures |times| == 1 ==> r == dbIndexes[0]
      ensures |times| >= 2 ==> r < |times| && (times[r] == ts || Beside(times, ts, r))
      ensures |times| >= 2 && Sorted(times) ==> if ts in times then times[r] == ts else r == Neighbour(times, ts)
    {
      if |dbIndexes| <= 1 { return dbIndexes[0]; }
      var sIndex, eIndex := 0, |dbIndexes| - 1;
      while true
        invariant 0 <= sIndex < eIndex < |times|
        invariant sIndex == 0 || times[sIndex] < ts
        invariant eIndex == |times| - 1 || ts < times[eIndex]
        decreases eIndex - sIndex
      {
        if eIndex - sIndex == 1 {
          if times[eIndex] == ts { return eIndex; }
          if times[sIndex] != ts && Sorted(times) { BesideIsNeighbour(times, ts, sIndex); }
          return sIndex;
        }
        var mIndex := sIndex + (eIndex - sIndex) / 2;
        if times[mIndex] == ts { return mIndex; }
        else if times[mIndex] < ts { sIndex := mIndex; }
        else { eIndex := mIndex; }
      }
    }

    method LoadIndex()
      requires dbDriver.Valid() && dbDriver.isOpened && dbDriver.blockNotesSizes == SIZES && dbDriver.store.lack == 0
      modifies this, dbDriver.file`pos
      ensures Valid() && dbDriver.store == old(dbDriver.store)
    {
      SizesShape();
      times, dbIndexes := [], [];
      var t, v := 0, 0;
      var i := 0;
      while i < dbDriver.totalBlocksCount
        modifies `times, `dbIndexes, dbDriver.file`pos
        invariant 0 <= i <= dbDriver.totalBlocksCount && |times| == |dbIndexes| == i
        invariant dbDriver.Valid()
        invariant forall k | 0 <= k < i :: times[k] == FromInt64(dbDriver.store.blocks[k][..8])
        invariant forall k | 0 <= k < i :: dbIndexes[k] == FromLE(dbDriver.store.blocks[k][8..])
      {
        t, v := ReadEntry(i, t, v);
        times := times + [t];
        dbIndexes := dbIndexes + [v];
        i := i + 1;
      }
    }

    /** The two notes of a block; one that cannot be read leaves its number as it was. */
    method ReadEntry(i: nat, oldTime: int, oldNumber: nat) returns (t: int, v: nat)
      requires dbDriver.Valid() && dbDriver.isOpened && dbDriver.blockNotesSizes == SIZES && dbDriver.store.lack == 0
      requires i < dbDriver.totalBlocksCount
      modifies dbDriver.file`pos
      ensures dbDriver.Valid() && |dbDriver.store.blocks[i]| == 16
      ensures t == FromInt64(dbDriver.store.blocks[i][..8]) && v == FromLE(dbDriver.store.blocks[i][8..])
    {
      SizesShape();
      t, v := oldTime, oldNumber;
      ghost var block := dbDriver.store.blocks[i];
      var okT, note := dbDriver.ReadNote(i, 0);
      if okT { t := FromInt64(note); }
      var okV, number := dbDriver.ReadNote(i, 1);
      if okV { v := FromLE(number); }
      assert note == block[..8] && number == block[8..];
    }
  }

  /** A file of entries is opened with the entries that were appended to it. */
  lemma {:induction false} IndexSurvivesReopening(hash: Hash, s: Contents, f: seq<byte>)
    requires s.lack == 0 && Represents(0, Header(hash, SIZES), 16, s, f)
    ensures Openable(hash, f) && Opened(hash, f) == Some((SIZES, s))
  {
    SizesShape();
    ReopenKeepsWhatIsOnDisk(hash, SIZES, s, f);
    assert s.blocks[..|s.blocks|] == s.blocks;
  }
}
