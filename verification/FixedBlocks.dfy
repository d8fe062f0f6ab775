/** The fixed-block file (DBDriverFixedBlocks): a hashed header with the note sizes, then blocks of equal length. */
module FixedBlocks {
  import opened Common
  import opened Files
  import opened Blocks

  const HASH_SIZE := 20
  /** "ARpcDBFB" */
  const FIXED_HEADER: seq<byte> := [65, 82, 112, 99, 68, 66, 70, 66]
  const FIXED_HEADER_SIZE := 8

  type Digest = d: seq<byte> | |d| == 20 witness [0, 0, 0, 0, 0, 0, 0, 0, 0, 0, 0, 0, 0, 0, 0, 0, 0, 0, 0, 0]

  /** SHA-1 is any function to 20 bytes. */
  type Hash = seq<byte> -> Digest

  type Contents = Store<byte>

  function Sum(sizes: seq<nat>): nat {
    if sizes == [] then 0 else sizes[0] + Sum(sizes[1..])
  }

  lemma {:induction false} SumSplit(a: seq<nat>, b: seq<nat>)
    ensures Sum(a + b) == Sum(a) + Sum(b)
    decreases |a|
  {
    if a == [] {
      assert a + b == b;
    } else {
      assert (a + b)[1..] == a[1..] + b;
      SumSplit(a[1..], b);
    }
  }

  lemma {:induction false} SumStep(sizes: seq<nat>, i: nat)
    requires i < |sizes|
    ensures Sum(sizes[..i + 1]) == Sum(sizes[..i]) + sizes[i]
    ensures Sum(sizes[..i]) + sizes[i] <= Sum(sizes)
  {
    assert sizes[..i + 1] == sizes[..i] + [sizes[i]];
    SumSplit(sizes[..i], [sizes[i]]);
    assert Sum([sizes[i]]) == sizes[i];
    assert sizes == sizes[..i + 1] + sizes[i + 1..];
    SumSplit(sizes[..i + 1], sizes[i + 1..]);
  }

  // ----- the file image

  function SizesImage(sizes: seq<nat>): (b: seq<byte>)
    ensures |b| == 4 * |sizes|
  {
    if sizes == [] then [] else ToLE(sizes[0], 4) + SizesImage(sizes[1..])
  }

  function Prefix(sizes: seq<nat>): (b: seq<byte>)
    ensures |b| == 12 + 4 * |sizes|
  {
    FIXED_HEADER + ToLE(|sizes|, 4) + SizesImage(sizes)
  }

  function Header(hash: Hash, sizes: seq<nat>): (b: seq<byte>)
    ensures |b| == HeaderSize(|sizes|)
  {
    Prefix(sizes) + hash(Prefix(sizes))
  }

  function HeaderSize(n: nat): nat {
    4 + n * 4 + HASH_SIZE + FIXED_HEADER_SIZE
  }

  // ----- reading the header back

  function SizesFrom(b: seq<byte>): (sizes: seq<nat>)
    requires |b| % 4 == 0
    ensures |sizes| == |b| / 4
    decreases |b|
  {
    if b == [] then [] else [FromLE(b[..4])] + SizesFrom(b[4..])
  }

  /** The note sizes of a file whose header is intact. */
  function ParseHeader(hash: Hash, f: seq<byte>): Option<seq<nat>> {
    if |f| < 12 || f[..8] != FIXED_HEADER then None
    else
      var n := FromLE(f[8..12]);
      if n == 0 || |f| < HeaderSize(n) then None
      else if f[12 + 4 * n..HeaderSize(n)] != hash(f[..12 + 4 * n]) then None
      else Some(SizesFrom(f[12..12 + 4 * n]))
  }

  lemma {:induction false} SizesRoundTrip(sizes: seq<nat>)
    requires forall i | 0 <= i < |sizes| :: sizes[i] < U32
    ensures SizesFrom(SizesImage(sizes)) == sizes
    decreases |sizes|
  {
    if sizes != [] {
      Widths();
      LERoundTrip(sizes[0], 4);
      SizesRoundTrip(sizes[1..]);
      var b := SizesImage(sizes);
      assert b[..4] == ToLE(sizes[0], 4) && b[4..] == SizesImage(sizes[1..]);
    }
  }

  lemma {:induction false} SizesOfRead(b: seq<byte>)
    requires |b| % 4 == 0
    ensures SizesImage(SizesFrom(b)) == b && forall i | 0 <= i < |SizesFrom(b)| :: SizesFrom(b)[i] < U32
    decreases |b|
  {
    if b != [] {
      Widths();
      LEOfRead(b[..4]);
      SizesOfRead(b[4..]);
      assert SizesFrom(b)[1..] == SizesFrom(b[4..]);
      assert b == b[..4] + b[4..];
    }
  }

  /** A file that starts with a header is read back with the sizes the header was made of. */
  lemma {:induction false} HeaderRoundTrip(hash: Hash, sizes: seq<nat>, body: seq<byte>)
    requires 0 < |sizes| < U32 && forall i | 0 <= i < |sizes| :: sizes[i] < U32
    ensures ParseHeader(hash, Header(hash, sizes) + body) == Some(sizes)
  {
    var n, c := |sizes|, SizesImage(sizes);
    var a := FIXED_HEADER + ToLE(n, 4) + c;
    SizesRoundTrip(sizes);
    HeaderParts(hash, n, c, body);
    assert Header(hash, sizes) + body == a + hash(a) + body;
  }

  lemma {:induction false} HeaderParts(hash: Hash, n: nat, c: seq<byte>, body: seq<byte>)
    requires 0 < n < U32 && |c| == 4 * n
    ensures var a := FIXED_HEADER + ToLE(n, 4) + c;
            ParseHeader(hash, a + hash(a) + body) == Some(SizesFrom(c))
  {
    var a := FIXED_HEADER + ToLE(n, 4) + c;
    var f := a + hash(a) + body;
    Slices(FIXED_HEADER, ToLE(n, 4), c, hash(a), body);
    Widths();
    LERoundTrip(n, 4);
    assert f[..8] == FIXED_HEADER;
    assert f[8..12] == ToLE(n, 4);
    assert f[12..12 + 4 * n] == c;
    assert f[..12 + 4 * n] == a;
    assert f[12 + 4 * n..HeaderSize(n)] == hash(a);
  }

  /** And only such a file is accepted. */
  lemma {:induction false} ParsedHeaderIsHeader(hash: Hash, f: seq<byte>)
    requires ParseHeader(hash, f).Some?
    ensures var sizes := ParseHeader(hash, f).value;
            && 0 < |sizes| < U32 && HeaderSize(|sizes|) <= |f|
            && f[..HeaderSize(|sizes|)] == Header(hash, sizes)
            && forall i | 0 <= i < |sizes| :: sizes[i] < U32
  {
    var n := FromLE(f[8..12]);
    var c := f[12..12 + 4 * n];
    Widths();
    LEOfRead(f[8..12]);
    SizesOfRead(c);
    FourSlices(f, n);
    assert Prefix(SizesFrom(c)) == f[..8] + f[8..12] + c;
  }

  lemma {:induction false} FourSlices(f: seq<byte>, n: nat)
    requires HeaderSize(n) <= |f|
    ensures f[..12 + 4 * n] == f[..8] + f[8..12] + f[12..12 + 4 * n]
    ensures f[..HeaderSize(n)] == f[..12 + 4 * n] + f[12 + 4 * n..HeaderSize(n)]
  {
  }

  /** What `open` makes of a file; None when it refuses. */
  function Opened(hash: Hash, f: seq<byte>): Option<(seq<nat>, Contents)>
    requires Openable(hash, f)
  {
    match ParseHeader(hash, f)
    case None => None
    case Some(sizes) =>
      var body := f[HeaderSize(|sizes|)..];
      if |body| % Sum(sizes) != 0 then None else Some((sizes, Store(Chunks(body, Sum(sizes)), 0)))
  }

  /** The header's numbers fit their 32-bit fields, and the division by the block length is defined. */
  predicate Openable(hash: Hash, f: seq<byte>) {
    ParseHeader(hash, f).Some? ==>
      && |ParseHeader(hash, f).value| <= MAX_NOTES
      && HeaderSize(|ParseHeader(hash, f).value|) <= |f|
      && 0 < Sum(ParseHeader(hash, f).value) < U32
  }

  /** The length of the longest vector of 32-bit numbers. */
  const MAX_NOTES: nat := 0x1FFF_FFFF

  /** Reopening keeps the sizes and every block whose bytes reached the file, and refuses a file that ends inside a
      block. */
  lemma {:induction false} ReopenKeepsWhatIsOnDisk(hash: Hash, sizes: seq<nat>, s: Contents, f: seq<byte>)
    requires 0 < |sizes| <= MAX_NOTES && 0 < Sum(sizes) < U32 && forall i | 0 <= i < |sizes| :: sizes[i] < U32
    requires Represents(0, Header(hash, sizes), Sum(sizes), s, f)
    ensures Openable(hash, f)
    ensures s.lack % Sum(sizes) == 0 ==>
              && s.lack / Sum(sizes) <= |s.blocks|
              && Opened(hash, f) == Some((sizes, Store(s.blocks[..|s.blocks| - s.lack / Sum(sizes)], 0)))
    ensures s.lack % Sum(sizes) != 0 ==> Opened(hash, f) == None
  {
    var h := Header(hash, sizes);
    var body := BodyOf(0, h, Sum(sizes), s, f);
    HeaderRoundTrip(hash, sizes, body);
    BodyLength(s.blocks, Sum(sizes));
    ReopenedBody(0, s.blocks, Sum(sizes), body, s.lack);
  }

  function Offset(sizes: seq<nat>, j: nat): nat
    requires j <= |sizes|
  {
    Sum(sizes[..j])
  }

  function Note(sizes: seq<nat>, block: seq<byte>, j: nat): (note: seq<byte>)
    requires j < |sizes| && |block| == Sum(sizes)
    ensures |note| == sizes[j]
  {
    SumStep(sizes, j);
    block[Offset(sizes, j)..Offset(sizes, j) + sizes[j]]
  }

  /** The first `k` notes laid end to end are the front of the block; all of them are the block. */
  lemma {:induction false} NotesTileTheBlock(sizes: seq<nat>, block: seq<byte>, k: nat)
    requires |block| == Sum(sizes) && k <= |sizes|
    ensures Offset(sizes, k) <= |block|
    ensures Body(seq(k, j requires 0 <= j < k => Note(sizes, block, j))) == block[..Offset(sizes, k)]
    ensures k == |sizes| ==> block[..Offset(sizes, k)] == block
    decreases k
  {
    var notes := seq(k, j requires 0 <= j < k => Note(sizes, block, j));
    if k > 0 {
      var init := seq(k - 1, j requires 0 <= j < k - 1 => Note(sizes, block, j));
      var last := [Note(sizes, block, k - 1)];
      NotesTileTheBlock(sizes, block, k - 1);
      SumStep(sizes, k - 1);
      assert notes == init + last;
      BodySplit(init, last);
      assert Body(last) == last[0];
    }
    assert sizes[..|sizes|] == sizes;
  }

  /** Rewriting note `j` replaces it and leaves the other notes alone. */
  lemma {:induction false} NotesAreIndependent(sizes: seq<nat>, block: seq<byte>, j: nat, i: nat, data: seq<byte>)
    requires |block| == Sum(sizes) && j < |sizes| && i < |sizes| && |data| == sizes[j]
    ensures Offset(sizes, j) + sizes[j] <= |block|
    ensures Note(sizes, Splice(block, Offset(sizes, j), data), i) == if i == j then data else Note(sizes, block, i)
  {
    SumStep(sizes, i);
    SumStep(sizes, j);
    if i < j {
      OffsetsGrow(sizes, i + 1, j);
    } else if j < i {
      OffsetsGrow(sizes, j + 1, i);
    }
  }

  lemma {:induction false} OffsetsGrow(sizes: seq<nat>, i: nat, j: nat)
    requires i <= j <= |sizes|
    ensures Offset(sizes, i) <= Offset(sizes, j)
  {
    assert sizes[..j] == sizes[..i] + sizes[i..j];
    SumSplit(sizes[..i], sizes[i..j]);
  }

  // ----- runs of writes

  datatype Op = WriteBlock(data: seq<byte>) | UpdateBlock(i: nat, data: seq<byte>) | AddBlock
              | AddMany(n: nat) | AddManyOf(n: nat, data: seq<byte>) | WriteNote(j: nat, data: seq<byte>)

  predicate Accepts(sizes: seq<nat>, s: Contents, op: Op) {
    match op
    case WriteBlock(data) => |data| == Sum(sizes)
    case UpdateBlock(i, data) => |data| == Sum(sizes) && i < |s.blocks|
    case AddBlock => true
    case AddMany(_) => true
    case AddManyOf(_, data) => |data| == Sum(sizes)
    case WriteNote(j, data) => s.blocks != [] && j < |sizes| && |data| == sizes[j]
  }

  ghost predicate Sound(sizes: seq<nat>, s: Contents) {
    AllOf(s.blocks, Sum(sizes)) && s.lack <= Span(|s.blocks|, Sum(sizes))
  }

  /** The new contents; a refused call changes nothing. */
  function Step(sizes: seq<nat>, s: Contents, op: Op): (r: Contents)
    requires AllOf(s.blocks, Sum(sizes))
    ensures AllOf(r.blocks, Sum(sizes))
  {
    if !Accepts(sizes, s, op) then s
    else
      var size := Sum(sizes);
      match op
      case WriteBlock(data) => Appended(s, data)
      case UpdateBlock(i, data) => Updated(0, s, size, i, data)
      case AddBlock => Appended(s, Copies(0, size))
      case AddMany(n) => Grown(0, s, n, size)
      case AddManyOf(n, data) =>
        RepeatedShape(s, n, data);
        Repeated(s, n, data)
      case WriteNote(j, data) =>
        SumStep(sizes, j);
        Patched(s, size, |s.blocks| - 1, Offset(sizes, j), data)
  }

  lemma {:induction false} StepIsSound(sizes: seq<nat>, s: Contents, op: Op)
    requires Sound(sizes, s)
    ensures Sound(sizes, Step(sizes, s, op))
  {
    if Accepts(sizes, s, op) {
      var size, n := Sum(sizes), |s.blocks|;
      match op
      case WriteBlock(_) =>
      case UpdateBlock(i, data) =>
        ThreeParts(n, i, size);
      case AddBlock =>
      case AddMany(_) =>
      case AddManyOf(k, data) =>
        RepeatedShape(s, k, data);
      case WriteNote(j, data) =>
        SumStep(sizes, j);
        ThreeParts(n, n - 1, size);
    }
  }

  function Run(sizes: seq<nat>, s: Contents, ops: seq<Op>): (r: Contents)
    requires AllOf(s.blocks, Sum(sizes))
    ensures AllOf(r.blocks, Sum(sizes))
    decreases |ops|
  {
    if ops == [] then s else Run(sizes, Step(sizes, s, ops[0]), ops[1..])
  }

  /** Without `updateBlock` the file never falls behind, so reopening finds every block. */
  lemma {:induction false} RunWithoutUpdatesIsComplete(sizes: seq<nat>, s: Contents, ops: seq<Op>)
    requires Sound(sizes, s) && s.lack == 0 && forall k | 0 <= k < |ops| :: !ops[k].UpdateBlock?
    ensures Run(sizes, s, ops).lack == 0 && Sound(sizes, Run(sizes, s, ops))
    decreases |ops|
  {
    if ops != [] {
      StepIsSound(sizes, s, ops[0]);
      if ops[0].AddManyOf? { RepeatedShape(s, ops[0].n, ops[0].data); }
      if ops[0].WriteNote? && Accepts(sizes, s, ops[0]) {
        SumStep(sizes, ops[0].j);
        ThreeParts(|s.blocks|, |s.blocks| - 1, Sum(sizes));
      }
      RunWithoutUpdatesIsComplete(sizes, Step(sizes, s, ops[0]), ops[1..]);
    }
  }

  /** One update of the first `n` blocks: the block is replaced, the counter goes up, the file keeps its length. */
  lemma {:induction false} UpdateStaysInPlace(sizes: seq<nat>, s: Contents, i: nat, data: seq<byte>, n: nat)
    requires i < n <= |s.blocks| && AllOf(s.blocks, Sum(sizes)) && s.lack == Span(|s.blocks| - n, Sum(sizes))
             && |data| == Sum(sizes)
    ensures var r := Step(sizes, s, UpdateBlock(i, data));
            && |r.blocks| == |s.blocks| + 1
            && r.blocks[..n] == s.blocks[..n][i := data]
            && r.lack == Span(|r.blocks| - n, Sum(sizes))
  {
    DriftKept(|s.blocks|, n, i, Sum(sizes));
    assert Splice(s.blocks[i], 0, data) == data;
  }

  /** A block written after an update lands one place too far: a block of zeros is left between. */
  lemma {:induction false} WriteAfterUpdateLeavesAHole(sizes: seq<nat>, s: Contents, i: nat, data: seq<byte>,
      next: seq<byte>)
    requires AllOf(s.blocks, Sum(sizes)) && i < |s.blocks| && |data| == |next| == Sum(sizes)
    ensures Run(sizes, s, [UpdateBlock(i, data), WriteBlock(next)])
            == Store(s.blocks[i := data] + [Copies(0, Sum(sizes)), next], 0)
  {
    var ops := [UpdateBlock(i, data), WriteBlock(next)];
    assert ops[1..] == [WriteBlock(next)] && ops[1..][1..] == [];
    assert Splice(s.blocks[i], 0, data) == data;
    var t := Step(sizes, s, ops[0]);
    assert t.blocks == s.blocks[i := data] + [Copies(0, Sum(sizes))];
    assert Run(sizes, t, ops[1..]) == Step(sizes, t, WriteBlock(next));
    assert t.blocks + [next] == s.blocks[i := data] + [Copies(0, Sum(sizes)), next];
  }

  /** A note written after an update leaves a file that cannot be reopened, exactly when the note does not end the
      block. */
  lemma {:induction false} NoteAfterUpdateTearsTheFile(sizes: seq<nat>, s: Contents, i: nat, data: seq<byte>, j: nat,
      note: seq<byte>)
    requires AllOf(s.blocks, Sum(sizes)) && s.lack == 0 && i < |s.blocks| && |data| == Sum(sizes)
    requires j < |sizes| && |note| == sizes[j] && note != []
    ensures Sum(sizes) > 0 && Offset(sizes, j + 1) <= Sum(sizes)
    ensures var t := Step(sizes, Step(sizes, s, UpdateBlock(i, data)), WriteNote(j, note));
            t.lack % Sum(sizes) == 0 <==> Offset(sizes, j + 1) == Sum(sizes)
  {
    var size := Sum(sizes);
    SumStep(sizes, j);
    var t := Step(sizes, s, UpdateBlock(i, data));
    ThreeParts(|s.blocks|, i, size);
    assert t.lack == size;
    var n, end := |t.blocks|, Offset(sizes, j + 1);
    assert Step(sizes, t, WriteNote(j, note)) == Patched(t, size, n - 1, Offset(sizes, j), note);
    assert Offset(sizes, j) + |note| == end;
    assert Step(sizes, t, WriteNote(j, note)).lack == size - end;
    SmallRemainder(size - end, size);
  }

  class DBDriverFixedBlocks {
    const hash: Hash
    const file: QFile
    var isOpened: bool
    var fileIsOpen: bool
    var blockNotesSizes: seq<nat>
    var blockNotesOffsets: seq<nat>
    var wholeBlockSize: nat
    var totalHeaderSize: nat
    var totalBlocksCount: nat
    ghost var store: Contents

    ghost predicate Layout()
      reads this
    {
      && 0 < |blockNotesSizes| <= MAX_NOTES
      && (forall i | 0 <= i < |blockNotesSizes| :: blockNotesSizes[i] < U32)
      && wholeBlockSize == Sum(blockNotesSizes) < U32
      && totalHeaderSize == HeaderSize(|blockNotesSizes|)
      && |blockNotesOffsets| == |blockNotesSizes|
      && forall j | 0 <= j < |blockNotesSizes| :: blockNotesOffsets[j] == Offset(blockNotesSizes, j)
    }

    /** A failed `Open` leaves the file open. */
    ghost predicate Valid()
      reads this, file
    {
      && (isOpened ==>
            && fileIsOpen
            && Layout()
            && |store.blocks| == totalBlocksCount
            && Represents(0, Header(hash, blockNotesSizes), wholeBlockSize, store, file.bytes))
      && (fileIsOpen ==> file.exists_)
    }

    constructor (hash: Hash, file: QFile)
      ensures this.hash == hash && this.file == file && !isOpened && !fileIsOpen && Valid()
    {
      this.hash, this.file := hash, file;
      isOpened, fileIsOpen := false, false;
      blockNotesSizes, blockNotesOffsets := [], [];
      wholeBlockSize, totalHeaderSize, totalBlocksCount := 0, 0, 0;
      store := Store([], 0);
    }

    method Create(sizes: seq<nat>) returns (ok: bool)
      requires Valid()
      requires |sizes| <= MAX_NOTES && Sum(sizes) < U32 && forall i | 0 <= i < |sizes| :: sizes[i] < U32
      modifies this, file
      ensures Valid()
      ensures ok == (!old(isOpened) && sizes != [] && !old(file.exists_))
      ensures ok ==> isOpened && blockNotesSizes == sizes && store == Store([], 0)
      ensures !ok ==> unchanged(this, file)
    {
      if isOpened || sizes == [] || file.exists_ { return false; }
      file.OpenReadWrite();
      fileIsOpen := true;
      blockNotesSizes := sizes;
      wholeBlockSize := 0;
      totalBlocksCount := 0;
      var i := 0;
      while i < |sizes|
        modifies `wholeBlockSize
        invariant 0 <= i <= |sizes| && wholeBlockSize == Sum(sizes[..i])
      {
        SumStep(sizes, i);
        wholeBlockSize := wholeBlockSize + sizes[i];
        i := i + 1;
      }
      assert sizes[..|sizes|] == sizes;
      CalcHeaderSizeAndOffsets();
      ok := WriteHeader();
      if !ok { return; }
      isOpened := true;
      store := Store([], 0);
      assert file.bytes + Copies(0, 0) == file.bytes && Header(hash, sizes) + [] == Header(hash, sizes);
    }

    /** Accepts exactly the files that `Opened` describes, with the store it describes. A failed call leaves the file
        open, so that no later one on the same object succeeds. */
    method Open() returns (ok: bool)
      requires Valid() && Openable(hash, file.bytes)
      modifies this, file
      ensures Valid() && fileIsOpen
      ensures ok == (!old(fileIsOpen) && old(file.exists_) && Opened(hash, old(file.bytes)).Some?)
      ensures ok ==> isOpened && file.bytes == old(file.bytes)
      ensures ok ==> Opened(hash, old(file.bytes)) == Some((blockNotesSizes, store))
      ensures !ok ==> isOpened == old(isOpened) && file.bytes == if old(file.exists_) then old(file.bytes) else []
      ensures old(fileIsOpen) ==> unchanged(this, file)
    {
      if isOpened || fileIsOpen { return false; }
      file.OpenReadWrite();
      fileIsOpen := true;
      ok := ReadHeader();
      if !ok { return; }
      isOpened := true;
    }

    method Close()
      requires Valid()
      modifies this
      ensures Valid() && !isOpened && fileIsOpen == (old(fileIsOpen) && !old(isOpened))
      ensures totalBlocksCount == if old(isOpened) then 0 else old(totalBlocksCount)
      ensures !old(isOpened) ==> unchanged(this)
    {
      if !isOpened { return; }
      isOpened, fileIsOpen := false, false;
      blockNotesSizes, blockNotesOffsets := [], [];
      wholeBlockSize, totalHeaderSize, totalBlocksCount := 0, 0, 0;
    }

    /** A block is read exactly when it is counted and all its bytes are in the file. */
    method ReadBlock(blockIndex: nat) returns (ok: bool, data: seq<byte>)
      requires Valid()
      modifies file`pos
      ensures Valid()
      ensures ok == (isOpened && blockIndex < totalBlocksCount
                     && Span(blockIndex + 1, wholeBlockSize) + store.lack <= Span(totalBlocksCount, wholeBlockSize))
      ensures ok ==> data == store.blocks[blockIndex]
    {
      if !isOpened || blockIndex >= totalBlocksCount { return false, []; }
      file.Seek(totalHeaderSize + Span(blockIndex, wholeBlockSize));
      data := file.Read(wholeBlockSize);
      ReadOfBlock(0, Header(hash, blockNotesSizes), wholeBlockSize, store, file.bytes, blockIndex, 0, wholeBlockSize);
      return |data| == wholeBlockSize, data;
    }

    /** Note `noteIndex` of the block, a slice of what `ReadBlock` gives. */
    method ReadNote(blockIndex: nat, noteIndex: nat) returns (ok: bool, data: seq<byte>)
      requires Valid()
      modifies file`pos
      ensures Valid()
      ensures ok ==> isOpened && blockIndex < totalBlocksCount && noteIndex < |blockNotesSizes|
                     && data == Note(blockNotesSizes, store.blocks[blockIndex], noteIndex)
      ensures isOpened && blockIndex < totalBlocksCount && noteIndex < |blockNotesSizes| && store.lack == 0 ==> ok
    {
      if !isOpened || blockIndex >= totalBlocksCount || noteIndex >= |blockNotesSizes| { return false, []; }
      file.Seek(totalHeaderSize + Span(blockIndex, wholeBlockSize) + blockNotesOffsets[noteIndex]);
      data := file.Read(blockNotesSizes[noteIndex]);
      ReadOfNote(Header(hash, blockNotesSizes), blockNotesSizes, store, file.bytes, blockIndex, noteIndex);
      return |data| == blockNotesSizes[noteIndex], data;
    }

    method WriteBlock(data: seq<byte>) returns (ok: bool)
      requires Valid()
      modifies `totalBlocksCount, `store, file`bytes, file`pos
      ensures Valid()
      ensures ok == (isOpened && |data| == wholeBlockSize)
      ensures isOpened ==> store == Step(blockNotesSizes, old(store), Op.WriteBlock(data))
      ensures !isOpened ==> file.bytes == old(file.bytes)
    {
      if |data| != wholeBlockSize || !isOpened { return false; }
      file.Seek(totalHeaderSize + Span(totalBlocksCount, wholeBlockSize));
      WriteAtEnd(data);
      return true;
    }

    method UpdateBlock(blockIndex: nat, data: seq<byte>) returns (ok: bool)
      requires Valid()
      modifies `totalBlocksCount, `store, file`bytes, file`pos
      ensures Valid()
      ensures ok == (isOpened && |data| == wholeBlockSize && blockIndex < old(totalBlocksCount))
      ensures isOpened ==> store == Step(blockNotesSizes, old(store), Op.UpdateBlock(blockIndex, data))
      ensures !isOpened ==> file.bytes == old(file.bytes)
    {
      if |data| != wholeBlockSize || !isOpened || blockIndex >= totalBlocksCount { return false; }
      file.Seek(totalHeaderSize + Span(blockIndex, wholeBlockSize));
      WriteInto(blockIndex, 0, data);
      totalBlocksCount := totalBlocksCount + 1;
      OneMoreCounted(0, Header(hash, blockNotesSizes), wholeBlockSize, store, file.bytes);
      store := Drifted(0, store, wholeBlockSize);
      return true;
    }

    method WriteAtEnd(data: seq<byte>)
      requires Valid() && isOpened && |data| == wholeBlockSize
      requires file.pos == totalHeaderSize + Span(totalBlocksCount, wholeBlockSize)
      modifies `totalBlocksCount, `store, file`bytes, file`pos
      ensures Valid() && store == Appended(old(store), data)
      ensures file.pos == totalHeaderSize + Span(totalBlocksCount, wholeBlockSize)
    {
      AppendedIsRepresented(0, Header(hash, blockNotesSizes), wholeBlockSize, store, file.bytes, data);
      file.Write(data);
      totalBlocksCount := totalBlocksCount + 1;
      store := Appended(store, data);
    }

    method AddBlock() returns (ok: bool)
      requires Valid()
      modifies `totalBlocksCount, `store, file`bytes, file`pos
      ensures Valid()
      ensures ok == isOpened
      ensures isOpened ==> store == Step(blockNotesSizes, old(store), Op.AddBlock)
      ensures !isOpened ==> file.bytes == old(file.bytes)
    {
      if !isOpened { return false; }
      var data := Copies(0, wholeBlockSize);
      file.Seek(totalHeaderSize + Span(totalBlocksCount, wholeBlockSize));
      WriteAtEnd(data);
      return true;
    }

    method AddManyBlocks(count: nat) returns (ok: bool)
      requires Valid()
      modifies `totalBlocksCount, `store, file`bytes, file`pos
      ensures Valid()
      ensures ok == isOpened
      ensures isOpened ==> store == Step(blockNotesSizes, old(store), AddMany(count))
      ensures !isOpened ==> file.bytes == old(file.bytes)
    {
      if !isOpened { return false; }
      GrownIsRepresented(0, Header(hash, blockNotesSizes), wholeBlockSize, store, file.bytes, count);
      file.Resize(totalHeaderSize + Span(totalBlocksCount + count, wholeBlockSize));
      totalBlocksCount := totalBlocksCount + count;
      store := Grown(0, store, count, wholeBlockSize);
      return true;
    }

    /** The position is set once, before the loop. */
    method AddManyBlocksOf(count: nat, data: seq<byte>) returns (ok: bool)
      requires Valid()
      modifies `totalBlocksCount, `store, file`bytes, file`pos
      ensures Valid()
      ensures ok == (isOpened && |data| == wholeBlockSize)
      ensures isOpened ==> store == Step(blockNotesSizes, old(store), AddManyOf(count, data))
      ensures !isOpened ==> file.bytes == old(file.bytes)
    {
      if !isOpened { return false; }
      file.Seek(totalHeaderSize + Span(totalBlocksCount, wholeBlockSize));
      if |data| != wholeBlockSize { return false; }
      WriteCopies(count, data);
      return true;
    }

    method WriteCopies(count: nat, data: seq<byte>)
      requires Valid() && isOpened && |data| == wholeBlockSize
      requires file.pos == totalHeaderSize + Span(totalBlocksCount, wholeBlockSize)
      modifies `totalBlocksCount, `store, file`bytes, file`pos
      ensures Valid() && store == Repeated(old(store), count, data)
    {
      var i := 0;
      while i < count
        invariant 0 <= i <= count && Valid()
        invariant store == Repeated(old(store), i, data)
        invariant file.pos == totalHeaderSize + Span(totalBlocksCount, wholeBlockSize)
      {
        WriteAtEnd(data);
        i := i + 1;
      }
    }

    ghost predicate Counted(i: nat, off: nat, n: nat)
      reads this
    {
      i < |store.blocks| && |store.blocks[i]| == wholeBlockSize && off + n <= wholeBlockSize
    }

    method WriteInto(ghost i: nat, ghost off: nat, data: seq<byte>)
      requires Valid() && isOpened && Counted(i, off, |data|)
      requires file.pos == totalHeaderSize + Span(i, wholeBlockSize) + off
      modifies `store, file`bytes, file`pos
      ensures Valid() && old(Counted(i, off, |data|)) && store == Patched(old(store), wholeBlockSize, i, off, data)
    {
      PatchedIsRepresented(0, Header(hash, blockNotesSizes), wholeBlockSize, store, file.bytes, i, off, data);
      file.Write(data);
      store := Patched(store, wholeBlockSize, i, off, data);
    }

    method WriteNote(noteIndex: nat, data: seq<byte>) returns (ok: bool)
      requires Valid()
      modifies `store, file`bytes, file`pos
      ensures Valid()
      ensures ok == (isOpened && totalBlocksCount > 0 && noteIndex < |blockNotesSizes|
                && |data| == blockNotesSizes[noteIndex])
      ensures isOpened ==> store == Step(blockNotesSizes, old(store), Op.WriteNote(noteIndex, data))
      ensures !isOpened ==> file.bytes == old(file.bytes)
    {
      if !isOpened || totalBlocksCount == 0 || noteIndex >= |blockNotesSizes|
        || blockNotesSizes[noteIndex] != |data| { return false; }
      var off := blockNotesOffsets[noteIndex];
      SumStep(blockNotesSizes, noteIndex);
      file.Seek(totalHeaderSize + Span(totalBlocksCount - 1, wholeBlockSize) + off);
      WriteInto(totalBlocksCount - 1, off, data);
      return true;
    }

    method ReadHeader() returns (ok: bool)
      requires !isOpened && Openable(hash, file.bytes)
      modifies `blockNotesSizes, `blockNotesOffsets, `wholeBlockSize, `totalHeaderSize, `totalBlocksCount, `store,
               file`pos
      ensures ok == Opened(hash, file.bytes).Some?
      ensures ok ==> Layout() && Opened(hash, file.bytes) == Some((blockNotesSizes, store))
      ensures ok ==> |store.blocks| == totalBlocksCount
                     && Represents(0, Header(hash, blockNotesSizes), wholeBlockSize, store, file.bytes)
    {
      ok := ReadSizesAndHash();
      if !ok { return; }
      var rest := |file.bytes| - totalHeaderSize;
      if rest % wholeBlockSize != 0 { return false; }
      totalBlocksCount := rest / wholeBlockSize;
      store := OpenedIsRepresented(hash, blockNotesSizes, file.bytes);
      return true;
    }

    /** The header up to its hash. */
    method ReadSizesAndHash() returns (ok: bool)
      modifies `blockNotesSizes, `blockNotesOffsets, `wholeBlockSize, `totalHeaderSize, file`pos
      ensures ok == ParseHeader(hash, file.bytes).Some?
      ensures ok ==> && ParseHeader(hash, file.bytes) == Some(blockNotesSizes)
                     && wholeBlockSize == Sum(blockNotesSizes)
                     && totalHeaderSize == HeaderSize(|blockNotesSizes|)
                     && |blockNotesOffsets| == |blockNotesSizes|
                     && forall j | 0 <= j < |blockNotesSizes| :: blockNotesOffsets[j] == Offset(blockNotesSizes, j)
    {
      file.Seek(0);
      var fHdr := file.Read(FIXED_HEADER_SIZE);
      if fHdr != FIXED_HEADER { return false; }
      var number := file.Read(4);
      if |number| != 4 { return false; }
      var notesCount := FromLE(number);
      if notesCount == 0 { return false; }
      var hashed := fHdr + number;
      assert hashed == file.bytes[..12];
      ok, hashed := ReadSizes(notesCount, hashed);
      if !ok { return; }
      CalcHeaderSizeAndOffsets();
      var hashFromFile := file.Read(HASH_SIZE);
      if |hashFromFile| != HASH_SIZE { return false; }
      return hashFromFile == hash(hashed);
    }

    /** Reads the sizes one by one into the vector, the block length and the hash. */
    method ReadSizes(notesCount: nat, start: seq<byte>) returns (ok: bool, hashed: seq<byte>)
      requires file.pos == 12 <= |file.bytes| && start == file.bytes[..12]
      modifies `blockNotesSizes, `wholeBlockSize, file`pos
      ensures ok == (12 + 4 * notesCount <= |file.bytes|)
      ensures ok ==> && file.pos == 12 + 4 * notesCount
                     && hashed == file.bytes[..12 + 4 * notesCount]
                     && blockNotesSizes == SizesFrom(file.bytes[12..12 + 4 * notesCount])
                     && wholeBlockSize == Sum(blockNotesSizes)
    {
      hashed := start;
      blockNotesSizes, wholeBlockSize := [], 0;
      var i := 0;
      while i < notesCount
        modifies `blockNotesSizes, `wholeBlockSize, file`pos
        invariant 0 <= i <= notesCount && file.pos == 12 + 4 * i <= |file.bytes|
        invariant hashed == file.bytes[..12 + 4 * i]
        invariant blockNotesSizes == SizesFrom(file.bytes[12..12 + 4 * i])
        invariant wholeBlockSize == Sum(blockNotesSizes)
      {
        var sz := file.Read(4);
        if |sz| != 4 { return false, hashed; }
        OneMoreSize(file.bytes, i);
        SumSplit(blockNotesSizes, [FromLE(sz)]);
        hashed := hashed + sz;
        blockNotesSizes := blockNotesSizes + [FromLE(sz)];
        wholeBlockSize := wholeBlockSize + FromLE(sz);
        i := i + 1;
      }
      return true, hashed;
    }

    method WriteHeader() returns (ok: bool)
      requires |blockNotesSizes| < U32
      modifies file`bytes, file`pos
      ensures ok == (old(file.pos) == 0 && old(file.bytes) == [])
      ensures ok ==> file.bytes == Header(hash, blockNotesSizes)
      ensures !ok ==> file.bytes == old(file.bytes)
    {
      if file.pos != 0 || |file.bytes| != 0 { return false; }
      WrittenAtEnd(0, [], FIXED_HEADER);
      file.Write(FIXED_HEADER);
      var hashed := FIXED_HEADER;
      var bCount := |blockNotesSizes|;
      WrittenAtEnd(0, FIXED_HEADER, ToLE(bCount, 4));
      file.Write(ToLE(bCount, 4));
      hashed := hashed + ToLE(bCount, 4);
      ghost var front := hashed;
      var i := 0;
      while i < bCount
        modifies file`bytes, file`pos
        invariant 0 <= i <= bCount
        invariant hashed == front + SizesImage(blockNotesSizes[..i])
        invariant file.bytes == hashed && file.pos == |hashed|
      {
        SizesImageStep(blockNotesSizes, i);
        WrittenAtEnd(0, file.bytes, ToLE(blockNotesSizes[i], 4));
        file.Write(ToLE(blockNotesSizes[i], 4));
        hashed := hashed + ToLE(blockNotesSizes[i], 4);
        i := i + 1;
      }
      assert blockNotesSizes[..bCount] == blockNotesSizes;
      WrittenAtEnd(0, file.bytes, hash(hashed));
      file.Write(hash(hashed));
      return true;
    }

    /** The offsets are the sums of the sizes before. */
    method CalcHeaderSizeAndOffsets()
      modifies `totalHeaderSize, `blockNotesOffsets
      ensures totalHeaderSize == HeaderSize(|blockNotesSizes|)
      ensures |blockNotesOffsets| == |blockNotesSizes|
      ensures forall j | 0 <= j < |blockNotesSizes| :: blockNotesOffsets[j] == Offset(blockNotesSizes, j)
    {
      totalHeaderSize := 4 + |blockNotesSizes| * 4 + HASH_SIZE + FIXED_HEADER_SIZE;
      blockNotesOffsets := [];
      if |blockNotesSizes| > 0 { blockNotesOffsets := [0]; }
      var i := 1;
      while i < |blockNotesSizes|
        modifies `blockNotesOffsets
        invariant 1 <= i && (|blockNotesSizes| > 0 ==> i <= |blockNotesSizes| && |blockNotesOffsets| == i)
        invariant |blockNotesSizes| == 0 ==> blockNotesOffsets == []
        invariant forall j | 0 <= j < |blockNotesOffsets| :: blockNotesOffsets[j] == Offset(blockNotesSizes, j)
      {
        SumStep(blockNotesSizes, i - 1);
        blockNotesOffsets := blockNotesOffsets + [blockNotesOffsets[i - 1] + blockNotesSizes[i - 1]];
        i := i + 1;
      }
    }
  }

  lemma {:induction false} ReadOfNote(h: seq<byte>, sizes: seq<nat>, s: Contents, f: seq<byte>, i: nat, j: nat)
    requires Represents(0, h, Sum(sizes), s, f) && i < |s.blocks| && j < |sizes|
    ensures var r := ReadFrom(f, |h| + Span(i, Sum(sizes)) + Offset(sizes, j), sizes[j]);
            && (|r| == sizes[j] ==> r == Note(sizes, s.blocks[i], j))
            && (s.lack == 0 ==> |r| == sizes[j])
  {
    SumStep(sizes, j);
    var size, off, n := Sum(sizes), Offset(sizes, j), sizes[j];
    ReadOfBlock(0, h, size, s, f, i, off, n);
    assert Note(sizes, s.blocks[i], j) == s.blocks[i][off..off + n];
  }

  lemma {:induction false} OpenedIsRepresented(hash: Hash, sizes: seq<nat>, f: seq<byte>) returns (s: Contents)
    requires Openable(hash, f) && ParseHeader(hash, f) == Some(sizes)
    requires (|f| - HeaderSize(|sizes|)) % Sum(sizes) == 0
    ensures Opened(hash, f) == Some((sizes, s)) && Represents(0, Header(hash, sizes), Sum(sizes), s, f)
    ensures |s.blocks| == (|f| - HeaderSize(|sizes|)) / Sum(sizes)
    ensures 0 < |sizes| && forall i | 0 <= i < |sizes| :: sizes[i] < U32
  {
    ParsedHeaderIsHeader(hash, f);
    var size, body := Sum(sizes), f[HeaderSize(|sizes|)..];
    s := Store(Chunks(body, size), 0);
    BodyLength(s.blocks, size);
    ModMultiple(|s.blocks|, size);
    assert f == f[..HeaderSize(|sizes|)] + body;
    assert f + Copies(0, 0) == f;
  }

  lemma {:induction false} OneMoreSize(f: seq<byte>, i: nat)
    requires 12 + 4 * i + 4 <= |f|
    ensures SizesFrom(f[12..12 + 4 * (i + 1)]) == SizesFrom(f[12..12 + 4 * i]) + [FromLE(f[12 + 4 * i..12 + 4 * i + 4])]
    ensures f[..12 + 4 * (i + 1)] == f[..12 + 4 * i] + f[12 + 4 * i..12 + 4 * i + 4]
  {
    SizesFromSplit(f[12..12 + 4 * i], f[12 + 4 * i..12 + 4 * i + 4]);
    assert f[12..12 + 4 * (i + 1)] == f[12..12 + 4 * i] + f[12 + 4 * i..12 + 4 * i + 4];
  }

  lemma {:induction false} SizesFromSplit(a: seq<byte>, b: seq<byte>)
    requires |a| % 4 == 0 && |b| == 4
    ensures SizesFrom(a + b) == SizesFrom(a) + [FromLE(b)]
    decreases |a|
  {
    if a == [] {
      assert a + b == b && b[..4] == b && b[4..] == [];
    } else {
      assert (a + b)[..4] == a[..4] && (a + b)[4..] == a[4..] + b;
      SizesFromSplit(a[4..], b);
    }
  }

  lemma {:induction false} SizesImageStep(sizes: seq<nat>, i: nat)
    requires i < |sizes|
    ensures SizesImage(sizes[..i + 1]) == SizesImage(sizes[..i]) + ToLE(sizes[i], 4)
  {
    assert sizes[..i + 1] == sizes[..i] + [sizes[i]];
    SizesImageSplit(sizes[..i], sizes[i]);
  }

  lemma {:induction false} SizesImageSplit(a: seq<nat>, n: nat)
    ensures SizesImage(a + [n]) == SizesImage(a) + ToLE(n, 4)
    decreases |a|
  {
    if a == [] {
      assert a + [n] == [n];
    } else {
      assert (a + [n])[1..] == a[1..] + [n];
      SizesImageSplit(a[1..], n);
    }
  }
}
