/** The chained-block file (DBDriverChainedBlocks): a short header, then blocks of any length, each behind its
    length. The offsets kept in memory while writing are the ones a scan of the file finds. */
module ChainedBlocks {
  import opened Common
  import opened Blocks
  import opened Files

  /** "ARpcDBCB" */
  const FIXED_HEADER: seq<byte> := [65, 82, 112, 99, 68, 66, 67, 66]
  const FIXED_HEADER_SIZE: nat := 8

  // ----- the file image

  function Link(payload: seq<byte>): (b: seq<byte>)
    ensures |b| == 4 + |payload|
  {
    ToLE(|payload|, 4) + payload
  }

  function Links(payloads: seq<seq<byte>>): (b: seq<byte>) {
    if payloads == [] then [] else Link(payloads[0]) + Links(payloads[1..])
  }

  /** The payloads, and how many bytes of the last one the file is short of. */
  datatype Chain = Chain(payloads: seq<seq<byte>>, lack: nat)

  ghost predicate Sound(c: Chain) {
    && (forall i | 0 <= i < |c.payloads| :: |c.payloads[i]| < U32)
    && c.lack <= if c.payloads == [] then 0 else |c.payloads[|c.payloads| - 1]|
  }

  /** `f` from `at` on is the chain, but for the missing bytes, which count as zeros. */
  ghost predicate Holds(f: seq<byte>, at: nat, c: Chain) {
    at <= |f| && f[at..] + Copies(0, c.lack) == Links(c.payloads)
  }

  /** Where payload `i` starts. */
  function Start(payloads: seq<seq<byte>>, i: nat): nat
    requires i <= |payloads|
  {
    FIXED_HEADER_SIZE + |Links(payloads[..i])| + 4
  }

  lemma {:induction false} LinksSplit(a: seq<seq<byte>>, b: seq<seq<byte>>)
    ensures Links(a + b) == Links(a) + Links(b)
    decreases |a|
  {
    if a == [] {
      assert a + b == b;
    } else {
      assert (a + b)[1..] == a[1..] + b;
      LinksSplit(a[1..], b);
    }
  }

  lemma {:induction false} LinksOfOne(p: seq<byte>)
    ensures Links([p]) == Link(p)
  {
    assert [p][1..] == [];
  }

  lemma {:induction false} LinksAppend(ps: seq<seq<byte>>, p: seq<byte>)
    ensures Links(ps + [p]) == Links(ps) + Link(p)
  {
    LinksSplit(ps, [p]);
    LinksOfOne(p);
  }

  // ----- scanning

  /** `n` bytes of the file, zeros behind its end. */
  function Padded(f: seq<byte>, at: nat, n: nat): (p: seq<byte>)
    ensures |p| == n
  {
    seq(n, k requires 0 <= k => if at + k < |f| then f[at + k] else 0)
  }

  /** What the scan of `open` makes of the file from `at` on; None when it ends inside a length. A length that
      points behind the end of the file is taken as it is. */
  function Scan(f: seq<byte>, at: nat): Option<Chain>
    decreases |f| - at
  {
    if at >= |f| then Some(Chain([], at - |f|))
    else if at + 4 > |f| then None
    else
      var n := FromLE(f[at..at + 4]);
      Before([Padded(f, at + 4, n)], Scan(f, at + 4 + n))
  }

  function Before(done: seq<seq<byte>>, rest: Option<Chain>): Option<Chain> {
    if rest.None? then None else Some(Chain(done + rest.value.payloads, rest.value.lack))
  }

  /** The scan finds exactly the chain that is there. */
  lemma {:induction false} ScanIffHolds(f: seq<byte>, at: nat, c: Chain)
    requires at <= |f|
    ensures Scan(f, at) == Some(c) <==> Sound(c) && Holds(f, at, c)
  {
    if Scan(f, at) == Some(c) {
      ScannedHolds(f, at);
    }
    if Sound(c) && Holds(f, at, c) {
      HeldIsScanned(f, at, c);
    }
  }

  lemma {:induction false} LastLink(f: seq<byte>, at: nat, n: nat)
    requires at + 4 <= |f| < at + 4 + n && ToLE(n, 4) == f[at..at + 4]
    ensures f[at..] + Copies(0, at + 4 + n - |f|) == Link(Padded(f, at + 4, n)) + []
  {
    assert f[at..] == f[at..at + 4] + f[at + 4..];
  }

  lemma {:induction false} LinkInside(f: seq<byte>, at: nat, n: nat, lack: nat)
    requires at + 4 + n <= |f| && ToLE(n, 4) == f[at..at + 4]
    ensures f[at..] + Copies(0, lack) == Link(Padded(f, at + 4, n)) + (f[at + 4 + n..] + Copies(0, lack))
  {
    assert f[at..] == f[at..at + 4] + f[at + 4..at + 4 + n] + f[at + 4 + n..];
  }

  lemma {:induction false} ScannedHolds(f: seq<byte>, at: nat)
    requires at <= |f| && Scan(f, at).Some?
    ensures Sound(Scan(f, at).value) && Holds(f, at, Scan(f, at).value)
    decreases |f| - at
  {
    if at < |f| {
      var n := FromLE(f[at..at + 4]);
      var next := at + 4 + n;
      Widths();
      LEOfRead(f[at..at + 4]);
      var p := Padded(f, at + 4, n);
      var rest := Scan(f, next).value;
      assert Scan(f, at).value == Chain([p] + rest.payloads, rest.lack);
      assert ([p] + rest.payloads)[1..] == rest.payloads;
      if next <= |f| {
        ScannedHolds(f, next);
        LinkInside(f, at, n, rest.lack);
        SoundBefore(p, rest);
      } else {
        assert rest == Chain([], next - |f|);
        LastLink(f, at, n);
      }
    } else {
      assert f[at..] + Copies(0, 0) == [];
    }
  }

  lemma {:induction false} SoundBefore(p: seq<byte>, rest: Chain)
    requires |p| < U32 && Sound(rest)
    ensures Sound(Chain([p] + rest.payloads, rest.lack))
  {
    var all := [p] + rest.payloads;
    if rest.payloads != [] {
      assert all[|all| - 1] == rest.payloads[|rest.payloads| - 1];
    }
  }

  lemma {:induction false} HeldIsScanned(f: seq<byte>, at: nat, c: Chain)
    requires at <= |f| && Sound(c) && Holds(f, at, c)
    ensures Scan(f, at) == Some(c)
    decreases |c.payloads|
  {
    if c.payloads == [] {
      assert |f[at..] + Copies(0, c.lack)| == 0;
    } else {
      var p, rest := c.payloads[0], Chain(c.payloads[1..], if |c.payloads| == 1 then 0 else c.lack);
      assert c.payloads == [p] + rest.payloads;
      var next := at + 4 + |p|;
      FirstLink(f, at, c);
      if |c.payloads| == 1 {
        assert rest.payloads == [];
        assert Links(c.payloads) == Link(p) + [];
        assert |f| - at + c.lack == 4 + |p|;
        assert Scan(f, next) == Some(Chain([], c.lack));
      } else {
        assert rest.payloads[|rest.payloads| - 1] == c.payloads[|c.payloads| - 1];
        LastLinkLength(rest.payloads);
        RestHolds(f, at, c);
        HeldIsScanned(f, next, rest);
      }
      assert Scan(f, at) == Before([p], Scan(f, next));
    }
  }

  /** The first length and payload are read back. */
  lemma {:induction false} FirstLink(f: seq<byte>, at: nat, c: Chain)
    requires at <= |f| && Sound(c) && Holds(f, at, c) && c.payloads != []
    ensures at + 4 <= |f| && FromLE(f[at..at + 4]) == |c.payloads[0]|
    ensures Padded(f, at + 4, |c.payloads[0]|) == c.payloads[0]
  {
    var p, all := c.payloads[0], Links(c.payloads);
    var tail := Links(c.payloads[1..]);
    if |c.payloads| > 1 {
      assert c.payloads[1..][|c.payloads| - 2] == c.payloads[|c.payloads| - 1];
      LastLinkLength(c.payloads[1..]);
    }
    assert |all| == |f| - at + c.lack && |all| == 4 + |p| + |tail|;
    Widths();
    LERoundTrip(|p|, 4);
    FrontOfLinks(f, at, c.lack, ToLE(|p|, 4), p, tail);
  }

  lemma {:induction false} FrontOfLinks(f: seq<byte>, at: nat, lack: nat, a: seq<byte>, p: seq<byte>, tail: seq<byte>)
    requires at + |a| <= |f| && f[at..] + Copies(0, lack) == a + p + tail
    ensures f[at..at + |a|] == a && Padded(f, at + |a|, |p|) == p
  {
    var v := a + p + tail;
    forall k | 0 <= k < |p| ensures Padded(f, at + |a|, |p|)[k] == p[k] {
      assert v[|a| + k] == p[k];
      assert v[|a| + k] == (f[at..] + Copies(0, lack))[|a| + k];
    }
    assert f[at..at + |a|] == (f[at..] + Copies(0, lack))[..|a|] == a;
  }

  lemma {:induction false} LastLinkLength(payloads: seq<seq<byte>>)
    requires payloads != []
    ensures |Links(payloads)| >= 4 + |payloads[|payloads| - 1]|
    decreases |payloads|
  {
    if |payloads| > 1 {
      assert payloads[1..][|payloads| - 2] == payloads[|payloads| - 1];
      LastLinkLength(payloads[1..]);
    }
  }

  lemma {:induction false} RestHolds(f: seq<byte>, at: nat, c: Chain)
    requires at <= |f| && Holds(f, at, c) && c.payloads != []
    requires at + 4 + |c.payloads[0]| <= |f|
    ensures Holds(f, at + 4 + |c.payloads[0]|, Chain(c.payloads[1..], c.lack))
  {
    var n := 4 + |c.payloads[0]|;
    DropFront(f, at, n, c.lack, Link(c.payloads[0]), Links(c.payloads[1..]));
  }

  lemma {:induction false} DropFront(f: seq<byte>, at: nat, n: nat, lack: nat, a: seq<byte>, b: seq<byte>)
    requires |a| == n && at + n <= |f| && f[at..] + Copies(0, lack) == a + b
    ensures f[at + n..] + Copies(0, lack) == b
  {
    assert b == (a + b)[n..];
    assert f[at + n..] + Copies(0, lack) == (f[at..] + Copies(0, lack))[n..];
  }

  /** Of a chain written block by block nothing is missing, and the scan finds each block again, empty ones too. */
  lemma {:induction false} WrittenChainIsScanned(payloads: seq<seq<byte>>)
    requires forall i | 0 <= i < |payloads| :: |payloads[i]| < U32
    ensures Scan(FIXED_HEADER + Links(payloads), FIXED_HEADER_SIZE) == Some(Chain(payloads, 0))
  {
    var f := FIXED_HEADER + Links(payloads);
    assert f[8..] + Copies(0, 0) == Links(payloads);
    ScanIffHolds(f, 8, Chain(payloads, 0));
  }

  /** Where payload `i` lies in the file. */
  lemma {:induction false} PayloadAt(f: seq<byte>, c: Chain, i: nat)
    requires FIXED_HEADER_SIZE <= |f| && Sound(c) && Holds(f, FIXED_HEADER_SIZE, c) && i < |c.payloads|
    ensures var n, r := |c.payloads[i]|, ReadFrom(f, Start(c.payloads, i), |c.payloads[i]|);
            && (|r| == n ==> r == c.payloads[i])
            && (|r| == n <==> i < |c.payloads| - 1 || c.lack == 0)
  {
    var p := c.payloads[i];
    var a, z := Links(c.payloads[..i]), Links(c.payloads[i + 1..]);
    LinksAround(c.payloads, i);
    assert f[FIXED_HEADER_SIZE..] + Copies(0, c.lack) == a + (ToLE(|p|, 4) + p + z);
    ReadInside(f, FIXED_HEADER_SIZE, c.lack, a, ToLE(|p|, 4), p, z);
    LackReaches(c, i, |z|);
  }

  lemma {:induction false} LackReaches(c: Chain, i: nat, behind: nat)
    requires Sound(c) && i < |c.payloads|
    requires if i < |c.payloads| - 1 then behind >= 4 + |c.payloads[|c.payloads| - 1]| else behind == 0
    ensures c.lack <= behind || |c.payloads[i]| == 0 <==> i < |c.payloads| - 1 || c.lack == 0
  {
  }

  lemma {:induction false} LinksAround(ps: seq<seq<byte>>, i: nat)
    requires i < |ps|
    ensures Links(ps) == Links(ps[..i]) + (ToLE(|ps[i]|, 4) + ps[i] + Links(ps[i + 1..]))
    ensures |Links(ps[i + 1..])| >= if i < |ps| - 1 then 4 + |ps[|ps| - 1]| else 0
    ensures i == |ps| - 1 ==> Links(ps[i + 1..]) == []
  {
    TakeDrop(ps, i);
    LinksSplit(ps[..i], ps[i..]);
    assert ps[i..][0] == ps[i] && ps[i..][1..] == ps[i + 1..];
    if i < |ps| - 1 {
      assert ps[i + 1..][|ps| - i - 2] == ps[|ps| - 1];
      LastLinkLength(ps[i + 1..]);
    }
  }

  lemma {:induction false} ReadInside(f: seq<byte>, at: nat, lack: nat, a: seq<byte>, b: seq<byte>, p: seq<byte>,
      z: seq<byte>)
    requires at <= |f| && f[at..] + Copies(0, lack) == a + (b + p + z)
    ensures var r := ReadFrom(f, at + |a| + |b|, |p|);
            (|r| == |p| ==> r == p) && (|r| == |p| <==> lack <= |z| || |p| == 0)
  {
    var v, j := a + (b + p + z), |a| + |b|;
    assert v[j..j + |p|] == p;
    assert |f| - at + lack == |v|;
    if at + j + |p| <= |f| {
      assert f[at + j..at + j + |p|] == (f[at..] + Copies(0, lack))[j..j + |p|];
    }
  }

  /** A link written behind the last one completes the file. */
  lemma {:induction false} LinkAppended(f: seq<byte>, c: Chain, data: seq<byte>)
    requires FIXED_HEADER_SIZE <= |f| && Holds(f, FIXED_HEADER_SIZE, c)
    requires Sound(c) && |data| < U32
    ensures Sound(Chain(c.payloads + [data], 0))
    ensures var at := FIXED_HEADER_SIZE + |Links(c.payloads)|;
            var w := Written(0, Written(0, f, at, ToLE(|data|, 4)), at + 4, data);
            FIXED_HEADER_SIZE <= |w| && w[..FIXED_HEADER_SIZE] == f[..FIXED_HEADER_SIZE]
            && Holds(w, FIXED_HEADER_SIZE, Chain(c.payloads + [data], 0))
  {
    var all := Links(c.payloads);
    LinksAppend(c.payloads, data);
    assert |f| + c.lack == FIXED_HEADER_SIZE + |all|;
    WrittenBehindZeros(f, FIXED_HEADER_SIZE, c.lack, all, Link(data));
    WrittenTwice(f, FIXED_HEADER_SIZE + |all|, ToLE(|data|, 4), data);
    var w := Written(0, f, FIXED_HEADER_SIZE + |all|, Link(data));
    assert w[FIXED_HEADER_SIZE..] + Copies(0, 0) == w[FIXED_HEADER_SIZE..];
  }

  lemma {:induction false} WrittenBehindZeros(f: seq<byte>, at: nat, lack: nat, all: seq<byte>, data: seq<byte>)
    requires at <= |f| && f[at..] + Copies(0, lack) == all && data != []
    ensures var w := Written(0, f, at + |all|, data);
            |w| >= at && w[..at] == f[..at] && w[at..] == all + data
  {
    var w := Written(0, f, at + |all|, data);
    forall k | 0 <= k < |all| ensures w[at + k] == all[k] {
      assert all[k] == (f[at..] + Copies(0, lack))[k];
    }
  }

  /** A length and a payload written one after the other are one link. */
  lemma {:induction false} WrittenTwice(f: seq<byte>, at: nat, a: seq<byte>, b: seq<byte>)
    requires |f| <= at && a != []
    ensures Written(0, Written(0, f, at, a), at + |a|, b) == Written(0, f, at, a + b)
  {
  }

  /** What the driver keeps in memory is what the file holds. */
  ghost predicate Tracks(f: seq<byte>, c: Chain, totalOffset: nat, offsets: seq<nat>, sizes: seq<nat>) {
    && FIXED_HEADER_SIZE <= |f| && f[..FIXED_HEADER_SIZE] == FIXED_HEADER
    && Sound(c) && Holds(f, FIXED_HEADER_SIZE, c)
    && totalOffset == FIXED_HEADER_SIZE + |Links(c.payloads)|
    && Indexes(c.payloads, offsets, sizes)
  }

  lemma {:induction false} ScannedIsTracked(f: seq<byte>, c: Chain)
    requires FIXED_HEADER_SIZE <= |f| && f[..FIXED_HEADER_SIZE] == FIXED_HEADER && Scan(f, FIXED_HEADER_SIZE) == Some(c)
    ensures Tracks(f, c, FIXED_HEADER_SIZE + |Links(c.payloads)|, Starts(c.payloads), Sizes(c.payloads))
  {
    ScanIffHolds(f, FIXED_HEADER_SIZE, c);
  }

  lemma {:induction false} LinkIsTracked(f: seq<byte>, c: Chain, totalOffset: nat, offsets: seq<nat>, sizes: seq<nat>,
      data: seq<byte>)
    requires Tracks(f, c, totalOffset, offsets, sizes) && |data| < U32
    ensures var w := Written(0, Written(0, f, totalOffset, ToLE(|data|, 4)), totalOffset + 4, data);
            Tracks(w, Chain(c.payloads + [data], 0), totalOffset + 4 + |data|, offsets + [totalOffset + 4],
              sizes + [|data|])
  {
    LinkAppended(f, c, data);
    LinksAppend(c.payloads, data);
    IndexesAppend(c.payloads, data);
  }

  lemma {:induction false} TrackedSizes(f: seq<byte>, c: Chain, totalOffset: nat, offsets: seq<nat>, sizes: seq<nat>)
    requires Tracks(f, c, totalOffset, offsets, sizes)
    ensures |sizes| == |c.payloads|
  {
  }

  lemma {:induction false} HeaderIsTracked()
    ensures Tracks(FIXED_HEADER, Chain([], 0), FIXED_HEADER_SIZE, [], [])
  {
    assert FIXED_HEADER[8..] + Copies(0, 0) == [];
  }

  class DBDriverChainedBlocks {
    const file: QFile
    var isOpened: bool
    var fileIsOpen: bool
    var blockOffsets: seq<nat>
    var blockSizes: seq<nat>
    var totalOffset: nat
    ghost var chain: Chain

    /** The offsets and sizes in memory are those of the blocks in the file. A failed `Open` leaves the file open. */
    ghost predicate Valid()
      reads this, file
    {
      && (isOpened ==> fileIsOpen && Tracks(file.bytes, chain, totalOffset, blockOffsets, blockSizes))
      && (if fileIsOpen then file.exists_ else blockOffsets == [] && blockSizes == [])
    }

    constructor (file: QFile)
      ensures this.file == file && !isOpened && !fileIsOpen && Valid()
    {
      this.file := file;
      isOpened, fileIsOpen, blockOffsets, blockSizes, totalOffset := false, false, [], [], 0;
      chain := Chain([], 0);
    }

    method Create() returns (ok: bool)
      requires Valid()
      modifies this, file
      ensures Valid()
      ensures ok == (!old(isOpened) && !old(file.exists_))
      ensures ok ==> isOpened && chain == Chain([], 0)
      ensures !ok ==> unchanged(this, file)
    {
      if isOpened || file.exists_ { return false; }
      file.OpenReadWrite();
      fileIsOpen := true;
      WrittenAtEnd(0, [], FIXED_HEADER);
      file.Write(FIXED_HEADER);
      HeaderIsTracked();
      totalOffset := FIXED_HEADER_SIZE;
      isOpened := true;
      chain := Chain([], 0);
      return true;
    }

    /** Accepts exactly the files that `Scan` accepts. A failed call leaves the file open, so that no later one on the
        same object succeeds. */
    method Open() returns (ok: bool)
      requires Valid()
      modifies this, file
      ensures Valid() && fileIsOpen
      ensures ok == (!old(fileIsOpen) && old(file.exists_) && |old(file.bytes)| >= 8
                && old(file.bytes)[..8] == FIXED_HEADER
                     && Scan(old(file.bytes), FIXED_HEADER_SIZE).Some?)
      ensures ok ==> isOpened && file.bytes == old(file.bytes) && Scan(file.bytes, FIXED_HEADER_SIZE) == Some(chain)
      ensures !ok ==> isOpened == old(isOpened) && file.bytes == if old(file.exists_) then old(file.bytes) else []
      ensures old(fileIsOpen) ==> unchanged(this, file)
    {
      if isOpened || fileIsOpen { return false; }
      file.OpenReadWrite();
      fileIsOpen := true;
      ok := ReadHeaderAndBlockOffsets();
      if !ok { return; }
      isOpened := true;
      ScannedIsTracked(file.bytes, chain);
    }

    method Close()
      requires Valid()
      modifies this
      ensures Valid() && !isOpened && fileIsOpen == (old(fileIsOpen) && !old(isOpened))
      ensures !old(isOpened) ==> unchanged(this)
    {
      if !isOpened { return; }
      isOpened, fileIsOpen, blockOffsets, blockSizes, totalOffset := false, false, [], [], 0;
    }

    method WriteBlock(data: seq<byte>) returns (ok: bool)
      requires Valid() && |data| < U32
      modifies `blockOffsets, `blockSizes, `totalOffset, `chain, file`bytes, file`pos
      ensures Valid()
      ensures ok == isOpened
      ensures ok ==> chain == Chain(old(chain).payloads + [data], 0) && |blockSizes| == |chain.payloads|
      ensures !ok ==> file.bytes == old(file.bytes)
    {
      if !isOpened { return false; }
      var size := |data|;
      file.Seek(totalOffset);
      WriteLink(size, data);
      totalOffset := totalOffset + 4;
      blockSizes := blockSizes + [size];
      blockOffsets := blockOffsets + [totalOffset];
      totalOffset := totalOffset + size;
      chain := Chain(chain.payloads + [data], 0);
      TrackedSizes(file.bytes, chain, totalOffset, blockOffsets, blockSizes);
      return true;
    }

    method WriteLink(size: nat, data: seq<byte>)
      requires Tracks(file.bytes, chain, totalOffset, blockOffsets, blockSizes) && size == |data| < U32
               && file.pos == totalOffset
      modifies file`bytes, file`pos
      ensures Tracks(file.bytes, Chain(chain.payloads + [data], 0), totalOffset + 4 + size,
                     blockOffsets + [totalOffset + 4], blockSizes + [size])
    {
      LinkIsTracked(file.bytes, chain, totalOffset, blockOffsets, blockSizes, data);
      file.Write(ToLE(size, 4));
      file.Write(data);
    }

    /** Block `i` is the `i`-th payload; only the last one of a truncated file cannot be read. */
    method ReadBlock(blockIndex: nat) returns (ok: bool, data: seq<byte>)
      requires Valid() && (!isOpened ==> blockSizes == [])
      modifies file`pos
      ensures Valid()
      ensures ok == (isOpened && blockIndex < |chain.payloads|
                && (blockIndex < |chain.payloads| - 1 || chain.lack == 0))
      ensures ok ==> data == chain.payloads[blockIndex]
    {
      if blockIndex >= |blockSizes| { return false, []; }
      PayloadAt(file.bytes, chain, blockIndex);
      file.Seek(blockOffsets[blockIndex]);
      data := file.Read(blockSizes[blockIndex]);
      return |data| == blockSizes[blockIndex], data;
    }

    /** One turn of the scan: the length at the position, and where its payload starts. */
    method ReadLink() returns (ok: bool)
      requires file.pos == totalOffset < |file.bytes|
      modifies `blockOffsets, `blockSizes, `totalOffset, file`pos
      ensures ok == (old(totalOffset) + 4 <= |file.bytes|)
      ensures ok ==>
        var bs := FromLE(file.bytes[old(totalOffset)..old(totalOffset) + 4]);
        && file.pos == totalOffset == old(totalOffset) + 4 + bs
        && blockOffsets == old(blockOffsets) + [old(totalOffset) + 4]
        && blockSizes == old(blockSizes) + [bs]
    {
      var number := file.Read(4);
      if |number| != 4 { return false; }
      var bs := FromLE(number);
      totalOffset := totalOffset + 4;
      blockOffsets := blockOffsets + [totalOffset];
      blockSizes := blockSizes + [bs];
      totalOffset := totalOffset + bs;
      file.Seek(totalOffset);
      return true;
    }

    method ReadHeaderAndBlockOffsets() returns (ok: bool)
      requires blockOffsets == [] && blockSizes == []
      modifies `blockOffsets, `blockSizes, `totalOffset, `chain, file`pos
      ensures ok == (|file.bytes| >= 8 && file.bytes[..8] == FIXED_HEADER && Scan(file.bytes, FIXED_HEADER_SIZE).Some?)
      ensures ok ==> && Scan(file.bytes, FIXED_HEADER_SIZE) == Some(chain)
                     && totalOffset == FIXED_HEADER_SIZE + |Links(chain.payloads)|
                     && blockOffsets == Starts(chain.payloads) && blockSizes == Sizes(chain.payloads)
    {
      file.Seek(0);
      var fHdr := file.Read(FIXED_HEADER_SIZE);
      if fHdr != FIXED_HEADER { return false; }
      totalOffset := FIXED_HEADER_SIZE;
      ok := ReadLinks();
    }

    method ReadLinks() returns (ok: bool)
      requires file.pos == totalOffset == FIXED_HEADER_SIZE <= |file.bytes| && blockOffsets == [] && blockSizes == []
      modifies `blockOffsets, `blockSizes, `totalOffset, `chain, file`pos
      ensures ok == Scan(file.bytes, FIXED_HEADER_SIZE).Some?
      ensures ok ==> && Scan(file.bytes, FIXED_HEADER_SIZE) == Some(chain)
                     && totalOffset == FIXED_HEADER_SIZE + |Links(chain.payloads)|
                     && blockOffsets == Starts(chain.payloads) && blockSizes == Sizes(chain.payloads)
    {
      ghost var f, done := file.bytes, [];
      BeforeNothing(Scan(f, totalOffset));
      while file.pos < |file.bytes|
        modifies `blockOffsets, `blockSizes, `totalOffset, file`pos
        invariant file.pos == totalOffset && Scanned(f, totalOffset, done, blockOffsets, blockSizes)
        decreases |file.bytes| - file.pos
      {
        ScanStep(f, totalOffset, done, blockOffsets, blockSizes);
        ghost var n := if totalOffset + 4 <= |f| then FromLE(f[totalOffset..totalOffset + 4]) else 0;
        done := done + [Padded(f, totalOffset + 4, n)];
        ok := ReadLink();
        if !ok { return; }
      }
      ScanEnds(f, totalOffset, done, blockOffsets, blockSizes);
      chain := Scan(f, FIXED_HEADER_SIZE).value;
      return true;
    }
  }

  lemma {:induction false} ScanEnds(f: seq<byte>, at: nat, done: seq<seq<byte>>, starts: seq<nat>, sizes: seq<nat>)
    requires at >= |f| && Scanned(f, at, done, starts, sizes)
    ensures Scan(f, FIXED_HEADER_SIZE).Some?
    ensures var c := Scan(f, FIXED_HEADER_SIZE).value;
            at == FIXED_HEADER_SIZE + |Links(c.payloads)| && starts == Starts(c.payloads) && sizes == Sizes(c.payloads)
  {
    assert done + [] == done;
  }

  /** The scan has come to `at`, with these blocks and vectors. */
  ghost predicate Scanned(f: seq<byte>, at: nat, done: seq<seq<byte>>, starts: seq<nat>, sizes: seq<nat>) {
    ScannedTo(Scan(f, FIXED_HEADER_SIZE), Scan(f, at), at, done, starts, sizes)
  }

  ghost predicate ScannedTo(whole: Option<Chain>, rest: Option<Chain>, at: nat, done: seq<seq<byte>>, starts: seq<nat>,
      sizes: seq<nat>) {
    && at == FIXED_HEADER_SIZE + |Links(done)|
    && whole == Before(done, rest)
    && Indexes(done, starts, sizes)
  }

  lemma {:induction false} BeforeNothing(rest: Option<Chain>)
    ensures Before([], rest) == rest
  {
    if rest.Some? { assert [] + rest.value.payloads == rest.value.payloads; }
  }

  lemma {:induction false} ScanStep(f: seq<byte>, at: nat, done: seq<seq<byte>>, starts: seq<nat>, sizes: seq<nat>)
    requires at < |f| && Scanned(f, at, done, starts, sizes)
    ensures at + 4 > |f| ==> Scan(f, FIXED_HEADER_SIZE) == None
    ensures at + 4 <= |f| ==>
      var n := FromLE(f[at..at + 4]);
      Scanned(f, at + 4 + n, done + [Padded(f, at + 4, n)], starts + [at + 4], sizes + [n])
  {
    if at + 4 <= |f| {
      var n := FromLE(f[at..at + 4]);
      var p := Padded(f, at + 4, n);
      OneLink(f, at);
      NextScanned(Scan(f, FIXED_HEADER_SIZE), Scan(f, at + 4 + n), at, p, done, starts, sizes);
    }
  }

  lemma {:induction false} OneLink(f: seq<byte>, at: nat)
    requires at + 4 <= |f|
    ensures var n := FromLE(f[at..at + 4]);
            Scan(f, at) == Before([Padded(f, at + 4, n)], Scan(f, at + 4 + n))
  {
  }

  lemma {:induction false} NextScanned(whole: Option<Chain>, rest: Option<Chain>, at: nat, p: seq<byte>,
      done: seq<seq<byte>>, starts: seq<nat>, sizes: seq<nat>)
    requires ScannedTo(whole, Before([p], rest), at, done, starts, sizes)
    ensures ScannedTo(whole, rest, at + 4 + |p|, done + [p], starts + [at + 4], sizes + [|p|])
  {
    IndexesAppend(done, p);
    LinksAppend(done, p);
    BeforeTwice(done, p, rest);
  }

  lemma {:induction false} BeforeTwice(done: seq<seq<byte>>, p: seq<byte>, rest: Option<Chain>)
    ensures Before(done, Before([p], rest)) == Before(done + [p], rest)
  {
    if rest.Some? {
      assert done + ([p] + rest.value.payloads) == done + [p] + rest.value.payloads;
    }
  }

  function Starts(payloads: seq<seq<byte>>): (r: seq<nat>)
    ensures |r| == |payloads| && forall i | 0 <= i < |r| :: r[i] == Start(payloads, i)
  {
    seq(|payloads|, i requires 0 <= i < |payloads| => Start(payloads, i))
  }

  function Sizes(payloads: seq<seq<byte>>): (r: seq<nat>)
    ensures |r| == |payloads| && forall i | 0 <= i < |r| :: r[i] == |payloads[i]|
  {
    seq(|payloads|, i requires 0 <= i < |payloads| => |payloads[i]|)
  }

  ghost predicate Indexes(payloads: seq<seq<byte>>, offsets: seq<nat>, sizes: seq<nat>) {
    offsets == Starts(payloads) && sizes == Sizes(payloads)
  }

  lemma {:induction false} IndexesAppend(payloads: seq<seq<byte>>, p: seq<byte>)
    ensures Starts(payloads + [p]) == Starts(payloads) + [FIXED_HEADER_SIZE + |Links(payloads)| + 4]
    ensures Sizes(payloads + [p]) == Sizes(payloads) + [|p|]
  {
    forall i | 0 <= i <= |payloads| ensures (payloads + [p])[..i] == payloads[..i] { }
    assert payloads[..|payloads|] == payloads;
  }
}
