/** Whole runs of writes to a fixed-block file: what is on disk after `updateBlock` calls, and when a run leaves the
    blocks it should. */
module FixedBlocksRuns {
  import opened Common
  import opened Blocks
  import opened Files
  import opened FixedBlocks

  /** `disk` are the blocks whose bytes reached the file; the counted blocks behind them are missing and zero. */
  ghost predicate Whole(size: nat, s: Contents, disk: seq<seq<byte>>) {
    && |disk| <= |s.blocks| && AllOf(disk, size)
    && s.blocks == disk + ZeroBlocks(0, |s.blocks| - |disk|, size)
    && s.lack == Span(|s.blocks| - |disk|, size)
  }

  lemma {:induction false} WholeIsAll(size: nat, s: Contents, disk: seq<seq<byte>>)
    requires Whole(size, s, disk)
    ensures AllOf(s.blocks, size) && s.lack <= Span(|s.blocks|, size)
  {
    SpanAdd(|s.blocks| - |disk|, |disk|, size);
  }

  /** Reopening a whole file finds exactly the blocks on disk. */
  lemma {:induction false} WholeReopens(hash: Hash, sizes: seq<nat>, s: Contents, disk: seq<seq<byte>>, f: seq<byte>)
    requires 0 < |sizes| <= MAX_NOTES && 0 < Sum(sizes) < U32 && forall i | 0 <= i < |sizes| :: sizes[i] < U32
    requires Represents(0, Header(hash, sizes), Sum(sizes), s, f) && Whole(Sum(sizes), s, disk)
    ensures Openable(hash, f) && Opened(hash, f) == Some((sizes, Store(disk, 0)))
  {
    ReopenKeepsWhatIsOnDisk(hash, sizes, s, f);
    ModMultiple(|s.blocks| - |disk|, Sum(sizes));
    assert s.blocks[..|disk|] == disk;
  }

  // ----- runs of updates

  /** The counter lets an update pass that is behind the blocks on disk: the block is put there, with zeros between. */
  function UpdatedDisk(size: nat, disk: seq<seq<byte>>, i: nat, data: seq<byte>): (r: seq<seq<byte>>) {
    if i < |disk| then disk[i := data] else disk + ZeroBlocks(0, i - |disk|, size) + [data]
  }

  lemma {:induction false} UpdateIsWhole(sizes: seq<nat>, s: Contents, disk: seq<seq<byte>>, i: nat, data: seq<byte>)
    requires Whole(Sum(sizes), s, disk) && i < |s.blocks| && |data| == Sum(sizes)
    ensures AllOf(s.blocks, Sum(sizes))
    ensures Whole(Sum(sizes), Step(sizes, s, UpdateBlock(i, data)), UpdatedDisk(Sum(sizes), disk, i, data))
  {
    var size, m, n := Sum(sizes), |s.blocks|, |disk|;
    var r, d := Step(sizes, s, UpdateBlock(i, data)), UpdatedDisk(size, disk, i, data);
    WholeIsAll(size, s, disk);
    assert Splice(s.blocks[i], 0, data) == data;
    assert r.blocks == s.blocks[i := data] + [Copies(0, size)];
    assert r.blocks == d + ZeroBlocks(0, m + 1 - |d|, size);
    UpdatedLack(m, n, i, size);
  }

  lemma {:induction false} UpdatedLack(m: nat, n: nat, i: nat, size: nat)
    requires n <= m && i < m
    ensures Min(Span(m - n, size), Span(m - 1 - i, size)) + size
            == if i < n then Span(m + 1 - n, size) else Span(m - i, size)
    ensures size == 0 ==> Span(m - n, size) == 0 == Span(m - i, size)
  {
    if i < n { SpanAdd(m - n, n - 1 - i, size); } else { SpanAdd(m - 1 - i, i + 1 - n, size); }
    SpanIsProduct(m - n, size);
    SpanIsProduct(m - i, size);
  }

  /** Whether the driver takes the update when it counts `count` blocks. */
  predicate Taken(size: nat, count: nat, op: Op) {
    op.UpdateBlock? && |op.data| == size && op.i < count
  }

  /** What a run of updates leaves on disk. */
  function UpdatedRun(size: nat, disk: seq<seq<byte>>, count: nat, ops: seq<Op>): seq<seq<byte>>
    decreases |ops|
  {
    if ops == [] then disk
    else if Taken(size, count, ops[0]) then
      UpdatedRun(size, UpdatedDisk(size, disk, ops[0].i, ops[0].data), count + 1, ops[1..])
    else UpdatedRun(size, disk, count, ops[1..])
  }

  /** One more than the largest index of an update that is taken; 0 when none is. */
  function Reach(size: nat, count: nat, ops: seq<Op>): nat
    decreases |ops|
  {
    if ops == [] then 0
    else if Taken(size, count, ops[0]) then Max(ops[0].i + 1, Reach(size, count + 1, ops[1..]))
    else Reach(size, count, ops[1..])
  }

  ghost predicate OnlyUpdates(ops: seq<Op>) {
    forall k | 0 <= k < |ops| :: ops[k].UpdateBlock?
  }

  /** Any run of updates, of any indexes and lengths: every one taken is on disk. */
  lemma {:induction false} UpdatesAreOnDisk(sizes: seq<nat>, s: Contents, disk: seq<seq<byte>>, ops: seq<Op>)
    requires Whole(Sum(sizes), s, disk) && OnlyUpdates(ops)
    ensures AllOf(s.blocks, Sum(sizes))
    ensures Whole(Sum(sizes), Run(sizes, s, ops), UpdatedRun(Sum(sizes), disk, |s.blocks|, ops))
    decreases |ops|
  {
    WholeIsAll(Sum(sizes), s, disk);
    if ops != [] {
      assert ops[0].UpdateBlock?;
      if Taken(Sum(sizes), |s.blocks|, ops[0]) {
        UpdateIsWhole(sizes, s, disk, ops[0].i, ops[0].data);
        UpdatesAreOnDisk(sizes, Step(sizes, s, ops[0]), UpdatedDisk(Sum(sizes), disk, ops[0].i, ops[0].data), ops[1..]);
      } else {
        UpdatesAreOnDisk(sizes, s, disk, ops[1..]);
      }
    }
  }

  lemma {:induction false} UpdatedRunLength(size: nat, disk: seq<seq<byte>>, count: nat, ops: seq<Op>)
    ensures |UpdatedRun(size, disk, count, ops)| == Max(|disk|, Reach(size, count, ops))
    decreases |ops|
  {
    if ops != [] {
      if Taken(size, count, ops[0]) {
        UpdatedRunLength(size, UpdatedDisk(size, disk, ops[0].i, ops[0].data), count + 1, ops[1..]);
      } else {
        UpdatedRunLength(size, disk, count, ops[1..]);
      }
    }
  }

  /** Reopening after a run of updates finds as many blocks as there were, or as many as the largest index taken asks
      for; so the number is kept exactly when every index taken is below it. */
  lemma {:induction false} UpdatesKeepTheNumberIff(hash: Hash, sizes: seq<nat>, s: Contents, disk: seq<seq<byte>>,
      ops: seq<Op>, f: seq<byte>)
    requires 0 < |sizes| <= MAX_NOTES && 0 < Sum(sizes) < U32 && forall i | 0 <= i < |sizes| :: sizes[i] < U32
    requires Whole(Sum(sizes), s, disk) && OnlyUpdates(ops)
    requires AllOf(s.blocks, Sum(sizes)) && Represents(0, Header(hash, sizes), Sum(sizes), Run(sizes, s, ops), f)
    ensures Openable(hash, f)
    ensures Opened(hash, f) == Some((sizes, Store(UpdatedRun(Sum(sizes), disk, |s.blocks|, ops), 0)))
    ensures |Opened(hash, f).value.1.blocks| == Max(|disk|, Reach(Sum(sizes), |s.blocks|, ops))
    ensures |Opened(hash, f).value.1.blocks| == |disk| <==> Reach(Sum(sizes), |s.blocks|, ops) <= |disk|
  {
    UpdatesAreOnDisk(sizes, s, disk, ops);
    UpdatedRunLength(Sum(sizes), disk, |s.blocks|, ops);
    WholeReopens(hash, sizes, Run(sizes, s, ops), UpdatedRun(Sum(sizes), disk, |s.blocks|, ops), f);
  }

  /** The counter runs ahead, so that the update of the block behind the last one is taken after one other update. */
  lemma {:induction false} UpdateBehindTheLast(size: nat, disk: seq<seq<byte>>, data: seq<byte>, more: seq<byte>)
    requires disk != [] && |data| == |more| == size
    ensures UpdatedRun(size, disk, |disk|, [UpdateBlock(0, data), UpdateBlock(|disk|, more)])
            == disk[0 := data] + [more]
  {
    var ops := [UpdateBlock(0, data), UpdateBlock(|disk|, more)];
    assert ops[1..] == [UpdateBlock(|disk|, more)] && ops[1..][1..] == [];
    var d := disk[0 := data];
    assert UpdatedRun(size, d, |disk| + 1, ops[1..])
           == UpdatedRun(size, UpdatedDisk(size, d, |disk|, more), |disk| + 2, []);
    assert d + ZeroBlocks(0, 0, size) + [more] == d + [more];
  }

  // ----- mixed runs

  /** What a call should make of a list of blocks. */
  function PlainStep(sizes: seq<nat>, blocks: seq<seq<byte>>, op: Op): (r: seq<seq<byte>>)
    requires AllOf(blocks, Sum(sizes))
    ensures AllOf(r, Sum(sizes))
  {
    if !Accepts(sizes, Store(blocks, 0), op) then blocks
    else
      match op
      case WriteBlock(data) => blocks + [data]
      case UpdateBlock(i, data) => blocks[i := data]
      case AddBlock => blocks + [Copies(0, Sum(sizes))]
      case AddMany(n) => blocks + ZeroBlocks(0, n, Sum(sizes))
      case AddManyOf(n, data) => blocks + seq(n, _ => data)
      case WriteNote(j, data) =>
        SumStep(sizes, j);
        blocks[|blocks| - 1 := Splice(blocks[|blocks| - 1], Offset(sizes, j), data)]
  }

  function PlainRun(sizes: seq<nat>, blocks: seq<seq<byte>>, ops: seq<Op>): seq<seq<byte>>
    requires AllOf(blocks, Sum(sizes))
    decreases |ops|
  {
    if ops == [] then blocks else PlainRun(sizes, PlainStep(sizes, blocks, ops[0]), ops[1..])
  }

  /** A call that does no harm while the counter is `drift` blocks ahead: none is appended, no byte of a note is
      written, and no block behind the last one is updated. */
  predicate Harmless(sizes: seq<nat>, blocks: seq<seq<byte>>, drift: nat, op: Op) {
    drift == 0 ||
    match op
    case WriteBlock(data) => |data| != Sum(sizes)
    case UpdateBlock(i, data) => |data| != Sum(sizes) || i < |blocks| || i >= |blocks| + drift
    case AddBlock => false
    case AddMany(_) => false
    case AddManyOf(n, data) => n == 0 || |data| != Sum(sizes)
    case WriteNote(j, data) => data == [] || j >= |sizes| || |data| != sizes[j]
  }

  /** Every update taken puts the counter one block ahead. */
  function NextDrift(sizes: seq<nat>, blocks: seq<seq<byte>>, drift: nat, op: Op): nat {
    if Taken(Sum(sizes), |blocks| + drift, op) then drift + 1 else drift
  }

  /** No harmful call follows an update. */
  predicate Faithful(sizes: seq<nat>, blocks: seq<seq<byte>>, drift: nat, ops: seq<Op>)
    requires AllOf(blocks, Sum(sizes))
    decreases |ops|
  {
    ops == [] ||
    (Harmless(sizes, blocks, drift, ops[0])
     && Faithful(sizes, PlainStep(sizes, blocks, ops[0]), NextDrift(sizes, blocks, drift, ops[0]), ops[1..]))
  }

  lemma {:induction false} HarmlessStep(sizes: seq<nat>, s: Contents, blocks: seq<seq<byte>>, op: Op)
    requires Whole(Sum(sizes), s, blocks) && Harmless(sizes, blocks, |s.blocks| - |blocks|, op)
    ensures AllOf(s.blocks, Sum(sizes))
    ensures var r := Step(sizes, s, op);
            && Whole(Sum(sizes), r, PlainStep(sizes, blocks, op))
            && |r.blocks| - |PlainStep(sizes, blocks, op)| == NextDrift(sizes, blocks, |s.blocks| - |blocks|, op)
  {
    var size, drift := Sum(sizes), |s.blocks| - |blocks|;
    WholeIsAll(size, s, blocks);
    if Taken(size, |s.blocks|, op) {
      UpdateIsWhole(sizes, s, blocks, op.i, op.data);
    } else if drift == 0 {
      assert blocks + ZeroBlocks(0, 0, size) == blocks && s == Store(blocks, 0);
      CompleteStep(sizes, blocks, op);
    } else if op.WriteNote? && Accepts(sizes, s, op) {
      SumStep(sizes, op.j);
      var last := |s.blocks| - 1;
      assert Splice(s.blocks[last], Offset(sizes, op.j), []) == s.blocks[last];
      assert s.blocks[last := s.blocks[last]] == s.blocks;
      if blocks != [] {
        var end := |blocks| - 1;
        assert Splice(blocks[end], Offset(sizes, op.j), []) == blocks[end];
        assert blocks[end := blocks[end]] == blocks;
      }
    } else if op.AddManyOf? && Accepts(sizes, s, op) {
      assert blocks + seq(0, _ => op.data) == blocks;
    }
  }

  /** A call on a complete file, other than an update taken, leaves it complete with the plain result. */
  lemma {:induction false} CompleteStep(sizes: seq<nat>, blocks: seq<seq<byte>>, op: Op)
    requires AllOf(blocks, Sum(sizes)) && !Taken(Sum(sizes), |blocks|, op)
    ensures Step(sizes, Store(blocks, 0), op) == Store(PlainStep(sizes, blocks, op), 0)
    ensures Whole(Sum(sizes), Store(PlainStep(sizes, blocks, op), 0), PlainStep(sizes, blocks, op))
  {
    var p, size := PlainStep(sizes, blocks, op), Sum(sizes);
    assert p + ZeroBlocks(0, 0, size) == p;
    if Accepts(sizes, Store(blocks, 0), op) {
      if op.AddManyOf? { RepeatedShape(Store(blocks, 0), op.n, op.data); }
      if op.WriteNote? {
        SumStep(sizes, op.j);
        ThreeParts(|blocks|, |blocks| - 1, size);
      }
    }
  }

  /** More bytes are on disk than the plain blocks have. */
  ghost predicate Over(size: nat, s: Contents, blocks: seq<seq<byte>>) {
    && AllOf(s.blocks, size) && AllOf(blocks, size) && s.lack <= Span(|s.blocks|, size)
    && Span(|blocks|, size) < Span(|s.blocks|, size) - s.lack
  }

  lemma {:induction false} OverStays(sizes: seq<nat>, s: Contents, blocks: seq<seq<byte>>, op: Op)
    requires Over(Sum(sizes), s, blocks)
    ensures Over(Sum(sizes), Step(sizes, s, op), PlainStep(sizes, blocks, op))
  {
    var size, m, n := Sum(sizes), |s.blocks|, |blocks|;
    StepIsSound(sizes, s, op);
    match op
    case WriteBlock(_) =>
    case UpdateBlock(_, _) =>
    case AddBlock =>
    case AddMany(k) =>
      SpanAdd(m, k, size);
      SpanAdd(n, k, size);
    case AddManyOf(k, data) =>
      RepeatedShape(s, k, data);
      SpanAdd(m, k, size);
      SpanAdd(n, k, size);
    case WriteNote(j, _) =>
      if Accepts(sizes, s, op) { SumStep(sizes, j); }
  }

  lemma {:induction false} HarmfulStep(sizes: seq<nat>, s: Contents, blocks: seq<seq<byte>>, op: Op)
    requires Whole(Sum(sizes), s, blocks) && !Harmless(sizes, blocks, |s.blocks| - |blocks|, op) && Sum(sizes) > 0
    ensures AllOf(s.blocks, Sum(sizes))
    ensures Over(Sum(sizes), Step(sizes, s, op), PlainStep(sizes, blocks, op))
  {
    WholeIsAll(Sum(sizes), s, blocks);
    if op.UpdateBlock? {
      HarmfulUpdate(sizes, s, blocks, op.i, op.data);
    } else if op.WriteNote? {
      HarmfulNote(sizes, s, blocks, op.j, op.data);
    } else {
      HarmfulAppend(sizes, s, blocks, op);
    }
  }

  lemma {:induction false} HarmfulUpdate(sizes: seq<nat>, s: Contents, blocks: seq<seq<byte>>, i: nat, data: seq<byte>)
    requires Whole(Sum(sizes), s, blocks) && |data| == Sum(sizes) > 0 && |blocks| <= i < |s.blocks|
    ensures AllOf(s.blocks, Sum(sizes))
    ensures Over(Sum(sizes), Step(sizes, s, UpdateBlock(i, data)), blocks)
  {
    var size, m, n := Sum(sizes), |s.blocks|, |blocks|;
    WholeIsAll(size, s, blocks);
    UpdateIsWhole(sizes, s, blocks, i, data);
    WholeIsAll(size, Step(sizes, s, UpdateBlock(i, data)), UpdatedDisk(size, blocks, i, data));
    SpanAdd(i + 1, m - i, size);
    SpanAdd(n, i - n, size);
  }

  lemma {:induction false} HarmfulNote(sizes: seq<nat>, s: Contents, blocks: seq<seq<byte>>, j: nat, data: seq<byte>)
    requires Whole(Sum(sizes), s, blocks) && |blocks| < |s.blocks| && j < |sizes| && |data| == sizes[j] && data != []
    ensures AllOf(s.blocks, Sum(sizes))
    ensures Over(Sum(sizes), Step(sizes, s, WriteNote(j, data)), PlainStep(sizes, blocks, WriteNote(j, data)))
  {
    var size, m, n := Sum(sizes), |s.blocks|, |blocks|;
    WholeIsAll(size, s, blocks);
    StepIsSound(sizes, s, WriteNote(j, data));
    SumStep(sizes, j);
    SpanAdd(n, m - 1 - n, size);
    var lack := Step(sizes, s, WriteNote(j, data)).lack;
    assert Step(sizes, s, WriteNote(j, data)) == Patched(s, size, m - 1, Offset(sizes, j), data);
    assert Span(m - 1 - (m - 1), size) == 0;
    assert lack < size;
  }

  lemma {:induction false} HarmfulAppend(sizes: seq<nat>, s: Contents, blocks: seq<seq<byte>>, op: Op)
    requires Whole(Sum(sizes), s, blocks) && !Harmless(sizes, blocks, |s.blocks| - |blocks|, op) && Sum(sizes) > 0
    requires !op.UpdateBlock? && !op.WriteNote?
    ensures AllOf(s.blocks, Sum(sizes))
    ensures Over(Sum(sizes), Step(sizes, s, op), PlainStep(sizes, blocks, op))
  {
    var size, m, n := Sum(sizes), |s.blocks|, |blocks|;
    WholeIsAll(size, s, blocks);
    SpanAdd(n, m - n, size);
    SpanAdd(m - n - 1, 1, size);
    if op.AddMany? {
      SpanAdd(m, op.n, size);
      SpanAdd(n, op.n, size);
    } else if op.AddManyOf? {
      RepeatedShape(s, op.n, op.data);
      SpanAdd(m, op.n, size);
      SpanAdd(n, op.n, size);
    }
  }

  lemma {:induction false} OverRun(sizes: seq<nat>, s: Contents, blocks: seq<seq<byte>>, ops: seq<Op>)
    requires Over(Sum(sizes), s, blocks)
    ensures Over(Sum(sizes), Run(sizes, s, ops), PlainRun(sizes, blocks, ops))
    decreases |ops|
  {
    if ops != [] {
      OverStays(sizes, s, blocks, ops[0]);
      OverRun(sizes, Step(sizes, s, ops[0]), PlainStep(sizes, blocks, ops[0]), ops[1..]);
    }
  }

  lemma {:induction false} RunIsWholeOrOver(sizes: seq<nat>, s: Contents, blocks: seq<seq<byte>>, ops: seq<Op>)
    requires Whole(Sum(sizes), s, blocks) && Sum(sizes) > 0
    ensures AllOf(s.blocks, Sum(sizes))
    ensures if Faithful(sizes, blocks, |s.blocks| - |blocks|, ops)
            then Whole(Sum(sizes), Run(sizes, s, ops), PlainRun(sizes, blocks, ops))
            else Over(Sum(sizes), Run(sizes, s, ops), PlainRun(sizes, blocks, ops))
    decreases |ops|
  {
    WholeIsAll(Sum(sizes), s, blocks);
    if ops != [] {
      var t, b := Step(sizes, s, ops[0]), PlainStep(sizes, blocks, ops[0]);
      if Harmless(sizes, blocks, |s.blocks| - |blocks|, ops[0]) {
        HarmlessStep(sizes, s, blocks, ops[0]);
        RunIsWholeOrOver(sizes, t, b, ops[1..]);
      } else {
        HarmfulStep(sizes, s, blocks, ops[0]);
        OverRun(sizes, t, b, ops[1..]);
      }
    }
  }

  /** Any run of calls on a complete file: reopening gives the blocks the run should give exactly when no block is
      appended, no byte of a note written and no block behind the last one updated once an update has been taken. */
  lemma {:induction false} ReopenedAsPlainIffFaithful(hash: Hash, sizes: seq<nat>, blocks: seq<seq<byte>>, ops: seq<Op>,
      f: seq<byte>)
    requires 0 < |sizes| <= MAX_NOTES && 0 < Sum(sizes) < U32 && forall i | 0 <= i < |sizes| :: sizes[i] < U32
    requires AllOf(blocks, Sum(sizes))
             && Represents(0, Header(hash, sizes), Sum(sizes), Run(sizes, Store(blocks, 0), ops), f)
    ensures Openable(hash, f)
    ensures Opened(hash, f) == Some((sizes, Store(PlainRun(sizes, blocks, ops), 0)))
            <==> Faithful(sizes, blocks, 0, ops)
  {
    var s, size := Store(blocks, 0), Sum(sizes);
    var r, p := Run(sizes, s, ops), PlainRun(sizes, blocks, ops);
    assert blocks + ZeroBlocks(0, 0, size) == blocks;
    RunIsWholeOrOver(sizes, s, blocks, ops);
    ReopenKeepsWhatIsOnDisk(hash, sizes, r, f);
    if Faithful(sizes, blocks, 0, ops) {
      WholeReopens(hash, sizes, r, p, f);
    } else if r.lack % size == 0 {
      ExactQuotient(r.lack, size);
      SpanAdd(|r.blocks| - r.lack / size, r.lack / size, size);
    }
  }
}
