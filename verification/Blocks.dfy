/** Sequences cut into blocks of equal length, as a file of blocks sees them: what lies where, what a write at an
    offset changes, and what is left after reopening. Over any type of cell, with `z` for the zero cell. */
module Blocks {
  function Copies<T>(z: T, n: nat): (c: seq<T>)
    ensures |c| == n && forall i | 0 <= i < n :: c[i] == z
  {
    seq(n, _ => z)
  }

  function Max(a: nat, b: nat): nat {
    if a <= b then b else a
  }

  /** Cells written at `at`; a gap behind the end reads as zeros. */
  function Written<T>(z: T, f: seq<T>, at: nat, data: seq<T>): (w: seq<T>)
    ensures |w| == if data == [] then |f| else Max(|f|, at + |data|)
    ensures forall k | 0 <= k < |w| ::
              w[k] == if at <= k < at + |data| then data[k - at] else if k < |f| then f[k] else z
  {
    seq(if data == [] then |f| else Max(|f|, at + |data|),
        k requires 0 <= k => if at <= k < at + |data| then data[k - at] else if k < |f| then f[k] else z)
  }

  /** Up to `n` cells from `at`. */
  function ReadFrom<T>(f: seq<T>, at: nat, n: nat): (r: seq<T>)
    ensures |r| <= n
    ensures at + n <= |f| ==> r == f[at..at + n]
    ensures at + n > |f| && n > 0 ==> |r| < n
  {
    if at >= |f| then [] else if at + n <= |f| then f[at..at + n] else f[at..]
  }

  function Body<T>(blocks: seq<seq<T>>): seq<T> {
    if blocks == [] then [] else blocks[0] + Body(blocks[1..])
  }

  ghost predicate AllOf<T>(blocks: seq<seq<T>>, size: nat) {
    forall i | 0 <= i < |blocks| :: |blocks[i]| == size
  }

  lemma {:induction false} BodySplit<T>(a: seq<seq<T>>, b: seq<seq<T>>)
    ensures Body(a + b) == Body(a) + Body(b)
    decreases |a|
  {
    if a == [] {
      assert a + b == b;
    } else {
      assert (a + b)[1..] == a[1..] + b;
      BodySplit(a[1..], b);
    }
  }

  /** The length of `n` blocks. */
  function Span(n: nat, size: nat): nat {
    if n == 0 then 0 else Span(n - 1, size) + size
  }

  lemma {:induction false} SpanIsProduct(n: nat, size: nat)
    ensures Span(n, size) == n * size
    decreases n
  {
    if n > 0 { SpanIsProduct(n - 1, size); }
  }

  lemma {:induction false} SpanAdd(a: nat, b: nat, size: nat)
    ensures Span(a + b, size) == Span(a, size) + Span(b, size)
    decreases b
  {
    if b > 0 { SpanAdd(a, b - 1, size); }
  }

  lemma {:induction false} BodyLength<T>(blocks: seq<seq<T>>, size: nat)
    requires AllOf(blocks, size)
    ensures |Body(blocks)| == Span(|blocks|, size)
    decreases |blocks|
  {
    if blocks != [] {
      BodyLength(blocks[1..], size);
    }
  }

  /** Where block `i` lies, and what lies before and after it. */
  lemma {:induction false} BodyAt<T>(blocks: seq<seq<T>>, size: nat, i: nat)
    requires AllOf(blocks, size) && i < |blocks|
    ensures |Body(blocks[..i])| == Span(i, size) && Span(i + 1, size) <= |Body(blocks)| == Span(|blocks|, size)
    ensures Body(blocks) == Body(blocks[..i]) + blocks[i] + Body(blocks[i + 1..])
    ensures Body(blocks)[Span(i, size)..Span(i, size) + size] == blocks[i]
  {
    var one := [blocks[i]];
    BodySplit(blocks[..i], blocks[i..]);
    BodySplit(one, blocks[i + 1..]);
    assert blocks == blocks[..i] + blocks[i..] && blocks[i..] == one + blocks[i + 1..];
    assert one[1..] == [] && blocks[i] + [] == blocks[i];
    BodyLength(blocks[..i], size);
    BodyLength(blocks, size);
    BodyLength(blocks[i + 1..], size);
    SpanAdd(i + 1, |blocks| - i - 1, size);
  }

  /** `data` laid over `v` at `at`. */
  function Splice<T>(v: seq<T>, at: nat, data: seq<T>): (r: seq<T>)
    requires at + |data| <= |v|
    ensures |r| == |v|
    ensures forall k | 0 <= k < |r| :: r[k] == if at <= k < at + |data| then data[k - at] else v[k]
  {
    seq(|v|, k requires 0 <= k < |v| => if at <= k < at + |data| then data[k - at] else v[k])
  }

  /** Laying cells over a part of block `i` changes this block only. */
  lemma {:induction false} SpliceBlock<T>(h: seq<T>, blocks: seq<seq<T>>, size: nat, i: nat, off: nat, data: seq<T>)
    requires AllOf(blocks, size) && i < |blocks| && off + |data| <= size
    ensures |Body(blocks)| == Span(|blocks|, size) && Span(i + 1, size) <= Span(|blocks|, size)
            && Span(i + 1, size) == Span(i, size) + size
    ensures var r := blocks[i := Splice(blocks[i], off, data)];
            AllOf(r, size) && Splice(h + Body(blocks), |h| + Span(i, size) + off, data) == h + Body(r)
  {
    var b := Splice(blocks[i], off, data);
    var r := blocks[i := b];
    BodyAt(blocks, size, i);
    BodyAt(r, size, i);
    SameAround(blocks, i, b);
    SpliceMiddle(h, Body(blocks[..i]), blocks[i], Body(blocks[i + 1..]), off, data);
  }

  lemma {:induction false} SameAround<T>(blocks: seq<seq<T>>, i: nat, b: seq<T>)
    requires i < |blocks|
    ensures blocks[i := b][..i] == blocks[..i] && blocks[i := b][i + 1..] == blocks[i + 1..]
  {
  }

  lemma {:induction false} SpliceMiddle<T>(h: seq<T>, a: seq<T>, b: seq<T>, c: seq<T>, off: nat, data: seq<T>)
    requires off + |data| <= |b|
    ensures Splice(h + (a + b + c), |h| + |a| + off, data) == h + (a + Splice(b, off, data) + c)
  {
    var x, y := Splice(h + (a + b + c), |h| + |a| + off, data), h + (a + Splice(b, off, data) + c);
    forall k | 0 <= k < |x| ensures x[k] == y[k] {
      var j := k - |h| - |a|;
      if 0 <= j < |b| {
        assert y[k] == Splice(b, off, data)[j] && (h + (a + b + c))[k] == b[j];
      }
    }
  }

  lemma {:induction false} TakeDrop<T>(s: seq<T>, m: nat)
    requires m <= |s|
    ensures s == s[..m] + s[m..]
  {
  }

  function ZeroBlocks<T>(z: T, n: nat, size: nat): (b: seq<seq<T>>)
    ensures |b| == n && AllOf(b, size)
  {
    seq(n, _ => Copies(z, size))
  }

  lemma {:induction false} ZeroBody<T>(z: T, n: nat, size: nat)
    ensures Body(ZeroBlocks(z, n, size)) == Copies(z, Span(n, size))
    decreases n
  {
    if n > 0 {
      assert ZeroBlocks(z, n, size)[1..] == ZeroBlocks(z, n - 1, size);
      ZeroBody(z, n - 1, size);
      assert Copies(z, size) + Copies(z, Span(n - 1, size)) == Copies(z, Span(n, size));
    }
  }

  /** The counted blocks, and by how many trailing zero cells the file falls short of them. */
  datatype Store<T> = Store(blocks: seq<seq<T>>, lack: nat)

  ghost predicate Represents<T>(z: T, h: seq<T>, size: nat, s: Store<T>, f: seq<T>) {
    && AllOf(s.blocks, size)
    && s.lack <= Span(|s.blocks|, size)
    && f + Copies(z, s.lack) == h + Body(s.blocks)
  }

  function Min(a: nat, b: nat): nat {
    if a <= b then a else b
  }

  function Appended<T>(s: Store<T>, data: seq<T>): Store<T> {
    Store(s.blocks + [data], 0)
  }

  function Grown<T>(z: T, s: Store<T>, n: nat, size: nat): Store<T> {
    Store(s.blocks + ZeroBlocks(z, n, size), 0)
  }

  /** `n` more copies of one block. */
  function Repeated<T>(s: Store<T>, n: nat, data: seq<T>): Store<T> {
    if n == 0 then s else Appended(Repeated(s, n - 1, data), data)
  }

  lemma {:induction false} RepeatedShape<T>(s: Store<T>, n: nat, data: seq<T>)
    ensures Repeated(s, n, data).blocks == s.blocks + seq(n, _ => data)
    ensures Repeated(s, n, data).lack == if n == 0 then s.lack else 0
  {
    if n > 0 { RepeatedShape(s, n - 1, data); }
  }

  /** Part of one counted block rewritten. */
  function Patched<T>(s: Store<T>, size: nat, i: nat, off: nat, data: seq<T>): Store<T>
    requires i < |s.blocks| && |s.blocks[i]| == size && off + |data| <= size
  {
    Store(s.blocks[i := Splice(s.blocks[i], off, data)],
          if data == [] then s.lack else Min(s.lack, Span(|s.blocks| - 1 - i, size) + size - off - |data|))
  }

  /** The counter one ahead of the file. */
  function Drifted<T>(z: T, s: Store<T>, size: nat): Store<T> {
    Store(s.blocks + [Copies(z, size)], s.lack + size)
  }

  /** `updateBlock`: the block is replaced, and the counter goes up. */
  function Updated<T>(z: T, s: Store<T>, size: nat, i: nat, data: seq<T>): Store<T>
    requires i < |s.blocks| && |s.blocks[i]| == size == |data|
  {
    Drifted(z, Patched(s, size, i, 0, data), size)
  }

  /** Writing into a file whose missing tail counts as zeros. */
  lemma {:induction false} WriteUnderZeros<T>(z: T, f: seq<T>, lack: nat, v: seq<T>, at: nat, data: seq<T>)
    requires f + Copies(z, lack) == v && at + |data| <= |v|
    ensures Written(z, f, at, data) + Copies(z, if data == [] then lack else Min(lack, |v| - at - |data|))
            == Splice(v, at, data)
  {
    if data == [] {
      assert Written(z, f, at, data) == f && Splice(v, at, data) == v;
    } else {
      var w, left := Written(z, f, at, data), Min(lack, |v| - at - |data|);
      var a, b := w + Copies(z, left), Splice(v, at, data);
      assert |a| == |b|;
      forall k | 0 <= k < |a| ensures a[k] == b[k] {
        assert k < |f| ==> v[k] == f[k];
        assert |f| <= k ==> v[k] == z;
      }
    }
  }

  lemma {:induction false} PatchedIsRepresented<T>(z: T, h: seq<T>, size: nat, s: Store<T>, f: seq<T>, i: nat, off: nat,
      data: seq<T>)
    requires Represents(z, h, size, s, f) && i < |s.blocks| && off + |data| <= size
    ensures Represents(z, h, size, Patched(s, size, i, off, data), Written(z, f, |h| + Span(i, size) + off, data))
  {
    var v, at := h + Body(s.blocks), |h| + Span(i, size) + off;
    PatchedLack(h, size, s, i, off, data);
    SpliceBlock(h, s.blocks, size, i, off, data);
    WriteUnderZeros(z, f, s.lack, v, at, data);
    var p, w := Patched(s, size, i, off, data), Written(z, f, at, data);
    Represented(z, h, size, p, w, Splice(v, at, data));
  }

  lemma {:induction false} PatchedLack<T>(h: seq<T>, size: nat, s: Store<T>, i: nat, off: nat, data: seq<T>)
    requires AllOf(s.blocks, size) && i < |s.blocks| && off + |data| <= size && s.lack <= Span(|s.blocks|, size)
    ensures var end, lack := |h| + Span(i, size) + off + |data|, Patched(s, size, i, off, data).lack;
            && end <= |h + Body(s.blocks)|
            && lack <= Span(|s.blocks|, size)
            && lack == if data == [] then s.lack else Min(s.lack, |h + Body(s.blocks)| - end)
  {
    ThreeParts(|s.blocks|, i, size);
    BodyLength(s.blocks, size);
  }

  lemma {:induction false} Represented<T>(z: T, h: seq<T>, size: nat, s: Store<T>, f: seq<T>, v: seq<T>)
    requires AllOf(s.blocks, size) && s.lack <= Span(|s.blocks|, size)
    requires f + Copies(z, s.lack) == v == h + Body(s.blocks)
    ensures Represents(z, h, size, s, f)
  {
  }

  lemma {:induction false} ThreeParts(n: nat, i: nat, size: nat)
    requires i < n
    ensures Span(n, size) == Span(i, size) + Span(n - 1 - i, size) + size
  {
    SpanAdd(i, n - 1 - i, size);
    SpanAdd(n - 1, 1, size);
  }

  lemma {:induction false} DriftedIsRepresented<T>(z: T, h: seq<T>, size: nat, s: Store<T>, f: seq<T>, n: nat)
    requires Represents(z, h, size, s, f)
    ensures Represents(z, h, size, Store(s.blocks + ZeroBlocks(z, n, size), s.lack + Span(n, size)), f)
    ensures |h| + Span(|s.blocks| + n, size) == |f| + s.lack + Span(n, size)
  {
    ZeroBody(z, n, size);
    BodySplit(s.blocks, ZeroBlocks(z, n, size));
    BodyLength(s.blocks, size);
    var extra := Span(n, size);
    SpanAdd(|s.blocks|, n, size);
    assert Copies(z, s.lack + extra) == Copies(z, s.lack) + Copies(z, extra);
    assert f + Copies(z, s.lack + extra) == (f + Copies(z, s.lack)) + Copies(z, extra);
    assert h + Body(s.blocks) + Copies(z, extra) == h + (Body(s.blocks) + Copies(z, extra));
  }

  /** `writeBlock` puts the block behind all counted ones; the file is then complete. */
  lemma {:induction false} AppendedIsRepresented<T>(z: T, h: seq<T>, size: nat, s: Store<T>, f: seq<T>, data: seq<T>)
    requires Represents(z, h, size, s, f) && |data| == size
    ensures Represents(z, h, size, Appended(s, data), Written(z, f, |h| + Span(|s.blocks|, size), data))
  {
    if size == 0 { SpanIsProduct(|s.blocks|, 0); }
    var n, d := |s.blocks|, Drifted(z, s, size);
    OneMoreCounted(z, h, size, s, f);
    PatchedIsRepresented(z, h, size, d, f, n, 0, data);
    LastPatched(z, s, size, data);
  }

  lemma {:induction false} OneMoreCounted<T>(z: T, h: seq<T>, size: nat, s: Store<T>, f: seq<T>)
    requires Represents(z, h, size, s, f)
    ensures Represents(z, h, size, Drifted(z, s, size), f)
  {
    DriftedIsRepresented(z, h, size, s, f, 1);
    assert ZeroBlocks(z, 1, size) == [Copies(z, size)];
  }

  lemma {:induction false} LastPatched<T>(z: T, s: Store<T>, size: nat, data: seq<T>)
    requires |data| == size && (size == 0 ==> s.lack == 0)
    ensures Drifted(z, s, size).blocks[|s.blocks|] == Copies(z, size)
    ensures Patched(Drifted(z, s, size), size, |s.blocks|, 0, data) == Appended(s, data)
  {
    assert Splice(Copies(z, size), 0, data) == data;
    assert (s.blocks + [Copies(z, size)])[|s.blocks| := data] == s.blocks + [data];
  }

  lemma {:induction false} GrownIsRepresented<T>(z: T, h: seq<T>, size: nat, s: Store<T>, f: seq<T>, n: nat)
    requires Represents(z, h, size, s, f)
    ensures |h| + Span(|s.blocks| + n, size) >= |f|
    ensures Represents(z, h, size, Grown(z, s, n, size), f + Copies(z, |h| + Span(|s.blocks| + n, size) - |f|))
  {
    DriftedIsRepresented(z, h, size, s, f, n);
    var g := f + Copies(z, s.lack + Span(n, size));
    assert g + Copies(z, 0) == g;
  }

  /** The blocks of a body of whole blocks. */
  function Chunks<T>(body: seq<T>, size: nat): (b: seq<seq<T>>)
    requires size > 0 && |body| % size == 0
    ensures AllOf(b, size) && Body(b) == body
    decreases |body|
  {
    if body == [] then []
    else
      assert |body| >= size && (|body| - size) % size == 0 by { ModStep(|body|, size); }
      assert body == body[..size] + body[size..];
      [body[..size]] + Chunks(body[size..], size)
  }

  lemma {:induction false} ModStep(n: nat, size: nat)
    requires size > 0 && n > 0 && n % size == 0
    ensures n >= size && (n - size) % size == 0
  {
    ExactQuotient(n, size);
    SpanAdd(n / size - 1, 1, size);
    ModMultiple(n / size - 1, size);
  }

  /** Whole blocks divide evenly. */
  lemma {:induction false} ModMultiple(q: nat, size: nat)
    requires size > 0
    ensures Span(q, size) % size == 0 && Span(q, size) / size == q
  {
    var m := Span(q, size);
    var d, r := m / size, m % size;
    assert m == d * size + r;
    SpanIsProduct(d, size);
    if q > d {
      SpanAdd(d + 1, q - d - 1, size);
    } else if q < d {
      SpanAdd(q + 1, d - q - 1, size);
    }
  }

  lemma {:induction false} ExactQuotient(a: nat, size: nat)
    requires size > 0 && a % size == 0
    ensures a == Span(a / size, size) && (a > 0 ==> a / size > 0)
  {
    SpanIsProduct(a / size, size);
  }

  lemma {:induction false} ChunksOfBody<T>(blocks: seq<seq<T>>, size: nat)
    requires size > 0 && AllOf(blocks, size)
    ensures |Body(blocks)| % size == 0 && Chunks(Body(blocks), size) == blocks
    decreases |blocks|
  {
    BodyLength(blocks, size);
    ModMultiple(|blocks|, size);
    if blocks != [] {
      ChunksOfBody(blocks[1..], size);
      var b := Body(blocks);
      assert b[..size] == blocks[0] && b[size..] == Body(blocks[1..]);
    }
  }

  lemma {:induction false} BodyOf<T>(z: T, h: seq<T>, size: nat, s: Store<T>, f: seq<T>) returns (body: seq<T>)
    requires Represents(z, h, size, s, f)
    ensures f == h + body && f[|h|..] == body && body + Copies(z, s.lack) == Body(s.blocks)
  {
    BodyLength(s.blocks, size);
    assert |f| >= |h|;
    body := f[|h|..];
    assert f[..|h|] == (f + Copies(z, s.lack))[..|h|] == h;
    assert (h + Body(s.blocks))[|h|..] == Body(s.blocks);
    assert (h + body + Copies(z, s.lack))[|h|..] == body + Copies(z, s.lack);
  }

  lemma {:induction false} ReopenedBody<T>(z: T, blocks: seq<seq<T>>, size: nat, body: seq<T>, lack: nat)
    requires size > 0 && AllOf(blocks, size) && body + Copies(z, lack) == Body(blocks) && lack <= Span(|blocks|, size)
    ensures |body| % size == 0 <==> lack % size == 0
    ensures lack % size == 0 ==> lack / size <= |blocks| && Chunks(body, size) == blocks[..|blocks| - lack / size]
  {
    BodyLength(blocks, size);
    if lack % size == 0 {
      var k := lack / size;
      ExactQuotient(lack, size);
      WholeBlocksLeft(|blocks|, size, k, lack);
      var m := |blocks| - k;
      TakeDrop(blocks, m);
      FrontOfBody(blocks[..m], blocks[m..], size, body, Copies(z, lack));
    } else {
      TornLength(|blocks|, size, |body|, lack);
    }
  }

  lemma {:induction false} FrontOfBody<T>(front: seq<seq<T>>, back: seq<seq<T>>, size: nat, body: seq<T>, rest: seq<T>)
    requires size > 0 && AllOf(front, size) && |body| == Span(|front|, size) && body + rest == Body(front + back)
    ensures |body| % size == 0 && Chunks(body, size) == front
  {
    BodySplit(front, back);
    BodyLength(front, size);
    SameFront(body, rest, Body(front), Body(back));
    ChunksOfBody(front, size);
  }

  lemma {:induction false} SameFront<T>(a: seq<T>, b: seq<T>, c: seq<T>, d: seq<T>)
    requires |a| == |c| && a + b == c + d
    ensures a == c
  {
    assert a == (a + b)[..|a|];
    assert c == (c + d)[..|c|];
  }

  lemma {:induction false} WholeBlocksLeft(n: nat, size: nat, k: nat, lack: nat)
    requires size > 0 && lack == Span(k, size) <= Span(n, size)
    ensures k <= n && Span(n - k, size) == Span(n, size) - lack
  {
    if k > n { SpanAdd(n + 1, k - n - 1, size); } else { SpanAdd(n - k, k, size); }
  }

  lemma {:induction false} TornLength(n: nat, size: nat, length: nat, lack: nat)
    requires size > 0 && length + lack == Span(n, size) && lack % size != 0
    ensures length % size != 0
  {
    if length % size == 0 {
      var q := length / size;
      ExactQuotient(length, size);
      WholeBlocksLeft(n, size, q, length);
      ModMultiple(n - q, size);
    }
  }

  lemma {:induction false} ReadOfBlock<T>(z: T, h: seq<T>, size: nat, s: Store<T>, f: seq<T>, i: nat, off: nat, n: nat)
    requires Represents(z, h, size, s, f) && i < |s.blocks| && off + n <= size
    ensures n > 0 || size == 0 ==>
              (|ReadFrom(f, |h| + Span(i, size) + off, n)| == n
               <==> Span(i, size) + off + n + s.lack <= Span(|s.blocks|, size))
    ensures |ReadFrom(f, |h| + Span(i, size) + off, n)| == n ==>
              ReadFrom(f, |h| + Span(i, size) + off, n) == s.blocks[i][off..off + n]
    ensures Span(i + 1, size) == Span(i, size) + size && Span(i + 1, size) <= Span(|s.blocks|, size)
  {
    BlockInBody(s.blocks, size, i, off, n);
    FileLength(z, h, Body(s.blocks), s.lack, f);
    if size == 0 { SpanIsProduct(i, 0); SpanIsProduct(|s.blocks|, 0); }
    else { ReadIsWhole(f, |h| + Span(i, size) + off, n); }
    ReadOfPart(z, h, Body(s.blocks), s.lack, f, Span(i, size) + off, n, s.blocks[i][off..off + n]);
  }

  lemma {:induction false} BlockInBody<T>(blocks: seq<seq<T>>, size: nat, i: nat, off: nat, n: nat)
    requires AllOf(blocks, size) && i < |blocks| && off + n <= size
    ensures |Body(blocks)| == Span(|blocks|, size) && |blocks[i]| == size
    ensures Span(i + 1, size) == Span(i, size) + size && Span(i + 1, size) <= Span(|blocks|, size)
    ensures Body(blocks)[Span(i, size) + off..Span(i, size) + off + n] == blocks[i][off..off + n]
  {
    BodyAt(blocks, size, i);
    PartOfPart(Body(blocks), Span(i, size), size, off, n);
  }

  lemma {:induction false} FileLength<T>(z: T, h: seq<T>, body: seq<T>, lack: nat, f: seq<T>)
    requires f + Copies(z, lack) == h + body
    ensures |f| + lack == |h| + |body|
  {
    assert |f + Copies(z, lack)| == |h + body|;
  }

  lemma {:induction false} ReadIsWhole<T>(f: seq<T>, at: nat, n: nat)
    ensures n > 0 ==> (|ReadFrom(f, at, n)| == n <==> at + n <= |f|)
  {
  }

  /** What is read from the file, when all of it is there, is what the body holds at that place. */
  lemma {:induction false} ReadOfPart<T>(z: T, h: seq<T>, body: seq<T>, lack: nat, f: seq<T>, at: nat, n: nat,
      part: seq<T>)
    requires f + Copies(z, lack) == h + body && at + n <= |body| && part == body[at..at + n]
    ensures |ReadFrom(f, |h| + at, n)| == n ==> ReadFrom(f, |h| + at, n) == part
  {
    var r := ReadFrom(f, |h| + at, n);
    if |r| == n > 0 {
      forall k | 0 <= k < n ensures r[k] == part[k] {
        assert r[k] == f[|h| + at + k] == (f + Copies(z, lack))[|h| + at + k] == (h + body)[|h| + at + k];
      }
    }
  }

  lemma {:induction false} PartOfPart<T>(s: seq<T>, at: nat, size: nat, off: nat, n: nat)
    requires at + size <= |s| && off + n <= size
    ensures s[at + off..at + off + n] == s[at..at + size][off..off + n]
  {
    var a, b := s[at + off..at + off + n], s[at..at + size][off..off + n];
    assert |a| == |b| == n;
    forall k | 0 <= k < n ensures a[k] == b[k] {
      assert a[k] == s[at + off + k] == s[at..at + size][off + k] == b[k];
    }
  }

  lemma {:induction false} SmallRemainder(a: nat, size: nat)
    requires a < size
    ensures a % size == a
  {
  }

  lemma {:induction false} DriftKept(m: nat, n: nat, i: nat, size: nat)
    requires i < n <= m
    ensures Span(m - n, size) <= Span(m - 1 - i, size)
    ensures Span(m + 1 - n, size) == Span(m - n, size) + size
    ensures size == 0 ==> Span(m - n, size) == 0
  {
    SpanAdd(m - n, n - 1 - i, size);
    SpanIsProduct(m - n, size);
  }

  lemma {:induction false} WrittenAtEnd<T>(z: T, f: seq<T>, data: seq<T>)
    ensures Written(z, f, |f|, data) == f + data
  {
    assert f + Copies(z, 0) == f;
  }

  lemma {:induction false} Slices<T>(a: seq<T>, b: seq<T>, c: seq<T>, d: seq<T>, e: seq<T>)
    ensures var f := a + b + c + d + e;
            && f[..|a|] == a
            && f[|a|..|a| + |b|] == b
            && f[|a| + |b|..|a| + |b| + |c|] == c
            && f[|a| + |b| + |c|..|a| + |b| + |c| + |d|] == d
            && f[..|a| + |b| + |c|] == a + b + c
            && f[|a| + |b| + |c| + |d|..] == e
  {
  }
}
