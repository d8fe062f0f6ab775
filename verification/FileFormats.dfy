/** The formats, byte by byte: what lies where in the files, and known texts of the encodings. */
module FileFormats {
  import opened Common
  import opened Files
  import opened Blocks
  import FixedBlocks
  import ChainedBlocks
  import Base64
  import Uuid

  // ----- numbers

  /** A 32-bit number, its lowest byte first. */
  lemma {:induction false} FourBytes(n: nat)
    requires n < U32
    ensures ToLE(n, 4) == [n % 0x100, n / 0x100 % 0x100, n / 0x1_0000 % 0x100, n / 0x100_0000]
  {
    var n1, n2, n3 := n / 0x100, n / 0x1_0000, n / 0x100_0000;
    assert n1 / 0x100 == n2 && n2 / 0x100 == n3;
    assert ToLE(n3, 1) == [n3 % 0x100] + ToLE(n3 / 0x100, 0);
    assert ToLE(n2, 2) == [n2 % 0x100] + ToLE(n3, 1);
    assert ToLE(n1, 3) == [n1 % 0x100] + ToLE(n2, 2);
  }

  lemma {:induction false} PushByte(b: nat, rest: nat, k: nat)
    requires b < 0x100
    ensures ToLE(b + 0x100 * rest, k + 1) == [b] + ToLE(rest, k)
  {
    var n := b + 0x100 * rest;
    assert n % 0x100 == b && n / 0x100 == rest;
  }

  lemma {:induction false} PushTwo(n0: nat, n1: nat, b0: nat, b1: nat, rest: nat, k: nat)
    requires b0 < 0x100 && b1 < 0x100 && n0 == b0 + 0x100 * n1 && n1 == b1 + 0x100 * rest
    ensures ToLE(n0, k + 2) == [b0, b1] + ToLE(rest, k)
  {
    PushByte(b0, n1, k + 1);
    PushByte(b1, rest, k);
    Onto([b0], [b1], ToLE(rest, k));
  }

  lemma {:induction false} Onto<T>(a: seq<T>, b: seq<T>, rest: seq<T>)
    ensures a + (b + rest) == a + b + rest
  {
  }

  lemma {:induction false} PushFour(n0: nat, n1: nat, n2: nat, n3: nat, b0: nat, b1: nat, b2: nat, b3: nat, high: nat,
      k: nat)
    requires b0 < 0x100 && b1 < 0x100 && b2 < 0x100 && b3 < 0x100
    requires n0 == b0 + 0x100 * n1 && n1 == b1 + 0x100 * n2 && n2 == b2 + 0x100 * n3 && n3 == b3 + 0x100 * high
    ensures ToLE(n0, k + 4) == [b0, b1] + [b2, b3] + ToLE(high, k)
  {
    PushTwo(n0, n1, b0, b1, n2, k + 2);
    PushTwo(n2, n3, b2, b3, high, k);
    Onto([b0, b1], [b2, b3], ToLE(high, k));
  }

  /** A longer one is the two halves, the lower one first. */
  lemma {:induction false} EightBytes(n: nat)
    ensures ToLE(n, 8) == ToLE(n % U32, 4) + ToLE(n / U32, 4)
  {
    var low, high := n % U32, n / U32;
    FourBytes(low);
    var b0, b1, b2, b3 := low % 0x100, low / 0x100 % 0x100, low / 0x1_0000 % 0x100, low / 0x100_0000;
    DigitsOf(low);
    var n3 := b3 + 0x100 * high;
    var n2 := b2 + 0x100 * n3;
    var n1 := b1 + 0x100 * n2;
    PushFour(b0 + 0x100 * n1, n1, n2, n3, b0, b1, b2, b3, high, 4);
    assert [b0, b1] + [b2, b3] == [b0, b1, b2, b3];
    assert n == b0 + 0x100 * n1;
  }

  lemma {:induction false} DigitsOf(n: nat)
    ensures n == n % 0x100 + 0x100 * (n / 0x100 % 0x100 + 0x100 * (n / 0x1_0000 % 0x100 + 0x100 * (n / 0x100_0000)))
  {
    assert n / 0x100 / 0x100 == n / 0x1_0000 && n / 0x1_0000 / 0x100 == n / 0x100_0000;
  }

  /** The sign of a time is the top bit of its last byte, and a time from 0 on is its number. */
  lemma {:induction false} SignIsLast(tm: int)
    requires IsInt64(tm)
    ensures ToInt64(tm)[7] >= 0x80 <==> tm < 0
    ensures tm >= 0 ==> ToInt64(tm) == ToLE(tm, 8)
    ensures tm == -1 ==> forall i | 0 <= i < 8 :: ToInt64(tm)[i] == 0xff
  {
    var n := if tm < 0 then tm + U64 else tm;
    EightBytes(n);
    FourBytes(n / U32);
    if tm == -1 { FourBytes(n % U32); }
  }

  // ----- the files

  /** A block file starts with its name, the number of notes in a block, their sizes and the hash of all that. */
  lemma {:induction false} BlockFileHeader(hash: FixedBlocks.Hash, sizes: seq<nat>)
    ensures var h, n := FixedBlocks.Header(hash, sizes), |sizes|;
            && |h| == 32 + 4 * n
            && (forall i | 0 <= i < 8 :: h[i] == "ARpcDBFB"[i] as int)
            && h[8..12] == ToLE(n, 4)
            && (forall i | 0 <= i < n :: h[12 + 4 * i..][..4] == ToLE(sizes[i], 4))
            && h[12 + 4 * n..] == hash(h[..12 + 4 * n])
  {
    var h, n, p := FixedBlocks.Header(hash, sizes), |sizes|, FixedBlocks.Prefix(sizes);
    var image := FixedBlocks.SizesImage(sizes);
    assert h[..12 + 4 * n] == p && h[12 + 4 * n..] == hash(p);
    assert p[12..] == image;
    forall i | 0 <= i < n ensures h[12 + 4 * i..][..4] == ToLE(sizes[i], 4) {
      SizeAt(sizes, i);
      assert h[12 + 4 * i..][..4] == p[12..][4 * i..][..4];
    }
  }

  lemma {:induction false} SizeAt(sizes: seq<nat>, i: nat)
    requires i < |sizes|
    ensures FixedBlocks.SizesImage(sizes)[4 * i..][..4] == ToLE(sizes[i], 4)
    decreases i
  {
    var rest := FixedBlocks.SizesImage(sizes[1..]);
    if i > 0 {
      SizeAt(sizes[1..], i - 1);
      assert FixedBlocks.SizesImage(sizes)[4 * i..] == rest[4 * (i - 1)..];
    }
  }

  /** A chained file starts with its name; then each block is its length in four bytes and its bytes. */
  lemma {:induction false} ChainedFileLayout(payloads: seq<seq<byte>>, i: nat)
    requires i < |payloads|
    ensures var f, at := ChainedBlocks.FIXED_HEADER + ChainedBlocks.Links(payloads), ChainedBlocks.Start(payloads, i);
            && 12 <= at <= at + |payloads[i]| <= |f|
            && f[at - 4..at] == ToLE(|payloads[i]|, 4) && f[at..at + |payloads[i]|] == payloads[i]
  {
    var front, back := ChainedBlocks.Links(payloads[..i]), ChainedBlocks.Links(payloads[i + 1..]);
    var head, all := ChainedBlocks.FIXED_HEADER, ChainedBlocks.Links(payloads);
    LinksAt(payloads, i);
    InMiddle(head, front, ToLE(|payloads[i]|, 4), payloads[i], back, all);
  }

  lemma {:induction false} ChainedFileName(payloads: seq<seq<byte>>)
    ensures var f := ChainedBlocks.FIXED_HEADER + ChainedBlocks.Links(payloads);
            |ChainedBlocks.FIXED_HEADER| == 8 && forall k | 0 <= k < 8 :: f[k] == "ARpcDBCB"[k] as int
  {
  }

  /** The first block starts behind the name, every other one behind the block before it, and nothing stands behind the
      last. */
  lemma {:induction false} ChainedFileStarts(payloads: seq<seq<byte>>, i: nat)
    requires i < |payloads|
    ensures var end := ChainedBlocks.Start(payloads, i) + |payloads[i]|;
            && (i == 0 ==> ChainedBlocks.Start(payloads, i) == 12)
            && (i + 1 < |payloads| ==> ChainedBlocks.Start(payloads, i + 1) == end + 4)
            && (i + 1 == |payloads| ==> |ChainedBlocks.FIXED_HEADER + ChainedBlocks.Links(payloads)| == end)
  {
    assert payloads[..i + 1] == payloads[..i] + [payloads[i]];
    ChainedBlocks.LinksAppend(payloads[..i], payloads[i]);
    assert i + 1 == |payloads| ==> payloads[..i + 1] == payloads;
  }

  lemma {:induction false} LinksAt(payloads: seq<seq<byte>>, i: nat)
    requires i < |payloads|
    ensures ChainedBlocks.Links(payloads)
            == ChainedBlocks.Links(payloads[..i]) + (ToLE(|payloads[i]|, 4) + payloads[i])
               + ChainedBlocks.Links(payloads[i + 1..])
  {
    var front, p, back := payloads[..i], payloads[i], payloads[i + 1..];
    assert payloads == front + [p] + back;
    ChainedBlocks.LinksSplit(front + [p], back);
    ChainedBlocks.LinksAppend(front, p);
  }

  lemma {:induction false} InMiddle<T>(head: seq<T>, a: seq<T>, b: seq<T>, c: seq<T>, d: seq<T>, all: seq<T>)
    requires all == a + (b + c) + d
    ensures var f, at := head + all, |head| + |a| + |b|;
            at + |c| <= |f| && f[at - |b|..at] == b && f[at..at + |c|] == c
  {
  }

  // ----- texts

  /** The test vectors of RFC 4648, section 10, and one with the two last characters of the alphabet. */
  lemma {:induction false} Base64Vectors()
    ensures Base64.Encoded([]) == ""
    ensures Base64.Encoded([102]) == "Zg=="
    ensures Base64.Encoded([102, 111]) == "Zm8="
    ensures Base64.Encoded([102, 111, 111]) == "Zm9v"
    ensures Base64.Encoded([0xfb, 0xff]) == "+/8="
  {
    OneGroup([102], 25, 32, 64, 64, 'Z', 'g', '=', '=');
    OneGroup([102, 111], 25, 38, 60, 64, 'Z', 'm', '8', '=');
    OneGroup([102, 111, 111], 25, 38, 61, 47, 'Z', 'm', '9', 'v');
    OneGroup([0xfb, 0xff], 62, 63, 60, 64, '+', '/', '8', '=');
  }

  lemma {:induction false} Base64TwoGroups()
    ensures Base64.Encoded([102, 111, 111, 98, 97, 114]) == "Zm9vYmFy"
  {
    OneGroup([102, 111, 111], 25, 38, 61, 47, 'Z', 'm', '9', 'v');
    OneGroup([98, 97, 114], 24, 38, 5, 50, 'Y', 'm', 'F', 'y');
    Follows([102, 111, 111], [98, 97, 114]);
    assert [102, 111, 111] + [98, 97, 114] == [102, 111, 111, 98, 97, 114];
  }

  /** A text goes on behind a full group. */
  lemma {:induction false} Follows(g: seq<byte>, rest: seq<byte>)
    requires |g| == 3 && rest != []
    ensures Base64.Encoded(g + rest) == Base64.Encoded(g) + Base64.Encoded(rest)
  {
    var b := g + rest;
    assert b[..3] == g && b[3..] == rest;
    Base64.TextAppend(Base64.Group(g), Base64.Sextets(rest));
  }

  /** One group is four characters, those of its four values. */
  lemma {:induction false} OneGroup(b: seq<byte>, v0: nat, v1: nat, v2: nat, v3: nat, c0: char, c1: char, c2: char,
      c3: char)
    requires 0 < |b| <= 3
    requires v0 < 64 && v1 < 64 && v2 <= 64 && v3 <= 64
    requires if |b| > 1 then v2 < 64 else v2 == 64
    requires if |b| > 2 then v3 < 64 else v3 == 64
    requires Base64.Number(b)
             == ((v0 * 64 + v1) * 64 + if |b| > 1 then v2 else 0) * 64 + if |b| > 2 then v3 else 0
    requires Base64.Alphabet(v0) == c0 && Base64.Alphabet(v1) == c1
    requires Base64.Alphabet(v2) == c2 && Base64.Alphabet(v3) == c3
    ensures Base64.Encoded(b) == [c0, c1, c2, c3]
  {
    FourDigits(v0, v1, if |b| > 1 then v2 else 0, if |b| > 2 then v3 else 0);
    assert Base64.Group(b) == [v0, v1, v2, v3];
  }

  lemma {:induction false} FourDigits(v0: nat, v1: nat, v2: nat, v3: nat)
    requires v0 < 64 && v1 < 64 && v2 < 64 && v3 < 64
    ensures Base64.Cut(((v0 * 64 + v1) * 64 + v2) * 64 + v3, 4) == [v0, v1, v2, v3]
  {
    PushDigit(0, v0, 0);
    PushDigit(v0, v1, 1);
    PushDigit(v0 * 64 + v1, v2, 2);
    PushDigit((v0 * 64 + v1) * 64 + v2, v3, 3);
  }

  lemma {:induction false} PushDigit(rest: nat, v: nat, k: nat)
    requires v < 64
    ensures Base64.Cut(rest * 64 + v, k + 1) == Base64.Cut(rest, k) + [v]
  {
    var n := rest * 64 + v;
    assert n / 64 == rest && n % 64 == v;
  }

  /** The one id that is not valid is the null id. */
  lemma {:induction false} ValidIffNotNull(u: Uuid.Id)
    ensures Uuid.IsValid(u) <==> u != Uuid.NULL_ID
    ensures |Uuid.NULL_ID| == 16 && forall i | 0 <= i < 16 :: Uuid.NULL_ID[i] == 0
  {
  }
}
