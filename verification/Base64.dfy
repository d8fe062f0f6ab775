/** Base64 (docs/base64.c) against section 4 of RFC 4648. */
module Base64 {
  import opened Common

  // ----- the encoding of RFC 4648

  /** Stands for the padding character among the six-bit values. */
  const PAD: nat := 64

  ghost predicate AtMost(v: seq<nat>, n: nat) {
    forall k | 0 <= k < |v| :: v[k] <= n
  }

  /** A group of three octets is a 24-bit number, cut into four six-bit values; a short group is filled with zero
      bits, and the values that hold none of its bits are padding. */
  function Group(b: seq<byte>): (v: seq<nat>)
    requires 0 < |b| <= 3
    ensures |v| == 4
  {
    Cut(Number(b), 4)[..|b| + 1] + seq(3 - |b|, _ => PAD)
  }

  /** Up to three octets as the front of a 24-bit number. */
  function Number(b: seq<byte>): nat
    requires 0 < |b| <= 3
  {
    b[0] as int * 0x1_0000 + (if |b| > 1 then b[1] as int * 0x100 else 0) + (if |b| > 2 then b[2] as int else 0)
  }

  /** The lowest `k` six-bit values of a number, the highest first. */
  function Cut(n: nat, k: nat): (v: seq<nat>)
    ensures |v| == k
    decreases k, n
  {
    if k == 0 then [] else Cut(n / 64, k - 1) + [n % 64]
  }

  function Sextets(b: seq<byte>): (v: seq<nat>)
    decreases |b|
  {
    if b == [] then [] else if |b| <= 3 then Group(b) else Group(b[..3]) + Sextets(b[3..])
  }

  /** Table 1: the character of a six-bit value, and the padding character. */
  function Alphabet(v: nat): (c: char) {
    if v < 26 then 'A' + v as char
    else if v < 52 then 'a' + (v - 26) as char
    else if v < 62 then '0' + (v - 52) as char
    else if v == 62 then '+'
    else if v == 63 then '/'
    else '='
  }

  function ValueOf(c: char): (v: nat)
    ensures v <= 64
    ensures InAlphabet(c) <==> v < 64
  {
    if 'A' <= c <= 'Z' then (c - 'A') as nat
    else if 'a' <= c <= 'z' then (c - 'a') as nat + 26
    else if '0' <= c <= '9' then (c - '0') as nat + 52
    else if c == '+' then 62
    else if c == '/' then 63
    else PAD
  }

  predicate InAlphabet(c: char) {
    'A' <= c <= 'Z' || 'a' <= c <= 'z' || '0' <= c <= '9' || c == '+' || c == '/'
  }

  function Text(v: seq<nat>): (t: string)
    ensures |t| == |v|
  {
    seq(|v|, k requires 0 <= k < |v| => Alphabet(v[k]))
  }

  function Values(t: string): (v: seq<nat>)
    ensures |v| == |t| && AtMost(v, PAD)
  {
    seq(|t|, k requires 0 <= k < |t| => ValueOf(t[k]))
  }

  /** What the decoder takes a character for: padding inside the part it reads counts as 0. */
  function ReadAs(c: char): (v: nat)
    ensures v <= 64
  {
    if c == '=' then 0 else ValueOf(c)
  }

  function ReadValues(t: string): (v: seq<nat>)
    ensures |v| == |t| && AtMost(v, PAD)
  {
    seq(|t|, k requires 0 <= k < |t| => ReadAs(t[k]))
  }

  /** The padded text of the octets. */
  function Encoded(b: seq<byte>): string {
    Text(Sextets(b))
  }

  lemma {:induction false} ValueOfAlphabet(v: nat)
    requires v <= PAD
    ensures ValueOf(Alphabet(v)) == v && (v == PAD <==> Alphabet(v) == '=')
  {
  }

  lemma {:induction false} ValuesOfText(v: seq<nat>)
    requires AtMost(v, PAD)
    ensures Values(Text(v)) == v
  {
    forall k | 0 <= k < |v| ensures Values(Text(v))[k] == v[k] { ValueOfAlphabet(v[k]); }
  }

  lemma {:induction false} TextAppend(a: seq<nat>, b: seq<nat>)
    ensures Text(a + b) == Text(a) + Text(b)
  {
  }

  // ----- the tables of the program

  const ENC_TBL: string := "ABCDEFGHIJKLMNOPQRSTUVWXYZ" + "abcdefghijklmnopqrstuvwxyz" + "0123456789" + "+/"

  const DEC_TBL: seq<nat> :=
    [0x3e, 0xff, 0xff, 0xff, 0x3f, 0x34, 0x35, 0x36, 0x37, 0x38, 0x39, 0x3a, 0x3b, 0x3c, 0x3d, 0xff, 0xff, 0xff, 0x00,
     0xff, 0xff, 0xff] +
    [0x00, 0x01, 0x02, 0x03, 0x04, 0x05, 0x06, 0x07, 0x08, 0x09, 0x0a, 0x0b, 0x0c, 0x0d, 0x0e, 0x0f, 0x10, 0x11, 0x12,
     0x13, 0x14, 0x15, 0x16, 0x17, 0x18, 0x19] +
    [0xff, 0xff, 0xff, 0xff, 0xff, 0xff] +
    [0x1a, 0x1b, 0x1c, 0x1d, 0x1e, 0x1f, 0x20, 0x21, 0x22, 0x23, 0x24, 0x25, 0x26, 0x27, 0x28, 0x29, 0x2a, 0x2b, 0x2c,
     0x2d, 0x2e, 0x2f, 0x30, 0x31, 0x32, 0x33]

  /** The table of the program is the alphabet of the standard. */
  lemma {:induction false} EncTableIsAlphabet(v: nat)
    requires v < 64
    ensures |ENC_TBL| == 64 && ENC_TBL[v] == Alphabet(v)
  {
  }

  lemma {:induction false} DecTableIsValue(c: char)
    requires InAlphabet(c)
    ensures 43 <= c as nat <= 122 && |DEC_TBL| == 80 && DEC_TBL[c as nat - 43] == ValueOf(c)
  {
    var k := c as nat - 43;
    if k <= 14 { DecTableSymbols(k); } else if k <= 47 { DecTableUpper(k); } else { DecTableLower(k); }
  }

  lemma {:induction false} DecTableSymbols(k: nat)
    requires k == 0 || 4 <= k <= 14
    ensures DEC_TBL[k] == if k == 0 then 62 else if k == 4 then 63 else k + 47
  {
  }

  lemma {:induction false} DecTableUpper(k: nat)
    requires 22 <= k < 48
    ensures DEC_TBL[k] == k - 22
  {
  }

  lemma {:induction false} DecTableLower(k: nat)
    requires 54 <= k < 80
    ensures DEC_TBL[k] == k - 28
  {
  }

  method EncChar(v: nat) returns (c: char)
    requires v < 64
    ensures c == Alphabet(v)
  {
    EncTableIsAlphabet(v);
    c := ENC_TBL[v];
  }

  lemma {:induction false} DecTableOfPadding()
    ensures '=' as nat - 43 == 18 && DEC_TBL[18] == 0
  {
  }

  method DecValue(c: char) returns (v: nat)
    requires ReadAs(c) < 64
    ensures v == ReadAs(c)
  {
    if c == '=' { DecTableOfPadding(); } else { DecTableIsValue(c); }
    v := DEC_TBL[c as nat - 43];
  }

  // ----- six-bit values, octet by octet

  lemma {:induction false} CutInFour(b0: nat, b1: nat, b2: nat)
    requires b0 < 256 && b1 < 256 && b2 < 256
    ensures Cut(b0 * 0x1_0000 + b1 * 0x100 + b2, 4) == [b0 / 4, b0 % 4 * 16 + b1 / 16, b1 % 16 * 4 + b2 / 64, b2 % 64]
  {
    var q0, r0, q1, r1, q2, r2 := b0 / 4, b0 % 4, b1 / 16, b1 % 16, b2 / 64, b2 % 64;
    var n3 := b0 * 0x1_0000 + b1 * 0x100 + b2;
    var n2, n1 := b0 * 0x400 + b1 * 4 + q2, b0 * 16 + q1;
    DivMod(n3, 64, n2, r2);
    DivMod(n2, 64, n1, r1 * 4 + q2);
    DivMod(n1, 64, q0, r0 * 16 + q1);
    DivMod(q0, 64, 0, q0);
    assert Cut(q0, 1) == [q0] && Cut(n1, 2) == [q0, r0 * 16 + q1];
    assert Cut(n2, 3) == [q0, r0 * 16 + q1, r1 * 4 + q2];
  }

  lemma {:induction false} DivMod(n: nat, d: nat, q: nat, r: nat)
    requires n == q * d + r && r < d
    ensures n / d == q && n % d == r
  {
    var p := n / d;
    assert n == p * d + n % d;
    if p > q { Less(q, p, d); }
    if p < q { Less(p, q, d); }
  }

  lemma {:induction false} Less(a: nat, b: nat, d: nat)
    requires a < b
    ensures a * d + d <= b * d
  {
    var k := b - a - 1;
    assert b * d == (a + 1 + k) * d == a * d + d + k * d;
    assert k * d >= 0;
  }

  /** The group by its octets. */
  lemma {:induction false} GroupByParts(b: seq<byte>)
    requires 0 < |b| <= 3
    ensures Group(b)[0] == b[0] as nat / 4 < 64
    ensures Group(b)[1] == b[0] as nat % 4 * 16 + (if |b| > 1 then b[1] as nat / 16 else 0) < 64
    ensures |b| > 1 ==> Group(b)[2] == b[1] as nat % 16 * 4 + (if |b| > 2 then b[2] as nat / 64 else 0) < 64
    ensures |b| > 2 ==> Group(b)[3] == b[2] as nat % 64
    ensures |b| == 1 ==> Group(b)[2] == PAD
    ensures |b| < 3 ==> Group(b)[3] == PAD
    ensures AtMost(Group(b), PAD)
  {
    CutInFour(b[0], if |b| > 1 then b[1] else 0, if |b| > 2 then b[2] else 0);
    var c := Cut(Number(b), 4);
    assert c[0] < 64 && c[1] < 64 && c[2] < 64 && c[3] < 64;
  }

  lemma {:induction false} SextetsAtMost(b: seq<byte>)
    ensures AtMost(Sextets(b), PAD)
    decreases |b|
  {
    if b != [] {
      GroupByParts(if |b| <= 3 then b else b[..3]);
      if |b| > 3 { SextetsAtMost(b[3..]); }
    }
  }

  // ----- lengths

  function EncLen(len: nat): nat {
    (len + 2 - (len + 2) % 3) / 3 * 4
  }

  /** The number of groups. */
  function Groups(n: nat): (k: nat)
    ensures 3 * k >= n > 3 * k - 3
  {
    if n == 0 then 0 else if n <= 3 then 1 else 1 + Groups(n - 3)
  }

  lemma {:induction false} EncLenIsFourPerGroup(n: nat)
    ensures EncLen(n) == 4 * Groups(n)
  {
    var k := Groups(n);
    DivMod(n + 2, 3, k, n + 2 - 3 * k);
    DivMod(3 * k, 3, k, 0);
  }

  lemma {:induction false} SextetsLength(b: seq<byte>)
    ensures |Sextets(b)| == 4 * Groups(|b|)
    decreases |b|
  {
    if |b| > 3 { SextetsLength(b[3..]); }
  }

  /** The predicted length is the length. */
  lemma {:induction false} EncLenIsLength(b: seq<byte>)
    ensures EncLen(|b|) == |Encoded(b)|
  {
    SextetsLength(b);
    EncLenIsFourPerGroup(|b|);
  }

  function TrailingPads(v: seq<nat>): nat {
    if v == [] || v[|v| - 1] != PAD then 0 else 1 + TrailingPads(v[..|v| - 1])
  }

  function TrailingEq(t: string): nat {
    if t == "" || t[|t| - 1] != '=' then 0 else 1 + TrailingEq(t[..|t| - 1])
  }

  function DecLen(t: string): int {
    |t| / 4 * 3 - TrailingEq(t)
  }

  lemma {:induction false} TrailingEqOfText(v: seq<nat>)
    requires AtMost(v, PAD)
    ensures TrailingEq(Text(v)) == TrailingPads(v)
    decreases |v|
  {
    if v != [] {
      var n := |v| - 1;
      ValueOfAlphabet(v[n]);
      TrailingEqOfText(v[..n]);
      assert Text(v)[..n] == Text(v[..n]);
    }
  }

  lemma {:induction false} TrailingPadsOfGroup(b: seq<byte>)
    requires 0 < |b| <= 3
    ensures TrailingPads(Group(b)) == 3 - |b|
  {
    GroupByParts(b);
    var v := Group(b);
    assert v[..3][..2] == v[..2];
    if |b| == 1 {
      assert TrailingPads(v[..2]) == 0 && TrailingPads(v[..3]) == 1;
    } else if |b| == 2 {
      assert TrailingPads(v[..3]) == 0;
    }
  }

  lemma {:induction false} TrailingPadsAppend(a: seq<nat>, v: seq<nat>)
    requires TrailingPads(v) < |v|
    ensures TrailingPads(a + v) == TrailingPads(v)
    decreases |v|
  {
    if v[|v| - 1] == PAD {
      assert (a + v)[..|a + v| - 1] == a + v[..|v| - 1];
      TrailingPadsAppend(a, v[..|v| - 1]);
    }
  }

  lemma {:induction false} TrailingPadsOfSextets(b: seq<byte>)
    ensures TrailingPads(Sextets(b)) == 3 * Groups(|b|) - |b|
    decreases |b|
  {
    if 0 < |b| <= 3 {
      TrailingPadsOfGroup(b);
    } else if |b| > 3 {
      TrailingPadsOfSextets(b[3..]);
      SextetsLength(b[3..]);
      TrailingPadsAppend(Group(b[..3]), Sextets(b[3..]));
    }
  }

  /** The padding tells the original length. */
  lemma {:induction false} DecLenOfEncoded(b: seq<byte>)
    ensures DecLen(Encoded(b)) == |b|
  {
    SextetsAtMost(b);
    TrailingEqOfText(Sextets(b));
    TrailingPadsOfSextets(b);
    SextetsLength(b);
    DivMod(4 * Groups(|b|), 4, Groups(|b|), 0);
  }

  /** Counts padding from the end. The program looks one place before the text when it is all padding or empty. */
  method Base64DecLen(inp: string) returns (r: int)
    requires exists k :: 0 <= k < |inp| && inp[k] != '='
    ensures r == DecLen(inp)
  {
    var numEq := 0;
    var i := |inp| - 1;
    assert inp[..i + 1] == inp;
    while inp[i] == '='
      invariant 0 <= i < |inp| && numEq == |inp| - 1 - i
      invariant exists k :: 0 <= k <= i && inp[k] != '='
      invariant TrailingEq(inp) == numEq + TrailingEq(inp[..i + 1])
      decreases i
    {
      assert inp[..i + 1][..i] == inp[..i];
      numEq := numEq + 1;
      i := i - 1;
    }
    return |inp| / 4 * 3 - numEq;
  }

  // ----- encoding

  /** The block of the program, with `|` of separate bits written as a sum. */
  method EncodeBlock(inp: array<byte>, inPos: nat, out: array<char>, outPos: nat, len: nat)
    requires 0 < len <= 3 && inPos + len <= inp.Length && outPos + 4 <= out.Length
    modifies out
    ensures out[outPos..outPos + 4] == Text(Group(inp[inPos..inPos + len]))
    ensures forall k | 0 <= k < outPos || outPos + 4 <= k < out.Length :: out[k] == old(out[k])
  {
    var b0: nat, c1, c2, c3 := inp[inPos], '=', '=', '=';
    ghost var g := Group(inp[inPos..inPos + len]);
    GroupByParts(inp[inPos..inPos + len]);
    var c0 := EncChar(b0 / 4);
    if len > 1 {
      var b1: nat := inp[inPos + 1];
      c1 := EncChar(b0 % 4 * 16 + b1 / 16);
      if len > 2 {
        var b2: nat := inp[inPos + 2];
        c2 := EncChar(b1 % 16 * 4 + b2 / 64);
        c3 := EncChar(b2 % 64);
      } else {
        c2 := EncChar(b1 % 16 * 4);
      }
    } else {
      c1 := EncChar(b0 % 4 * 16);
    }
    assert Text(g) == [c0, c1, c2, c3];
    out[outPos], out[outPos + 1], out[outPos + 2], out[outPos + 3] := c0, c1, c2, c3;
  }

  lemma {:induction false} SextetsAppend(a: seq<byte>, b: seq<byte>, i: nat)
    requires |a| == 3 * i
    ensures Sextets(a + b) == Sextets(a) + Sextets(b) && |Sextets(a)| == 4 * i
    decreases i
  {
    if i == 0 {
      assert a + b == b;
    } else if i == 1 && b == [] {
      assert a + b == a;
    } else {
      assert (a + b)[..3] == a[..3] && (a + b)[3..] == a[3..] + b;
      SextetsAppend(a[3..], b, i - 1);
      if i == 1 { assert a[..3] == a && a[3..] == []; }
    }
  }

  /** One more group of the input. */
  lemma {:induction false} MoreEncoded(b: seq<byte>, i: nat, n: nat)
    requires 0 < n <= 3 && 3 * i + n <= |b|
    ensures Encoded(b[..3 * i + n]) == Encoded(b[..3 * i]) + Text(Group(b[3 * i..3 * i + n]))
    ensures |Encoded(b[..3 * i])| == 4 * i
  {
    var a, g := b[..3 * i], b[3 * i..3 * i + n];
    SextetsAppend(a, g, i);
    TextAppend(Sextets(a), Group(g));
    assert b[..3 * i + n] == a + g;
  }

  /** The text of RFC 4648 in the front of the buffer, and nothing else touched. */
  method Encode(inp: array<byte>, out: array<char>, len: nat)
    requires len <= inp.Length && EncLen(len) <= out.Length
    modifies out
    ensures out[..EncLen(len)] == Encoded(inp[..][..len])
    ensures forall k | EncLen(len) <= k < out.Length :: out[k] == old(out[k])
  {
    var full_blocks := len / 3;
    EncLenIsFourPerGroup(len);
    GroupsOfLength(len);
    var in_pos, out_pos := EncodeFullBlocks(inp, out, full_blocks);
    if len % 3 != 0 {
      ghost var front := out[..out_pos];
      MoreEncoded(inp[..], full_blocks, len % 3);
      EncodeBlock(inp, in_pos, out, out_pos, len % 3);
      Joined(out[..], out_pos, out_pos + 4);
      assert out[..out_pos] == front;
    }
  }

  method EncodeFullBlocks(inp: array<byte>, out: array<char>, full_blocks: nat) returns (in_pos: nat, out_pos: nat)
    requires 3 * full_blocks <= inp.Length && 4 * full_blocks <= out.Length
    modifies out
    ensures in_pos == 3 * full_blocks && out_pos == 4 * full_blocks
    ensures out[..out_pos] == Encoded(inp[..][..in_pos])
    ensures forall k | out_pos <= k < out.Length :: out[k] == old(out[k])
  {
    in_pos, out_pos := 0, 0;
    var i := 0;
    ghost var b := inp[..];
    while i < full_blocks
      invariant 0 <= i <= full_blocks && in_pos == 3 * i && out_pos == 4 * i
      invariant out[..out_pos] == Encoded(b[..in_pos])
      invariant forall k | out_pos <= k < out.Length :: out[k] == old(out[k])
    {
      MoreEncoded(b, i, 3);
      ghost var front := out[..out_pos];
      EncodeBlock(inp, in_pos, out, out_pos, 3);
      Joined(out[..], out_pos, out_pos + 4);
      assert out[..out_pos] == front;
      in_pos := in_pos + 3;
      out_pos := out_pos + 4;
      i := i + 1;
    }
  }

  lemma {:induction false} Joined<T>(s: seq<T>, i: nat, j: nat)
    requires i <= j <= |s|
    ensures s[..j] == s[..i] + s[i..j]
  {
  }

  lemma {:induction false} GroupsOfLength(len: nat)
    ensures Groups(len) == len / 3 + if len % 3 != 0 then 1 else 0
  {
  }

  // ----- decoding

  /** Octet `k` of a group lies across the values `k` and `k + 1`. */
  function Octet(v: seq<nat>, k: nat): byte
    requires k < 3 && k + 1 < |v|
  {
    var w := v[k] * 64 + v[k + 1];
    (if k == 0 then w / 16 else if k == 1 then w / 4 else w) % 256
  }

  /** The first `n` octets of a group of four values. */
  function Ungroup(v: seq<nat>, n: nat): (b: seq<byte>)
    requires n <= 3 && n < |v|
    ensures |b| == n
    decreases n, |v|
  {
    if n == 0 then [] else Ungroup(v, n - 1) + [Octet(v, n - 1)]
  }

  lemma {:induction false} UngroupIs(v: seq<nat>, b: seq<byte>)
    requires |b| <= 3 && |b| < |v| && forall k | 0 <= k < |b| :: b[k] == Octet(v, k)
    ensures b == Ungroup(v, |b|)
    decreases |b|
  {
    if b != [] {
      var n := |b| - 1;
      UngroupIs(v, b[..n]);
      assert b == b[..n] + [b[n]];
    }
  }

  /** How many characters the octets are read from. */
  function Needed(len: nat): nat {
    4 * (len / 3) + if len % 3 == 0 then 0 else len % 3 + 1
  }

  function DecodedGroups(v: seq<nat>, i: nat): (b: seq<byte>)
    requires 4 * i <= |v|
    ensures |b| == 3 * i
    decreases i
  {
    if i == 0 then [] else DecodedGroups(v, i - 1) + Ungroup(v[4 * i - 4..4 * i], 3)
  }

  function DecodedValues(v: seq<nat>, len: nat): (b: seq<byte>)
    requires Needed(len) <= |v|
    ensures |b| == len
  {
    var i, n := len / 3, len % 3;
    DecodedGroups(v, i) + if n == 0 then [] else Ungroup(v[4 * i..4 * i + n + 1], n)
  }

  function Decoded(t: string, len: nat): (b: seq<byte>)
    requires Needed(len) <= |t|
    ensures |b| == len
  {
    DecodedValues(ReadValues(t), len)
  }

  /** The characters that `len` octets need are there, each of the alphabet or padding. */
  ghost predicate Decodable(t: string, len: nat) {
    Needed(len) <= |t| && forall k | 0 <= k < Needed(len) :: InAlphabet(t[k]) || t[k] == '='
  }

  /** The octets, value by value. */
  lemma {:induction false} OctetByParts(v: seq<nat>, k: nat)
    requires k < 3 && k + 1 < |v| && v[k] < 64 && v[k + 1] < 64
    ensures Octet(v, k) as nat ==
              if k == 0 then v[0] * 4 + v[1] / 16
              else if k == 1 then v[1] % 16 * 16 + v[2] / 4
              else v[2] % 4 * 64 + v[3]
  {
    var x, y := v[k], v[k + 1];
    if k == 0 {
      DivMod(x * 64 + y, 16, x * 4 + y / 16, y % 16);
      DivMod(x * 4 + y / 16, 256, 0, x * 4 + y / 16);
    } else if k == 1 {
      DivMod(x * 64 + y, 4, x * 16 + y / 4, y % 4);
      DivMod(x * 16 + y / 4, 256, x / 16, x % 16 * 16 + y / 4);
    } else {
      DivMod(x * 64 + y, 256, x / 4, x % 4 * 64 + y);
    }
  }

  lemma {:induction false} PartsFit(b0: nat, b1: nat, b2: nat)
    requires b0 < 256 && b1 < 256 && b2 < 256
    ensures var v0, v1, v2 := b0 / 4, b0 % 4 * 16 + b1 / 16, b1 % 16 * 4 + b2 / 64;
            && v0 * 4 + v1 / 16 == b0
            && v1 % 16 * 16 + v2 / 4 == b1
            && v2 % 4 * 64 + b2 % 64 == b2
  {
    DivMod(b0 % 4 * 16 + b1 / 16, 16, b0 % 4, b1 / 16);
    DivMod(b1 % 16 * 4 + b2 / 64, 4, b1 % 16, b2 / 64);
  }

  /** Any text that starts with the values of the group is decoded to its octets. */
  lemma {:induction false} UngroupUndoesGroup(b: seq<byte>, v: seq<nat>)
    requires 0 < |b| <= 3 && |v| == |b| + 1 && v == Group(b)[..|b| + 1]
    ensures Ungroup(v, |b|) == b
  {
    GroupByParts(b);
    assert forall k | 0 <= k <= |b| :: v[k] == Group(b)[k];
    PartsFit(b[0], if |b| > 1 then b[1] else 0, if |b| > 2 then b[2] else 0);
    OctetByParts(v, 0);
    if |b| > 1 { OctetByParts(v, 1); }
    if |b| > 2 { OctetByParts(v, 2); }
    UngroupIs(v, b);
  }

  /** Group `i` of the text. */
  lemma {:induction false} SextetGroup(b: seq<byte>, i: nat, n: nat)
    requires 0 < n <= 3 && 3 * i + n <= |b| && (n == 3 || 3 * i + n == |b|)
    ensures 4 * i + 4 <= |Sextets(b)| && Sextets(b)[4 * i..4 * i + 4] == Group(b[3 * i..3 * i + n])
    decreases i
  {
    if i > 0 {
      SextetGroup(b[3..], i - 1, n);
      SameGroup(Group(b[..3]), Sextets(b[3..]), b, i, n);
    } else {
      assert b[0..n] == b[..n];
      if n == 3 && |b| > 3 { FirstFour(Group(b[..3]), Sextets(b[3..])); } else { assert b[..n] == b; }
    }
  }

  lemma {:induction false} FirstFour(g: seq<nat>, rest: seq<nat>)
    requires |g| == 4
    ensures (g + rest)[0..4] == g
  {
  }

  lemma {:induction false} SameGroup(g: seq<nat>, rest: seq<nat>, b: seq<byte>, i: nat, n: nat)
    requires |g| == 4 && i > 0 && 3 * i + n <= |b| && 4 * i <= |rest|
    ensures (g + rest)[4 * i..4 * i + 4] == rest[4 * (i - 1)..4 * (i - 1) + 4]
    ensures b[3..][3 * (i - 1)..3 * (i - 1) + n] == b[3 * i..3 * i + n]
  {
  }

  /** The values fall into the first `n` groups of the octets. */
  ghost predicate InGroups(b: seq<byte>, v: seq<nat>, n: nat) {
    3 * n <= |b| && 4 * n <= |v| && forall k: nat | k < n :: v[4 * k..4 * k + 4] == Group(b[3 * k..3 * k + 3])
  }

  lemma {:induction false} GroupsAreDecoded(b: seq<byte>, v: seq<nat>, i: nat)
    requires InGroups(b, v, i)
    ensures DecodedGroups(v, i) == b[..3 * i]
    decreases i
  {
    if i > 0 {
      assert v[4 * (i - 1)..4 * (i - 1) + 4] == Group(b[3 * (i - 1)..3 * (i - 1) + 3]);
      GroupsAreDecoded(b, v, i - 1);
      OneMoreDecoded(b, v, i - 1);
    }
  }

  lemma {:induction false} SextetsInGroups(b: seq<byte>)
    ensures InGroups(b, Sextets(b), |b| / 3)
  {
    var n := |b| / 3;
    if n > 0 { SextetGroup(b, n - 1, 3); }
    forall k: nat | k < n ensures Sextets(b)[4 * k..4 * k + 4] == Group(b[3 * k..3 * k + 3]) {
      SextetGroup(b, k, 3);
    }
  }

  lemma {:induction false} OneMoreDecoded(b: seq<byte>, v: seq<nat>, i: nat)
    requires 3 * i + 3 <= |b| && 4 * i + 4 <= |v| && DecodedGroups(v, i) == b[..3 * i]
    requires v[4 * i..4 * i + 4] == Group(b[3 * i..3 * i + 3])
    ensures DecodedGroups(v, i + 1) == b[..3 * (i + 1)]
  {
    var g := b[3 * i..3 * i + 3];
    GroupIsDecoded(g, v, 4 * i);
    NextGroup(v, i, g);
    Joined(b, 3 * i, 3 * i + 3);
  }

  lemma {:induction false} NextGroup(v: seq<nat>, i: nat, g: seq<byte>)
    requires 4 * i + 4 <= |v| && g == Ungroup(v[4 * i..4 * i + 4], 3)
    ensures DecodedGroups(v, i + 1) == DecodedGroups(v, i) + g
  {
  }

  lemma {:induction false} GroupIsDecoded(g: seq<byte>, v: seq<nat>, at: nat)
    requires 0 < |g| <= 3 && at + 4 <= |v| && v[at..at + 4] == Group(g)
    ensures Ungroup(v[at..at + |g| + 1], |g|) == g
  {
    var u := v[at..at + |g| + 1];
    assert u == v[at..at + 4][..|g| + 1];
    UngroupUndoesGroup(g, u);
  }

  lemma {:induction false} SextetsAreDecoded(b: seq<byte>)
    ensures Needed(|b|) <= |Sextets(b)| && DecodedValues(Sextets(b), |b|) == b
  {
    var v, i, n := Sextets(b), |b| / 3, |b| % 3;
    SextetsInGroups(b);
    GroupsAreDecoded(b, v, i);
    if n > 0 {
      SextetGroup(b, i, n);
      RestIsDecoded(b, v, i, n);
    }
    assert |b| == 3 * i + n;
    assert b[..|b|] == b;
  }

  /** The octets behind the last full group. */
  lemma {:induction false} RestIsDecoded(b: seq<byte>, v: seq<nat>, i: nat, n: nat)
    requires 0 < n < 3 && |b| == 3 * i + n && 4 * i + 4 <= |v| && DecodedGroups(v, i) == b[..3 * i]
    requires v[4 * i..4 * i + 4] == Group(b[3 * i..3 * i + n])
    ensures DecodedGroups(v, i) + Ungroup(v[4 * i..4 * i + n + 1], n) == b
  {
    GroupIsDecoded(b[3 * i..3 * i + n], v, 4 * i);
    Joined(b, 3 * i, |b|);
    assert b[..|b|] == b;
  }

  /** The characters that decoding reads are of the alphabet. */
  lemma {:induction false} NeededAreInAlphabet(b: seq<byte>, k: nat)
    requires k < Needed(|b|)
    ensures k < |Encoded(b)| && InAlphabet(Encoded(b)[k])
  {
    var v, i, m := Sextets(b), k / 4, k % 4;
    var n := if 3 * i + 3 <= |b| then 3 else |b| - 3 * i;
    SextetGroup(b, i, n);
    GroupByParts(b[3 * i..3 * i + n]);
    assert v[k] == v[4 * i..4 * i + 4][m];
    assert m <= n && v[k] < 64;
    SextetsAtMost(b);
    ValueOfAlphabet(v[k]);
  }

  lemma {:induction false} ReadAsValues(t: string, len: nat)
    requires Needed(len) <= |t| && forall k | 0 <= k < Needed(len) :: InAlphabet(t[k])
    ensures DecodedValues(ReadValues(t), len) == DecodedValues(Values(t), len)
  {
    var u := Values(t)[..Needed(len)];
    assert u == ReadValues(t)[..Needed(len)];
    PrefixIsEnough(Values(t), u, len);
    PrefixIsEnough(ReadValues(t), u, len);
  }

  /** Decoding to the length told by the padding gives the octets back, and reads only characters of the alphabet. */
  lemma {:induction false} DecodeUndoesEncode(b: seq<byte>)
    ensures DecLen(Encoded(b)) == |b| && Decodable(Encoded(b), |b|) && Decoded(Encoded(b), |b|) == b
    ensures forall k | 0 <= k < Needed(|b|) :: InAlphabet(Encoded(b)[k])
  {
    DecLenOfEncoded(b);
    SextetsAtMost(b);
    ValuesOfText(Sextets(b));
    SextetsAreDecoded(b);
    forall k | 0 <= k < Needed(|b|) ensures InAlphabet(Encoded(b)[k]) { NeededAreInAlphabet(b, k); }
    ReadAsValues(Encoded(b), |b|);
  }

  /** The characters from `inPos` on are of the alphabet or padding, and are read as the values. */
  ghost predicate Stands(inp: array<char>, inPos: nat, v: seq<nat>)
    requires inPos + |v| <= inp.Length
    reads inp
  {
    forall k | 0 <= k < |v| :: v[k] == ReadAs(inp[inPos + k]) < 64
  }

  method DecodeBlock(inp: array<char>, inPos: nat, out: array<byte>, outPos: nat, len: nat, ghost v: seq<nat>)
    requires 0 < len <= 3 && inPos + len < inp.Length && outPos + len <= out.Length
    requires |v| == len + 1 && Stands(inp, inPos, v)
    modifies out
    ensures out[outPos..outPos + len] == Ungroup(v, len)
    ensures forall k | 0 <= k < outPos || outPos + len <= k < out.Length :: out[k] == old(out[k])
  {
    assert v[0] == ReadAs(inp[inPos + 0]) && v[1] == ReadAs(inp[inPos + 1]);
    var v0 := DecValue(inp[inPos]);
    var v1 := DecValue(inp[inPos + 1]);
    OctetByParts(v, 0);
    var b0: byte, b1: byte, b2: byte := v0 * 4 + v1 / 16, 0, 0;
    if len > 1 {
      assert v[2] == ReadAs(inp[inPos + 2]);
      var v2 := DecValue(inp[inPos + 2]);
      OctetByParts(v, 1);
      b1 := v1 % 16 * 16 + v2 / 4;
      if len > 2 {
        assert v[3] == ReadAs(inp[inPos + 3]);
        var v3 := DecValue(inp[inPos + 3]);
        OctetByParts(v, 2);
        b2 := v2 % 4 * 64 + v3;
      }
    }
    WriteOctets(out, outPos, len, b0, b1, b2);
    UngroupIs(v, [b0, b1, b2][..len]);
  }

  method WriteOctets(out: array<byte>, outPos: nat, len: nat, b0: byte, b1: byte, b2: byte)
    requires 0 < len <= 3 && outPos + len <= out.Length
    modifies out
    ensures out[outPos..outPos + len] == [b0, b1, b2][..len]
    ensures forall k | 0 <= k < outPos || outPos + len <= k < out.Length :: out[k] == old(out[k])
  {
    out[outPos] := b0;
    if len > 1 { out[outPos + 1] := b1; }
    if len > 2 { out[outPos + 2] := b2; }
  }

  lemma {:induction false} StandsPart(inp: array<char>, v: seq<nat>, i: nat, j: nat)
    requires i <= j <= |v| <= inp.Length && Stands(inp, 0, v)
    ensures Stands(inp, i, v[i..j])
  {
    forall k | 0 <= k < j - i ensures v[i..j][k] == ReadAs(inp[i + k]) < 64 {
      assert v[i + k] == ReadAs(inp[0 + (i + k)]);
    }
  }

  method DecodeNext(inp: array<char>, in_pos: nat, out: array<byte>, out_pos: nat, ghost v: seq<nat>, ghost i: nat)
    requires in_pos == 4 * i && out_pos == 3 * i && out_pos + 3 <= out.Length && in_pos + 4 <= |v| <= inp.Length
    requires Stands(inp, 0, v) && out[..out_pos] == DecodedGroups(v, i)
    modifies out
    ensures out[..out_pos + 3] == DecodedGroups(v, i + 1)
    ensures forall k | out_pos + 3 <= k < out.Length :: out[k] == old(out[k])
  {
    ghost var front := out[..out_pos];
    StandsPart(inp, v, in_pos, in_pos + 4);
    DecodeBlock(inp, in_pos, out, out_pos, 3, v[in_pos..in_pos + 4]);
    NextGroup(v, i, out[out_pos..out_pos + 3]);
    Joined(out[..], out_pos, out_pos + 3);
    assert out[..out_pos] == front;
  }

  method DecodeFullBlocks(inp: array<char>, out: array<byte>, full_blocks: nat, ghost v: seq<nat>)
      returns (in_pos: nat, out_pos: nat)
    requires 3 * full_blocks <= out.Length && 4 * full_blocks <= |v| <= inp.Length && Stands(inp, 0, v)
    modifies out
    ensures in_pos == 4 * full_blocks && out_pos == 3 * full_blocks
    ensures out[..out_pos] == DecodedGroups(v, full_blocks)
    ensures forall k | out_pos <= k < out.Length :: out[k] == old(out[k])
  {
    in_pos, out_pos := 0, 0;
    var i := 0;
    while i < full_blocks
      invariant 0 <= i <= full_blocks && in_pos == 4 * i && out_pos == 3 * i
      invariant out[..out_pos] == DecodedGroups(v, i)
      invariant forall k | out_pos <= k < out.Length :: out[k] == old(out[k])
    {
      DecodeNext(inp, in_pos, out, out_pos, v, i);
      in_pos := in_pos + 4;
      out_pos := out_pos + 3;
      i := i + 1;
    }
  }

  /** `len` is the length of the result; only the characters these octets need are read. */
  method Decode(inp: array<char>, out: array<byte>, len: nat)
    requires len <= out.Length && Decodable(inp[..], len)
    modifies out
    ensures out[..len] == Decoded(inp[..], len)
    ensures forall k | len <= k < out.Length :: out[k] == old(out[k])
  {
    ghost var v := NeededValues(inp[..], len);
    assert Stands(inp, 0, v);
    DecodeNeeded(inp, out, len, v);
  }

  lemma {:induction false} NeededValues(t: string, len: nat) returns (v: seq<nat>)
    requires Decodable(t, len)
    ensures |v| == Needed(len) && DecodedValues(v, len) == Decoded(t, len)
    ensures forall k | 0 <= k < |v| :: v[k] == ReadAs(t[k]) < 64
  {
    v := ReadValues(t)[..Needed(len)];
    forall k | 0 <= k < |v| ensures v[k] == ReadAs(t[k]) < 64 { assert InAlphabet(t[k]) || t[k] == '='; }
    PrefixIsEnough(ReadValues(t), v, len);
  }

  lemma {:induction false} PrefixIsEnough(v: seq<nat>, u: seq<nat>, len: nat)
    requires Needed(len) <= |v| && u == v[..Needed(len)]
    ensures DecodedValues(u, len) == DecodedValues(v, len)
  {
    var i, n := len / 3, len % 3;
    PrefixGroups(v, u, i);
    if n > 0 { assert u[4 * i..4 * i + n + 1] == v[4 * i..4 * i + n + 1]; }
  }

  lemma {:induction false} PrefixGroups(v: seq<nat>, u: seq<nat>, i: nat)
    requires 4 * i <= |u| <= |v| && u == v[..|u|]
    ensures DecodedGroups(u, i) == DecodedGroups(v, i)
    decreases i
  {
    if i > 0 {
      PrefixGroups(v, u, i - 1);
      assert u[4 * i - 4..4 * i] == v[4 * i - 4..4 * i];
    }
  }

  method DecodeNeeded(inp: array<char>, out: array<byte>, len: nat, ghost v: seq<nat>)
    requires len <= out.Length && |v| == Needed(len) <= inp.Length && Stands(inp, 0, v)
    modifies out
    ensures out[..len] == DecodedValues(v, len)
    ensures forall k | len <= k < out.Length :: out[k] == old(out[k])
  {
    var full_blocks := len / 3;
    var in_pos, out_pos := DecodeFullBlocks(inp, out, full_blocks, v);
    if len % 3 != 0 {
      ghost var front := out[..out_pos];
      StandsPart(inp, v, in_pos, in_pos + len % 3 + 1);
      DecodeBlock(inp, in_pos, out, out_pos, len % 3, v[in_pos..in_pos + len % 3 + 1]);
      Joined(out[..], out_pos, len);
      assert out[..out_pos] == front;
    }
  }
}
