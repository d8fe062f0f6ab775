/** Files as byte sequences with a position; every operation succeeds. */
module Files {
  import opened Common
  import opened Blocks

  class QFile {
    var exists_: bool
    var bytes: seq<byte>
    var pos: nat

    constructor ()
      ensures !exists_ && bytes == [] && pos == 0
    {
      exists_, bytes, pos := false, [], 0;
    }

    method OpenReadWrite()
      modifies this
      ensures exists_ && pos == 0 && bytes == if old(exists_) then old(bytes) else []
    {
      if !exists_ { bytes := []; }
      exists_, pos := true, 0;
    }

    method Seek(p: nat)
      modifies `pos
      ensures pos == p
    {
      pos := p;
    }

    method Read(n: nat) returns (data: seq<byte>)
      modifies `pos
      ensures data == ReadFrom(bytes, old(pos), n) && pos == old(pos) + |data|
    {
      data := ReadFrom(bytes, pos, n);
      pos := pos + |data|;
    }

    method Write(data: seq<byte>)
      modifies `bytes, `pos
      ensures bytes == Written(0, old(bytes), old(pos), data) && pos == old(pos) + |data|
    {
      bytes := Written(0, bytes, pos, data);
      pos := pos + |data|;
    }

    method Resize(n: nat)
      modifies `bytes
      ensures bytes == if n <= |old(bytes)| then old(bytes)[..n] else old(bytes) + Copies(0, n - |old(bytes)|)
    {
      bytes := if n <= |bytes| then bytes[..n] else bytes + Copies(0, n - |bytes|);
    }
  }

  // ----- little-endian numbers

  function Pow256(k: nat): (p: nat)
    ensures p >= 1
  {
    if k == 0 then 1 else 256 * Pow256(k - 1)
  }

  function ToLE(n: nat, k: nat): (b: seq<byte>)
    ensures |b| == k
    decreases k, n
  {
    if k == 0 then [] else [n % 256] + ToLE(n / 256, k - 1)
  }

  function FromLE(b: seq<byte>): nat {
    if b == [] then 0 else b[0] + 256 * FromLE(b[1..])
  }

  lemma {:induction false} LERoundTrip(n: nat, k: nat)
    requires n < Pow256(k)
    ensures FromLE(ToLE(n, k)) == n
    decreases k, n
  {
    if k > 0 {
      assert n / 256 < Pow256(k - 1);
      LERoundTrip(n / 256, k - 1);
      assert ToLE(n, k)[1..] == ToLE(n / 256, k - 1);
    }
  }

  lemma {:induction false} LowDigit(b: byte, rest: nat)
    ensures (b + 256 * rest) % 256 == b && (b + 256 * rest) / 256 == rest
  {
  }

  lemma {:induction false} LEOfRead(b: seq<byte>)
    ensures FromLE(b) < Pow256(|b|) && ToLE(FromLE(b), |b|) == b
    decreases |b|
  {
    if b != [] {
      LEOfRead(b[1..]);
      LowDigit(b[0], FromLE(b[1..]));
      assert b == [b[0]] + b[1..];
    }
  }

  const U32: nat := 0x1_0000_0000
  const U64: nat := 0x1_0000_0000_0000_0000

  lemma {:induction false} Widths()
    ensures Pow256(4) == U32 && Pow256(8) == U64
  {
    assert Pow256(1) == 256;
    assert Pow256(2) == 0x1_0000;
    assert Pow256(3) == 0x100_0000;
    assert Pow256(4) == U32;
    assert Pow256(5) == 0x100_0000_0000;
    assert Pow256(6) == 0x1_0000_0000_0000;
    assert Pow256(7) == 0x100_0000_0000_0000;
  }

  /** A 64-bit signed number in two's complement, as it lies in memory. */
  predicate IsInt64(n: int) {
    -0x8000_0000_0000_0000 <= n < 0x8000_0000_0000_0000
  }

  function ToInt64(n: int): (b: seq<byte>)
    requires IsInt64(n)
    ensures |b| == 8
  {
    ToLE(if n < 0 then n + U64 else n, 8)
  }

  function FromInt64(b: seq<byte>): int
    requires |b| == 8
  {
    var u := FromLE(b);
    if u < 0x8000_0000_0000_0000 then u else u - U64
  }

  lemma {:induction false} Int64RoundTrip(n: int)
    requires IsInt64(n)
    ensures FromInt64(ToInt64(n)) == n
  {
    Widths();
    LERoundTrip(if n < 0 then n + U64 else n, 8);
  }

  lemma {:induction false} Int64OfRead(b: seq<byte>)
    requires |b| == 8
    ensures IsInt64(FromInt64(b)) && ToInt64(FromInt64(b)) == b
  {
    Widths();
    LEOfRead(b);
  }
}
