/** Device identifiers and their two text forms (ARpcUuid). */
module Uuid {
  import opened Common

  type Id = s: seq<byte> | |s| == 16 witness [0, 0, 0, 0, 0, 0, 0, 0, 0, 0, 0, 0, 0, 0, 0, 0]

  const NULL_ID: Id := [0, 0, 0, 0, 0, 0, 0, 0, 0, 0, 0, 0, 0, 0, 0, 0]
  const BAD_DIGIT: byte := 0xff

  predicate IsValid(u: Id) {
    exists i | 0 <= i < 16 :: u[i] != 0
  }

  function ByteFromHexChar(c: char): byte {
    if '0' <= c <= '9' then c as int - '0' as int
    else if 'a' <= c <= 'f' then c as int - 87
    else if 'A' <= c <= 'F' then c as int - 55
    else BAD_DIGIT
  }

  function HexDigit(n: nat): char
    requires n < 16
  {
    if n <= 9 then (n + '0' as int) as char else (n - 10 + 'a' as int) as char
  }

  function ToLower(c: char): char {
    if 'A' <= c <= 'Z' then (c as int + 32) as char else c
  }

  function Lowered(s: string): (r: string)
    ensures |r| == |s|
    ensures forall i | 0 <= i < |s| :: r[i] == ToLower(s[i])
  {
    seq(|s|, i requires 0 <= i < |s| => ToLower(s[i]))
  }

  predicate IsHex(s: string) {
    forall i | 0 <= i < |s| :: ByteFromHexChar(s[i]) != BAD_DIGIT
  }

  lemma {:induction false} DigitRoundTrip(n: nat)
    requires n < 16
    ensures ByteFromHexChar(HexDigit(n)) == n
  {
  }

  lemma {:induction false} DigitLowers(c: char)
    requires ByteFromHexChar(c) != BAD_DIGIT
    ensures ByteFromHexChar(c) < 16 && HexDigit(ByteFromHexChar(c)) == ToLower(c)
  {
  }

  /** The digits by their values. */
  lemma {:induction false} DigitsByValue(n: nat)
    requires n < 16
    ensures HexDigit(n) == "0123456789abcdef"[n]
  {
  }

  /** The bytes in lower-case hexadecimal, high digit first. */
  function HexOf(b: seq<byte>): (s: string)
    ensures |s| == 2 * |b|
  {
    if b == [] then "" else [HexDigit(b[0] / 16), HexDigit(b[0] % 16)] + HexOf(b[1..])
  }

  function BytesOf(s: string): (b: seq<byte>)
    requires |s| % 2 == 0 && IsHex(s)
    ensures |b| == |s| / 2
  {
    if s == "" then []
    else
      DigitLowers(s[0]); DigitLowers(s[1]);
      [16 * ByteFromHexChar(s[0]) + ByteFromHexChar(s[1])] + BytesOf(s[2..])
  }

  lemma {:induction false} HexRoundTrip(b: seq<byte>)
    ensures IsHex(HexOf(b)) && BytesOf(HexOf(b)) == b
  {
    if b != [] {
      HexRoundTrip(b[1..]);
      DigitRoundTrip(b[0] / 16);
      DigitRoundTrip(b[0] % 16);
      assert HexOf(b)[2..] == HexOf(b[1..]);
      assert b == [b[0]] + b[1..];
      forall i | 0 <= i < |HexOf(b)| ensures ByteFromHexChar(HexOf(b)[i]) != BAD_DIGIT {
        if i >= 2 { assert HexOf(b)[i] == HexOf(b[1..])[i - 2]; }
      }
    }
  }

  lemma {:induction false} PairLowers(c: char, d: char, b: byte)
    requires ByteFromHexChar(c) != BAD_DIGIT && ByteFromHexChar(d) != BAD_DIGIT
             && b == 16 * ByteFromHexChar(c) + ByteFromHexChar(d)
    ensures HexDigit(b / 16) == ToLower(c) && HexDigit(b % 16) == ToLower(d)
  {
    DigitLowers(c);
    DigitLowers(d);
    assert b / 16 == ByteFromHexChar(c) && b % 16 == ByteFromHexChar(d);
  }

  lemma {:induction false} HexOfStep(b: seq<byte>)
    requires b != []
    ensures HexOf(b) == [HexDigit(b[0] / 16), HexDigit(b[0] % 16)] + HexOf(b[1..])
  {
  }

  lemma {:induction false} LoweredSlice(s: string, i: nat, j: nat)
    requires i <= j <= |s|
    ensures Lowered(s)[i..j] == Lowered(s[i..j])
  {
  }

  lemma {:induction false} LoweredStep(s: string)
    requires |s| >= 2
    ensures Lowered(s) == [ToLower(s[0]), ToLower(s[1])] + Lowered(s[2..])
  {
  }

  lemma {:induction false} BytesRoundTrip(s: string)
    requires |s| % 2 == 0 && IsHex(s)
    ensures HexOf(BytesOf(s)) == Lowered(s)
  {
    if s != "" {
      BytesRoundTrip(s[2..]);
      BytesOfStep(s);
      LoweredStep(s);
      PairLowers(s[0], s[1], BytesOf(s)[0]);
      HexOfStep(BytesOf(s));
    }
  }

  lemma {:induction false} HexOfNext(v: seq<byte>, from: nat, at: nat)
    requires from <= at < |v|
    ensures HexOf(v[from..at + 1]) == HexOf(v[from..at]) + [HexDigit(v[at] / 16), HexDigit(v[at] % 16)]
  {
    assert v[from..at + 1] == v[from..at] + [v[at]];
    HexOfSplit(v[from..at], [v[at]]);
    HexOfStep([v[at]]);
    assert [v[at]][1..] == [];
  }

  lemma {:induction false} HexOfSplit(a: seq<byte>, b: seq<byte>)
    ensures HexOf(a + b) == HexOf(a) + HexOf(b)
  {
    if a == [] {
      assert a + b == b;
    } else {
      HexOfSplit(a[1..], b);
      assert (a + b)[1..] == a[1..] + b;
    }
  }

  lemma {:induction false} BytesOfSplit(s: string, t: string)
    requires |s| % 2 == 0 && |t| % 2 == 0 && IsHex(s) && IsHex(t)
    ensures IsHex(s + t) && BytesOf(s + t) == BytesOf(s) + BytesOf(t)
  {
    if s == "" {
      assert s + t == t;
    } else {
      BytesOfSplit(s[2..], t);
      HexJoined(s, t);
      BytesOfStep(s);
      BytesOfStep(s + t);
      FirstJoined(BytesOf(s + t), BytesOf(s), BytesOf(t));
    }
  }

  lemma {:induction false} HexJoined(s: string, t: string)
    requires |s| >= 2 && IsHex(s) && IsHex(t)
    ensures IsHex(s + t) && (s + t)[0] == s[0] && (s + t)[1] == s[1] && (s + t)[2..] == s[2..] + t
  {
  }

  lemma {:induction false} FirstJoined(all: seq<byte>, a: seq<byte>, b: seq<byte>)
    requires all != [] && a != [] && all[0] == a[0] && all[1..] == a[1..] + b
    ensures all == a + b
  {
    assert all == [all[0]] + all[1..] && a == [a[0]] + a[1..];
  }

  lemma {:induction false} BytesOfStep(s: string)
    requires s != "" && |s| % 2 == 0 && IsHex(s)
    ensures |BytesOf(s)| > 0 && BytesOf(s)[0] == 16 * ByteFromHexChar(s[0]) + ByteFromHexChar(s[1])
            && BytesOf(s)[1..] == BytesOf(s[2..])
    ensures BytesOf(s) == BytesOf(s)[..1] + BytesOf(s[2..])
  {
  }

  // ----- the two text forms

  function Hex(u: Id): (s: string)
    ensures |s| == 32
  {
    HexOf(u)
  }

  /** The form of section 3 of RFC 4122, in braces. */
  function Rfc(u: Id): (s: string)
    ensures |s| == 38
  {
    "{" + HexOf(u[0..4]) + "-" + HexOf(u[4..6]) + "-" + HexOf(u[6..8]) + "-" + HexOf(u[8..10]) + "-"
    + HexOf(u[10..16]) + "}"
  }

  predicate RfcShape(s: string) {
    |s| == 38 && s[0] == '{' && s[9] == '-' && s[14] == '-' && s[19] == '-' && s[24] == '-' && s[37] == '}'
  }

  /** The texts `parse` looks into; on every other text it leaves the object as it was. */
  predicate FullForm(s: string) {
    RfcShape(s) || (|s| == 32 && s[0] != '{')
  }

  /** The 32 digits of a text of either form. */
  function Digits(s: string): (d: string)
    requires FullForm(s)
    ensures |d| == 32
  {
    if |s| == 38 then s[1..9] + s[10..14] + s[15..19] + s[20..24] + s[25..37] else s
  }

  /** What an object holding `old_` holds after parsing the C string `s`. */
  function Parse(old_: Id, s: string): Id {
    if !FullForm(s) then old_
    else if IsHex(Digits(s)) then BytesOf(Digits(s))
    else NULL_ID
  }

  lemma {:induction false} HexParses(old_: Id, u: Id)
    ensures FullForm(Hex(u)) && Parse(old_, Hex(u)) == u
  {
    HexRoundTrip(u);
    assert ByteFromHexChar(Hex(u)[0]) != BAD_DIGIT;
  }

  /** The five groups tile the 32 digits of the plain form. */
  lemma {:induction false} RfcTiles(u: Id)
    ensures RfcShape(Rfc(u)) && Digits(Rfc(u)) == Hex(u)
  {
    var s := Rfc(u);
    HexOfSplit(u[0..4], u[4..6]);
    HexOfSplit(u[0..4] + u[4..6], u[6..8]);
    HexOfSplit(u[0..4] + u[4..6] + u[6..8], u[8..10]);
    HexOfSplit(u[0..4] + u[4..6] + u[6..8] + u[8..10], u[10..16]);
    assert u == u[0..4] + u[4..6] + u[6..8] + u[8..10] + u[10..16];
    assert s[1..9] == HexOf(u[0..4]);
    assert s[10..14] == HexOf(u[4..6]);
    assert s[15..19] == HexOf(u[6..8]);
    assert s[20..24] == HexOf(u[8..10]);
    assert s[25..37] == HexOf(u[10..16]);
  }

  /** The braced form: the plain one in groups of eight, four, four, four and twelve digits with dashes between. */
  lemma {:induction false} RfcLayout(u: Id)
    ensures var h := Hex(u);
            Rfc(u) == "{" + h[0..8] + "-" + h[8..12] + "-" + h[12..16] + "-" + h[16..20] + "-" + h[20..32] + "}"
  {
    RfcTiles(u);
    var s, h := Rfc(u), Hex(u);
    assert h == s[1..9] + s[10..14] + s[15..19] + s[20..24] + s[25..37];
    assert h[0..8] == s[1..9] && h[8..12] == s[10..14] && h[12..16] == s[15..19] && h[16..20] == s[20..24];
    assert h[20..32] == s[25..37];
    assert s == [s[0]] + s[1..9] + [s[9]] + s[10..14] + [s[14]] + s[15..19] + [s[19]] + s[20..24] + [s[24]]
             + s[25..37] + [s[37]];
  }

  /** The plain form: two digits a byte, the high one first. */
  lemma {:induction false} HexLayout(u: Id, i: nat)
    requires i < 16
    ensures Hex(u)[2 * i] == "0123456789abcdef"[u[i] / 16] && Hex(u)[2 * i + 1] == "0123456789abcdef"[u[i] % 16]
  {
    HexOfAt(u, i);
    DigitsByValue(u[i] / 16);
    DigitsByValue(u[i] % 16);
  }

  lemma {:induction false} HexOfAt(b: seq<byte>, i: nat)
    requires i < |b|
    ensures HexOf(b)[2 * i] == HexDigit(b[i] / 16) && HexOf(b)[2 * i + 1] == HexDigit(b[i] % 16)
    decreases i
  {
    HexOfStep(b);
    if i > 0 {
      HexOfAt(b[1..], i - 1);
      assert HexOf(b)[2 * i] == HexOf(b[1..])[2 * (i - 1)] && HexOf(b)[2 * i + 1] == HexOf(b[1..])[2 * (i - 1) + 1];
    }
  }

  /** A text of any other length, and one whose first character belongs to the other form, leaves the id as it was. */
  lemma {:induction false} OtherTextKeepsId(old_: Id, s: string)
    requires if |s| == 38 then s[0] != '{' else |s| == 32 ==> s[0] == '{'
    ensures Parse(old_, s) == old_
  {
  }

  lemma {:induction false} RfcParses(old_: Id, u: Id)
    ensures FullForm(Rfc(u)) && Parse(old_, Rfc(u)) == u
  {
    RfcTiles(u);
    HexRoundTrip(u);
  }

  /** A text with the braces, the dashes and the five groups in place is the printed form. */
  lemma {:induction false} RfcAssembled(s: string, u: Id)
    requires RfcShape(s)
    requires s[1..9] == HexOf(u[0..4]) && s[10..14] == HexOf(u[4..6]) && s[15..19] == HexOf(u[6..8])
    requires s[20..24] == HexOf(u[8..10]) && s[25..37] == HexOf(u[10..16])
    ensures s == Rfc(u)
  {
    assert s == [s[0]] + s[1..9] + [s[9]] + s[10..14] + [s[14]] + s[15..19] + [s[19]] + s[20..24] + [s[24]]
             + s[25..37] + [s[37]];
  }

  lemma {:induction false} GroupsAreHex(s: string)
    requires RfcShape(s)
    ensures IsHex(Digits(s)) <==> (IsHex(s[1..9]) && IsHex(s[10..14]) && IsHex(s[15..19]) && IsHex(s[20..24])
              && IsHex(s[25..37]))
  {
    var d := Digits(s);
    assert d[0..8] == s[1..9];
    assert d[8..12] == s[10..14];
    assert d[12..16] == s[15..19];
    assert d[16..20] == s[20..24];
    assert d[20..32] == s[25..37];
    if IsHex(d) {
      assert IsHex(d[0..8]) && IsHex(d[8..12]) && IsHex(d[12..16]) && IsHex(d[16..20]) && IsHex(d[20..32]);
    }
  }

  lemma {:induction false} GroupsJoin(s: string)
    requires RfcShape(s) && IsHex(Digits(s))
    ensures IsHex(s[1..9]) && IsHex(s[10..14]) && IsHex(s[15..19]) && IsHex(s[20..24]) && IsHex(s[25..37])
    ensures BytesOf(Digits(s)) == BytesOf(s[1..9]) + BytesOf(s[10..14]) + BytesOf(s[15..19]) + BytesOf(s[20..24])
                                  + BytesOf(s[25..37])
  {
    GroupsAreHex(s);
    var g1, g2, g3, g4, g5 := s[1..9], s[10..14], s[15..19], s[20..24], s[25..37];
    BytesOfSplit(g1, g2);
    BytesOfSplit(g1 + g2, g3);
    BytesOfSplit(g1 + g2 + g3, g4);
    BytesOfSplit(g1 + g2 + g3 + g4, g5);
  }

  /** The other direction: an accepted text is the printed form up to letter case, and a text of the right
      shape with one bad digit gives the null id. */
  lemma {:induction false} ParsePrints(old_: Id, s: string)
    requires FullForm(s)
    ensures IsHex(Digits(s)) ==> (if |s| == 38 then Rfc(Parse(old_, s)) else Hex(Parse(old_, s))) == Lowered(s)
    ensures !IsHex(Digits(s)) ==> Parse(old_, s) == NULL_ID && !IsValid(Parse(old_, s))
  {
    if IsHex(Digits(s)) {
      if |s| == 38 {
        RfcParsePrints(old_, s);
      } else {
        BytesRoundTrip(s);
      }
    }
  }

  lemma {:induction false} FrontOf(t: string, s: string)
    requires |s| == 20 && |t| >= 20 && t[..20] == s
    ensures t[1..9] == s[1..9] && t[10..14] == s[10..14] && t[15..19] == s[15..19]
  {
    assert forall k | 0 <= k < 20 :: t[k] == t[..20][k];
  }

  lemma {:induction false} FiveParts(a: seq<byte>, b: seq<byte>, c: seq<byte>, d: seq<byte>, e: seq<byte>, u: seq<byte>)
    requires |a| == 4 && |b| == |c| == |d| == 2 && |e| == 6 && u == a + b + c + d + e
    ensures u[0..4] == a && u[4..6] == b && u[6..8] == c && u[8..10] == d && u[10..16] == e
  {
  }

  lemma {:induction false} RfcParsePrints(old_: Id, s: string)
    requires RfcShape(s) && IsHex(Digits(s))
    ensures Rfc(Parse(old_, s)) == Lowered(s)
  {
    var u, l := Parse(old_, s), Lowered(s);
    GroupsJoin(s);
    var g1, g2, g3, g4, g5 := s[1..9], s[10..14], s[15..19], s[20..24], s[25..37];
    BytesRoundTrip(g1); BytesRoundTrip(g2); BytesRoundTrip(g3); BytesRoundTrip(g4); BytesRoundTrip(g5);
    FiveParts(BytesOf(g1), BytesOf(g2), BytesOf(g3), BytesOf(g4), BytesOf(g5), u);
    LoweredSlice(s, 1, 9); LoweredSlice(s, 10, 14); LoweredSlice(s, 15, 19); LoweredSlice(s, 20, 24);
      LoweredSlice(s, 25, 37);
    RfcAssembled(l, u);
  }

  // ----- the object

  class ArpcUuid {
    const uuid: array<byte>

    ghost predicate Valid()
      reads this
    {
      uuid.Length == 16
    }

    ghost function Value(): Id
      reads this, uuid
      requires Valid()
    {
      uuid[..]
    }

    constructor ()
      ensures Valid() && fresh(uuid) && Value() == NULL_ID
    {
      uuid := new byte[16](_ => 0);
    }

    method Clear()
      requires Valid()
      modifies uuid
      ensures Value() == NULL_ID
    {
      forall i | 0 <= i < 16 { uuid[i] := 0; }
    }

    method IsValidId() returns (ok: bool)
      requires Valid()
      ensures ok == IsValid(Value())
    {
      for i := 0 to 16
        invariant forall j | 0 <= j < i :: uuid[j] == 0
      {
        if uuid[i] != 0 {
          assert Value()[i] != 0;
          return true;
        }
      }
      ok := false;
    }

    method WriteHexPart(str: array<char>, strOffset: nat, uuidOffset: nat, bytesCount: nat)
      requires Valid() && uuidOffset + bytesCount <= 16 && strOffset + 2 * bytesCount <= str.Length
      modifies str
      ensures str[strOffset..strOffset + 2 * bytesCount] == HexOf(Value()[uuidOffset..uuidOffset + bytesCount])
      ensures forall j | 0 <= j < str.Length && !(strOffset <= j < strOffset + 2 * bytesCount) :: str[j] == old(str[j])
    {
      for i := 0 to bytesCount
        invariant str[strOffset..strOffset + 2 * i] == HexOf(Value()[uuidOffset..uuidOffset + i])
        invariant forall j | 0 <= j < str.Length && !(strOffset <= j < strOffset + 2 * i) :: str[j] == old(str[j])
      {
        var b := uuid[i + uuidOffset];
        WriteHexByte(str, strOffset, strOffset + 2 * i, b);
        HexOfNext(Value(), uuidOffset, uuidOffset + i);
      }
    }

    /** The two digits of a byte, behind the text from `start` on. */
    method WriteHexByte(str: array<char>, ghost start: nat, at: nat, b: byte)
      requires start <= at && at + 2 <= str.Length
      modifies str
      ensures str[start..at + 2] == old(str[start..at]) + [HexDigit(b / 16), HexDigit(b % 16)]
      ensures forall j | 0 <= j < str.Length && j != at && j != at + 1 :: str[j] == old(str[j])
    {
      str[at + 1] := HexDigit(b % 16);
      str[at] := HexDigit(b / 16);
    }

    method ToHex(str: array<char>)
      requires Valid() && str.Length >= 33
      modifies str
      ensures str[..33] == Hex(Value()) + "\0"
    {
      str[32] := '\0';
      WriteHexPart(str, 0, 0, 16);
      assert str[..33] == str[0..32] + [str[32]];
      assert Value()[0..16] == Value();
    }

    method ToString(str: array<char>)
      requires Valid() && str.Length >= 39
      modifies str
      ensures str[..39] == Rfc(Value()) + "\0"
    {
      str[0] := '{';
      str[37] := '}';
      str[9], str[14], str[19], str[24] := '-', '-', '-', '-';
      str[38] := '\0';
      WriteFrontGroups(str);
      ghost var front := str[..25];
      ghost var s := front[..20];
      FrontOf(front, s);
      assert forall k | 0 <= k < 20 :: s[k] == front[k] == str[k];
      WriteBackGroups(str);
      ghost var t := str[..38];
      assert t[..20] == s && t[20..24] == str[20..24] && t[25..37] == str[25..37];
      FrontOf(t, s);
      RfcAssembled(t, Value());
      assert str[..39] == t + [str[38]];
    }

    /** The last two groups. */
    method WriteBackGroups(str: array<char>)
      requires Valid() && str.Length >= 39
      modifies str
      ensures str[20..24] == HexOf(Value()[8..10]) && str[25..37] == HexOf(Value()[10..16])
      ensures forall j | 0 <= j < str.Length && (j < 20 || j == 24 || j >= 37) :: str[j] == old(str[j])
    {
      WriteHexPart(str, 20, 8, 2);
      ghost var g4 := str[20..24];
      WriteHexPart(str, 25, 10, 6);
      assert str[20..24] == g4;
    }

    /** The first three groups. */
    method WriteFrontGroups(str: array<char>)
      requires Valid() && str.Length >= 39
      modifies str
      ensures str[..25][1..9] == HexOf(Value()[0..4]) && str[..25][10..14] == HexOf(Value()[4..6])
              && str[..25][15..19] == HexOf(Value()[6..8])
      ensures str[0] == old(str[0]) && str[9] == old(str[9]) && str[14] == old(str[14])
      ensures forall j | 19 <= j < str.Length :: str[j] == old(str[j])
    {
      WriteHexPart(str, 1, 0, 4);
      ghost var g1 := str[1..9];
      WriteHexPart(str, 10, 4, 2);
      ghost var g2 := str[10..14];
      ghost var first := str[..15];
      WriteHexPart(str, 15, 6, 2);
      ghost var s := str[..25];
      assert first[1..9] == g1 && first[10..14] == g2;
      assert s[..15] == first && s[15..19] == str[15..19];
      assert s[1..9] == s[..15][1..9] && s[10..14] == s[..15][10..14];
    }

    method ParseHexPart(str: string, strOffset: nat, uuidOffset: nat, bytesCount: nat) returns (ok: bool)
      requires Valid() && uuidOffset + bytesCount <= 16 && strOffset + 2 * bytesCount <= |str|
      modifies uuid
      ensures ok == IsHex(str[strOffset..strOffset + 2 * bytesCount])
      ensures Value() == HexWritten(old(Value()), uuidOffset, str[strOffset..strOffset + 2 * bytesCount])
    {
      ghost var was := Value();
      ParsedNothing(was, uuidOffset, str, strOffset);
      for i := 0 to bytesCount
        invariant Parsed(Value(), was, uuidOffset, str, strOffset, i)
      {
        ghost var before := Value();
        ok := ParseHexByte(str, strOffset, i, i + uuidOffset);
        if !ok {
          BadPairIsNotHex(str, strOffset, bytesCount, i);
          return;
        }
        HexStep(before, was, uuidOffset, str, strOffset, i);
      }
      ParsedAll(Value(), was, uuidOffset, str, strOffset, bytesCount);
      ok := true;
    }

    /** One pair of digits; a bad one clears the whole id. */
    method ParseHexByte(str: string, strOffset: nat, i: nat, index: nat) returns (ok: bool)
      requires Valid() && index < 16 && strOffset + 2 * i + 1 < |str|
      modifies uuid
      ensures ok == IsPair(str, strOffset + 2 * i)
      ensures Value() == if ok then old(Value())[index := PairAt(str, strOffset + 2 * i)] else NULL_ID
    {
      var c1 := ByteFromHexChar(str[2 * i + 1 + strOffset]);
      var c2 := ByteFromHexChar(str[2 * i + strOffset]);
      if c1 == 0xff || c2 == 0xff {
        Clear();
        return false;
      }
      uuid[index] := c1 + 16 * c2;
      ok := true;
    }

    method ParseHex(str: string)
      requires Valid()
      modifies uuid
      ensures Value() == if |str| != 32 then old(Value()) else if IsHex(str) then BytesOf(str) else NULL_ID
    {
      if |str| != 32 { return; }
      var ok := ParseHexPart(str, 0, 0, 16);
      assert str[0..32] == str;
      if !ok { Clear(); }
    }

    method ParseRfc(str: string)
      requires Valid()
      modifies uuid
      ensures Value() == if !RfcShape(str) then old(Value())
                         else if IsHex(Digits(str)) then BytesOf(Digits(str)) else NULL_ID
    {
      if |str| != 38 { return; }
      if str[0] != '{' || str[9] != '-' || str[14] != '-' || str[19] != '-' || str[24] != '-' || str[37] != '}' {
        return;
      }
      ghost var u := Value();
      GroupsAreHex(str);
      var ok := ParseGroups(str);
      if ok { FiveWrites(u, str); } else { Clear(); }
    }

    method ParseGroups(str: string) returns (ok: bool)
      requires Valid() && |str| == 38
      modifies uuid
      ensures ok == (IsHex(str[1..9]) && IsHex(str[10..14]) && IsHex(str[15..19]) && IsHex(str[20..24])
                && IsHex(str[25..37]))
      ensures ok ==> Value() == FiveWritten(old(Value()), str)
    {
      ok := ParseFrontGroups(str);
      if !ok { return; }
      ok := ParseHexPart(str, 20, 8, 2);
      if !ok { return; }
      ok := ParseHexPart(str, 25, 10, 6);
    }

    method ParseFrontGroups(str: string) returns (ok: bool)
      requires Valid() && |str| == 38
      modifies uuid
      ensures ok == (IsHex(str[1..9]) && IsHex(str[10..14]) && IsHex(str[15..19]))
      ensures ok ==> Value() == FrontWritten(old(Value()), str)
    {
      ok := ParseHexPart(str, 1, 0, 4);
      if !ok { return; }
      ok := ParseHexPart(str, 10, 4, 2);
      if !ok { return; }
      ok := ParseHexPart(str, 15, 6, 2);
    }

    /** `parse` of the C string `str`. */
    method ParseText(str: string)
      requires Valid()
      modifies uuid
      ensures Value() == Parse(old(Value()), str)
    {
      if |str| < 32 { return; }
      if str[0] == '{' { ParseRfc(str); } else { ParseHex(str); }
    }

    method Equals(that: ArpcUuid) returns (same: bool)
      requires Valid() && that.Valid()
      ensures same == (Value() == that.Value())
    {
      same := uuid[..] == that.uuid[..];
    }
  }

  /** The object after `b` went to its bytes from `at` on. */
  function Overwritten(u: Id, at: nat, b: seq<byte>): Id
    requires at + |b| <= 16
  {
    u[..at] + b + u[at + |b|..]
  }

  /** The object after the digits `part` were parsed into its bytes from `at` on; a bad digit clears it. */
  function HexWritten(u: Id, at: nat, part: string): Id {
    if |part| % 2 == 0 && at + |part| / 2 <= 16 && IsHex(part) then Overwritten(u, at, BytesOf(part)) else NULL_ID
  }

  lemma {:induction false} OverwrittenGrows(u: Id, at: nat, b: seq<byte>, x: byte)
    requires at + |b| < 16
    ensures Overwritten(u, at, b)[at + |b| := x] == Overwritten(u, at, b + [x])
  {
  }

  predicate IsPair(s: string, k: nat)
    requires k + 1 < |s|
  {
    ByteFromHexChar(s[k]) != BAD_DIGIT && ByteFromHexChar(s[k + 1]) != BAD_DIGIT
  }

  function PairAt(s: string, k: nat): byte
    requires k + 1 < |s| && IsPair(s, k)
  {
    ByteFromHexChar(s[k + 1]) + 16 * ByteFromHexChar(s[k])
  }

  lemma {:induction false} BadPairIsNotHex(s: string, at: nat, count: nat, i: nat)
    requires i < count && at + 2 * count <= |s| && !IsPair(s, at + 2 * i)
    ensures !IsHex(s[at..at + 2 * count])
  {
    var whole := s[at..at + 2 * count];
    assert whole[2 * i] == s[at + 2 * i] && whole[2 * i + 1] == s[at + 2 * i + 1];
  }

  /** Of the part at `at` the first `i` bytes are parsed, and `v` is `u` with them. */
  ghost predicate Parsed(v: Id, u: Id, uuidOffset: nat, s: string, at: nat, i: nat) {
    && at + 2 * i <= |s| && uuidOffset + i <= 16 && IsHex(s[at..at + 2 * i])
    && v == Overwritten(u, uuidOffset, BytesOf(s[at..at + 2 * i]))
  }

  lemma {:induction false} ParsedAll(v: Id, u: Id, uuidOffset: nat, s: string, at: nat, n: nat)
    requires Parsed(v, u, uuidOffset, s, at, n)
    ensures IsHex(s[at..at + 2 * n]) && v == HexWritten(u, uuidOffset, s[at..at + 2 * n])
  {
  }

  lemma {:induction false} ParsedNothing(u: Id, uuidOffset: nat, s: string, at: nat)
    requires at <= |s| && uuidOffset <= 16
    ensures Parsed(u, u, uuidOffset, s, at, 0)
  {
    assert s[at..at] == "" && u[..uuidOffset] + [] + u[uuidOffset..] == u;
  }

  lemma {:induction false} HexStep(v: Id, u: Id, uuidOffset: nat, s: string, at: nat, i: nat)
    requires Parsed(v, u, uuidOffset, s, at, i)
    requires at + 2 * i + 1 < |s| && IsPair(s, at + 2 * i) && uuidOffset + i < 16
    ensures Parsed(v[i + uuidOffset := PairAt(s, at + 2 * i)], u, uuidOffset, s, at, i + 1)
  {
    HexPairParses(s, at, i);
    OverwrittenGrows(u, uuidOffset, BytesOf(s[at..at + 2 * i]), PairAt(s, at + 2 * i));
  }

  lemma {:induction false} HexPairParses(s: string, at: nat, i: nat)
    requires at + 2 * i + 1 < |s| && IsHex(s[at..at + 2 * i]) && IsPair(s, at + 2 * i)
    ensures IsHex(s[at..at + 2 * (i + 1)])
    ensures BytesOf(s[at..at + 2 * (i + 1)]) == BytesOf(s[at..at + 2 * i]) + [PairAt(s, at + 2 * i)]
  {
    var two := [s[at + 2 * i], s[at + 2 * i + 1]];
    assert s[at..at + 2 * (i + 1)] == s[at..at + 2 * i] + two;
    BytesOfSplit(s[at..at + 2 * i], two);
    assert two[2..] == "";
  }

  function FiveWritten(u: Id, s: string): Id
    requires |s| == 38
  {
    HexWritten(HexWritten(FrontWritten(u, s), 8, s[20..24]), 10, s[25..37])
  }

  function FrontWritten(u: Id, s: string): Id
    requires |s| == 38
  {
    HexWritten(HexWritten(HexWritten(u, 0, s[1..9]), 4, s[10..14]), 6, s[15..19])
  }

  /** The five groups leave nothing of the old value. */
  lemma {:induction false} FiveWrites(u: Id, s: string)
    requires RfcShape(s) && IsHex(Digits(s))
    ensures IsHex(s[1..9]) && IsHex(s[10..14]) && IsHex(s[15..19]) && IsHex(s[20..24]) && IsHex(s[25..37])
    ensures FiveWritten(u, s) == BytesOf(Digits(s))
  {
    GroupsJoin(s);
    var b1, b2, b3, b4 := BytesOf(s[1..9]), BytesOf(s[10..14]), BytesOf(s[15..19]), BytesOf(s[20..24]);
    var v1 := Overwritten(u, 0, b1);
    var v2 := Overwritten(v1, 4, b2);
    assert v2[..6] == b1 + b2;
    var v3 := Overwritten(v2, 6, b3);
    assert v3[..8] == b1 + b2 + b3;
    var v4 := Overwritten(v3, 8, b4);
    assert v4[..10] == b1 + b2 + b3 + b4;
  }
}
