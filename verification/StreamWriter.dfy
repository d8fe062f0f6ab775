/** The escaping writer (ARpcStreamWriter) with the StarNet headers of ARpcStarNetStreamWriter and the
    two-sided output of ARpcStarNetDevice2SidesWriter. */
module StreamWriter {
  import opened Common
  import opened StreamCodec
  import Uuid

  /** The receiving end of a write callback. */
  class Sink {
    var written: string

    constructor ()
      ensures written == ""
    {
      written := "";
    }
  }

  datatype DestMode = BROADCAST | DEST_DEV

  const BROADCAST_NAME := "#broadcast"

  lemma {:induction false} HexOfIsPlain(b: seq<byte>)
    ensures Plain(Uuid.HexOf(b))
  {
    if b != [] {
      HexOfIsPlain(b[1..]);
    }
  }

  lemma {:induction false} RfcIsPlain(u: Uuid.Id)
    ensures Plain(Uuid.Rfc(u))
  {
    HexOfIsPlain(u[0..4]);
    HexOfIsPlain(u[4..6]);
    HexOfIsPlain(u[6..8]);
    HexOfIsPlain(u[8..10]);
    HexOfIsPlain(u[10..16]);
  }

  /** The text of a message of which only `fields` are written yet. */
  function Begun(fields: seq<string>): string {
    if fields == [] then "" else Joined(fields)
  }

  lemma {:induction false} BegunGrows(start: string, fields: seq<string>, f: string)
    ensures start + Begun(fields) + (if fields == [] then "" else "|") + Escaped(f) == start + Begun(fields + [f])
  {
    var delim := if fields == [] then "" else "|";
    if fields == [] {
      assert fields + [f] == [f];
    } else {
      JoinedAppend(fields, f);
    }
    assert Begun(fields + [f]) == Begun(fields) + delim + Escaped(f);
    Regroup(start, Begun(fields), delim, Escaped(f));
  }

  lemma {:induction false} Regroup(a: string, b: string, c: string, d: string)
    ensures a + b + c + d == a + (b + c + d)
  {
  }

  lemma {:induction false} OneMore(was: seq<string>, args: seq<string>, i: nat)
    requires i < |args|
    ensures was + args[..i] + [args[i]] == was + args[..i + 1]
  {
  }

  class ARpcStreamWriter {
    const side1: Sink
    const side2: Sink?
    const starNet: bool
    const srcIdStr: string
    var destMode: DestMode
    var destIdStr: string
    var needArgDelim: bool
    var msgFinished: bool

    // The message under way: where it starts on each side and its fields so far.
    ghost var start1: string
    ghost var start2: string
    ghost var fields: seq<string>

    /** `msgFinished` is never cleared, so `beginWriteMsg` always succeeds. */
    ghost predicate Valid()
      reads this
    {
      msgFinished && side1 != side2 && Plain(srcIdStr) && Plain(destIdStr)
    }

    ghost predicate Open()
      reads this, side1, side2
    {
      && Valid()
      && needArgDelim == (fields != [])
      && side1.written == start1 + Begun(fields)
      && (side2 != null ==> side2.written == start2 + Begun(fields))
    }

    ghost function Header(): (h: seq<string>)
      reads this
    {
      if !starNet then [] else [srcIdStr, if destMode == BROADCAST then BROADCAST_NAME else destIdStr]
    }

    constructor (w1: Sink, w2: Sink?)
      requires w1 != w2
      ensures Valid() && !needArgDelim && !starNet && side1 == w1 && side2 == w2
    {
      side1, side2 := w1, w2;
      starNet, srcIdStr, destMode, destIdStr := false, "", BROADCAST, "";
      needArgDelim, msgFinished := false, true;
    }

    constructor StarNet(srcId: Uuid.Id, w1: Sink, w2: Sink?)
      requires w1 != w2
      ensures Valid() && !needArgDelim && side1 == w1 && side2 == w2
      ensures Header() == [Uuid.Hex(srcId), BROADCAST_NAME] && starNet && srcIdStr == Uuid.Hex(srcId)
    {
      HexOfIsPlain(srcId);
      side1, side2 := w1, w2;
      starNet, srcIdStr, destMode, destIdStr := true, Uuid.Hex(srcId), BROADCAST, "";
      needArgDelim, msgFinished := false, true;
    }

    method SetBroadcast()
      requires Valid()
      modifies `destMode
      ensures Valid() && (starNet ==> Header() == [srcIdStr, BROADCAST_NAME])
    {
      destMode := BROADCAST;
    }

    method SetDestId(destId: Uuid.Id)
      requires Valid()
      modifies `destMode, `destIdStr
      ensures Valid() && (starNet ==> Header() == [srcIdStr, Uuid.Hex(destId)])
    {
      HexOfIsPlain(destId);
      destMode := DEST_DEV;
      destIdStr := Uuid.Hex(destId);
    }

    method WriteData(data: string)
      requires side1 != side2
      modifies side1, side2
      ensures side1.written == old(side1.written) + data
      ensures side2 != null ==> side2.written == old(side2.written) + data
    {
      side1.written := side1.written + data;
      if side2 != null { side2.written := side2.written + data; }
    }

    /** Note where the next message starts. */
    ghost method Mark()
      requires Valid() && !needArgDelim
      modifies `start1, `start2, `fields
      ensures Open() && fields == [] && start1 == side1.written && (side2 != null ==> start2 == side2.written)
    {
      start1 := side1.written;
      start2 := if side2 == null then "" else side2.written;
      fields := [];
    }

    method ResetStream()
      requires Valid()
      modifies `msgFinished, `needArgDelim, side1, side2
      ensures Valid() && !needArgDelim
      ensures side1.written == old(side1.written) + "\0"
      ensures side2 != null ==> side2.written == old(side2.written) + "\0"
    {
      msgFinished := true;
      needArgDelim := false;
      WriteData("\0");
    }

    method BeginWriteMsg() returns (ok: bool)
      requires Valid()
      modifies `needArgDelim, `start1, `start2, `fields, side1, side2
      ensures ok && Open() && fields == Header()
      ensures start1 == old(side1.written) && (side2 != null ==> start2 == old(side2.written))
    {
      if !msgFinished { return false; }
      needArgDelim := false;
      Mark();
      WriteMsgHeaders();
      ok := true;
    }

    method WriteMsgHeaders()
      requires Open() && fields == []
      modifies `needArgDelim, `fields, side1, side2
      ensures Open() && fields == Header()
    {
      if starNet {
        WriteArgNoEscape(srcIdStr);
        if destMode == BROADCAST { WriteArgNoEscape(BROADCAST_NAME); }
        else { WriteArgNoEscape(destIdStr); }
      }
    }

    method Delimit()
      requires side1 != side2
      modifies `needArgDelim, side1, side2
      ensures needArgDelim
      ensures side1.written == old(side1.written) + (if old(needArgDelim) then "|" else "")
      ensures side2 != null ==> side2.written == old(side2.written) + (if old(needArgDelim) then "|" else "")
    {
      if !needArgDelim { needArgDelim := true; } else { WriteData("|"); }
    }

    method WriteArg(arg: string)
      requires Valid()
      modifies `needArgDelim, `fields, side1, side2
      ensures Valid() && needArgDelim
      ensures side1.written == old(side1.written) + (if old(needArgDelim) then "|" else "") + Escaped(arg)
      ensures side2 != null ==>
                side2.written == old(side2.written) + (if old(needArgDelim) then "|" else "") + Escaped(arg)
      ensures old(Open()) ==> Open() && fields == old(fields) + [arg]
    {
      Delimit();
      WriteDataEscaped(arg);
      BegunGrows(start1, fields, arg);
      BegunGrows(start2, fields, arg);
      fields := fields + [arg];
    }

    /** The text goes out as it is; a message under way stays well encoded when it needs no escapes. */
    method WriteArgNoEscape(arg: string)
      requires Valid()
      modifies `needArgDelim, `fields, side1, side2
      ensures Valid() && needArgDelim
      ensures side1.written == old(side1.written) + (if old(needArgDelim) then "|" else "") + arg
      ensures side2 != null ==> side2.written == old(side2.written) + (if old(needArgDelim) then "|" else "") + arg
      ensures old(Open()) && Plain(arg) ==> Open() && fields == old(fields) + [arg]
    {
      Delimit();
      WriteData(arg);
      if Plain(arg) {
        PlainNeedsNoEscape(arg);
        BegunGrows(start1, fields, arg);
        BegunGrows(start2, fields, arg);
      }
      fields := fields + [arg];
    }

    method WriteDataEscaped(data: string)
      requires side1 != side2
      modifies side1, side2
      ensures side1.written == old(side1.written) + Escaped(data)
      ensures side2 != null ==> side2.written == old(side2.written) + Escaped(data)
    {
      for i := 0 to |data|
        invariant side1.written == old(side1.written) + Escaped(data[..i])
        invariant side2 != null ==> side2.written == old(side2.written) + Escaped(data[..i])
      {
        assert data[..i + 1] == data[..i] + [data[i]];
        EscapedSplit(data[..i], [data[i]]);
        assert Escaped([data[i]]) == EscapeChar(data[i]) by { assert [data[i]][1..] == ""; }
        var c := data[i];
        if c == '\0' { WriteData("\\0"); }
        else if c == '|' { WriteData("\\|"); }
        else if c == '\n' { WriteData("\\n"); }
        else if c == '\\' { WriteData("\\\\"); }
        else { WriteData([c]); }
      }
      assert data[..|data|] == data;
    }

    method EndWriteMsg()
      requires Valid()
      modifies `needArgDelim, `msgFinished, side1, side2
      ensures Valid() && !needArgDelim
      ensures side1.written == old(side1.written) + "\n"
      ensures side2 != null ==> side2.written == old(side2.written) + "\n"
      ensures old(Open()) && fields != [] ==> side1.written == start1 + Encode(fields)
      ensures old(Open()) && fields != [] && side2 != null ==> side2.written == start2 + Encode(fields)
    {
      WriteData("\n");
      needArgDelim := false;
      msgFinished := true;
    }

    /** `writeMsg` of C strings: one encoded message on every side, behind the headers. */
    method WriteMsg(msg: string, args: seq<string>) returns (ok: bool)
      requires Valid()
      modifies this, side1, side2
      ensures ok && Valid() && !needArgDelim && Header() == old(Header())
      ensures side1.written == old(side1.written) + Encode(Header() + [CStr(msg)] + CStrs(args))
      ensures side2 != null ==> side2.written == old(side2.written) + Encode(Header() + [CStr(msg)] + CStrs(args))
    {
      ok := BeginWriteMsg();
      if !ok { return; }
      WriteArg(CStr(msg));
      WriteArgs(CStrs(args));
      EndWriteMsg();
    }

    /** The argument loop of a message under way. */
    method WriteArgs(args: seq<string>)
      requires Open()
      modifies `needArgDelim, `fields, side1, side2
      ensures Open() && fields == old(fields) + args
    {
      ghost var was := fields;
      for i := 0 to |args|
        invariant Open() && fields == was + args[..i]
      {
        OneMore(was, args, i);
        WriteArg(args[i]);
      }
      assert args[..|args|] == args;
    }
  }
}
