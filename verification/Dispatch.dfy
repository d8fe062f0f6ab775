/** What a device answers (ARpcRealDeviceMessageDispatch, without a hub callback). */
module Dispatch {
  import opened Common
  import opened StreamCodec
  import opened StreamWriter
  import Uuid

  /** What a command handler may write while it runs. */
  datatype CommandWrite =
    | WroteOk(args: seq<string>)
    | WroteErr(args: seq<string>)
    | WroteInfo(args: seq<string>)
    | WroteMeasurement(args: seq<string>)

  /** A device; `commands` stands for the events callback, `state` for the fields its state dump writes. */
  datatype Device = Device(
    id: Uuid.Id,
    name: string,
    typeId: Option<Uuid.Id>,
    sensors: Option<string>,
    controls: Option<string>,
    state: seq<string>,
    commands: Option<(string, seq<string>) -> seq<CommandWrite>>)

  function TitleOf(w: CommandWrite): string {
    match w
    case WroteOk(_) => "ok"
    case WroteErr(_) => "err"
    case WroteInfo(_) => "info"
    case WroteMeasurement(_) => "meas"
  }

  predicate IsAnswer(w: CommandWrite) {
    w.WroteOk? || w.WroteErr?
  }

  function Answer(title: string, callId: string, args: seq<string>): Fields {
    [title, callId] + CStrs(args)
  }

  function TextAnswer(title: string, callId: string, text: string): Fields {
    [title, callId, text]
  }

  function Just(f: Fields): seq<Fields> {
    [f]
  }

  function WriteBody(callId: string, w: CommandWrite): Fields {
    [TitleOf(w)] + (if IsAnswer(w) then [callId] else []) + CStrs(w.args)
  }

  function WriteBodies(callId: string, ws: seq<CommandWrite>): (r: seq<Fields>)
    ensures |r| == |ws|
    ensures forall i | 0 <= i < |ws| :: r[i] == WriteBody(callId, ws[i])
  {
    seq(|ws|, i requires 0 <= i < |ws| => WriteBody(callId, ws[i]))
  }

  function CommandWrites(dev: Device, command: string, args: seq<string>): seq<CommandWrite> {
    if dev.commands.None? then [] else dev.commands.value(command, args)
  }

  predicate Answered(ws: seq<CommandWrite>) {
    exists i | 0 <= i < |ws| :: IsAnswer(ws[i])
  }

  function SystemCallReply(dev: Device, args: seq<string>): Fields
    requires |args| >= 2
  {
    var id := args[0];
    if args[1] == "#sensors" then if dev.sensors.Some? then Answer("ok", id, [dev.sensors.value])
    else TextAnswer("ok", id, "")
    else if args[1] == "#controls" then if dev.controls.Some? then Answer("ok", id, [dev.controls.value])
    else TextAnswer("ok", id, "")
    else if args[1] == "#state" then Answer("ok", id, dev.state)
    else if args[1] == "#setup" then
      if |args| < 4 || !Uuid.IsValid(Uuid.Parse(Uuid.NULL_ID, args[2])) then TextAnswer("err", id, "bad setup command")
      else Answer("ok", id, [])
    else TextAnswer("err", id, "bad system command")
  }

  function CallReplies(dev: Device, args: seq<string>): seq<Fields> {
    if |args| < 2 || args[0] == "" || args[1] == "" then [TextAnswer("err", "", "No command or call id")]
    else if args[1][0] == '#' then [SystemCallReply(dev, args)]
    else UserCallReplies(dev, args)
  }

  function UserCallReplies(dev: Device, args: seq<string>): seq<Fields>
    requires |args| >= 2
  {
    var ws := CommandWrites(dev, args[1], args[2..]);
    WriteBodies(args[0], ws) + if Answered(ws) then [] else [TextAnswer("err", args[0], "unknown command")]
  }

  function DeviceInfo(dev: Device): Fields {
    ["deviceinfo", Uuid.Rfc(dev.id), CStr(dev.name)]
    + if dev.typeId.Some? && Uuid.IsValid(dev.typeId.value) then [Uuid.Rfc(dev.typeId.value)] else []
  }

  /** The messages a device writes on receiving `msg`; `callId` is the call id it remembers. */
  function Replies(dev: Device, callId: string, msg: string, args: seq<string>): seq<Fields> {
    if msg == "identify" then
      [DeviceInfo(dev)]
    else if msg == "identify_hub" then [TextAnswer("err", callId, "not a hub device")]
    else if msg == "sync" then [["syncr"]]
    else if msg == "call" then CallReplies(dev, args)
    else []
  }

  function NextCallId(callId: string, msg: string, args: seq<string>): string {
    if msg != "call" then callId
    else if |args| < 2 || args[0] == "" || args[1] == "" then "" else args[0]
  }

  predicate Triggers(msg: string) {
    msg == "identify" || msg == "identify_hub" || msg == "sync" || msg == "call"
  }

  lemma {:induction false} WriteBodyTitle(callId: string, w: CommandWrite)
    ensures WriteBody(callId, w)[0] == TitleOf(w) && !Triggers(TitleOf(w))
  {
    var t := TitleOf(w);
    assert t[0] in {'o', 'e', 'i', 'm'} && |t| <= 4;
    assert "identify"[0] == 'i' && "sync"[0] == 's' && "call"[0] == 'c';
  }

  ghost predicate NoneTriggers(rs: seq<Fields>) {
    forall i | 0 <= i < |rs| :: !Triggers(rs[i][0])
  }

  lemma {:induction false} PlainTitlesDoNotTrigger()
    ensures !Triggers("deviceinfo") && !Triggers("err") && !Triggers("syncr") && !Triggers("ok")
  {
    assert "deviceinfo"[0] == 'd' && "err"[0] == 'e' && "ok"[0] == 'o' && |"syncr"| == 5;
    assert "identify"[0] == 'i' && "identify_hub"[0] == 'i' && "sync"[0] == 's' && "call"[0] == 'c';
  }

  /** Only these messages make a device answer, and no answer is one of them: an answer is never answered. */
  lemma {:induction false} AnswersAreFinal(dev: Device, callId: string, msg: string, args: seq<string>)
    ensures !Triggers(msg) ==> Replies(dev, callId, msg, args) == []
    ensures NoneTriggers(Replies(dev, callId, msg, args))
  {
    PlainTitlesDoNotTrigger();
    if msg == "call" {
      if |args| >= 2 && args[0] != "" && args[1] != "" && args[1][0] != '#' {
        var ws := CommandWrites(dev, args[1], args[2..]);
        forall i | 0 <= i < |ws| ensures !Triggers(WriteBodies(args[0], ws)[i][0]) {
          WriteBodyTitle(args[0], ws[i]);
        }
      }
    }
  }

  function AnswerCount(replies: seq<Fields>): nat {
    if replies == [] then 0
    else (if replies[0][0] == "ok" || replies[0][0] == "err" then 1 else 0) + AnswerCount(replies[1..])
  }

  function WrittenAnswers(ws: seq<CommandWrite>): nat {
    if ws == [] then 0 else (if IsAnswer(ws[0]) then 1 else 0) + WrittenAnswers(ws[1..])
  }

  lemma {:induction false} AnswerCountSplit(a: seq<Fields>, b: seq<Fields>)
    ensures AnswerCount(a + b) == AnswerCount(a) + AnswerCount(b)
  {
    if a == [] {
      assert a + b == b;
    } else {
      assert (a + b)[1..] == a[1..] + b;
      AnswerCountSplit(a[1..], b);
    }
  }

  lemma {:induction false} BodiesCount(callId: string, ws: seq<CommandWrite>)
    ensures AnswerCount(WriteBodies(callId, ws)) == WrittenAnswers(ws)
    ensures Answered(ws) <==> WrittenAnswers(ws) >= 1
  {
    if ws != [] {
      BodiesCount(callId, ws[1..]);
      assert WriteBodies(callId, ws)[1..] == WriteBodies(callId, ws[1..]);
      assert "info"[0] == 'i' && "meas"[0] == 'm' && "ok"[0] == 'o' && "err"[0] == 'e';
      if Answered(ws) {
        var i :| 0 <= i < |ws| && IsAnswer(ws[i]);
        if i > 0 { assert ws[1..][i - 1] == ws[i]; }
      }
      if Answered(ws[1..]) {
        var i :| 0 <= i < |ws[1..]| && IsAnswer(ws[1..][i]);
        assert ws[i + 1] == ws[1..][i];
      }
    }
  }

  /** Every call is answered, and answered once when the handler answers at most once. */
  lemma {:induction false} CallIsAnswered(dev: Device, callId: string, args: seq<string>)
    ensures var n := AnswerCount(Replies(dev, callId, "call", args));
            if |args| < 2 || args[0] == "" || args[1] == "" || args[1][0] == '#' then n == 1
            else n == var w := WrittenAnswers(CommandWrites(dev, args[1], args[2..])); if w == 0 then 1 else w
  {
    assert "call"[0] == 'c' && "identify"[0] == 'i' && "identify_hub"[0] == 'i' && "sync"[0] == 's';
    var rs := Replies(dev, callId, "call", args);
    assert rs == CallReplies(dev, args);
    if |args| < 2 || args[0] == "" || args[1] == "" || args[1][0] == '#' {
      assert |rs| == 1 && rs[1..] == [];
    } else {
      var ws := CommandWrites(dev, args[1], args[2..]);
      BodiesCount(args[0], ws);
      var tail: seq<Fields> := if Answered(ws) then [] else [TextAnswer("err", args[0], "unknown command")];
      AnswerCountSplit(WriteBodies(args[0], ws), tail);
      assert tail != [] ==> tail[1..] == [];
    }
  }

  // ----- the object

  /** Messages on the line behind a common header. */
  function EncodeReplies(header: seq<string>, rs: seq<Fields>): string {
    if rs == [] then "" else Encode(header + rs[0]) + EncodeReplies(header, rs[1..])
  }

  lemma {:induction false} EncodeRepliesSplit(header: seq<string>, a: seq<Fields>, b: seq<Fields>)
    ensures EncodeReplies(header, a + b) == EncodeReplies(header, a) + EncodeReplies(header, b)
  {
    if a == [] {
      assert a + b == b;
    } else {
      assert (a + b)[1..] == a[1..] + b;
      EncodeRepliesSplit(header, a[1..], b);
    }
  }

  class ARpcRealDeviceMessageDispatch {
    const dev: Device
    const mWriter: ARpcStreamWriter
    var callIdStr: string
    var cmdReplied: bool

    ghost predicate Valid()
      reads this, mWriter
    {
      mWriter.Valid() && !mWriter.needArgDelim
    }

    constructor (d: Device, w: ARpcStreamWriter)
      requires w.Valid() && !w.needArgDelim
      ensures Valid() && dev == d && mWriter == w && callIdStr == ""
    {
      dev, mWriter, callIdStr, cmdReplied := d, w, "", false;
    }

    /** One message: a plain title and escaped arguments, behind the writer's headers. */
    method WriteTitled(title: string, args: seq<string>)
      requires Valid() && Plain(title)
      modifies mWriter, mWriter.side1, mWriter.side2
      ensures Valid() && mWriter.Header() == old(mWriter.Header())
      ensures mWriter.side1.written == old(mWriter.side1.written) + Encode(mWriter.Header() + [title] + args)
      ensures mWriter.side2 != null ==>
                mWriter.side2.written == old(mWriter.side2.written) + Encode(mWriter.Header() + [title] + args)
    {
      var ok := mWriter.BeginWriteMsg();
      mWriter.WriteArgNoEscape(title);
      mWriter.WriteArgs(args);
      mWriter.EndWriteMsg();
    }

    /** The effect of a list of replies on the lines. */
    twostate predicate Sent(new rs: seq<Fields>)
      reads this, mWriter, mWriter.side1, mWriter.side2
    {
      && mWriter.Header() == old(mWriter.Header())
      && mWriter.side1.written == old(mWriter.side1.written) + EncodeReplies(mWriter.Header(), rs)
      && (mWriter.side2 != null ==>
            mWriter.side2.written == old(mWriter.side2.written) + EncodeReplies(mWriter.Header(), rs))
    }

    method Reply(title: string, args: seq<string>)
      requires Valid() && Plain(title)
      modifies mWriter, mWriter.side1, mWriter.side2
      ensures Valid() && Sent(Just([title] + args))
    {
      WriteTitled(title, args);
      assert mWriter.Header() + [title] + args == mWriter.Header() + ([title] + args);
      EncodeOne(mWriter.Header(), [title] + args);
    }

    /** `writeOk` and `writeErr`. */
    method WriteAnswer(title: string, args: seq<string>)
      requires Valid() && Plain(title)
      modifies `cmdReplied, mWriter, mWriter.side1, mWriter.side2
      ensures Valid() && cmdReplied && Sent(Just(Answer(title, callIdStr, args)))
    {
      cmdReplied := true;
      Reply(title, [callIdStr] + CStrs(args));
      assert [title] + ([callIdStr] + CStrs(args)) == Answer(title, callIdStr, args);
    }

    /** `writeErrNoEscape` and `writeOkNoEscape`: the text needs no escapes. */
    method WriteAnswerNoEscape(title: string, text: string)
      requires Valid() && Plain(title) && Plain(text)
      modifies `cmdReplied, mWriter, mWriter.side1, mWriter.side2
      ensures Valid() && cmdReplied && Sent(Just(TextAnswer(title, callIdStr, text)))
    {
      cmdReplied := true;
      Reply(title, [callIdStr, text]);
      assert [title] + [callIdStr, text] == TextAnswer(title, callIdStr, text);
    }

    method PerformWrite(w: CommandWrite)
      requires Valid()
      modifies `cmdReplied, mWriter, mWriter.side1, mWriter.side2
      ensures Valid() && cmdReplied == (old(cmdReplied) || IsAnswer(w))
      ensures Sent(Just(WriteBody(callIdStr, w)))
    {
      BodyOfWrite(callIdStr, w);
      match w
      case WroteOk(a) => WriteAnswer("ok", a);
      case WroteErr(a) => WriteAnswer("err", a);
      case WroteInfo(a) => Reply("info", CStrs(a));
      case WroteMeasurement(a) => Reply("meas", CStrs(a));
    }

    /** The events callback, performing the writes the device's `commands` describe. */
    method RunCommand(command: string, args: seq<string>)
      requires Valid() && !cmdReplied
      modifies `cmdReplied, mWriter, mWriter.side1, mWriter.side2
      ensures Valid() && cmdReplied == Answered(CommandWrites(dev, command, args))
      ensures Sent(WriteBodies(callIdStr, CommandWrites(dev, command, args)))
    {
      var ws := CommandWrites(dev, command, args);
      for i := 0 to |ws|
        invariant Valid() && cmdReplied == Answered(ws[..i])
        invariant Sent(WriteBodies(callIdStr, ws[..i]))
      {
        AnsweredGrows(ws, i);
        label next:
        PerformWrite(ws[i]);
        ghost var header := mWriter.Header();
        BodiesAppended(old(mWriter.side1.written), old@next(mWriter.side1.written), mWriter.side1.written, header,
          callIdStr, ws, i);
        if mWriter.side2 != null {
          BodiesAppended(old(mWriter.side2.written), old@next(mWriter.side2.written), mWriter.side2.written, header,
            callIdStr, ws, i);
        }
      }
      assert ws[..|ws|] == ws;
    }

    method ProcessCall(args: seq<string>)
      requires Valid()
      modifies this, mWriter, mWriter.side1, mWriter.side2
      ensures Valid() && callIdStr == NextCallId(old(callIdStr), "call", args)
      ensures Sent(CallReplies(dev, args))
    {
      callIdStr := "";
      if |args| < 2 || args[0] == "" || args[1] == "" {
        WriteAnswerNoEscape("err", "No command or call id");
        return;
      }
      callIdStr := args[0];
      if args[1][0] == '#' { ProcessSystemCall(args); } else { ProcessUserCall(args); }
    }

    method ProcessUserCall(args: seq<string>)
      requires Valid() && |args| >= 2 && callIdStr == args[0]
      modifies `cmdReplied, mWriter, mWriter.side1, mWriter.side2
      ensures Valid() && Sent(UserCallReplies(dev, args))
    {
      cmdReplied := false;
      RunCommand(args[1], args[2..]);
      if cmdReplied {
        assert UserCallReplies(dev, args) == WriteBodies(args[0], CommandWrites(dev, args[1], args[2..]));
      } else {
        label ran:
        WriteAnswerNoEscape("err", "unknown command");
        UserCallAppended(old(mWriter.side1.written), old@ran(mWriter.side1.written), mWriter.side1.written,
          mWriter.Header(), dev, args);
        if mWriter.side2 != null {
          UserCallAppended(old(mWriter.side2.written), old@ran(mWriter.side2.written), mWriter.side2.written,
            mWriter.Header(), dev, args);
        }
      }
    }

    method ProcessSystemCall(args: seq<string>)
      requires Valid() && |args| >= 2 && callIdStr == args[0]
      modifies `cmdReplied, mWriter, mWriter.side1, mWriter.side2
      ensures Valid() && Sent(Just(SystemCallReply(dev, args)))
    {
      if args[1] == "#sensors" {
        if dev.sensors.Some? { WriteAnswer("ok", [dev.sensors.value]); } else { WriteAnswerNoEscape("ok", ""); }
      } else if args[1] == "#controls" {
        if dev.controls.Some? { WriteAnswer("ok", [dev.controls.value]); } else { WriteAnswerNoEscape("ok", ""); }
      } else if args[1] == "#state" {
        WriteAnswer("ok", dev.state);
      } else if args[1] == "#setup" {
        if |args| < 4 {
          WriteAnswerNoEscape("err", "bad setup command");
          return;
        }
        var uuid := Uuid.Parse(Uuid.NULL_ID, args[2]);
        if !Uuid.IsValid(uuid) {
          WriteAnswerNoEscape("err", "bad setup command");
          return;
        }
        WriteAnswer("ok", []);
      } else {
        WriteAnswerNoEscape("err", "bad system command");
      }
    }

    method ProcessIdentify()
      requires Valid()
      modifies mWriter, mWriter.side1, mWriter.side2
      ensures Valid() && Sent(Just(DeviceInfo(dev)))
    {
      ghost var info := DeviceInfo(dev);
      if dev.typeId.Some? && Uuid.IsValid(dev.typeId.value) {
        assert ["deviceinfo"] + [Uuid.Rfc(dev.id), CStr(dev.name), Uuid.Rfc(dev.typeId.value)] == info;
        Reply("deviceinfo", [Uuid.Rfc(dev.id), CStr(dev.name), Uuid.Rfc(dev.typeId.value)]);
      } else {
        assert ["deviceinfo"] + [Uuid.Rfc(dev.id), CStr(dev.name)] == info;
        Reply("deviceinfo", [Uuid.Rfc(dev.id), CStr(dev.name)]);
      }
    }

    method ProcessMessage(msg: string, args: seq<string>)
      requires Valid()
      modifies this, mWriter, mWriter.side1, mWriter.side2
      ensures Valid() && callIdStr == NextCallId(old(callIdStr), msg, args)
      ensures Sent(Replies(dev, old(callIdStr), msg, args))
    {
      if msg == "identify" {
        ProcessIdentify();
      } else if msg == "identify_hub" {
        WriteAnswerNoEscape("err", "not a hub device");
      } else if msg == "sync" {
        Reply("syncr", []);
        assert ["syncr"] + [] == ["syncr"];
      } else if msg == "call" {
        ProcessCall(args);
      }
    }
  }

  lemma {:induction false} UserCallText(header: seq<string>, dev: Device, args: seq<string>)
    requires |args| >= 2
    ensures var ws := CommandWrites(dev, args[1], args[2..]);
            !Answered(ws) ==>
              EncodeReplies(header, UserCallReplies(dev, args))
              == EncodeReplies(header, WriteBodies(args[0], ws))
                 + EncodeReplies(header, Just(TextAnswer("err", args[0], "unknown command")))
  {
    var bodies := WriteBodies(args[0], CommandWrites(dev, args[1], args[2..]));
    EncodeRepliesSplit(header, bodies, Just(TextAnswer("err", args[0], "unknown command")));
  }

  /** Two pieces of output, one behind the other. */
  lemma {:induction false} Appended(a: string, b: string, c: string, x: string, y: string)
    requires b == a + x && c == b + y
    ensures c == a + (x + y)
  {
  }

  lemma {:induction false} BodiesAppended(a: string, b: string, c: string, header: seq<string>, callId: string,
      ws: seq<CommandWrite>, i: nat)
    requires i < |ws|
    requires b == a + EncodeReplies(header, WriteBodies(callId, ws[..i]))
    requires c == b + EncodeReplies(header, Just(WriteBody(callId, ws[i])))
    ensures c == a + EncodeReplies(header, WriteBodies(callId, ws[..i + 1]))
  {
    BodiesGrow(header, callId, ws, i);
    Appended(a, b, c, EncodeReplies(header, WriteBodies(callId, ws[..i])),
      EncodeReplies(header, Just(WriteBody(callId, ws[i]))));
  }

  lemma {:induction false} UserCallAppended(a: string, b: string, c: string, header: seq<string>, dev: Device,
      args: seq<string>)
    requires |args| >= 2
    requires var ws := CommandWrites(dev, args[1], args[2..]);
             !Answered(ws) && b == a + EncodeReplies(header, WriteBodies(args[0], ws))
    requires c == b + EncodeReplies(header, Just(TextAnswer("err", args[0], "unknown command")))
    ensures c == a + EncodeReplies(header, UserCallReplies(dev, args))
  {
    UserCallText(header, dev, args);
    Appended(a, b, c, EncodeReplies(header, WriteBodies(args[0], CommandWrites(dev, args[1], args[2..]))),
             EncodeReplies(header, Just(TextAnswer("err", args[0], "unknown command"))));
  }

  /** What each write of a handler puts on the line. */
  lemma {:induction false} BodyOfWrite(callId: string, w: CommandWrite)
    ensures match w
            case WroteOk(a) => WriteBody(callId, w) == Answer("ok", callId, a)
            case WroteErr(a) => WriteBody(callId, w) == Answer("err", callId, a)
            case WroteInfo(a) => WriteBody(callId, w) == ["info"] + CStrs(a)
            case WroteMeasurement(a) => WriteBody(callId, w) == ["meas"] + CStrs(a)
  {
  }

  lemma {:induction false} BodiesGrow(header: seq<string>, callId: string, ws: seq<CommandWrite>, i: nat)
    requires i < |ws|
    ensures EncodeReplies(header, WriteBodies(callId, ws[..i + 1]))
            == EncodeReplies(header, WriteBodies(callId, ws[..i]))
               + EncodeReplies(header, Just(WriteBody(callId, ws[i])))
  {
    assert WriteBodies(callId, ws[..i + 1]) == WriteBodies(callId, ws[..i]) + Just(WriteBody(callId, ws[i]));
    EncodeRepliesSplit(header, WriteBodies(callId, ws[..i]), Just(WriteBody(callId, ws[i])));
  }

  lemma {:induction false} EncodeOne(header: seq<string>, f: Fields)
    ensures EncodeReplies(header, [f]) == Encode(header + f)
  {
    assert [f][1..] == [];
  }

  lemma {:induction false} AnsweredGrows(ws: seq<CommandWrite>, i: nat)
    requires i < |ws|
    ensures Answered(ws[..i + 1]) <==> Answered(ws[..i]) || IsAnswer(ws[i])
  {
    assert forall j | 0 <= j < i :: ws[..i + 1][j] == ws[..i][j];
    assert ws[..i + 1][i] == ws[i];
    if Answered(ws[..i]) {
      var j :| 0 <= j < |ws[..i]| && IsAnswer(ws[..i][j]);
      assert IsAnswer(ws[..i + 1][j]);
    }
  }
}
