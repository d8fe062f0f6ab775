/** What the answers of a device tell the one who asked, field by field. */
module DispatchAnswers {
  import opened Common
  import opened StreamCodec
  import opened Dispatch
  import Uuid

  /** A message that tells what `dev` is: its title, the id, the name and, exactly when it is valid, the type of the
      device, in this order. The ids are what the texts read as, over any old value `u`. */
  ghost predicate Tells(body: Fields, dev: Device, u: Uuid.Id) {
    && 3 <= |body| <= 4
    && body[0] == "deviceinfo" && Uuid.Parse(u, body[1]) == dev.id && body[2] == CStr(dev.name)
    && (|body| == 4 <==> dev.typeId.Some? && Uuid.IsValid(dev.typeId.value))
    && (|body| == 4 ==> Uuid.Parse(u, body[3]) == dev.typeId.value)
  }

  lemma {:induction false} DeviceInfoTells(dev: Device, u: Uuid.Id)
    ensures Tells(DeviceInfo(dev), dev, u)
  {
    InfoFields(dev);
    Uuid.RfcParses(u, dev.id);
    if dev.typeId.Some? { Uuid.RfcParses(u, dev.typeId.value); }
  }

  /** `identify` is answered with one message that tells what the device is. */
  lemma {:induction false} IdentifyTells(dev: Device, callId: string, args: seq<string>, u: Uuid.Id)
    ensures var rs := Replies(dev, callId, "identify", args);
            |rs| == 1 && Tells(rs[0], dev, u)
  {
    DeviceInfoTells(dev, u);
  }

  lemma {:induction false} InfoFields(dev: Device)
    ensures var q := DeviceInfo(dev);
            && 3 <= |q| <= 4 && q[0] == "deviceinfo" && q[1] == Uuid.Rfc(dev.id) && q[2] == CStr(dev.name)
            && (|q| == 4 <==> dev.typeId.Some? && Uuid.IsValid(dev.typeId.value))
            && (|q| == 4 ==> q[3] == Uuid.Rfc(dev.typeId.value))
  {
  }

  lemma {:induction false} OtherMessagesTell(dev: Device, callId: string, args: seq<string>)
    ensures Replies(dev, callId, "identify_hub", args) == [["err", callId, "not a hub device"]]
    ensures Replies(dev, callId, "sync", args) == [["syncr"]]
  {
    assert "identify_hub" != "identify" && |"sync"| == 4 && |"identify"| == 8 && |"identify_hub"| == 12;
  }

  lemma {:induction false} CallIsCall(dev: Device, callId: string, args: seq<string>)
    ensures Replies(dev, callId, "call", args) == CallReplies(dev, args)
  {
    assert "call"[0] == 'c' && "identify"[0] == 'i' && "identify_hub"[0] == 'i' && "sync"[0] == 's';
  }

  /** A call without an id or without a command is refused, without an id. */
  lemma {:induction false} EmptyCallIsRefused(dev: Device, callId: string, args: seq<string>)
    requires |args| < 2 || args[0] == "" || args[1] == ""
    ensures Replies(dev, callId, "call", args) == [["err", "", "No command or call id"]]
  {
    CallIsCall(dev, callId, args);
  }

  /** The descriptions: an answer with the id of the call and the text that was asked for, empty when there is none. */
  lemma {:induction false} DescriptionsTell(dev: Device, callId: string, id: string, more: seq<string>)
    requires id != ""
    ensures Replies(dev, callId, "call", [id, "#sensors"] + more)
            == [["ok", id, if dev.sensors.Some? then CStr(dev.sensors.value) else ""]]
    ensures Replies(dev, callId, "call", [id, "#controls"] + more)
            == [["ok", id, if dev.controls.Some? then CStr(dev.controls.value) else ""]]
    ensures Replies(dev, callId, "call", [id, "#state"] + more) == [["ok", id] + CStrs(dev.state)]
  {
    CallIsCall(dev, callId, [id, "#sensors"] + more);
    CallIsCall(dev, callId, [id, "#controls"] + more);
    CallIsCall(dev, callId, [id, "#state"] + more);
    SystemNamesDiffer();
    assert dev.sensors.Some? ==> ["ok", id] + CStrs([dev.sensors.value]) == ["ok", id, CStr(dev.sensors.value)];
    assert dev.controls.Some? ==> ["ok", id] + CStrs([dev.controls.value]) == ["ok", id, CStr(dev.controls.value)];
  }

  lemma {:induction false} SystemNamesDiffer()
    ensures "#sensors" != "#controls" && "#sensors" != "#state" && "#controls" != "#state"
    ensures "#setup" != "#sensors" && "#setup" != "#controls" && "#setup" != "#state"
    ensures "#sensors"[0] == '#' && "#controls"[0] == '#' && "#state"[0] == '#' && "#setup"[0] == '#'
  {
    assert "#sensors"[1] == 's' && "#sensors"[2] == 'e' && |"#sensors"| == 8;
    assert "#controls"[1] == 'c' && |"#controls"| == 9;
    assert "#state"[2] == 't' && |"#state"| == 6 && "#setup"[2] == 'e' && |"#setup"| == 6;
  }

  /** `#setup` is accepted exactly with an id that reads as valid and a name. */
  lemma {:induction false} SetupIsAcceptedIff(dev: Device, callId: string, id: string, more: seq<string>)
    requires id != ""
    ensures var rs := Replies(dev, callId, "call", [id, "#setup"] + more);
            if |more| >= 2 && Uuid.IsValid(Uuid.Parse(Uuid.NULL_ID, more[0])) then rs == [["ok", id]]
            else rs == [["err", id, "bad setup command"]]
  {
    var args := [id, "#setup"] + more;
    CallIsCall(dev, callId, args);
    SystemNamesDiffer();
    assert Answer("ok", id, []) == ["ok", id];
    assert |more| >= 2 ==> args[2] == more[0];
  }

  lemma {:induction false} OtherSystemCallIsRefused(dev: Device, callId: string, id: string, command: string,
      more: seq<string>)
    requires id != "" && command != "" && command[0] == '#'
    requires command != "#sensors" && command != "#controls" && command != "#state" && command != "#setup"
    ensures Replies(dev, callId, "call", [id, command] + more) == [["err", id, "bad system command"]]
  {
    CallIsCall(dev, callId, [id, command] + more);
  }

  /** Any other command goes to the handler with its arguments. What the handler writes goes out in order, its answers
      with the id of the call; when it answers nothing, an error with that id ends the list. */
  lemma {:induction false} UserCallTells(dev: Device, callId: string, id: string, command: string, more: seq<string>)
    requires id != "" && command != "" && command[0] != '#'
    ensures var rs := Replies(dev, callId, "call", [id, command] + more);
            var ws := if dev.commands.Some? then dev.commands.value(command, more) else [];
            var silent := forall i | 0 <= i < |ws| :: !ws[i].WroteOk? && !ws[i].WroteErr?;
            && |rs| == |ws| + (if silent then 1 else 0)
            && (silent ==> rs[|ws|] == ["err", id, "unknown command"])
            && forall i | 0 <= i < |ws| ::
                 rs[i] == match ws[i]
                          case WroteOk(a) => ["ok", id] + CStrs(a)
                          case WroteErr(a) => ["err", id] + CStrs(a)
                          case WroteInfo(a) => ["info"] + CStrs(a)
                          case WroteMeasurement(a) => ["meas"] + CStrs(a)
  {
    var args := [id, command] + more;
    CallIsCall(dev, callId, args);
    assert args[2..] == more;
    var ws := CommandWrites(dev, command, more);
    forall i | 0 <= i < |ws| ensures Replies(dev, callId, "call", args)[i] == WriteBody(id, ws[i]) { }
    assert Answered(ws) <==> !(forall i | 0 <= i < |ws| :: !ws[i].WroteOk? && !ws[i].WroteErr?);
  }

  /** The id that a later `identify_hub` is refused with is that of the last call. */
  lemma {:induction false} HubRefusalNamesLastCall(dev: Device, callId: string, id: string, command: string,
      more: seq<string>, args: seq<string>)
    requires id != "" && command != ""
    ensures Replies(dev, NextCallId(callId, "call", [id, command] + more), "identify_hub", args)
            == [["err", id, "not a hub device"]]
    ensures Replies(dev, NextCallId(NextCallId(callId, "call", [id, command] + more), "sync", []), "identify_hub", args)
            == [["err", id, "not a hub device"]]
    ensures Replies(dev, NextCallId(callId, "call", []), "identify_hub", args) == [["err", "", "not a hub device"]]
  {
    OtherMessagesTell(dev, id, args);
    OtherMessagesTell(dev, "", args);
    assert "sync"[0] != "call"[0];
  }
}
