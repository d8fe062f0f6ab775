/** Text values as records (DBDriverHelpers): an optional time, then every string with a terminating zero. */
module TextCodec {
  import opened Common
  import opened Files
  import opened Blocks

  datatype TimestampType = NO_TIME | LOCAL_TIME | GLOBAL_TIME

  datatype TimestampRule = ADD_GT | DROP_TIME | DONT_TOUCH

  /** A text sensor type; `single` values hold one sample. */
  datatype TextType = TextType(ts: TimestampType, dim: nat, single: bool)

  /** The samples one after the other, `dim` strings each. */
  datatype TextValue = TextValue(type_: TextType, time: int, strings: seq<seq<byte>>)

  predicate WellTyped(v: TextValue) {
    && v.type_.dim > 0 && |v.strings| % v.type_.dim == 0
    && (v.type_.single ==> |v.strings| == v.type_.dim)
    && IsInt64(v.time)
  }

  /** The type of what a storage keeps, by its rule for times. */
  function StoredType(t: TextType, rule: TimestampRule): TextType {
    match rule
    case ADD_GT => t.(ts := GLOBAL_TIME)
    case DROP_TIME => t.(ts := NO_TIME)
    case DONT_TOUCH => t
  }

  /** Whether a time is stored, and which; `now` is the clock. */
  function Timestamp(rule: TimestampRule, v: TextValue, now: int): (bool, int) {
    match rule
    case ADD_GT => (true, if v.type_.ts == GLOBAL_TIME then v.time else now)
    case DROP_TIME => (false, 0)
    case DONT_TOUCH => if v.type_.ts != NO_TIME then (true, v.time) else (false, 0)
  }

  // ----- the strings

  function Terminated(strings: seq<seq<byte>>): seq<byte> {
    if strings == [] then [] else strings[0] + [0] + Terminated(strings[1..])
  }

  /** Cutting at zeros, with `s` read so far; what follows the last zero is dropped. */
  function Split(data: seq<byte>, s: seq<byte>): (strings: seq<seq<byte>>)
    decreases |data|
  {
    if data == [] then []
    else if data[0] != 0 then Split(data[1..], s + [data[0]])
    else [s] + Split(data[1..], [])
  }

  ghost predicate NoZeros(s: seq<byte>) {
    forall i | 0 <= i < |s| :: s[i] != 0
  }

  function Zeros(s: seq<byte>): nat {
    if s == [] then 0 else (if s[0] == 0 then 1 else 0) + Zeros(s[1..])
  }

  lemma {:induction false} SplitFirst(front: seq<byte>, rest: seq<byte>, s: seq<byte>)
    requires NoZeros(front)
    ensures Split(front + [0] + rest, s) == [s + front] + Split(rest, [])
    decreases |front|
  {
    var all := front + [0] + rest;
    if front == [] {
      assert all[1..] == rest && s + front == s;
    } else {
      assert all[1..] == front[1..] + [0] + rest;
      SplitFirst(front[1..], rest, s + [front[0]]);
      assert s + [front[0]] + front[1..] == s + front;
    }
  }

  lemma {:induction false} ZerosSplit(a: seq<byte>, b: seq<byte>)
    ensures Zeros(a + b) == Zeros(a) + Zeros(b)
    decreases |a|
  {
    if a == [] {
      assert a + b == b;
    } else {
      assert (a + b)[1..] == a[1..] + b;
      ZerosSplit(a[1..], b);
    }
  }

  lemma {:induction false} NoZerosIffCountedNone(s: seq<byte>)
    ensures Zeros(s) == 0 <==> NoZeros(s)
    decreases |s|
  {
    if s != [] {
      NoZerosIffCountedNone(s[1..]);
      assert s == [s[0]] + s[1..];
    }
  }

  lemma {:induction false} SplitCountsZeros(data: seq<byte>, s: seq<byte>)
    ensures |Split(data, s)| == Zeros(data)
    decreases |data|
  {
    if data != [] {
      if data[0] != 0 { SplitCountsZeros(data[1..], s + [data[0]]); } else { SplitCountsZeros(data[1..], []); }
    }
  }

  lemma {:induction false} TerminatedZeros(strings: seq<seq<byte>>)
    ensures Zeros(Terminated(strings)) >= |strings|
    ensures Zeros(Terminated(strings)) == |strings| ==> forall i | 0 <= i < |strings| :: NoZeros(strings[i])
    decreases |strings|
  {
    if strings != [] {
      TerminatedZeros(strings[1..]);
      ZerosSplit(strings[0] + [0], Terminated(strings[1..]));
      ZerosSplit(strings[0], [0]);
      assert Zeros([0]) == 1;
      NoZerosIffCountedNone(strings[0]);
      forall i | 0 <= i < |strings| && Zeros(Terminated(strings)) == |strings| ensures NoZeros(strings[i]) {
        if i > 0 { assert strings[i] == strings[1..][i - 1]; }
      }
    }
  }

  /** Cutting gives the strings back exactly when none of them holds a zero; empty strings are no exception. */
  lemma {:induction false} SplitUndoesTerminatedIff(strings: seq<seq<byte>>)
    ensures Split(Terminated(strings), []) == strings <==> forall i | 0 <= i < |strings| :: NoZeros(strings[i])
  {
    if Split(Terminated(strings), []) == strings {
      SplitCountsZeros(Terminated(strings), []);
      TerminatedZeros(strings);
    }
    if forall i | 0 <= i < |strings| :: NoZeros(strings[i]) {
      SplitUndoesTerminated(strings);
    }
  }

  lemma {:induction false} SplitUndoesTerminated(strings: seq<seq<byte>>)
    requires forall i | 0 <= i < |strings| :: NoZeros(strings[i])
    ensures Split(Terminated(strings), []) == strings
    decreases |strings|
  {
    if strings != [] {
      assert NoZeros(strings[0]);
      SplitFirst(strings[0], Terminated(strings[1..]), []);
      assert [] + strings[0] == strings[0];
      SplitUndoesTerminated(strings[1..]);
    }
  }

  // ----- records

  function Record(rule: TimestampRule, v: TextValue, now: int): seq<byte>
    requires IsInt64(v.time) && IsInt64(now)
  {
    var (hasTime, ts) := Timestamp(rule, v, now);
    (if hasTime then ToInt64(ts) else []) + Terminated(v.strings)
  }

  function Unpacked(t: TextType, data: seq<byte>): Option<TextValue> {
    var hasTime := t.ts != NO_TIME;
    if hasTime && |data| < 8 then None
    else
      Parsed(t, if hasTime then FromInt64(data[..8]) else 0, Split(if hasTime then data[8..] else data, []))
  }

  /** Whether the strings make up whole samples, and one sample only for a single value. */
  function Parsed(t: TextType, time: int, strings: seq<seq<byte>>): Option<TextValue> {
    if t.dim == 0 then None
    else if t.single && |strings| != t.dim then None
    else if |strings| % t.dim != 0 then None
    else Some(TextValue(t, time, strings))
  }

  /** A stored value is read back under the stored type, with the time that was stored, exactly when its strings hold
      no zeros. */
  lemma {:induction false} RecordRoundTripIff(rule: TimestampRule, v: TextValue, now: int)
    requires WellTyped(v) && IsInt64(now)
    ensures var t := StoredType(v.type_, rule);
            (Unpacked(t, Record(rule, v, now)) == Some(TextValue(t, Timestamp(rule, v, now).1, v.strings))) <==>
            (forall i | 0 <= i < |v.strings| :: NoZeros(v.strings[i]))
  {
    var t := StoredType(v.type_, rule);
    var (hasTime, ts) := Timestamp(rule, v, now);
    var body := Terminated(v.strings);
    var data := Record(rule, v, now);
    SplitUndoesTerminatedIff(v.strings);
    assert hasTime == (t.ts != NO_TIME);
    if hasTime {
      Int64RoundTrip(ts);
      assert data[..8] == ToInt64(ts) && data[8..] == body;
    } else {
      assert data == body;
    }
  }

  /** What is read back, rule by rule: with `ADD_GT` every value has a global time, its own if that was one and
      otherwise the clock; with `DROP_TIME` none has any; with `DONT_TOUCH` type and time are the value's own. */
  lemma {:induction false} ReadBackByRule(rule: TimestampRule, v: TextValue, now: int)
    requires WellTyped(v) && IsInt64(now) && forall i | 0 <= i < |v.strings| :: NoZeros(v.strings[i])
    ensures var r := Unpacked(StoredType(v.type_, rule), Record(rule, v, now));
            && r.Some? && r.value.strings == v.strings
            && r.value.type_.dim == v.type_.dim && r.value.type_.single == v.type_.single
            && (rule == ADD_GT ==>
                  r.value.type_.ts == GLOBAL_TIME && r.value.time == if v.type_.ts == GLOBAL_TIME then v.time else now)
            && (rule == DROP_TIME ==> r.value.type_.ts == NO_TIME && r.value.time == 0)
            && (rule == DONT_TOUCH ==> r.value.type_ == v.type_)
            && (rule == DONT_TOUCH && v.type_.ts != NO_TIME ==> r.value == v)
  {
    RecordRoundTripIff(rule, v, now);
  }

  // ----- which data are records

  /** What stands behind the time. */
  function Body(t: TextType, data: seq<byte>): seq<byte>
    requires t.ts != NO_TIME ==> |data| >= 8
  {
    if t.ts != NO_TIME then data[8..] else data
  }

  /** Data are taken exactly when they hold a time where there must be one and zeros for whole samples, for one sample
      only when the type is of single values. */
  lemma {:induction false} TakenIff(t: TextType, data: seq<byte>)
    ensures Unpacked(t, data).Some? <==>
            && t.dim > 0
            && (t.ts != NO_TIME ==> |data| >= 8)
            && var n := Zeros(Body(t, data)); n % t.dim == 0 && (t.single ==> n == t.dim)
  {
    if t.ts != NO_TIME ==> |data| >= 8 { SplitCountsZeros(Body(t, data), []); }
  }

  lemma {:induction false} FirstMoved(s: seq<byte>, data: seq<byte>)
    requires data != []
    ensures s + [data[0]] + data[1..] == s + data
  {
  }

  lemma {:induction false} TerminatedBehind(s: seq<byte>, rest: seq<seq<byte>>)
    ensures Terminated([s] + rest) == s + [0] + Terminated(rest)
  {
    assert ([s] + rest)[1..] == rest;
  }

  ghost predicate EndsWithZero(data: seq<byte>) {
    data != [] ==> data[|data| - 1] == 0
  }

  lemma {:induction false} TerminatedUndoesSplit(data: seq<byte>, s: seq<byte>)
    requires EndsWithZero(data) && (data == [] ==> s == [])
    ensures Terminated(Split(data, s)) == s + data
    decreases |data|
  {
    if data != [] {
      FirstMoved(s, data);
      assert EndsWithZero(data[1..]);
      if data[0] != 0 {
        TerminatedUndoesSplit(data[1..], s + [data[0]]);
      } else {
        TerminatedUndoesSplit(data[1..], []);
        TerminatedBehind(s, Split(data[1..], []));
        assert [] + data[1..] == data[1..];
      }
    }
  }

  /** Data that are taken and end behind a zero are the record of the value they were taken for: storing it again as it
      is gives the same bytes. */
  lemma {:induction false} TakenIsRecord(t: TextType, data: seq<byte>, now: int)
    requires Unpacked(t, data).Some? && IsInt64(now)
    requires EndsWithZero(Body(t, data))
    ensures var v := Unpacked(t, data).value;
            WellTyped(v) && v.type_ == t && Record(DONT_TOUCH, v, now) == data
  {
    var body := Body(t, data);
    TerminatedUndoesSplit(body, []);
    assert [] + body == body;
    if t.ts != NO_TIME {
      Int64OfRead(data[..8]);
      assert data == data[..8] + body;
    } else {
      assert [] + body == data;
    }
  }

  /** The clock counts for nothing but a value without a global time that is to get one. */
  lemma {:induction false} ClockMattersIff(rule: TimestampRule, v: TextValue, now: int, later: int)
    requires WellTyped(v) && IsInt64(now) && IsInt64(later) && now != later
    ensures Record(rule, v, now) != Record(rule, v, later) <==> rule == ADD_GT && v.type_.ts != GLOBAL_TIME
  {
    if rule == ADD_GT && v.type_.ts != GLOBAL_TIME {
      Int64RoundTrip(now);
      Int64RoundTrip(later);
      assert Record(rule, v, now)[..8] == ToInt64(now) && Record(rule, v, later)[..8] == ToInt64(later);
    }
  }

  // ----- the helper object

  class DBDriverHelpers {
    const timeRule: TimestampRule

    constructor (rule: TimestampRule)
      ensures timeRule == rule
    {
      timeRule := rule;
    }

    method PackSensorValue(val: TextValue, now: int) returns (data: seq<byte>, hasTime: bool, timestamp: int)
      requires WellTyped(val) && IsInt64(now)
      ensures data == Record(timeRule, val, now) && (hasTime, timestamp) == Timestamp(timeRule, val, now)
    {
      hasTime, timestamp := GetTimestampForVal(val, now);
      data := [];
      if hasTime { data := data + ToInt64(timestamp); }
      var dim := val.type_.dim;
      ExactQuotient(|val.strings|, dim);
      data := AppendStrings(data, val.strings, dim, |val.strings| / dim);
    }

    /** The strings sample by sample, in a sample component by component. */
    method AppendStrings(head: seq<byte>, strings: seq<seq<byte>>, dim: nat, samplesCount: nat)
        returns (data: seq<byte>)
      requires |strings| == Span(samplesCount, dim)
      ensures data == head + Terminated(strings)
    {
      data := head;
      assert strings[..0] == [] && head + Terminated([]) == head;
      var i := 0;
      while i < samplesCount
        invariant 0 <= i <= samplesCount && Span(i, dim) <= |strings|
        invariant data == head + Terminated(strings[..Span(i, dim)])
      {
        var base := Span(i, dim);
        SpanAdd(i + 1, samplesCount - i - 1, dim);
        var j := 0;
        while j < dim
          invariant 0 <= j <= dim
          invariant data == head + Terminated(strings[..base + j])
        {
          var s := strings[base + j];
          OneMoreString(head, strings, base + j);
          data := data + (s + [0]);
          j := j + 1;
        }
        i := i + 1;
      }
      assert strings[..|strings|] == strings;
    }

    method UnpackSensorValue(t: TextType, data: seq<byte>) returns (r: Option<TextValue>)
      ensures r == Unpacked(t, data)
    {
      var hasTime := t.ts != NO_TIME;
      if hasTime && |data| < 8 { return None; }
      var time := if hasTime then FromInt64(data[..8]) else 0;
      var msgArgs: seq<seq<byte>> := [];
      var s: seq<byte> := [];
      var i := if hasTime then 8 else 0;
      ghost var body := if hasTime then data[8..] else data;
      assert data[i..] == body;
      while i < |data|
        invariant (if hasTime then 8 else 0) <= i <= |data|
        invariant msgArgs + Split(data[i..], s) == Split(body, [])
      {
        assert data[i..][1..] == data[i + 1..];
        if data[i] != 0 {
          s := s + [data[i]];
        } else {
          assert msgArgs + ([s] + Split(data[i + 1..], [])) == msgArgs + [s] + Split(data[i + 1..], []);
          msgArgs := msgArgs + [s];
          s := [];
        }
        i := i + 1;
      }
      assert msgArgs + [] == msgArgs;
      return Parsed(t, time, msgArgs);
    }

    method GetTimestampForVal(val: TextValue, now: int) returns (hasTime: bool, timestamp: int)
      ensures (hasTime, timestamp) == Timestamp(timeRule, val, now)
    {
      hasTime, timestamp := false, 0;
      if timeRule == ADD_GT {
        hasTime := true;
        if val.type_.ts == GLOBAL_TIME { timestamp := val.time; } else { timestamp := now; }
      } else if timeRule == DONT_TOUCH {
        hasTime := val.type_.ts != NO_TIME;
        if hasTime { timestamp := val.time; }
      }
    }
  }

  lemma {:induction false} OneMoreString(head: seq<byte>, strings: seq<seq<byte>>, k: nat)
    requires k < |strings|
    ensures head + Terminated(strings[..k + 1]) == head + Terminated(strings[..k]) + (strings[k] + [0])
  {
    assert strings[..k + 1] == strings[..k] + [strings[k]];
    TerminatedAppend(strings[..k], strings[k]);
  }

  lemma {:induction false} TerminatedAppend(strings: seq<seq<byte>>, s: seq<byte>)
    ensures Terminated(strings + [s]) == Terminated(strings) + (s + [0])
    decreases |strings|
  {
    if strings == [] {
      assert strings + [s] == [s];
      assert Terminated([s]) == s + [0] + Terminated([s][1..]);
    } else {
      assert (strings + [s])[1..] == strings[1..] + [s];
      TerminatedAppend(strings[1..], s);
    }
  }
}
