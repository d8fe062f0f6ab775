/** The wire format: what the escaping writer puts on a line and what the byte-at-a-time parser makes of it.
    A C `char` is a Dafny `char`; nothing below depends on its width. */
module StreamCodec {
  import opened Common
  import Uuid

  const MAX_ARGS := 20

  /** A message: its title and its arguments. */
  type Fields = f: seq<string> | f != [] witness [""]

  // ----- the parser machine

  datatype Mode = Normal | Escape | EscapeHex1 | EscapeHex2(first: char)

  /** `data` is the used part of the buffer, `args` the offsets the argument pointers hold. */
  datatype Config = Config(mode: Mode, data: string, args: seq<nat>)

  datatype Message = Message(data: string, args: seq<nat>)

  datatype Run = Run(config: Config, out: seq<Message>)

  const INIT := Config(Normal, "", [])

  function Stored(s: Config, c: char): Config {
    Config(Normal, s.data + [c], s.args)
  }

  function HexPair(first: char, second: char): Option<char> {
    var h, l := Uuid.ByteFromHexChar(first), Uuid.ByteFromHexChar(second);
    if h != Uuid.BAD_DIGIT && l != Uuid.BAD_DIGIT then
      Uuid.DigitLowers(first); Uuid.DigitLowers(second);
      Some((16 * h + l) as char)
    else None
  }

  /** One character other than zero, before the overflow test. */
  function Accept(s: Config, c: char): Run {
    match s.mode
    case Normal =>
      if c == '\\' then Run(s.(mode := Escape), [])
      else if c == '|' then Run(Config(Normal, s.data + "\0", s.args + [|s.data| + 1]), [])
      else if c == '\n' then Run(INIT, [Message(s.data, s.args)])
      else Run(Stored(s, c), [])
    case Escape =>
      if c == 'x' then Run(s.(mode := EscapeHex1), [])
      else Run(Stored(s, if c == 'n' then '\n' else if c == '0' then '\0' else c), [])
    case EscapeHex1 => Run(s.(mode := EscapeHex2(c)), [])
    case EscapeHex2(first) =>
      match HexPair(first, c)
      case Some(b) => Run(Stored(s, b), [])
      case None => Run(s.(mode := Normal), [])
  }

  /** `putByte`: a zero, like a full buffer, drops the text but not the escape state. */
  function Step(bufSize: nat, s: Config, c: char): Run {
    if c == '\0' then Run(Config(s.mode, "", []), [])
    else
      var r := Accept(s, c);
      if |r.config.data| == bufSize then Run(Config(r.config.mode, "", []), r.out) else r
  }

  function Feed(bufSize: nat, s: Config, input: string): Run
    decreases |input|
  {
    if input == "" then Run(s, [])
    else
      var first := Step(bufSize, s, input[0]);
      var rest := Feed(bufSize, first.config, input[1..]);
      Run(rest.config, first.out + rest.out)
  }

  /** Chunking is invisible. */
  lemma {:induction false} FeedSplit(bufSize: nat, s: Config, a: string, b: string)
    ensures Feed(bufSize, s, a + b).config == Feed(bufSize, Feed(bufSize, s, a).config, b).config
    ensures Feed(bufSize, s, a + b).out == Feed(bufSize, s, a).out + Feed(bufSize, Feed(bufSize, s, a).config, b).out
    decreases |a|
  {
    if a == "" {
      assert a + b == b;
    } else {
      var first := Step(bufSize, s, a[0]);
      assert (a + b)[0] == a[0] && (a + b)[1..] == a[1..] + b;
      FeedSplit(bufSize, first.config, a[1..], b);
      ThreeOuts(first.out, Feed(bufSize, first.config, a[1..]).out, Feed(bufSize, Feed(bufSize, s, a).config, b).out);
    }
  }

  lemma {:induction false} ThreeOuts(a: seq<Message>, b: seq<Message>, c: seq<Message>)
    ensures a + (b + c) == a + b + c
  {
  }

  lemma {:induction false} FeedSilently(bufSize: nat, s: Config, a: string, mid: Config, b: string, r: Run)
    requires Feed(bufSize, s, a) == Run(mid, []) && Feed(bufSize, mid, b) == r
    ensures Feed(bufSize, s, a + b) == r
  {
    FeedSplit(bufSize, s, a, b);
  }

  lemma {:induction false} FeedOne(bufSize: nat, s: Config, c: char)
    ensures Feed(bufSize, s, [c]) == Step(bufSize, s, c)
  {
    assert [c][1..] == "";
    var r := Step(bufSize, s, c);
    assert r.out + [] == r.out;
  }

  // ----- safety

  ghost predicate InBounds(bufSize: nat, s: Config) {
    && |s.data| < bufSize
    && forall i | 0 <= i < |s.args| :: s.args[i] <= |s.data|
  }

  ghost predicate MessageInBounds(bufSize: nat, m: Message) {
    && |m.data| < bufSize
    && forall i | 0 <= i < |m.args| :: m.args[i] <= |m.data|
  }

  /** Every run keeps the buffer below its size; a delivered text is shorter than the buffer. */
  lemma {:induction false} FeedInBounds(bufSize: nat, s: Config, input: string)
    requires bufSize >= 1 && InBounds(bufSize, s)
    ensures InBounds(bufSize, Feed(bufSize, s, input).config)
    ensures forall m | m in Feed(bufSize, s, input).out :: MessageInBounds(bufSize, m)
    decreases |input|
  {
    if input != "" {
      var r := Step(bufSize, s, input[0]);
      assert InBounds(bufSize, r.config);
      FeedInBounds(bufSize, r.config, input[1..]);
    }
  }

  /** The only unchecked access: the separator that would fill a 21st argument slot. */
  predicate SlotFree(s: Config, c: char) {
    s.mode == Normal && c == '|' ==> |s.args| < MAX_ARGS
  }

  predicate SlotsSuffice(bufSize: nat, s: Config, input: string)
    decreases |input|
  {
    input == "" ||
    (SlotFree(s, input[0]) && SlotsSuffice(bufSize, Step(bufSize, s, input[0]).config, input[1..]))
  }

  lemma {:induction false} SlotsSplit(bufSize: nat, s: Config, a: string, b: string)
    ensures SlotsSuffice(bufSize, s, a + b)
            <==> SlotsSuffice(bufSize, s, a) && SlotsSuffice(bufSize, Feed(bufSize, s, a).config, b)
    decreases |a|
  {
    if a == "" {
      assert a + b == b;
    } else {
      assert (a + b)[1..] == a[1..] + b;
      SlotsSplit(bufSize, Step(bufSize, s, a[0]).config, a[1..], b);
    }
  }

  // ----- resynchronisation

  /** Whatever came before, three newlines bring the parser to its initial configuration. */
  lemma {:induction false} ThreeNewlinesResync(bufSize: nat, s: Config)
    requires bufSize >= 1
    ensures Feed(bufSize, s, "\n\n\n").config == INIT
  {
    var s1 := Step(bufSize, s, '\n').config;
    var s2 := Step(bufSize, s1, '\n').config;
    var s3 := Step(bufSize, s2, '\n').config;
    assert "\n\n\n"[1..] == "\n\n" && "\n\n"[1..] == "\n";
    FeedOne(bufSize, s2, '\n');
    assert Feed(bufSize, s, "\n\n\n").config == s3;
    assert s1.mode != Escape;
    match s.mode
    case Normal =>
    case Escape =>
    case EscapeHex1 => assert s2.mode == Normal;
    case EscapeHex2(f) => assert s1.mode == Normal;
  }

  /** Two do from every state but one: they are swallowed, as its two digits, by a hexadecimal escape that has just
      been opened, and what was read before it stays. */
  lemma {:induction false} TwoNewlinesResyncIff(bufSize: nat, s: Config)
    requires bufSize >= 1 && InBounds(bufSize, s)
    ensures Feed(bufSize, s, "\n\n").config == INIT <==> !(s.mode.EscapeHex1? && (s.data != "" || s.args != []))
  {
    var s1 := Step(bufSize, s, '\n').config;
    assert "\n\n"[1..] == "\n";
    FeedOne(bufSize, s1, '\n');
    assert Feed(bufSize, s, "\n\n").config == Step(bufSize, s1, '\n').config;
  }

  /** Such a state is reached. */
  lemma {:induction false} TwoNewlinesDoNotResync()
    ensures Feed(8, INIT, "a\\x" + "\n\n").config == Config(Normal, "a", [])
  {
    var s1 := Step(8, INIT, 'a').config;
    var s2 := Step(8, s1, '\\').config;
    var s3 := Step(8, s2, 'x').config;
    var s4 := Step(8, s3, '\n').config;
    assert "a\\x" + "\n\n" == "a\\x\n\n";
    assert "a\\x\n\n"[1..] == "\\x\n\n" && "\\x\n\n"[1..] == "x\n\n" && "x\n\n"[1..] == "\n\n" && "\n\n"[1..] == "\n";
    FeedOne(8, s4, '\n');
    assert Feed(8, s3, "\n\n").config == Config(Normal, "a", []);
    assert Feed(8, s2, "x\n\n").config == Config(Normal, "a", []);
    assert Feed(8, s1, "\\x\n\n").config == Config(Normal, "a", []);
  }

  /** A zero byte (`resetStream`) resynchronises exactly when no escape is pending. */
  lemma {:induction false} ZeroResyncsIffNormal(bufSize: nat, s: Config)
    ensures Feed(bufSize, s, "\0").config == INIT <==> s.mode == Normal
  {
    FeedOne(bufSize, s, '\0');
  }

  // ----- escapes

  lemma {:induction false} FeedThree(bufSize: nat, s: Config, a: char, b: char, c: char)
    ensures var s1, s2 := Step(bufSize, s, a), Step(bufSize, Step(bufSize, s, a).config, b);
            var s3 := Step(bufSize, s2.config, c);
            Feed(bufSize, s, [a, b, c]) == Run(s3.config, s1.out + (s2.out + s3.out))
  {
    var s2 := Step(bufSize, s, a).config;
    var s3 := Step(bufSize, s2, b).config;
    assert [a, b, c][1..] == [b, c] && [b, c][1..] == [c];
    FeedOne(bufSize, s3, c);
    assert Feed(bufSize, s2, [b, c])
           == Run(Step(bufSize, s3, c).config, Step(bufSize, s2, b).out + Step(bufSize, s3, c).out);
  }

  /** The parser at a hexadecimal escape: its two digits are taken, whatever they are. */
  lemma {:induction false} HexEscape(bufSize: nat, s: Config, x: char, y: char)
    requires s.mode == Normal && |s.data| + 1 < bufSize && x != '\0' && y != '\0'
    ensures Feed(bufSize, s, "\\x" + [x, y])
            == Run(if HexPair(x, y).None? then s else Config(Normal, s.data + [HexPair(x, y).value], s.args), [])
  {
    var s2 := s.(mode := EscapeHex1);
    assert "\\x" + [x, y] == ['\\', 'x', x, y] && ['\\', 'x', x, y][1..] == ['x', x, y];
    FeedThree(bufSize, s.(mode := Escape), 'x', x, y);
    assert Step(bufSize, s, '\\') == Run(s.(mode := Escape), []);
  }

  /** A byte written as a hexadecimal escape, high digit first, is stored as that byte. */
  lemma {:induction false} HexEscapeStores(bufSize: nat, s: Config, b: byte)
    requires s.mode == Normal && |s.data| + 1 < bufSize
    ensures Feed(bufSize, s, "\\x" + Uuid.HexOf([b])) == Run(Config(Normal, s.data + [b as char], s.args), [])
  {
    var x, y := Uuid.HexDigit(b / 16), Uuid.HexDigit(b % 16);
    assert [b][1..] == [];
    assert Uuid.HexOf([b]) == [x, y];
    Uuid.DigitRoundTrip(b / 16);
    Uuid.DigitRoundTrip(b % 16);
    HexEscape(bufSize, s, x, y);
  }

  /** Upper-case digits read as lower-case ones. */
  lemma {:induction false} HexEscapeIgnoresCase(bufSize: nat, s: Config, x: char, y: char)
    requires s.mode == Normal && |s.data| + 1 < bufSize && x != '\0' && y != '\0'
    ensures Feed(bufSize, s, "\\x" + [x, y]) == Feed(bufSize, s, "\\x" + [Uuid.ToLower(x), Uuid.ToLower(y)])
  {
    HexEscape(bufSize, s, x, y);
    HexEscape(bufSize, s, Uuid.ToLower(x), Uuid.ToLower(y));
  }

  predicate IsHexDigit(c: char) {
    c in "0123456789abcdefABCDEF"
  }

  /** With a bad digit the escape stores nothing, and both characters are gone. */
  lemma {:induction false} HexEscapeStoresIff(bufSize: nat, s: Config, x: char, y: char)
    requires s.mode == Normal && |s.data| + 1 < bufSize && x != '\0' && y != '\0'
    ensures var r := Feed(bufSize, s, "\\x" + [x, y]);
            && r.config.mode == Normal && r.config.args == s.args && r.out == []
            && (IsHexDigit(x) && IsHexDigit(y) <==> |r.config.data| == |s.data| + 1)
            && (!(IsHexDigit(x) && IsHexDigit(y)) <==> r.config.data == s.data)
  {
    HexEscape(bufSize, s, x, y);
    HexDigitIff(x);
    HexDigitIff(y);
  }

  lemma {:induction false} HexDigitIff(c: char)
    ensures Uuid.ByteFromHexChar(c) != Uuid.BAD_DIGIT <==> IsHexDigit(c)
  {
    var t := "0123456789abcdefABCDEF";
    if '0' <= c <= '9' { assert t[c as int - 48] == c; }
    else if 'a' <= c <= 'f' { assert t[c as int - 87] == c; }
    else if 'A' <= c <= 'F' { assert t[c as int - 49] == c; }
  }

  /** The other escapes: an n is a newline, a 0 a zero, every other character itself. */
  lemma {:induction false} EscapeStores(bufSize: nat, s: Config, c: char)
    requires s.mode == Normal && |s.data| + 1 < bufSize && c != '\0' && c != 'x'
    ensures Feed(bufSize, s, "\\" + [c])
            == Run(Config(Normal, s.data + [if c == 'n' then 10 as char else if c == '0' then 0 as char else c],
                          s.args), [])
  {
    assert "\\" + [c] == ['\\', c] && ['\\', c][1..] == [c];
    FeedOne(bufSize, s.(mode := Escape), c);
    assert Step(bufSize, s, '\\') == Run(s.(mode := Escape), []);
  }

  // ----- the writer's format

  function EscapeChar(c: char): string {
    if c == '\0' then "\\0"
    else if c == '|' then "\\|"
    else if c == '\n' then "\\n"
    else if c == '\\' then "\\\\"
    else [c]
  }

  function Escaped(s: string): string {
    if s == "" then "" else EscapeChar(s[0]) + Escaped(s[1..])
  }

  lemma {:induction false} EscapedSplit(a: string, b: string)
    ensures Escaped(a + b) == Escaped(a) + Escaped(b)
  {
    if a == "" {
      assert a + b == b;
    } else {
      assert (a + b)[1..] == a[1..] + b;
      EscapedSplit(a[1..], b);
    }
  }

  ghost predicate Plain(s: string) {
    forall i | 0 <= i < |s| :: s[i] != '\0' && s[i] != '|' && s[i] != '\n' && s[i] != '\\'
  }

  lemma {:induction false} PlainNeedsNoEscape(s: string)
    requires Plain(s)
    ensures Escaped(s) == s
  {
    if s != "" {
      PlainNeedsNoEscape(s[1..]);
    }
  }

  /** Fields separated by bars. */
  function Joined(fields: Fields): string
  {
    if |fields| == 1 then Escaped(fields[0]) else Escaped(fields[0]) + "|" + Joined(fields[1..])
  }

  /** The text of a message, character by character: a backslash in front of the four special ones, of which the newline
      and the zero go out as a letter and a digit. */
  lemma {:induction false} EscapedAsDocumented(c: char)
    ensures Escaped([c]) == if c as int == 0 then ['\\', '0'] else if c as int == 10 then ['\\', 'n']
                            else if c == '|' || c == '\\' then ['\\', c] else [c]
  {
    assert [c][1..] == "";
    assert EscapeChar(c) + "" == EscapeChar(c);
  }

  /** Plain fields are the text between the bars, and a newline ends the message. */
  lemma {:induction false} PlainEncoding(first: string, rest: Fields)
    requires Plain(first)
    ensures Encode([first]) == first + "\n"
    ensures rest != [] ==> Encode([first] + rest) == first + "|" + Encode(rest)
  {
    PlainNeedsNoEscape(first);
    if rest != [] {
      assert ([first] + rest)[1..] == rest;
      assert first + "|" + Joined(rest) + "\n" == first + "|" + (Joined(rest) + "\n");
    }
  }

  /** One message on the line. */
  function Encode(fields: Fields): string
  {
    Joined(fields) + "\n"
  }

  lemma {:induction false} JoinedAppend(fields: Fields, last: string)
    ensures Joined(fields + [last]) == Joined(fields) + "|" + Escaped(last)
  {
    if |fields| == 1 {
      assert (fields + [last])[1..] == [last];
    } else {
      assert (fields + [last])[1..] == fields[1..] + [last];
      JoinedAppend(fields[1..], last);
    }
  }

  // ----- what the parser holds for a list of fields

  function ZeroJoined(fields: Fields): string
  {
    if |fields| == 1 then fields[0] else fields[0] + "\0" + ZeroJoined(fields[1..])
  }

  /** Offsets of all fields but the first when the first starts at `base`. */
  function Offsets(base: nat, fields: Fields): (o: seq<nat>)
    ensures |o| == |fields| - 1
    decreases |fields|
  {
    if |fields| == 1 then []
    else [base + |fields[0]| + 1] + Offsets(base + |fields[0]| + 1, fields[1..])
  }

  function Decoded(fields: Fields): Message
  {
    Message(ZeroJoined(fields), Offsets(0, fields))
  }

  lemma {:induction false} FeedEscaped(bufSize: nat, s: Config, t: string)
    requires s.mode == Normal && |s.data| + |t| < bufSize
    ensures Feed(bufSize, s, Escaped(t)) == Run(Config(Normal, s.data + t, s.args), [])
    decreases |t|
  {
    if t == "" {
      assert s.data + t == s.data;
    } else {
      var next := Config(Normal, s.data + [t[0]], s.args);
      FirstMoved(s.data, t);
      FeedEscapedChar(bufSize, s, t[0]);
      FeedEscaped(bufSize, next, t[1..]);
      FeedSilently(bufSize, s, EscapeChar(t[0]), next, Escaped(t[1..]), Run(Config(Normal, s.data + t, s.args), []));
    }
  }

  lemma {:induction false} FirstMoved(a: string, t: string)
    requires t != ""
    ensures a + [t[0]] + t[1..] == a + t
  {
  }

  lemma {:induction false} FeedEscapedChar(bufSize: nat, s: Config, c: char)
    requires s.mode == Normal && |s.data| + 1 < bufSize
    ensures Feed(bufSize, s, EscapeChar(c)) == Run(Config(Normal, s.data + [c], s.args), [])
  {
    var e := EscapeChar(c);
    if |e| == 1 {
      FeedOne(bufSize, s, c);
    } else {
      assert e == ['\\'] + [e[1]];
      FeedSplit(bufSize, s, ['\\'], [e[1]]);
      FeedOne(bufSize, s, '\\');
      FeedOne(bufSize, s.(mode := Escape), e[1]);
    }
  }

  /** A field and the separator after it. */
  lemma {:induction false} FeedField(bufSize: nat, s: Config, f: string)
    requires s.mode == Normal && |s.data| + |f| + 1 < bufSize
    ensures Feed(bufSize, s, Escaped(f) + "|") == Run(Behind(s, f), [])
  {
    FeedEscaped(bufSize, s, f);
    BarBehind(bufSize, s, f);
    FeedSilently(bufSize, s, Escaped(f), Config(Normal, s.data + f, s.args), "|", Run(Behind(s, f), []));
  }

  lemma {:induction false} BarBehind(bufSize: nat, s: Config, f: string)
    requires |s.data| + |f| + 1 < bufSize
    ensures Feed(bufSize, Config(Normal, s.data + f, s.args), "|") == Run(Behind(s, f), [])
  {
    FeedSeparator(bufSize, s.data + f, s.args);
    BehindField(s, f);
  }

  /** The configuration behind a field and its separator. */
  function Behind(s: Config, f: string): Config {
    Config(Normal, s.data + f + "\0", s.args + [|s.data| + |f| + 1])
  }

  lemma {:induction false} BehindField(s: Config, f: string)
    ensures Behind(s, f) == Config(Normal, (s.data + f) + "\0", s.args + [|s.data + f| + 1])
  {
  }

  lemma {:induction false} FeedSeparator(bufSize: nat, data: string, args: seq<nat>)
    requires |data| + 1 < bufSize
    ensures Feed(bufSize, Config(Normal, data, args), "|") == Run(Config(Normal, data + "\0", args + [|data| + 1]), [])
  {
    FeedOne(bufSize, Config(Normal, data, args), '|');
  }

  function JoinedOnto(s: Config, fields: Fields): Config {
    Config(Normal, s.data + ZeroJoined(fields), s.args + Offsets(|s.data|, fields))
  }

  lemma {:induction false} FeedJoined(bufSize: nat, s: Config, fields: Fields)
    requires s.mode == Normal && |s.data| + |ZeroJoined(fields)| < bufSize
    ensures Feed(bufSize, s, Joined(fields)) == Run(JoinedOnto(s, fields), [])
    decreases |fields|
  {
    var f := fields[0];
    if |fields| == 1 {
      FeedEscaped(bufSize, s, f);
      JoinedOne(s, fields);
    } else {
      var s2 := Behind(s, f);
      JoinedParts(fields);
      FeedField(bufSize, s, f);
      FeedJoined(bufSize, s2, fields[1..]);
      JoinedConfig(s, fields);
      FeedSilently(bufSize, s, Escaped(f) + "|", s2, Joined(fields[1..]), Run(JoinedOnto(s, fields), []));
    }
  }

  lemma {:induction false} JoinedOne(s: Config, fields: Fields)
    requires |fields| == 1 && s.mode == Normal
    ensures Joined(fields) == Escaped(fields[0]) && JoinedOnto(s, fields) == Config(Normal, s.data + fields[0], s.args)
    ensures |ZeroJoined(fields)| == |fields[0]|
  {
    assert s.args + [] == s.args;
  }

  lemma {:induction false} JoinedParts(fields: Fields)
    requires |fields| > 1
    ensures Joined(fields) == Escaped(fields[0]) + "|" + Joined(fields[1..])
    ensures |ZeroJoined(fields)| == |fields[0]| + 1 + |ZeroJoined(fields[1..])|
  {
  }

  lemma {:induction false} JoinedConfig(s: Config, fields: Fields)
    requires |fields| > 1
    ensures JoinedOnto(Behind(s, fields[0]), fields[1..]) == JoinedOnto(s, fields)
  {
  }

  ghost predicate Fits(bufSize: nat, fields: Fields) {
    |ZeroJoined(fields)| < bufSize
  }

  lemma {:induction false} FeedEncoded(bufSize: nat, fields: Fields)
    requires Fits(bufSize, fields)
    ensures Feed(bufSize, INIT, Encode(fields)) == Run(INIT, [Decoded(fields)])
  {
    FeedJoined(bufSize, INIT, fields);
    var s := Config(Normal, ZeroJoined(fields), Offsets(0, fields));
    assert "" + ZeroJoined(fields) == ZeroJoined(fields) && [] + Offsets(0, fields) == Offsets(0, fields);
    FeedSplit(bufSize, INIT, Joined(fields), "\n");
    FeedOne(bufSize, s, '\n');
  }

  /** A message comes back exactly when its text with separators is shorter than the buffer. */
  lemma {:induction false} RoundTripIffFits(bufSize: nat, fields: Fields)
    requires bufSize >= 1
    ensures Feed(bufSize, INIT, Encode(fields)) == Run(INIT, [Decoded(fields)]) <==> |ZeroJoined(fields)| < bufSize
  {
    if |ZeroJoined(fields)| < bufSize {
      FeedEncoded(bufSize, fields);
    } else {
      FeedInBounds(bufSize, INIT, Encode(fields));
      var m := Decoded(fields);
      assert !MessageInBounds(bufSize, m);
      assert m in [m];
    }
  }

  // ----- streams of messages

  function EncodeAll(ms: seq<Fields>): string
  {
    if ms == [] then "" else Encode(ms[0]) + EncodeAll(ms[1..])
  }

  function DecodedAll(ms: seq<Fields>): (r: seq<Message>)
    ensures |r| == |ms|
    ensures forall i | 0 <= i < |ms| :: r[i] == Decoded(ms[i])
  {
    seq(|ms|, i requires 0 <= i < |ms| => Decoded(ms[i]))
  }

  /** The stream round trip: the concatenated output of the writer gives back the messages in order. */
  lemma {:induction false} StreamRoundTrip(bufSize: nat, ms: seq<Fields>)
    requires forall i | 0 <= i < |ms| :: Fits(bufSize, ms[i])
    ensures Feed(bufSize, INIT, EncodeAll(ms)) == Run(INIT, DecodedAll(ms))
  {
    if ms != [] {
      FeedEncoded(bufSize, ms[0]);
      FeedSplit(bufSize, INIT, Encode(ms[0]), EncodeAll(ms[1..]));
      StreamRoundTrip(bufSize, ms[1..]);
      assert DecodedAll(ms) == [Decoded(ms[0])] + DecodedAll(ms[1..]);
    }
  }

  /** After any noise and three newlines the messages that follow are delivered, in order and last. */
  lemma {:induction false} StreamAfterNoise(bufSize: nat, s: Config, noise: string, ms: seq<Fields>)
    requires bufSize >= 1 && forall i | 0 <= i < |ms| :: Fits(bufSize, ms[i])
    ensures var garbled := Feed(bufSize, s, noise + "\n\n\n").out;
            Feed(bufSize, s, noise + "\n\n\n" + EncodeAll(ms)) == Run(INIT, garbled + DecodedAll(ms))
  {
    FeedSplit(bufSize, s, noise, "\n\n\n");
    ThreeNewlinesResync(bufSize, Feed(bufSize, s, noise).config);
    FeedSplit(bufSize, s, noise + "\n\n\n", EncodeAll(ms));
    StreamRoundTrip(bufSize, ms);
  }

  /** A stream of messages stays inside the argument slots exactly when no message has more than 20 arguments. */
  lemma {:induction false} StreamSlotsIff(bufSize: nat, ms: seq<Fields>)
    requires forall i | 0 <= i < |ms| :: Fits(bufSize, ms[i])
    ensures SlotsSuffice(bufSize, INIT, EncodeAll(ms)) <==> forall i | 0 <= i < |ms| :: |ms[i]| - 1 <= 20
  {
    if ms != [] {
      MessageSlotsIff(bufSize, ms[0]);
      FeedEncoded(bufSize, ms[0]);
      StreamSlotsIff(bufSize, ms[1..]);
      SlotsSplit(bufSize, INIT, Encode(ms[0]), EncodeAll(ms[1..]));
      assert forall i | 0 < i < |ms| :: ms[i] == ms[1..][i - 1];
    }
  }

  lemma {:induction false} MessageSlotsIff(bufSize: nat, fields: Fields)
    requires Fits(bufSize, fields)
    ensures SlotsSuffice(bufSize, INIT, Encode(fields)) <==> |fields| <= MAX_ARGS + 1
  {
    JoinedSlots(bufSize, INIT, fields);
    FeedJoined(bufSize, INIT, fields);
    var s := Feed(bufSize, INIT, Joined(fields)).config;
    assert "\n"[1..] == "";
    assert SlotsSuffice(bufSize, s, "\n");
    SlotsSplit(bufSize, INIT, Joined(fields), "\n");
  }

  /** At most 20 arguments a message never run over the argument slots. */
  lemma {:induction false} StreamSlots(bufSize: nat, ms: seq<Fields>)
    requires forall i | 0 <= i < |ms| :: Fits(bufSize, ms[i]) && |ms[i]| <= MAX_ARGS + 1
    ensures SlotsSuffice(bufSize, INIT, EncodeAll(ms))
  {
    StreamSlotsIff(bufSize, ms);
  }

  lemma {:induction false} EscapedSlots(bufSize: nat, s: Config, t: string)
    requires s.mode == Normal && |s.data| + |t| < bufSize
    ensures SlotsSuffice(bufSize, s, Escaped(t))
    decreases |t|
  {
    if t != "" {
      var e := EscapeChar(t[0]);
      FeedEscapedChar(bufSize, s, t[0]);
      assert SlotsSuffice(bufSize, s, e) by {
        if |e| == 1 {
          assert e[1..] == "";
        } else {
          assert e[1..] == [e[1]] && e[1..][1..] == "";
          assert Step(bufSize, s, '\\').config.mode == Escape;
        }
      }
      EscapedSlots(bufSize, Config(Normal, s.data + [t[0]], s.args), t[1..]);
      SlotsSplit(bufSize, s, e, Escaped(t[1..]));
    }
  }

  lemma {:induction false} JoinedSlots(bufSize: nat, s: Config, fields: Fields)
    requires s.mode == Normal && |s.data| + |ZeroJoined(fields)| < bufSize && |s.args| <= MAX_ARGS
    ensures SlotsSuffice(bufSize, s, Joined(fields)) <==> |s.args| + |fields| <= MAX_ARGS + 1
    decreases |fields|
  {
    var f := fields[0];
    if |fields| == 1 {
      EscapedSlots(bufSize, s, f);
    } else {
      var s2 := Behind(s, f);
      FieldSlots(bufSize, s, f);
      FeedField(bufSize, s, f);
      if |s.args| < MAX_ARGS { JoinedSlots(bufSize, s2, fields[1..]); }
      JoinedParts(fields);
      SlotsSplit(bufSize, s, Escaped(f) + "|", Joined(fields[1..]));
    }
  }

  /** A field and the separator after it need one free slot. */
  lemma {:induction false} FieldSlots(bufSize: nat, s: Config, f: string)
    requires s.mode == Normal && |s.data| + |f| + 1 < bufSize
    ensures SlotsSuffice(bufSize, s, Escaped(f) + "|") <==> |s.args| < MAX_ARGS
  {
    EscapedSlots(bufSize, s, f);
    FeedEscaped(bufSize, s, f);
    var s1 := Config(Normal, s.data + f, s.args);
    assert "|"[1..] == "";
    assert SlotsSuffice(bufSize, s1, "|") <==> |s.args| < MAX_ARGS;
    SlotsSplit(bufSize, s, Escaped(f), "|");
  }

  // ----- what the message callback reads through its pointers

  /** The C string at an offset of the zero-terminated buffer. */
  function TextAt(data: string, at: nat): string {
    if at <= |data| then CStr(data[at..]) else ""
  }

  function View(m: Message): (fields: Fields)
    ensures |fields| == |m.args| + 1
    ensures AllZeroFree(fields)
  {
    [TextAt(m.data, 0)] + seq(|m.args|, i requires 0 <= i < |m.args| => TextAt(m.data, m.args[i]))
  }

  function Views(ms: seq<Message>): (r: seq<Fields>)
    ensures |r| == |ms|
    ensures forall i | 0 <= i < |ms| :: r[i] == View(ms[i])
  {
    seq(|ms|, i requires 0 <= i < |ms| => View(ms[i]))
  }

  lemma {:induction false} ViewsConcat(a: seq<Message>, b: seq<Message>)
    ensures Views(a + b) == Views(a) + Views(b)
  {
  }

  function CStrs(fields: seq<string>): (r: seq<string>)
    ensures |r| == |fields|
    ensures forall i | 0 <= i < |fields| :: r[i] == CStr(fields[i])
  {
    seq(|fields|, i requires 0 <= i < |fields| => CStr(fields[i]))
  }

  lemma {:induction false} OffsetsShift(base: nat, fields: Fields)
    ensures forall i | 0 <= i < |fields| - 1 :: Offsets(base, fields)[i] == base + Offsets(0, fields)[i]
    decreases |fields|
  {
    if |fields| > 1 {
      OffsetsShift(base + |fields[0]| + 1, fields[1..]);
      OffsetsShift(|fields[0]| + 1, fields[1..]);
    }
  }

  lemma {:induction false} TextAtOffset(fields: Fields, k: nat)
    requires k < |fields|
    ensures var at := if k == 0 then 0 else Offsets(0, fields)[k - 1];
            TextAt(ZeroJoined(fields), at) == CStr(fields[k])
  {
    if k == 0 {
      FirstText(fields);
    } else {
      TextAtOffset(fields[1..], k - 1);
      NextText(fields, k);
    }
  }

  lemma {:induction false} FirstText(fields: Fields)
    ensures TextAt(ZeroJoined(fields), 0) == CStr(fields[0])
  {
    var data := ZeroJoined(fields);
    assert data[0..] == data;
    if |fields| > 1 {
      CStrStopsAtZero(fields[0], ZeroJoined(fields[1..]));
      assert data == fields[0] + ['\0'] + ZeroJoined(fields[1..]);
    }
  }

  lemma {:induction false} NextText(fields: Fields, k: nat)
    requires 0 < k < |fields|
    ensures TextAt(ZeroJoined(fields), Offsets(0, fields)[k - 1])
            == TextAt(ZeroJoined(fields[1..]), if k == 1 then 0 else Offsets(0, fields[1..])[k - 2])
  {
    OffsetOfNext(fields, k);
    TextAtShift(fields[0] + "\0", ZeroJoined(fields[1..]), if k == 1 then 0 else Offsets(0, fields[1..])[k - 2]);
  }

  lemma {:induction false} OffsetOfNext(fields: Fields, k: nat)
    requires 0 < k < |fields|
    ensures Offsets(0, fields)[k - 1] == |fields[0]| + 1 + if k == 1 then 0 else Offsets(0, fields[1..])[k - 2]
  {
    OffsetsShift(|fields[0]| + 1, fields[1..]);
  }

  lemma {:induction false} TextAtShift(prefix: string, data: string, at: nat)
    ensures TextAt(prefix + data, |prefix| + at) == TextAt(data, at)
  {
    if at <= |data| {
      assert (prefix + data)[|prefix| + at..] == data[at..];
    }
  }

  /** The callback reads each field up to its first zero character. */
  lemma {:induction false} ViewOfDecoded(fields: Fields)
    ensures View(Decoded(fields)) == CStrs(fields)
  {
    var m := Decoded(fields);
    var v := View(m);
    forall k | 0 <= k < |fields| ensures v[k] == CStr(fields[k]) {
      TextAtOffset(fields, k);
      assert v[k] == TextAt(m.data, if k == 0 then 0 else m.args[k - 1]);
    }
    assert v == CStrs(fields);
  }

  /** So it reads the fields that were written exactly when they are free of zero characters. */
  lemma {:induction false} ViewIsFieldsIffZeroFree(fields: Fields)
    ensures View(Decoded(fields)) == fields <==> AllZeroFree(fields)
  {
    ViewOfDecoded(fields);
    forall i | 0 <= i < |fields| ensures CStr(fields[i]) == fields[i] <==> ZeroFree(fields[i]) {
      CStrIsIdentityIffZeroFree(fields[i]);
    }
    if View(Decoded(fields)) == fields {
      assert forall i | 0 <= i < |fields| :: CStrs(fields)[i] == fields[i];
    }
  }
}
