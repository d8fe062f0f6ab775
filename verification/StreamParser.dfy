/** The parser object (ARpcStreamParser): a caller's buffer, argument pointers into it and an escape state. */
module StreamParser {
  import opened Common
  import opened StreamCodec
  import Uuid

  datatype State = NORMAL | ESCAPE | ESCAPE_HEX1 | ESCAPE_HEX2

  class ARpcStreamParser {
    const buffer: array<char>
    /** Argument pointers, as offsets into the buffer. */
    const args: array<nat>
    var state: State
    var bufIndex: nat
    var currentArgIndex: nat
    var hexChar0: char

    /** The buffer size is the length of the caller's buffer; the text never reaches its end. */
    ghost predicate Valid()
      reads this
    {
      bufIndex < buffer.Length && args.Length == MAX_ARGS && currentArgIndex <= MAX_ARGS
    }

    ghost function Config(): Config
      reads this, buffer, args
      requires Valid()
    {
      StreamCodec.Config(
        match state
        case NORMAL => Normal
        case ESCAPE => Escape
        case ESCAPE_HEX1 => EscapeHex1
        case ESCAPE_HEX2 => EscapeHex2(hexChar0),
        buffer[..bufIndex], args[..currentArgIndex])
    }

    constructor (buf: array<char>)
      requires buf.Length >= 1
      ensures Valid() && buffer == buf && fresh(args) && Config() == INIT
    {
      buffer := buf;
      args := new nat[MAX_ARGS](_ => 0);
      state, bufIndex, currentArgIndex, hexChar0 := NORMAL, 0, 0, '\0';
    }

    method Reset()
      requires Valid()
      modifies this, buffer
      ensures Valid() && Config() == StreamCodec.Config(old(Config()).mode, "", [])
    {
      bufIndex := 0;
      buffer[0] := '\0';
      currentArgIndex := 0;
    }

    method Store(c: char)
      requires Valid()
      modifies `bufIndex, buffer
      ensures bufIndex == old(bufIndex) + 1 && buffer[..bufIndex] == old(buffer[..bufIndex]) + [c]
    {
      buffer[bufIndex] := c;
      bufIndex := bufIndex + 1;
    }

    /** One byte. The result is the message handed to the callback, if any. */
    method PutByte(c: char) returns (out: Option<Message>)
      requires Valid() && SlotFree(Config(), c)
      modifies this, buffer, args
      ensures Valid()
      ensures Run(Config(), if out.Some? then [out.value] else []) == Step(buffer.Length, old(Config()), c)
    {
      out := None;
      if c == '\0' {
        Reset();
        return;
      }
      if state == ESCAPE {
        ParseCharInEscapeState(c);
      } else if state == ESCAPE_HEX1 {
        hexChar0 := c;
        state := ESCAPE_HEX2;
      } else if state == ESCAPE_HEX2 {
        state := NORMAL;
        var h, l := Uuid.ByteFromHexChar(hexChar0), Uuid.ByteFromHexChar(c);
        if h != 0xff && l != 0xff {
          Uuid.DigitLowers(hexChar0);
          Uuid.DigitLowers(c);
          Store((16 * h + l) as char);
        }
      } else {
        out := ParseCharInNormalState(c);
      }
      if bufIndex == buffer.Length {
        bufIndex := 0;
        buffer[0] := '\0';
        currentArgIndex := 0;
      }
    }

    /** Before the overflow test the text may fill the whole buffer. */
    ghost predicate Filled()
      reads this
    {
      bufIndex <= buffer.Length && args.Length == MAX_ARGS && currentArgIndex <= MAX_ARGS && buffer.Length >= 1
    }

    method ParseCharInNormalState(c: char) returns (out: Option<Message>)
      requires Valid() && state == NORMAL && SlotFree(Config(), c) && c != '\0'
      modifies this, buffer, args
      ensures Filled() && state in {NORMAL, ESCAPE}
      ensures Run(StreamCodec.Config(if state == NORMAL then Normal else Escape,
                                     buffer[..bufIndex], args[..currentArgIndex]),
                  if out.Some? then [out.value] else []) == Accept(old(Config()), c)
    {
      out := None;
      if c == '\\' {
        state := ESCAPE;
      } else if c == '|' {
        Store('\0');
        currentArgIndex := currentArgIndex + 1;
        args[currentArgIndex - 1] := bufIndex;
      } else if c == '\n' {
        buffer[bufIndex] := '\0';
        out := Some(Message(buffer[..bufIndex], args[..currentArgIndex]));
        Reset();
      } else {
        Store(c);
      }
    }

    method ParseCharInEscapeState(c: char)
      requires Valid() && state == ESCAPE && c != '\0'
      modifies this, buffer
      ensures Filled() && state in {NORMAL, ESCAPE_HEX1}
      ensures currentArgIndex == old(currentArgIndex) && hexChar0 == old(hexChar0)
      ensures Run(StreamCodec.Config(if state == NORMAL then Normal else EscapeHex1,
                                     buffer[..bufIndex], args[..currentArgIndex]), [])
              == Accept(old(Config()), c)
    {
      if c == 'x' {
        state := ESCAPE_HEX1;
        return;
      }
      if c == 'n' { Store('\n'); }
      else if c == '0' { Store('\0'); }
      else { Store(c); }
      state := NORMAL;
    }

    /** Any chunk of input. */
    method PutData(data: string) returns (out: seq<Message>)
      requires Valid() && SlotsSuffice(buffer.Length, Config(), data)
      modifies this, buffer, args
      ensures Valid()
      ensures Run(Config(), out) == Feed(buffer.Length, old(Config()), data)
    {
      out := [];
      ghost var s := Config();
      for i := 0 to |data|
        invariant Valid()
        invariant Run(Config(), out) == Feed(buffer.Length, s, data[..i])
        invariant SlotsSuffice(buffer.Length, Config(), data[i..])
      {
        assert data[i..][0] == data[i] && data[i..][1..] == data[i + 1..];
        FeedSplit(buffer.Length, s, data[..i], [data[i]]);
        FeedOne(buffer.Length, Config(), data[i]);
        assert data[..i + 1] == data[..i] + [data[i]];
        var m := PutByte(data[i]);
        if m.Some? { out := out + [m.value]; }
      }
      assert data[..|data|] == data;
    }
  }
}
