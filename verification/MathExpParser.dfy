/** The expression parser (MathSubExpParser): a state machine over the characters of one bracket level, calling itself
    on the text between brackets. Built-in functions are left out: a name before a bracket is an error here. */
module MathExpParser {
  import opened Common
  import opened MathExp
  import MathSubExp

  datatype State =
    | WAIT_OPERAND
    | WAIT_SIMPLE_OPERATION
    | READ_VAR_OR_FUNCTION_NAME
    | READ_NUM
    | READ_NUM_WAS_DOT
    | READ_NUM_AFTER_E
    | READ_NUM_WAS_E
    | END_OF_PARSING

  /** The declared names, and which words the conversion to a number accepts. */
  datatype Env = Env(vars: set<string>, isNumber: string -> bool)

  datatype Config = Config(next: nat, state: State, word: string, operands: seq<Operand>, operations: seq<Op>)

  predicate IsDigit(c: char) {
    '0' <= c <= '9'
  }

  predicate IsSpace(c: char) {
    c == ' ' || (9 as char <= c <= 13 as char)
  }

  /** The letters strictly between a and z. */
  predicate IsValidNameChar(c: char) {
    'b' <= c <= 'y' || 'B' <= c <= 'Y'
  }

  predicate IsSimpleOperationChar(c: char) {
    c == '+' || c == '-' || c == '*' || c == '/'
  }

  function OpOf(c: char): Op {
    if c == '+' then Add else if c == '-' then Subtr else if c == '*' then Mult else Div
  }

  function CharAt(eq: string, i: nat): char {
    if i >= |eq| then '\0' else eq[i]
  }

  function AddOp(s: Config, c: char): Config {
    s.(operations := s.operations + [OpOf(c)], state := WAIT_OPERAND)
  }

  /** The bracket that closes level `lvl`, from `i` on. */
  function FindClose(eq: string, i: nat, lvl: nat): (r: Option<nat>)
    requires lvl >= 1
    ensures r.Some? ==> i <= r.value < |eq|
    decreases |eq| - i
  {
    if i >= |eq| then None
    else if eq[i] == '(' then FindClose(eq, i + 1, lvl + 1)
    else if eq[i] == ')' then (if lvl == 1 then Some(i) else FindClose(eq, i + 1, lvl - 1))
    else FindClose(eq, i + 1, lvl)
  }

  // ----- one character; `s.next` is already behind it

  function WaitOperand(env: Env, eq: string, s: Config, c: char): Option<Config>
    decreases |eq|, 0, 0
  {
    if IsDigit(c) then Some(s.(word := s.word + [c], state := READ_NUM))
    else if IsValidNameChar(c) then Some(s.(word := s.word + [c], state := READ_VAR_OR_FUNCTION_NAME))
    else if c == '(' then
      match FindClose(eq, s.next, 1)
      case None => None
      case Some(k) =>
        if k == s.next then None
        else
          match ParseExp(env, eq[s.next..k])
          case None => None
          case Some(e) => Some(s.(next := k + 1, operands := s.operands + [Group(e)], state := WAIT_SIMPLE_OPERATION))
    else None
  }

  function WaitSimpleOperation(s: Config, c: char): Option<Config> {
    if IsSimpleOperationChar(c) then Some(AddOp(s, c))
    else if c == '\0' then Some(s.(state := END_OF_PARSING))
    else None
  }

  function ReadName(env: Env, s: Config, c: char): Option<Config> {
    if IsDigit(c) || IsValidNameChar(c) then Some(s.(word := s.word + [c]))
    else if IsSimpleOperationChar(c) || c == '\0' then
      if s.word !in env.vars then None
      else
        var t := s.(operands := s.operands + [Var(s.word)], word := "");
        Some(if c == '\0' then t.(state := END_OF_PARSING) else AddOp(t, c))
    else None
  }

  function ReadNum(env: Env, s: Config, c: char): Option<Config> {
    if IsDigit(c) then Some(s.(word := s.word + [c]))
    else if c == '.' then
      if s.state != READ_NUM then None else Some(s.(word := s.word + [c], state := READ_NUM_WAS_DOT))
    else if c == 'e' then
      if s.state != READ_NUM && s.state != READ_NUM_WAS_DOT then None
      else Some(s.(word := s.word + [c], state := READ_NUM_AFTER_E))
    else if IsSimpleOperationChar(c) || c == '\0' then
      if s.state == READ_NUM_AFTER_E then
        if c == '*' || c == '/' then None
        else Some(s.(word := if c == '-' then s.word + [c] else s.word, state := READ_NUM_WAS_E))
      else if !env.isNumber(s.word) then None
      else
        var t := s.(operands := s.operands + [Num(s.word)], word := "");
        Some(if c == '\0' then t.(state := END_OF_PARSING) else AddOp(t, c))
    else None
  }

  function Remaining(eq: string, i: nat): nat {
    if i < |eq| then |eq| - i else 0
  }

  function Rank(state: State): nat {
    match state
    case END_OF_PARSING => 2
    case READ_NUM_AFTER_E => 4
    case _ => 3
  }

  /** Behind the end of the text every character brings the end of parsing nearer. */
  function ParseChar(env: Env, eq: string, s: Config, c: char): (r: Option<Config>)
    ensures r.Some? ==> r.value.next >= s.next
    ensures r.Some? && c == '\0' && s.state != END_OF_PARSING ==>
              r.value.next == s.next && Rank(r.value.state) < Rank(s.state)
    decreases |eq|, 0, 1
  {
    match s.state
    case WAIT_OPERAND => WaitOperand(env, eq, s, c)
    case WAIT_SIMPLE_OPERATION => WaitSimpleOperation(s, c)
    case READ_VAR_OR_FUNCTION_NAME => ReadName(env, s, c)
    case END_OF_PARSING => Some(s)
    case _ => ReadNum(env, s, c)
  }

  /** The loop over the characters. */
  function Continue(env: Env, eq: string, s: Config): Option<SubExp>
    decreases |eq|, Remaining(eq, s.next), Rank(s.state)
  {
    var c := CharAt(eq, s.next);
    var t := s.(next := s.next + 1);
    if IsSpace(c) then Continue(env, eq, t)
    else
      var r := ParseChar(env, eq, t, c);
      if r.None? then None
      else if s.state == END_OF_PARSING then Some(SubExp(s.operands, s.operations))
      else Continue(env, eq, r.value)
  }

  function Start(eq: string): Config
    requires eq != ""
  {
    if eq[0] == '-' then Config(1, WAIT_OPERAND, "", [Num("0.0")], [Subtr])
    else if eq[0] == '+' then Config(1, WAIT_OPERAND, "", [Num("0.0")], [Add])
    else Config(0, WAIT_OPERAND, "", [], [])
  }

  function ParseExp(env: Env, eq: string): Option<SubExp>
    requires eq != ""
    decreases |eq|, |eq| + 1, 0
  {
    Continue(env, eq, Start(eq))
  }

  // ----- every accepted text gives one operand more than operations, at every level

  ghost predicate Balanced(s: Config) {
    && AllShaped(s.operands)
    && |s.operands| == |s.operations| + (if s.state == WAIT_SIMPLE_OPERATION || s.state == END_OF_PARSING then 1 else 0)
  }

  lemma {:induction false} ContinueShaped(env: Env, eq: string, s: Config)
    requires Balanced(s)
    ensures Continue(env, eq, s).Some? ==> Shaped(Continue(env, eq, s).value)
    decreases |eq|, Remaining(eq, s.next), Rank(s.state)
  {
    var c := CharAt(eq, s.next);
    var t := s.(next := s.next + 1);
    if IsSpace(c) {
      ContinueShaped(env, eq, t);
    } else if s.state == WAIT_OPERAND {
      var r := WaitOperand(env, eq, t, c);
      if r.Some? {
        if c == '(' { ParsedShaped(env, eq[t.next..FindClose(eq, t.next, 1).value]); }
        ContinueShaped(env, eq, r.value);
      }
    } else if s.state == WAIT_SIMPLE_OPERATION {
      if WaitSimpleOperation(t, c).Some? { ContinueShaped(env, eq, WaitSimpleOperation(t, c).value); }
    } else if s.state == READ_VAR_OR_FUNCTION_NAME {
      if ReadName(env, t, c).Some? { ContinueShaped(env, eq, ReadName(env, t, c).value); }
    } else if s.state != END_OF_PARSING {
      if ReadNum(env, t, c).Some? { ContinueShaped(env, eq, ReadNum(env, t, c).value); }
    }
  }

  lemma {:induction false} ParsedShaped(env: Env, eq: string)
    requires eq != ""
    ensures ParseExp(env, eq).Some? ==> Shaped(ParseExp(env, eq).value)
    decreases |eq|, |eq| + 1, 0
  {
    ContinueShaped(env, eq, Start(eq));
  }

  // ----- the object

  class MathSubExpParser {
    const equation: string
    const vars: Env
    const exp: MathSubExp.MathSubExp
    var nextIndex: nat
    var currentReadWord: string
    var state: State

    ghost function Cfg(): Config
      reads this, exp
    {
      Config(nextIndex, state, currentReadWord, exp.operands, exp.operations)
    }

    constructor (e: MathSubExp.MathSubExp, eq: string, varsMap: Env)
      ensures equation == eq && vars == varsMap && exp == e
      ensures Cfg() == Config(0, WAIT_OPERAND, "", e.operands, e.operations)
    {
      equation, vars, exp := eq, varsMap, e;
      nextIndex, currentReadWord, state := 0, "", WAIT_OPERAND;
    }

    /** A sign at the start is an operation on 0.0. */
    method ParseSign()
      requires equation != "" && Cfg() == Config(0, WAIT_OPERAND, "", [], [])
      modifies `nextIndex, exp
      ensures Cfg() == Start(equation)
    {
      if equation[0] == '-' {
        exp.operands := exp.operands + [Num("0.0")];
        exp.operations := exp.operations + [Subtr];
        nextIndex := nextIndex + 1;
      } else if equation[0] == '+' {
        exp.operands := exp.operands + [Num("0.0")];
        exp.operations := exp.operations + [Add];
        nextIndex := nextIndex + 1;
      }
    }

    method Parse() returns (ok: bool)
      requires equation != "" && Cfg() == Config(0, WAIT_OPERAND, "", [], [])
      modifies this, exp
      ensures ok == ParseExp(vars, equation).Some?
      ensures ok ==> exp.Exp() == ParseExp(vars, equation).value
      decreases |equation|, 1, 0
    {
      ParseSign();
      var endOfParsing := false;
      while !endOfParsing
        invariant if endOfParsing then ParseExp(vars, equation) == Some(exp.Exp())
                  else Continue(vars, equation, Cfg()) == ParseExp(vars, equation)
        decreases !endOfParsing, Remaining(equation, nextIndex), Rank(state)
      {
        var c := if nextIndex >= |equation| then '\0' else equation[nextIndex];
        nextIndex := nextIndex + 1;
        if IsSpace(c) { continue; }
        if state == END_OF_PARSING {
          endOfParsing := true;
        } else {
          ok := ParseInState(c);
          if !ok { return false; }
        }
      }
      ok := true;
    }

    method ParseInState(c: char) returns (ok: bool)
      modifies this, exp
      ensures ok == ParseChar(vars, equation, old(Cfg()), c).Some?
      ensures ok ==> Cfg() == ParseChar(vars, equation, old(Cfg()), c).value
      decreases |equation|, 0, 1
    {
      match state
      case WAIT_OPERAND => ok := ParseCharWaitOperand(c);
      case WAIT_SIMPLE_OPERATION => ok := ParseCharWaitSimpleOperation(c);
      case READ_VAR_OR_FUNCTION_NAME => ok := ParseCharReadVarOrFunctionName(c);
      case END_OF_PARSING => ok := true;
      case _ => ok := ParseCharReadNum(c);
    }

    method AppendOp(c: char)
      requires IsSimpleOperationChar(c)
      modifies `state, exp`operations
      ensures Cfg() == AddOp(old(Cfg()), c)
    {
      if c == '+' { exp.operations := exp.operations + [Add]; }
      else if c == '-' { exp.operations := exp.operations + [Subtr]; }
      else if c == '*' { exp.operations := exp.operations + [Mult]; }
      else if c == '/' { exp.operations := exp.operations + [Div]; }
      state := WAIT_OPERAND;
    }

    method ParseCharWaitOperand(c: char) returns (ok: bool)
      modifies this, exp
      ensures ok == WaitOperand(vars, equation, old(Cfg()), c).Some?
      ensures ok ==> Cfg() == WaitOperand(vars, equation, old(Cfg()), c).value
      decreases |equation|, 0, 0
    {
      if IsDigit(c) {
        currentReadWord := currentReadWord + [c];
        state := READ_NUM;
      } else if IsValidNameChar(c) {
        currentReadWord := currentReadWord + [c];
        state := READ_VAR_OR_FUNCTION_NAME;
      } else if c == '(' {
        var closeBracketPos := FindBracketsContent(nextIndex);
        if closeBracketPos.None? { return false; }
        var k := closeBracketPos.value;
        var expr := equation[nextIndex..k];
        if expr == "" { return false; }
        nextIndex := k + 1;
        var o := new MathSubExp.MathSubExp([], []);
        var parser := new MathSubExpParser(o, expr, vars);
        var parsed := parser.Parse();
        if !parsed { return false; }
        exp.operands := exp.operands + [Group(SubExp(o.operands, o.operations))];
        state := WAIT_SIMPLE_OPERATION;
      } else {
        return false;
      }
      ok := true;
    }

    method ParseCharWaitSimpleOperation(c: char) returns (ok: bool)
      modifies `state, exp`operations
      ensures ok == WaitSimpleOperation(old(Cfg()), c).Some?
      ensures ok ==> Cfg() == WaitSimpleOperation(old(Cfg()), c).value
    {
      if IsSimpleOperationChar(c) { AppendOp(c); }
      else if c == '\0' { state := END_OF_PARSING; }
      else { return false; }
      ok := true;
    }

    method ParseCharReadVarOrFunctionName(c: char) returns (ok: bool)
      modifies this, exp
      ensures ok == ReadName(vars, old(Cfg()), c).Some?
      ensures ok ==> Cfg() == ReadName(vars, old(Cfg()), c).value
    {
      if IsDigit(c) || IsValidNameChar(c) {
        currentReadWord := currentReadWord + [c];
      } else if IsSimpleOperationChar(c) || c == '\0' {
        if currentReadWord !in vars.vars { return false; }
        exp.operands := exp.operands + [Var(currentReadWord)];
        currentReadWord := "";
        if c == '\0' { state := END_OF_PARSING; } else { AppendOp(c); }
      } else {
        return false;
      }
      ok := true;
    }

    method ParseCharReadNum(c: char) returns (ok: bool)
      modifies this, exp
      ensures ok == ReadNum(vars, old(Cfg()), c).Some?
      ensures ok ==> Cfg() == ReadNum(vars, old(Cfg()), c).value
    {
      if IsDigit(c) {
        currentReadWord := currentReadWord + [c];
      } else if c == '.' {
        if state != READ_NUM { return false; }
        currentReadWord := currentReadWord + [c];
        state := READ_NUM_WAS_DOT;
      } else if c == 'e' {
        if state != READ_NUM && state != READ_NUM_WAS_DOT { return false; }
        currentReadWord := currentReadWord + [c];
        state := READ_NUM_AFTER_E;
      } else if IsSimpleOperationChar(c) || c == '\0' {
        if state == READ_NUM_AFTER_E {
          if c == '*' || c == '/' { return false; }
          if c == '-' { currentReadWord := currentReadWord + [c]; }
          state := READ_NUM_WAS_E;
        } else {
          if !vars.isNumber(currentReadWord) { return false; }
          exp.operands := exp.operands + [Num(currentReadWord)];
          currentReadWord := "";
          if c != '\0' {
            state := WAIT_OPERAND;
            AppendOp(c);
          } else {
            state := END_OF_PARSING;
          }
        }
      } else {
        return false;
      }
      ok := true;
    }

    method FindBracketsContent(startFrom: nat) returns (closeBracketIndex: Option<nat>)
      ensures closeBracketIndex == FindClose(equation, startFrom, 1)
    {
      var bracketLvl := 1;
      var i := startFrom;
      while i < |equation|
        invariant bracketLvl >= 1 && FindClose(equation, i, bracketLvl) == FindClose(equation, startFrom, 1)
      {
        var c := equation[i];
        if c == '(' {
          bracketLvl := bracketLvl + 1;
        } else if c == ')' {
          bracketLvl := bracketLvl - 1;
          if bracketLvl == 0 { return Some(i); }
        }
        i := i + 1;
      }
      closeBracketIndex := None;
    }
  }
}
