/** Printed expressions and what the parser makes of them, literals with exponents included. */
module MathExpPrinting {
  import opened Common
  import opened MathExp
  import opened MathExpParser

  // ----- printing

  function OpChar(op: Op): char {
    match op
    case Add => '+'
    case Subtr => '-'
    case Mult => '*'
    case Div => '/'
  }

  function PrintOperand(o: Operand): string
    requires ShapedOperand(o)
    decreases o
  {
    match o
    case Num(t) => t
    case Var(n) => n
    case Group(e) => "(" + Print(e) + ")"
  }

  function Print(e: SubExp): string
    requires Shaped(e)
    decreases e, |e.operations| + 1
  {
    PrintFrom(e, 0)
  }

  /** From operand `k` on. */
  function PrintFrom(e: SubExp, k: nat): string
    requires Shaped(e) && k <= |e.operations|
    decreases e, |e.operations| - k
  {
    PrintOperand(e.operands[k]) + (if k == |e.operations| then "" else [OpChar(e.operations[k])] + PrintFrom(e, k + 1))
  }

  /** How a literal is read that goes into the word character by character: the state behind it, or None. A sign
      directly behind the exponent is kept only when it is a minus. */
  function Literal(state: State, t: string): Option<State>
    decreases |t|
  {
    if t == "" then Some(state)
    else if IsDigit(t[0]) then Literal(state, t[1..])
    else if t[0] == '.' && state == READ_NUM then Literal(READ_NUM_WAS_DOT, t[1..])
    else if t[0] == 'e' && (state == READ_NUM || state == READ_NUM_WAS_DOT) then Literal(READ_NUM_AFTER_E, t[1..])
    else if t[0] == '-' && state == READ_NUM_AFTER_E then Literal(READ_NUM_WAS_E, t[1..])
    else None
  }

  function LiteralState(t: string): Option<State> {
    if t == "" || !IsDigit(t[0]) then None else Literal(READ_NUM, t[1..])
  }

  /** Digits, with at most one point behind the first. */
  predicate IsMantissa(t: string) {
    LiteralState(t) == Some(READ_NUM) || LiteralState(t) == Some(READ_NUM_WAS_DOT)
  }

  predicate AllDigits(t: string) {
    forall i | 0 <= i < |t| :: IsDigit(t[i])
  }

  predicate ReadsAsName(t: string) {
    forall i | 0 <= i < |t| :: IsDigit(t[i]) || IsValidNameChar(t[i])
  }

  /** A literal whose exponent has no minus. */
  predicate IsUnsigned(o: Operand) {
    o.Num? && LiteralState(o.text) == Some(READ_NUM_AFTER_E)
  }

  /** Expressions whose words can be written down: literals, declared names, brackets. */
  predicate Writable(env: Env, e: SubExp)
    decreases e
  {
    |e.operands| == |e.operations| + 1 && forall i | 0 <= i < |e.operands| :: WritableOperand(env, e.operands[i])
  }

  predicate WritableOperand(env: Env, o: Operand)
    decreases o
  {
    match o
    case Num(t) => LiteralState(t).Some? && env.isNumber(t)
    case Var(n) => n != "" && IsValidNameChar(n[0]) && ReadsAsName(n[1..]) && n in env.vars
    case Group(e) => Writable(env, e)
  }

  /** On every level a literal with an unsigned exponent is the last operand. */
  predicate ExponentsEnd(e: SubExp)
    decreases e
  {
    && (forall i | 0 <= i < |e.operands| - 1 :: !IsUnsigned(e.operands[i]))
    && (forall i | 0 <= i < |e.operands| :: ExponentsEndIn(e.operands[i]))
  }

  predicate ExponentsEndIn(o: Operand)
    decreases o
  {
    o.Group? ==> ExponentsEnd(o.exp)
  }

  predicate Printable(env: Env, e: SubExp) {
    Writable(env, e) && ExponentsEnd(e)
  }

  lemma {:induction false} WritableShaped(env: Env, e: SubExp)
    requires Writable(env, e)
    ensures Shaped(e)
    decreases e
  {
    forall i | 0 <= i < |e.operands| ensures ShapedOperand(e.operands[i]) {
      assert WritableOperand(env, e.operands[i]);
      if e.operands[i].Group? { WritableShaped(env, e.operands[i].exp); }
    }
  }

  /** The text `t` stands in `eq` at `n`. */
  ghost predicate At(eq: string, n: nat, t: string) {
    n + |t| <= |eq| && eq[n..n + |t|] == t
  }

  lemma {:induction false} AtParts(eq: string, n: nat, a: string, b: string)
    requires At(eq, n, a + b)
    ensures At(eq, n, a) && At(eq, n + |a|, b)
  {
    assert eq[n..n + |a|] == eq[n..n + |a + b|][..|a|];
    assert eq[n + |a|..n + |a| + |b|] == eq[n..n + |a + b|][|a|..];
  }

  lemma {:induction false} AtChar(eq: string, n: nat, t: string, i: nat)
    requires At(eq, n, t) && i < |t|
    ensures n + i < |eq| && eq[n + i] == t[i]
  {
    assert eq[n..n + |t|][i] == eq[n + i];
  }

  // ----- brackets of a printed text are balanced

  lemma {:induction false} FindCloseSkips(eq: string, n: nat, t: string, lvl: nat)
    requires lvl >= 1 && At(eq, n, t) && forall i | 0 <= i < |t| :: t[i] != '(' && t[i] != ')'
    ensures FindClose(eq, n, lvl) == FindClose(eq, n + |t|, lvl)
    decreases |t|
  {
    if t != "" {
      AtChar(eq, n, t, 0);
      assert t == [t[0]] + t[1..];
      AtParts(eq, n, [t[0]], t[1..]);
      FindCloseSkips(eq, n + 1, t[1..], lvl);
    }
  }

  lemma {:induction false} LiteralHasNoBrackets(state: State, t: string)
    requires Literal(state, t).Some?
    ensures forall i | 0 <= i < |t| :: t[i] != '(' && t[i] != ')'
    decreases |t|
  {
    if t != "" {
      if IsDigit(t[0]) { LiteralHasNoBrackets(state, t[1..]); }
      else if t[0] == '.' { LiteralHasNoBrackets(READ_NUM_WAS_DOT, t[1..]); }
      else if t[0] == 'e' { LiteralHasNoBrackets(READ_NUM_AFTER_E, t[1..]); }
      else { LiteralHasNoBrackets(READ_NUM_WAS_E, t[1..]); }
      forall i | 0 <= i < |t| ensures t[i] != '(' && t[i] != ')' {
        if i > 0 { assert t[i] == t[1..][i - 1]; }
      }
    }
  }

  lemma {:induction false} FindCloseSkipsOperand(env: Env, eq: string, n: nat, o: Operand, lvl: nat)
    requires lvl >= 1 && WritableOperand(env, o)
    requires ShapedOperand(o) && At(eq, n, PrintOperand(o))
    ensures FindClose(eq, n, lvl) == FindClose(eq, n + |PrintOperand(o)|, lvl)
    decreases o
  {
    var t := PrintOperand(o);
    match o
    case Num(_) =>
      LiteralHasNoBrackets(READ_NUM, t[1..]);
      WordHasNoBrackets(t);
      FindCloseSkips(eq, n, t, lvl);
    case Var(_) =>
      WordHasNoBrackets(t);
      FindCloseSkips(eq, n, t, lvl);
    case Group(e) =>
      var k := n + 1 + |Print(e)|;
      Bracketed(eq, n, Print(e));
      FindCloseSkipsList(env, eq, n + 1, e, 0, lvl + 1);
      assert FindClose(eq, n, lvl) == FindClose(eq, n + 1, lvl + 1) == FindClose(eq, k, lvl + 1)
             == FindClose(eq, k + 1, lvl);
  }

  lemma {:induction false} Bracketed(eq: string, n: nat, p: string)
    requires At(eq, n, "(" + p + ")")
    ensures n + 1 + |p| < |eq| && eq[n] == '(' && At(eq, n + 1, p) && eq[n + 1 + |p|] == ')'
  {
    AtParts(eq, n, "(" + p, ")");
    AtParts(eq, n, "(", p);
    AtChar(eq, n, "(", 0);
    AtChar(eq, n + 1 + |p|, ")", 0);
  }

  lemma {:induction false} WordHasNoBrackets(t: string)
    requires t != "" && (IsDigit(t[0]) || IsValidNameChar(t[0]))
    requires forall i | 0 <= i < |t[1..]| :: t[1..][i] != '(' && t[1..][i] != ')'
    ensures forall i | 0 <= i < |t| :: t[i] != '(' && t[i] != ')'
  {
    forall i | 0 <= i < |t| ensures t[i] != '(' && t[i] != ')' {
      if i > 0 { assert t[i] == t[1..][i - 1]; }
    }
  }

  lemma {:induction false} AtList(eq: string, n: nat, e: SubExp, k: nat)
    requires Shaped(e) && k <= |e.operations| && At(eq, n, PrintFrom(e, k))
    ensures At(eq, n, PrintOperand(e.operands[k]))
    ensures var m := n + |PrintOperand(e.operands[k])|;
            if k == |e.operations| then m == n + |PrintFrom(e, k)|
            else At(eq, m, [OpChar(e.operations[k])]) && At(eq, m + 1, PrintFrom(e, k + 1))
                 && n + |PrintFrom(e, k)| == m + 1 + |PrintFrom(e, k + 1)|
  {
    var p := PrintOperand(e.operands[k]);
    if k == |e.operations| {
      assert p + "" == p;
    } else {
      PrintFromParts(e, k);
      AtThree(eq, n, p, [OpChar(e.operations[k])], PrintFrom(e, k + 1));
    }
  }

  lemma {:induction false} PrintFromParts(e: SubExp, k: nat)
    requires Shaped(e) && k < |e.operations|
    ensures PrintFrom(e, k) == PrintOperand(e.operands[k]) + ([OpChar(e.operations[k])] + PrintFrom(e, k + 1))
  {
  }

  lemma {:induction false} AtThree(eq: string, n: nat, a: string, b: string, c: string)
    requires At(eq, n, a + (b + c))
    ensures At(eq, n, a) && At(eq, n + |a|, b) && At(eq, n + |a| + |b|, c)
  {
    AtParts(eq, n, a, b + c);
    AtParts(eq, n + |a|, b, c);
  }

  lemma {:induction false} FindCloseSkipsList(env: Env, eq: string, n: nat, e: SubExp, k: nat, lvl: nat)
    requires lvl >= 1 && Writable(env, e) && Shaped(e) && k <= |e.operations| && At(eq, n, PrintFrom(e, k))
    ensures FindClose(eq, n, lvl) == FindClose(eq, n + |PrintFrom(e, k)|, lvl)
    decreases e, |e.operations| - k
  {
    var m := n + |PrintOperand(e.operands[k])|;
    assert WritableOperand(env, e.operands[k]);
    AtList(eq, n, e, k);
    FindCloseSkipsOperand(env, eq, n, e.operands[k], lvl);
    if k < |e.operations| {
      FindCloseSkipsOp(eq, m, e.operations[k], lvl);
      FindCloseSkipsList(env, eq, m + 1, e, k + 1, lvl);
    }
  }

  lemma {:induction false} FindCloseSkipsOp(eq: string, n: nat, op: Op, lvl: nat)
    requires lvl >= 1 && At(eq, n, [OpChar(op)])
    ensures FindClose(eq, n, lvl) == FindClose(eq, n + 1, lvl)
  {
    FindCloseSkips(eq, n, [OpChar(op)], lvl);
  }

  // ----- reading a printed text

  /** An operand ends at the end of the text or at an operation. */
  predicate Terminated(eq: string, n: nat) {
    n >= |eq| || IsSimpleOperationChar(eq[n])
  }

  function AfterOperand(eq: string, s: Config, n: nat, o: Operand): Config
    requires Terminated(eq, n)
  {
    if n >= |eq| then Config(n + 1, END_OF_PARSING, "", s.operands + [o], s.operations)
    else Config(n + 1, WAIT_OPERAND, "", s.operands + [o], s.operations + [OpOf(eq[n])])
  }

  /** One character of a text, once it is known what it does. */
  lemma {:induction false} OneChar(env: Env, eq: string, s: Config, r: Config)
    requires s.next < |eq| && !IsSpace(eq[s.next]) && s.state != END_OF_PARSING
    requires ParseChar(env, eq, s.(next := s.next + 1), eq[s.next]) == Some(r)
    ensures Continue(env, eq, s) == Continue(env, eq, r)
  {
  }

  ghost predicate ReadingNum(s: Config) {
    s.state == READ_NUM || s.state == READ_NUM_WAS_DOT || s.state == READ_NUM_AFTER_E || s.state == READ_NUM_WAS_E
  }

  /** A literal goes into the word. */
  lemma {:induction false} ContinueLiteral(env: Env, eq: string, s: Config, t: string)
    requires ReadingNum(s) && Literal(s.state, t).Some? && At(eq, s.next, t)
    ensures Continue(env, eq, s) == Continue(env, eq, BehindLiteral(s, t))
    decreases |t|
  {
    if t == "" {
      assert BehindLiteral(s, t) == s;
    } else {
      var r := LiteralGoesOn(env, eq, s, t);
      BehindRest(s, r, t);
      ContinueLiteral(env, eq, r, t[1..]);
    }
  }

  function BehindLiteral(s: Config, t: string): Config
    requires Literal(s.state, t).Some?
  {
    s.(next := s.next + |t|, word := s.word + t, state := Literal(s.state, t).value)
  }

  lemma {:induction false} BehindRest(s: Config, r: Config, t: string)
    requires t != "" && Literal(s.state, t).Some?
             && r == s.(next := s.next + 1, word := s.word + [t[0]], state := r.state)
    requires Literal(r.state, t[1..]) == Literal(s.state, t)
    ensures BehindLiteral(r, t[1..]) == BehindLiteral(s, t)
  {
    assert s.word + t == s.word + [t[0]] + t[1..];
  }

  lemma {:induction false} LiteralGoesOn(env: Env, eq: string, s: Config, t: string) returns (r: Config)
    requires ReadingNum(s) && t != "" && Literal(s.state, t).Some? && At(eq, s.next, t)
    ensures r == s.(next := s.next + 1, word := s.word + [t[0]], state := r.state)
    ensures ReadingNum(r) && Literal(r.state, t[1..]) == Literal(s.state, t) && At(eq, r.next, t[1..])
    ensures Continue(env, eq, s) == Continue(env, eq, r)
  {
    var state := if IsDigit(t[0]) then s.state else if t[0] == '.' then READ_NUM_WAS_DOT
                 else if t[0] == 'e' then READ_NUM_AFTER_E else READ_NUM_WAS_E;
    r := s.(next := s.next + 1, word := s.word + [t[0]], state := state);
    AtChar(eq, s.next, t, 0);
    assert t == [t[0]] + t[1..];
    AtParts(eq, s.next, [t[0]], t[1..]);
    OneChar(env, eq, s, r);
  }

  /** A literal without exponent or with a signed one ends at the next operation or at the end. */
  lemma {:induction false} NumEnds(env: Env, eq: string, s: Config)
    requires ReadingNum(s) && s.state != READ_NUM_AFTER_E && Terminated(eq, s.next)
    ensures Continue(env, eq, s)
            == if env.isNumber(s.word) then Continue(env, eq, AfterOperand(eq, s, s.next, Num(s.word))) else None
  {
  }

  /** Behind the last character an unsigned exponent ends as well. */
  lemma {:induction false} UnsignedEnds(env: Env, eq: string, s: Config)
    requires s.state == READ_NUM_AFTER_E && s.next >= |eq|
    ensures Continue(env, eq, s)
            == if env.isNumber(s.word) then Continue(env, eq, AfterOperand(eq, s, s.next, Num(s.word))) else None
  {
    var t := s.(next := s.next + 1, state := READ_NUM_WAS_E);
    assert Continue(env, eq, s) == Continue(env, eq, t);
    NumEnds(env, eq, t);
    if env.isNumber(s.word) {
      AtEnd(env, eq, AfterOperand(eq, t, t.next, Num(s.word)));
      AtEnd(env, eq, AfterOperand(eq, s, s.next, Num(s.word)));
    }
  }

  lemma {:induction false} AtEnd(env: Env, eq: string, s: Config)
    requires s.state == END_OF_PARSING && s.next >= |eq|
    ensures Continue(env, eq, s) == Some(SubExp(s.operands, s.operations))
  {
  }

  /** But at an operation it does not: `*` and `/` are an error, `+` is dropped, `-` goes into the word, and reading
      the literal goes on. */
  lemma {:induction false} UnsignedGoesOn(env: Env, eq: string, s: Config)
    requires s.state == READ_NUM_AFTER_E && s.next < |eq| && IsSimpleOperationChar(eq[s.next])
    ensures Continue(env, eq, s)
            == if eq[s.next] == '*' || eq[s.next] == '/' then None
               else
                 var sign := if eq[s.next] == '-' then "-" else "";
                 Continue(env, eq, s.(next := s.next + 1, state := READ_NUM_WAS_E, word := s.word + sign))
  {
    assert s.word + "" == s.word;
  }

  /** Where a literal ends: at an operation or at the end, and there only when its exponent is signed or missing. */
  predicate Ends(eq: string, n: nat, o: Operand) {
    Terminated(eq, n) && (IsUnsigned(o) ==> n >= |eq|)
  }

  lemma {:induction false} ContinueName(env: Env, eq: string, s: Config, t: string)
    requires s.state == READ_VAR_OR_FUNCTION_NAME && ReadsAsName(t) && At(eq, s.next, t)
    requires Terminated(eq, s.next + |t|) && s.word + t in env.vars
    ensures Continue(env, eq, s) == Continue(env, eq, AfterOperand(eq, s, s.next + |t|, Var(s.word + t)))
    decreases |t|
  {
    if t == "" {
      assert s.word + t == s.word;
    } else {
      AtFirst(eq, s.next, t);
      assert s.word + t == s.word + [t[0]] + t[1..];
      ContinueName(env, eq, s.(next := s.next + 1, word := s.word + [t[0]]), t[1..]);
    }
  }

  lemma {:induction false} ContinueAfterBracket(env: Env, eq: string, s: Config)
    requires s.state == WAIT_SIMPLE_OPERATION && s.word == "" && |s.operands| > 0 && Terminated(eq, s.next)
    ensures var before := s.(operands := s.operands[..|s.operands| - 1]);
            Continue(env, eq, s) == Continue(env, eq, AfterOperand(eq, before, s.next, s.operands[|s.operands| - 1]))
  {
    var n := |s.operands| - 1;
    assert s.operands[..n] + [s.operands[n]] == s.operands;
  }

  /** One operand and what ends it are read in one go. */
  lemma {:induction false} ContinueOperand(env: Env, eq: string, s: Config, o: Operand)
    requires s.state == WAIT_OPERAND && s.word == "" && WritableOperand(env, o) && ShapedOperand(o) && ExponentsEndIn(o)
    requires At(eq, s.next, PrintOperand(o)) && Ends(eq, s.next + |PrintOperand(o)|, o)
    ensures Continue(env, eq, s) == Continue(env, eq, AfterOperand(eq, s, s.next + |PrintOperand(o)|, o))
    decreases o
  {
    match o
    case Num(t) =>
      ContinueFirst(env, eq, s, t);
      var r := Config(s.next + |t|, LiteralState(t).value, t, s.operands, s.operations);
      if r.state == READ_NUM_AFTER_E { UnsignedEnds(env, eq, r); } else { NumEnds(env, eq, r); }
    case Var(t) => ContinueVar(env, eq, s, t);
    case Group(e) => ContinueGroup(env, eq, s, e);
  }

  /** A whole literal goes into the word. */
  lemma {:induction false} ContinueFirst(env: Env, eq: string, s: Config, t: string)
    requires s.state == WAIT_OPERAND && s.word == "" && LiteralState(t).Some? && At(eq, s.next, t)
    ensures Continue(env, eq, s)
            == Continue(env, eq, Config(s.next + |t|, LiteralState(t).value, t, s.operands, s.operations))
    ensures ReadingNum(Config(s.next + |t|, LiteralState(t).value, t, s.operands, s.operations))
  {
    var first := s.(next := s.next + 1, word := [t[0]], state := READ_NUM);
    WordStarts(env, eq, s, t, first);
    assert t == [t[0]] + t[1..];
    ContinueLiteral(env, eq, first, t[1..]);
    LiteralReads(READ_NUM, t[1..]);
  }

  lemma {:induction false} LiteralReads(state: State, t: string)
    requires Literal(state, t).Some? && state in {READ_NUM, READ_NUM_WAS_DOT, READ_NUM_AFTER_E, READ_NUM_WAS_E}
    ensures Literal(state, t).value in {READ_NUM, READ_NUM_WAS_DOT, READ_NUM_AFTER_E, READ_NUM_WAS_E}
    decreases |t|
  {
    if t != "" {
      LiteralReads(if IsDigit(t[0]) then state else if t[0] == '.' then READ_NUM_WAS_DOT
                   else if t[0] == 'e' then READ_NUM_AFTER_E else READ_NUM_WAS_E, t[1..]);
    }
  }

  lemma {:induction false} ContinueVar(env: Env, eq: string, s: Config, t: string)
    requires s.state == WAIT_OPERAND && s.word == "" && At(eq, s.next, t) && Terminated(eq, s.next + |t|)
    requires WritableOperand(env, Var(t))
    ensures Continue(env, eq, s) == Continue(env, eq, AfterOperand(eq, s, s.next + |t|, Var(t)))
  {
    var first := s.(next := s.next + 1, word := [t[0]], state := READ_VAR_OR_FUNCTION_NAME);
    WordStarts(env, eq, s, t, first);
    assert t == [t[0]] + t[1..];
    ContinueName(env, eq, first, t[1..]);
  }

  lemma {:induction false} WordStarts(env: Env, eq: string, s: Config, t: string, first: Config)
    requires s.state == WAIT_OPERAND && s.word == "" && t != "" && At(eq, s.next, t)
    requires first == s.(next := s.next + 1, word := [t[0]], state := first.state)
    requires if IsDigit(t[0]) then first.state == READ_NUM
             else IsValidNameChar(t[0]) && first.state == READ_VAR_OR_FUNCTION_NAME
    ensures Continue(env, eq, s) == Continue(env, eq, first) && At(eq, first.next, t[1..])
  {
    AtFirst(eq, s.next, t);
    FirstChar(env, eq, s.(next := s.next + 1), t[0], first);
    OneChar(env, eq, s, first);
  }

  lemma {:induction false} AtFirst(eq: string, n: nat, t: string)
    requires t != "" && At(eq, n, t)
    ensures n < |eq| && eq[n] == t[0] && At(eq, n + 1, t[1..])
  {
    AtChar(eq, n, t, 0);
    assert t == [t[0]] + t[1..];
    AtParts(eq, n, [t[0]], t[1..]);
  }

  /** The first character of a literal or a name. */
  lemma {:induction false} FirstChar(env: Env, eq: string, s: Config, c: char, first: Config)
    requires s.state == WAIT_OPERAND && s.word == "" && first == s.(word := [c], state := first.state)
    requires if IsDigit(c) then first.state == READ_NUM
             else IsValidNameChar(c) && first.state == READ_VAR_OR_FUNCTION_NAME
    ensures ParseChar(env, eq, s, c) == Some(first) && !IsSpace(c)
  {
    assert s.word + [c] == [c];
  }

  /** A bracketed text is parsed on its own. */
  lemma {:induction false} ContinueBracket(env: Env, eq: string, s: Config, e: SubExp)
    requires s.state == WAIT_OPERAND && s.word == "" && Writable(env, e) && Shaped(e)
    requires At(eq, s.next, "(" + Print(e) + ")")
    ensures Print(e) != ""
    ensures Continue(env, eq, s)
            == match ParseExp(env, Print(e))
               case None => None
               case Some(g) => Continue(env, eq,
                 Config(s.next + |Print(e)| + 2, WAIT_SIMPLE_OPERATION, "", s.operands + [Group(g)], s.operations))
  {
    var p := Print(e);
    var n := s.next + 1;
    PrintStart(env, e);
    Bracketed(eq, s.next, p);
    FindCloseSkipsList(env, eq, n, e, 0, 1);
    assert FindClose(eq, n, 1) == Some(n + |p|);
    assert eq[n..n + |p|] == p;
    var g := ParseExp(env, p);
    if g.Some? {
      OneChar(env, eq, s, Config(n + |p| + 1, WAIT_SIMPLE_OPERATION, "", s.operands + [Group(g.value)], s.operations));
    } else {
      assert ParseChar(env, eq, s.(next := n), '(') == None;
    }
  }

  lemma {:induction false} ContinueGroup(env: Env, eq: string, s: Config, e: SubExp)
    requires s.state == WAIT_OPERAND && s.word == "" && Printable(env, e) && Shaped(e)
    requires At(eq, s.next, "(" + Print(e) + ")") && Terminated(eq, s.next + |Print(e)| + 2)
    ensures Continue(env, eq, s) == Continue(env, eq, AfterOperand(eq, s, s.next + |Print(e)| + 2, Group(e)))
    decreases e, |e.operations| + 2
  {
    ContinueBracket(env, eq, s, e);
    PrintParses(env, e);
    var t := Config(s.next + |Print(e)| + 2, WAIT_SIMPLE_OPERATION, "", s.operands + [Group(e)], s.operations);
    ContinueAfterBracket(env, eq, t);
    assert t.operands[..|s.operands|] == s.operands;
  }

  function ListConfig(e: SubExp, k: nat, n: nat): Config
    requires k <= |e.operands| && k <= |e.operations|
  {
    Config(n, WAIT_OPERAND, "", e.operands[..k], e.operations[..k])
  }

  /** One operand and the operation behind it. */
  lemma {:induction false} ListStep(env: Env, eq: string, e: SubExp, k: nat, n: nat)
    requires Writable(env, e) && Shaped(e) && k < |e.operations| && At(eq, n, PrintFrom(e, k))
    requires !IsUnsigned(e.operands[k]) && ExponentsEndIn(e.operands[k])
    ensures var m := n + |PrintOperand(e.operands[k])|;
            && Continue(env, eq, ListConfig(e, k, n)) == Continue(env, eq, ListConfig(e, k + 1, m + 1))
            && At(eq, m + 1, PrintFrom(e, k + 1)) && n + |PrintFrom(e, k)| == m + 1 + |PrintFrom(e, k + 1)|
    decreases e, 0
  {
    var o := e.operands[k];
    var m := n + |PrintOperand(o)|;
    assert WritableOperand(env, o);
    AtList(eq, n, e, k);
    AtChar(eq, m, [OpChar(e.operations[k])], 0);
    ContinueOperand(env, eq, ListConfig(e, k, n), o);
    ListGrows(eq, e, k, n, m);
  }

  lemma {:induction false} ContinueList(env: Env, eq: string, e: SubExp, k: nat, n: nat)
    requires Printable(env, e) && Shaped(e) && k <= |e.operations|
    requires At(eq, n, PrintFrom(e, k)) && n + |PrintFrom(e, k)| == |eq|
    ensures Continue(env, eq, ListConfig(e, k, n)) == Some(e)
    decreases e, |e.operations| - k
  {
    var o := e.operands[k];
    assert WritableOperand(env, o) && ExponentsEndIn(o);
    if k == |e.operations| {
      AtList(eq, n, e, k);
      ContinueOperand(env, eq, ListConfig(e, k, n), o);
      ListEnds(env, eq, e, n, n + |PrintOperand(o)|);
    } else {
      ListStep(env, eq, e, k, n);
      ContinueList(env, eq, e, k + 1, n + |PrintOperand(o)| + 1);
    }
  }

  lemma {:induction false} ListEnds(env: Env, eq: string, e: SubExp, n: nat, m: nat)
    requires Shaped(e) && m == |eq|
    ensures Continue(env, eq, AfterOperand(eq, ListConfig(e, |e.operations|, n), m, e.operands[|e.operations|]))
            == Some(e)
  {
    var k := |e.operations|;
    assert e.operands[..k] + [e.operands[k]] == e.operands && e.operations[..k] == e.operations;
  }

  lemma {:induction false} ListGrows(eq: string, e: SubExp, k: nat, n: nat, m: nat)
    requires |e.operands| == |e.operations| + 1 && k < |e.operations| && m < |eq| && eq[m] == OpChar(e.operations[k])
    ensures AfterOperand(eq, ListConfig(e, k, n), m, e.operands[k]) == ListConfig(e, k + 1, m + 1)
  {
    assert e.operands[..k + 1] == e.operands[..k] + [e.operands[k]];
    assert e.operations[..k + 1] == e.operations[..k] + [e.operations[k]];
  }

  /** A printed operand starts with a digit, a letter of a name or a bracket. */
  lemma {:induction false} OperandStart(env: Env, o: Operand)
    requires WritableOperand(env, o) && ShapedOperand(o)
    ensures PrintOperand(o) != ""
    ensures IsDigit(PrintOperand(o)[0]) || IsValidNameChar(PrintOperand(o)[0]) || PrintOperand(o)[0] == '('
  {
    match o
    case Num(_) =>
    case Var(_) =>
    case Group(x) => assert PrintOperand(o)[0] == '(';
  }

  lemma {:induction false} PrintStart(env: Env, e: SubExp)
    requires Writable(env, e) && Shaped(e)
    ensures Print(e) != "" && Print(e)[0] != '-' && Print(e)[0] != '+'
  {
    assert WritableOperand(env, e.operands[0]);
    OperandStart(env, e.operands[0]);
    assert Print(e) == PrintFrom(e, 0);
    assert Print(e)[0] == PrintOperand(e.operands[0])[0];
  }

  /** The round trip: parsing a printed expression rebuilds it. */
  lemma {:induction false} PrintParses(env: Env, e: SubExp)
    requires Printable(env, e)
    ensures Shaped(e) && Print(e) != "" && ParseExp(env, Print(e)) == Some(e)
    decreases e, |e.operations| + 1
  {
    WritableShaped(env, e);
    PrintStart(env, e);
    var eq := Print(e);
    assert eq[0..|eq|] == eq;
    ContinueList(env, eq, e, 0, 0);
    assert e.operands[..0] == [] && e.operations[..0] == [];
  }

  /** Printing, parsing, regrouping and calculating gives the conventional value. */
  lemma {:induction false} ParsedAndRegroupedValue<T>(a: Algebra<T>, env: Env, e: SubExp)
    requires Printable(env, e)
    ensures Shaped(e) && Print(e) != "" && ParseExp(env, Print(e)) == Some(e)
    ensures Shaped(Regroup(e)) && Calc(a, Regroup(e)) == ConventionalValue(a, e)
  {
    PrintParses(env, e);
    RegroupGivesConventionalValue(a, e);
  }

  // ----- exactly when

  /** What has been read stays. */
  lemma {:induction false} OperandsStay(env: Env, eq: string, s: Config)
    ensures Continue(env, eq, s).Some? ==> s.operands <= Continue(env, eq, s).value.operands
    decreases Remaining(eq, s.next), Rank(s.state)
  {
    var c := CharAt(eq, s.next);
    var t := s.(next := s.next + 1);
    if IsSpace(c) {
      OperandsStay(env, eq, t);
    } else if s.state != END_OF_PARSING {
      var r := ParseChar(env, eq, t, c);
      if r.Some? {
        OperandsStay(env, eq, r.value);
        OneCharKeeps(env, eq, s, t, c, r.value);
      }
    }
  }

  lemma {:induction false} OneCharKeeps(env: Env, eq: string, s: Config, t: Config, c: char, r: Config)
    requires ParseChar(env, eq, t, c) == Some(r) && s.operands == t.operands
    ensures s.operands <= r.operands
  {
  }

  /** A word with a signed exponent only grows, and grows by a digit that follows, until it is the next operand. */
  lemma {:induction false} WordStays(env: Env, eq: string, s: Config)
    requires s.state == READ_NUM_WAS_E && Continue(env, eq, s).Some?
    ensures var os, k := Continue(env, eq, s).value.operands, |s.operands|;
            k < |os| && os[k].Num? && |s.word| <= |os[k].text|
            && (s.next < |eq| && IsDigit(eq[s.next]) ==> |s.word| < |os[k].text|)
    decreases Remaining(eq, s.next)
  {
    var c := CharAt(eq, s.next);
    var t := s.(next := s.next + 1);
    if IsSpace(c) {
      WordStays(env, eq, t);
    } else {
      var r := ParseChar(env, eq, t, c).value;
      if IsDigit(c) {
        WordStays(env, eq, r);
      } else {
        OperandsStay(env, eq, r);
        assert r.operands[|s.operands|] == Num(s.word);
      }
    }
  }

  /** An unsigned exponent before an operation never comes back as it was. */
  lemma {:induction false} UnsignedIsLost(env: Env, eq: string, s: Config, o: Operand, e: SubExp)
    requires s.state == WAIT_OPERAND && s.word == "" && IsUnsigned(o) && At(eq, s.next, o.text)
    requires var n := s.next + |o.text|;
             n + 1 < |eq| && IsSimpleOperationChar(eq[n])
               && (IsDigit(eq[n + 1]) || IsValidNameChar(eq[n + 1]) || eq[n + 1] == '(')
    requires |s.operands| < |e.operands| && e.operands[|s.operands|] == o
    ensures Continue(env, eq, s) != Some(e)
  {
    var n := s.next + |o.text|;
    var r := Config(n, READ_NUM_AFTER_E, o.text, s.operands, s.operations);
    ContinueFirst(env, eq, s, o.text);
    UnsignedGoesOn(env, eq, r);
    var c := eq[n];
    if c == '+' || c == '-' {
      var t := Config(n + 1, READ_NUM_WAS_E, o.text + if c == '-' then "-" else "", s.operands, s.operations);
      assert Continue(env, eq, s) == Continue(env, eq, t);
      if !IsDigit(eq[n + 1]) {
        assert ParseChar(env, eq, t.(next := n + 2), eq[n + 1]) == None;
      } else if Continue(env, eq, t).Some? {
        WordStays(env, eq, t);
      }
    }
  }

  predicate EndedBefore(e: SubExp, k: nat)
    requires k <= |e.operands|
  {
    forall i | 0 <= i < k :: !IsUnsigned(e.operands[i]) && ExponentsEndIn(e.operands[i])
  }

  /** From the first operand on that does not survive. */
  lemma {:induction false} ListIsLost(env: Env, eq: string, e: SubExp, k: nat, n: nat)
    requires Writable(env, e) && Shaped(e) && k <= |e.operations|
    requires At(eq, n, PrintFrom(e, k)) && n + |PrintFrom(e, k)| == |eq|
    requires EndedBefore(e, k) && !ExponentsEnd(e)
    ensures Continue(env, eq, ListConfig(e, k, n)) != Some(e)
    decreases e, |e.operations| - k + 2
  {
    var o := e.operands[k];
    if !ExponentsEndIn(o) {
      GroupInList(env, eq, e, k, n);
    } else if k == |e.operations| {
      AllEnd(e);
    } else if IsUnsigned(o) {
      UnsignedInList(env, eq, e, k, n);
    } else {
      ListStep(env, eq, e, k, n);
      assert EndedBefore(e, k + 1);
      ListIsLost(env, eq, e, k + 1, n + |PrintOperand(o)| + 1);
    }
  }

  lemma {:induction false} GroupInList(env: Env, eq: string, e: SubExp, k: nat, n: nat)
    requires Writable(env, e) && Shaped(e) && k <= |e.operations| && At(eq, n, PrintFrom(e, k))
             && !ExponentsEndIn(e.operands[k])
    ensures Continue(env, eq, ListConfig(e, k, n)) != Some(e)
    decreases e, 1
  {
    AtList(eq, n, e, k);
    GroupIsLost(env, eq, ListConfig(e, k, n), e, k);
  }

  lemma {:induction false} UnsignedInList(env: Env, eq: string, e: SubExp, k: nat, n: nat)
    requires Writable(env, e) && Shaped(e) && k < |e.operations| && At(eq, n, PrintFrom(e, k))
             && IsUnsigned(e.operands[k])
    ensures Continue(env, eq, ListConfig(e, k, n)) != Some(e)
  {
    var o := e.operands[k];
    AtList(eq, n, e, k);
    NextStarts(env, eq, e, k, n);
    UnsignedIsLost(env, eq, ListConfig(e, k, n), o, e);
  }

  /** What stands behind an operand that is not the last. */
  lemma {:induction false} NextStarts(env: Env, eq: string, e: SubExp, k: nat, n: nat)
    requires Writable(env, e) && Shaped(e) && k < |e.operations| && At(eq, n, PrintFrom(e, k))
    ensures var m := n + |PrintOperand(e.operands[k])|;
            m + 1 < |eq| && IsSimpleOperationChar(eq[m])
              && (IsDigit(eq[m + 1]) || IsValidNameChar(eq[m + 1]) || eq[m + 1] == '(')
  {
    var m := n + |PrintOperand(e.operands[k])|;
    AtList(eq, n, e, k);
    AtChar(eq, m, [OpChar(e.operations[k])], 0);
    OperandStarts(env, eq, e, k + 1, m + 1);
  }

  lemma {:induction false} OperandStarts(env: Env, eq: string, e: SubExp, k: nat, n: nat)
    requires Writable(env, e) && Shaped(e) && k <= |e.operations| && At(eq, n, PrintFrom(e, k))
    ensures n < |eq| && (IsDigit(eq[n]) || IsValidNameChar(eq[n]) || eq[n] == '(')
  {
    var o := e.operands[k];
    assert WritableOperand(env, o) && ShapedOperand(o);
    AtList(eq, n, e, k);
    OperandStart(env, o);
    AtChar(eq, n, PrintOperand(o), 0);
  }

  lemma {:induction false} AllEnd(e: SubExp)
    requires forall i | 0 <= i < |e.operands| - 1 :: !IsUnsigned(e.operands[i]) && ExponentsEndIn(e.operands[i])
    requires e.operands != [] ==> ExponentsEndIn(e.operands[|e.operands| - 1])
    ensures ExponentsEnd(e)
  {
  }

  lemma {:induction false} GroupIsLost(env: Env, eq: string, s: Config, e: SubExp, k: nat)
    requires s.state == WAIT_OPERAND && s.word == "" && |s.operands| == k < |e.operands| && e.operands[k].Group?
    requires Writable(env, e) && Shaped(e) && !ExponentsEnd(e.operands[k].exp) && ShapedOperand(e.operands[k])
    requires At(eq, s.next, PrintOperand(e.operands[k]))
    ensures Continue(env, eq, s) != Some(e)
    decreases e, 0
  {
    var x := e.operands[k].exp;
    assert WritableOperand(env, e.operands[k]);
    ContinueBracket(env, eq, s, x);
    PrintIsLost(env, x);
    var g := ParseExp(env, Print(x));
    if g.Some? {
      OperandsStay(env, eq, Config(s.next + |Print(x)| + 2, WAIT_SIMPLE_OPERATION, "", s.operands + [Group(g.value)],
        s.operations));
      assert (s.operands + [Group(g.value)])[k] == Group(g.value);
    }
  }

  lemma {:induction false} PrintIsLost(env: Env, e: SubExp)
    requires Writable(env, e) && !ExponentsEnd(e)
    ensures Shaped(e) && Print(e) != "" && ParseExp(env, Print(e)) != Some(e)
    decreases e, |e.operations| + 3
  {
    WritableShaped(env, e);
    PrintStart(env, e);
    var eq := Print(e);
    assert eq[0..|eq|] == eq;
    ListIsLost(env, eq, e, 0, 0);
    assert e.operands[..0] == [] && e.operations[..0] == [];
  }

  /** The round trip, exactly: an expression whose words can be written down is read back if and only if on every
      level a literal with an unsigned exponent stands last. */
  lemma {:induction false} PrintParsesIff(env: Env, e: SubExp)
    requires Writable(env, e)
    ensures Shaped(e) && Print(e) != ""
    ensures ParseExp(env, Print(e)) == Some(e) <==> ExponentsEnd(e)
  {
    if ExponentsEnd(e) { PrintParses(env, e); } else { PrintIsLost(env, e); }
  }

  // ----- exponents in any text

  lemma {:induction false} LiteralSplit(state: State, a: string, b: string)
    ensures Literal(state, a + b) == if Literal(state, a).None? then None else Literal(Literal(state, a).value, b)
    decreases |a|
  {
    if a == "" {
      assert a + b == b;
    } else {
      assert (a + b)[1..] == a[1..] + b;
      if IsDigit(a[0]) { LiteralSplit(state, a[1..], b); }
      else if a[0] == '.' { LiteralSplit(READ_NUM_WAS_DOT, a[1..], b); }
      else if a[0] == 'e' { LiteralSplit(READ_NUM_AFTER_E, a[1..], b); }
      else { LiteralSplit(READ_NUM_WAS_E, a[1..], b); }
    }
  }

  lemma {:induction false} DigitsKeep(state: State, d: string)
    requires AllDigits(d)
    ensures Literal(state, d) == Some(state)
    decreases |d|
  {
    if d != "" { DigitsKeep(state, d[1..]); }
  }

  /** A mantissa, an `e` and digits are a literal with an unsigned exponent, and every such literal is that. */
  lemma {:induction false} UnsignedForm(m: string, d: string)
    requires IsMantissa(m) && AllDigits(d)
    ensures LiteralState(m + "e" + d) == Some(READ_NUM_AFTER_E)
  {
    var t := m + "e" + d;
    assert t[1..] == m[1..] + ("e" + d);
    LiteralSplit(READ_NUM, m[1..], "e" + d);
    assert ("e" + d)[1..] == d;
    DigitsKeep(READ_NUM_AFTER_E, d);
  }

  lemma {:induction false} FormOfUnsigned(t: string) returns (m: string, d: string)
    requires LiteralState(t) == Some(READ_NUM_AFTER_E)
    ensures t == m + "e" + d && IsMantissa(m) && AllDigits(d)
    decreases |t|
  {
    var n := |t| - 1;
    assert t[1..] == t[1..n] + [t[n]];
    LiteralSplit(READ_NUM, t[1..n], [t[n]]);
    assert [t[n]][1..] == "" && t[..n][1..] == t[1..n];
    assert t == t[..n] + [t[n]];
    if t[n] == 'e' {
      m, d := t[..n], "";
      assert t == m + "e" + d;
    } else {
      var d' := "";
      m, d' := FormOfUnsigned(t[..n]);
      d := d' + [t[n]];
      assert t == m + "e" + d;
    }
  }

  /** What an operation behind an unsigned exponent comes to, whatever stands before and behind: `c` between the digits
      `d` and `d'`, on any level of any text. */
  lemma {:induction false} OperationBehindExponent(env: Env, eq: string, s: Config, m: string, d: string, c: char,
      d': string)
    requires s.state == WAIT_OPERAND && s.word == "" && IsMantissa(m) && AllDigits(d) && AllDigits(d')
             && IsSimpleOperationChar(c)
    requires At(eq, s.next, m + "e" + d + [c] + d')
    ensures var t, n := m + "e" + d, s.next + |m| + 1 + |d| + 1 + |d'|;
            var w := t + (if c == '-' then "-" else "") + d';
            && (c == '*' || c == '/' ==> Continue(env, eq, s) == None)
            && (c == '+' || c == '-' ==>
                  && Continue(env, eq, s) == Continue(env, eq, Config(n, READ_NUM_WAS_E, w, s.operands, s.operations))
                  && (Terminated(eq, n) ==>
                        Continue(env, eq, s)
                        == if env.isNumber(w) then Continue(env, eq, AfterOperand(eq, s, n, Num(w))) else None))
  {
    UnsignedForm(m, d);
    LiteralThenOperation(env, eq, s, m + "e" + d, c, d');
  }

  lemma {:induction false} LiteralThenOperation(env: Env, eq: string, s: Config, t: string, c: char, d': string)
    requires s.state == WAIT_OPERAND && s.word == "" && LiteralState(t) == Some(READ_NUM_AFTER_E)
    requires AllDigits(d') && IsSimpleOperationChar(c) && At(eq, s.next, t + [c] + d')
    ensures c == '*' || c == '/' ==> Continue(env, eq, s) == None
    ensures c == '+' || c == '-' ==>
              var w, n := t + (if c == '-' then "-" else "") + d', s.next + |t| + 1 + |d'|;
              && Continue(env, eq, s) == Continue(env, eq, Config(n, READ_NUM_WAS_E, w, s.operands, s.operations))
              && (Terminated(eq, n) ==>
                    Continue(env, eq, s)
                    == if env.isNumber(w) then Continue(env, eq, AfterOperand(eq, s, n, Num(w))) else None)
  {
    AtParts(eq, s.next, t + [c], d');
    UnsignedThenOperation(env, eq, s, t, c);
    if c == '+' || c == '-' {
      SignThenDigits(env, eq, s, s.next + |t| + 1, t + if c == '-' then "-" else "", d');
    }
  }

  lemma {:induction false} SignThenDigits(env: Env, eq: string, s: Config, n: nat, word: string, d: string)
    requires Continue(env, eq, s) == Continue(env, eq, Config(n, READ_NUM_WAS_E, word, s.operands, s.operations))
    requires AllDigits(d) && At(eq, n, d)
    ensures Continue(env, eq, s)
            == Continue(env, eq, Config(n + |d|, READ_NUM_WAS_E, word + d, s.operands, s.operations))
    ensures Terminated(eq, n + |d|) ==>
              Continue(env, eq, s)
              == if env.isNumber(word + d) then Continue(env, eq, AfterOperand(eq, s, n + |d|, Num(word + d))) else None
  {
    SignedGoesOn(env, eq, Config(n, READ_NUM_WAS_E, word, s.operands, s.operations), d);
  }

  lemma {:induction false} UnsignedThenOperation(env: Env, eq: string, s: Config, t: string, c: char)
    requires s.state == WAIT_OPERAND && s.word == "" && LiteralState(t) == Some(READ_NUM_AFTER_E)
             && IsSimpleOperationChar(c)
    requires At(eq, s.next, t + [c])
    ensures Continue(env, eq, s)
            == if c == '*' || c == '/' then None
               else
                 var sign := if c == '-' then "-" else "";
                 Continue(env, eq, Config(s.next + |t| + 1, READ_NUM_WAS_E, t + sign, s.operands, s.operations))
  {
    AtParts(eq, s.next, t, [c]);
    AtChar(eq, s.next + |t|, [c], 0);
    ContinueFirst(env, eq, s, t);
    UnsignedGoesOn(env, eq, Config(s.next + |t|, READ_NUM_AFTER_E, t, s.operands, s.operations));
  }

  lemma {:induction false} SignedGoesOn(env: Env, eq: string, s: Config, d: string)
    requires s.state == READ_NUM_WAS_E && AllDigits(d) && At(eq, s.next, d)
    ensures var r := s.(next := s.next + |d|, word := s.word + d);
            && Continue(env, eq, s) == Continue(env, eq, r)
            && (Terminated(eq, r.next) ==>
                  Continue(env, eq, s)
                  == if env.isNumber(r.word) then Continue(env, eq, AfterOperand(eq, s, r.next, Num(r.word))) else None)
  {
    var r := s.(next := s.next + |d|, word := s.word + d);
    DigitsKeep(READ_NUM_WAS_E, d);
    ContinueLiteral(env, eq, s, d);
    if Terminated(eq, r.next) { NumEnds(env, eq, r); }
  }

  /** So the text of a sum whose first operand has an unsigned exponent is read as one number, or not at all. */
  lemma {:induction false} ExponentSwallowsPlus(env: Env, m: string, d: string, d': string)
    requires IsMantissa(m) && AllDigits(d) && AllDigits(d')
    ensures var w := m + "e" + d + d';
            ParseExp(env, m + "e" + d + "+" + d') == if env.isNumber(w) then Some(SubExp([Num(w)], [])) else None
  {
    var eq, w := m + "e" + d + "+" + d', m + "e" + d + d';
    var s := Config(0, WAIT_OPERAND, "", [], []);
    assert eq[0] == m[0] && Start(eq) == s;
    assert eq[0..|eq|] == eq && "+" == ['+'];
    OperationBehindExponent(env, eq, s, m, d, '+', d');
    assert m + "e" + d + "" + d' == w;
    if env.isNumber(w) {
      AtEnd(env, eq, AfterOperand(eq, s, |eq|, Num(w)));
      assert [] + [Num(w)] == [Num(w)];
    }
  }

  /** A plus sign of an exponent is lost from the word: the literal is read as if it were not there. */
  lemma {:induction false} ExponentLosesPlus(env: Env, eq: string, s: Config, m: string, d: string)
    requires s.state == WAIT_OPERAND && s.word == "" && IsMantissa(m) && AllDigits(d)
    requires At(eq, s.next, m + "e+" + d) && Terminated(eq, s.next + |m| + 2 + |d|)
    ensures Continue(env, eq, s)
            == if env.isNumber(m + "e" + d)
               then Continue(env, eq, AfterOperand(eq, s, s.next + |m| + 2 + |d|, Num(m + "e" + d))) else None
  {
    assert m + "e" + "" + ['+'] + d == m + "e+" + d && m + "e" + "" + "" + d == m + "e" + d;
    OperationBehindExponent(env, eq, s, m, "", '+', d);
  }
}
