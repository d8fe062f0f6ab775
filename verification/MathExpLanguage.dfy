/** What the expression parser accepts: of plain texts exactly the printed expressions, each with its own tree. */
module MathExpLanguage {
  import opened Common
  import opened MathExp
  import opened MathExpParser
  import opened MathExpPrinting

  /** Digits before `i`, and before them an `e` behind a digit or a point. */
  predicate BehindExponent(eq: string, i: nat)
    requires i <= |eq|
  {
    i > 0 && ((IsDigit(eq[i - 1]) && BehindExponent(eq, i - 1))
              || (eq[i - 1] == 'e' && i > 1 && (IsDigit(eq[i - 2]) || eq[i - 2] == '.')))
  }

  /** No space or zero character, no sign at the start of the text or of a bracket, no plus behind an exponent. */
  predicate PlainAt(eq: string, i: nat)
    requires i < |eq|
  {
    && !IsSpace(eq[i]) && eq[i] != '\0'
    && (eq[i] == '+' || eq[i] == '-' ==> i > 0 && eq[i - 1] != '(')
    && (eq[i] == '+' ==> !BehindExponent(eq, i))
  }

  ghost predicate Plain(eq: string) {
    forall i | 0 <= i < |eq| :: PlainAt(eq, i)
  }

  lemma {:induction false} BehindExponentInPart(eq: string, i: nat, k: nat, j: nat)
    requires i <= k <= |eq| && j <= k - i && BehindExponent(eq[i..k], j)
    ensures BehindExponent(eq, i + j)
    decreases j
  {
    var p := eq[i..k];
    assert p[j - 1] == eq[i + j - 1] && (j > 1 ==> p[j - 2] == eq[i + j - 2]);
    if IsDigit(p[j - 1]) && BehindExponent(p, j - 1) { BehindExponentInPart(eq, i, k, j - 1); }
  }

  lemma {:induction false} PlainBracket(eq: string, i: nat, k: nat)
    requires Plain(eq) && 0 < i <= k <= |eq| && eq[i - 1] == '('
    ensures Plain(eq[i..k])
  {
    forall j | 0 <= j < k - i ensures PlainAt(eq[i..k], j) {
      assert PlainAt(eq, i + j);
      assert eq[i..k][j] == eq[i + j];
      if j > 0 { assert eq[i..k][j - 1] == eq[i + j - 1]; }
      if BehindExponent(eq[i..k], j) { BehindExponentInPart(eq, i, k, j); }
    }
  }

  lemma {:induction false} FindCloseIsBracket(eq: string, i: nat, lvl: nat)
    requires lvl >= 1 && FindClose(eq, i, lvl).Some?
    ensures eq[FindClose(eq, i, lvl).value] == ')'
    decreases |eq| - i
  {
    if eq[i] == '(' {
      FindCloseIsBracket(eq, i + 1, lvl + 1);
    } else if eq[i] != ')' {
      FindCloseIsBracket(eq, i + 1, lvl);
    } else if lvl > 1 {
      FindCloseIsBracket(eq, i + 1, lvl - 1);
    }
  }

  // ----- the text read so far

  /** Operands that can stand before an operation. */
  ghost predicate AllPrintable(env: Env, os: seq<Operand>) {
    forall i | 0 <= i < |os| :: WritableOperand(env, os[i]) && ExponentsEndIn(os[i]) && !IsUnsigned(os[i])
  }

  /** The operands with the operations behind them. */
  function Done(os: seq<Operand>, ops: seq<Op>): string
    requires |os| == |ops| && AllShaped(os)
    decreases |ops|
  {
    if ops == [] then ""
    else
      var n := |ops| - 1;
      Done(os[..n], ops[..n]) + PrintOperand(os[n]) + [OpChar(ops[n])]
  }

  lemma {:induction false} DoneGrows(os: seq<Operand>, ops: seq<Op>, o: Operand, op: Op)
    requires |os| == |ops| && AllShaped(os) && ShapedOperand(o)
    ensures AllShaped(os + [o]) && Done(os + [o], ops + [op]) == Done(os, ops) + PrintOperand(o) + [OpChar(op)]
  {
    assert (os + [o])[..|ops|] == os && (ops + [op])[..|ops|] == ops;
  }

  lemma {:induction false} DoneIsFront(e: SubExp, k: nat)
    requires Shaped(e) && k <= |e.operations|
    ensures Print(e) == Done(e.operands[..k], e.operations[..k]) + PrintFrom(e, k)
    decreases k
  {
    if k == 0 {
      assert Done(e.operands[..0], e.operations[..0]) == "";
    } else {
      DoneIsFront(e, k - 1);
      DoneGrows(e.operands[..k - 1], e.operations[..k - 1], e.operands[k - 1], e.operations[k - 1]);
      assert e.operands[..k] == e.operands[..k - 1] + [e.operands[k - 1]];
      assert e.operations[..k] == e.operations[..k - 1] + [e.operations[k - 1]];
    }
  }

  /** What a word under way looks like. */
  predicate WordOk(state: State, w: string) {
    match state
    case WAIT_OPERAND => w == ""
    case WAIT_SIMPLE_OPERATION => w == ""
    case READ_VAR_OR_FUNCTION_NAME => w != "" && IsValidNameChar(w[0]) && ReadsAsName(w[1..])
    case END_OF_PARSING => false
    case _ => LiteralState(w) == Some(state)
  }

  /** The front of the text is what the lists and the word print. */
  ghost predicate Reading(env: Env, eq: string, s: Config) {
    && s.next <= |eq| && WordOk(s.state, s.word) && AllPrintable(env, s.operands) && AllShaped(s.operands)
    && |s.operands| == |s.operations| + (if s.state == WAIT_SIMPLE_OPERATION then 1 else 0)
    && eq[..s.next] == Done(s.operands[..|s.operations|], s.operations)
                       + if s.state == WAIT_SIMPLE_OPERATION then PrintOperand(s.operands[|s.operations|]) else s.word
  }

  lemma {:induction false} OneMoreRead(eq: string, n: nat, front: string, w: string)
    requires n < |eq| && eq[..n] == front + w
    ensures eq[..n + 1] == front + (w + [eq[n]])
  {
  }

  lemma {:induction false} LiteralGrows(w: string, c: char)
    requires LiteralState(w).Some?
    ensures LiteralState(w + [c]) == Literal(LiteralState(w).value, [c])
  {
    assert (w + [c])[1..] == w[1..] + [c];
    LiteralSplit(READ_NUM, w[1..], [c]);
  }

  lemma {:induction false} MantissaEnds(m: string)
    requires IsMantissa(m)
    ensures IsDigit(m[|m| - 1]) || m[|m| - 1] == '.'
  {
    var n := |m| - 1;
    if n > 0 {
      assert m[1..] == m[1..n] + [m[n]] && [m[n]][1..] == "";
      LiteralSplit(READ_NUM, m[1..n], [m[n]]);
      LiteralReads(READ_NUM, m[1..n]);
    }
  }

  /** A text that ends with a literal whose exponent is unsigned. */
  lemma {:induction false} UnsignedIsBehindExponent(eq: string, n: nat, front: string, m: string, d: string)
    requires n <= |eq| && eq[..n] == front + (m + "e" + d) && IsMantissa(m) && AllDigits(d)
    ensures BehindExponent(eq, n)
    decreases |d|
  {
    var k := |d|;
    var t := front + (m + "e" + d);
    if k == 0 {
      MantissaEnds(m);
      assert t[n - 1] == 'e' && t[n - 2] == m[|m| - 1];
      assert eq[n - 1] == t[n - 1] && eq[n - 2] == t[n - 2];
    } else {
      assert t[n - 1] == d[k - 1] && eq[n - 1] == t[n - 1];
      assert eq[..n - 1] == eq[..n][..n - 1] == front + (m + "e" + d[..k - 1]);
      UnsignedIsBehindExponent(eq, n - 1, front, m, d[..k - 1]);
    }
  }

  // ----- one character

  /** An operation behind a finished operand. */
  lemma {:induction false} OperationRead(env: Env, eq: string, s: Config, o: Operand)
    requires s.next < |eq| && IsSimpleOperationChar(eq[s.next]) && |s.operands| == |s.operations|
    requires AllPrintable(env, s.operands) && AllShaped(s.operands) && AllPrintable(env, [o]) && ShapedOperand(o)
    requires eq[..s.next] == Done(s.operands, s.operations) + PrintOperand(o)
    ensures Reading(env, eq, Config(s.next + 1, WAIT_OPERAND, "", s.operands + [o], s.operations + [OpOf(eq[s.next])]))
  {
    var c := eq[s.next];
    var os, ops := s.operands + [o], s.operations + [OpOf(c)];
    assert WritableOperand(env, [o][0]) && ExponentsEndIn([o][0]) && !IsUnsigned([o][0]);
    DoneGrows(s.operands, s.operations, o, OpOf(c));
    assert OpChar(OpOf(c)) == c;
    assert eq[..s.next + 1] == eq[..s.next] + [c];
    assert os[..|ops|] == os && Done(os, ops) + "" == Done(os, ops);
  }

  lemma {:induction false} WordGrows(env: Env, eq: string, s: Config, state: State)
    requires Reading(env, eq, s) && s.next < |eq| && s.state != WAIT_SIMPLE_OPERATION && state != WAIT_SIMPLE_OPERATION
    requires WordOk(state, s.word + [eq[s.next]])
    ensures Reading(env, eq, s.(next := s.next + 1, word := s.word + [eq[s.next]], state := state))
  {
    OneMoreRead(eq, s.next, Done(s.operands[..|s.operations|], s.operations), s.word);
  }

  lemma {:induction false} StepWord(env: Env, eq: string, s: Config, r: Config)
    requires Plain(eq) && Reading(env, eq, s) && s.next < |eq| && s.state == READ_VAR_OR_FUNCTION_NAME
    requires ReadName(env, s.(next := s.next + 1), eq[s.next]) == Some(r)
    ensures Reading(env, eq, r)
  {
    var c := eq[s.next];
    assert PlainAt(eq, s.next);
    assert s.operands[..|s.operations|] == s.operands;
    if IsDigit(c) || IsValidNameChar(c) {
      assert (s.word + [c])[1..] == s.word[1..] + [c];
      WordGrows(env, eq, s, s.state);
    } else {
      assert WritableOperand(env, Var(s.word));
      OperationRead(env, eq, s, Var(s.word));
    }
  }

  lemma {:induction false} StepNum(env: Env, eq: string, s: Config, r: Config)
    requires Plain(eq) && Reading(env, eq, s) && s.next < |eq| && ReadingNum(s)
    requires ReadNum(env, s.(next := s.next + 1), eq[s.next]) == Some(r)
    ensures Reading(env, eq, r)
  {
    var c, w := eq[s.next], s.word;
    assert PlainAt(eq, s.next);
    assert s.operands[..|s.operations|] == s.operands;
    NumChar(env, s.(next := s.next + 1), c);
    if Literal(s.state, [c]).Some? {
      LiteralGrows(w, c);
      WordGrows(env, eq, s, Literal(s.state, [c]).value);
    } else if s.state == READ_NUM_AFTER_E {
      var m, d := FormOfUnsigned(w);
      UnsignedIsBehindExponent(eq, s.next, Done(s.operands, s.operations), m, d);
    } else {
      assert WritableOperand(env, Num(w));
      OperationRead(env, eq, s, Num(w));
    }
  }

  /** What one character does to a literal. */
  lemma {:induction false} NumChar(env: Env, t: Config, c: char)
    requires ReadingNum(t) && c != '\0' && ReadNum(env, t, c).Some?
    ensures var r := ReadNum(env, t, c).value;
            if Literal(t.state, [c]).Some? then ReadingNum(t.(state := Literal(t.state, [c]).value))
                                              && r == t.(word := t.word + [c], state := Literal(t.state, [c]).value)
            else if t.state == READ_NUM_AFTER_E then c == '+'
            else IsSimpleOperationChar(c) && env.isNumber(t.word)
                 && r == Config(t.next, WAIT_OPERAND, "", t.operands + [Num(t.word)], t.operations + [OpOf(c)])
  {
    LiteralOfOne(t.state, c);
  }

  lemma {:induction false} LiteralOfOne(state: State, c: char)
    ensures Literal(state, [c])
            == if IsDigit(c) then Some(state)
               else if c == '.' && state == READ_NUM then Some(READ_NUM_WAS_DOT)
               else if c == 'e' && (state == READ_NUM || state == READ_NUM_WAS_DOT) then Some(READ_NUM_AFTER_E)
               else if c == '-' && state == READ_NUM_AFTER_E then Some(READ_NUM_WAS_E)
               else None
  {
    assert [c][1..] == "" && [c][0] == c;
    assert Literal(state, "") == Some(state);
    assert Literal(READ_NUM_WAS_DOT, "") == Some(READ_NUM_WAS_DOT);
    assert Literal(READ_NUM_AFTER_E, "") == Some(READ_NUM_AFTER_E);
    assert Literal(READ_NUM_WAS_E, "") == Some(READ_NUM_WAS_E);
  }

  lemma {:induction false} StepSimple(env: Env, eq: string, s: Config, r: Config)
    requires Plain(eq) && Reading(env, eq, s) && s.next < |eq| && s.state == WAIT_SIMPLE_OPERATION
    requires WaitSimpleOperation(s.(next := s.next + 1), eq[s.next]) == Some(r)
    ensures Reading(env, eq, r)
  {
    assert PlainAt(eq, s.next);
    var n := |s.operations|;
    var os, o := s.operands[..n], s.operands[n];
    assert os + [o] == s.operands;
    assert AllPrintable(env, os) && AllShaped(os) by {
      forall i | 0 <= i < n ensures WritableOperand(env, os[i]) && ExponentsEndIn(os[i]) && !IsUnsigned(os[i])
        && ShapedOperand(os[i]) {
        assert os[i] == s.operands[i];
      }
    }
    assert WritableOperand(env, o) && ExponentsEndIn(o) && !IsUnsigned(o);
    OperationRead(env, eq, s.(operands := os), o);
  }

  lemma {:induction false} StepOperand(env: Env, eq: string, s: Config, r: Config)
    requires Plain(eq) && Reading(env, eq, s) && s.next < |eq| && s.state == WAIT_OPERAND
    requires WaitOperand(env, eq, s.(next := s.next + 1), eq[s.next]) == Some(r)
    ensures Reading(env, eq, r)
    decreases |eq|, 0, 0
  {
    var c, n := eq[s.next], s.next + 1;
    if c == '(' {
      var k := FindClose(eq, n, 1).value;
      var e := ParseExp(env, eq[n..k]).value;
      FindCloseIsBracket(eq, n, 1);
      PlainBracket(eq, n, k);
      ParsedIsPrinted(env, eq[n..k], e);
      GroupRead(env, eq, s, e, k);
    } else {
      assert s.word + [c] == [c] && [c][1..] == "";
      assert IsDigit(c) ==> LiteralState([c]) == Some(READ_NUM);
      WordGrows(env, eq, s, r.state);
    }
  }

  lemma {:induction false} GroupRead(env: Env, eq: string, s: Config, e: SubExp, k: nat)
    requires Reading(env, eq, s) && s.state == WAIT_OPERAND && s.next < k < |eq| && eq[s.next] == '(' && eq[k] == ')'
    requires Printable(env, e) && Shaped(e) && Print(e) == eq[s.next + 1..k]
    ensures Reading(env, eq, s.(next := k + 1, operands := s.operands + [Group(e)], state := WAIT_SIMPLE_OPERATION))
  {
    var os, g := s.operands + [Group(e)], Group(e);
    assert WritableOperand(env, g) && ExponentsEndIn(g) && ShapedOperand(g) && PrintOperand(g) == "(" + Print(e) + ")";
    assert os[..|s.operations|] == s.operands[..|s.operations|] == s.operands;
    BracketRead(eq, s.next, k, Done(s.operands, s.operations), Print(e));
  }

  lemma {:induction false} BracketRead(eq: string, n: nat, k: nat, front: string, p: string)
    requires n < k < |eq| && eq[n] == '(' && eq[k] == ')' && p == eq[n + 1..k] && eq[..n] == front + ""
    ensures eq[..k + 1] == front + ("(" + p + ")")
  {
    assert eq[..k + 1] == eq[..n] + [eq[n]] + eq[n + 1..k] + [eq[k]];
  }

  // ----- whole texts

  lemma {:induction false} EndReturns(env: Env, eq: string, s: Config)
    requires s.next == |eq| && (s.state == WAIT_OPERAND || s.state == WAIT_SIMPLE_OPERATION
               || s.state == READ_VAR_OR_FUNCTION_NAME)
    ensures var r := ParseChar(env, eq, s.(next := s.next + 1), '\0');
            if r.None? then Continue(env, eq, s) == None
            else r.value.state == END_OF_PARSING ==>
                 Continue(env, eq, s) == Some(SubExp(r.value.operands, r.value.operations))
  {
    var r := ParseChar(env, eq, s.(next := s.next + 1), '\0');
    if r.Some? && r.value.state == END_OF_PARSING { AtEnd(env, eq, r.value); }
  }

  /** All operands and operations read make up the text. */
  lemma {:induction false} AllRead(env: Env, eq: string, os: seq<Operand>, ops: seq<Op>, o: Operand)
    requires |os| == |ops| && AllPrintable(env, os) && AllShaped(os) && WritableOperand(env, o) && ExponentsEndIn(o)
             && ShapedOperand(o)
    requires eq == Done(os, ops) + PrintOperand(o)
    ensures var e := SubExp(os + [o], ops); Printable(env, e) && Shaped(e) && Print(e) == eq
  {
    var e := SubExp(os + [o], ops);
    assert Printable(env, e);
    WritableShaped(env, e);
    DoneIsFront(e, |ops|);
    assert e.operands[..|ops|] == os && e.operations[..|ops|] == ops;
    assert PrintFrom(e, |ops|) == PrintOperand(o);
  }

  /** Behind the last character the parser stops, with the operand under way finished or not at all. */
  lemma {:induction false} EndRead(env: Env, eq: string, s: Config)
    requires Reading(env, eq, s) && s.next == |eq|
    ensures var r := Continue(env, eq, s);
            r.Some? ==> Printable(env, r.value) && Shaped(r.value) && Print(r.value) == eq
  {
    assert eq[..|eq|] == eq;
    if ReadingNum(s) {
      NumEndRead(env, eq, s);
    } else {
      var n, r := |s.operations|, ParseChar(env, eq, s.(next := s.next + 1), '\0');
      EndReturns(env, eq, s);
      if s.state == WAIT_OPERAND {
        assert r == None;
      } else if s.state == WAIT_SIMPLE_OPERATION {
        LastOperandRead(env, eq, s);
      } else if r.Some? {
        assert s.operands[..n] == s.operands;
        assert WritableOperand(env, Var(s.word));
        AllRead(env, eq, s.operands, s.operations, Var(s.word));
      }
    }
  }

  lemma {:induction false} NumEndRead(env: Env, eq: string, s: Config)
    requires Reading(env, eq, s) && s.next == |eq| && ReadingNum(s)
    ensures var r := Continue(env, eq, s);
            r.Some? ==> Printable(env, r.value) && Shaped(r.value) && Print(r.value) == eq
  {
    assert eq[..|eq|] == eq && s.operands[..|s.operations|] == s.operands;
    if s.state == READ_NUM_AFTER_E { UnsignedEnds(env, eq, s); } else { NumEnds(env, eq, s); }
    if env.isNumber(s.word) {
      AtEnd(env, eq, AfterOperand(eq, s, s.next, Num(s.word)));
      assert WritableOperand(env, Num(s.word));
      AllRead(env, eq, s.operands, s.operations, Num(s.word));
    }
  }

  lemma {:induction false} LastOperandRead(env: Env, eq: string, s: Config)
    requires Reading(env, eq, s) && s.next == |eq| && s.state == WAIT_SIMPLE_OPERATION
    ensures var e := SubExp(s.operands, s.operations); Printable(env, e) && Shaped(e) && Print(e) == eq
  {
    var n := |s.operations|;
    assert eq[..|eq|] == eq && s.operands[..n] + [s.operands[n]] == s.operands;
    forall i | 0 <= i < n
      ensures WritableOperand(env, s.operands[..n][i]) && ExponentsEndIn(s.operands[..n][i])
              && !IsUnsigned(s.operands[..n][i]) && ShapedOperand(s.operands[..n][i])
    {
      assert s.operands[..n][i] == s.operands[i];
    }
    assert WritableOperand(env, s.operands[n]) && ExponentsEndIn(s.operands[n]);
    AllRead(env, eq, s.operands[..n], s.operations, s.operands[n]);
  }

  lemma {:induction false} ContinueIsPrinted(env: Env, eq: string, s: Config)
    requires Plain(eq) && Reading(env, eq, s)
    ensures var r := Continue(env, eq, s);
            r.Some? ==> Printable(env, r.value) && Shaped(r.value) && Print(r.value) == eq
    decreases |eq|, Remaining(eq, s.next), 1
  {
    if s.next == |eq| {
      EndRead(env, eq, s);
    } else {
      var r := ParseChar(env, eq, s.(next := s.next + 1), eq[s.next]);
      assert PlainAt(eq, s.next);
      if r.Some? {
        StepRead(env, eq, s, r.value);
        OneChar(env, eq, s, r.value);
        ContinueIsPrinted(env, eq, r.value);
      }
    }
  }

  lemma {:induction false} StepRead(env: Env, eq: string, s: Config, r: Config)
    requires Plain(eq) && Reading(env, eq, s) && s.next < |eq|
    requires ParseChar(env, eq, s.(next := s.next + 1), eq[s.next]) == Some(r)
    ensures Reading(env, eq, r) && r.next > s.next
    decreases |eq|, 0, 1
  {
    if s.state == WAIT_OPERAND { StepOperand(env, eq, s, r); }
    else if s.state == WAIT_SIMPLE_OPERATION { StepSimple(env, eq, s, r); }
    else if s.state == READ_VAR_OR_FUNCTION_NAME { StepWord(env, eq, s, r); }
    else { StepNum(env, eq, s, r); }
  }

  lemma {:induction false} ParsedIsPrinted(env: Env, eq: string, e: SubExp)
    requires Plain(eq) && eq != "" && ParseExp(env, eq) == Some(e)
    ensures Printable(env, e) && Shaped(e) && Print(e) == eq
    decreases |eq|, |eq| + 1, 2
  {
    assert PlainAt(eq, 0);
    assert Done([], []) == "";
    ContinueIsPrinted(env, eq, Start(eq));
  }

  /** Of plain texts the parser accepts exactly the printed expressions, and gives the expression that was printed. */
  lemma {:induction false} AcceptedIffPrinted(env: Env, eq: string, e: SubExp)
    requires Plain(eq) && eq != ""
    ensures ParseExp(env, eq) == Some(e) <==> Printable(env, e) && Shaped(e) && Print(e) == eq
  {
    if ParseExp(env, eq) == Some(e) { ParsedIsPrinted(env, eq, e); }
    if Printable(env, e) && Shaped(e) && Print(e) == eq { PrintParses(env, e); }
  }

  /** So a printed expression has one tree. */
  lemma {:induction false} PrintIsInjective(env: Env, e: SubExp, f: SubExp)
    requires Printable(env, e) && Printable(env, f) && Shaped(e) && Shaped(f) && Print(e) == Print(f)
    ensures e == f
  {
    PrintParses(env, e);
    PrintParses(env, f);
  }
}
