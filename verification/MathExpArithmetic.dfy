/** Texts and their values in ordinary arithmetic: which character is which operation, in what order operations apply,
    which letters make names and which characters are blanks. */
module MathExpArithmetic {
  import opened Common
  import opened MathExp
  import opened MathExpParser
  import opened MathExpPrinting
  import MathSubExp

  /** The real numbers; `byZero` is what a division by zero gives. */
  function Reals(num: string -> real, var_: string -> real, byZero: real -> real): Algebra<real> {
    Algebra(
      (op: Op, x: real, y: real) =>
        match op
        case Add => x + y
        case Subtr => x - y
        case Mult => x * y
        case Div => if y == 0.0 then byZero(x) else x / y,
      num, var_)
  }

  /** Two operands that can stand in a text, the first before an operation. */
  ghost predicate Pair(env: Env, o: Operand, p: Operand) {
    Printable(env, SubExp([o, p], [Add]))
  }

  lemma {:induction false} PairPrints(env: Env, o: Operand, p: Operand, op: Op)
    requires Pair(env, o, p)
    ensures ShapedOperand(o) && ShapedOperand(p) && Shaped(SubExp([o, p], [op])) && Printable(env, SubExp([o, p], [op]))
    ensures Print(SubExp([o, p], [op])) == PrintOperand(o) + [OpChar(op)] + PrintOperand(p)
  {
    var e, f := SubExp([o, p], [op]), SubExp([o, p], [Add]);
    assert e.operands == f.operands;
    assert forall i | 0 <= i < |e.operands| :: WritableOperand(env, f.operands[i]);
    WritableShaped(env, e);
    assert ShapedOperand(e.operands[0]) && ShapedOperand(e.operands[1]);
    assert PrintFrom(e, 1) == PrintOperand(p) + "";
    assert PrintOperand(o) + ([OpChar(op)] + PrintOperand(p)) == PrintOperand(o) + [OpChar(op)] + PrintOperand(p);
  }

  /** The four characters are the four operations of arithmetic, the left operand first. */
  lemma {:induction false} TwoOperands(num: string -> real, var_: string -> real, byZero: real -> real,
      env: Env, o: Operand, p: Operand, c: char)
    requires Pair(env, o, p) && c in {'+', '-', '*', '/'}
    ensures ShapedOperand(o) && ShapedOperand(p)
    ensures var a, tree := Reals(num, var_, byZero), ParseExp(env, PrintOperand(o) + [c] + PrintOperand(p));
            var x, y := Value(a, o), Value(a, p);
            && tree.Some? && Shaped(tree.value)
            && Calc(a, tree.value) == if c == '+' then x + y else if c == '-' then x - y else if c == '*' then x * y
                                      else if y == 0.0 then byZero(x) else x / y
  {
    var op := if c == '+' then Add else if c == '-' then Subtr else if c == '*' then Mult else Div;
    var a, e := Reals(num, var_, byZero), SubExp([o, p], [op]);
    PairPrints(env, o, p, op);
    PrintParses(env, e);
    LeftFoldTwo(a, Value(a, o), Value(a, p), op);
    CalcTwo(a, o, p, op);
  }

  lemma {:induction false} CalcTwo<T>(a: Algebra<T>, o: Operand, p: Operand, op: Op)
    requires Shaped(SubExp([o, p], [op])) && ShapedOperand(o) && ShapedOperand(p)
    ensures Calc(a, SubExp([o, p], [op])) == a.apply(op, Value(a, o), Value(a, p))
  {
    var e := SubExp([o, p], [op]);
    CalcUnfolds(a, e);
    assert Values(a, e.operands) == [Value(a, o), Value(a, p)];
    LeftFoldTwo(a, Value(a, o), Value(a, p), op);
  }

  lemma {:induction false} LeftFoldTwo<T>(a: Algebra<T>, x: T, y: T, op: Op)
    ensures LeftFold(a, [x, y], [op]) == a.apply(op, x, y)
  {
    assert [x, y][..1] == [x] && [op][..0] == [];
  }

  /** Three operands have the value they have on paper: products before sums, and otherwise from left to right. */
  lemma {:induction false} ThreeOperands<T>(a: Algebra<T>, x: T, y: T, z: T, o1: Op, o2: Op)
    ensures Conventional(a, [x, y, z], [o1, o2])
            == if o1 in {Add, Subtr} && o2 in {Mult, Div} then a.apply(o1, x, a.apply(o2, y, z))
               else a.apply(o2, a.apply(o1, x, y), z)
  {
    if o2 in {Add, Subtr} {
      SumComesLast(a, x, y, z, o1, o2);
    } else if o1 in {Add, Subtr} {
      ProductComesLast(a, x, y, z, o1, o2);
    } else {
      assert [o1, o2][..1] == [o1] && [x, y, z][..2] == [x, y];
      assert LastSum([o1]) == -1 && LastSum([o1, o2]) == -1;
      LeftFoldTwo(a, x, y, o1);
    }
  }

  lemma {:induction false} SumComesLast<T>(a: Algebra<T>, x: T, y: T, z: T, o1: Op, o2: Op)
    requires o2 in {Add, Subtr}
    ensures Conventional(a, [x, y, z], [o1, o2]) == a.apply(o2, a.apply(o1, x, y), z)
  {
    var vs, ops := [x, y, z], [o1, o2];
    assert LastSum(ops) == 1;
    assert ops[..1] == [o1] && ops[2..] == [] && vs[..2] == [x, y] && vs[2..] == [z];
    ConventionalTwo(a, x, y, o1);
  }

  lemma {:induction false} ProductComesLast<T>(a: Algebra<T>, x: T, y: T, z: T, o1: Op, o2: Op)
    requires o1 in {Add, Subtr} && o2 in {Mult, Div}
    ensures Conventional(a, [x, y, z], [o1, o2]) == a.apply(o1, x, a.apply(o2, y, z))
  {
    var vs, ops := [x, y, z], [o1, o2];
    assert ops[..1] == [o1] && ops[..0] == [] && ops[1..] == [o2] && vs[..1] == [x] && vs[1..] == [y, z];
    assert LastSum(ops[..1]) == 0 && LastSum(ops) == 0;
    LeftFoldTwo(a, y, z, o2);
  }

  lemma {:induction false} ConventionalTwo<T>(a: Algebra<T>, x: T, y: T, op: Op)
    ensures Conventional(a, [x, y], [op]) == a.apply(op, x, y)
  {
    LeftFoldTwo(a, x, y, op);
    assert [x, y][..1] == [x] && [x, y][1..] == [y] && [op][..0] == [] && [op][1..] == [];
    assert Conventional(a, [x], []) == x && LeftFold(a, [y], []) == y;
  }

  /** A name of one letter can be used exactly when the letter is not an a or a z. */
  lemma {:induction false} OneLetterNameIff(env: Env, c: char)
    requires [c] in env.vars
    ensures ParseExp(env, [c]) == Some(SubExp([Var([c])], [])) <==> 'b' <= c <= 'y' || 'B' <= c <= 'Y'
  {
    var e, s := SubExp([Var([c])], []), Config(0, WAIT_OPERAND, "", [], []);
    if IsValidNameChar(c) {
      assert [c][1..] == "" && ReadsAsName("");
      assert WritableOperand(env, e.operands[0]) && !IsUnsigned(e.operands[0]) && ExponentsEndIn(e.operands[0]);
      PrintParses(env, e);
      assert PrintFrom(e, 0) == PrintOperand(e.operands[0]) + "" == [c];
      assert Print(e) == [c];
    } else if IsDigit(c) {
      OneLetterNumber(env, c);
    } else if c == '+' || c == '-' {
      var t := Start([c]);
      assert t.next == 1 && ParseChar(env, [c], t.(next := 2), '\0') == None;
    } else if IsSpace(c) {
      assert ParseChar(env, [c], s.(next := 2), '\0') == None;
      assert Continue(env, [c], s) == Continue(env, [c], s.(next := 1)) == None;
    } else {
      assert ParseChar(env, [c], s.(next := 1), c) == None;
    }
  }

  lemma {:induction false} OneLetterNumber(env: Env, c: char)
    requires IsDigit(c)
    ensures var r := ParseExp(env, [c]);
            r.Some? ==> |r.value.operands| > 0 && r.value.operands[0] == Num([c])
  {
    var s, t := Config(0, WAIT_OPERAND, "", [], []), Config(1, READ_NUM, [c], [], []);
    assert "" + [c] == [c];
    OneChar(env, [c], s, t);
    NumEnds(env, [c], t);
    OperandsStay(env, [c], AfterOperand([c], t, 1, Num([c])));
    assert AfterOperand([c], t, 1, Num([c])).operands[0] == Num([c]);
  }

  /** A name stays what it is before a blank or a zero character, and before no other. */
  lemma {:induction false} TrailingIsSkippedIff(env: Env, c: char)
    requires env.vars == {"b"}
    ensures ParseExp(env, "b" + [c]) == Some(SubExp([Var("b")], [])) <==> c as int in {0, 9, 10, 11, 12, 13, 32}
  {
    var eq, s, t := "b" + [c], Config(0, WAIT_OPERAND, "", [], []), Config(1, READ_VAR_OR_FUNCTION_NAME, "b", [], []);
    var end := Config(2, END_OF_PARSING, "", [Var("b")], []);
    assert eq[0] == 'b' && eq[1] == c && "" + ['b'] == "b" && [] + [Var("b")] == [Var("b")];
    OneChar(env, eq, s, t);
    assert Continue(env, eq, end) == Continue(env, eq, end.(next := 3)) == Some(SubExp([Var("b")], []));
    if IsSpace(c) {
      assert ParseChar(env, eq, t.(next := 3), '\0') == Some(end.(next := 3));
    } else if c == '\0' {
      OneChar(env, eq, t, end);
    } else if IsDigit(c) || IsValidNameChar(c) {
      var u := t.(next := 2, word := "b" + [c]);
      OneChar(env, eq, t, u);
      assert |u.word| == 2 && u.word !in env.vars;
      assert ParseChar(env, eq, u.(next := 3), '\0') == None;
    } else if IsSimpleOperationChar(c) {
      var u := Config(2, WAIT_OPERAND, "", [Var("b")], [OpOf(c)]);
      assert [] + [OpOf(c)] == [OpOf(c)];
      OneChar(env, eq, t, u);
      assert ParseChar(env, eq, u.(next := 3), '\0') == None;
    } else {
      assert ParseChar(env, eq, t.(next := 2), c) == None;
    }
  }
}
