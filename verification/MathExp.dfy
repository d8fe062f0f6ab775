/** Expressions as flat operand and operation lists, and the regrouping by priority (MathSubExp). */
module MathExp {

  datatype Op = Add | Subtr | Mult | Div

  /** `Num` is a constant, named by its literal; the parser's own constant 0.0 is `Num("0.0")`. */
  datatype Operand = Num(text: string) | Var(name: string) | Group(exp: SubExp)

  datatype SubExp = SubExp(operands: seq<Operand>, operations: seq<Op>)

  predicate IsSum(op: Op) {
    op.Add? || op.Subtr?
  }

  /** At every level there is one operand more than operations. */
  predicate Shaped(e: SubExp)
    decreases e
  {
    |e.operands| == |e.operations| + 1 && forall i | 0 <= i < |e.operands| :: ShapedOperand(e.operands[i])
  }

  predicate ShapedOperand(o: Operand)
    decreases o
  {
    o.Group? ==> Shaped(o.exp)
  }

  predicate AllShaped(os: seq<Operand>) {
    forall i | 0 <= i < |os| :: ShapedOperand(os[i])
  }

  // ----- values, over any four total operations

  datatype Algebra<!T> = Algebra(apply: (Op, T, T) -> T, num: string -> T, var_: string -> T)

  function LeftFold<T>(a: Algebra<T>, vals: seq<T>, ops: seq<Op>): T
    requires |vals| == |ops| + 1
    decreases |ops|
  {
    if ops == [] then vals[0]
    else
      var n := |ops| - 1;
      a.apply(ops[n], LeftFold(a, vals[..n + 1], ops[..n]), vals[n + 1])
  }

  /** `calc`: strictly from left to right. */
  function Calc<T>(a: Algebra<T>, e: SubExp): T
    requires Shaped(e)
    decreases e
  {
    LeftFold(a, seq(|e.operands|, i requires 0 <= i < |e.operands| => Value(a, e.operands[i])), e.operations)
  }

  function Value<T>(a: Algebra<T>, o: Operand): T
    requires ShapedOperand(o)
    decreases o
  {
    match o
    case Num(t) => a.num(t)
    case Var(n) => a.var_(n)
    case Group(e) => Calc(a, e)
  }

  function Values<T>(a: Algebra<T>, os: seq<Operand>): (r: seq<T>)
    requires AllShaped(os)
    ensures |r| == |os|
    ensures forall i | 0 <= i < |os| :: r[i] == Value(a, os[i])
  {
    seq(|os|, i requires 0 <= i < |os| => Value(a, os[i]))
  }

  function LastSum(ops: seq<Op>): (k: int)
    ensures -1 <= k < |ops|
    ensures k >= 0 ==> IsSum(ops[k])
    ensures forall i | k < i < |ops| :: !IsSum(ops[i])
  {
    if ops == [] then -1
    else if IsSum(ops[|ops| - 1]) then |ops| - 1
    else LastSum(ops[..|ops| - 1])
  }

  /** The conventional value of a flat list: a sum, left associative, of products, left associative. */
  function Conventional<T>(a: Algebra<T>, vals: seq<T>, ops: seq<Op>): T
    requires |vals| == |ops| + 1
    decreases |ops|
  {
    var k := LastSum(ops);
    if k < 0 then LeftFold(a, vals, ops)
    else a.apply(ops[k], Conventional(a, vals[..k + 1], ops[..k]), LeftFold(a, vals[k + 1..], ops[k + 1..]))
  }

  function ConventionalValue<T>(a: Algebra<T>, e: SubExp): T
    requires Shaped(e)
    decreases e
  {
    Conventional(a, seq(|e.operands|, i requires 0 <= i < |e.operands| => ConventionalOperand(a, e.operands[i])),
      e.operations)
  }

  function ConventionalOperand<T>(a: Algebra<T>, o: Operand): T
    requires ShapedOperand(o)
    decreases o
  {
    match o
    case Num(t) => a.num(t)
    case Var(n) => a.var_(n)
    case Group(e) => ConventionalValue(a, e)
  }

  // ----- regrouping

  predicate HasSum(ops: seq<Op>) {
    exists i | 0 <= i < |ops| :: IsSum(ops[i])
  }

  predicate HasProduct(ops: seq<Op>) {
    exists i | 0 <= i < |ops| :: !IsSum(ops[i])
  }

  /** One product as an operand of the sum. */
  function Term(os: seq<Operand>, ops: seq<Op>): Operand
    requires |os| == |ops| + 1
  {
    if ops == [] then os[0] else Group(SubExp(os, ops))
  }

  function GroupTerms(os: seq<Operand>, ops: seq<Op>): (r: SubExp)
    requires |os| == |ops| + 1
    ensures |r.operands| == |r.operations| + 1
    decreases |ops|
  {
    var k := LastSum(ops);
    if k < 0 then SubExp([Term(os, ops)], [])
    else
      var left := GroupTerms(os[..k + 1], ops[..k]);
      SubExp(left.operands + [Term(os[k + 1..], ops[k + 1..])], left.operations + [ops[k]])
  }

  function RegroupLevel(os: seq<Operand>, ops: seq<Op>): SubExp
    requires |os| == |ops| + 1
  {
    if HasSum(ops) && HasProduct(ops) then GroupTerms(os, ops) else SubExp(os, ops)
  }

  /** The effect of `checkOpsForPriorities`. */
  function Regroup(e: SubExp): SubExp
    requires Shaped(e)
    decreases e
  {
    RegroupLevel(seq(|e.operands|, i requires 0 <= i < |e.operands| => RegroupOperand(e.operands[i])), e.operations)
  }

  function RegroupOperand(o: Operand): Operand
    requires ShapedOperand(o)
    decreases o
  {
    if o.Group? then Group(Regroup(o.exp)) else o
  }

  function RegroupAll(os: seq<Operand>): (r: seq<Operand>)
    requires AllShaped(os)
    ensures |r| == |os|
    ensures forall i | 0 <= i < |os| :: r[i] == RegroupOperand(os[i])
  {
    seq(|os|, i requires 0 <= i < |os| => RegroupOperand(os[i]))
  }

  lemma {:induction false} RegroupUnfolds(e: SubExp)
    requires Shaped(e)
    ensures Regroup(e) == RegroupLevel(RegroupAll(e.operands), e.operations)
  {
    assert seq(|e.operands|, i requires 0 <= i < |e.operands| => RegroupOperand(e.operands[i]))
           == RegroupAll(e.operands);
  }

  lemma {:induction false} CalcUnfolds<T>(a: Algebra<T>, e: SubExp)
    requires Shaped(e)
    ensures Calc(a, e) == LeftFold(a, Values(a, e.operands), e.operations)
  {
    assert seq(|e.operands|, i requires 0 <= i < |e.operands| => Value(a, e.operands[i])) == Values(a, e.operands);
  }

  // ----- the regrouped tree is shaped

  lemma {:induction false} TermShaped(os: seq<Operand>, ops: seq<Op>)
    requires |os| == |ops| + 1 && AllShaped(os)
    ensures ShapedOperand(Term(os, ops))
  {
  }

  lemma {:induction false} GroupTermsShaped(os: seq<Operand>, ops: seq<Op>)
    requires |os| == |ops| + 1 && AllShaped(os)
    ensures Shaped(GroupTerms(os, ops))
    decreases |ops|
  {
    var k := LastSum(ops);
    if k < 0 {
      TermShaped(os, ops);
    } else {
      GroupTermsShaped(os[..k + 1], ops[..k]);
      TermShaped(os[k + 1..], ops[k + 1..]);
    }
  }

  lemma {:induction false} RegroupShaped(e: SubExp)
    requires Shaped(e)
    ensures Shaped(Regroup(e))
    decreases e
  {
    var os := RegroupAll(e.operands);
    forall i | 0 <= i < |os| ensures ShapedOperand(os[i]) {
      if e.operands[i].Group? { RegroupShaped(e.operands[i].exp); }
    }
    RegroupUnfolds(e);
    if HasSum(e.operations) && HasProduct(e.operations) { GroupTermsShaped(os, e.operations); }
  }

  lemma {:induction false} RegroupOperandShaped(o: Operand)
    requires ShapedOperand(o)
    ensures ShapedOperand(RegroupOperand(o))
  {
    if o.Group? { RegroupShaped(o.exp); }
  }

  // ----- meaning is what convention says

  lemma {:induction false} TermValue<T>(a: Algebra<T>, os: seq<Operand>, ops: seq<Op>)
    requires |os| == |ops| + 1 && AllShaped(os)
    ensures ShapedOperand(Term(os, ops)) && Value(a, Term(os, ops)) == LeftFold(a, Values(a, os), ops)
  {
    if ops != [] { CalcUnfolds(a, SubExp(os, ops)); }
  }

  lemma {:induction false} GroupTermsValue<T>(a: Algebra<T>, os: seq<Operand>, ops: seq<Op>)
    requires |os| == |ops| + 1 && AllShaped(os)
    ensures Shaped(GroupTerms(os, ops))
    ensures LeftFold(a, Values(a, GroupTerms(os, ops).operands), GroupTerms(os, ops).operations)
            == Conventional(a, Values(a, os), ops)
    decreases |ops|
  {
    GroupTermsShaped(os, ops);
    var k, g := LastSum(ops), GroupTerms(os, ops);
    if k < 0 {
      TermValue(a, os, ops);
    } else {
      var left := GroupTerms(os[..k + 1], ops[..k]);
      GroupTermsValue(a, os[..k + 1], ops[..k]);
      TermValue(a, os[k + 1..], ops[k + 1..]);
      assert Values(a, os[..k + 1]) == Values(a, os)[..k + 1];
      assert Values(a, os[k + 1..]) == Values(a, os)[k + 1..];
      var n := |left.operations|;
      assert g.operations[..n] == left.operations;
      assert Values(a, g.operands)[..n + 1] == Values(a, left.operands);
    }
  }

  /** Without products the conventional value is the value from left to right. */
  lemma {:induction false} SumsOnly<T>(a: Algebra<T>, vals: seq<T>, ops: seq<Op>)
    requires |vals| == |ops| + 1 && !HasProduct(ops)
    ensures Conventional(a, vals, ops) == LeftFold(a, vals, ops)
    decreases |ops|
  {
    if ops != [] {
      var n := |ops| - 1;
      assert IsSum(ops[n]);
      SumsOnly(a, vals[..n + 1], ops[..n]);
      assert vals[n + 1..] == [vals[n + 1]] && ops[n + 1..] == [];
    }
  }

  lemma {:induction false} NoSums<T>(a: Algebra<T>, vals: seq<T>, ops: seq<Op>)
    requires |vals| == |ops| + 1 && !HasSum(ops)
    ensures Conventional(a, vals, ops) == LeftFold(a, vals, ops)
  {
    assert LastSum(ops) < 0;
  }

  /** The main result: after regrouping, calculating from left to right gives the conventional value of the
      original, whatever the four operations and the operands are. */
  lemma {:induction false} RegroupGivesConventionalValue<T>(a: Algebra<T>, e: SubExp)
    requires Shaped(e)
    ensures Shaped(Regroup(e)) && Calc(a, Regroup(e)) == ConventionalValue(a, e)
    decreases e
  {
    RegroupShaped(e);
    RegroupUnfolds(e);
    var os := RegroupAll(e.operands);
    forall i | 0 <= i < |os| ensures ShapedOperand(os[i]) && Value(a, os[i]) == ConventionalOperand(a, e.operands[i]) {
      if e.operands[i].Group? { RegroupGivesConventionalValue(a, e.operands[i].exp); }
    }
    var vals := Values(a, os);
    assert vals == seq(|e.operands|, i requires 0 <= i < |e.operands| => ConventionalOperand(a, e.operands[i]));
    CalcUnfolds(a, Regroup(e));
    if HasSum(e.operations) && HasProduct(e.operations) {
      GroupTermsValue(a, os, e.operations);
    } else if HasSum(e.operations) {
      SumsOnly(a, vals, e.operations);
    } else {
      NoSums(a, vals, e.operations);
    }
  }

  // ----- leaves and operators stay in order

  datatype Token = Leaf(operand: Operand) | Operator(op: Op)

  function Tokens(e: SubExp): seq<Token>
    requires Shaped(e)
    decreases e, |e.operands| + 1
  {
    TokensTo(e, |e.operations|)
  }

  /** The leaves and operators up to operand `k`, brackets dropped. */
  function TokensTo(e: SubExp, k: nat): seq<Token>
    requires Shaped(e) && k <= |e.operations|
    decreases e, k
  {
    if k == 0 then OperandTokens(e.operands[0])
    else TokensTo(e, k - 1) + [Operator(e.operations[k - 1])] + OperandTokens(e.operands[k])
  }

  function OperandTokens(o: Operand): seq<Token>
    requires ShapedOperand(o)
    decreases o
  {
    if o.Group? then Tokens(o.exp) else [Leaf(o)]
  }

  lemma {:induction false} TokensOfPrefix(e: SubExp, f: SubExp, k: nat)
    requires Shaped(e) && Shaped(f) && k <= |e.operations| && k <= |f.operations|
    requires e.operands[..k + 1] == f.operands[..k + 1] && e.operations[..k] == f.operations[..k]
    ensures TokensTo(e, k) == TokensTo(f, k)
    decreases k
  {
    assert e.operands[..k + 1][k] == f.operands[..k + 1][k];
    if k > 0 {
      assert e.operands[..k] == e.operands[..k + 1][..k] && f.operands[..k] == f.operands[..k + 1][..k];
      assert e.operations[..k - 1] == e.operations[..k][..k - 1] && f.operations[..k - 1] == f.operations[..k][..k - 1];
      assert e.operations[..k][k - 1] == f.operations[..k][k - 1];
      TokensOfPrefix(e, f, k - 1);
    }
  }

  /** Cutting a list at operation `k` cuts its tokens there. */
  lemma {:induction false} TokensCut(e: SubExp, k: nat, j: nat)
    requires Shaped(e) && k <= j < |e.operations|
    ensures Shaped(SubExp(e.operands[k + 1..], e.operations[k + 1..]))
    ensures TokensTo(e, j + 1) == TokensTo(e, k) + [Operator(e.operations[k])]
                                  + TokensTo(SubExp(e.operands[k + 1..], e.operations[k + 1..]), j - k)
    decreases j
  {
    var right := SubExp(e.operands[k + 1..], e.operations[k + 1..]);
    assert right.operands[j - k] == e.operands[j + 1];
    if j > k {
      TokensCut(e, k, j - 1);
      assert right.operations[j - k - 1] == e.operations[j];
    }
  }

  lemma {:induction false} TermTokens(os: seq<Operand>, ops: seq<Op>)
    requires |os| == |ops| + 1 && AllShaped(os)
    ensures ShapedOperand(Term(os, ops)) && Shaped(SubExp(os, ops))
    ensures OperandTokens(Term(os, ops)) == Tokens(SubExp(os, ops))
  {
    TermShaped(os, ops);
  }

  lemma {:induction false} GroupTermsTokens(os: seq<Operand>, ops: seq<Op>)
    requires |os| == |ops| + 1 && AllShaped(os)
    ensures Shaped(GroupTerms(os, ops)) && Shaped(SubExp(os, ops))
    ensures Tokens(GroupTerms(os, ops)) == Tokens(SubExp(os, ops))
    decreases |ops|
  {
    GroupTermsShaped(os, ops);
    var k, g, e := LastSum(ops), GroupTerms(os, ops), SubExp(os, ops);
    if k < 0 {
      TermTokens(os, ops);
    } else {
      var left := GroupTerms(os[..k + 1], ops[..k]);
      GroupTermsTokens(os[..k + 1], ops[..k]);
      TermTokens(os[k + 1..], ops[k + 1..]);
      TokensCut(e, k, |ops| - 1);
      TokensOfPrefix(e, SubExp(os[..k + 1], ops[..k]), k);
      TokensOfPrefix(g, left, |left.operations|);
    }
  }

  lemma {:induction false} TokensOfEqualParts(e: SubExp, f: SubExp, k: nat)
    requires Shaped(e) && Shaped(f) && e.operations == f.operations && k <= |e.operations|
    requires forall i | 0 <= i <= k :: OperandTokens(e.operands[i]) == OperandTokens(f.operands[i])
    ensures TokensTo(e, k) == TokensTo(f, k)
    decreases k
  {
    if k > 0 { TokensOfEqualParts(e, f, k - 1); }
  }

  /** Regrouping adds brackets and moves nothing. */
  lemma {:induction false} RegroupKeepsOrder(e: SubExp)
    requires Shaped(e)
    ensures Shaped(Regroup(e)) && Tokens(Regroup(e)) == Tokens(e)
    decreases e
  {
    RegroupShaped(e);
    RegroupUnfolds(e);
    var os := RegroupAll(e.operands);
    forall i | 0 <= i < |os| ensures ShapedOperand(os[i]) && OperandTokens(os[i]) == OperandTokens(e.operands[i]) {
      if e.operands[i].Group? { RegroupKeepsOrder(e.operands[i].exp); }
    }
    TokensOfEqualParts(SubExp(os, e.operations), e, |e.operations|);
    if HasSum(e.operations) && HasProduct(e.operations) { GroupTermsTokens(os, e.operations); }
  }

  // ----- a second run changes nothing

  ghost predicate Settled(os: seq<Operand>) {
    AllShaped(os) && forall i | 0 <= i < |os| :: RegroupOperand(os[i]) == os[i]
  }

  lemma {:induction false} TermSettled(os: seq<Operand>, ops: seq<Op>)
    requires |os| == |ops| + 1 && Settled(os) && !HasSum(ops)
    ensures ShapedOperand(Term(os, ops)) && RegroupOperand(Term(os, ops)) == Term(os, ops)
  {
    if ops != [] {
      RegroupUnfolds(SubExp(os, ops));
      assert RegroupAll(os) == os;
    }
  }

  lemma {:induction false} GroupTermsSettled(os: seq<Operand>, ops: seq<Op>)
    requires |os| == |ops| + 1 && Settled(os)
    ensures Settled(GroupTerms(os, ops).operands) && !HasProduct(GroupTerms(os, ops).operations)
    decreases |ops|
  {
    var k := LastSum(ops);
    if k < 0 {
      TermSettled(os, ops);
    } else {
      var left := GroupTerms(os[..k + 1], ops[..k]);
      GroupTermsSettled(os[..k + 1], ops[..k]);
      TermSettled(os[k + 1..], ops[k + 1..]);
      OneMoreSettled(left.operands, Term(os[k + 1..], ops[k + 1..]), left.operations, ops[k]);
    }
  }

  lemma {:induction false} OneMoreSettled(os: seq<Operand>, o: Operand, ops: seq<Op>, op: Op)
    requires Settled(os) && ShapedOperand(o) && RegroupOperand(o) == o && !HasProduct(ops) && IsSum(op)
    ensures Settled(os + [o]) && !HasProduct(ops + [op])
  {
  }

  lemma {:induction false} RegroupTwiceIsOnce(e: SubExp)
    requires Shaped(e)
    ensures Shaped(Regroup(e)) && Regroup(Regroup(e)) == Regroup(e)
    decreases e
  {
    RegroupShaped(e);
    RegroupUnfolds(e);
    var os, r := RegroupAll(e.operands), Regroup(e);
    forall i | 0 <= i < |os| ensures ShapedOperand(os[i]) && RegroupOperand(os[i]) == os[i] {
      RegroupOperandShaped(e.operands[i]);
      if e.operands[i].Group? { RegroupTwiceIsOnce(e.operands[i].exp); }
    }
    if HasSum(e.operations) && HasProduct(e.operations) { GroupTermsSettled(os, e.operations); }
    RegroupUnfolds(r);
    assert RegroupAll(r.operands) == r.operands;
  }
}
