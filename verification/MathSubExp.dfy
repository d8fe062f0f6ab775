/** The regrouping as the program does it: removals and insertions in two parallel lists. */
module MathSubExp {
  import opened MathExp

  /** One term more at the end of a sum. */
  function WithTerm(e: SubExp, op: Op, t: Operand): SubExp {
    SubExp(e.operands + [t], e.operations + [op])
  }

  function WithFirst(o: Operand, op: Op, e: SubExp): SubExp {
    SubExp([o] + e.operands, [op] + e.operations)
  }

  lemma {:induction false} GroupTermsCut(os: seq<Operand>, ops: seq<Op>, k: nat)
    requires |os| == |ops| + 1 && LastSum(ops) == k
    ensures GroupTerms(os, ops) == WithTerm(GroupTerms(os[..k + 1], ops[..k]), ops[k], Term(os[k + 1..], ops[k + 1..]))
  {
  }

  lemma {:induction false} EndsCommute(o: Operand, op: Op, e: SubExp, op': Op, t: Operand)
    ensures WithTerm(WithFirst(o, op, e), op', t) == WithFirst(o, op, WithTerm(e, op', t))
  {
  }

  lemma {:induction false} PeelSum(os: seq<Operand>, ops: seq<Op>)
    requires |os| == |ops| + 1 && ops != [] && IsSum(ops[0])
    ensures GroupTerms(os, ops) == WithFirst(os[0], ops[0], GroupTerms(os[1..], ops[1..]))
    decreases |ops|
  {
    var k := LastSum(ops);
    LastSumOfTail(ops);
    if k > 0 {
      PeelSum(os[..k + 1], ops[..k]);
      TailSlices(os, k);
      TailSlices(ops, k - 1);
      PeelStep(os, ops, k);
    } else {
      PeelOnlySum(os, ops);
    }
  }

  lemma {:induction false} PeelStep(os: seq<Operand>, ops: seq<Op>, k: nat)
    requires |os| == |ops| + 1 && LastSum(ops) == k > 0 && LastSum(ops[1..]) == k - 1
    requires GroupTerms(os[..k + 1], ops[..k]) == WithFirst(os[0], ops[0], GroupTerms(os[1..][..k], ops[1..][..k - 1]))
    ensures GroupTerms(os, ops) == WithFirst(os[0], ops[0], GroupTerms(os[1..], ops[1..]))
  {
    GroupTermsCut(os, ops, k);
    GroupTermsCut(os[1..], ops[1..], k - 1);
    TailSlices(os, k);
    assert ops[k + 1..] == ops[1..][k..];
    EndsCommute(os[0], ops[0], GroupTerms(os[1..][..k], ops[1..][..k - 1]), ops[k], Term(os[k + 1..], ops[k + 1..]));
  }

  lemma {:induction false} TailSlices<T>(s: seq<T>, k: nat)
    requires k + 1 < |s|
    ensures s[..k + 1][1..] == s[1..][..k] && s[k + 1..] == s[1..][k..] && s[..k + 1][0] == s[0]
  {
  }

  lemma {:induction false} PeelOnlySum(os: seq<Operand>, ops: seq<Op>)
    requires |os| == |ops| + 1 && LastSum(ops) == 0
    ensures GroupTerms(os, ops) == WithFirst(os[0], ops[0], GroupTerms(os[1..], ops[1..]))
  {
    LastSumOfTail(ops);
    assert os[..1] == [os[0]];
  }

  lemma {:induction false} LastSumOfTail(ops: seq<Op>)
    requires ops != [] && IsSum(ops[0])
    ensures LastSum(ops[1..]) == LastSum(ops) - 1
  {
    var k, j := LastSum(ops), LastSum(ops[1..]);
    if j >= 0 { assert IsSum(ops[j + 1]); }
    if k > 0 { assert IsSum(ops[1..][k - 1]); }
  }

  lemma {:induction false} LastSumBehindProduct(ops: seq<Op>, r: nat)
    requires r <= |ops| && (forall i | 0 <= i < r :: !IsSum(ops[i])) && LastSum(ops) >= 0
    ensures r <= LastSum(ops) && LastSum(ops[r..]) == LastSum(ops) - r
  {
    var k, j := LastSum(ops), LastSum(ops[r..]);
    if j >= 0 { assert IsSum(ops[j + r]); }
    assert IsSum(ops[r..][k - r]);
  }

  /** A leading product can be closed first. */
  lemma {:induction false} PeelProduct(os: seq<Operand>, ops: seq<Op>, r: nat, g: seq<Operand>)
    requires |os| == |ops| + 1 && 0 < r <= |ops| && g == [Group(SubExp(os[..r + 1], ops[..r]))]
    requires (forall i | 0 <= i < r :: !IsSum(ops[i])) && (r < |ops| ==> IsSum(ops[r]))
    ensures GroupTerms(os, ops) == GroupTerms(g + os[r + 1..], ops[r..])
    decreases |ops|, 1
  {
    var k := LastSum(ops);
    if k < 0 {
      assert r == |ops|;
      PeelWhole(os, ops, g, os[..r + 1], ops[..r], os[r + 1..], ops[r..]);
    } else {
      LastSumBehindProduct(ops, r);
      PeelInPrefix(os, ops, k, r, g);
      PeelRest(os, ops, k, r, g);
    }
  }

  lemma {:induction false} PeelRest(os: seq<Operand>, ops: seq<Op>, k: nat, r: nat, g: seq<Operand>)
    requires |os| == |ops| + 1 && r <= k < |ops| && |g| == 1 && LastSum(ops) == k && LastSum(ops[r..]) == k - r
    requires GroupTerms(os[..k + 1], ops[..k]) == GroupTerms((g + os[r + 1..])[..k - r + 1], ops[r..][..k - r])
    ensures GroupTerms(os, ops) == GroupTerms(g + os[r + 1..], ops[r..])
  {
    var os', ops', k' := g + os[r + 1..], ops[r..], k - r;
    SuffixOfClosed(os, ops, k, r, g);
    SameCut(os, ops, k, os', ops', k');
  }

  lemma {:induction false} PeelWhole(os: seq<Operand>, ops: seq<Op>, g: seq<Operand>, os': seq<Operand>, ops': seq<Op>,
                                     noOs: seq<Operand>, noOps: seq<Op>)
    requires |os| == |ops| + 1 && LastSum(ops) < 0 && 0 < |ops| && g == [Group(SubExp(os', ops'))]
    requires os' == os[..|os|] && ops' == ops[..|ops|] && noOs == os[|os|..] && noOps == ops[|ops|..]
    ensures GroupTerms(os, ops) == GroupTerms(g + noOs, noOps)
  {
    assert os' == os && ops' == ops && noOs == [] && noOps == [] && g + noOs == g;
  }

  lemma {:induction false} PeelInPrefix(os: seq<Operand>, ops: seq<Op>, k: nat, r: nat, g: seq<Operand>)
    requires |os| == |ops| + 1 && 0 < r <= k < |ops| && g == [Group(SubExp(os[..r + 1], ops[..r]))]
    requires (forall i | 0 <= i < r :: !IsSum(ops[i])) && IsSum(ops[r])
    ensures GroupTerms(os[..k + 1], ops[..k]) == GroupTerms((g + os[r + 1..])[..k - r + 1], ops[r..][..k - r])
    decreases |ops|, 0
  {
    if k == r {
      PeelOnlyProduct(os, ops, r, g);
    } else {
      PrefixOfClosed(os, ops, k, r, g);
      PeelProduct(os[..k + 1], ops[..k], r, g);
    }
  }

  lemma {:induction false} SameCut(os: seq<Operand>, ops: seq<Op>, k: nat, os': seq<Operand>, ops': seq<Op>, k': nat)
    requires |os| == |ops| + 1 && |os'| == |ops'| + 1 && LastSum(ops) == k && LastSum(ops') == k'
    requires GroupTerms(os[..k + 1], ops[..k]) == GroupTerms(os'[..k' + 1], ops'[..k'])
    requires os[k + 1..] == os'[k' + 1..] && ops[k + 1..] == ops'[k' + 1..] && ops[k] == ops'[k']
    ensures GroupTerms(os, ops) == GroupTerms(os', ops')
  {
    GroupTermsCut(os, ops, k);
    GroupTermsCut(os', ops', k');
  }

  lemma {:induction false} PeelOnlyProduct(os: seq<Operand>, ops: seq<Op>, r: nat, g: seq<Operand>)
    requires |os| == |ops| + 1 && 0 < r < |ops| && (forall i | 0 <= i < r :: !IsSum(ops[i]))
    requires g == [Group(SubExp(os[..r + 1], ops[..r]))]
    ensures GroupTerms(os[..r + 1], ops[..r]) == GroupTerms((g + os[r + 1..])[..1], ops[r..][..0])
  {
    assert LastSum(ops[..r]) < 0;
    assert (g + os[r + 1..])[..1] == g && ops[r..][..0] == [];
  }

  lemma {:induction false} SuffixOfClosed(os: seq<Operand>, ops: seq<Op>, k: nat, r: nat, g: seq<Operand>)
    requires |os| == |ops| + 1 && r <= k < |ops| && |g| == 1
    ensures os[k + 1..] == (g + os[r + 1..])[k - r + 1..] && ops[k + 1..] == ops[r..][k - r + 1..]
            && ops[k] == ops[r..][k - r]
  {
  }

  lemma {:induction false} PrefixOfClosed(os: seq<Operand>, ops: seq<Op>, k: nat, r: nat, g: seq<Operand>)
    requires |os| == |ops| + 1 && r < k < |ops| && |g| == 1
    ensures os[..k + 1][..r + 1] == os[..r + 1] && ops[..k][..r] == ops[..r]
    ensures (g + os[r + 1..])[..k - r + 1] == g + os[..k + 1][r + 1..] && ops[r..][..k - r] == ops[..k][r..]
  {
  }

  /** Done up to `i`, the rest still to be grouped. */
  function Partly(os: seq<Operand>, ops: seq<Op>, i: nat): SubExp
    requires |os| == |ops| + 1 && i <= |ops|
  {
    var rest := GroupTerms(os[i..], ops[i..]);
    SubExp(os[..i] + rest.operands, ops[..i] + rest.operations)
  }

  lemma {:induction false} PartlyPassesSum(os: seq<Operand>, ops: seq<Op>, i: nat)
    requires |os| == |ops| + 1 && i < |ops| && IsSum(ops[i])
    ensures Partly(os, ops, i) == Partly(os, ops, i + 1)
  {
    var rest := GroupTerms(os[i + 1..], ops[i + 1..]);
    assert GroupTerms(os[i..], ops[i..]) == WithFirst(os[i], ops[i], rest) by {
      PeelSum(os[i..], ops[i..]);
      assert os[i..][1..] == os[i + 1..] && ops[i..][1..] == ops[i + 1..];
    }
    PassOne(os, i, rest.operands);
    PassOne(ops, i, rest.operations);
  }

  lemma {:induction false} PassOne<T>(s: seq<T>, i: nat, rest: seq<T>)
    requires i < |s|
    ensures s[..i] + ([s[i]] + rest) == s[..i + 1] + rest
  {
  }

  lemma {:induction false} PartlyDone(os: seq<Operand>, ops: seq<Op>)
    requires |os| == |ops| + 1
    ensures Partly(os, ops, |ops|) == SubExp(os, ops)
  {
    assert os[|ops|..] == [os[|ops|]] && ops[|ops|..] == [];
  }

  /** The lists with the product of `r` operations at `i` replaced by one operand. */
  function Closed(os: seq<Operand>, ops: seq<Op>, i: nat, r: nat): (res: SubExp)
    requires |os| == |ops| + 1 && i + r <= |ops|
    ensures |res.operands| == |res.operations| + 1 && |res.operations| == |ops| - r
  {
    SubExp(os[..i] + [Group(SubExp(os[i..i + r + 1], ops[i..i + r]))] + os[i + r + 1..], ops[..i] + ops[i + r..])
  }

  lemma {:induction false} PartlyClosesProduct(os: seq<Operand>, ops: seq<Op>, i: nat, r: nat)
    requires |os| == |ops| + 1 && 0 < r && i + r <= |ops|
    requires (forall j | i <= j < i + r :: !IsSum(ops[j])) && (i + r < |ops| ==> IsSum(ops[i + r]))
    ensures var c := Closed(os, ops, i, r);
            Partly(os, ops, i) == Partly(c.operands, c.operations, i)
  {
    var g, c := Group(SubExp(os[i..i + r + 1], ops[i..i + r])), Closed(os, ops, i, r);
    ClosedParts(os, ops, i, r, g);
    ProductInRest(os, ops, i, r, g);
    assert GroupTerms(c.operands[i..], c.operations[i..]) == GroupTerms(os[i..], ops[i..]);
    SamePartly(os, ops, c.operands, c.operations, i);
  }

  lemma {:induction false} SamePartly(os: seq<Operand>, ops: seq<Op>, os': seq<Operand>, ops': seq<Op>, i: nat)
    requires |os| == |ops| + 1 && i <= |ops| && |os'| == |ops'| + 1 && i <= |ops'|
    requires os[..i] == os'[..i] && ops[..i] == ops'[..i]
             && GroupTerms(os[i..], ops[i..]) == GroupTerms(os'[i..], ops'[i..])
    ensures Partly(os, ops, i) == Partly(os', ops', i)
  {
  }

  lemma {:induction false} ClosedParts(os: seq<Operand>, ops: seq<Op>, i: nat, r: nat, g: Operand)
    requires |os| == |ops| + 1 && i + r <= |ops| && g == Group(SubExp(os[i..i + r + 1], ops[i..i + r]))
    ensures var c := Closed(os, ops, i, r);
            && c.operands[..i] == os[..i] && c.operands[i..] == [g] + os[i + r + 1..]
            && c.operations[..i] == ops[..i] && c.operations[i..] == ops[i + r..]
  {
    ClosedSlices(os, i, r, g);
    OperationSlices(ops, i, r);
  }

  lemma {:induction false} ProductInRest(os: seq<Operand>, ops: seq<Op>, i: nat, r: nat, g: Operand)
    requires |os| == |ops| + 1 && 0 < r && i + r <= |ops| && g == Group(SubExp(os[i..i + r + 1], ops[i..i + r]))
    requires (forall j | i <= j < i + r :: !IsSum(ops[j])) && (i + r < |ops| ==> IsSum(ops[i + r]))
    ensures GroupTerms(os[i..], ops[i..]) == GroupTerms([g] + os[i + r + 1..], ops[i + r..])
  {
    ClosedSlices(os, i, r, g);
    OperationSlices(ops, i, r);
    assert forall j | 0 <= j < r :: ops[i..][j] == ops[i + j];
    PeelProduct(os[i..], ops[i..], r, [g]);
  }

  lemma {:induction false} OperationSlices(ops: seq<Op>, i: nat, r: nat)
    requires i + r <= |ops|
    ensures ops[i..][..r] == ops[i..i + r] && ops[i..][r..] == ops[i + r..]
    ensures var c := ops[..i] + ops[i + r..]; c[..i] == ops[..i] && c[i..] == ops[i + r..]
  {
  }

  lemma {:induction false} ClosedSlices(os: seq<Operand>, i: nat, r: nat, g: Operand)
    requires i + r < |os|
    ensures os[i..][..r + 1] == os[i..i + r + 1] && os[i..][r + 1..] == os[i + r + 1..]
    ensures var c := os[..i] + [g] + os[i + r + 1..]; c[..i] == os[..i] && c[i..] == [g] + os[i + r + 1..]
  {
  }

  lemma {:induction false} InsertedBetween<T>(a: seq<T>, x: T, b: seq<T>)
    ensures (a + b)[..|a|] + [x] + (a + b)[|a|..] == a + [x] + b
  {
  }

  function RemoveAt<T>(s: seq<T>, i: nat): seq<T>
    requires i < |s|
  {
    s[..i] + s[i + 1..]
  }

  class MathSubExp {
    var operands: seq<Operand>
    var operations: seq<Op>

    ghost function Exp(): SubExp
      reads this
    {
      SubExp(operands, operations)
    }

    constructor (os: seq<Operand>, ops: seq<Op>)
      ensures operands == os && operations == ops
    {
      operands, operations := os, ops;
    }

    method Clear()
      modifies this
      ensures operands == [] && operations == []
    {
      operands, operations := [], [];
    }

    method CheckOpsForPriorities(ghost e: SubExp)
      requires Exp() == e && Shaped(e)
      modifies this
      ensures Exp() == Regroup(e)
      decreases e
    {
      var hasAddSubOps, hasMultDivOps := false, false;
      var i := 0;
      while i < |operands|
        invariant i <= |operands| == |e.operands| && operations == e.operations
        invariant forall j | 0 <= j < i :: operands[j] == RegroupOperand(e.operands[j])
        invariant forall j | i <= j < |operands| :: operands[j] == e.operands[j]
      {
        assert ShapedOperand(e.operands[i]);
        if operands[i].Group? {
          var sub := new MathSubExp(operands[i].exp.operands, operands[i].exp.operations);
          sub.CheckOpsForPriorities(e.operands[i].exp);
          operands := operands[i := Group(SubExp(sub.operands, sub.operations))];
        }
        i := i + 1;
      }
      RegroupUnfolds(e);
      assert operands == RegroupAll(e.operands);
      i := 0;
      while i < |operations| && !hasAddSubOps
        invariant i <= |operations|
        invariant !hasAddSubOps ==> forall j | 0 <= j < i :: !IsSum(operations[j])
        invariant hasAddSubOps ==> HasSum(operations)
      {
        if operations[i].Add? || operations[i].Subtr? { hasAddSubOps := true; }
        i := i + 1;
      }
      i := 0;
      while i < |operations| && !hasMultDivOps
        invariant i <= |operations|
        invariant !hasMultDivOps ==> forall j | 0 <= j < i :: IsSum(operations[j])
        invariant hasMultDivOps ==> HasProduct(operations)
      {
        if operations[i].Mult? || operations[i].Div? { hasMultDivOps := true; }
        i := i + 1;
      }
      if !hasAddSubOps || !hasMultDivOps { return; }
      GroupProducts();
    }

    /** The loop that closes one product after the other. */
    method GroupProducts()
      requires |operands| == |operations| + 1
      modifies this
      ensures Exp() == GroupTerms(old(operands), old(operations))
    {
      ghost var target := GroupTerms(operands, operations);
      var i := 0;
      assert operands[0..] == operands && operations[0..] == operations;
      while i < |operations|
        invariant |operands| == |operations| + 1 && i <= |operations| + 1
        invariant target == if i <= |operations| then Partly(operands, operations, i) else Exp()
        decreases |operations| - i
      {
        if operations[i].Add? || operations[i].Subtr? {
          PartlyPassesSum(operands, operations, i);
        } else {
          CloseProduct(i);
          if i < |operations| { PartlyPassesSum(operands, operations, i); } else { PartlyDone(operands, operations); }
        }
        i := i + 1;
      }
      if i <= |operations| { PartlyDone(operands, operations); }
    }

    /** Take the product that starts at operation `i` out of the lists and put it back as one operand. */
    method CloseProduct(i: nat)
      requires |operands| == |operations| + 1 && i < |operations| && !IsSum(operations[i])
      modifies this
      ensures |operands| == |operations| + 1 && i <= |operations| < old(|operations|)
      ensures i < |operations| ==> IsSum(operations[i])
      ensures Partly(operands, operations, i) == old(Partly(operands, operations, i))
    {
      ghost var os, ops := operands, operations;
      var extractedOperands, extractedOperations := ExtractProduct(i);
      var c := |extractedOperations|;
      RemoveOperands(i, c);
      PartlyClosesProduct(os, ops, i, c);
      InsertedBetween(os[..i], Group(SubExp(extractedOperands, extractedOperations)), os[i + 1 + c..]);
      operands := operands[..i] + [Group(SubExp(extractedOperands, extractedOperations))] + operands[i..];
      assert operands == Closed(os, ops, i, c).operands && operations == Closed(os, ops, i, c).operations;
    }

    /** The operands and operations of the product that starts at operation `i`. */
    method ExtractProduct(i: nat) returns (extractedOperands: seq<Operand>, extractedOperations: seq<Op>)
      requires |operands| == |operations| + 1 && i < |operations| && !IsSum(operations[i])
      ensures var c := |extractedOperations|;
              && 0 < c && i + c <= |operations|
              && extractedOperands == operands[i..i + c + 1] && extractedOperations == operations[i..i + c]
              && (forall k | i <= k < i + c :: !IsSum(operations[k]))
              && (i + c < |operations| ==> IsSum(operations[i + c]))
    {
      extractedOperands := [operands[i]];
      extractedOperations := [];
      var j := i;
      while j < |operations| && !(operations[j].Add? || operations[j].Subtr?)
        invariant i <= j <= |operations| && (j == i ==> !IsSum(operations[i]))
        invariant forall k | i <= k < j :: !IsSum(operations[k])
        invariant extractedOperands == operands[i..j + 1] && extractedOperations == operations[i..j]
      {
        extractedOperands := extractedOperands + [operands[j + 1]];
        extractedOperations := extractedOperations + [operations[j]];
        j := j + 1;
      }
    }

    method RemoveOperands(i: nat, c: nat)
      requires |operands| == |operations| + 1 && i + c <= |operations|
      modifies this
      ensures operands == old(operands)[..i] + old(operands)[i + 1 + c..]
      ensures operations == old(operations)[..i] + old(operations)[i + c..]
    {
      ghost var os, ops := operands, operations;
      operands := RemoveAt(operands, i);
      for n := 0 to c
        invariant operands == os[..i] + os[i + 1 + n..] && operations == ops[..i] + ops[i + n..]
      {
        operands := RemoveAt(operands, i);
        operations := RemoveAt(operations, i);
      }
    }

    /** `calc`, on the values of the operands. */
    method Calc<T>(a: Algebra<T>) returns (v: T)
      requires Shaped(Exp())
      ensures v == MathExp.Calc(a, Exp())
    {
      CalcUnfolds(a, Exp());
      ghost var vals := Values(a, operands);
      v := Value(a, operands[0]);
      assert operations[..0] == [] && vals[..1][0] == v;
      for i := 0 to |operations|
        invariant v == LeftFold(a, vals[..i + 1], operations[..i])
      {
        assert vals[..i + 2][..i + 1] == vals[..i + 1] && operations[..i + 1][..i] == operations[..i];
        v := a.apply(operations[i], v, Value(a, operands[i + 1]));
      }
      assert vals[..|operations| + 1] == vals && operations[..|operations|] == operations;
    }
  }

  // ----- how much the regrouping matters

  /** The free algebra: a value is the tree of operations that computed it. */
  datatype Tree = NumLeaf(text: string) | VarLeaf(name: string) | Node(op: Op, left: Tree, right: Tree)

  function Free(): Algebra<Tree> {
    Algebra((op, l, r) => Node(op, l, r), t => NumLeaf(t), n => VarLeaf(n))
  }

  /** No product operator after a sum operator, at any level. */
  predicate ProductsFirst(ops: seq<Op>) {
    forall i, j | 0 <= i < j < |ops| :: IsSum(ops[i]) ==> IsSum(ops[j])
  }

  predicate Ordered(e: SubExp)
    decreases e
  {
    ProductsFirst(e.operations) && forall i | 0 <= i < |e.operands| :: OrderedOperand(e.operands[i])
  }

  predicate OrderedOperand(o: Operand)
    decreases o
  {
    o.Group? ==> Ordered(o.exp)
  }

  function ConventionalValues<T>(a: Algebra<T>, os: seq<Operand>): (r: seq<T>)
    requires AllShaped(os)
    ensures |r| == |os|
    ensures forall i | 0 <= i < |os| :: r[i] == ConventionalOperand(a, os[i])
  {
    seq(|os|, i requires 0 <= i < |os| => ConventionalOperand(a, os[i]))
  }

  lemma {:induction false} ConventionalUnfolds<T>(a: Algebra<T>, e: SubExp)
    requires Shaped(e)
    ensures ConventionalValue(a, e) == Conventional(a, ConventionalValues(a, e.operands), e.operations)
  {
    assert seq(|e.operands|, i requires 0 <= i < |e.operands| => ConventionalOperand(a, e.operands[i]))
        == ConventionalValues(a, e.operands);
  }

  lemma {:induction false} OrderedFold<T>(a: Algebra<T>, vals: seq<T>, ops: seq<Op>)
    requires |vals| == |ops| + 1 && ProductsFirst(ops)
    ensures Conventional(a, vals, ops) == LeftFold(a, vals, ops)
    decreases |ops|
  {
    var k := LastSum(ops);
    if k >= 0 {
      assert IsSum(ops[|ops| - 1]);
      assert ProductsFirst(ops[..k]);
      OrderedFold(a, vals[..k + 1], ops[..k]);
      assert vals[k + 1..] == [vals[k + 1]] && ops[k + 1..] == [];
    }
  }

  lemma {:induction false} OrderedNeedsNoRegrouping<T>(a: Algebra<T>, e: SubExp)
    requires Shaped(e) && Ordered(e)
    ensures Calc(a, e) == ConventionalValue(a, e)
    decreases e
  {
    CalcUnfolds(a, e);
    ConventionalUnfolds(a, e);
    forall i | 0 <= i < |e.operands| ensures Value(a, e.operands[i]) == ConventionalOperand(a, e.operands[i]) {
      assert OrderedOperand(e.operands[i]);
      if e.operands[i].Group? { OrderedNeedsNoRegrouping(a, e.operands[i].exp); }
    }
    assert Values(a, e.operands) == ConventionalValues(a, e.operands);
    OrderedFold(a, Values(a, e.operands), e.operations);
  }

  /** In the free algebra the two ways to calculate agree only on equal operand values and ordered operators. */
  lemma {:induction false} FreeFoldsAgree(xs: seq<Tree>, ys: seq<Tree>, ops: seq<Op>)
    requires |xs| == |ys| == |ops| + 1 && LeftFold(Free(), xs, ops) == Conventional(Free(), ys, ops)
    ensures ProductsFirst(ops) && xs == ys
    decreases |ops|
  {
    var k, n := LastSum(ops), |ops| - 1;
    if ops == [] {
      assert xs == [xs[0]] && ys == [ys[0]];
    } else if k < 0 {
      FreeLeftFoldInjective(xs, ys, ops);
    } else {
      assert Free().apply(ops[n], LeftFold(Free(), xs[..n + 1], ops[..n]), xs[n + 1]).op == ops[n];
      assert k == n;
      FreeFoldsAgree(xs[..n + 1], ys[..n + 1], ops[..n]);
      assert ys[n + 1..] == [ys[n + 1]] && ops[n + 1..] == [];
      assert xs == xs[..n + 1] + [xs[n + 1]] && ys == ys[..n + 1] + [ys[n + 1]];
      SumsToTheEnd(ops);
    }
  }

  lemma {:induction false} SumsToTheEnd(ops: seq<Op>)
    requires ops != [] && ProductsFirst(ops[..|ops| - 1]) && IsSum(ops[|ops| - 1])
    ensures ProductsFirst(ops)
  {
    var n := |ops| - 1;
    forall i, j | 0 <= i < j < |ops| && IsSum(ops[i]) ensures IsSum(ops[j]) {
      if j < n { assert IsSum(ops[..n][i]) ==> IsSum(ops[..n][j]); }
    }
  }

  lemma {:induction false} FreeLeftFoldInjective(xs: seq<Tree>, ys: seq<Tree>, ops: seq<Op>)
    requires |xs| == |ys| == |ops| + 1 && LeftFold(Free(), xs, ops) == LeftFold(Free(), ys, ops)
    ensures xs == ys
    decreases |ops|
  {
    if ops == [] {
      assert xs == [xs[0]] && ys == [ys[0]];
    } else {
      var n := |ops| - 1;
      FreeLeftFoldInjective(xs[..n + 1], ys[..n + 1], ops[..n]);
      assert xs == xs[..n + 1] + [xs[n + 1]] && ys == ys[..n + 1] + [ys[n + 1]];
    }
  }

  lemma {:induction false} FreeAgreementIsOrdered(e: SubExp)
    requires Shaped(e) && Calc(Free(), e) == ConventionalValue(Free(), e)
    ensures Ordered(e)
    decreases e
  {
    CalcUnfolds(Free(), e);
    ConventionalUnfolds(Free(), e);
    var xs, ys := Values(Free(), e.operands), ConventionalValues(Free(), e.operands);
    FreeFoldsAgree(xs, ys, e.operations);
    forall i | 0 <= i < |e.operands| ensures OrderedOperand(e.operands[i]) {
      assert xs[i] == ys[i];
      if e.operands[i].Group? { FreeAgreementIsOrdered(e.operands[i].exp); }
    }
  }

  /** `MathExp::parse` does not regroup. Calculating the tree it leaves gives the conventional value for every
      meaning of the operators exactly when no `*` or `/` follows a `+` or `-` on the same level. */
  lemma {:induction false} LeftToRightIsConventionalIffOrdered(e: SubExp)
    requires Shaped(e)
    ensures Calc(Free(), e) == ConventionalValue(Free(), e) <==> Ordered(e)
  {
    if Ordered(e) { OrderedNeedsNoRegrouping(Free(), e); }
    if Calc(Free(), e) == ConventionalValue(Free(), e) { FreeAgreementIsOrdered(e); }
  }
}
