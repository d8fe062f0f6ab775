/** Any text the expression parser may be given, spaces and leading signs included: it reads what is left without the
    spaces, with 0.0 in front of every sign that begins the text or a bracket. */
module MathExpTidy {
  import opened Common
  import opened MathExp
  import opened MathExpParser
  import opened MathExpPrinting
  import opened MathExpLanguage

  predicate IsSign(c: char) {
    c == '+' || c == '-'
  }

  /** The text without spaces, with 0.0 in front of a sign at the start and directly behind an opening bracket. */
  function Tidy(t: string, start: bool): string
    decreases |t|
  {
    if t == "" then ""
    else if IsSpace(t[0]) then Tidy(t[1..], false)
    else (if start && IsSign(t[0]) then "0.0" else "") + [t[0]] + Tidy(t[1..], t[0] == '(')
  }

  /** Where a character stands: at the start of the text or a bracket, behind spaces at such a start, or elsewhere. */
  datatype Place = AtStart | Spaced | Inside

  /** No sign begins the text or a bracket behind spaces. */
  predicate Tight(t: string, p: Place)
    decreases |t|
  {
    t == "" ||
    if IsSpace(t[0]) then Tight(t[1..], if p == Inside then Inside else Spaced)
    else !(p == Spaced && IsSign(t[0])) && Tight(t[1..], if t[0] == '(' then AtStart else Inside)
  }

  lemma {:induction false} TightInside(t: string, p: Place)
    requires Tight(t, p)
    ensures Tight(t, Inside)
    decreases |t|
  {
    if t != "" && IsSpace(t[0]) { TightInside(t[1..], if p == Inside then Inside else Spaced); }
  }

  // ----- a parser at work sees only what is before it

  lemma {:induction false} FindCloseBehind(eq: string, n: nat, i: nat, lvl: nat)
    requires lvl >= 1 && n <= i && n <= |eq|
    ensures var r := FindClose(eq, i, lvl);
            FindClose(eq[n..], i - n, lvl) == if r.None? then None else Some(r.value - n)
    decreases |eq| - i
  {
    if i < |eq| {
      assert eq[n..][i - n] == eq[i];
      if eq[i] == '(' { FindCloseBehind(eq, n, i + 1, lvl + 1); }
      else if eq[i] != ')' { FindCloseBehind(eq, n, i + 1, lvl); }
      else if lvl > 1 { FindCloseBehind(eq, n, i + 1, lvl - 1); }
    }
  }

  lemma {:induction false} BracketBehind(env: Env, eq: string, s: Config, n: nat)
    requires n <= s.next && n <= |eq|
    ensures var r := WaitOperand(env, eq, s, '(');
            WaitOperand(env, eq[n..], s.(next := s.next - n), '(')
            == if r.None? then None else Some(r.value.(next := r.value.next - n))
    ensures var r := WaitOperand(env, eq, s, '(');
            r.Some? ==> r.value.next > s.next
  {
    FindCloseBehind(eq, n, s.next, 1);
    if FindClose(eq, s.next, 1).Some? {
      var k := FindClose(eq, s.next, 1).value;
      assert eq[n..][s.next - n..k - n] == eq[s.next..k];
    }
  }

  lemma {:induction false} CharBehind(env: Env, eq: string, s: Config, c: char, n: nat)
    requires n <= s.next && n <= |eq|
    ensures var r := ParseChar(env, eq, s, c);
            ParseChar(env, eq[n..], s.(next := s.next - n), c)
            == if r.None? then None else Some(r.value.(next := r.value.next - n))
  {
    if s.state == WAIT_OPERAND && c == '(' { BracketBehind(env, eq, s, n); }
  }

  lemma {:induction false} ContinueBehind(env: Env, eq: string, s: Config, n: nat)
    requires n <= s.next && n <= |eq|
    ensures Continue(env, eq, s) == Continue(env, eq[n..], s.(next := s.next - n))
    decreases Remaining(eq, s.next), Rank(s.state)
  {
    var c := CharAt(eq, s.next);
    var t, behind := s.(next := s.next + 1), s.(next := s.next - n);
    CharAtBehind(eq, n, s.next);
    assert t.(next := t.next - n) == behind.(next := behind.next + 1);
    if IsSpace(c) {
      ContinueBehind(env, eq, t, n);
    } else {
      CharBehind(env, eq, t, c, n);
      CharMoves(env, eq, s, c);
      CharMoves(env, eq[n..], behind, c);
      var r := ParseChar(env, eq, t, c);
      if s.state != END_OF_PARSING && r.Some? { ContinueBehind(env, eq, r.value, n); }
    }
  }

  /** One turn of the loop. */
  lemma {:induction false} CharMoves(env: Env, eq: string, s: Config, c: char)
    requires CharAt(eq, s.next) == c && !IsSpace(c)
    ensures var r := ParseChar(env, eq, s.(next := s.next + 1), c);
            Continue(env, eq, s) == if r.None? then None
                                    else if s.state == END_OF_PARSING then Some(SubExp(s.operands, s.operations))
                                    else Continue(env, eq, r.value)
  {
  }

  lemma {:induction false} CharAtBehind(eq: string, n: nat, i: nat)
    requires n <= i && n <= |eq|
    ensures CharAt(eq[n..], i - n) == CharAt(eq, i)
  {
  }

  // ----- brackets of the tidy text

  function LevelAfter(c: char, lvl: nat): nat {
    if c == '(' then lvl + 1 else if c == ')' && lvl > 0 then lvl - 1 else lvl
  }

  function Shifted(r: Option<nat>, n: nat): Option<nat> {
    if r.None? then None else Some(r.value + n)
  }

  lemma {:induction false} FindCloseHead(t: string, lvl: nat)
    requires lvl >= 1 && t != "" && LevelAfter(t[0], lvl) >= 1
    ensures FindClose(t, 0, lvl) == Shifted(FindClose(t[1..], 0, LevelAfter(t[0], lvl)), 1)
  {
    FindCloseBehind(t, 1, 1, LevelAfter(t[0], lvl));
  }

  lemma {:induction false} FindCloseBehindZero(t: string, lvl: nat)
    requires lvl >= 1
    ensures FindClose("0.0" + t, 0, lvl) == Shifted(FindClose(t, 0, lvl), 3)
  {
    var z := "0.0" + t;
    assert z[0] == '0' && z[1] == '.' && z[2] == '0' && z[3..] == t;
    assert FindClose(z, 0, lvl) == FindClose(z, 1, lvl) == FindClose(z, 2, lvl) == FindClose(z, 3, lvl);
    FindCloseBehind(z, 3, 3, lvl);
  }

  function Zero(start: bool, c: char): string {
    if start && IsSign(c) then "0.0" else ""
  }

  lemma {:induction false} FindCloseOneMore(start: bool, c: char, rest: string, lvl: nat)
    requires lvl >= 1 && LevelAfter(c, lvl) >= 1
    ensures FindClose(Zero(start, c) + [c] + rest, 0, lvl)
            == Shifted(FindClose(rest, 0, LevelAfter(c, lvl)), |Zero(start, c)| + 1)
  {
    var t := [c] + rest;
    assert t[1..] == rest;
    FindCloseHead(t, lvl);
    assert Zero(start, c) + [c] + rest == Zero(start, c) + t;
    if Zero(start, c) == "" { assert "" + t == t; } else { FindCloseBehindZero(t, lvl); }
  }

  lemma {:induction false} FourParts(a: string, b: string, c: string, d: string)
    ensures a + (b + c + d) == a + b + c + d
  {
  }

  lemma {:induction false} TidyStep(t: string, start: bool)
    requires t != "" && !IsSpace(t[0])
    ensures Tidy(t, start) == Zero(start, t[0]) + [t[0]] + Tidy(t[1..], t[0] == '(')
  {
  }

  /** The bracket that closes a level closes it in the tidy text too, with the tidy parts on both sides. */
  ghost predicate ClosesAlike(t: string, start: bool, lvl: nat)
    requires lvl >= 1
  {
    var r := FindClose(t, 0, lvl);
    if r.None? then FindClose(Tidy(t, start), 0, lvl) == None
    else
      var a, b := Tidy(t[..r.value], start), Tidy(t[r.value + 1..], false);
      FindClose(Tidy(t, start), 0, lvl) == Some(|a|) && Tidy(t, start) == a + ")" + b
  }

  lemma {:induction false} FindCloseTidy(t: string, start: bool, lvl: nat)
    requires lvl >= 1
    ensures ClosesAlike(t, start, lvl)
    decreases |t|
  {
    if t != "" {
      var l := LevelAfter(t[0], lvl);
      if l == 0 {
        TidyStep(t, start);
        assert t[..0] == "" && Tidy(t, start) == "" + ")" + Tidy(t[1..], false);
      } else {
        FindCloseTidy(t[1..], !IsSpace(t[0]) && t[0] == '(', l);
        if IsSpace(t[0]) { ClosesBehindSpace(t, start, lvl); } else { ClosesBehind(t, start, lvl); }
      }
    }
  }

  lemma {:induction false} ClosesBehindSpace(t: string, start: bool, lvl: nat)
    requires lvl >= 1 && t != "" && IsSpace(t[0]) && ClosesAlike(t[1..], false, lvl)
    ensures ClosesAlike(t, start, lvl)
  {
    FindCloseHead(t, lvl);
    var r := FindClose(t[1..], 0, lvl);
    if r.Some? { TidyFront(t, start, r.value); }
  }

  lemma {:induction false} ClosesBehind(t: string, start: bool, lvl: nat)
    requires lvl >= 1 && t != "" && !IsSpace(t[0]) && LevelAfter(t[0], lvl) >= 1
    requires ClosesAlike(t[1..], t[0] == '(', LevelAfter(t[0], lvl))
    ensures ClosesAlike(t, start, lvl)
  {
    FindCloseHead(t, lvl);
    TidyStep(t, start);
    FindCloseOneMore(start, t[0], Tidy(t[1..], t[0] == '('), lvl);
    var r := FindClose(t[1..], 0, LevelAfter(t[0], lvl));
    if r.Some? { TidyFront(t, start, r.value); }
  }

  /** The tidy text cut behind a part that is not empty. */
  lemma {:induction false} TidyFront(t: string, start: bool, k: nat)
    requires t != "" && k < |t| - 1
    requires Tidy(t[1..], !IsSpace(t[0]) && t[0] == '(')
             == Tidy(t[1..][..k], !IsSpace(t[0]) && t[0] == '(') + ")" + Tidy(t[1..][k + 1..], false)
    ensures Tidy(t, start) == Tidy(t[..k + 1], start) + ")" + Tidy(t[k + 2..], false)
    ensures |Tidy(t[..k + 1], start)| == |Tidy(t[1..][..k], !IsSpace(t[0]) && t[0] == '(')|
                                         + if IsSpace(t[0]) then 0 else |Zero(start, t[0])| + 1
  {
    var c, next := t[0], t[1..];
    assert t[..k + 1][0] == c && t[..k + 1][1..] == next[..k] && t[k + 2..] == next[k + 1..];
    if !IsSpace(c) {
      TidyStep(t, start);
      TidyStep(t[..k + 1], start);
      FourParts(Zero(start, c) + [c], Tidy(next[..k], c == '('), ")", Tidy(next[k + 1..], false));
    }
  }

  // ----- the parser on a text and on the tidy text

  /** A bracket, its content and what follows it. */
  lemma {:induction false} ContinueBracket(env: Env, t: string, s: Config, inner: string, rest: string)
    requires s.next == 0 && s.state == WAIT_OPERAND && t == "(" + inner + ")" + rest
    requires FindClose(t, 1, 1) == Some(|inner| + 1)
    ensures Continue(env, t, s)
            == if inner == "" || ParseExp(env, inner).None? then None
               else
                 var g := Group(ParseExp(env, inner).value);
                 Continue(env, rest, s.(operands := s.operands + [g], state := WAIT_SIMPLE_OPERATION))
  {
    assert t[0] == '(' && t[1..|inner| + 1] == inner && t[|inner| + 2..] == rest;
    var r := WaitOperand(env, t, s.(next := 1), '(');
    assert ParseChar(env, t, s.(next := 1), '(') == r;
    if r.Some? { ContinueBehind(env, t, r.value, |inner| + 2); }
  }

  lemma {:induction false} ContinueUnclosed(env: Env, t: string, s: Config)
    requires s.next == 0 && s.state == WAIT_OPERAND && t != "" && t[0] == '(' && FindClose(t, 1, 1) == None
    ensures Continue(env, t, s) == None
  {
    assert ParseChar(env, t, s.(next := 1), '(') == None;
  }

  lemma {:induction false} TightParts(t: string, p: Place, k: nat)
    requires k < |t| && t[k] == ')'
    ensures Tight(t, p) <==> Tight(t[..k], p) && Tight(t[k + 1..], Inside)
    decreases |t|
  {
    if k > 0 {
      var next := t[1..];
      assert next[..k - 1] == t[..k][1..] && next[k..] == t[k + 1..];
      if IsSpace(t[0]) { TightParts(next, if p == Inside then Inside else Spaced, k - 1); }
      else { TightParts(next, if t[0] == '(' then AtStart else Inside, k - 1); }
    } else {
      assert t[..0] == "";
    }
  }

  lemma {:induction false} BracketText(t: string, k: nat)
    requires t != "" && t[0] == '(' && FindClose(t[1..], 0, 1) == Some(k)
    ensures k + 1 < |t| && t[k + 1] == ')' && t == "(" + t[1..][..k] + ")" + t[1..][k + 1..]
    ensures FindClose(t, 1, 1) == Some(k + 1)
  {
    FindCloseBehind(t, 1, 1, 1);
    FindCloseIsBracket(t, 1, 1);
  }

  lemma {:induction false} TidyBracket(env: Env, t: string, s: Config)
    requires s.next == 0 && s.state == WAIT_OPERAND && t != "" && t[0] == '(' && Tight(t, Inside) && env.isNumber("0.0")
    ensures Continue(env, t, s) == Continue(env, Tidy(t, false), s)
    decreases |t|, 1
  {
    var u, r := Tidy(t, false), FindClose(t[1..], 0, 1);
    if r.None? {
      TidyUnclosed(t);
      ContinueUnclosed(env, t, s);
      ContinueUnclosed(env, u, s);
    } else {
      var inner, rest := t[1..][..r.value], t[1..][r.value + 1..];
      BracketText(t, r.value);
      TidyBracketText(t, r.value);
      TightParts(t[1..], AtStart, r.value);
      TidyClosed(env, t, u, s, inner, rest);
    }
  }

  lemma {:induction false} TidyOpens(t: string)
    requires t != "" && t[0] == '('
    ensures Tidy(t, false) == "(" + Tidy(t[1..], true) && Tidy(t, false)[1..] == Tidy(t[1..], true)
    ensures FindClose(Tidy(t, false), 1, 1) == Shifted(FindClose(Tidy(t[1..], true), 0, 1), 1)
  {
    TidyStep(t, false);
    assert Tidy(t, false) == "(" + Tidy(t[1..], true);
    FindCloseBehind(Tidy(t, false), 1, 1, 1);
  }

  lemma {:induction false} TidyUnclosed(t: string)
    requires t != "" && t[0] == '(' && FindClose(t[1..], 0, 1) == None
    ensures FindClose(t, 1, 1) == None && FindClose(Tidy(t, false), 1, 1) == None
    ensures Tidy(t, false) != "" && Tidy(t, false)[0] == '('
  {
    TidyOpens(t);
    FindCloseTidy(t[1..], true, 1);
    FindCloseBehind(t, 1, 1, 1);
  }

  lemma {:induction false} TidyBracketText(t: string, k: nat)
    requires t != "" && t[0] == '(' && FindClose(t[1..], 0, 1) == Some(k)
    ensures var a, b := Tidy(t[1..][..k], true), Tidy(t[1..][k + 1..], false);
            Tidy(t, false) == "(" + a + ")" + b && FindClose(Tidy(t, false), 1, 1) == Some(|a| + 1)
  {
    TidyOpens(t);
    FindCloseTidy(t[1..], true, 1);
    FourParts("(", Tidy(t[1..][..k], true), ")", Tidy(t[1..][k + 1..], false));
  }

  lemma {:induction false} TidyClosed(env: Env, t: string, u: string, s: Config, inner: string, rest: string)
    requires s.next == 0 && s.state == WAIT_OPERAND && env.isNumber("0.0")
    requires Tight(inner, AtStart) && Tight(rest, Inside)
    requires t == "(" + inner + ")" + rest && FindClose(t, 1, 1) == Some(|inner| + 1)
    requires u == "(" + Tidy(inner, true) + ")" + Tidy(rest, false)
    requires FindClose(u, 1, 1) == Some(|Tidy(inner, true)| + 1)
    ensures Continue(env, t, s) == Continue(env, u, s)
    decreases |inner| + |rest| + 2, 0
  {
    ContinueBracket(env, t, s, inner, rest);
    ContinueBracket(env, u, s, Tidy(inner, true), Tidy(rest, false));
    if inner != "" {
      TidyParses(env, inner);
      if ParseExp(env, inner).Some? {
        var g := Group(ParseExp(env, inner).value);
        TidyContinues(env, rest, s.(operands := s.operands + [g], state := WAIT_SIMPLE_OPERATION));
      }
    }
  }

  /** 0.0 in front of a sign is read as the parser reads the sign alone. */
  lemma {:induction false} ZeroIsRead(env: Env, c: char, rest: string)
    requires IsSign(c) && env.isNumber("0.0")
    ensures ParseExp(env, "0.0" + [c] + rest)
            == Continue(env, rest, Config(0, WAIT_OPERAND, "", [Num("0.0")], [if c == '-' then Subtr else Add]))
  {
    var eq, zero := "0.0" + [c] + rest, "0.0";
    var s := Config(0, WAIT_OPERAND, "", [], []);
    assert eq[0] == '0' && eq[1] == '.' && eq[2] == '0' && eq[3] == c && eq[4..] == rest;
    var s1, s2 := Config(1, READ_NUM, "0", [], []), Config(2, READ_NUM_WAS_DOT, "0.", [], []);
    var s3 := Config(3, READ_NUM_WAS_DOT, "0.0", [], []);
    var s4 := Config(4, WAIT_OPERAND, "", [Num("0.0")], [OpOf(c)]);
    assert "" + ['0'] == "0" && "0" + ['.'] == "0." && "0." + ['0'] == "0.0";
    OneChar(env, eq, s, s1);
    OneChar(env, eq, s1, s2);
    OneChar(env, eq, s2, s3);
    assert [] + [Num("0.0")] == [Num("0.0")] && [] + [OpOf(c)] == [OpOf(c)];
    OneChar(env, eq, s3, s4);
    ContinueBehind(env, eq, s4, 4);
  }

  /** The tidy text is parsed to the same tree; a text of spaces alone is refused. */
  lemma {:induction false} TidyParses(env: Env, eq: string)
    requires eq != "" && Tight(eq, AtStart) && env.isNumber("0.0")
    ensures ParseExp(env, eq) == if Tidy(eq, true) == "" then None else ParseExp(env, Tidy(eq, true))
    decreases |eq|, 3
  {
    var s := Config(0, WAIT_OPERAND, "", [], []);
    if IsSign(eq[0]) {
      var r := Config(0, WAIT_OPERAND, "", [Num("0.0")], [if eq[0] == '-' then Subtr else Add]);
      assert Start(eq) == r.(next := 1);
      ContinueBehind(env, eq, Start(eq), 1);
      TidyContinues(env, eq[1..], r);
      TidyStep(eq, true);
      ZeroIsRead(env, eq[0], Tidy(eq[1..], false));
    } else {
      TightInside(eq, AtStart);
      TidyIsSame(eq);
      TidyContinues(env, eq, s);
      TidyStart(eq, AtStart);
    }
  }

  lemma {:induction false} TidyIsSame(eq: string)
    requires eq != "" && !IsSign(eq[0])
    ensures Tidy(eq, true) == Tidy(eq, false)
  {
  }

  lemma {:induction false} TidyStart(eq: string, p: Place)
    requires eq != "" && !IsSign(eq[0]) && Tight(eq, p) && p != Inside
    ensures Tidy(eq, false) != "" ==> !IsSign(Tidy(eq, false)[0])
    decreases |eq|
  {
    if IsSpace(eq[0]) && eq[1..] != "" { TidyStart(eq[1..], Spaced); } else if !IsSpace(eq[0]) { TidyStep(eq, false); }
  }

  /** Only an opening bracket makes the parser look at the text. */
  lemma {:induction false} CharAlone(env: Env, t: string, u: string, s: Config, c: char)
    requires s.state != WAIT_OPERAND || c != '('
    ensures ParseChar(env, t, s, c) == ParseChar(env, u, s, c)
    ensures s.state != END_OF_PARSING && c == '(' ==> ParseChar(env, t, s, c) == None
    ensures ParseChar(env, t, s, c).Some? ==> ParseChar(env, t, s, c).value.next == s.next
  {
  }

  /** From any state the rest of a text is read as the rest of the tidy text. */
  lemma {:induction false} TidyContinues(env: Env, t: string, s: Config)
    requires s.next == 0 && Tight(t, Inside) && env.isNumber("0.0")
    ensures Continue(env, t, s) == Continue(env, Tidy(t, false), s)
    decreases |t|, 2
  {
    if t != "" {
      var c, next := t[0], t[1..];
      if IsSpace(c) {
        ContinueBehind(env, t, s.(next := 1), 1);
        TidyContinues(env, next, s);
      } else {
        TidyStep(t, false);
        var u := Tidy(t, false);
        assert u == [c] + Tidy(next, c == '(') && u[0] == c && u[1..] == Tidy(next, c == '(');
        if s.state == WAIT_OPERAND && c == '(' {
          TidyBracket(env, t, s);
        } else if s.state != END_OF_PARSING {
          var r := ParseChar(env, t, s.(next := 1), c);
          CharAlone(env, t, u, s.(next := 1), c);
          if r.Some? {
            assert r.value.next == 1 && c != '(';
            ContinueBehind(env, t, r.value, 1);
            ContinueBehind(env, u, r.value, 1);
            TidyContinues(env, next, r.value.(next := 0));
          }
        }
      }
    }
  }

  // ----- a sign behind spaces

  /** A text without zero characters in which a sign begins the text or a bracket behind spaces is refused. */
  lemma {:induction false} LooseContinues(env: Env, t: string, s: Config)
    requires s.next == 0 && s.state != END_OF_PARSING && ZeroFree(t) && !Tight(t, Inside)
    ensures Continue(env, t, s) == None
    decreases |t|, 1
  {
    var c, next := t[0], t[1..];
    if IsSpace(c) {
      ContinueBehind(env, t, s.(next := 1), 1);
      LooseContinues(env, next, s);
    } else if s.state == WAIT_OPERAND && c == '(' {
      LooseBracket(env, t, s);
    } else {
      CharAlone(env, t, t, s.(next := 1), c);
      var r := ParseChar(env, t, s.(next := 1), c);
      if r.Some? {
        ContinueBehind(env, t, r.value, 1);
        LooseContinues(env, next, r.value.(next := 0));
      }
    }
  }

  lemma {:induction false} LooseBracket(env: Env, t: string, s: Config)
    requires s.next == 0 && s.state == WAIT_OPERAND && t != "" && t[0] == '(' && ZeroFree(t) && !Tight(t, Inside)
    ensures Continue(env, t, s) == None
    decreases |t|, 0
  {
    var next := t[1..];
    FindCloseBehind(t, 1, 1, 1);
    var r := FindClose(next, 0, 1);
    if r.None? {
      ContinueUnclosed(env, t, s);
    } else {
      var inner, rest := next[..r.value], next[r.value + 1..];
      BracketText(t, r.value);
      TightParts(next, AtStart, r.value);
      ContinueBracket(env, t, s, inner, rest);
      if !Tight(inner, AtStart) {
        LooseIsRefused(env, inner);
      } else if inner != "" && ParseExp(env, inner).Some? {
        var g := Group(ParseExp(env, inner).value);
        LooseContinues(env, rest, s.(operands := s.operands + [g], state := WAIT_SIMPLE_OPERATION));
      }
    }
  }

  lemma {:induction false} LooseIsRefused(env: Env, eq: string)
    requires ZeroFree(eq) && !Tight(eq, AtStart)
    ensures eq != "" && ParseExp(env, eq) == None
    decreases |eq|, 3
  {
    var s := Config(0, WAIT_OPERAND, "", [], []);
    if IsSign(eq[0]) {
      ContinueBehind(env, eq, Start(eq), 1);
      LooseContinues(env, eq[1..], Start(eq).(next := 0));
    } else {
      LooseStart(env, eq, AtStart, s);
    }
  }

  lemma {:induction false} LooseStart(env: Env, t: string, p: Place, s: Config)
    requires s == Config(0, WAIT_OPERAND, "", [], []) && ZeroFree(t) && !Tight(t, p) && p != Inside
    requires p == AtStart ==> !IsSign(t[0])
    ensures Continue(env, t, s) == None
    decreases |t|, 2
  {
    if IsSpace(t[0]) {
      ContinueBehind(env, t, s.(next := 1), 1);
      LooseStart(env, t[1..], Spaced, s);
    } else if IsSign(t[0]) {
      assert ParseChar(env, t, s.(next := 1), t[0]) == None;
    } else {
      LooseContinues(env, t, s);
    }
  }

  // ----- the whole language

  ghost predicate NoPlusBehindExponent(t: string) {
    forall i | 0 <= i < |t| && t[i] == '+' :: !BehindExponent(t, i)
  }

  /** No spaces, no zero characters, and no sign at the start or behind an opening bracket. */
  lemma {:induction false} TidyAt(t: string, p: Place, i: nat)
    requires ZeroFree(t) && Tight(t, p) && i < |Tidy(t, p == AtStart)|
    ensures var u := Tidy(t, p == AtStart);
            && !IsSpace(u[i]) && u[i] != '\0'
            && (IsSign(u[i]) ==> if i == 0 then p == Inside else u[i - 1] != '(')
    decreases |t|
  {
    if IsSpace(t[0]) {
      TidyAt(t[1..], if p == Inside then Inside else Spaced, i);
    } else {
      var z, next := Zero(p == AtStart, t[0]), Tidy(t[1..], t[0] == '(');
      TidyStep(t, p == AtStart);
      var n := |z| + 1;
      assert Tidy(t, p == AtStart)[|z|] == t[0];
      if i >= n {
        assert Tidy(t, p == AtStart)[i] == next[i - n];
        if i > n { assert Tidy(t, p == AtStart)[i - 1] == next[i - n - 1]; }
        TidyAt(t[1..], if t[0] == '(' then AtStart else Inside, i - n);
      } else if i < |z| {
        assert Tidy(t, p == AtStart)[i] == z[i];
      }
    }
  }

  lemma {:induction false} TidyIsPlain(eq: string)
    requires ZeroFree(eq) && Tight(eq, AtStart) && NoPlusBehindExponent(Tidy(eq, true))
    ensures Plain(Tidy(eq, true))
  {
    forall i | 0 <= i < |Tidy(eq, true)| ensures PlainAt(Tidy(eq, true), i) {
      TidyAt(eq, AtStart, i);
    }
  }

  /** What the parser accepts: a text in which no sign begins the text or a bracket behind spaces, and whose tidy form
      is a printed expression; that expression is the result. */
  lemma {:induction false} AcceptedIffTidyPrinted(env: Env, eq: string, e: SubExp)
    requires eq != "" && ZeroFree(eq) && env.isNumber("0.0") && NoPlusBehindExponent(Tidy(eq, true))
    ensures ParseExp(env, eq) == Some(e)
            <==> Tight(eq, AtStart) && Printable(env, e) && Shaped(e) && Print(e) == Tidy(eq, true)
  {
    if !Tight(eq, AtStart) {
      LooseIsRefused(env, eq);
    } else {
      TidyIsPlain(eq);
      TidyParses(env, eq);
      if Tidy(eq, true) != "" {
        AcceptedIffPrinted(env, Tidy(eq, true), e);
      } else if Printable(env, e) && Shaped(e) {
        PrintStart(env, e);
      }
    }
  }

  // ----- signs and spaces by themselves

  /** A sign in front of an expression is an operation of that sign on 0.0. */
  lemma {:induction false} SignedParses(env: Env, e: SubExp, minus: bool)
    requires Printable(env, e) && env.isNumber("0.0")
    ensures Shaped(e)
    ensures ParseExp(env, (if minus then "-" else "+") + Print(e))
            == Some(SubExp([Num("0.0")] + e.operands, [if minus then Subtr else Add] + e.operations))
  {
    var sign := if minus then '-' else '+';
    var f := SubExp([Num("0.0")] + e.operands, [if minus then Subtr else Add] + e.operations);
    WritableShaped(env, e);
    SignedIsPrinted(env, e, f, sign);
    ZeroIsRead(env, sign, Print(e));
    PrintParses(env, f);
    var eq := [sign] + Print(e);
    assert eq[1..] == Print(e);
    ContinueBehind(env, eq, Start(eq), 1);
  }

  lemma {:induction false} SignedIsPrinted(env: Env, e: SubExp, f: SubExp, sign: char)
    requires Printable(env, e) && Shaped(e) && env.isNumber("0.0") && IsSign(sign)
    requires f == SubExp([Num("0.0")] + e.operands, [if sign == '-' then Subtr else Add] + e.operations)
    ensures Printable(env, f) && Shaped(f) && Print(f) == "0.0" + [sign] + Print(e)
  {
    forall i | 0 <= i < |f.operands|
      ensures WritableOperand(env, f.operands[i]) && ExponentsEndIn(f.operands[i]) && ShapedOperand(f.operands[i])
      ensures i < |f.operands| - 1 ==> !IsUnsigned(f.operands[i])
    {
      if i == 0 { ZeroIsLiteral(); } else { assert f.operands[i] == e.operands[i - 1]; }
    }
    PrintFromShifted(e, f, 0);
    assert [OpChar(f.operations[0])] == [sign] && PrintOperand(f.operands[0]) == "0.0";
    assert Print(f) == PrintFrom(f, 0) == "0.0" + ([sign] + PrintFrom(f, 1));
    assert PrintFrom(f, 1) == Print(e);
  }

  lemma {:induction false} ZeroIsLiteral()
    ensures LiteralState("0.0") == Some(READ_NUM_WAS_DOT)
  {
    assert "0.0"[1..] == ".0" && ".0"[1..] == "0" && "0"[1..] == "";
  }

  lemma {:induction false} PrintFromShifted(e: SubExp, f: SubExp, k: nat)
    requires Shaped(e) && Shaped(f) && k <= |e.operations| && |f.operations| == |e.operations| + 1
    requires f.operands[1..] == e.operands && f.operations[1..] == e.operations
    ensures PrintFrom(f, k + 1) == PrintFrom(e, k)
    decreases |e.operations| - k
  {
    assert f.operands[k + 1] == f.operands[1..][k];
    if k < |e.operations| {
      assert f.operations[k + 1] == f.operations[1..][k];
      PrintFromShifted(e, f, k + 1);
    }
  }

  /** The same in a bracket, at any place of the text: the operand is the group of that expression. */
  lemma {:induction false} SignedInBracket(env: Env, e: SubExp, minus: bool, s: Config, rest: string)
    requires Printable(env, e) && env.isNumber("0.0") && s.next == 0 && s.state == WAIT_OPERAND
    ensures Shaped(e)
    ensures var f := SubExp([Num("0.0")] + e.operands, [if minus then Subtr else Add] + e.operations);
            Continue(env, "(" + ((if minus then "-" else "+") + Print(e)) + ")" + rest, s)
            == Continue(env, rest, s.(operands := s.operands + [Group(f)], state := WAIT_SIMPLE_OPERATION))
  {
    WritableShaped(env, e);
    var inner := (if minus then "-" else "+") + Print(e);
    SignedParses(env, e, minus);
    CloseOfPrinted(env, e, inner, rest);
    ContinueBracket(env, "(" + inner + ")" + rest, s, inner, rest);
  }

  lemma {:induction false} CloseOfPrinted(env: Env, e: SubExp, inner: string, rest: string)
    requires Printable(env, e) && Shaped(e) && inner in {"-" + Print(e), "+" + Print(e)}
    ensures FindClose("(" + inner + ")" + rest, 1, 1) == Some(|inner| + 1)
  {
    var eq, n := "(" + inner + ")" + rest, |Print(e)|;
    assert eq[1] == inner[0] && eq[2..2 + n] == Print(e) && eq[2 + n] == ')';
    assert At(eq, 2, PrintFrom(e, 0));
    FindCloseSkipsList(env, eq, 2, e, 0, 1);
  }
}
