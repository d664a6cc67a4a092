/** What expressions come to, in arithmetic of the reader's own: each operator, the order in which
    operators apply, and the choice of a branch. */
module MacroLaws {
  import opened Arith
  import opened Options
  import opened MacroEval
  import opened MacroText
  import opened MacroParse
  import opened MacroTokens

  /** An operator between two numbers. */
  function Apply(op: Op, a: int, b: int, env: Env): Option<int> { Eval(Plain(Binary(op, Num(a), Num(b))), env) }

  lemma Within(a: int, look: Lookup)
    ensures ValueWithin(Num(a), look) == Some(a)
  {}

  lemma Literals(op: Op, a: int, b: int, env: Env)
    ensures Eval(Plain(Binary(op, Num(a), Num(b))), env) == Compute(op, a, b)
  {
    hide Compute;
    var t := Binary(op, Num(a), Num(b));
    SameLookup(Plain(t), env);
    Within(a, Own(env));
    Within(b, Own(env));
    assert ValueWithin(t, Own(env)) == Compute(op, a, b);
    assert ValueAlone(t, Own(env)) == ValueWithin(t, Own(env));
  }

  lemma SameLookup(e: Expr, env: Env)
    ensures Eval(e, env) == Value(e, Own(env))
  {
    ValueSame(e, n => Resolve(n, env), Own(env));
  }

  // ---------- Each operator ----------

  lemma SumsAndProducts(a: int, b: int, env: Env)
    ensures Eval(Plain(Binary(Add, Num(a), Num(b))), env) == Some(a + b)
    ensures Eval(Plain(Binary(Sub, Num(a), Num(b))), env) == Some(a - b)
    ensures Eval(Plain(Binary(Mul, Num(a), Num(b))), env) == Some(a * b)
  {
    Literals(Add, a, b, env);
    Literals(Sub, a, b, env);
    Literals(Mul, a, b, env);
  }

  /** The quotient is the only number whose remainder is smaller than the divisor and has its sign;
      there is none exactly for the divisor 0. */
  lemma Quotients(a: int, b: int, q: int, env: Env)
    ensures var r := a - q * b;
      Eval(Plain(Binary(FloorDiv, Num(a), Num(b))), env) == Some(q) <==> 0 <= r < b || b < r <= 0
  {
    Literals(FloorDiv, a, b, env);
    if b != 0 {
      FloorRoundsDown(a, b);
      OneQuotient(a, b, Floor(a, b), q);
    }
  }

  lemma OneQuotient(a: int, b: int, p: int, q: int)
    requires 0 <= a - p * b < b || b < a - p * b <= 0
    ensures 0 <= a - q * b < b || b < a - q * b <= 0 <==> p == q
  {
    if p != q {
      var d := p - q;
      assert a - q * b == a - p * b + d * b;
      if d >= 1 && b > 0 { assert d * b >= b; }
      if d <= -1 && b > 0 { assert d * b <= -b; }
      if d >= 1 && b < 0 { assert d * b <= b; }
      if d <= -1 && b < 0 { assert d * b >= -b; }
    }
  }

  /** A shift by one more doubles, or halves and rounds down; by less than nothing there is none. */
  lemma Shifts(a: int, b: nat, env: Env)
    ensures Apply(Shl, a, 0, env) == Some(a) && Apply(Shr, a, 0, env) == Some(a)
    ensures Apply(Shl, a, b, env).Some? && Apply(Shl, a, b + 1, env) == Some(2 * Apply(Shl, a, b, env).value)
    ensures Apply(Shr, a, b, env).Some? && Apply(Shr, a, b + 1, env).Some?
    ensures var x, y := Apply(Shr, a, b, env).value, Apply(Shr, a, b + 1, env).value; 2 * y <= x <= 2 * y + 1
    ensures Apply(Shl, a, -1 - b, env) == None && Apply(Shr, a, -1 - b, env) == None
  {
    hide Floor, Eval;
    forall n | n == 0 || n == b || n == b + 1 || n == -1 - b
      ensures Apply(Shl, a, n, env) == Compute(Shl, a, n) && Apply(Shr, a, n, env) == Compute(Shr, a, n)
    {
      Literals(Shl, a, n, env);
      Literals(Shr, a, n, env);
    }
    var p := Pow2(b);
    assert Pow2(b + 1) == 2 * p;
    assert a * (2 * p) == 2 * (a * p);
    FloorRoundsDown(a, p);
    FloorRoundsDown(a, 2 * p);
    FloorRoundsDown(a, 1);
    assert Pow2(0) == 1;
    HalfQuotient(a, p, Floor(a, p), Floor(a, 2 * p));
  }

  lemma HalfQuotient(a: int, p: nat, x: int, y: int)
    requires p >= 1 && 0 <= a - x * p < p && 0 <= a - y * (2 * p) < 2 * p
    ensures 2 * y <= x <= 2 * y + 1
  {
    assert y * (2 * p) == (2 * y) * p;
    MulDistributes(x, 1, p);
    MulDistributes(2 * y, 2, p);
    SmallerFactor(2 * y, x + 1, p);
    SmallerFactor(x, 2 * y + 2, p);
  }

  lemma SmallerFactor(m: int, n: int, p: nat)
    requires m * p < n * p
    ensures m < n
  {
    if m >= n {
      MulNonNegative(m - n, p);
      MulDistributes(m - n, n, p);
    }
  }

  lemma Comparisons(a: int, b: int, env: Env)
    ensures Eval(Plain(Binary(Lt, Num(a), Num(b))), env) == Some(if a < b then 1 else 0)
    ensures Eval(Plain(Binary(Le, Num(a), Num(b))), env) == Some(if a <= b then 1 else 0)
    ensures Eval(Plain(Binary(Gt, Num(a), Num(b))), env) == Some(if a > b then 1 else 0)
    ensures Eval(Plain(Binary(Ge, Num(a), Num(b))), env) == Some(if a >= b then 1 else 0)
    ensures Eval(Plain(Binary(Eq, Num(a), Num(b))), env) == Some(if a == b then 1 else 0)
  {
    hide Eval;
    Literals(Lt, a, b, env);
    Literals(Le, a, b, env);
    Literals(Gt, a, b, env);
    Literals(Ge, a, b, env);
    Literals(Eq, a, b, env);
  }

  lemma Signs(a: int, env: Env)
    ensures Eval(Plain(Num(a)), env) == Some(a)
    ensures Eval(Plain(Negate(Num(a))), env) == Some(-a) && Eval(Plain(Positive(Num(a))), env) == Some(a)
  {
    var look := Own(env);
    Within(a, look);
    SameLookup(Plain(Num(a)), env);
    SameLookup(Plain(Negate(Num(a))), env);
    SameLookup(Plain(Positive(Num(a))), env);
    assert ValueWithin(Negate(Num(a)), look) == Some(-a) && ValueWithin(Positive(Num(a)), look) == Some(a);
    assert ValueAlone(Num(a), look) == Some(a);
  }

  /** A conditional is its first branch exactly when its test is not 0. */
  lemma Branches(n: int, yes: Term, no: Term, env: Env)
    ensures Eval(Choose(Num(n), yes, no), env) == if n == 0 then Eval(Plain(no), env) else Eval(Plain(yes), env)
  {
    Within(n, Own(env));
    SameLookup(Plain(yes), env);
    SameLookup(Plain(no), env);
    SameLookup(Choose(Num(n), yes, no), env);
    assert ValueAlone(Num(n), Own(env)) == Some(n);
  }

  /** An operator between any operands works on the values that the operands have in arithmetic: it
      is the operator between those numbers, and none if an operand has none. */
  lemma Operands(op: Op, left: Term, right: Term, env: Env)
    requires !Chained(op, left, right)
    ensures var x, y := Eval(Plain(Positive(left)), env), Eval(Plain(Positive(right)), env);
      Eval(Plain(Binary(op, left, right)), env)
      == if x.None? || y.None? then None else Apply(op, x.value, y.value, env)
  {
    hide Compute;
    SameLookup(Plain(Positive(left)), env);
    SameLookup(Plain(Positive(right)), env);
    SameLookup(Plain(Binary(op, left, right)), env);
    var x, y := Eval(Plain(Positive(left)), env), Eval(Plain(Positive(right)), env);
    var look := Own(env);
    assert ValueAlone(Positive(left), look) == ValueWithin(left, look);
    assert ValueAlone(Positive(right), look) == ValueWithin(right, look);
    assert ValueAlone(Binary(op, left, right), look) == ValueWithin(Binary(op, left, right), look);
    if x.Some? && y.Some? { Literals(op, x.value, y.value, env); }
  }

  // ---------- Which operator applies first ----------

  /** The second of two operators applies first: product and quotient before sum and difference,
      those before shifts, and shifts before comparisons; otherwise the first does. */
  predicate SecondFirst(first: Op, second: Op) {
    || (second in {Mul, FloorDiv} && first !in {Mul, FloorDiv})
    || (second in {Add, Sub} && first in {Shl, Shr, Lt, Le, Gt, Ge, Eq})
    || (second in {Shl, Shr} && first in {Lt, Le, Gt, Ge, Eq})
  }

  /** The text `a first b second c`, for every pair of operators. */
  lemma TwoOperators(a: int, first: Op, b: int, second: Op, c: int, texts: Texts)
    ensures EvalText([Int(a), Operator(first), Int(b), Operator(second), Int(c)], texts)
            == if SecondFirst(first, second) then
                 var y := Apply(second, b, c, map[]);
                 if y.None? then None else Apply(first, a, y.value, map[])
               else if first in {Lt, Le, Gt, Ge, Eq} && second in {Lt, Le, Gt, Ge, Eq} then None
               else
                 var x := Apply(first, a, b, map[]);
                 if x.None? then None else Apply(second, x.value, c, map[])
  {
    hide EvalText, Compute, SecondFirst, Eval, LevelOf;
    SecondIsTighter(first, second);
    RenderedTwo(first, a, b);
    RenderedTwo(second, b, c);
    var t := [Int(a), Operator(first), Int(b), Operator(second), Int(c)];
    if SecondFirst(first, second) {
      var inner := Binary(second, Num(b), Num(c));
      assert RenderTerm(Binary(first, Num(a), inner)) == RenderTerm(Num(a)) + [Operator(first)] + RenderTerm(inner) == t;
      ClosedText(Binary(first, Num(a), inner), texts);
      RightOperand(first, a, second, b, c);
    } else {
      var inner := Binary(first, Num(a), Num(b));
      assert RenderTerm(Binary(second, inner, Num(c))) == RenderTerm(inner) + [Operator(second)] + RenderTerm(Num(c)) == t;
      ClosedText(Binary(second, inner, Num(c)), texts);
      LeftOperand(first, a, b, second, c);
    }
  }

  lemma RenderedTwo(op: Op, a: int, b: int)
    ensures RenderTerm(Num(a)) == [Int(a)] && RenderTerm(Num(b)) == [Int(b)]
    ensures RenderTerm(Binary(op, Num(a), Num(b))) == [Int(a), Operator(op), Int(b)]
    ensures NamesInTerm(Binary(op, Num(a), Num(b))) == {} && Grammatical(Binary(op, Num(a), Num(b)))
  {
    assert RenderTerm(Num(a)) == [Int(a)] && RenderTerm(Num(b)) == [Int(b)];
  }

  lemma RightOperand(first: Op, a: int, second: Op, b: int, c: int)
    requires !IsCompare(second)
    ensures Eval(Plain(Binary(first, Num(a), Binary(second, Num(b), Num(c)))), map[])
            == var y := Apply(second, b, c, map[]); if y.None? then None else Apply(first, a, y.value, map[])
  {
    hide Compute, Eval;
    Operands(first, Num(a), Binary(second, Num(b), Num(c)), map[]);
    Signs(a, map[]);
    PositiveIsSame(second, b, c);
  }

  lemma LeftOperand(first: Op, a: int, b: int, second: Op, c: int)
    ensures Eval(Plain(Binary(second, Binary(first, Num(a), Num(b)), Num(c))), map[])
            == if IsCompare(first) && IsCompare(second) then None
               else
                 var x := Apply(first, a, b, map[]);
                 if x.None? then None else Apply(second, x.value, c, map[])
  {
    hide Compute, Eval;
    if IsCompare(first) && IsCompare(second) {
      ChainIsNone(first, a, b, second, c);
    } else {
      Operands(second, Binary(first, Num(a), Num(b)), Num(c), map[]);
      Signs(c, map[]);
      PositiveIsSame(first, a, b);
    }
  }

  lemma ChainIsNone(first: Op, a: int, b: int, second: Op, c: int)
    requires IsCompare(first) && IsCompare(second)
    ensures Eval(Plain(Binary(second, Binary(first, Num(a), Num(b)), Num(c))), map[]) == None
  {
    hide Compute;
    var t := Binary(second, Binary(first, Num(a), Num(b)), Num(c));
    SameLookup(Plain(t), map[]);
    assert ValueWithin(t, Own(map[])) == None;
    assert ValueAlone(t, Own(map[])) == None;
  }

  lemma PositiveIsSame(op: Op, a: int, b: int)
    ensures Eval(Plain(Positive(Binary(op, Num(a), Num(b)))), map[]) == Apply(op, a, b, map[])
  {
    hide Compute;
    var t, look := Binary(op, Num(a), Num(b)), Own(map[]);
    SameLookup(Plain(Positive(t)), map[]);
    SameLookup(Plain(t), map[]);
    assert ValueWithin(Positive(t), look) == ValueWithin(t, look);
    assert ValueAlone(Positive(t), look) == ValueAlone(t, look);
  }

  lemma SecondIsTighter(first: Op, second: Op)
    ensures SecondFirst(first, second) <==> LevelOf(first) < LevelOf(second)
    ensures IsCompare(first) <==> first in {Lt, Le, Gt, Ge, Eq}
    ensures SecondFirst(first, second) ==> !IsCompare(second)
    ensures !SecondFirst(first, second) && IsCompare(first) ==> IsCompare(second)
  {}

  /** A text without macros has the value of its expression, whatever macros there are. */
  lemma ClosedText(a: Term, texts: Texts)
    requires Grammatical(a) && NamesInTerm(a) == {}
    ensures EvalText(RenderTerm(a), texts) == Eval(Plain(a), map[])
  {
    hide EvalText;
    TextRefinesEval(Plain(a), map[], texts, {}, 0);
  }

  /** So a product comes before a sum, and differences and quotients group to the left. */
  lemma Precedence(a: int, b: int, c: int, texts: Texts)
    ensures EvalText([Int(a), Operator(Add), Int(b), Operator(Mul), Int(c)], texts) == Some(a + b * c)
    ensures EvalText([Int(a), Operator(Mul), Int(b), Operator(Add), Int(c)], texts) == Some(a * b + c)
    ensures EvalText([Int(a), Operator(Sub), Int(b), Operator(Sub), Int(c)], texts) == Some((a - b) - c)
    ensures EvalText([Int(a), Operator(Sub), Int(b), Operator(Add), Int(c)], texts) == Some((a - b) + c)
    ensures EvalText([Int(a), Operator(Lt), Int(b), Operator(Sub), Int(c)], texts) == Some(if a < b - c then 1 else 0)
    ensures EvalText([Int(a), Operator(Lt), Int(b), Operator(Lt), Int(c)], texts) == None
  {
    hide EvalText, Apply;
    TwoOperators(a, Add, b, Mul, c, texts);
    TwoOperators(a, Mul, b, Add, c, texts);
    TwoOperators(a, Sub, b, Sub, c, texts);
    TwoOperators(a, Sub, b, Add, c, texts);
    TwoOperators(a, Lt, b, Sub, c, texts);
    TwoOperators(a, Lt, b, Lt, c, texts);
    Numbers(a, b);
    Numbers(b, c);
    Numbers(a, b * c);
    Numbers(a * b, c);
    Numbers(a - b, c);
    Numbers(a, b - c);
  }

  lemma Numbers(a: int, b: int)
    ensures Apply(Add, a, b, map[]) == Some(a + b) && Apply(Sub, a, b, map[]) == Some(a - b)
    ensures Apply(Mul, a, b, map[]) == Some(a * b) && Apply(Lt, a, b, map[]) == Some(if a < b then 1 else 0)
  {
    SumsAndProducts(a, b, map[]);
    Comparisons(a, b, map[]);
  }

  /** A sign belongs to the number that follows it, not to the rest of the product. */
  lemma SignFirst(a: int, op: Op, b: int, texts: Texts)
    ensures EvalText([Minus, Int(a), Operator(op), Int(b)], texts) == Apply(op, -a, b, map[])
  {
    hide EvalText, Compute, Eval, LevelOf;
    var negated := Negate(Num(a));
    RenderedTwo(op, a, b);
    assert RenderTerm(negated) == [Minus] + RenderTerm(Num(a)) == [Minus, Int(a)];
    var t := Binary(op, negated, Num(b));
    assert RenderTerm(t) == RenderTerm(negated) + [Operator(op)] + RenderTerm(Num(b)) == [Minus, Int(a), Operator(op), Int(b)];
    assert Grammatical(negated) && NamesInTerm(negated) == {};
    ClosedText(t, texts);
    Operands(op, negated, Num(b), map[]);
    Signs(b, map[]);
    NegatedValue(a);
  }

  lemma NegatedValue(a: int)
    ensures Eval(Plain(Positive(Negate(Num(a)))), map[]) == Some(-a)
  {
    var look := Own(map[]);
    SameLookup(Plain(Positive(Negate(Num(a)))), map[]);
    Within(a, look);
    assert ValueWithin(Negate(Num(a)), look) == Some(-a);
    assert ValueWithin(Positive(Negate(Num(a))), look) == Some(-a);
  }

  /** Parentheses come first, on either side. */
  lemma Parentheses(a: int, first: Op, b: int, second: Op, c: int, texts: Texts)
    ensures EvalText([Int(a), Operator(first), Open, Int(b), Operator(second), Int(c), Close], texts)
            == var y := Apply(second, b, c, map[]); if y.None? then None else Apply(first, a, y.value, map[])
    ensures EvalText([Open, Int(a), Operator(first), Int(b), Close, Operator(second), Int(c)], texts)
            == var x := Apply(first, a, b, map[]); if x.None? then None else Apply(second, x.value, c, map[])
  {
    hide EvalText, Compute, Eval, LevelOf;
    RenderedTwo(first, a, b);
    RenderedTwo(second, b, c);
    var g, h := Group(Plain(Binary(first, Num(a), Num(b)))), Group(Plain(Binary(second, Num(b), Num(c))));
    GroupOfTwo(first, a, b);
    GroupOfTwo(second, b, c);
    var right, left := Binary(first, Num(a), h), Binary(second, g, Num(c));
    assert RenderTerm(right) == RenderTerm(Num(a)) + [Operator(first)] + RenderTerm(h)
        == [Int(a), Operator(first), Open, Int(b), Operator(second), Int(c), Close];
    assert RenderTerm(left) == RenderTerm(g) + [Operator(second)] + RenderTerm(Num(c))
        == [Open, Int(a), Operator(first), Int(b), Close, Operator(second), Int(c)];
    ClosedText(right, texts);
    ClosedText(left, texts);
    Operands(first, Num(a), h, map[]);
    Operands(second, g, Num(c), map[]);
    Signs(a, map[]);
    Signs(c, map[]);
  }

  lemma GroupOfTwo(op: Op, a: int, b: int)
    ensures var g := Group(Plain(Binary(op, Num(a), Num(b))));
      && RenderTerm(g) == [Open, Int(a), Operator(op), Int(b), Close] && NamesInTerm(g) == {} && Grammatical(g)
      && Eval(Plain(Positive(g)), map[]) == Apply(op, a, b, map[])
  {
    hide Compute, LevelOf;
    var t, look := Binary(op, Num(a), Num(b)), Own(map[]);
    RenderedTwo(op, a, b);
    var g := Group(Plain(t));
    assert Render(Plain(t)) == RenderTerm(t);
    assert RenderTerm(g) == [Open] + Render(Plain(t)) + [Close];
    assert NamesIn(Plain(t)) == NamesInTerm(t) && GrammaticalExpr(Plain(t));
    SameLookup(Plain(Positive(g)), map[]);
    SameLookup(Plain(t), map[]);
    assert ValueWithin(g, look) == ValueWithin(t, look);
    assert ValueAlone(Positive(g), look) == ValueWithin(g, look);
    assert ValueAlone(t, look) == ValueWithin(t, look);
  }

  /** A macro stands for its value, not for its text: a sum by its name, times a number, is the whole
      sum times the number. */
  lemma MacroIsItsValue(name: string, a: int, b: int, c: int)
    ensures var texts: Texts := map[name := [Int(a), Operator(Add), Int(b)]];
      EvalText([Tick(name), Operator(Mul), Int(c)], texts) == Some((a + b) * c)
  {
    hide EvalText, Eval, Compute;
    var sum := Binary(Add, Num(a), Num(b));
    var env: Env := map[name := Plain(sum)];
    var texts: Texts := map[name := [Int(a), Operator(Add), Int(b)]];
    var e := Binary(Mul, Macro(name), Num(c));
    RenderedTwo(Add, a, b);
    assert RenderTerm(Num(c)) == [Int(c)];
    assert RenderTerm(e) == RenderTerm(Macro(name)) + [Operator(Mul)] + RenderTerm(Num(c)) == [Tick(name), Operator(Mul), Int(c)];
    assert Render(Plain(sum)) == RenderTerm(sum) && NamesIn(Plain(sum)) == NamesInTerm(sum);
    assert Renders(texts, env, {name});
    assert NamesInTerm(Macro(name)) == {name} && NamesInTerm(Num(c)) == {} && Grammatical(Macro(name));
    assert NamesIn(Plain(e)) == NamesInTerm(e) == {name} && Grammatical(e);
    TextRefinesEval(Plain(e), env, texts, {name}, 0);
    Operands(Mul, Macro(name), Num(c), env);
    Signs(c, env);
    MacroValue(name, sum, env);
    SumsAndProducts(a, b, env);
    SumsAndProducts(a + b, c, env);
  }

  lemma MacroValue(name: string, a: Term, env: Env)
    requires name in env && env[name] == Plain(a)
    ensures Eval(Plain(Positive(Macro(name))), env) == Eval(Plain(a), env)
  {
    hide ValueAlone;
    ResolveIsFixedPoint(name, env);
    SameLookup(Plain(Positive(Macro(name))), env);
    MacroWithin(name, Own(env));
  }

  lemma MacroWithin(name: string, look: Lookup)
    ensures Value(Plain(Positive(Macro(name))), look) == look(name)
  {
    assert ValueWithin(Positive(Macro(name)), look) == ValueWithin(Macro(name), look);
  }
}
