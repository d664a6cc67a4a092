/** The evaluator on the tokens themselves, for every token sequence, and that on the text of an
    expression it gives the value of the expression. */
module MacroTokens {
  import opened Collections
  import opened Options
  import opened MacroEval
  import opened MacroText
  import opened MacroParse

  type Texts = map<string, Text>

  // ---------- The evaluator ----------

  ghost predicate HasQuestion(t: Text) { exists i: nat :: TopLevel(t, i, Question) }

  /** The first position from i on at which every parenthesis is closed. */
  function CloseFrom(t: Text, i: nat): (r: Option<nat>)
    ensures r.Some? ==> i <= r.value < |t| && Depth(t[..r.value + 1]) == 0
    ensures forall k: nat | i < k <= (if r.Some? then r.value else |t|) :: Depth(t[..k]) != 0
    decreases |t| - i
  {
    if i >= |t| then None else if Depth(t[..i + 1]) == 0 then Some(i) else CloseFrom(t, i + 1)
  }

  /** A number as tokens: a negative one has a sign. */
  function NumText(v: int): Text { if v < 0 then [Minus, Int(-v)] else [Int(v)] }

  predicate IsName(t: Text) { |t| == 1 && (t[0].Tick? || t[0].Name?) }

  /** What folding looks at: a group that starts the text and has a conditional in it. */
  ghost predicate StartsFold(t: Text) {
    t != [] && t[0] == Open && CloseFrom(t, 0).Some?
    && 1 <= CloseFrom(t, 0).value && HasQuestion(t[1..CloseFrom(t, 0).value])
  }

  function Prepend(a: Text, rest: Option<Text>): Option<Text> {
    if rest.None? then None else Some(a + rest.value)
  }

  /** Parentheses around the whole are dropped; a macro or bare name alone is looked up and taken out
      of the environment; a conditional is evaluated by its parts; anything else is arithmetic, in
      which conditional groups and then macros are replaced by their values. */
  ghost function EvalText(text: Text, env: Texts): Option<int>
    decreases |env|, if |text| == 1 && text[0].Tick? then 0 else 1, |text|, 1
  {
    var t := StripText(text);
    if IsName(t) && t[0].name in env then
      SmallerWithout(env, t[0].name);
      EvalText(env[t[0].name], env - {t[0].name})
    else if IsName(t) && t[0].Tick? then None
    else
      var cut := CutText(t);
      if cut.Some? then
        var c := EvalText(cut.value.0, env);
        if c.None? then None else if c.value != 0 then EvalText(cut.value.1, env) else EvalText(cut.value.2, env)
      else
        var folded := FoldText(t, env);
        if folded.None? then None else Parse(0, SubstituteText(folded.value, env))
  }

  /** The text with every conditional group replaced by its value; none if one has no value. */
  ghost function FoldText(t: Text, env: Texts): (r: Option<Text>)
    ensures r.Some? ==> |r.value| <= |t|
    decreases |env|, 1, |t|, 0
  {
    if t == [] then Some([])
    else if StartsFold(t) then
      var close := CloseFrom(t, 0).value;
      var v := EvalText(t[1..close], env);
      if v.None? then None else Prepend(NumText(v.value), FoldText(t[close + 1..], env))
    else Prepend([t[0]], FoldText(t[1..], env))
  }

  /** The text with every macro replaced by its value, or by a name that has none. */
  ghost function SubstituteText(t: Text, env: Texts): Text
    decreases |env|, 1, |t|, 0
  {
    if t == [] then []
    else
      (if !t[0].Tick? then [t[0]]
       else
         var v := EvalText([t[0]], env);
         if v.None? then [Name("unknown")] else NumText(v.value))
      + SubstituteText(t[1..], env)
  }

  // ---------- The same replacements in an expression ----------

  function NumTerm(v: int): Term { if v < 0 then Negate(Num(-v)) else Num(v) }

  function FoldTerm(a: Term, look: Lookup): Option<Term> {
    match a
    case Group(Choose(test, yes, no)) =>
      var v := Value(Choose(test, yes, no), look);
      if v.None? then None else Some(NumTerm(v.value))
    case Group(Plain(inner)) =>
      var f := FoldTerm(inner, look);
      if f.None? then None else Some(Group(Plain(f.value)))
    case Binary(op, left, right) =>
      var f, g := FoldTerm(left, look), FoldTerm(right, look);
      if f.None? || g.None? then None else Some(Binary(op, f.value, g.value))
    case Negate(inner) =>
      var f := FoldTerm(inner, look);
      if f.None? then None else Some(Negate(f.value))
    case Positive(inner) =>
      var f := FoldTerm(inner, look);
      if f.None? then None else Some(Positive(f.value))
    case _ => Some(a)
  }

  function SubstituteTerm(a: Term, look: Lookup): Term {
    match a
    case Macro(name) => if look(name).None? then Bare("unknown") else NumTerm(look(name).value)
    case Group(Plain(inner)) => Group(Plain(SubstituteTerm(inner, look)))
    case Binary(op, left, right) => Binary(op, SubstituteTerm(left, look), SubstituteTerm(right, look))
    case Negate(inner) => Negate(SubstituteTerm(inner, look))
    case Positive(inner) => Positive(SubstituteTerm(inner, look))
    case _ => a
  }

  /** No conditional is left. */
  predicate Folded(a: Term) {
    match a
    case Group(Choose(_, _, _)) => false
    case Group(Plain(inner)) => Folded(inner)
    case Binary(_, left, right) => Folded(left) && Folded(right)
    case Negate(inner) => Folded(inner)
    case Positive(inner) => Folded(inner)
    case _ => true
  }

  /** A replaced term binds no less tightly than a sign, and an operator stays. */
  predicate Alike(a: Term, b: Term) {
    if a.Binary? then b.Binary? && b.op == a.op else !b.Binary? && Level(b) >= 4
  }

  /** Replacing conditionals keeps the grammar, and the value. */
  lemma {:induction false} FoldKeeps(a: Term, look: Lookup)
    requires Grammatical(a)
    ensures var f := FoldTerm(a, look);
      if f.None? then ValueWithin(a, look) == None
      else Grammatical(f.value) && Folded(f.value) && Alike(a, f.value)
           && ValueWithin(f.value, look) == ValueWithin(a, look)
    decreases a
  {
    hide Compute;
    match a
    case Group(Plain(inner)) => FoldKeeps(inner, look);
    case Binary(op, left, right) => FoldKeeps(left, look); FoldKeeps(right, look);
    case Negate(inner) => FoldKeeps(inner, look);
    case Positive(inner) => FoldKeeps(inner, look);
    case _ =>
  }

  lemma {:induction false} FoldNames(a: Term, look: Lookup)
    requires FoldTerm(a, look).Some?
    ensures NamesInTerm(FoldTerm(a, look).value) <= NamesInTerm(a)
    decreases a
  {
    match a
    case Group(Plain(inner)) => FoldNames(inner, look);
    case Binary(op, left, right) => FoldNames(left, look); FoldNames(right, look);
    case Negate(inner) => FoldNames(inner, look);
    case Positive(inner) => FoldNames(inner, look);
    case _ =>
  }

  /** So does replacing macros, and no name needs looking up then. */
  lemma {:induction false} SubstituteKeeps(a: Term, look: Lookup)
    requires Grammatical(a) && Folded(a)
    ensures var b := SubstituteTerm(a, look);
      Grammatical(b) && Flat(b) && Alike(a, b) && ValueWithin(b, Nowhere) == ValueWithin(a, look)
    decreases a
  {
    hide Compute;
    match a
    case Group(Plain(inner)) => SubstituteKeeps(inner, look);
    case Binary(op, left, right) => SubstituteKeeps(left, look); SubstituteKeeps(right, look);
    case Negate(inner) => SubstituteKeeps(inner, look);
    case Positive(inner) => SubstituteKeeps(inner, look);
    case _ =>
  }

  // ---------- Texts of expressions ----------

  /** The names in an expression. */
  function NamesIn(e: Expr): set<string>
    decreases e, 1
  {
    match e
    case Plain(a) => NamesInTerm(a)
    case Choose(test, yes, no) => NamesInTerm(test) + NamesInTerm(yes) + NamesInTerm(no)
  }

  function NamesInTerm(a: Term): set<string>
    decreases a, 0
  {
    match a
    case Macro(name) => {name}
    case Bare(name) => {name}
    case Group(inner) => NamesIn(inner)
    case Binary(_, left, right) => NamesInTerm(left) + NamesInTerm(right)
    case Negate(inner) => NamesInTerm(inner)
    case Positive(inner) => NamesInTerm(inner)
    case _ => {}
  }

  /** A text that has no value whatever the macros are. */
  ghost predicate Valueless(t: Text) { forall texts: Texts :: EvalText(t, texts) == None }

  /** A definition and its text: an expression that the grammar gives back, or any text without a
      value, for which an unsupported expression stands. */
  ghost predicate Defines(t: Text, e: Expr) {
    (t == Render(e) && GrammaticalExpr(e)) || (Valueless(t) && e == Plain(Unsupported))
  }

  /** The texts of the names in s are those of their definitions, which use no names but s.  Other
      names may have any text. */
  ghost predicate Renders(texts: Texts, env: Env, s: set<string>) {
    forall n | n in s ::
      && (n in texts <==> n in env)
      && (n in texts && n in env ==> Defines(texts[n], env[n]) && NamesIn(env[n]) <= s)
  }

  ghost function Own(env: Env): Lookup { n => Resolve(n, env) }

  lemma ValueSame(e: Expr, look: Lookup, more: Lookup)
    requires forall n :: look(n) == more(n)
    ensures Value(e, look) == Value(e, more)
  {
    if Value(e, look).Some? { ValueExtends(e, look, more); }
    if Value(e, more).Some? { ValueExtends(e, more, look); }
  }

  lemma SameStripped(a: Text, b: Text, env: Texts)
    requires StripText(a) == StripText(b)
    ensures EvalText(a, env) == EvalText(b, env)
  {
    hide StripText, CutText, FoldText, SubstituteText, Parse;
  }

  lemma StripOne(t: Text)
    requires |t| == 1
    ensures StripText(t) == t
  {}

  /** A macro or a bare name by itself. */
  lemma {:induction false} NameIsResolved(token: Token, env: Env, texts: Texts, s: set<string>)
    requires (token.Tick? || (token.Name? && token.name in env)) && token.name in s && Renders(texts, env, s)
    ensures EvalText([token], texts) == Resolve(token.name, env)
    decreases |texts|, 0
  {
    hide StripText, CutText, FoldText, SubstituteText, Parse, Render, GrammaticalExpr, NamesIn, Valueless;
    StripOne([token]);
    if token.name in env {
      var n := token.name;
      SmallerWithout(texts, n);
      ResolveOnce(n, env, Own(env - {n}));
      if texts[n] == Render(env[n]) && GrammaticalExpr(env[n]) {
        TextIsEval(env[n], env - {n}, texts - {n}, s);
      } else {
        UnsupportedIsNone(Own(env - {n}));
        NoValue(texts[n], texts - {n});
      }
    }
  }

  lemma UnsupportedIsNone(look: Lookup)
    ensures Value(Plain(Unsupported), look) == None
  {}

  lemma NoValue(t: Text, texts: Texts)
    requires Valueless(t)
    ensures EvalText(t, texts) == None
  {
    hide EvalText;
  }

  lemma FoldToken(token: Token, rest: Text, texts: Texts)
    requires token != Open
    ensures FoldText([token] + rest, texts) == Prepend([token], FoldText(rest, texts))
  {
    hide EvalText;
    assert ([token] + rest)[1..] == rest;
  }

  /** Where the parenthesis of a rendered group closes. */
  lemma GroupCloses(e: Expr, rest: Text)
    ensures CloseFrom([Open] + Render(e) + [Close] + rest, 0) == Some(|Render(e)| + 1)
  {
    hide Depth, CloseFrom, Render;
    var r := Render(e);
    var all := [Open] + r + [Close];
    ExprIsBalanced(e);
    Enclosed(r);
    forall k: nat | k <= |all| ensures (all + rest)[..k] == all[..k] {}
    assert all[..|all|] == all;
    assert Depth((all + rest)[..|r| + 2]) == 0;
  }

  lemma QuestionInside(e: Expr)
    ensures HasQuestion(Render(e)) <==> e.Choose?
  {
    hide TopLevel;
    if e.Choose? {
      TopLevelOfRender(e, |RenderTerm(e.test)|);
    } else {
      forall i: nat ensures !TopLevel(Render(e), i, Question) { TopLevelOfRender(e, i); }
    }
  }

  lemma FoldNext(t: Text, env: Texts)
    requires t != []
    ensures FoldText(t, env) ==
            if StartsFold(t) then
              var close := CloseFrom(t, 0).value;
              var v := EvalText(t[1..close], env);
              if v.None? then None else Prepend(NumText(v.value), FoldText(t[close + 1..], env))
            else Prepend([t[0]], FoldText(t[1..], env))
  {
    hide EvalText, CloseFrom;
  }

  lemma FoldGroup(e: Expr, rest: Text, texts: Texts)
    ensures var t := [Open] + Render(e) + [Close] + rest;
      FoldText(t, texts) ==
      if e.Choose? then
        var v := EvalText(Render(e), texts);
        if v.None? then None else Prepend(NumText(v.value), FoldText(rest, texts))
      else Prepend([Open], FoldText(Render(e) + [Close] + rest, texts))
  {
    hide EvalText, FoldText, HasQuestion, CloseFrom, Render, Prepend, NumText;
    var t := [Open] + Render(e) + [Close] + rest;
    GroupCloses(e, rest);
    QuestionInside(e);
    FoldNext(t, texts);
    assert t[1..|Render(e)| + 1] == Render(e) && t[|Render(e)| + 2..] == rest && t[1..] == Render(e) + [Close] + rest;
  }

  lemma RenderNumber(v: int)
    ensures RenderTerm(NumTerm(v)) == NumText(v)
  {}

  lemma PrependTwice(a: Text, b: Text, rest: Option<Text>)
    ensures Prepend(a, Prepend(b, rest)) == Prepend(a + b, rest)
  {
    if rest.Some? { assert a + (b + rest.value) == a + b + rest.value; }
  }

  lemma PrependThrice(a: Text, b: Text, c: Text, rest: Option<Text>)
    ensures Prepend(a, Prepend(b, Prepend(c, rest))) == Prepend(a + b + c, rest)
  {
    hide Prepend;
    PrependTwice(b, c, rest);
    PrependTwice(a, b + c, rest);
    Associative(a, b, c);
  }

  lemma Associative(a: Text, b: Text, c: Text)
    ensures a + b + c == a + (b + c)
  {}

  lemma AssociativeTwice(a: Text, b: Text, c: Text, d: Text)
    ensures a + b + c + d == a + (b + (c + d))
  {}

  /** Folding the text of arithmetic is the text of folded arithmetic. */
  lemma {:induction false} FoldOfTerm(a: Term, rest: Text, env: Env, texts: Texts, s: set<string>)
    requires Renders(texts, env, s) && Grammatical(a) && NamesInTerm(a) <= s
    ensures var f := FoldTerm(a, Own(env));
      FoldText(RenderTerm(a) + rest, texts)
      == if f.None? then None else Prepend(RenderTerm(f.value), FoldText(rest, texts))
    decreases |texts|, 2, a, 0
  {
    hide FoldText, EvalText, Prepend, Value, Renders;
    match a
    case Group(Choose(test, yes, no)) =>
      var e := Choose(test, yes, no);
      TextIsEval(e, env, texts, s);
      FoldGroup(e, rest, texts);
      if Value(e, Own(env)).Some? { RenderNumber(Value(e, Own(env)).value); }
    case Group(Plain(inner)) =>
      FoldGroup(Plain(inner), rest, texts);
      var x := RenderTerm(inner);
      Associative(x, [Close], rest);
      FoldOfTerm(inner, [Close] + rest, env, texts, s);
      FoldToken(Close, rest, texts);
      NothingToPrepend([Open]);
      var f := FoldTerm(inner, Own(env));
      if f.Some? { PrependThrice([Open], RenderTerm(f.value), [Close], FoldText(rest, texts)); }
    case Binary(op, left, right) =>
      var x, y := RenderTerm(left), RenderTerm(right);
      AssociativeTwice(x, [Operator(op)], y, rest);
      FoldOfTerm(left, [Operator(op)] + (y + rest), env, texts, s);
      FoldToken(Operator(op), y + rest, texts);
      FoldOfTerm(right, rest, env, texts, s);
      var f, g := FoldTerm(left, Own(env)), FoldTerm(right, Own(env));
      NothingToPrepend([Operator(op)]);
      if f.Some? {
        NothingToPrepend(RenderTerm(f.value));
        if g.Some? {
          PrependThrice(RenderTerm(f.value), [Operator(op)], RenderTerm(g.value), FoldText(rest, texts));
        }
      }
    case Negate(inner) => FoldSign(Minus, inner, rest, env, texts, s);
    case Positive(inner) => FoldSign(Plus, inner, rest, env, texts, s);
    case Num(n) => FoldToken(Int(n), rest, texts);
    case Macro(name) => FoldToken(Tick(name), rest, texts);
    case Bare(name) => FoldToken(Name(name), rest, texts);
    case Unsupported => FoldToken(Unknown, rest, texts);
  }

  lemma {:induction false} FoldSign(sign: Token, inner: Term, rest: Text, env: Env, texts: Texts, s: set<string>)
    requires Renders(texts, env, s) && Grammatical(inner) && NamesInTerm(inner) <= s && sign != Open
    ensures var f := FoldTerm(inner, Own(env));
      FoldText([sign] + RenderTerm(inner) + rest, texts)
      == if f.None? then None else Prepend([sign] + RenderTerm(f.value), FoldText(rest, texts))
    decreases |texts|, 2, inner, 1
  {
    hide FoldText, EvalText, Prepend, Value, Renders, FoldTerm;
    var x := RenderTerm(inner);
    Associative([sign], x, rest);
    FoldToken(sign, x + rest, texts);
    FoldOfTerm(inner, rest, env, texts, s);
    NothingToPrepend([sign]);
    var f := FoldTerm(inner, Own(env));
    if f.Some? { PrependTwice([sign], RenderTerm(f.value), FoldText(rest, texts)); }
  }

  lemma NothingToPrepend(a: Text)
    ensures Prepend(a, None) == None
  {}

  lemma SubstituteToken(token: Token, rest: Text, texts: Texts)
    requires !token.Tick?
    ensures SubstituteText([token] + rest, texts) == [token] + SubstituteText(rest, texts)
  {
    hide EvalText;
    assert ([token] + rest)[1..] == rest;
  }

  lemma SubstituteTick(name: string, rest: Text, texts: Texts)
    ensures var v := EvalText([Tick(name)], texts);
      SubstituteText([Tick(name)] + rest, texts)
      == (if v.None? then [Name("unknown")] else NumText(v.value)) + SubstituteText(rest, texts)
  {
    hide EvalText;
    assert ([Tick(name)] + rest)[1..] == rest;
  }

  /** Replacing macros in the text of arithmetic is the text of arithmetic with macros replaced. */
  lemma {:induction false} SubstituteOfTerm(a: Term, rest: Text, env: Env, texts: Texts, s: set<string>)
    requires Renders(texts, env, s) && Folded(a) && NamesInTerm(a) <= s
    ensures SubstituteText(RenderTerm(a) + rest, texts)
            == RenderTerm(SubstituteTerm(a, Own(env))) + SubstituteText(rest, texts)
    decreases |texts|, 1, a, 0
  {
    hide SubstituteText, EvalText, Renders;
    match a
    case Macro(name) =>
      NameIsResolved(Tick(name), env, texts, s);
      SubstituteTick(name, rest, texts);
      if Resolve(name, env).Some? { RenderNumber(Resolve(name, env).value); }
    case Group(Plain(inner)) =>
      var x := RenderTerm(inner);
      AssociativeTwice([Open], x, [Close], rest);
      SubstituteToken(Open, x + ([Close] + rest), texts);
      SubstituteOfTerm(inner, [Close] + rest, env, texts, s);
      SubstituteToken(Close, rest, texts);
      AssociativeTwice([Open], RenderTerm(SubstituteTerm(inner, Own(env))), [Close], SubstituteText(rest, texts));
    case Binary(op, left, right) =>
      var x, y := RenderTerm(left), RenderTerm(right);
      AssociativeTwice(x, [Operator(op)], y, rest);
      SubstituteOfTerm(left, [Operator(op)] + (y + rest), env, texts, s);
      SubstituteToken(Operator(op), y + rest, texts);
      SubstituteOfTerm(right, rest, env, texts, s);
      var look := Own(env);
      AssociativeTwice(RenderTerm(SubstituteTerm(left, look)), [Operator(op)], RenderTerm(SubstituteTerm(right, look)),
                       SubstituteText(rest, texts));
    case Negate(inner) => SubstituteSign(Minus, inner, rest, env, texts, s);
    case Positive(inner) => SubstituteSign(Plus, inner, rest, env, texts, s);
    case Num(n) => SubstituteToken(Int(n), rest, texts);
    case Bare(name) => SubstituteToken(Name(name), rest, texts);
    case Unsupported => SubstituteToken(Unknown, rest, texts);
  }

  lemma {:induction false} SubstituteSign(sign: Token, inner: Term, rest: Text, env: Env, texts: Texts, s: set<string>)
    requires Renders(texts, env, s) && Folded(inner) && NamesInTerm(inner) <= s && !sign.Tick?
    ensures SubstituteText([sign] + RenderTerm(inner) + rest, texts)
            == [sign] + RenderTerm(SubstituteTerm(inner, Own(env))) + SubstituteText(rest, texts)
    decreases |texts|, 1, inner, 1
  {
    hide SubstituteText, EvalText, Renders, SubstituteTerm, RenderTerm;
    Associative([sign], RenderTerm(inner), rest);
    SubstituteToken(sign, RenderTerm(inner) + rest, texts);
    SubstituteOfTerm(inner, rest, env, texts, s);
    Associative([sign], RenderTerm(SubstituteTerm(inner, Own(env))), SubstituteText(rest, texts));
  }

  // ---------- The refinement ----------

  /** Arithmetic that is neither one group nor one name in the environment. */
  lemma {:induction false} ArithmeticIsEval(a: Term, env: Env, texts: Texts, s: set<string>)
    requires Renders(texts, env, s) && Grammatical(a) && NamesInTerm(a) <= s
    ensures var folded := FoldText(RenderTerm(a), texts);
      (if folded.None? then None else Parse(0, SubstituteText(folded.value, texts))) == ValueWithin(a, Own(env))
    decreases |texts|, 2, a, 1
  {
    hide FoldText, SubstituteText, EvalText, Parse, Renders, Grammatical, FoldTerm, SubstituteTerm, ValueWithin;
    FoldOfTerm(a, [], env, texts, s);
    assert RenderTerm(a) + [] == RenderTerm(a);
    FoldKeeps(a, Own(env));
    NothingLeft(texts);
    var f := FoldTerm(a, Own(env));
    if f.Some? {
      assert RenderTerm(f.value) + [] == RenderTerm(f.value);
      FoldNames(a, Own(env));
      SubstituteOfTerm(f.value, [], env, texts, s);
      SubstituteKeeps(f.value, Own(env));
      var b := SubstituteTerm(f.value, Own(env));
      assert RenderTerm(b) + [] == RenderTerm(b);
      ParseOfRender(b, 0);
    }
  }

  lemma NothingLeft(texts: Texts)
    ensures FoldText([], texts) == Some([]) && SubstituteText([], texts) == []
  {}

  lemma {:induction false} AloneIsEval(a: Term, env: Env, texts: Texts, s: set<string>)
    requires Renders(texts, env, s) && Grammatical(a) && NamesInTerm(a) <= s
    ensures EvalText(RenderTerm(a), texts) == ValueAlone(a, Own(env))
    decreases |texts|, 2, a, 2
  {
    hide FoldText, SubstituteText, Parse, CutText, StripText, EvalText, Renders, ValueWithin;
    match a
    case Group(inner) =>
      StripOfRender(Plain(a));
      StripOfRender(inner);
      SameStripped(RenderTerm(a), Render(inner), texts);
      TextIsEval(inner, env, texts, s);
    case Macro(name) => NameIsResolved(Tick(name), env, texts, s);
    case Bare(name) =>
      SameName(name, texts, env, s);
      if name in env {
        NameIsResolved(Name(name), env, texts, s);
      } else {
        NotAName(a, texts);
        ArithmeticIsEval(a, env, texts, s);
        UnboundIsNone(name, env);
      }
    case _ =>
      NotAName(a, texts);
      ArithmeticIsEval(a, env, texts, s);
  }

  lemma SameName(name: string, texts: Texts, env: Env, s: set<string>)
    requires name in s && Renders(texts, env, s)
    ensures name in texts <==> name in env
  {}

  lemma UnboundIsNone(name: string, env: Env)
    requires name !in env
    ensures Own(env)(name) == None && ValueWithin(Bare(name), Own(env)) == None
  {}

  /** What the evaluator does with arithmetic that is not a group, a macro or a name it knows. */
  lemma NotAName(a: Term, texts: Texts)
    requires !a.Group? && !a.Macro? && (a.Bare? ==> a.name !in texts)
    ensures var folded := FoldText(RenderTerm(a), texts);
      EvalText(RenderTerm(a), texts) == if folded.None? then None else Parse(0, SubstituteText(folded.value, texts))
  {
    hide FoldText, SubstituteText, Parse, CutText, StripText;
    StripOfRender(Plain(a));
    CutOfRender(Plain(a));
    NamesAreNames(a);
  }

  lemma NamesAreNames(a: Term)
    ensures IsName(RenderTerm(a)) <==> a.Macro? || a.Bare?
    ensures a.Macro? || a.Bare? ==> RenderTerm(a)[0].name == a.name
    ensures a.Bare? ==> RenderTerm(a)[0].Name?
  {}

  lemma ChoiceIsCut(test: Term, yes: Term, no: Term, texts: Texts)
    ensures var c := EvalText(RenderTerm(test), texts);
      EvalText(Render(Choose(test, yes, no)), texts)
      == if c.None? then None else if c.value != 0 then EvalText(RenderTerm(yes), texts) else EvalText(RenderTerm(no), texts)
  {
    hide FoldText, SubstituteText, Parse, CutText, StripText, RenderTerm;
    var e := Choose(test, yes, no);
    StripOfRender(e);
    CutOfRender(e);
    assert |Render(e)| > 1;
  }

  /** On the text of an expression the evaluator of texts gives the value of the expression, cyclic
      definitions included. */
  lemma {:induction false} TextIsEval(e: Expr, env: Env, texts: Texts, s: set<string>)
    requires Renders(texts, env, s) && GrammaticalExpr(e) && NamesIn(e) <= s
    ensures EvalText(Render(e), texts) == Value(e, Own(env))
    decreases |texts|, 2, e, 2
  {
    hide EvalText, Renders, Grammatical, ValueAlone;
    match e
    case Plain(a) => AloneIsEval(a, env, texts, s);
    case Choose(test, yes, no) =>
      ChoiceIsCut(test, yes, no, texts);
      AloneIsEval(test, env, texts, s);
      AloneIsEval(yes, env, texts, s);
      AloneIsEval(no, env, texts, s);
  }

  /** So evaluating the text of an expression is evaluating it, and finds a value exactly when
      unfolding definitions reaches it. */
  lemma TextRefinesEval(e: Expr, env: Env, texts: Texts, s: set<string>, v: int)
    requires Renders(texts, env, s) && GrammaticalExpr(e) && NamesIn(e) <= s
    ensures EvalText(Render(e), texts) == Eval(e, env)
    ensures EvalText(Render(e), texts) == Some(v) <==> exists n: nat :: UnfoldExpr(n, e, env) == Some(v)
  {
    hide EvalText, Renders, Value, Resolve;
    TextIsEval(e, env, texts, s);
    ValueSame(e, Own(env), n => Resolve(n, env));
    EvalIsUnfolding(e, env, v);
  }

  // ---------- Texts without a value ----------

  lemma {:induction false} StripKeeps(t: Text)
    requires Unknown in t && Question !in t
    ensures Unknown in StripText(t) && Question !in StripText(t)
    decreases |t|
  {
    hide OpenToEnd;
    if t[0] == Open && t[|t| - 1] == Close {
      assert t == [Open] + t[1..|t| - 1] + [Close];
      StripKeeps(t[1..|t| - 1]);
    }
  }

  lemma NothingToCut(t: Text)
    requires Question !in t
    ensures CutText(t) == None && !HasQuestion(t)
  {
    forall i: nat ensures !TopLevel(t, i, Question) {}
  }

  lemma {:induction false} NothingToFold(t: Text, texts: Texts)
    requires Question !in t
    ensures FoldText(t, texts) == Some(t)
    decreases |t|
  {
    hide EvalText, HasQuestion, CloseFrom;
    if t != [] {
      NothingToFold(t[1..], texts);
      assert t == [t[0]] + t[1..];
      if StartsFold(t) { NothingToCut(t[1..CloseFrom(t, 0).value]); }
    }
  }

  lemma {:induction false} SubstituteKeepsUnknown(t: Text, texts: Texts)
    requires Unknown in t
    ensures Unknown in SubstituteText(t, texts)
    decreases |t|
  {
    hide EvalText;
    if t[0] != Unknown { SubstituteKeepsUnknown(t[1..], texts); }
  }

  /** Python's parser refuses a text with anything that it does not know. */
  lemma {:induction false} ParseUnknown(level: nat, t: Text)
    requires level <= 4 && Unknown in t
    ensures Parse(level, t) == None
    decreases |t|, 4 - level
  {
    hide OpenToEnd, Depth, Compute;
    if level == 4 {
      if t[0] == Minus || t[0] == Plus {
        ParseUnknown(4, t[1..]);
      } else if |t| > 1 && t[0] == Open && t[|t| - 1] == Close {
        assert t == [Open] + t[1..|t| - 1] + [Close];
        ParseUnknown(0, t[1..|t| - 1]);
      }
    } else {
      var last := LastOp(level, t, |t|);
      if last.None? {
        ParseUnknown(level + 1, t);
      } else {
        var left, right := t[..last.value], t[last.value + 1..];
        assert t == left + [t[last.value]] + right;
        if Unknown in left { ParseUnknown(level, left); } else { ParseUnknown(level + 1, right); }
      }
    }
  }

  /** A text with a token that the evaluator does not know, and without a question mark, has no value
      whatever the macros are. */
  lemma UnknownIsValueless(t: Text)
    requires Unknown in t && Question !in t
    ensures Valueless(t)
  {
    hide StripText, CutText, FoldText, SubstituteText, Parse;
    var u := StripText(t);
    StripKeeps(t);
    NothingToCut(u);
    forall texts: Texts ensures EvalText(t, texts) == None {
      NothingToFold(u, texts);
      SubstituteKeepsUnknown(u, texts);
      ParseUnknown(0, SubstituteText(u, texts));
    }
  }
}
