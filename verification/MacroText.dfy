/** The scanning loops of the macro evaluator, which find groups and conditionals by counting
    parentheses, against the expression that the text stands for. */
module MacroText {
  import opened Options
  import opened MacroEval

  datatype Token = Open | Close | Question | Colon | Int(n: int) | Tick(name: string) | Name(name: string)
                 | Operator(op: Op) | Minus | Plus | Unknown

  type Text = seq<Token>

  function Render(e: Expr): Text {
    match e
    case Plain(a) => RenderTerm(a)
    case Choose(test, yes, no) => RenderTerm(test) + [Question] + RenderTerm(yes) + [Colon] + RenderTerm(no)
  }

  function RenderTerm(a: Term): (t: Text)
    ensures t != []
  {
    match a
    case Num(n) => [Int(n)]
    case Macro(name) => [Tick(name)]
    case Bare(name) => [Name(name)]
    case Group(inner) => [Open] + Render(inner) + [Close]
    case Binary(op, left, right) => RenderTerm(left) + [Operator(op)] + RenderTerm(right)
    case Negate(inner) => [Minus] + RenderTerm(inner)
    case Positive(inner) => [Plus] + RenderTerm(inner)
    case Unsupported => [Unknown]
  }

  // ---------- Parenthesis depth ----------

  function Weight(t: Token): int { if t == Open then 1 else if t == Close then -1 else 0 }

  function Depth(t: Text): int
    decreases |t|
  {
    if t == [] then 0 else Depth(t[..|t| - 1]) + Weight(t[|t| - 1])
  }

  lemma {:induction false} DepthJoin(a: Text, b: Text)
    ensures Depth(a + b) == Depth(a) + Depth(b)
    decreases |b|
  {
    if b == [] {
      assert a + b == a;
    } else {
      assert (a + b)[..|a + b| - 1] == a + b[..|b| - 1];
      DepthJoin(a, b[..|b| - 1]);
    }
  }

  /** The token at position i, with every parenthesis before and including it closed. */
  predicate TopLevel(t: Text, i: nat, token: Token) {
    i < |t| && t[i] == token && Depth(t[..i + 1]) == 0
  }

  /** Parentheses match. */
  predicate Balanced(t: Text) {
    Depth(t) == 0 && forall i | 0 <= i <= |t| :: Depth(t[..i]) >= 0
  }

  /** No question mark or colon outside parentheses. */
  predicate Closed(t: Text) {
    forall i: nat | i < |t| :: !TopLevel(t, i, Question) && !TopLevel(t, i, Colon)
  }

  lemma PrefixOfJoin(a: Text, b: Text, i: nat)
    requires i <= |a + b|
    ensures i <= |a| ==> (a + b)[..i] == a[..i]
    ensures i >= |a| ==> (a + b)[..i] == a + b[..i - |a|] && Depth((a + b)[..i]) == Depth(a) + Depth(b[..i - |a|])
  {
    if i >= |a| {
      assert (a + b)[..i] == a + b[..i - |a|];
      DepthJoin(a, b[..i - |a|]);
    }
  }

  lemma BalancedJoin(a: Text, b: Text)
    requires Balanced(a) && Balanced(b)
    ensures Balanced(a + b)
    ensures Closed(a) && Closed(b) ==> Closed(a + b)
  {
    DepthJoin(a, b);
    forall i | 0 <= i <= |a + b| ensures Depth((a + b)[..i]) >= 0 { PrefixOfJoin(a, b, i); }
    forall i: nat, token: Token | i < |a + b|
      ensures TopLevel(a + b, i, token) <==> if i < |a| then TopLevel(a, i, token) else TopLevel(b, i - |a|, token)
    {
      PrefixOfJoin(a, b, i + 1);
    }
  }

  lemma DepthOfOne(token: Token)
    ensures Depth([token]) == Weight(token)
  {
    assert [token][..0] == [];
  }

  lemma OneToken(token: Token)
    requires token != Open && token != Close && token != Question && token != Colon
    ensures Balanced([token]) && Closed([token])
  {
    DepthOfOne(token);
    assert [token][..0] == [] && [token][..1] == [token];
  }

  lemma Enclosed(t: Text)
    requires Balanced(t)
    ensures Balanced([Open] + t + [Close]) && Closed([Open] + t + [Close])
    ensures forall i | 0 < i <= |t| + 1 :: Depth(([Open] + t + [Close])[..i]) > 0
  {
    var all := [Open] + t + [Close];
    DepthOfOne(Open);
    DepthOfOne(Close);
    DepthJoin([Open], t);
    DepthJoin([Open] + t, [Close]);
    forall i | 0 < i <= |t| + 1 ensures Depth(all[..i]) > 0 {
      PrefixOfJoin([Open] + t, [Close], i);
      PrefixOfJoin([Open], t, i);
    }
    assert all[..|all|] == all && all[..0] == [];
  }

  lemma Separated(a: Text, token: Token, b: Text)
    requires Balanced(a) && Balanced(b) && (token == Question || token == Colon)
    ensures Balanced(a + [token] + b)
  {
    DepthOfOne(token);
    assert [token][..0] == [] && [token][..1] == [token];
    assert Balanced([token]);
    BalancedJoin(a, [token]);
    BalancedJoin(a + [token], b);
  }

  /** Rendered arithmetic is balanced and hides its conditionals in parentheses. */
  lemma {:induction false} TermIsClosed(a: Term)
    ensures Balanced(RenderTerm(a)) && Closed(RenderTerm(a))
    decreases a, 0
  {
    hide Balanced, Closed;
    match a
    case Num(n) => OneToken(Int(n));
    case Macro(name) => OneToken(Tick(name));
    case Bare(name) => OneToken(Name(name));
    case Unsupported => OneToken(Unknown);
    case Negate(inner) =>
      OneToken(Minus);
      TermIsClosed(inner);
      BalancedJoin([Minus], RenderTerm(inner));
    case Positive(inner) =>
      OneToken(Plus);
      TermIsClosed(inner);
      BalancedJoin([Plus], RenderTerm(inner));
    case Binary(op, left, right) =>
      OneToken(Operator(op));
      TermIsClosed(left);
      TermIsClosed(right);
      BalancedJoin(RenderTerm(left), [Operator(op)]);
      BalancedJoin(RenderTerm(left) + [Operator(op)], RenderTerm(right));
    case Group(inner) =>
      ExprIsBalanced(inner);
      Enclosed(Render(inner));
  }

  lemma {:induction false} ExprIsBalanced(e: Expr)
    ensures Balanced(Render(e))
    decreases e, 1
  {
    hide Balanced, Closed;
    match e
    case Plain(a) => TermIsClosed(a);
    case Choose(test, yes, no) =>
      TermIsClosed(test);
      TermIsClosed(yes);
      TermIsClosed(no);
      Separated(RenderTerm(test), Question, RenderTerm(yes));
      Separated(RenderTerm(test) + [Question] + RenderTerm(yes), Colon, RenderTerm(no));
  }

  // ---------- A conditional outside parentheses ----------

  /** Whether some question mark is outside parentheses. */
  method HasTopLevelQuestion(t: Text) returns (found: bool)
    ensures found <==> exists i: nat :: TopLevel(t, i, Question)
  {
    var depth := 0;
    for i := 0 to |t|
      invariant depth == Depth(t[..i])
      invariant forall k: nat | k < i :: !TopLevel(t, k, Question)
    {
      assert t[..i + 1][..i] == t[..i];
      depth := depth + (if t[i] == Open then 1 else 0) - (if t[i] == Close then 1 else 0);
      if depth == 0 && t[i] == Question {
        assert TopLevel(t, i, Question);
        return true;
      }
    }
    found := false;
  }

  /** The first colon outside parentheses that has a question mark outside parentheses before it, and
      the last such question mark before it. */
  predicate IsConditional(t: Text, q: nat, c: nat) {
    && q < c < |t| && TopLevel(t, q, Question) && TopLevel(t, c, Colon)
    && (forall k: nat | q < k < c :: !TopLevel(t, k, Question))
    && (forall j: nat, k: nat | j < k < c && TopLevel(t, j, Question) :: !TopLevel(t, k, Colon))
  }

  /** A text has at most one. */
  lemma ConditionalUnique(t: Text, q: nat, c: nat, q': nat, c': nat)
    requires IsConditional(t, q, c) && IsConditional(t, q', c')
    ensures q == q' && c == c'
  {}

  /** The scan for a conditional outside parentheses, on any text: it finds the one, or there is no
      colon outside parentheses after a question mark outside parentheses. */
  method FindConditional(t: Text) returns (question: Option<nat>, colon: Option<nat>)
    ensures question.Some? ==> TopLevel(t, question.value, Question)
    ensures question.None? ==> forall k: nat :: !TopLevel(t, k, Question)
    ensures colon.Some? ==> question.Some? && IsConditional(t, question.value, colon.value)
    ensures colon.None? ==> forall j: nat, k: nat | j < k && TopLevel(t, j, Question) :: !TopLevel(t, k, Colon)
  {
    var depth := 0;
    question, colon := None, None;
    for i := 0 to |t|
      invariant depth == Depth(t[..i]) && colon.None?
      invariant question.Some? ==> question.value < i && TopLevel(t, question.value, Question)
      invariant question.Some? ==> forall k: nat | question.value < k < i :: !TopLevel(t, k, Question)
      invariant question.None? ==> forall k: nat | k < i :: !TopLevel(t, k, Question)
      invariant forall j: nat, k: nat | j < k < i && TopLevel(t, j, Question) :: !TopLevel(t, k, Colon)
    {
      assert t[..i + 1][..i] == t[..i];
      depth := depth + (if t[i] == Open then 1 else 0) - (if t[i] == Close then 1 else 0);
      if depth == 0 && t[i] == Question { question := Some(i); }
      if depth == 0 && t[i] == Colon && question.Some? {
        colon := Some(i);
        break;
      }
    }
  }

  /** Where the outermost question mark and colon of a rendered expression are. */
  lemma TopLevelOfRender(e: Expr, i: nat)
    ensures TopLevel(Render(e), i, Question) <==> e.Choose? && i == |RenderTerm(e.test)|
    ensures TopLevel(Render(e), i, Colon) <==> e.Choose? && i == |RenderTerm(e.test)| + 1 + |RenderTerm(e.yes)|
  {
    match e
    case Plain(a) => TermIsClosed(a);
    case Choose(test, yes, no) =>
      var a, b, c := RenderTerm(test), RenderTerm(yes), RenderTerm(no);
      TermIsClosed(test);
      TermIsClosed(yes);
      TermIsClosed(no);
      PositionsInChoice(a, b, c, i);
  }

  lemma PositionsInChoice(a: Text, b: Text, c: Text, i: nat)
    requires Balanced(a) && Closed(a) && Balanced(b) && Closed(b) && Balanced(c) && Closed(c)
    ensures var t := a + [Question] + b + [Colon] + c;
      && (TopLevel(t, i, Question) <==> i == |a|)
      && (TopLevel(t, i, Colon) <==> i == |a| + 1 + |b|)
  {
    hide Depth;
    var t1 := a + [Question]; var t2 := t1 + b; var t3 := t2 + [Colon]; var t := t3 + c;
    DepthOfOne(Question);
    DepthOfOne(Colon);
    DepthJoin(a, [Question]);
    DepthJoin(t1, b);
    DepthJoin(t2, [Colon]);
    if i < |t| {
      if i < |a| {
        assert t[..i + 1] == a[..i + 1] && t[i] == a[i];
      } else if i == |a| {
        assert t[..i + 1] == t1;
      } else if i < |t2| {
        assert t[..i + 1] == t1 + b[..i + 1 - |t1|] && t[i] == b[i - |t1|];
        DepthJoin(t1, b[..i + 1 - |t1|]);
        assert !TopLevel(b, i - |t1|, Question) && !TopLevel(b, i - |t1|, Colon);
      } else if i == |t2| {
        assert t[..i + 1] == t3;
      } else {
        assert t[..i + 1] == t3 + c[..i + 1 - |t3|] && t[i] == c[i - |t3|];
        DepthJoin(t3, c[..i + 1 - |t3|]);
        assert !TopLevel(c, i - |t3|, Question) && !TopLevel(c, i - |t3|, Colon);
      }
    }
    assert i < |a| ==> !TopLevel(a, i, Question) && !TopLevel(a, i, Colon);
  }

  /** The three parts of a text that is a conditional outside parentheses. */
  ghost function CutText(t: Text): (parts: Option<(Text, Text, Text)>)
    ensures parts.None? <==> forall q: nat, c: nat :: !IsConditional(t, q, c)
    ensures parts.Some? ==> exists q: nat, c: nat :: IsConditional(t, q, c) && parts.value == PartsAt(t, q, c)
  {
    if q: nat, c: nat :| IsConditional(t, q, c) then Some(PartsAt(t, q, c)) else None
  }

  function PartsAt(t: Text, q: nat, c: nat): (Text, Text, Text)
    requires q < c < |t|
  {
    (t[..q], t[q + 1..c], t[c + 1..])
  }

  lemma CutHere(t: Text, q: nat, c: nat)
    requires IsConditional(t, q, c)
    ensures CutText(t) == Some(PartsAt(t, q, c))
  {
    hide TopLevel;
    var q': nat, c': nat :| IsConditional(t, q', c') && CutText(t).value == PartsAt(t, q', c');
    ConditionalUnique(t, q, c, q', c');
  }

  /** Any text is cut where its conditional is. */
  method CutConditional(t: Text) returns (parts: Option<(Text, Text, Text)>)
    ensures parts == CutText(t)
  {
    hide TopLevel, CutText;
    var question, colon := FindConditional(t);
    if question.Some? && colon.Some? {
      CutHere(t, question.value, colon.value);
      return Some((t[..question.value], t[question.value + 1..colon.value], t[colon.value + 1..]));
    }
    parts := None;
  }

  /** A rendered expression is cut exactly into the three parts of its conditional, or left whole. */
  lemma CutOfRender(e: Expr)
    ensures CutText(Render(e)) == match e
                                  case Plain(_) => None
                                  case Choose(test, yes, no) => Some((RenderTerm(test), RenderTerm(yes), RenderTerm(no)))
  {
    hide RenderTerm, TopLevel, CutText;
    var t := Render(e);
    forall k: nat
      ensures TopLevel(t, k, Question) <==> e.Choose? && k == |RenderTerm(e.test)|
      ensures TopLevel(t, k, Colon) <==> e.Choose? && k == |RenderTerm(e.test)| + 1 + |RenderTerm(e.yes)|
    {
      TopLevelOfRender(e, k);
    }
    if e.Choose? {
      var q, c := |RenderTerm(e.test)|, |RenderTerm(e.test)| + 1 + |RenderTerm(e.yes)|;
      assert TopLevel(t, q, Question) && TopLevel(t, c, Colon);
      CutHere(t, q, c);
      assert t[..q] == RenderTerm(e.test) && t[q + 1..c] == RenderTerm(e.yes) && t[c + 1..] == RenderTerm(e.no);
    }
  }

  // ---------- Parentheses around the whole ----------

  lemma DepthOneMore(t: Text, i: nat)
    requires i < |t|
    ensures Depth(t[..i + 1]) == Depth(t[..i]) + Weight(t[i])
  {
    assert t[..i + 1][..i] == t[..i];
  }

  /** The position at which every parenthesis is first closed, or the last position. */
  method FirstClosed(t: Text) returns (i: nat)
    requires t != []
    ensures i < |t| && forall k | 0 < k <= i :: Depth(t[..k]) != 0
    ensures Depth(t[..i + 1]) == 0 || i == |t| - 1
  {
    hide Depth;
    i := 0;
    DepthOneMore(t, 0);
    var depth := Weight(t[0]);
    NoDepth(t);
    while depth != 0 && i + 1 < |t|
      invariant i < |t| && depth == Depth(t[..i + 1])
      invariant forall k | 0 < k <= i :: Depth(t[..k]) != 0
      decreases |t| - i
    {
      i := i + 1;
      DepthOneMore(t, i);
      depth := depth + Weight(t[i]);
    }
  }

  lemma NoDepth(t: Text)
    ensures Depth(t[..0]) == 0
  {}

  /** The first parenthesis is not closed before the end of the text. */
  predicate OpenToEnd(t: Text) { forall k | 0 < k < |t| :: Depth(t[..k]) != 0 }

  /** A text without the parentheses that enclose all of it. */
  function StripText(t: Text): (r: Text)
    ensures |r| <= |t|
    decreases |t|
  {
    if t != [] && t[0] == Open && t[|t| - 1] == Close && OpenToEnd(t) then StripText(t[1..|t| - 1]) else t
  }

  /** Removes parentheses that enclose the whole of any text, as often as there are any. */
  method StripGroups(text: Text) returns (t: Text)
    ensures t == StripText(text)
  {
    hide Depth;
    t := text;
    while t != [] && t[0] == Open && t[|t| - 1] == Close
      invariant StripText(t) == StripText(text)
      decreases |t|
    {
      var i := FirstClosed(t);
      if i != |t| - 1 {
        assert !OpenToEnd(t);
        break;
      }
      t := t[1..|t| - 1];
    }
  }

  function Strip(e: Expr): Expr {
    match e
    case Plain(Group(inner)) => Strip(inner)
    case _ => e
  }

  /** An expression that starts with a parenthesis but is not one group has closed it before its end. */
  lemma EarlyClose(e: Expr) returns (k: nat)
    requires Render(e) != [] && Render(e)[0] == Open && !(e.Plain? && e.a.Group?)
    ensures 0 < k < |Render(e)| && Depth(Render(e)[..k]) == 0
  {
    k := 0;
    match e
    case Choose(test, yes, no) =>
      TermIsClosed(test);
      k := |RenderTerm(test)|;
      assert Render(e)[..k] == RenderTerm(test);
    case Plain(Binary(op, left, right)) =>
      TermIsClosed(left);
      k := |RenderTerm(left)|;
      assert Render(e)[..k] == RenderTerm(left);
    case _ =>
  }

  /** If the first parenthesis closes at the very end, the expression is one group. */
  lemma WholeGroup(e: Expr)
    requires Render(e) != [] && Render(e)[0] == Open && forall k | 0 < k < |Render(e)| :: Depth(Render(e)[..k]) != 0
    ensures e.Plain? && e.a.Group? && |Render(e)| >= 2 && Render(e.a.inner) == Render(e)[1..|Render(e)| - 1]
  {
    hide Depth;
    if !(e.Plain? && e.a.Group?) {
      var k := EarlyClose(e);
      assert false;
    }
  }

  /** A rendered group begins and ends with parentheses. */
  lemma NoGroupLeft(e: Expr)
    ensures e.Plain? && e.a.Group? ==> Render(e) != [] && Render(e)[0] == Open && Render(e)[|Render(e)| - 1] == Close
    ensures !(e.Plain? && e.a.Group?) ==> Strip(e) == e
  {}

  /** Stripping a rendered expression removes exactly the groups that are all of it. */
  lemma {:induction false} StripOfRender(e: Expr)
    ensures StripText(Render(e)) == Render(Strip(e))
    decreases e
  {
    hide Depth, Render;
    var t := Render(e);
    NoGroupLeft(e);
    if e.Plain? && e.a.Group? {
      GroupOpenToEnd(e.a.inner);
      WholeGroup(e);
      StripOfRender(e.a.inner);
    } else if t != [] && t[0] == Open {
      var k := EarlyClose(e);
      assert !OpenToEnd(t);
    }
  }

  lemma GroupOpenToEnd(e: Expr)
    ensures OpenToEnd(Render(Plain(Group(e))))
  {
    ExprIsBalanced(e);
    Enclosed(Render(e));
  }
}
