/** Python's grammar of the arithmetic that the macro evaluator accepts, as a parser of tokens, and
    what it makes of a rendered expression. */
module MacroParse {
  import opened Options
  import opened MacroEval
  import opened MacroText

  // ---------- The grammar ----------

  /** How tightly an operator binds: comparisons, shifts, sums, products. */
  function LevelOf(op: Op): (level: nat)
    ensures level <= 3
  {
    match op
    case Mul => 3
    case FloorDiv => 3
    case Add => 2
    case Sub => 2
    case Shl => 1
    case Shr => 1
    case _ => 0
  }

  /** Signs bind tighter than all of them. */
  function Level(a: Term): nat {
    match a
    case Binary(op, _, _) => LevelOf(op)
    case Negate(_) => 4
    case Positive(_) => 4
    case _ => 5
  }

  /** Arithmetic with parentheses wherever the grammar needs them; operators of one level group to
      the left. */
  predicate Grammatical(a: Term)
    decreases a, 0
  {
    match a
    case Group(inner) => GrammaticalExpr(inner)
    case Binary(op, left, right) =>
      Level(left) >= LevelOf(op) && Level(right) > LevelOf(op) && Grammatical(left) && Grammatical(right)
    case Negate(inner) => Level(inner) >= 4 && Grammatical(inner)
    case Positive(inner) => Level(inner) >= 4 && Grammatical(inner)
    case _ => true
  }

  predicate GrammaticalExpr(e: Expr)
    decreases e, 1
  {
    match e
    case Plain(a) => Grammatical(a)
    case Choose(test, yes, no) => Grammatical(test) && Grammatical(yes) && Grammatical(no)
  }

  // ---------- The parser ----------

  /** An operator of this level outside parentheses. */
  predicate OpAt(level: nat, t: Text, i: nat) {
    i < |t| && t[i].Operator? && LevelOf(t[i].op) == level && Depth(t[..i + 1]) == 0
  }

  /** The last such operator before position n. */
  function LastOp(level: nat, t: Text, n: nat): (r: Option<nat>)
    requires n <= |t|
    ensures r.Some? ==> r.value < n && OpAt(level, t, r.value) && forall k: nat | r.value < k < n :: !OpAt(level, t, k)
    ensures r.None? ==> forall k: nat | k < n :: !OpAt(level, t, k)
  {
    if n == 0 then None else if OpAt(level, t, n - 1) then Some(n - 1) else LastOp(level, t, n - 1)
  }

  /** The value of a text as arithmetic in which no operator of a lower level is outside
      parentheses; names, and comparisons of comparisons, have none. */
  function Parse(level: nat, t: Text): Option<int>
    requires level <= 4
    decreases |t|, 4 - level
  {
    if level == 4 then
      if t == [] then None
      else if t[0] == Minus then (var x := Parse(4, t[1..]); if x.None? then None else Some(-x.value))
      else if t[0] == Plus then Parse(4, t[1..])
      else if |t| == 1 then (if t[0].Int? then Some(t[0].n) else None)
      else if t[0] == Open && t[|t| - 1] == Close && OpenToEnd(t) then Parse(0, t[1..|t| - 1])
      else None
    else
      var last := LastOp(level, t, |t|);
      if last.None? then Parse(level + 1, t)
      else
        var left, right := t[..last.value], t[last.value + 1..];
        if level == 0 && LastOp(0, left, |left|).Some? then None
        else
          var x, y := Parse(level, left), Parse(level + 1, right);
          if x.None? || y.None? then None else Compute(t[last.value].op, x.value, y.value)
  }

  // ---------- The operators of rendered arithmetic ----------

  lemma OpInJoin(level: nat, a: Text, b: Text, i: nat)
    requires Depth(a) == 0
    ensures OpAt(level, a + b, i) <==> if i < |a| then OpAt(level, a, i) else OpAt(level, b, i - |a|)
  {
    hide Depth, LevelOf;
    if i < |a + b| {
      PrefixOfJoin(a, b, i + 1);
      assert (a + b)[i] == if i < |a| then a[i] else b[i - |a|];
    }
  }

  lemma NoOpInOne(level: nat, token: Token, i: nat)
    requires !token.Operator?
    ensures !OpAt(level, [token], i)
  {}

  lemma OpInOne(level: nat, op: Op, i: nat)
    ensures OpAt(level, [Operator(op)], i) <==> i == 0 && LevelOf(op) == level
  {
    DepthOfOne(Operator(op));
    assert [Operator(op)][..1] == [Operator(op)];
  }

  lemma NoOpInGroup(level: nat, t: Text, i: nat)
    requires Balanced(t)
    ensures !OpAt(level, [Open] + t + [Close], i)
  {
    Enclosed(t);
  }

  /** Outside parentheses there is no operator that binds less tightly than the whole. */
  lemma {:induction false} OpsOfTerm(a: Term, level: nat, i: nat)
    requires Grammatical(a) && OpAt(level, RenderTerm(a), i)
    ensures level >= Level(a)
    decreases a
  {
    hide OpAt, Depth, Balanced, Closed;
    match a
    case Group(inner) =>
      ExprIsBalanced(inner);
      NoOpInGroup(level, Render(inner), i);
    case Binary(op, left, right) =>
      OpInBinary(op, left, right, level, i);
      if i < |RenderTerm(left)| {
        OpsOfTerm(left, level, i);
      } else if i > |RenderTerm(left)| {
        OpsOfTerm(right, level, i - |RenderTerm(left)| - 1);
      }
    case Negate(inner) => OpAfterSign(Minus, inner, level, i); OpsOfTerm(inner, level, i - 1);
    case Positive(inner) => OpAfterSign(Plus, inner, level, i); OpsOfTerm(inner, level, i - 1);
    case Num(n) => NoOpInOne(level, Int(n), i);
    case Macro(name) => NoOpInOne(level, Tick(name), i);
    case Bare(name) => NoOpInOne(level, Name(name), i);
    case Unsupported => NoOpInOne(level, Unknown, i);
  }

  lemma OpAfterSign(sign: Token, inner: Term, level: nat, i: nat)
    requires sign == Minus || sign == Plus
    requires OpAt(level, [sign] + RenderTerm(inner), i)
    ensures i > 0 && OpAt(level, RenderTerm(inner), i - 1)
  {
    DepthOfOne(sign);
    OpInJoin(level, [sign], RenderTerm(inner), i);
  }

  lemma OpInBinary(op: Op, left: Term, right: Term, level: nat, i: nat)
    ensures OpAt(level, RenderTerm(Binary(op, left, right)), i) <==>
            if i < |RenderTerm(left)| then OpAt(level, RenderTerm(left), i)
            else if i == |RenderTerm(left)| then LevelOf(op) == level
            else OpAt(level, RenderTerm(right), i - |RenderTerm(left)| - 1)
  {
    var x, y := RenderTerm(left), RenderTerm(right);
    TermIsClosed(left);
    DepthOfOne(Operator(op));
    DepthJoin(x, [Operator(op)]);
    OpInJoin(level, x + [Operator(op)], y, i);
    OpInJoin(level, x, [Operator(op)], i);
    if i >= |x| { OpInOne(level, op, i - |x|); }
  }

  // ---------- Parsing rendered arithmetic ----------

  /** Arithmetic without macros or conditionals. */
  predicate Flat(a: Term) {
    match a
    case Macro(_) => false
    case Group(Choose(_, _, _)) => false
    case Group(Plain(inner)) => Flat(inner)
    case Binary(_, left, right) => Flat(left) && Flat(right)
    case Negate(inner) => Flat(inner)
    case Positive(inner) => Flat(inner)
    case _ => true
  }

  function Nowhere(name: string): Option<int> { None }

  lemma ParseSplit(level: nat, t: Text, i: nat)
    requires level < 4 && OpAt(level, t, i) && forall k: nat | k > i :: !OpAt(level, t, k)
    ensures Parse(level, t) ==
            if level == 0 && LastOp(0, t[..i], i).Some? then None
            else
              var x, y := Parse(level, t[..i]), Parse(level + 1, t[i + 1..]);
              if x.None? || y.None? then None else Compute(t[i].op, x.value, y.value)
  {
    hide Compute;
    assert LastOp(level, t, |t|) == Some(i) by {
      hide Parse, OpAt;
      var r := LastOp(level, t, |t|);
      InText(level, t, i);
      assert r.Some?;
    }
  }

  lemma InText(level: nat, t: Text, i: nat)
    requires OpAt(level, t, i)
    ensures i < |t|
  {}

  lemma ParseNext(level: nat, t: Text)
    requires level < 4 && forall k: nat :: !OpAt(level, t, k)
    ensures Parse(level, t) == Parse(level + 1, t)
  {
    hide OpAt;
    assert LastOp(level, t, |t|).None?;
  }

  /** The grammar gives rendered arithmetic back: its text has the value of the expression. */
  lemma {:induction false} ParseOfRender(a: Term, level: nat)
    requires Grammatical(a) && Flat(a) && level <= Level(a) && level <= 4
    ensures Parse(level, RenderTerm(a)) == ValueWithin(a, Nowhere)
    decreases a, 4 - level
  {
    hide OpAt, OpenToEnd, Parse, RenderTerm, Compute;
    if level < 4 && level < Level(a) {
      forall i: nat ensures !OpAt(level, RenderTerm(a), i) {
        if OpAt(level, RenderTerm(a), i) { OpsOfTerm(a, level, i); }
      }
      ParseNext(level, RenderTerm(a));
      ParseOfRender(a, level + 1);
    } else if level < 4 {
      ParseBinary(a.op, a.left, a.right);
      ParseOfRender(a.left, level);
      ParseOfRender(a.right, level + 1);
    } else {
      match a
      case Group(Plain(inner)) =>
        ParseGroup(inner);
        ParseOfRender(inner, 0);
      case Negate(inner) =>
        ParseSigned(inner);
        ParseOfRender(inner, 4);
      case Positive(inner) =>
        ParseSigned(inner);
        ParseOfRender(inner, 4);
      case _ => ParseOne(a);
    }
  }

  lemma ParseBinary(op: Op, left: Term, right: Term)
    requires Grammatical(Binary(op, left, right))
    ensures var level := LevelOf(op);
      Parse(level, RenderTerm(Binary(op, left, right)))
      == if Chained(op, left, right) then None
         else
           var x, y := Parse(level, RenderTerm(left)), Parse(level + 1, RenderTerm(right));
           if x.None? || y.None? then None else Compute(op, x.value, y.value)
  {
    hide OpAt, Parse, Compute;
    var level := LevelOf(op);
    var t, x, y := RenderTerm(Binary(op, left, right)), RenderTerm(left), RenderTerm(right);
    forall i: nat ensures OpAt(level, t, i) ==> i <= |x| {
      OpInBinary(op, left, right, level, i);
      if i > |x| && OpAt(level, y, i - |x| - 1) { OpsOfTerm(right, level, i - |x| - 1); }
    }
    OpInBinary(op, left, right, level, |x|);
    ParseSplit(level, t, |x|);
    assert t[..|x|] == x && t[|x| + 1..] == y && t[|x|] == Operator(op);
    ChainInLeft(left);
    ChainsAreLeft(op, left, right);
  }

  lemma ChainsAreLeft(op: Op, left: Term, right: Term)
    requires Grammatical(Binary(op, left, right))
    ensures Chained(op, left, right) <==> LevelOf(op) == 0 && left.Binary? && IsCompare(left.op)
  {}

  lemma ChainInLeft(left: Term)
    requires Grammatical(left)
    ensures LastOp(0, RenderTerm(left), |RenderTerm(left)|).Some? <==> left.Binary? && IsCompare(left.op)
  {
    hide OpAt;
    var t := RenderTerm(left);
    if left.Binary? && IsCompare(left.op) {
      OpInBinary(left.op, left.left, left.right, 0, |RenderTerm(left.left)|);
    } else {
      forall i: nat ensures !OpAt(0, t, i) { if OpAt(0, t, i) { OpsOfTerm(left, 0, i); } }
    }
  }

  lemma ParseGroup(inner: Term)
    ensures Parse(4, RenderTerm(Group(Plain(inner)))) == Parse(0, RenderTerm(inner))
  {
    hide OpAt, OpenToEnd, Depth;
    var t := RenderTerm(Group(Plain(inner)));
    GroupOpenToEnd(Plain(inner));
    var r := RenderTerm(inner);
    assert Render(Plain(inner)) == r && t == [Open] + r + [Close];
    assert t[1..|t| - 1] == r;
  }

  lemma ParseSign(t: Text, r: Text)
    requires t != [] && t[1..] == r
    ensures t[0] == Minus ==> Parse(4, t) == (if Parse(4, r).None? then None else Some(-Parse(4, r).value))
    ensures t[0] == Plus ==> Parse(4, t) == Parse(4, r)
  {
    hide LastOp, OpenToEnd;
  }

  lemma ParseSigned(inner: Term)
    ensures var x := Parse(4, RenderTerm(inner));
      && Parse(4, RenderTerm(Negate(inner))) == (if x.None? then None else Some(-x.value))
      && Parse(4, RenderTerm(Positive(inner))) == x
  {
    hide Parse;
    var r := RenderTerm(inner);
    assert ([Minus] + r)[1..] == r && ([Plus] + r)[1..] == r;
    ParseSign(RenderTerm(Negate(inner)), r);
    ParseSign(RenderTerm(Positive(inner)), r);
  }

  lemma ParseOne(a: Term)
    requires a.Num? || a.Bare? || a.Unsupported?
    ensures Parse(4, RenderTerm(a)) == if a.Num? then Some(a.n) else None
  {}
}
