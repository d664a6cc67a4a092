/** The evaluator of integer macros: evaluation that takes each macro out of the environment while
    its own definition is being evaluated, against plain unfolding of definitions. */
module MacroEval {
  import opened Arith
  import opened Collections
  import opened Options

  datatype Op = Add | Sub | Mul | FloorDiv | Shl | Shr | Lt | Le | Gt | Ge | Eq

  /** A whole expression: arithmetic, or one conditional that is not inside parentheses. */
  datatype Expr = Plain(a: Term) | Choose(test: Term, yes: Term, no: Term)

  /** Arithmetic; a group is an expression in parentheses, a macro has a backtick in front and a
      bare name has none. */
  datatype Term = Num(n: int) | Macro(name: string) | Bare(name: string) | Group(inner: Expr)
                 | Binary(op: Op, left: Term, right: Term) | Negate(a: Term) | Positive(a: Term) | Unsupported

  type Env = map<string, Expr>

  // ---------- Arithmetic ----------

  function Floor(a: int, b: int): int
    requires b != 0
  {
    if b > 0 then a / b else (-a) / (-b)
  }

  /** The quotient rounds down: the remainder is smaller than the divisor and has its sign. */
  lemma FloorRoundsDown(a: int, b: int)
    requires b != 0
    ensures var r := a - Floor(a, b) * b; if b > 0 then 0 <= r < b else b < r <= 0
  {
    if b < 0 {
      var q := (-a) / (-b);
      assert -a == q * (-b) + (-a) % (-b);
      assert q * (-b) == -(q * b);
    }
  }

  predicate IsCompare(op: Op) { op.Lt? || op.Le? || op.Gt? || op.Ge? || op.Eq? }

  function Truth(b: bool): int { if b then 1 else 0 }

  function Compute(op: Op, a: int, b: int): Option<int> {
    match op
    case Add => Some(a + b)
    case Sub => Some(a - b)
    case Mul => Some(a * b)
    case FloorDiv => if b == 0 then None else Some(Floor(a, b))
    case Shl => if b < 0 then None else Some(a * Pow2(b))
    case Shr => if b < 0 then None else Some(Floor(a, Pow2(b)))
    case Lt => Some(Truth(a < b))
    case Le => Some(Truth(a <= b))
    case Gt => Some(Truth(a > b))
    case Ge => Some(Truth(a >= b))
    case Eq => Some(Truth(a == b))
  }

  /** A comparison whose operand is itself a comparison, not in parentheses, is a chain, which is
      not supported. */
  predicate Chained(op: Op, left: Term, right: Term) {
    IsCompare(op) && ((left.Binary? && IsCompare(left.op)) || (right.Binary? && IsCompare(right.op)))
  }

  function Combine(op: Op, left: Term, right: Term, x: Option<int>, y: Option<int>): Option<int> {
    if Chained(op, left, right) || x.None? || y.None? then None else Compute(op, x.value, y.value)
  }

  // ---------- The value of an expression, given the values of names ----------

  type Lookup = string -> Option<int>

  /** A whole expression: parentheses around all of it are ignored, and a macro or a bare name that
      is all of it is looked up. */
  function Value(e: Expr, look: Lookup): Option<int>
    decreases e, 1
  {
    match e
    case Plain(a) => ValueAlone(a, look)
    case Choose(test, yes, no) =>
      var c := ValueAlone(test, look);
      if c.None? then None else if c.value != 0 then ValueAlone(yes, look) else ValueAlone(no, look)
  }

  function ValueAlone(a: Term, look: Lookup): Option<int>
    decreases a, 2
  {
    match a
    case Group(inner) => Value(inner, look)
    case Macro(name) => look(name)
    case Bare(name) => look(name)
    case _ => ValueWithin(a, look)
  }

  /** Arithmetic inside a larger expression, where a bare name is not looked up. */
  function ValueWithin(a: Term, look: Lookup): Option<int>
    decreases a, 1
  {
    match a
    case Num(n) => Some(n)
    case Macro(name) => look(name)
    case Bare(_) => None
    case Group(Choose(test, yes, no)) => Value(Choose(test, yes, no), look)
    case Group(Plain(inner)) => ValueWithin(inner, look)
    case Binary(op, left, right) => Combine(op, left, right, ValueWithin(left, look), ValueWithin(right, look))
    case Negate(inner) => (var x := ValueWithin(inner, look); if x.None? then None else Some(-x.value))
    case Positive(inner) => ValueWithin(inner, look)
    case Unsupported => None
  }

  // ---------- Names, with a shrinking environment ----------

  /** The value of a macro: its definition, evaluated without the macro itself.  This terminates
      for every environment, definitions that refer to each other in circles included. */
  function Resolve(name: string, env: Env): Option<int>
    decreases |env|
  {
    if name !in env then None
    else
      SmallerWithout(env, name);
      Value(env[name], n => Resolve(n, env - {name}))
  }

  function Eval(e: Expr, env: Env): Option<int> { Value(e, n => Resolve(n, env)) }

  // ---------- Names, by plain unfolding ----------

  /** The value of a macro when definitions may be unfolded at most n deep, with the environment
      as it is. */
  function Unfold(n: nat, name: string, env: Env): Option<int>
    decreases n
  {
    if n == 0 || name !in env then None else Value(env[name], m => Unfold(n - 1, m, env))
  }

  function UnfoldExpr(n: nat, e: Expr, env: Env): Option<int> { Value(e, m => Unfold(n, m, env)) }

  // ---------- Evaluation finds exactly the values that unfolding reaches ----------

  ghost predicate Extends(look: Lookup, more: Lookup) {
    forall name :: look(name).Some? ==> more(name) == look(name)
  }

  lemma {:induction false} ValueExtends(e: Expr, look: Lookup, more: Lookup)
    requires Extends(look, more) && Value(e, look).Some?
    ensures Value(e, more) == Value(e, look)
    decreases e, 1
  {
    match e
    case Plain(a) => AloneExtends(a, look, more);
    case Choose(test, yes, no) =>
      AloneExtends(test, look, more);
      if ValueAlone(test, look).value != 0 { AloneExtends(yes, look, more); } else { AloneExtends(no, look, more); }
  }

  lemma {:induction false} AloneExtends(a: Term, look: Lookup, more: Lookup)
    requires Extends(look, more) && ValueAlone(a, look).Some?
    ensures ValueAlone(a, more) == ValueAlone(a, look)
    decreases a, 2
  {
    match a
    case Group(inner) => ValueExtends(inner, look, more);
    case Macro(_) =>
    case Bare(_) =>
    case Unsupported =>
    case _ => WithinExtends(a, look, more);
  }

  lemma {:induction false} WithinExtends(a: Term, look: Lookup, more: Lookup)
    requires Extends(look, more) && ValueWithin(a, look).Some?
    ensures ValueWithin(a, more) == ValueWithin(a, look)
    decreases a, 1
  {
    match a
    case Group(Choose(test, yes, no)) => ValueExtends(Choose(test, yes, no), look, more);
    case Group(Plain(inner)) => WithinExtends(inner, look, more);
    case Binary(_, left, right) => WithinExtends(left, look, more); WithinExtends(right, look, more);
    case Negate(inner) => WithinExtends(inner, look, more);
    case Positive(inner) => WithinExtends(inner, look, more);
    case _ =>
  }

  /** More unfolding finds the same values. */
  lemma {:induction false} UnfoldMore(n: nat, m: nat, name: string, env: Env)
    requires n <= m && Unfold(n, name, env).Some?
    ensures Unfold(m, name, env) == Unfold(n, name, env)
    decreases n
  {
    var look: Lookup := x => Unfold(n - 1, x, env);
    var more: Lookup := x => Unfold(m - 1, x, env);
    forall x | look(x).Some? ensures more(x) == look(x) { UnfoldMore(n - 1, m - 1, x, env); }
    ValueExtends(env[name], look, more);
  }

  /** A value found with a smaller environment is found by unfolding as deep as it is large. */
  lemma {:induction false} ResolveIsUnfolding(name: string, small: Env, env: Env)
    requires Resolve(name, small).Some?
    requires forall k | k in small :: k in env && small[k] == env[k]
    ensures Unfold(|small|, name, env) == Resolve(name, small)
    decreases |small|
  {
    SmallerWithout(small, name);
    var look: Lookup := x => Resolve(x, small - {name});
    var more: Lookup := x => Unfold(|small| - 1, x, env);
    forall x | look(x).Some? ensures more(x) == look(x) { ResolveIsUnfolding(x, small - {name}, env); }
    ValueExtends(env[name], look, more);
  }

  /** The least depth at which unfolding finds a value. */
  lemma {:induction false} LeastDepth(n: nat, name: string, env: Env) returns (k: nat)
    requires Unfold(n, name, env).Some?
    ensures 0 < k <= n && Unfold(k, name, env) == Unfold(n, name, env) && Unfold(k - 1, name, env) == None
    decreases n
  {
    if Unfold(n - 1, name, env).Some? {
      UnfoldMore(n - 1, n, name, env);
      k := LeastDepth(n - 1, name, env);
    } else {
      k := n;
    }
  }

  /** A value found by unfolding never needs the macros whose own values take deeper unfolding. */
  lemma {:induction false} UnfoldingIsResolved(n: nat, name: string, env: Env, away: set<string>)
    requires Unfold(n, name, env).Some?
    requires forall s | s in away :: Unfold(n, s, env) == None
    ensures Resolve(name, env - away) == Unfold(n, name, env)
    decreases n
  {
    var k := LeastDepth(n, name, env);
    var look: Lookup := x => Unfold(k - 1, x, env);
    var more: Lookup := x => Resolve(x, env - (away + {name}));
    forall s | s in away + {name} ensures Unfold(k - 1, s, env) == None {
      if s != name && Unfold(k - 1, s, env).Some? { UnfoldMore(k - 1, n, s, env); }
    }
    forall x | look(x).Some? ensures more(x) == look(x) { UnfoldingIsResolved(k - 1, x, env, away + {name}); }
    ValueExtends(env[name], look, more);
    assert (env - away) - {name} == env - (away + {name});
    ResolveOnce(name, env - away, more);
  }

  lemma ResolveOnce(name: string, env: Env, look: Lookup)
    requires name in env && forall x :: look(x) == Resolve(x, env - {name})
    ensures Resolve(name, env) == Value(env[name], look)
  {
    SmallerWithout(env, name);
    var self: Lookup := x => Resolve(x, env - {name});
    if Value(env[name], look).Some? { ValueExtends(env[name], look, self); }
    if Value(env[name], self).Some? { ValueExtends(env[name], self, look); }
  }

  /** Taking macros away while they are being evaluated loses no value and adds none: an expression
      has a value exactly when unfolding definitions reaches that value after finitely many steps.
      In particular a macro whose value needs itself has none. */
  lemma EvalIsUnfolding(e: Expr, env: Env, v: int)
    ensures Eval(e, env) == Some(v) <==> exists n: nat :: UnfoldExpr(n, e, env) == Some(v)
  {
    var resolved: Lookup := x => Resolve(x, env);
    if Eval(e, env) == Some(v) {
      var depth := |env|;
      var unfolded: Lookup := x => Unfold(depth, x, env);
      forall x | resolved(x).Some? ensures unfolded(x) == resolved(x) { ResolveIsUnfolding(x, env, env); }
      ValueExtends(e, resolved, unfolded);
      assert UnfoldExpr(depth, e, env) == Some(v);
    }
    if n: nat :| UnfoldExpr(n, e, env) == Some(v) {
      var unfolded: Lookup := x => Unfold(n, x, env);
      assert env - {} == env;
      forall x | unfolded(x).Some? ensures resolved(x) == unfolded(x) { UnfoldingIsResolved(n, x, env, {}); }
      ValueExtends(e, unfolded, resolved);
    }
  }

  /** Unfolding as deep as the environment is large always suffices. */
  lemma DepthOfEnvironmentSuffices(e: Expr, env: Env)
    ensures Eval(e, env) == UnfoldExpr(|env|, e, env)
  {
    var resolved: Lookup := x => Resolve(x, env);
    var unfolded: Lookup := x => Unfold(|env|, x, env);
    assert env - {} == env;
    forall x | unfolded(x).Some? ensures resolved(x) == unfolded(x) { UnfoldingIsResolved(|env|, x, env, {}); }
    forall x | resolved(x).Some? ensures unfolded(x) == resolved(x) { ResolveIsUnfolding(x, env, env); }
    if Eval(e, env).Some? { ValueExtends(e, resolved, unfolded); }
    if UnfoldExpr(|env|, e, env).Some? { ValueExtends(e, unfolded, resolved); }
  }

  // ---------- Macros that reach themselves ----------

  /** Names whose definitions all come to nothing when the names themselves have no value and every
      other name has its own. */
  ghost predicate Stuck(s: set<string>, env: Env) {
    forall x | x in s && x in env :: Value(env[x], y => if y in s then None else Resolve(y, env)) == None
  }

  lemma {:induction false} StuckNeverUnfolds(n: nat, x: string, s: set<string>, env: Env)
    requires Stuck(s, env) && x in s
    ensures Unfold(n, x, env) == None
    decreases n
  {
    if n > 0 && x in env {
      var unfolded: Lookup := y => Unfold(n - 1, y, env);
      var stuck: Lookup := y => if y in s then None else Resolve(y, env);
      forall y | unfolded(y).Some? ensures stuck(y) == unfolded(y) {
        if y in s { StuckNeverUnfolds(n - 1, y, s, env); }
        assert env - {} == env;
        UnfoldingIsResolved(n - 1, y, env, {});
      }
      if Value(env[x], unfolded).Some? { ValueExtends(env[x], unfolded, stuck); }
    }
  }

  lemma StuckHasNoValue(x: string, s: set<string>, env: Env)
    requires Stuck(s, env) && x in s
    ensures Resolve(x, env) == None
  {
    StuckNeverUnfolds(|env|, x, s, env);
    if Resolve(x, env).Some? { ResolveIsUnfolding(x, env, env); }
  }

  /** The value of a macro is the value of its definition where every name, the macro itself
      included, has its own value. */
  lemma ResolveIsFixedPoint(name: string, env: Env)
    requires name in env
    ensures Resolve(name, env) == Value(env[name], x => Resolve(x, env))
  {
    var own: Lookup := x => Resolve(x, env);
    var depth := |env|;
    assert env - {} == env;
    if Resolve(name, env).Some? {
      ResolveIsUnfolding(name, env, env);
      var unfolded: Lookup := x => Unfold(depth - 1, x, env);
      forall x | unfolded(x).Some? ensures own(x) == unfolded(x) { UnfoldingIsResolved(depth - 1, x, env, {}); }
      ValueExtends(env[name], unfolded, own);
    } else if Value(env[name], own).Some? {
      var unfolded: Lookup := x => Unfold(depth, x, env);
      forall x | own(x).Some? ensures unfolded(x) == own(x) { ResolveIsUnfolding(x, env, env); }
      ValueExtends(env[name], own, unfolded);
      UnfoldingIsResolved(depth + 1, name, env, {});
    }
  }

  /** A macro has no value exactly when it is among names that are stuck together: each definition
      fails with all of them unvalued and every other name at its own value. */
  lemma NoValueExactlyWhenStuck(name: string, env: Env)
    ensures Resolve(name, env) == None <==> exists s :: name in s && Stuck(s, env)
  {
    if s :| name in s && Stuck(s, env) { StuckHasNoValue(name, s, env); }
    if Resolve(name, env) == None {
      var s := {name} + set x | x in env && Resolve(x, env) == None;
      var own: Lookup := x => Resolve(x, env);
      var stuck: Lookup := y => if y in s then None else Resolve(y, env);
      forall x | x in s && x in env ensures Value(env[x], stuck) == None {
        ResolveIsFixedPoint(x, env);
        if Value(env[x], stuck).Some? { ValueExtends(env[x], stuck, own); }
      }
      assert Stuck(s, env);
    }
  }

  /** A name of s is needed whatever the values of other names: it stands in an operand, in the
      test of a conditional, or in both its branches. */
  predicate Strict(e: Expr, s: set<string>)
    decreases e, 1
  {
    match e
    case Plain(a) => StrictTerm(a, s)
    case Choose(test, yes, no) => StrictTerm(test, s) || (StrictTerm(yes, s) && StrictTerm(no, s))
  }

  predicate StrictTerm(a: Term, s: set<string>)
    decreases a, 0
  {
    match a
    case Macro(name) => name in s
    case Bare(name) => name in s
    case Group(inner) => Strict(inner, s)
    case Binary(_, left, right) => StrictTerm(left, s) || StrictTerm(right, s)
    case Negate(inner) => StrictTerm(inner, s)
    case Positive(inner) => StrictTerm(inner, s)
    case _ => false
  }

  /** Strictness is that: without values for s there is none, whatever the other names have. */
  lemma {:induction false} StrictNeeds(e: Expr, s: set<string>, look: Lookup)
    requires Strict(e, s) && forall x | x in s :: look(x) == None
    ensures Value(e, look) == None
    decreases e, 1
  {
    match e
    case Plain(a) => StrictTermNeeds(a, s, look);
    case Choose(test, yes, no) =>
      if StrictTerm(test, s) {
        StrictTermNeeds(test, s, look);
      } else {
        StrictTermNeeds(yes, s, look);
        StrictTermNeeds(no, s, look);
      }
  }

  lemma {:induction false} StrictTermNeeds(a: Term, s: set<string>, look: Lookup)
    requires StrictTerm(a, s) && forall x | x in s :: look(x) == None
    ensures ValueAlone(a, look) == None && ValueWithin(a, look) == None
    decreases a, 0
  {
    match a
    case Group(Choose(test, yes, no)) => StrictNeeds(Choose(test, yes, no), s, look);
    case Group(Plain(inner)) =>
      StrictTermNeeds(inner, s, look);
      assert Value(Plain(inner), look) == ValueAlone(inner, look);
    case Binary(_, left, right) =>
      if StrictTerm(left, s) { StrictTermNeeds(left, s, look); } else { StrictTermNeeds(right, s, look); }
    case Negate(inner) => StrictTermNeeds(inner, s, look);
    case Positive(inner) => StrictTermNeeds(inner, s, look);
    case _ =>
  }

  /** Macros whose definitions all fail when none of them has a value have none. */
  lemma CyclesHaveNoValue(s: set<string>, env: Env)
    requires forall x, look: Lookup | x in s && x in env && (forall y | y in s :: look(y) == None) ::
      Value(env[x], look) == None
    ensures forall x | x in s :: Resolve(x, env) == None
  {
    var stuck: Lookup := y => if y in s then None else Resolve(y, env);
    forall x | x in s ensures Resolve(x, env) == None {
      assert forall y | y in s :: stuck(y) == None;
      assert Stuck(s, env);
      StuckHasNoValue(x, s, env);
    }
  }

  /** Macros whose definitions each need one of them have no value: cycles of any length, however
      entangled, in any environment. */
  lemma StrictCyclesHaveNoValue(s: set<string>, env: Env)
    requires forall x | x in s && x in env :: Strict(env[x], s)
    ensures forall x | x in s :: Resolve(x, env) == None
  {
    forall x, look: Lookup | x in s && x in env && (forall y | y in s :: look(y) == None)
      ensures Value(env[x], look) == None
    {
      StrictNeeds(env[x], s, look);
    }
    CyclesHaveNoValue(s, env);
  }

  /** In particular a macro whose own value is needed for its definition has none. */
  lemma DirectCycle(name: string, env: Env)
    requires name in env && Strict(env[name], {name})
    ensures Resolve(name, env) == None
  {
    StrictCyclesHaveNoValue({name}, env);
  }

  /** But a macro may mention itself where its value is not needed: in the branch not taken. */
  lemma UnusedCycle(name: string)
    ensures Resolve(name, map[name := Choose(Num(1), Num(2), Macro(name))]) == Some(2)
  {
    var env: Env := map[name := Choose(Num(1), Num(2), Macro(name))];
    var look: Lookup := x => Resolve(x, env - {name});
    ResolveOnce(name, env, look);
    assert ValueAlone(Num(1), look) == Some(1) && ValueAlone(Num(2), look) == Some(2);
  }
}
