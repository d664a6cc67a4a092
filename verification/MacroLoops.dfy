/** The evaluator of tokens as the source runs it, with its loops, proved to compute `EvalText`. */
module MacroLoops {
  import opened Collections
  import opened Options
  import opened MacroEval
  import opened MacroText
  import opened MacroParse
  import opened MacroTokens

  /** Where the parenthesis that starts a text closes. */
  method FindClose(t: Text) returns (close: Option<nat>)
    ensures close == CloseFrom(t, 0)
  {
    hide Depth;
    var depth := 0;
    NoDepth(t);
    for j := 0 to |t|
      invariant depth == Depth(t[..j]) && CloseFrom(t, 0) == CloseFrom(t, j)
    {
      DepthOneMore(t, j);
      depth := depth + Weight(t[j]);
      if depth == 0 { return Some(j); }
    }
    close := None;
  }

  /** Where a group with a conditional in it ends, if the text starts with one. */
  method FindGroup(t: Text) returns (close: Option<nat>)
    ensures close.Some? <==> StartsFold(t)
    ensures close.Some? ==> close == CloseFrom(t, 0) && 1 <= close.value < |t|
  {
    hide CloseFrom, TopLevel;
    if t == [] || t[0] != Open { return None; }
    close := FindClose(t);
    if close.None? || close.value == 0 { return None; }
    var found := HasTopLevelQuestion(t[1..close.value]);
    if !found { close := None; }
  }

  /** The folding loop. */
  method Fold(t: Text, env: Texts) returns (folded: Option<Text>)
    ensures folded == FoldText(t, env)
    decreases |env|, 1, |t|, 0
  {
    hide EvalText, FoldText, CloseFrom, StartsFold, NumText, Prepend;
    var out: Text, i := [], 0;
    assert t[0..] == t;
    PrependNothing(FoldText(t, env));
    while i < |t|
      invariant 0 <= i <= |t| && FoldText(t, env) == Prepend(out, FoldText(t[i..], env))
    {
      FoldNext(t[i..], env);
      var group := FindGroup(t[i..]);
      var word, next := [t[i]], i + 1;
      if group.Some? {
        next := i + group.value + 1;
        assert t[i..][1..group.value] == t[i + 1..next - 1];
        var v := Evaluate(t[i + 1..next - 1], env);
        if v.None? {
          NothingToPrepend(out);
          return None;
        }
        word := NumText(v.value);
      }
      assert t[i..][next - i..] == t[next..];
      PrependTwice(out, word, FoldText(t[next..], env));
      out, i := out + word, next;
    }
    assert t[i..] == [];
    FoldEnds(out, env);
    folded := Some(out);
  }

  lemma PrependNothing(r: Option<Text>)
    ensures Prepend([], r) == r
  {
    if r.Some? { assert [] + r.value == r.value; }
  }

  lemma FoldEnds(out: Text, env: Texts)
    ensures Prepend(out, FoldText([], env)) == Some(out)
  {
    assert out + [] == out;
  }

  /** The macro substitution. */
  method Substitute(t: Text, env: Texts) returns (r: Text)
    ensures r == SubstituteText(t, env)
    decreases |env|, 1, |t|, 0
  {
    hide EvalText, SubstituteText;
    r := [];
    assert t[0..] == t && [] + SubstituteText(t, env) == SubstituteText(t, env);
    for i := 0 to |t|
      invariant SubstituteText(t, env) == r + SubstituteText(t[i..], env)
    {
      assert t[i..] == [t[i]] + t[i + 1..];
      if t[i].Tick? {
        SubstituteTick(t[i].name, t[i + 1..], env);
        var v := Evaluate([t[i]], env);
        var word := if v.None? then [Name("unknown")] else NumText(v.value);
        Associative(r, word, SubstituteText(t[i + 1..], env));
        r := r + word;
      } else {
        SubstituteToken(t[i], t[i + 1..], env);
        Associative(r, [t[i]], SubstituteText(t[i + 1..], env));
        r := r + [t[i]];
      }
    }
    NothingLeft(env);
    assert t[|t|..] == [] && r + [] == r;
  }

  /** The whole evaluator, on any tokens and any definitions; it always ends. */
  method Evaluate(text: Text, env: Texts) returns (v: Option<int>)
    ensures v == EvalText(text, env)
    decreases |env|, if |text| == 1 && text[0].Tick? then 0 else 1, |text|, 1
  {
    hide Parse, FoldText, SubstituteText;
    var t := StripGroups(text);
    if IsName(t) && t[0].name in env {
      SmallerWithout(env, t[0].name);
      v := Evaluate(env[t[0].name], env - {t[0].name});
      return;
    }
    if IsName(t) && t[0].Tick? { return None; }
    var cut := CutConditional(t);
    if cut.Some? {
      var c := Evaluate(cut.value.0, env);
      if c.None? { return None; }
      if c.value != 0 { v := Evaluate(cut.value.1, env); } else { v := Evaluate(cut.value.2, env); }
      return;
    }
    var folded := Fold(t, env);
    if folded.None? { return None; }
    var flat := Substitute(folded.value, env);
    v := Parse(0, flat);
  }
}
