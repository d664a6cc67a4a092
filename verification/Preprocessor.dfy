/** Conditional compilation directives read by a loop with a stack, against the nested blocks
    that they stand for. */
module Preprocessor {
  datatype Line = Ifdef(name: string) | Ifndef(name: string) | Else | Endif | Define(name: string, value: string) | Other

  /** A conditional has a then-part and, when `hasElse` is set, an else-part. */
  datatype Item = Text(line: Line) | If(wanted: bool, name: string, yes: seq<Item>, hasElse: bool, no: seq<Item>)

  datatype Macros = Macros(defined: set<string>, values: map<string, string>)

  // ---------- The loop ----------

  datatype State = State(macros: Macros, stack: seq<bool>, active: bool)

  function Apply(m: Macros, l: Line): Macros {
    match l
    case Define(name, value) => Macros(m.defined + {name}, m.values[name := value])
    case _ => m
  }

  function Step(s: State, l: Line): State {
    match l
    case Ifdef(name) => s.(stack := s.stack + [s.active], active := s.active && name in s.macros.defined)
    case Ifndef(name) => s.(stack := s.stack + [s.active], active := s.active && name !in s.macros.defined)
    case Else => s.(active := (s.stack != [] ==> s.stack[|s.stack| - 1]) && !s.active)
    case Endif =>
      if s.stack == [] then s.(active := true)
      else s.(stack := s.stack[..|s.stack| - 1], active := s.stack[|s.stack| - 1])
    case _ => if s.active then s.(macros := Apply(s.macros, l)) else s
  }

  function Run(s: State, lines: seq<Line>): State
    decreases |lines|
  {
    if lines == [] then s else Run(Step(s, lines[0]), lines[1..])
  }

  function Initial(predef: set<string>): State { State(Macros(predef, map[]), [], true) }

  // ---------- The meaning of nested blocks ----------

  function Interpret(items: seq<Item>, m: Macros): Macros
    decreases items
  {
    if items == [] then m else Interpret(items[1..], InterpretItem(items[0], m))
  }

  function InterpretItem(item: Item, m: Macros): Macros
    decreases item
  {
    match item
    case Text(line) => Apply(m, line)
    case If(wanted, name, yes, hasElse, no) =>
      if (name in m.defined) == wanted then Interpret(yes, m)
      else if hasElse then Interpret(no, m)
      else m
  }

  predicate IsText(l: Line) { l.Define? || l.Other? }

  /** Text items hold no directive. */
  predicate Proper(items: seq<Item>) {
    items == [] || (ProperItem(items[0]) && Proper(items[1..]))
  }

  predicate ProperItem(item: Item) {
    match item
    case Text(line) => IsText(line)
    case If(_, _, yes, hasElse, no) => Proper(yes) && Proper(no) && (!hasElse ==> no == [])
  }

  function Flatten(items: seq<Item>): seq<Line> {
    if items == [] then [] else FlattenItem(items[0]) + Flatten(items[1..])
  }

  function Opening(wanted: bool, name: string): Line { if wanted then Ifdef(name) else Ifndef(name) }

  function FlattenItem(item: Item): seq<Line> {
    match item
    case Text(line) => [line]
    case If(wanted, name, yes, hasElse, no) =>
      [Opening(wanted, name)] + Flatten(yes) + (if hasElse then [Else] + Flatten(no) else []) + [Endif]
  }

  // ---------- The loop computes the meaning ----------

  lemma {:induction false} RunJoin(s: State, a: seq<Line>, b: seq<Line>)
    ensures Run(s, a + b) == Run(Run(s, a), b)
    decreases |a|
  {
    if a == [] {
      assert a + b == b;
    } else {
      assert (a + b)[1..] == a[1..] + b;
      RunJoin(Step(s, a[0]), a[1..], b);
    }
  }

  lemma RunOne(s: State, l: Line)
    ensures Run(s, [l]) == Step(s, l)
  {}

  /** In any context the lines of a block change the macros as the block says, or not at all when
      inactive, and leave the stack and the active flag as they were. */
  lemma {:induction false} LoopRunsBlocks(items: seq<Item>, s: State)
    requires Proper(items)
    ensures Run(s, Flatten(items)) == if s.active then s.(macros := Interpret(items, s.macros)) else s
    decreases items, 0
  {
    if items != [] {
      LoopRunsItem(items[0], s);
      RunJoin(s, FlattenItem(items[0]), Flatten(items[1..]));
      LoopRunsBlocks(items[1..], Run(s, FlattenItem(items[0])));
    }
  }

  lemma {:induction false} LoopRunsItem(item: Item, s: State)
    requires ProperItem(item)
    ensures Run(s, FlattenItem(item)) == if s.active then s.(macros := InterpretItem(item, s.macros)) else s
    decreases item, 1
  {
    match item
    case Text(line) => RunOne(s, line);
    case If(wanted, name, yes, hasElse, no) =>
      var s1 := Step(s, Opening(wanted, name));
      LoopRunsBlocks(yes, s1);
      var s2 := Run(s1, Flatten(yes));
      if hasElse { LoopRunsBlocks(no, Step(s2, Else)); }
      RunConditional(s, Opening(wanted, name), Flatten(yes), hasElse, Flatten(no));
  }

  /** The lines of a conditional, run part by part. */
  lemma RunConditional(s: State, open: Line, yes: seq<Line>, hasElse: bool, no: seq<Line>)
    ensures var s2 := Run(Step(s, open), yes);
      Run(s, [open] + yes + (if hasElse then [Else] + no else []) + [Endif])
      == Step(if hasElse then Run(Step(s2, Else), no) else s2, Endif)
  {
    hide Run, Step;
    var rest: seq<Line> := if hasElse then [Else] + no else [];
    RunOne(s, open);
    RunJoin(s, [open], yes);
    var s2 := Run(Step(s, open), yes);
    RunJoin(s, [open] + yes, rest);
    if hasElse {
      RunOne(s2, Else);
      RunJoin(s2, [Else], no);
    } else {
      RunNothing(s2);
    }
    RunJoin(s, [open] + yes + rest, [Endif]);
    RunOne(Run(s2, rest), Endif);
  }

  lemma RunNothing(s: State)
    ensures Run(s, []) == s
  {}

  // ---------- Properly nested lines are blocks ----------

  /** Every else and endif closes something, with at most one else each, and nothing stays open.
      `open` says of each open conditional whether its else has been seen. */
  predicate Nested(lines: seq<Line>, open: seq<bool>) {
    if lines == [] then open == []
    else
      match lines[0]
      case Ifdef(_) => Nested(lines[1..], open + [false])
      case Ifndef(_) => Nested(lines[1..], open + [false])
      case Else => open != [] && !open[|open| - 1] && Nested(lines[1..], open[..|open| - 1] + [true])
      case Endif => open != [] && Nested(lines[1..], open[..|open| - 1])
      case _ => Nested(lines[1..], open)
  }

  /** The blocks at the start of the lines and what is left: nothing, or lines that start by
      closing something that these blocks did not open. */
  lemma {:induction false} BlocksOf(lines: seq<Line>, open: seq<bool>) returns (items: seq<Item>, rest: seq<Line>)
    requires Nested(lines, open)
    ensures Proper(items) && lines == Flatten(items) + rest && Nested(rest, open)
    ensures rest == [] || rest[0] == Else || rest[0] == Endif
    decreases |lines|
  {
    if lines == [] || lines[0] == Else || lines[0] == Endif {
      items, rest := [], lines;
    } else if IsText(lines[0]) {
      var more;
      more, rest := BlocksOf(lines[1..], open);
      items := [Text(lines[0])] + more;
      OneItemMore(Text(lines[0]), more);
    } else {
      var item, after := ConditionalOf(lines, open);
      var more;
      more, rest := BlocksOf(after, open);
      items := [item] + more;
      OneItemMore(item, more);
    }
  }

  lemma OneItemMore(item: Item, more: seq<Item>)
    requires ProperItem(item) && Proper(more)
    ensures Proper([item] + more) && Flatten([item] + more) == FlattenItem(item) + Flatten(more)
  {
    assert ([item] + more)[1..] == more;
  }

  lemma {:induction false} ConditionalOf(lines: seq<Line>, open: seq<bool>) returns (item: Item, rest: seq<Line>)
    requires Nested(lines, open) && lines != [] && (lines[0].Ifdef? || lines[0].Ifndef?)
    ensures ProperItem(item) && lines == FlattenItem(item) + rest && Nested(rest, open)
    ensures |rest| < |lines|
    decreases |lines|, 0
  {
    var first := lines[0];
    var yes, after := BlocksOf(lines[1..], open + [false]);
    assert (open + [false])[..|open|] == open;
    if after[0] == Else {
      var no, last := BlocksOf(after[1..], open + [true]);
      assert (open + [true])[..|open|] == open;
      item, rest := If(first.Ifdef?, first.name, yes, true, no), last[1..];
      WithElse(lines, Flatten(yes), after, Flatten(no), last);
    } else {
      item, rest := If(first.Ifdef?, first.name, yes, false, []), after[1..];
      WithoutElse(lines, Flatten(yes), after);
    }
  }

  lemma WithElse(lines: seq<Line>, yes: seq<Line>, after: seq<Line>, no: seq<Line>, last: seq<Line>)
    requires lines != [] && lines[1..] == yes + after && after != [] && after[0] == Else
    requires after[1..] == no + last && last != [] && last[0] == Endif
    ensures lines == [lines[0]] + yes + ([Else] + no) + [Endif] + last[1..]
  {
    assert last == [Endif] + last[1..];
    assert after == [Else] + (no + ([Endif] + last[1..]));
    assert lines == [lines[0]] + (yes + after);
    assert lines == [lines[0]] + yes + ([Else] + no) + [Endif] + last[1..];
  }

  lemma WithoutElse(lines: seq<Line>, yes: seq<Line>, after: seq<Line>)
    requires lines != [] && lines[1..] == yes + after && after != [] && after[0] == Endif
    ensures lines == [lines[0]] + yes + [] + [Endif] + after[1..]
  {
    assert after == [Endif] + after[1..];
    assert lines == [lines[0]] + (yes + after);
    assert lines == [lines[0]] + yes + [] + [Endif] + after[1..];
  }

  /** Every properly nested series of lines is the text of some blocks, and reading it line by
      line with the stack gives the macros those blocks mean and an empty stack again. */
  lemma StackLoopIsBlockMeaning(lines: seq<Line>, predef: set<string>) returns (items: seq<Item>)
    requires Nested(lines, [])
    ensures Proper(items) && Flatten(items) == lines
    ensures Run(Initial(predef), lines) == State(Interpret(items, Macros(predef, map[])), [], true)
  {
    var rest;
    items, rest := BlocksOf(lines, []);
    assert rest == [];
    assert Flatten(items) + [] == Flatten(items);
    LoopRunsBlocks(items, Initial(predef));
  }

  // ---------- What the directives do ----------

  lemma {:induction false} DefinedKept(s: State, lines: seq<Line>, predef: set<string>)
    requires s.macros.defined == predef + s.macros.values.Keys
    ensures var t := Run(s, lines); t.macros.defined == predef + t.macros.values.Keys
    decreases |lines|
  {
    if lines != [] { DefinedKept(Step(s, lines[0]), lines[1..], predef); }
  }

  /** Whatever the lines, nested or not, the names that count as defined are the predefined ones and
      those that have been given a value. */
  lemma DefinedNames(lines: seq<Line>, predef: set<string>)
    ensures var m := Run(Initial(predef), lines).macros; m.defined == predef + m.values.Keys
  {
    DefinedKept(Initial(predef), lines, predef);
  }

  /** A definition counts where it stands, and replaces an earlier one of its name only. */
  lemma LastDefineCounts(lines: seq<Line>, name: string, value: string, predef: set<string>)
    ensures var s := Run(Initial(predef), lines);
      Run(Initial(predef), lines + [Define(name, value)]).macros.values
      == if s.active then s.macros.values[name := value] else s.macros.values
  {
    RunJoin(Initial(predef), lines, [Define(name, value)]);
    RunOne(Run(Initial(predef), lines), Define(name, value));
  }

  /** Of a conditional with two nested parts exactly the lines of one count: of the first after
      `ifdef` when the name is defined, and after `ifndef` when it is not. */
  lemma OnePartCounts(s: State, name: string, yes: seq<Item>, no: seq<Item>)
    requires Proper(yes) && Proper(no) && s.active
    ensures Run(s, [Ifdef(name)] + Flatten(yes) + [Else] + Flatten(no) + [Endif])
            == Run(s, if name in s.macros.defined then Flatten(yes) else Flatten(no))
    ensures Run(s, [Ifndef(name)] + Flatten(yes) + [Else] + Flatten(no) + [Endif])
            == Run(s, if name in s.macros.defined then Flatten(no) else Flatten(yes))
  {
    hide Run, Proper, Flatten;
    LoopRunsBlocks(yes, s);
    LoopRunsBlocks(no, s);
    LoopRunsItem(If(true, name, yes, true, no), s);
    LoopRunsItem(If(false, name, yes, true, no), s);
    assert [Ifdef(name)] + Flatten(yes) + ([Else] + Flatten(no)) + [Endif]
        == [Ifdef(name)] + Flatten(yes) + [Else] + Flatten(no) + [Endif];
    assert [Ifndef(name)] + Flatten(yes) + ([Else] + Flatten(no)) + [Endif]
        == [Ifndef(name)] + Flatten(yes) + [Else] + Flatten(no) + [Endif];
  }

  /** Reading the lines one by one. */
  method ParseDefines(lines: seq<Line>, predef: set<string>) returns (values: map<string, string>)
    ensures values == Run(Initial(predef), lines).macros.values
    ensures Nested(lines, []) ==>
              exists items :: Proper(items) && Flatten(items) == lines && values == Interpret(items, Macros(predef, map[])).values
  {
    var defined := predef;
    var stack: seq<bool>, active := [], true;
    values := map[];
    for i := 0 to |lines|
      invariant Run(State(Macros(defined, values), stack, active), lines[i..]) == Run(Initial(predef), lines)
    {
      assert lines[i..][1..] == lines[i + 1..];
      match lines[i] {
        case Ifdef(name) =>
          stack := stack + [active];
          active := active && name in defined;
        case Ifndef(name) =>
          stack := stack + [active];
          active := active && name !in defined;
        case Else =>
          var parent := if stack != [] then stack[|stack| - 1] else true;
          active := parent && !active;
        case Endif =>
          if stack != [] {
            stack, active := stack[..|stack| - 1], stack[|stack| - 1];
          } else {
            active := true;
          }
        case Define(name, value) =>
          if active {
            values := values[name := value];
            defined := defined + {name};
          }
        case Other =>
      }
    }
    if Nested(lines, []) {
      var items := StackLoopIsBlockMeaning(lines, predef);
    }
  }
}
