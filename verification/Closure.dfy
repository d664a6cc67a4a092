/** The out-of-context export: the worklist that collects a block's modules, what its cache key
    depends on, and the wiring that flattens array ports. */
module Closure {
  import opened Arith
  import opened Collections
  import opened Options

  type Name = string

  /** The design's modules by name, and the words in a text. */
  datatype Design = Design(modules: map<Name, string>, words: string -> set<Name>)

  /** The modules that a module's text names, itself included. */
  function Named(d: Design, n: Name): set<Name>
    requires n in d.modules
  {
    d.words(d.modules[n]) * d.modules.Keys
  }

  // ---------- Reachability ----------

  /** Each module in the path names the next. */
  predicate IsPath(d: Design, path: seq<Name>)
    decreases |path|
  {
    && path != [] && path[|path| - 1] in d.modules
    && (|path| > 1 ==>
          var init := path[..|path| - 1];
          IsPath(d, init) && path[|path| - 1] in Named(d, init[|init| - 1]))
  }

  ghost predicate Reachable(d: Design, from: Name, to: Name) {
    exists path :: IsPath(d, path) && path[0] == from && path[|path| - 1] == to
  }

  lemma ReachesItself(d: Design, n: Name)
    requires n in d.modules
    ensures Reachable(d, n, n)
  {
    assert IsPath(d, [n]) && [n][0] == n;
  }

  lemma ReachesFurther(d: Design, from: Name, via: Name, to: Name)
    requires Reachable(d, from, via) && via in d.modules && to in Named(d, via)
    ensures Reachable(d, from, to)
  {
    var path :| IsPath(d, path) && path[0] == from && path[|path| - 1] == via;
    var longer := path + [to];
    assert longer[..|longer| - 1] == path;
    assert IsPath(d, longer) && longer[0] == from && longer[|longer| - 1] == to;
  }

  predicate ClosedUnder(d: Design, s: set<Name>) {
    s <= d.modules.Keys && forall n | n in s :: Named(d, n) <= s
  }

  /** A closed set contains whatever is reachable from it. */
  lemma {:induction false} ClosedContainsPath(d: Design, s: set<Name>, path: seq<Name>)
    requires ClosedUnder(d, s) && IsPath(d, path) && path[0] in s
    ensures path[|path| - 1] in s
    decreases |path|
  {
    if |path| > 1 { ClosedContainsPath(d, s, path[..|path| - 1]); }
  }

  // ---------- The worklist ----------

  /** The modules reachable from one, however the modules name each other; fails when there is no
      such module. */
  method Dependencies(d: Design, name: Name) returns (r: Result<set<Name>, string>)
    ensures r.Ok? <==> name in d.modules
    ensures r.Ok? ==> forall n :: n in r.value <==> Reachable(d, name, n)
  {
    hide Reachable, Named, Collected, Missing;
    if name !in d.modules { return Err("KeyError"); }
    var found: set<Name>, todo := {}, [name];
    CollectedAtStart(d, name);
    while todo != []
      invariant Collected(d, name, found, todo)
      decreases |d.modules.Keys - found|, |todo|
    {
      var current := todo[|todo| - 1];
      CollectedTakes(d, name, found, todo);
      todo := todo[..|todo| - 1];
      if current !in found {
        var more := Missing(d, current, found + {current});
        var listed := SetToSeq(more);
        CollectedFollows(d, name, found, todo, current, listed);
        SmallerRest(d.modules.Keys, found, current);
        found := found + {current};
        todo := todo + listed;
      }
    }
    CollectedIsReach(d, name, found);
    r := Ok(found);
  }

  /** Everything collected or to do is reachable, and what a collected module names is one or the
      other. */
  ghost predicate Collected(d: Design, name: Name, found: set<Name>, todo: seq<Name>) {
    && found <= d.modules.Keys && (forall n | n in todo :: n in d.modules)
    && (forall n | n in found || n in todo :: Reachable(d, name, n))
    && (name in found || name in todo)
    && (forall n, m | n in found && m in Named(d, n) :: m in found || m in todo)
  }

  /** The same while one module has been taken from the list and not yet looked at. */
  ghost predicate Taken(d: Design, name: Name, found: set<Name>, todo: seq<Name>, current: Name) {
    && current in d.modules && Collected(d, name, found, todo + [current])
    && (current in found ==> Collected(d, name, found, todo))
  }

  lemma CollectedAtStart(d: Design, name: Name)
    requires name in d.modules
    ensures Collected(d, name, {}, [name])
  {
    ReachesItself(d, name);
  }

  lemma CollectedTakes(d: Design, name: Name, found: set<Name>, todo: seq<Name>)
    requires Collected(d, name, found, todo) && todo != []
    ensures Taken(d, name, found, todo[..|todo| - 1], todo[|todo| - 1])
  {
    hide Reachable, Named;
    var n := |todo| - 1;
    assert todo == todo[..n] + [todo[n]];
    assert forall x :: x in todo <==> x in todo[..n] || x == todo[n];
  }

  lemma CollectedFollows(d: Design, name: Name, found: set<Name>, todo: seq<Name>, current: Name, listed: seq<Name>)
    requires Taken(d, name, found, todo, current)
    requires forall n :: n in listed <==> n in Missing(d, current, found + {current})
    ensures Collected(d, name, found + {current}, todo + listed)
  {
    hide Reachable, Named;
    assert forall x :: x in todo + [current] <==> x in todo || x == current;
    assert forall x :: x in todo + listed <==> x in todo || x in listed;
    forall n | n in listed ensures Reachable(d, name, n) { ReachesFurther(d, name, current, n); }
  }

  lemma CollectedIsReach(d: Design, name: Name, found: set<Name>)
    requires Collected(d, name, found, [])
    ensures forall n :: n in found <==> Reachable(d, name, n)
  {
    ClosedFound(d, found);
    forall n | Reachable(d, name, n) ensures n in found {
      var path :| IsPath(d, path) && path[0] == name && path[|path| - 1] == n;
      ClosedContainsPath(d, found, path);
    }
  }

  function Missing(d: Design, n: Name, found: set<Name>): (m: set<Name>)
    requires n in d.modules
    ensures m <= Named(d, n) && m <= d.modules.Keys && forall x | x in Named(d, n) :: x in found || x in m
  {
    d.words(d.modules[n]) * d.modules.Keys - found
  }

  lemma SmallerRest(all: set<Name>, found: set<Name>, n: Name)
    requires n in all && n !in found
    ensures |all - (found + {n})| < |all - found|
  {
    assert all - (found + {n}) == (all - found) - {n};
  }

  lemma ClosedFound(d: Design, found: set<Name>)
    requires found <= d.modules.Keys && forall n | n in found :: forall m | m in Named(d, n) :: m in found
    ensures ClosedUnder(d, found)
  {}

  /** The elements of a set in some order. */
  method SetToSeq(s: set<Name>) returns (q: seq<Name>)
    ensures forall n :: n in q <==> n in s
  {
    q := [];
    var left := s;
    while left != {}
      invariant left <= s && forall n :: n in q <==> n in s - left
      decreases left
    {
      var n :| n in left;
      left := left - {n};
      q := q + [n];
    }
  }

  // ---------- What the key depends on ----------

  /** The texts of the reachable modules agree, and no word in them is a module of only one design. */
  ghost predicate Agrees(a: Design, b: Design, name: Name) {
    && a.words == b.words
    && forall n | Reachable(a, name, n) ::
         n in a.modules && n in b.modules && a.modules[n] == b.modules[n] && Named(a, n) == Named(b, n)
  }

  lemma {:induction false} SamePaths(a: Design, b: Design, name: Name, path: seq<Name>)
    requires name in a.modules && Agrees(a, b, name) && IsPath(b, path) && path[0] == name
    ensures Reachable(a, name, path[|path| - 1])
    decreases |path|
  {
    if |path| == 1 {
      ReachesItself(a, name);
    } else {
      var init := path[..|path| - 1];
      SamePaths(a, b, name, init);
      ReachesFurther(a, name, init[|init| - 1], path[|path| - 1]);
    }
  }

  lemma {:induction false} SamePathsBack(a: Design, b: Design, name: Name, path: seq<Name>)
    requires Agrees(a, b, name) && IsPath(a, path) && path[0] == name
    ensures IsPath(b, path)
    decreases |path|
  {
    assert Reachable(a, name, path[|path| - 1]);
    if |path| > 1 {
      var init := path[..|path| - 1];
      SamePathsBack(a, b, name, init);
      assert Reachable(a, name, init[|init| - 1]);
    }
  }

  /** Designs that agree on a block's modules reach the same modules from it. */
  lemma SameReach(a: Design, b: Design, name: Name, n: Name)
    requires name in a.modules && Agrees(a, b, name)
    ensures Reachable(a, name, n) <==> Reachable(b, name, n)
  {
    if Reachable(b, name, n) {
      var path :| IsPath(b, path) && path[0] == name && path[|path| - 1] == n;
      SamePaths(a, b, name, path);
    }
    if Reachable(a, name, n) {
      var path :| IsPath(a, path) && path[0] == name && path[|path| - 1] == n;
      SamePathsBack(a, b, name, path);
      assert IsPath(b, path);
    }
  }

  /** Agreeing on the texts alone is not enough: with them equal, the two designs reach the same
      modules exactly when no word of a reachable module names a module of only one design. */
  lemma ReachDecides(a: Design, b: Design, name: Name)
    requires name in a.modules && a.words == b.words
    requires forall n | Reachable(a, name, n) :: n in a.modules && n in b.modules && a.modules[n] == b.modules[n]
    ensures (forall n :: Reachable(a, name, n) <==> Reachable(b, name, n)) <==> Agrees(a, b, name)
  {
    if Agrees(a, b, name) {
      forall n ensures Reachable(a, name, n) <==> Reachable(b, name, n) { SameReach(a, b, name, n); }
    }
    if forall n :: Reachable(a, name, n) <==> Reachable(b, name, n) {
      forall n | Reachable(a, name, n) ensures Named(a, n) == Named(b, n) {
        forall m | m in Named(b, n) ensures m in Named(a, n) {
          ReachesFurther(b, name, n, m);
          assert Reachable(a, name, m);
        }
        forall m | m in Named(a, n) ensures m in Named(b, n) { ReachesFurther(a, name, n, m); }
      }
    }
  }

  predicate Less(a: Name, b: Name) { Precedes(a, b, CharBelow) }

  predicate CharBelow(x: char, y: char) { x < y }

  lemma LessIsOneWay(a: Name, b: Name)
    requires Less(a, b)
    ensures !Less(b, a) && a != b
  {
    PrecedesIsOneWay(a, b, CharBelow);
  }

  predicate Sorted(names: seq<Name>) { forall i, j | 0 <= i < j < |names| :: Less(names[i], names[j]) }

  /** A set has only one sorted listing. */
  lemma {:induction false} OneSortedListing(p: seq<Name>, q: seq<Name>)
    requires Sorted(p) && Sorted(q) && forall n :: n in p <==> n in q
    ensures p == q
    decreases |p|
  {
    hide Less;
    FirstInBoth(p, q);
    if p != [] && q != [] {
      SameFirst(p, q);
      forall n ensures n in p[1..] <==> n in q[1..] {
        RestWithoutFirst(p);
        RestWithoutFirst(q);
      }
      OneSortedListing(p[1..], q[1..]);
      assert p == [p[0]] + p[1..] && q == [q[0]] + q[1..];
    }
  }

  lemma FirstInBoth(p: seq<Name>, q: seq<Name>)
    requires forall n :: n in p <==> n in q
    ensures (p != [] ==> p[0] in q) && (q != [] ==> q[0] in p)
  {}

  lemma SameFirst(p: seq<Name>, q: seq<Name>)
    requires Sorted(p) && Sorted(q) && p != [] && q != [] && p[0] in q && q[0] in p
    ensures p[0] == q[0]
  {
    hide Less;
    var i :| 0 <= i < |q| && q[i] == p[0];
    var j :| 0 <= j < |p| && p[j] == q[0];
    if i > 0 && j > 0 { LessIsOneWay(q[0], q[i]); }
  }

  lemma RestWithoutFirst(p: seq<Name>)
    requires Sorted(p) && p != []
    ensures forall n :: n in p[1..] <==> n in p && n != p[0]
  {
    hide Less;
    forall k | 0 < k < |p| ensures p[k] != p[0] { LessIsOneWay(p[0], p[k]); }
    forall n | n in p && n != p[0] ensures n in p[1..] {
      var k :| 0 <= k < |p| && p[k] == n;
      assert p[1..][k - 1] == n;
    }
  }

  function Join(d: Design, names: seq<Name>): string
    requires forall n | n in names :: n in d.modules
    decreases |names|
  {
    if names == [] then ""
    else if |names| == 1 then d.modules[names[0]]
    else Join(d, names[..|names| - 1]) + "\n" + d.modules[names[|names| - 1]]
  }

  /** What is hashed for a block. */
  function KeyInput(globals: string, d: Design, names: seq<Name>, wrapper: string): string
    requires forall n | n in names :: n in d.modules
  {
    globals + "\n" + Join(d, names) + "\n" + wrapper
  }

  /** The sorted list of a block's modules. */
  ghost predicate Lists(d: Design, name: Name, names: seq<Name>) {
    Sorted(names) && forall n :: n in names <==> Reachable(d, name, n)
  }

  lemma {:induction false} SameJoin(a: Design, b: Design, names: seq<Name>)
    requires forall n | n in names :: n in a.modules && n in b.modules && a.modules[n] == b.modules[n]
    ensures Join(a, names) == Join(b, names)
    decreases |names|
  {
    if |names| > 1 { SameJoin(a, b, names[..|names| - 1]); }
  }

  /** Packs that agree on the globals, the wrapper and the modules of a block hash the same text. */
  lemma SameKey(a: Design, b: Design, name: Name, p: seq<Name>, q: seq<Name>, globals: string, wrapper: string)
    requires name in a.modules && Agrees(a, b, name) && Lists(a, name, p) && Lists(b, name, q)
    ensures forall n | n in p :: n in a.modules
    ensures forall n | n in q :: n in b.modules
    ensures KeyInput(globals, a, p, wrapper) == KeyInput(globals, b, q, wrapper)
  {
    hide Sorted, Reachable;
    forall n ensures n in p <==> n in q { SameReach(a, b, name, n); }
    OneSortedListing(p, q);
    SameJoin(a, b, p);
  }

  // ---------- When two packs hash the same text ----------

  /** One more than the length of the joined texts. */
  function Total(d: Design, names: seq<Name>): nat
    requires forall n | n in names :: n in d.modules
    decreases |names|
  {
    if names == [] then 0 else Total(d, names[..|names| - 1]) + |d.modules[names[|names| - 1]]| + 1
  }

  lemma {:induction false} JoinLength(d: Design, names: seq<Name>)
    requires names != [] && forall n | n in names :: n in d.modules
    ensures |Join(d, names)| + 1 == Total(d, names)
    decreases |names|
  {
    if |names| > 1 {
      JoinLength(d, names[..|names| - 1]);
    } else {
      assert names[..0] == [];
    }
  }

  predicate Distinct(names: seq<Name>) { forall i, j | 0 <= i < j < |names| :: names[i] != names[j] }

  lemma SortedIsDistinct(names: seq<Name>)
    requires Sorted(names)
    ensures Distinct(names)
  {
    hide Less;
    forall i, j | 0 <= i < j < |names| ensures names[i] != names[j] { LessIsOneWay(names[i], names[j]); }
  }

  function Omit(names: seq<Name>, k: nat): seq<Name>
    requires k < |names|
  {
    names[..k] + names[k + 1..]
  }

  lemma OmitMembers(names: seq<Name>, k: nat)
    requires Distinct(names) && k < |names|
    ensures Distinct(Omit(names, k)) && forall n :: n in Omit(names, k) <==> n in names && n != names[k]
  {
    forall n | n in names && n != names[k] ensures n in Omit(names, k) {
      var i :| 0 <= i < |names| && names[i] == n;
      assert Omit(names, k)[if i < k then i else i - 1] == n;
    }
  }

  lemma {:induction false} TotalOmit(d: Design, names: seq<Name>, k: nat)
    requires k < |names| && forall n | n in names :: n in d.modules
    ensures Total(d, names) == Total(d, Omit(names, k)) + |d.modules[names[k]]| + 1
    decreases |names|
  {
    var n := |names| - 1;
    if k < n {
      TotalOmit(d, names[..n], k);
      assert Omit(names, k)[..n - 1] == Omit(names[..n], k);
    } else {
      assert Omit(names, k) == names[..n];
    }
  }

  /** A listing contained in another has the smaller total, and strictly so if it is not all of it. */
  lemma {:induction false} SmallerTotal(a: Design, b: Design, p: seq<Name>, q: seq<Name>)
    requires forall n | n in p :: n in a.modules && n in q
    requires forall n | n in q :: n in b.modules
    requires forall n | n in p :: a.modules[n] == b.modules[n]
    requires Distinct(p) && Distinct(q)
    ensures Total(a, p) <= Total(b, q)
    ensures (exists n :: n in q && n !in p) ==> Total(a, p) < Total(b, q)
    decreases |p|
  {
    if p == [] {
      if q != [] { TotalOmit(b, q, 0); }
    } else {
      var x := p[|p| - 1];
      assert x in p && x in q;
      var k: nat :| k < |q| && q[k] == x;
      TotalOmit(b, q, k);
      OmitMembers(q, k);
      OmitMembers(p, |p| - 1);
      assert Omit(p, |p| - 1) == p[..|p| - 1];
      SmallerTotal(a, b, p[..|p| - 1], Omit(q, k));
      if n :| n in q && n !in p { assert n in Omit(q, k); }
    }
  }

  /** With equal texts of the modules that one design reaches, the other reaches them all. */
  lemma {:induction false} ReachesAtLeast(a: Design, b: Design, name: Name, path: seq<Name>)
    requires a.words == b.words && IsPath(a, path) && path[0] == name
    requires forall n | Reachable(a, name, n) :: n in a.modules && n in b.modules && a.modules[n] == b.modules[n]
    ensures Reachable(b, name, path[|path| - 1])
    decreases |path|
  {
    assert Reachable(a, name, path[|path| - 1]);
    if |path| == 1 {
      ReachesItself(b, name);
    } else {
      var init := path[..|path| - 1];
      ReachesAtLeast(a, b, name, init);
      assert Reachable(a, name, init[|init| - 1]);
      ReachesFurther(b, name, init[|init| - 1], path[|path| - 1]);
    }
  }

  /** Two packs whose texts of a block's modules agree hash the same text if and only if no word of
      those modules names a module of only one of them. */
  lemma KeyDecides(a: Design, b: Design, name: Name, p: seq<Name>, q: seq<Name>, globals: string, wrapper: string)
    requires name in a.modules && a.words == b.words && Lists(a, name, p) && Lists(b, name, q)
    requires forall n | Reachable(a, name, n) :: n in a.modules && n in b.modules && a.modules[n] == b.modules[n]
    ensures (forall n | n in p :: n in a.modules) && (forall n | n in q :: n in b.modules)
    ensures KeyInput(globals, a, p, wrapper) == KeyInput(globals, b, q, wrapper) <==> Agrees(a, b, name)
  {
    hide Sorted, Reachable, Agrees, Join, Total;
    ReachedExist(b, name);
    if Agrees(a, b, name) {
      SameKey(a, b, name, p, q, globals, wrapper);
    } else {
      forall n | n in p ensures n in q { ReachedToo(a, b, name, n); }
      ReachDecides(a, b, name);
      var n :| !(Reachable(a, name, n) <==> Reachable(b, name, n));
      assert n in q && n !in p;
      ReachesItself(a, name);
      SortedIsDistinct(p);
      SortedIsDistinct(q);
      SmallerTotal(a, b, p, q);
      JoinLength(a, p);
      JoinLength(b, q);
    }
  }

  lemma ReachedExist(d: Design, name: Name)
    ensures forall n | Reachable(d, name, n) :: n in d.modules
  {}

  lemma ReachedToo(a: Design, b: Design, name: Name, n: Name)
    requires a.words == b.words && Reachable(a, name, n)
    requires forall m | Reachable(a, name, m) :: m in a.modules && m in b.modules && a.modules[m] == b.modules[m]
    ensures Reachable(b, name, n)
  {
    var path :| IsPath(a, path) && path[0] == name && path[|path| - 1] == n;
    ReachesAtLeast(a, b, name, path);
  }

  /** The globals alone, or the wrapper alone, are hashed so that any change of them changes the text. */
  lemma GlobalsAndWrapperDecide(d: Design, names: seq<Name>, g: string, g': string, w: string, w': string)
    requires forall n | n in names :: n in d.modules
    ensures KeyInput(g, d, names, w) == KeyInput(g', d, names, w) <==> g == g'
    ensures KeyInput(g, d, names, w) == KeyInput(g, d, names, w') <==> w == w'
  {
    hide Join;
    var rest := "\n" + Join(d, names) + "\n";
    CancelRight(g, g', rest + w);
    CancelLeft(g + rest, w, w');
    assert KeyInput(g, d, names, w) == g + (rest + w) == (g + rest) + w;
    assert KeyInput(g', d, names, w) == g' + (rest + w);
    assert KeyInput(g, d, names, w') == (g + rest) + w';
  }

  lemma CancelRight(a: string, b: string, c: string)
    ensures a + c == b + c <==> a == b
  {
    if a + c == b + c {
      assert |a| == |b|;
      assert a == (a + c)[..|a|] == b;
    }
  }

  lemma CancelLeft(c: string, a: string, b: string)
    ensures c + a == c + b <==> a == b
  {
    if c + a == c + b { assert a == (c + a)[|c|..] == b; }
  }

  /** But nothing marks where one part ends: changed together they can give the same text. */
  lemma PartsAreNotMarked(d: Design, names: seq<Name>)
    requires forall n | n in names :: n in d.modules
    ensures var moved := "\n" + Join(d, names) + "\n"; KeyInput("", d, names, moved) == KeyInput(moved, d, names, "")
  {
    hide Join;
    var moved := "\n" + Join(d, names) + "\n";
    assert KeyInput("", d, names, moved) == moved + moved == KeyInput(moved, d, names, "");
  }

  /** The texts of the listed modules are hashed in the order of the list, with a line break between. */
  lemma TextsInOrder(d: Design, names: seq<Name>, n: Name)
    requires forall x | x in names + [n] :: x in d.modules
    ensures n in names + [n] && n in d.modules
    ensures forall x | x in names :: x in d.modules
    ensures Join(d, names + [n]) == if names == [] then d.modules[n] else Join(d, names) + "\n" + d.modules[n]
  {
    assert (names + [n])[|names|] == n && forall x | x in names :: x in names + [n];
    assert (names + [n])[..|names|] == names;
  }

  // ---------- A module whose text alone does not fix the key ----------

  /** A block that names `sub`. */
  const BLOCK_TEXT := "module top; sub s(); endmodule"

  const SUB_TEXT := "module sub; endmodule"

  function WordsOf(text: string): set<Name> {
    if text == BLOCK_TEXT then {"module", "top", "sub", "s", "endmodule"}
    else if text == SUB_TEXT then {"module", "sub", "endmodule"}
    else {}
  }

  const WITHOUT_SUB := Design(map["top" := BLOCK_TEXT], WordsOf)

  const WITH_SUB := Design(map["top" := BLOCK_TEXT, "sub" := SUB_TEXT], WordsOf)

  lemma ReachOfWithout(n: Name)
    ensures Reachable(WITHOUT_SUB, "top", n) <==> n == "top"
  {
    ReachesItself(WITHOUT_SUB, "top");
    if Reachable(WITHOUT_SUB, "top", n) {
      var path :| IsPath(WITHOUT_SUB, path) && path[0] == "top" && path[|path| - 1] == n;
      ClosedContainsPath(WITHOUT_SUB, {"top"}, path);
    }
  }

  lemma ReachOfWith(n: Name)
    ensures Reachable(WITH_SUB, "top", n) <==> n == "top" || n == "sub"
  {
    ReachesItself(WITH_SUB, "top");
    assert "sub" in Named(WITH_SUB, "top");
    ReachesFurther(WITH_SUB, "top", "top", "sub");
    if Reachable(WITH_SUB, "top", n) {
      var path :| IsPath(WITH_SUB, path) && path[0] == "top" && path[|path| - 1] == n;
      ClosedContainsPath(WITH_SUB, {"top", "sub"}, path);
    }
  }

  /** Adding a module that the block names changes the key, with every text that was reached as it was. */
  lemma TextsDoNotFixKey(globals: string, wrapper: string)
    ensures Lists(WITHOUT_SUB, "top", ["top"]) && Lists(WITH_SUB, "top", ["sub", "top"])
    ensures forall n | Reachable(WITHOUT_SUB, "top", n) :: n in WITH_SUB.modules && WITH_SUB.modules[n] == WITHOUT_SUB.modules[n]
    ensures KeyInput(globals, WITHOUT_SUB, ["top"], wrapper) != KeyInput(globals, WITH_SUB, ["sub", "top"], wrapper)
  {
    hide Reachable;
    forall n ensures Reachable(WITHOUT_SUB, "top", n) <==> n == "top" { ReachOfWithout(n); }
    forall n ensures Reachable(WITH_SUB, "top", n) <==> n == "top" || n == "sub" { ReachOfWith(n); }
    assert Less("sub", "top");
    assert Lists(WITH_SUB, "top", ["sub", "top"]);
    KeyDecides(WITHOUT_SUB, WITH_SUB, "top", ["top"], ["sub", "top"], globals, wrapper);
    assert "sub" in Named(WITH_SUB, "top") && "sub" !in Named(WITHOUT_SUB, "top");
  }

  // ---------- Array ports ----------

  /** A concatenation of array elements in braces, written from the last element to the first, so
      that element 0 is least significant; bits are listed from the least significant. */
  function Flatten(elements: seq<seq<bool>>): seq<bool>
    decreases |elements|
  {
    if elements == [] then [] else Flatten(elements[..|elements| - 1]) + elements[|elements| - 1]
  }

  /** The slice `[i * width +: width]`. */
  function Slice(flat: seq<bool>, i: nat, width: nat): seq<bool>
    requires i * width + width <= |flat|
  {
    flat[i * width..i * width + width]
  }

  /** Slicing a flattened array port gives back each element. */
  lemma {:induction false} SliceOfFlatten(elements: seq<seq<bool>>, i: nat, width: nat)
    requires (forall e | e in elements :: |e| == width) && i < |elements|
    ensures |Flatten(elements)| == |elements| * width && i * width + width <= |elements| * width
    ensures Slice(Flatten(elements), i, width) == elements[i]
    decreases |elements|
  {
    var n := |elements| - 1;
    var init, last := elements[..n], elements[n];
    assert last in elements && forall e | e in init :: e in elements;
    FlattenLength(init, width);
    Products(i, n, width);
    if i < n {
      SliceOfFlatten(init, i, width);
      SliceBefore(Flatten(init), last, i, width);
    }
  }

  lemma SliceBefore(flat: seq<bool>, last: seq<bool>, i: nat, width: nat)
    requires i * width + width <= |flat|
    ensures i * width + width <= |flat + last| && Slice(flat + last, i, width) == Slice(flat, i, width)
  {}

  lemma Products(i: nat, n: nat, width: nat)
    requires i <= n
    ensures (n + 1) * width == n * width + width && i * width <= n * width
    ensures i < n ==> i * width + width <= n * width
  {
    MulDistributes(n, 1, width);
    if i < n { MulGap(i, n, width); }
  }

  lemma {:induction false} FlattenLength(elements: seq<seq<bool>>, width: nat)
    requires forall e | e in elements :: |e| == width
    ensures |Flatten(elements)| == |elements| * width
    decreases |elements|
  {
    if elements != [] {
      assert elements[|elements| - 1] in elements;
      FlattenLength(elements[..|elements| - 1], width);
      Products(|elements| - 1, |elements| - 1, width);
    }
  }
}
