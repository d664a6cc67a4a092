/** What issuing and dispatching must do in one step: the oldest entries leave every issue queue for
    its ports, and nothing waits for a queue that has room unless the width is used up. */
module PipelineFills {
  import opened Pipeline
  import opened PipelineInvariant
  import opened PipelineBackEnd
  import opened PipelineRuns

  // ---------- Issue ----------

  /** The integer queue has as many ports as configured, every other queue one. */
  function IssueCount(c: Cfg, k: Kind, waiting: nat): (n: nat)
    ensures n <= waiting
  {
    Min(waiting, Max(0, if k == Alq then c.integerPorts else 1))
  }

  ghost predicate AllSources(p: Program, s: State) { forall i: nat :: SrcsReady(p, s, i) }

  /** What was executing still is, and whatever starts does so with its full delay. */
  predicate KeepsRunning(p: Program, c: Cfg, before: map<nat, (Node, int)>, after: map<nat, (Node, int)>) {
    forall i: nat | i in before :: i in after && (after[i] == before[i] || after[i] == Timing(p, c, i))
  }

  predicate StartsAll(p: Program, c: Cfg, q: seq<nat>, after: map<nat, (Node, int)>) {
    forall i | i in q :: i in after && after[i] == Timing(p, c, i)
  }

  lemma IssueKindOldest(p: Program, c: Cfg, s: State, k: Kind)
    requires AllSources(p, s)
    ensures var t := IssueKind(p, c, s, k); var q := s.iqs.Get(k); var n := IssueCount(c, k, |q|);
      && t.iqs == s.iqs.With(k, q[n..])
      && t.Reclaimed(k) == s.Reclaimed(k) + (if c.iqReclaim then n else 0)
      && (forall j: Kind :: j != k ==> t.Reclaimed(j) == s.Reclaimed(j))
      && t.readyAt == s.readyAt && t.cycle == s.cycle && t.tab.iqOf == s.tab.iqOf
      && KeepsRunning(p, c, s.tab.executing, t.tab.executing) && StartsAll(p, c, q[..n], t.tab.executing)
  {
    hide SrcsReady, Started, Timing;
    var q := s.iqs.Get(k);
    PickOldest(p, s, q, Ports(c, k));
    hide IssuePick, Queues.Get, Queues.With;
  }

  lemma SourcesStay(p: Program, s: State, t: State)
    requires AllSources(p, s) && t.readyAt == s.readyAt && t.cycle == s.cycle
    ensures AllSources(p, t)
  {
    forall i: nat ensures SrcsReady(p, t, i) { assert SrcsReady(p, s, i); }
  }

  /** A queue has lost its oldest entries, which all execute. */
  ghost predicate KindIssued(p: Program, c: Cfg, s: State, t: State, k: Kind) {
    var q := s.iqs.Get(k); var n := IssueCount(c, k, |q|);
    && t.iqs.Get(k) == q[n..] && t.Reclaimed(k) == s.Reclaimed(k) + (if c.iqReclaim then n else 0)
    && StartsAll(p, c, q[..n], t.tab.executing)
  }

  predicate KindLeft(s: State, t: State, k: Kind) { t.iqs.Get(k) == s.iqs.Get(k) && t.Reclaimed(k) == s.Reclaimed(k) }

  lemma IssuedThenLeft(p: Program, c: Cfg, s: State, t: State, u: State, k: Kind)
    requires KindIssued(p, c, s, t, k) && KindLeft(t, u, k) && KeepsRunning(p, c, t.tab.executing, u.tab.executing)
    ensures KindIssued(p, c, s, u, k)
  {}

  lemma LeftThenIssued(p: Program, c: Cfg, s: State, t: State, u: State, k: Kind)
    requires KindLeft(s, t, k)
    ensures KindIssued(p, c, t, u, k) ==> KindIssued(p, c, s, u, k)
    ensures KindLeft(t, u, k) ==> KindLeft(s, u, k)
  {}

  lemma OneKindIssued(p: Program, c: Cfg, s: State, k: Kind)
    requires AllSources(p, s)
    ensures var t := IssueKind(p, c, s, k);
      && KindIssued(p, c, s, t, k) && (forall j: Kind :: j != k ==> KindLeft(s, t, j))
      && t.readyAt == s.readyAt && t.cycle == s.cycle && t.tab.iqOf == s.tab.iqOf
      && KeepsRunning(p, c, s.tab.executing, t.tab.executing)
  {
    hide IssueKind, AllSources, IssueCount, Queues.Get, Queues.With, State.Reclaimed, Timing;
    IssueKindOldest(p, c, s, k);
  }

  lemma RunningTwice(p: Program, c: Cfg, a: map<nat, (Node, int)>, b: map<nat, (Node, int)>, d: map<nat, (Node, int)>)
    requires KeepsRunning(p, c, a, b) && KeepsRunning(p, c, b, d)
    ensures KeepsRunning(p, c, a, d)
  {
    hide Timing;
  }

  /** What issuing over the queues in some order does to each of them. */
  lemma {:induction false} IssueOverOldest(p: Program, c: Cfg, s: State, kinds: seq<Kind>)
    requires AllSources(p, s) && EachOnce(kinds)
    ensures var t := IssueOver(p, c, s, kinds);
      && t.tab.iqOf == s.tab.iqOf && KeepsRunning(p, c, s.tab.executing, t.tab.executing)
      && forall k: Kind :: if k in kinds then KindIssued(p, c, s, t, k) else KindLeft(s, t, k)
    decreases |kinds|
  {
    if kinds != [] {
      hide IssueKind, AllSources, KindIssued, KindLeft, KeepsRunning;
      var first, rest := kinds[0], kinds[1..];
      var u := IssueKind(p, c, s, first);
      var t := IssueOver(p, c, u, rest);
      OneKindIssued(p, c, s, first);
      SourcesStay(p, s, u);
      IssueOverOldest(p, c, u, rest);
      RunningTwice(p, c, s.tab.executing, u.tab.executing, t.tab.executing);
      assert first !in rest && forall k :: k in kinds <==> k == first || k in rest;
      IssuedThenLeft(p, c, s, u, t, first);
      forall k: Kind | k != first ensures if k in kinds then KindIssued(p, c, s, t, k) else KindLeft(s, t, k) {
        LeftThenIssued(p, c, s, u, t, k);
      }
    }
  }

  // ---------- Dispatch ----------

  /** How many of the entries from lo up to hi got an issue queue. */
  function Newly(before: map<nat, Kind>, after: map<nat, Kind>, lo: nat, hi: nat): nat
    decreases hi - lo
  {
    if lo >= hi then 0 else (if lo !in before && lo in after then 1 else 0) + Newly(before, after, lo + 1, hi)
  }

  lemma {:induction false} NoneNewly(m: map<nat, Kind>, lo: nat, hi: nat)
    ensures Newly(m, m, lo, hi) == 0
    decreases hi - lo
  {
    if lo < hi { NoneNewly(m, lo + 1, hi); }
  }

  /** Which of them did does not depend on what came in before them. */
  lemma {:induction false} NewlyFrom(a: map<nat, Kind>, b: map<nat, Kind>, after: map<nat, Kind>, lo: nat, hi: nat)
    requires forall j: nat | lo <= j < hi :: j in a <==> j in b
    ensures Newly(a, after, lo, hi) == Newly(b, after, lo, hi)
    decreases hi - lo
  {
    if lo < hi { NewlyFrom(a, b, after, lo + 1, hi); }
  }

  /** What dispatching from the ROB entries lo, lo + 1 and so on has done. */
  ghost predicate Filled(p: Program, c: Cfg, s: State, u: State, lo: nat, hi: nat, width: int) {
    && u.reclaim == s.reclaim && (forall k: Kind :: s.iqs.Get(k) <= u.iqs.Get(k))
    && (forall i: nat | i in s.tab.iqOf :: i in u.tab.iqOf)
    && (forall i: nat | i in u.tab.iqOf && i !in s.tab.iqOf :: lo <= i < hi)
    && Newly(s.tab.iqOf, u.tab.iqOf, lo, hi) <= Max(0, width)
    && forall i: nat | lo <= i < hi && i !in u.tab.iqOf ::
         Newly(s.tab.iqOf, u.tab.iqOf, lo, i) >= width || Full(c, u, KindOf(p, i))
  }

  lemma {:induction false} DispatchFillsRob(p: Program, c: Cfg, s: State, tab: Tables, rob: seq<nat>, lo: nat, width: int)
    requires Consecutive(rob, lo)
    requires forall i: nat | lo <= i < lo + |rob| :: Undispatched(tab, i) <==> i !in s.tab.iqOf
    ensures Filled(p, c, s, DispatchOver(p, c, s, Pending(tab, rob), width), lo, lo + |rob|, width)
    decreases |rob|
  {
    hide Undispatched, KindOf, IqCap, Filled, DispatchOver, Full;
    var hi := lo + |rob|;
    if rob == [] || width <= 0 {
      NothingDispatched(p, c, s, Pending(tab, rob), width);
      NothingFilled(p, c, s, lo, hi, width);
    } else {
      var rest := rob[1..];
      assert rob[0] == lo;
      if lo in s.tab.iqOf {
        DispatchFillsRob(p, c, s, tab, rest, lo + 1, width);
        OneEarlier(p, c, s, s, DispatchOver(p, c, s, Pending(tab, rest), width), lo, hi, width, width);
        assert [] + Pending(tab, rest) == Pending(tab, rest);
      } else {
        DispatchFirst(p, c, s, lo, Pending(tab, rest), width);
        if Full(c, s, KindOf(p, lo)) {
          DispatchFillsRob(p, c, s, tab, rest, lo + 1, width);
          OneEarlier(p, c, s, s, DispatchOver(p, c, s, Pending(tab, rest), width), lo, hi, width, width);
        } else {
          var s1 := DispatchOne(p, s, lo);
          DispatchFillsRob(p, c, s1, tab, rest, lo + 1, width - 1);
          OneEarlier(p, c, s, s1, DispatchOver(p, c, s1, Pending(tab, rest), width - 1), lo, hi, width, width - 1);
        }
      }
    }
  }

  lemma DispatchFirst(p: Program, c: Cfg, s: State, i: nat, rest: seq<nat>, width: int)
    requires width >= 1
    ensures DispatchOver(p, c, s, [i] + rest, width)
            == if Full(c, s, KindOf(p, i)) then DispatchOver(p, c, s, rest, width)
               else DispatchOver(p, c, DispatchOne(p, s, i), rest, width - 1)
  {
    hide Full, DispatchOne;
    assert ([i] + rest)[1..] == rest;
  }

  lemma NothingFilled(p: Program, c: Cfg, s: State, lo: nat, hi: nat, width: int)
    requires lo >= hi || width <= 0
    ensures Filled(p, c, s, s, lo, hi, width)
  {
    hide Full, KindOf;
    forall i: nat ensures Newly(s.tab.iqOf, s.tab.iqOf, lo, i) == 0 { NoneNewly(s.tab.iqOf, lo, i); }
  }

  lemma NothingDispatched(p: Program, c: Cfg, s: State, pending: seq<nat>, width: int)
    requires pending == [] || width <= 0
    ensures DispatchOver(p, c, s, pending, width) == s
  {}

  /** One entry more at the front, which was dispatched, had been before, or found its queue full. */
  lemma OneEarlier(p: Program, c: Cfg, s: State, s1: State, u: State, lo: nat, hi: nat, width: int, left: int)
    requires lo < hi && width >= 1 && Filled(p, c, s1, u, lo + 1, hi, left)
    requires if s1 == s then left == width && (lo in s.tab.iqOf || Full(c, s, KindOf(p, lo)))
             else s1 == DispatchOne(p, s, lo) && left == width - 1 && lo !in s.tab.iqOf
    ensures Filled(p, c, s, u, lo, hi, width)
  {
    hide KindOf, IqCap;
    var next := lo + 1;
    forall i: nat | i <= hi ensures Newly(s.tab.iqOf, u.tab.iqOf, next, i) == Newly(s1.tab.iqOf, u.tab.iqOf, next, i) {
      NewlyFrom(s.tab.iqOf, s1.tab.iqOf, u.tab.iqOf, next, i);
    }
    forall k: Kind ensures s.iqs.Get(k) <= u.iqs.Get(k) {
      assert s.iqs.Get(k) <= s1.iqs.Get(k) <= u.iqs.Get(k);
    }
  }

  // ---------- The whole step ----------

  /** Every issue queue loses its oldest entries, as many as there are ports, which all start executing
      with their full delays. */
  ghost predicate IssuesOldest(p: Program, c: Cfg, s: State, t: State) {
    forall k: Kind ::
      var q := s.iqs.Get(k); var n := IssueCount(c, k, |q|);
      q[n..] <= t.iqs.Get(k) && StartsAll(p, c, q[..n], t.tab.executing)
  }

  /** An entry of the ROB that has no issue queue after the step has found its queue full, slots freed in
      the step counting as taken when they are reclaimed, or older ones have used up the width; and
      no more than the width are dispatched. */
  ghost predicate DispatchesMost(p: Program, c: Cfg, s: State, t: State) {
    var lo, hi := B0(t.line), B1(s.line);
    && Newly(s.tab.iqOf, t.tab.iqOf, lo, hi) <= Max(0, c.dispatch)
    && forall i: nat | lo <= i < hi && i !in t.tab.iqOf ::
         || Newly(s.tab.iqOf, t.tab.iqOf, lo, i) >= c.dispatch
         || (var k := KindOf(p, i);
             |t.iqs.Get(k)| + (if c.iqReclaim then IssueCount(c, k, |s.iqs.Get(k)|) else 0) >= IqCap(c, k))
  }

  lemma UnqueuedIsUndispatched(p: Program, b0: nat, b1: nat, tab: Tables, i: nat)
    requires Placed(p, b0, b1, tab) && b0 <= i
    ensures Undispatched(tab, i) <==> i !in tab.iqOf
  {}

  lemma ReadyIsAllSources(p: Program, s: State)
    requires AllReady(p, s)
    ensures AllSources(p, s)
  {}

  lemma BackEndFills(p: Program, c: Cfg, s: State)
    requires Structural(p, s) && Timely(p, c, s)
    ensures var t := Dispatch(p, c, Issue(p, c, Execute(Complete(p, s))));
      && IssuesOldest(p, c, s, t)
      && Newly(s.tab.iqOf, t.tab.iqOf, B0(s.line), B1(s.line)) <= Max(0, c.dispatch)
      && forall i: nat | B0(s.line) <= i < B1(s.line) && i !in t.tab.iqOf ::
           || Newly(s.tab.iqOf, t.tab.iqOf, B0(s.line), i) >= c.dispatch
           || (var k := KindOf(p, i);
               |t.iqs.Get(k)| + (if c.iqReclaim then IssueCount(c, k, |s.iqs.Get(k)|) else 0) >= IqCap(c, k))
  {
    hide Execute, Complete, IssueOver, DispatchOver, Pending, AllReady, AllSources, Inside, Undispatched, IssueCount, KindOf,
         IqCap, StartsAll, Timing, Newly, Queued, DispatchedInOrder;
    var b0, b1 := B0(s.line), B1(s.line);
    var s1 := Execute(Complete(p, s)); var s2 := Issue(p, c, s1); var t := Dispatch(p, c, s2);
    AdvanceUnits(p, b0, b1, s);
    IssueOverKeeps(p, c, b0, b1, s1, ISSUE_ORDER);
    ReadyIsAllSources(p, s1);
    IssueOverOldest(p, c, s1, ISSUE_ORDER);
    forall k: Kind ensures KindIssued(p, c, s1, s2, k) { EveryKindIsVisited(k); }
    forall i: nat | b0 <= i < b1 ensures Undispatched(s2.tab, i) <==> i !in s2.tab.iqOf {
      PlacedInside(p, b0, b1, s2, i);
    }
    DispatchFillsRob(p, c, s2, s2.tab, s2.line.rob, b0, c.dispatch);
    DispatchKeepsExecuting(p, c, b0, b1, s2);
    forall k: Kind
      ensures var q := s.iqs.Get(k); var n := IssueCount(c, k, |q|);
        q[n..] <= t.iqs.Get(k) && StartsAll(p, c, q[..n], t.tab.executing)
    {
      assert KindIssued(p, c, s1, s2, k);
    }
    forall i: nat | b0 <= i < b1 && i !in t.tab.iqOf
      ensures
        || Newly(s.tab.iqOf, t.tab.iqOf, b0, i) >= c.dispatch
        || (var k := KindOf(p, i);
            |t.iqs.Get(k)| + (if c.iqReclaim then IssueCount(c, k, |s.iqs.Get(k)|) else 0) >= IqCap(c, k))
    {
      assert KindIssued(p, c, s1, s2, KindOf(p, i));
    }
  }

  lemma EveryKindIsVisited(k: Kind)
    ensures k in ISSUE_ORDER
  {
    assert ISSUE_ORDER[0] == Alq && ISSUE_ORDER[1] == Brq && ISSUE_ORDER[2] == Mdq;
    assert ISSUE_ORDER[3] == Ioq && ISSUE_ORDER[4] == Fpq;
  }

  lemma PlacedInside(p: Program, b0: nat, b1: nat, s: State, i: nat)
    requires Inside(p, b0, b1, s.iqs, s.tab) && b0 <= i
    ensures Undispatched(s.tab, i) <==> i !in s.tab.iqOf
  {
    UnqueuedIsUndispatched(p, b0, b1, s.tab, i);
  }

  lemma {:induction false} DispatchOverExecuting(p: Program, c: Cfg, s: State, pending: seq<nat>, width: int)
    ensures DispatchOver(p, c, s, pending, width).tab.executing == s.tab.executing
    decreases |pending|
  {
    if pending != [] && width > 0 {
      if Full(c, s, KindOf(p, pending[0])) {
        DispatchOverExecuting(p, c, s, pending[1..], width);
      } else {
        DispatchOverExecuting(p, c, DispatchOne(p, s, pending[0]), pending[1..], width - 1);
      }
    }
  }

  lemma DispatchKeepsExecuting(p: Program, c: Cfg, b0: nat, b1: nat, s: State)
    ensures Dispatch(p, c, s).tab.executing == s.tab.executing
  {
    DispatchOverExecuting(p, c, s, Pending(s.tab, s.line.rob), c.dispatch);
  }

  lemma StepFills(p: Program, c: Cfg, s: State)
    requires Safe(p, c, s)
    ensures IssuesOldest(p, c, s, Step(p, c, s)) && DispatchesMost(p, c, s, Step(p, c, s))
  {
    hide Dispatch, Issue, Execute, Complete, Allocate, FrontEnd, Timely, Inside, RobStep, Newly, IssueCount, StartsAll, KindOf,
         IqCap, Queues.Get;
    var s0, t := Commit(p, c, s), BackEnd(p, c, s);
    var u := Allocate(c, t);
    StepParts(p, c, s);
    CommitTables(p, c, s);
    BackEndFills(p, c, s0);
    FrontEndKeeps(p, c, u.cycle, u.line);
    AllocateLine(p, c, t);
    CommitLine(p, c, s);
  }

  lemma CommitTables(p: Program, c: Cfg, s: State)
    ensures Commit(p, c, s).tab == s.tab && Commit(p, c, s).iqs == s.iqs
  {}

  /** In every step of every run each issue queue issues its oldest entries, as many as it has ports, and
      nothing in the ROB waits for an issue queue with room while the dispatch width is not used up. */
  lemma EveryStepFills(p: Program, c: Cfg, n: nat)
    ensures var s, t := Run(p, c, START, n), Run(p, c, START, n + 1);
      IssuesOldest(p, c, s, t) && DispatchesMost(p, c, s, t)
  {
    hide Step, Safe, IssuesOldest, DispatchesMost;
    RunSafe(p, c, n);
    StepFills(p, c, Run(p, c, START, n));
  }
}
