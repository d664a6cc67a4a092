/** One whole step of the pipeline model, and every reachable state. */
module PipelineRuns {
  import opened Pipeline
  import opened PipelineInvariant
  import opened PipelineBackEnd

  // ---------- Issue and dispatch as whole phases ----------

  ghost predicate IssueStep(p: Program, c: Cfg, b0: nat, b1: nat, s: State, t: State) {
    && t.line == s.line && t.cycle == s.cycle && t.readyAt == s.readyAt
    && t.tab.completing == s.tab.completing && t.tab.done == s.tab.done && t.tab.iqOf == s.tab.iqOf
    && Inside(p, b0, b1, t.iqs, t.tab) && Relabels(s.tab, t.tab, 8) && Starts(p, c, s.tab, t.tab)
    && (forall k: Kind :: |t.iqs.Get(k)| + t.Reclaimed(k) <= |s.iqs.Get(k)| + s.Reclaimed(k))
    && (forall k: Kind :: |t.iqs.Get(k)| <= |s.iqs.Get(k)|)
    && (forall i: nat :: RobStage(t.tab, i) != RobStage(s.tab, i) ==> Ports(c, KindOf(p, i)) >= 1)
  }

  lemma IssueKindStep(p: Program, c: Cfg, b0: nat, b1: nat, s: State, k: Kind)
    requires Inside(p, b0, b1, s.iqs, s.tab)
    ensures IssueStep(p, c, b0, b1, s, IssueKind(p, c, s, k))
    ensures forall j: Kind :: j != k ==> IssueKind(p, c, s, k).iqs.Get(j) == s.iqs.Get(j)
  {
    assert QueueOf(p, k, s.iqs.Get(k), s.tab.iqOf, s.tab.issued);
    IssueKindStarts(p, c, b0, b1, s, k);
    IssueKindKeeps(p, c, b0, b1, s, k);
  }

  lemma IssueStepThen(p: Program, c: Cfg, b0: nat, b1: nat, s: State, t: State, u: State)
    requires IssueStep(p, c, b0, b1, s, t) && IssueStep(p, c, b0, b1, t, u)
    ensures IssueStep(p, c, b0, b1, s, u)
  {}

  lemma {:induction false} IssueOverKeeps(p: Program, c: Cfg, b0: nat, b1: nat, s: State, kinds: seq<Kind>)
    requires Inside(p, b0, b1, s.iqs, s.tab)
    ensures IssueStep(p, c, b0, b1, s, IssueOver(p, c, s, kinds))
    decreases |kinds|
  {
    if kinds != [] {
      var t := IssueKind(p, c, s, kinds[0]);
      IssueKindStep(p, c, b0, b1, s, kinds[0]);
      IssueOverKeeps(p, c, b0, b1, t, kinds[1..]);
      IssueStepThen(p, c, b0, b1, s, t, IssueOver(p, c, s, kinds));
    }
  }

  lemma {:induction false} PickReadsTimes(p: Program, s: State, t: State, q: seq<nat>, ports: int)
    requires t.readyAt == s.readyAt && t.cycle == s.cycle
    ensures IssuePick(p, t, q, ports) == IssuePick(p, s, q, ports)
    decreases |q|
  {
    if q != [] { PickReadsTimes(p, s, t, q[1..], if ports > 0 && SrcsReady(p, s, q[0]) then ports - 1 else ports); }
  }

  lemma QueuesCommute(q: Queues, j: Kind, a: seq<nat>, k: Kind, b: seq<nat>)
    requires j != k
    ensures q.With(j, a).With(k, b) == q.With(k, b).With(j, a)
  {}

  function Added(r: map<Kind, nat>, k: Kind, n: nat): map<Kind, nat> {
    if n > 0 then r[k := (if k in r then r[k] else 0) + n] else r
  }

  lemma AddedCommutes(r: map<Kind, nat>, j: Kind, m: nat, k: Kind, n: nat)
    requires j != k
    ensures Added(Added(r, j, m), k, n) == Added(Added(r, k, n), j, m)
  {
    if m > 0 && n > 0 {
      var a, b := (if j in r then r[j] else 0) + m, (if k in r then r[k] else 0) + n;
      assert r[j := a][k := b] == r[k := b][j := a];
    }
  }

  lemma EffectParts(p: Program, c: Cfg, s: State, k: Kind, gone: set<nat>, n: nat, keep: seq<nat>)
    ensures var t := IssueEffect(p, c, s, k, gone, n, keep);
      && t == s.(iqs := t.iqs, tab := t.tab, reclaim := t.reclaim) && t.iqs == s.iqs.With(k, keep)
      && t.tab == s.tab.(executing := s.tab.executing + Started(p, c, gone), issued := s.tab.issued + gone)
      && t.reclaim == (if c.iqReclaim then Added(s.reclaim, k, n) else s.reclaim)
  {
    hide Started, Queues.With, Queues.Get;
  }

  lemma StartedCommutes(p: Program, c: Cfg, m: map<nat, (Node, int)>, a: set<nat>, b: set<nat>)
    ensures m + Started(p, c, a) + Started(p, c, b) == m + Started(p, c, b) + Started(p, c, a)
  {
    hide Timing;
  }

  /** The queue a kind keeps, and what it issues, do not touch what another kind does. */
  lemma EffectsCommute(p: Program, c: Cfg, s: State, j: Kind, jGone: set<nat>, m: nat, jKeep: seq<nat>,
                       k: Kind, kGone: set<nat>, n: nat, kKeep: seq<nat>)
    requires j != k
    ensures IssueEffect(p, c, IssueEffect(p, c, s, j, jGone, m, jKeep), k, kGone, n, kKeep)
         == IssueEffect(p, c, IssueEffect(p, c, s, k, kGone, n, kKeep), j, jGone, m, jKeep)
  {
    hide Started, Queues.With, Queues.Get, IssueEffect, Added;
    EffectParts(p, c, s, j, jGone, m, jKeep);
    EffectParts(p, c, s, k, kGone, n, kKeep);
    EffectParts(p, c, IssueEffect(p, c, s, j, jGone, m, jKeep), k, kGone, n, kKeep);
    EffectParts(p, c, IssueEffect(p, c, s, k, kGone, n, kKeep), j, jGone, m, jKeep);
    QueuesCommute(s.iqs, j, jKeep, k, kKeep);
    StartedCommutes(p, c, s.tab.executing, jGone, kGone);
    SetsCommute(s.tab.issued, jGone, kGone);
    AddedCommutes(s.reclaim, j, m, k, n);
  }

  lemma SetsCommute(s: set<nat>, a: set<nat>, b: set<nat>)
    ensures s + a + b == s + b + a
  {}

  lemma IssueKindsCommute(p: Program, c: Cfg, s: State, j: Kind, k: Kind)
    requires j != k
    ensures IssueKind(p, c, IssueKind(p, c, s, j), k) == IssueKind(p, c, IssueKind(p, c, s, k), j)
  {
    hide IssuePick, Started, ToSet, Ports;
    var jPick := IssuePick(p, s, s.iqs.Get(j), Ports(c, j));
    var kPick := IssuePick(p, s, s.iqs.Get(k), Ports(c, k));
    PickReadsTimes(p, s, IssueKind(p, c, s, j), s.iqs.Get(k), Ports(c, k));
    PickReadsTimes(p, s, IssueKind(p, c, s, k), s.iqs.Get(j), Ports(c, j));
    EffectsCommute(p, c, s, j, ToSet(jPick.0), |jPick.0|, jPick.1, k, ToSet(kPick.0), |kPick.0|, kPick.1);
  }

  predicate EachOnce(kinds: seq<Kind>) { forall i, j | 0 <= i < j < |kinds| :: kinds[i] != kinds[j] }

  function Omit(kinds: seq<Kind>, m: nat): (r: seq<Kind>)
    requires m < |kinds|
  {
    kinds[..m] + kinds[m + 1..]
  }

  /** A queue may be visited first. */
  lemma {:induction false} IssueFirst(p: Program, c: Cfg, s: State, kinds: seq<Kind>, m: nat)
    requires EachOnce(kinds) && m < |kinds|
    ensures IssueOver(p, c, s, kinds) == IssueOver(p, c, IssueKind(p, c, s, kinds[m]), Omit(kinds, m))
    decreases m
  {
    hide IssueKind;
    if m == 0 {
      assert Omit(kinds, 0) == kinds[1..];
    } else {
      IssueFirst(p, c, IssueKind(p, c, s, kinds[0]), kinds[1..], m - 1);
      IssueKindsCommute(p, c, s, kinds[0], kinds[m]);
      assert Omit(kinds, m) == [kinds[0]] + Omit(kinds[1..], m - 1);
    }
  }

  lemma OmitMembers(kinds: seq<Kind>, m: nat)
    requires EachOnce(kinds) && m < |kinds|
    ensures EachOnce(Omit(kinds, m)) && forall k :: k in Omit(kinds, m) <==> k in kinds && k != kinds[m]
  {
    forall k | k in kinds && k != kinds[m] ensures k in Omit(kinds, m) {
      var i :| 0 <= i < |kinds| && kinds[i] == k;
      assert Omit(kinds, m)[if i < m then i else i - 1] == k;
    }
  }

  /** Issuing gives the same state whatever the order in which the queues are visited. */
  lemma {:induction false} IssueAnyOrder(p: Program, c: Cfg, s: State, kinds: seq<Kind>, other: seq<Kind>)
    requires EachOnce(kinds) && EachOnce(other)
    requires |kinds| == |other| && forall k: Kind :: k in kinds <==> k in other
    ensures IssueOver(p, c, s, kinds) == IssueOver(p, c, s, other)
    decreases |kinds|
  {
    hide IssueKind;
    if kinds != [] {
      assert kinds[0] in other;
      var m: nat :| m < |other| && other[m] == kinds[0];
      IssueFirst(p, c, s, other, m);
      OmitMembers(other, m);
      OmitMembers(kinds, 0);
      assert Omit(kinds, 0) == kinds[1..];
      IssueAnyOrder(p, c, IssueKind(p, c, s, kinds[0]), kinds[1..], Omit(other, m));
    }
  }

  predicate AllReady(p: Program, s: State) {
    forall r :: r in s.readyAt ==> s.readyAt[r] <= s.cycle
  }

  /** The oldest instruction, waiting in its issue queue with every source ready, issues. */
  lemma {:induction false} HeadIssues(p: Program, c: Cfg, b0: nat, b1: nat, s: State, kinds: seq<Kind>)
    requires Inside(p, b0, b1, s.iqs, s.tab) && AllReady(p, s)
    requires RobStage(s.tab, b0) == 8 && KindOf(p, b0) in kinds && Ports(c, KindOf(p, b0)) >= 1
    ensures RobStage(IssueOver(p, c, s, kinds).tab, b0) == 9
    decreases |kinds|
  {
    var k := KindOf(p, b0);
    var t := IssueKind(p, c, s, kinds[0]);
    IssueKindStep(p, c, b0, b1, s, kinds[0]);
    IssueOverKeeps(p, c, b0, b1, t, kinds[1..]);
    if kinds[0] == k {
      HeadIsFirst(p, b0, b1, s.iqs, s.tab);
      PickOldest(p, s, s.iqs.Get(k), Ports(c, k));
      assert b0 in IssuePick(p, s, s.iqs.Get(k), Ports(c, k)).0;
      IssueKindKeeps(p, c, b0, b1, s, k);
    } else {
      IssueKindKeeps(p, c, b0, b1, s, kinds[0]);
      assert KindOf(p, b0) in kinds[1..];
      HeadIssues(p, c, b0, b1, t, kinds[1..]);
    }
  }

  lemma HeadIsFirst(p: Program, b0: nat, b1: nat, iqs: Queues, tab: Tables)
    requires Inside(p, b0, b1, iqs, tab) && RobStage(tab, b0) == 8
    ensures iqs.Get(KindOf(p, b0)) != [] && iqs.Get(KindOf(p, b0))[0] == b0
  {
    var q := iqs.Get(KindOf(p, b0));
    assert QueueOf(p, KindOf(p, b0), q, tab.iqOf, tab.issued);
    assert b0 in q;
    assert q[0] in q;
  }

  lemma DispatchKeeps(p: Program, c: Cfg, s: State)
    requires Structural(p, s)
    ensures var t := Dispatch(p, c, s);
      && Structural(p, t) && t.line == s.line && t.cycle == s.cycle && t.readyAt == s.readyAt && t.reclaim == map[]
      && t.tab == s.tab.(iqOf := t.tab.iqOf) && Relabels(s.tab, t.tab, 7)
      && (forall i: nat :: RobStage(s.tab, i) == RobStage(t.tab, i) || (c.dispatch >= 1 && !Full(c, s, KindOf(p, i))))
  {
    PendingAccounted(p, c, s);
    DispatchOverKeeps(p, c, B0(s.line), B1(s.line), s, Pending(s.tab, s.line.rob), c.dispatch);
  }

  /** The oldest instruction, waiting for a queue that is not full, is dispatched. */
  lemma HeadDispatches(p: Program, c: Cfg, s: State)
    requires Structural(p, s) && c.dispatch >= 1 && B0(s.line) < B1(s.line)
    requires RobStage(s.tab, B0(s.line)) == 7 && !Full(c, s, KindOf(p, B0(s.line)))
    ensures RobStage(Dispatch(p, c, s).tab, B0(s.line)) == 8
  {
    var b0, b1 := B0(s.line), B1(s.line);
    var pending := Pending(s.tab, s.line.rob);
    PendingAccounted(p, c, s);
    assert s.line.rob[0] == b0 && b0 !in s.tab.issued;
    assert b0 in pending && pending[0] in pending;
    assert pending[0] == b0;
    FirstPendingIsNext(p, c, b0, b1, s, pending);
    DispatchOneKeeps(p, b0, b1, s, b0);
    AccountedAfter(p, c, b0, b1, s, pending);
    DispatchOverKeeps(p, c, b0, b1, DispatchOne(p, s, b0), pending[1..], c.dispatch - 1);
  }

  // ---------- The invariant of reachable states ----------

  /** Everything that is scheduled is due; delays never exceed the instruction's own. */
  ghost predicate Timely(p: Program, c: Cfg, s: State) {
    && AllReady(p, s)
    && s.reclaim == map[]
    && (forall i: nat :: i in s.tab.completing ==> s.tab.completing[i] <= s.cycle)
    && (forall i: nat :: i in s.tab.executing ==> s.tab.executing[i].1 <= Timing(p, c, i).1)
    && (forall j | 0 <= j < |s.line.l1i| :: s.line.l1i[j].1 <= s.cycle + c.fetchStage)
  }

  /** What one step does to an instruction inside the ROB. */
  ghost predicate RobStep(p: Program, c: Cfg, cycle: int, tab: Tables, tab': Tables) {
    && (forall i: nat :: RobStage(tab, i) <= RobStage(tab', i) <= RobStage(tab, i) + 1)
    && (forall i: nat :: i in tab.completing ==> i in tab'.done)
    && (forall i: nat :: i in tab'.completing ==> tab'.completing[i] == cycle + COMPLETE_REG)
    && (forall i: nat :: i in tab.executing ==>
          if tab.executing[i].1 > 1 then i in tab'.executing && tab'.executing[i] == (tab.executing[i].0, tab.executing[i].1 - 1)
          else i in tab'.completing)
    && (forall i: nat :: i in tab'.executing ==> i in tab.executing || tab'.executing[i] == Timing(p, c, i))
  }

  /** Completion and execution: what was completing is done, what was executing has advanced. */
  lemma AdvanceUnits(p: Program, b0: nat, b1: nat, s: State)
    requires Inside(p, b0, b1, s.iqs, s.tab)
    requires forall i: nat :: i in s.tab.completing ==> s.tab.completing[i] <= s.cycle
    ensures var t := Execute(Complete(p, s));
      && t.line == s.line && t.iqs == s.iqs && t.cycle == s.cycle && t.reclaim == s.reclaim
      && t.tab.issued == s.tab.issued && t.tab.iqOf == s.tab.iqOf
      && (AllReady(p, s) ==> AllReady(p, t))
      && Inside(p, b0, b1, t.iqs, t.tab)
      && (forall i: nat ::
            RobStage(t.tab, i) ==
            (if i in s.tab.completing || i in Finished(s.tab.executing) then RobStage(s.tab, i) + 1 else RobStage(s.tab, i)))
      && (forall i: nat :: i in s.tab.completing ==> i in t.tab.done)
      && (forall i: nat :: i in t.tab.completing <==> i in Finished(s.tab.executing))
      && (forall i: nat :: i in t.tab.completing ==> t.tab.completing[i] == s.cycle + COMPLETE_REG)
      && (forall i: nat :: i in t.tab.executing <==> i in s.tab.executing && s.tab.executing[i].1 > 1)
      && (forall i: nat :: i in t.tab.executing ==> t.tab.executing[i] == (s.tab.executing[i].0, s.tab.executing[i].1 - 1))
  {
    var u := Complete(p, s);
    CompleteKeeps(p, b0, b1, s);
    ExecuteKeeps(p, b0, b1, u);
    assert Finished(u.tab.executing) == Finished(s.tab.executing);
    assert u.tab.completing == map[];
  }

  /** The whole back end, from the committed state on. */
  lemma BackEndStep(p: Program, c: Cfg, s: State)
    requires Structural(p, s) && Timely(p, c, s)
    ensures var t := Dispatch(p, c, Issue(p, c, Execute(Complete(p, s))));
      && t.line == s.line && t.cycle == s.cycle && t.reclaim == map[] && AllReady(p, t)
      && Structural(p, t) && RobStep(p, c, s.cycle, s.tab, t.tab)
  {
    var b0, b1 := B0(s.line), B1(s.line);
    var s1 := Execute(Complete(p, s)); var s2 := Issue(p, c, s1); var t := Dispatch(p, c, s2);
    AdvanceUnits(p, b0, b1, s);
    IssueOverKeeps(p, c, b0, b1, s1, ISSUE_ORDER);
    DispatchKeeps(p, c, s2);
    RobStepCompose(p, c, s.cycle, s.tab, s1.tab, s2.tab, t.tab, Finished(s.tab.executing));
  }

  lemma RobStepCompose(p: Program, c: Cfg, cycle: int, tab: Tables, tab1: Tables, tab2: Tables, tab3: Tables, finished: set<nat>)
    requires forall i: nat ::
      RobStage(tab1, i) == (if i in tab.completing || i in finished then RobStage(tab, i) + 1 else RobStage(tab, i))
    requires forall i: nat :: i in tab.completing ==> RobStage(tab, i) == 10
    requires forall i: nat :: i in finished ==> RobStage(tab, i) == 9
    requires forall i: nat :: i in finished <==> i in tab.executing && tab.executing[i].1 <= 1
    requires forall i: nat :: i in tab.completing ==> i in tab1.done
    requires forall i: nat :: i in tab1.completing <==> i in finished
    requires forall i: nat :: i in tab1.completing ==> tab1.completing[i] == cycle + COMPLETE_REG
    requires forall i: nat :: i in tab1.executing <==> i in tab.executing && tab.executing[i].1 > 1
    requires forall i: nat :: i in tab1.executing ==> tab1.executing[i] == (tab.executing[i].0, tab.executing[i].1 - 1)
    requires tab2.completing == tab1.completing && tab2.done == tab1.done && Starts(p, c, tab1, tab2) && Relabels(tab1, tab2, 8)
    requires tab3 == tab2.(iqOf := tab3.iqOf) && Relabels(tab2, tab3, 7)
    requires forall i: nat :: i in tab2.executing ==> i !in finished
    ensures RobStep(p, c, cycle, tab, tab3)
  {}

  // ---------- One step ----------

  ghost predicate StageStep(s: State, t: State) {
    forall i: nat :: Stage(s.line, s.tab, i) <= Stage(t.line, t.tab, i) <= Stage(s.line, s.tab, i) + 1
  }

  /** The state before the front end runs, in terms of the three parts of a step. */
  lemma StepParts(p: Program, c: Cfg, s: State)
    requires Structural(p, s) && Timely(p, c, s)
    ensures var s0 := Commit(p, c, s); var t := BackEnd(p, c, s); var u := Allocate(c, t);
      && Structural(p, s0) && Timely(p, c, s0)
      && Structural(p, t) && t.line == s0.line && t.cycle == s.cycle && t.reclaim == map[] && AllReady(p, t)
      && RobStep(p, c, s.cycle, s.tab, t.tab)
      && Structural(p, u) && u.tab == t.tab && u.iqs == t.iqs
  {
    hide Dispatch, Issue, Execute, Complete, Ordered, Queued, DispatchedInOrder;
    CommitKeeps(p, c, s);
    CommitLine(p, c, s);
    BackEndStep(p, c, Commit(p, c, s));
    AllocateKeeps(p, c, BackEnd(p, c, s));
    AllocateTables(p, c, BackEnd(p, c, s));
  }

  lemma ComposeStages(l: Line, l0: Line, l1: Line, m: Line, tab: Tables, tab': Tables)
    requires forall i: nat :: RobStage(tab, i) <= RobStage(tab', i) <= RobStage(tab, i) + 1
    requires B0(l) <= B0(l0) <= B1(l0) == B1(l) && B0(l1) == B0(l0) && B1(l) <= B1(l1) <= B2(l1) == B2(l)
    requires B3(l1) == B3(l) && B4(l1) == B4(l) && B5(l1) == B5(l) && B6(l1) == B6(l) && B7(l1) == B7(l)
    requires B0(m) == B0(l1) && B1(m) == B1(l1)
    requires forall i: nat | B0(l) <= i < B0(l0) :: RobStage(tab, i) == 11
    requires forall i: nat | B1(l) <= i < B1(l1) :: RobStage(tab', i) == 7
    requires forall i: nat :: i >= B1(l1) ==> FrontStage(l1, i) <= FrontStage(m, i) <= FrontStage(l1, i) + 1
    ensures forall i: nat :: Stage(l, tab, i) <= Stage(m, tab', i) <= Stage(l, tab, i) + 1
  {}

  lemma StepKeepsStructure(p: Program, c: Cfg, s: State)
    requires Structural(p, s) && Timely(p, c, s)
    ensures Structural(p, Step(p, c, s)) && RobStep(p, c, s.cycle, s.tab, Step(p, c, s).tab)
    ensures Step(p, c, s).cycle == s.cycle + 1
  {
    hide BackEnd, FrontEnd, Ordered, RobStep, Timely;
    var u := Allocate(c, BackEnd(p, c, s));
    StepParts(p, c, s);
    FrontEndKeeps(p, c, u.cycle, u.line);
  }

  lemma RetiredStages(p: Program, c: Cfg, s: State)
    requires Structural(p, s)
    ensures forall i: nat | B0(s.line) <= i < B0(Commit(p, c, s).line) :: RobStage(s.tab, i) == 11
  {
    CommitLine(p, c, s);
  }

  lemma AllocatedStages(p: Program, c: Cfg, t: State)
    requires Structural(p, t)
    ensures forall i: nat | B1(t.line) <= i < B1(Allocate(c, t).line) :: RobStage(t.tab, i) == 7
  {
    AllocateLine(p, c, t);
    PlacedAfterAllocate(p, B0(t.line), B1(t.line), B1(Allocate(c, t).line), t.tab);
  }

  /** No instruction moves more than one stage per step, and none ever moves back. */
  lemma OneStagePerStep(p: Program, c: Cfg, s: State)
    requires Structural(p, s) && Timely(p, c, s)
    ensures StageStep(s, Step(p, c, s))
  {
    var t := BackEnd(p, c, s); var u := Allocate(c, t);
    StepParts(p, c, s);
    RetiredStages(p, c, s);
    AllocatedStages(p, c, t);
    StageStepLine(p, c, s, t, u);
  }

  lemma StageStepLine(p: Program, c: Cfg, s: State, t: State, u: State)
    requires Ordered(p, s.line) && Ordered(p, t.line) && Ordered(p, u.line)
    requires t == BackEnd(p, c, s) && u == Allocate(c, t) && t.line == Commit(p, c, s).line && u.tab == t.tab
    requires RobStep(p, c, s.cycle, s.tab, t.tab)
    requires forall i: nat | B0(s.line) <= i < B0(t.line) :: RobStage(s.tab, i) == 11
    requires forall i: nat | B1(t.line) <= i < B1(u.line) :: RobStage(t.tab, i) == 7
    ensures StageStep(s, Step(p, c, s))
  {
    CommitLine(p, c, s);
    AllocateLine(p, c, t);
    FrontEndKeeps(p, c, u.cycle, u.line);
    ComposeStages(s.line, t.line, u.line, Step(p, c, s).line, s.tab, t.tab);
  }

  lemma FetchTimely(p: Program, c: Cfg, cycle: int, l: Line)
    requires forall j | 0 <= j < |l.l1i| :: l.l1i[j].1 <= cycle + c.fetchStage
    ensures forall j | 0 <= j < |FrontEnd(p, c, cycle, l).l1i| :: FrontEnd(p, c, cycle, l).l1i[j].1 <= cycle + 1 + c.fetchStage
  {
    var m := IntoFqu(c, DecodeHalf(c, l));
    assert m.l1i == l.l1i;
    var r := Respond(c, cycle, m);
    assert forall j | 0 <= j < |r.l1i| :: r.l1i[j] in m.l1i;
  }

  lemma StepTimelyTables(p: Program, c: Cfg, s: State)
    requires Structural(p, s) && Timely(p, c, s)
    ensures var t := Step(p, c, s);
      && AllReady(p, t) && t.reclaim == map[]
      && (forall i: nat :: i in t.tab.completing ==> t.tab.completing[i] <= t.cycle)
      && (forall i: nat :: i in t.tab.executing ==> t.tab.executing[i].1 <= Timing(p, c, i).1)
  {
    StepParts(p, c, s);
  }

  lemma StepKeepsTimely(p: Program, c: Cfg, s: State)
    requires Structural(p, s) && Timely(p, c, s)
    ensures Timely(p, c, Step(p, c, s))
  {
    var t := BackEnd(p, c, s); var u := Allocate(c, t);
    StepTimelyTables(p, c, s);
    assert t.cycle == s.cycle && t.line == Commit(p, c, s).line by { StepParts(p, c, s); }
    FetchTimely(p, c, u.cycle, u.line);
  }

  // ---------- Every reachable state ----------

  ghost predicate Safe(p: Program, c: Cfg, s: State) {
    Structural(p, s) && Timely(p, c, s)
  }

  lemma StartSafe(p: Program, c: Cfg)
    ensures Safe(p, c, START)
  {
    assert forall k: Kind :: START.iqs.Get(k) == [];
  }

  lemma StepSafe(p: Program, c: Cfg, s: State)
    requires Safe(p, c, s)
    ensures Safe(p, c, Step(p, c, s))
  {
    StepKeepsStructure(p, c, s);
    StepKeepsTimely(p, c, s);
  }

  lemma {:induction false} RunSafe(p: Program, c: Cfg, n: nat)
    ensures Safe(p, c, Run(p, c, START, n))
  {
    hide Step, Safe;
    if n == 0 {
      StartSafe(p, c);
    } else {
      RunSafe(p, c, n - 1);
      StepSafe(p, c, Run(p, c, START, n - 1));
    }
  }
}
