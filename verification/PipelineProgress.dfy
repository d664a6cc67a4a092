/** Progress of the pipeline model: when it drains, how soon, and when it never does. */
module PipelineProgress {
  import opened Arith
  import opened Pipeline
  import opened PipelineInvariant
  import opened PipelineBackEnd
  import opened PipelineRuns

  /** Every width, capacity and port count that the program needs is at least one. */
  ghost predicate Live(p: Program, c: Cfg) {
    && FrontLive(c)
    && c.dispatch >= 1 && c.commit >= 1 && c.rob >= 1
    && (forall i: nat | i < |p| :: IqCap(c, KindOf(p, i)) >= 1 && Ports(c, KindOf(p, i)) >= 1)
  }

  function MaxLatency(c: Cfg): int { Max(PMEM_FILL, c.mul) }

  lemma LatencyBounded(p: Program, c: Cfg, i: nat)
    ensures 1 <= Timing(p, c, i).1 <= MaxLatency(c)
  {}

  /** Steps the oldest instruction may still need before it retires. */
  function Remaining(p: Program, c: Cfg, s: State): int
    requires B0(s.line) in s.tab.executing || Stage(s.line, s.tab, B0(s.line)) != 9
    requires s.line.l1i != [] || Stage(s.line, s.tab, B0(s.line)) != 1
  {
    var h := B0(s.line);
    var x := Stage(s.line, s.tab, h);
    if x >= 10 then 12 - x
    else if x == 9 then 2 + s.tab.executing[h].1
    else if x >= 2 then 11 - x + Timing(p, c, h).1
    else if x == 1 then 9 + Timing(p, c, h).1 + Max(1, s.line.l1i[0].1 - s.cycle + 1)
    else 10 + Timing(p, c, h).1 + Max(1, 1 + c.fetchStage)
  }

  /** The most steps any instruction needs once it is the oldest. */
  function PerInsn(c: Cfg): int { 10 + MaxLatency(c) + Max(1, 1 + c.fetchStage) }

  lemma HeadFacts(p: Program, c: Cfg, s: State)
    requires Safe(p, c, s)
    ensures var h := B0(s.line); var x := Stage(s.line, s.tab, h);
      && (x == 9 ==> h in s.tab.executing) && (x == 1 ==> s.line.l1i != [])
      && x <= 11
      && 1 <= Remaining(p, c, s) <= PerInsn(c)
      && (x <= 6 ==> B1(s.line) == h) && (x <= 5 ==> B2(s.line) == h)
  {
    LatencyBounded(p, c, B0(s.line));
  }

  ghost function HeadLeft(p: Program, c: Cfg, s: State): (r: int)
    requires Safe(p, c, s)
    ensures 1 <= r <= PerInsn(c)
  {
    HeadFacts(p, c, s);
    Remaining(p, c, s)
  }

  // ---------- Each stage the head may be in ----------

  /** The line just before the front end runs, compared with the line at the start of the step. */
  ghost predicate BeforeFront(p: Program, c: Cfg, l: Line, done: set<nat>, m: Line) {
    && Ordered(p, m)
    && B0(l) <= B0(m) <= B1(l) <= B1(m) <= B2(l) == B2(m)
    && B3(m) == B3(l) && B4(m) == B4(l) && B5(m) == B5(l) && B6(m) == B6(l) && B7(m) == B7(l)
    && m.l1i == l.l1i
    && (c.commit >= 1 && B0(l) < B1(l) && B0(l) in done ==> B0(l) < B0(m))
    && (c.dispatch >= 1 && c.rob >= 1 && B0(l) == B1(l) && l.uoq != [] ==> B1(l) < B1(m))
  }

  lemma LinesOfStep(p: Program, c: Cfg, s: State)
    requires Safe(p, c, s)
    ensures BeforeFront(p, c, s.line, s.tab.done, Allocate(c, BackEnd(p, c, s)).line)
    ensures Allocate(c, BackEnd(p, c, s)).cycle == s.cycle
  {
    StepParts(p, c, s);
    CommitLine(p, c, s);
    AllocateLine(p, c, BackEnd(p, c, s));
    if B0(s.line) == B1(s.line) && s.line.uoq != [] { assert Commit(p, c, s).line.uoq == s.line.uoq; }
  }

  /** What the front end does with the oldest instruction, once nothing is in front of it. */
  ghost predicate FrontAdvanced(c: Cfg, cycle: int, l: Line, m: Line) {
    var h := B0(l); var x := FrontStage(l, h);
    && B0(m) == h
    && (x == 6 ==> B1(m) > h)
    && (x <= 5 ==> B1(m) == h)
    && (2 <= x <= 5 ==> FrontStage(m, h) == x + 1)
    && (x == 1 && l.l1i != [] && l.l1i[0].1 <= cycle ==> FrontStage(m, h) == 2)
    && (x == 1 && l.l1i != [] && l.l1i[0].1 > cycle ==> FrontStage(m, h) == 1 && m.l1i != [] && m.l1i[0] == l.l1i[0])
    && (x == 0 ==> FrontStage(m, h) == 1 && m.l1i != [] && m.l1i[0].1 == cycle + 1 + c.fetchStage)
  }

  lemma FrontOfLines(p: Program, c: Cfg, cycle: int, l: Line, done: set<nat>, l1: Line)
    requires Live(p, c) && BeforeFront(p, c, l, done, l1) && B0(l) == B1(l) < |p|
    ensures FrontAdvanced(c, cycle, l, FrontEnd(p, c, cycle, l1))
  {
    hide Ordered, FrontEnd;
    FrontEndKeeps(p, c, cycle, l1);
    if FrontStage(l, B0(l)) <= 5 { FrontEndHead(p, c, cycle, l1); }
  }

  lemma HeadInFront(p: Program, c: Cfg, s: State)
    requires Safe(p, c, s) && Live(p, c) && B0(s.line) == B1(s.line) < |p|
    ensures FrontAdvanced(c, s.cycle, s.line, Step(p, c, s).line)
  {
    LinesOfStep(p, c, s);
    FrontOfLines(p, c, s.cycle, s.line, s.tab.done, Allocate(c, BackEnd(p, c, s)).line);
  }

  lemma HeadRetires(p: Program, c: Cfg, s: State)
    requires Safe(p, c, s) && Live(p, c) && B0(s.line) < B1(s.line) && B0(s.line) in s.tab.done
    ensures B0(Step(p, c, s).line) > B0(s.line)
  {
    LinesOfStep(p, c, s);
    FrontEndKeeps(p, c, s.cycle, Allocate(c, BackEnd(p, c, s)).line);
  }

  /** Commit leaves an unfinished head in place. */
  lemma HeadStays(p: Program, c: Cfg, s: State)
    requires Safe(p, c, s) && 7 <= Stage(s.line, s.tab, B0(s.line)) <= 10
    ensures B0(Commit(p, c, s).line) == B0(s.line) < B1(s.line)
  {
    assert s.line.rob[0] == B0(s.line);
  }

  lemma HeadWaits(p: Program, c: Cfg, s: State)
    requires Safe(p, c, s) && Live(p, c) && Stage(s.line, s.tab, B0(s.line)) == 8 && B0(s.line) < |p|
    ensures RobStage(BackEnd(p, c, s).tab, B0(s.line)) == 9
  {
    var h := B0(s.line);
    var s0 := Commit(p, c, s);
    StepParts(p, c, s);
    HeadStays(p, c, s);
    HeadWaitsFrom(p, c, s0);
  }

  lemma HeadIssuesNow(p: Program, c: Cfg, b0: nat, b1: nat, s: State)
    requires Inside(p, b0, b1, s.iqs, s.tab) && AllReady(p, s) && Live(p, c) && b0 < |p|
    requires RobStage(s.tab, b0) == 8
    ensures RobStage(Issue(p, c, s).tab, b0) == 9
  {
    assert KindOf(p, b0) in ISSUE_ORDER;
    HeadIssues(p, c, b0, b1, s, ISSUE_ORDER);
  }

  lemma HeadWaitsFrom(p: Program, c: Cfg, s: State)
    requires Structural(p, s) && Timely(p, c, s) && Live(p, c)
    requires B0(s.line) < B1(s.line) && RobStage(s.tab, B0(s.line)) == 8 && B0(s.line) < |p|
    ensures RobStage(Dispatch(p, c, Issue(p, c, Execute(Complete(p, s)))).tab, B0(s.line)) == 9
  {
    var b0, b1 := B0(s.line), B1(s.line);
    var s1 := Execute(Complete(p, s)); var s2 := Issue(p, c, s1);
    AdvanceUnits(p, b0, b1, s);
    IssueOverKeeps(p, c, b0, b1, s1, ISSUE_ORDER);
    HeadIssuesNow(p, c, b0, b1, s1);
    DispatchKeeps(p, c, s2);
  }

  lemma HeadEnters(p: Program, c: Cfg, s: State)
    requires Safe(p, c, s) && Live(p, c) && Stage(s.line, s.tab, B0(s.line)) == 7 && B0(s.line) < |p|
    ensures RobStage(BackEnd(p, c, s).tab, B0(s.line)) == 8
  {
    StepParts(p, c, s);
    HeadStays(p, c, s);
    HeadEntersFrom(p, c, Commit(p, c, s));
  }

  lemma HeadEntersFrom(p: Program, c: Cfg, s: State)
    requires Structural(p, s) && Timely(p, c, s) && Live(p, c)
    requires B0(s.line) < B1(s.line) && RobStage(s.tab, B0(s.line)) == 7 && B0(s.line) < |p|
    ensures RobStage(Dispatch(p, c, Issue(p, c, Execute(Complete(p, s)))).tab, B0(s.line)) == 8
  {
    var b0, b1 := B0(s.line), B1(s.line);
    var s1 := Execute(Complete(p, s)); var s2 := Issue(p, c, s1);
    AdvanceUnits(p, b0, b1, s);
    QueueFreeForHead(p, c, b0, b1, s1);
    IssueOverKeeps(p, c, b0, b1, s1, ISSUE_ORDER);
    HeadDispatches(p, c, s2);
  }

  lemma QueueFreeForHead(p: Program, c: Cfg, b0: nat, b1: nat, s: State)
    requires Inside(p, b0, b1, s.iqs, s.tab) && RobStage(s.tab, b0) == 7 && s.reclaim == map[]
    ensures RobStage(Issue(p, c, s).tab, b0) == 7
    ensures |Issue(p, c, s).iqs.Get(KindOf(p, b0))| + Issue(p, c, s).Reclaimed(KindOf(p, b0)) == 0
  {
    NoneAhead(p, b0, b1, s.iqs, s.tab);
    IssueOverKeeps(p, c, b0, b1, s, ISSUE_ORDER);
  }

  lemma FirstQueued(p: Program, iqs: Queues, tab: Tables, k: Kind)
    requires Queued(p, iqs, tab.iqOf, tab.issued)
    ensures iqs.Get(k) != [] ==> iqs.Get(k)[0] in tab.iqOf && iqs.Get(k)[0] !in tab.issued && KindOf(p, iqs.Get(k)[0]) == k
  {
    assert QueueOf(p, k, iqs.Get(k), tab.iqOf, tab.issued);
    if iqs.Get(k) != [] { assert iqs.Get(k)[0] in iqs.Get(k); }
  }

  /** Before the oldest instruction is dispatched, nothing of its kind is. */
  lemma NoneAhead(p: Program, b0: nat, b1: nat, iqs: Queues, tab: Tables)
    requires Inside(p, b0, b1, iqs, tab) && RobStage(tab, b0) == 7
    ensures iqs.Get(KindOf(p, b0)) == []
  {
    FirstQueued(p, iqs, tab, KindOf(p, b0));
  }

  // ---------- The measure ----------

  /** Steps left, at most, before the whole program has retired. */
  ghost function Measure(p: Program, c: Cfg, s: State): int
    requires Safe(p, c, s)
  {
    StepsLeft(|p|, B0(s.line), PerInsn(c), HeadLeft(p, c, s))
  }

  lemma StepTab(p: Program, c: Cfg, s: State)
    requires Safe(p, c, s)
    ensures Step(p, c, s).tab == BackEnd(p, c, s).tab && B0(s.line) <= B0(Step(p, c, s).line)
  {
    StepParts(p, c, s);
    CommitLine(p, c, s);
    AllocateLine(p, c, BackEnd(p, c, s));
    FrontEndKeeps(p, c, s.cycle, Allocate(c, BackEnd(p, c, s)).line);
  }

  lemma HeadRobStage(p: Program, c: Cfg, s: State)
    requires Safe(p, c, s) && Live(p, c) && B0(s.line) < |p| && 7 <= Stage(s.line, s.tab, B0(s.line)) <= 10
    ensures RobStage(s.tab, B0(s.line)) == 8 ==> RobStage(Step(p, c, s).tab, B0(s.line)) == 9
    ensures RobStage(s.tab, B0(s.line)) == 7 ==> RobStage(Step(p, c, s).tab, B0(s.line)) == 8
  {
    hide Step, BackEnd, Structural, Timely;
    StepTab(p, c, s);
    if RobStage(s.tab, B0(s.line)) == 8 { HeadWaits(p, c, s); }
    if RobStage(s.tab, B0(s.line)) == 7 { HeadEnters(p, c, s); }
  }

  /** After a step that leaves the same head, how far that head has got. */
  lemma HeadInRob(p: Program, c: Cfg, s: State)
    requires Safe(p, c, s) && Live(p, c) && B0(s.line) < |p| && 7 <= Stage(s.line, s.tab, B0(s.line)) <= 10
    ensures var h := B0(s.line); var x := Stage(s.line, s.tab, h); var t := Step(p, c, s);
      && B0(t.line) == h < B1(t.line)
      && (x == 9 ==> (RobStage(t.tab, h) == 10
                      || (RobStage(t.tab, h) == 9 && h in t.tab.executing && h in s.tab.executing
                          && t.tab.executing[h].1 == s.tab.executing[h].1 - 1)))
      && (x != 9 ==> RobStage(t.tab, h) == x + 1)
      && (x == 8 ==> h in t.tab.executing && t.tab.executing[h] == Timing(p, c, h))
  {
    hide Step, BackEnd, Ordered, Queued, DispatchedInOrder, Timely;
    var t := Step(p, c, s);
    OneStagePerStep(p, c, s);
    StepTab(p, c, s);
    StaysHead(s, t);
    HeadRobStage(p, c, s);
    StepKeepsStructure(p, c, s);
    HeadTables(p, c, s.cycle, B0(s.line), s.tab, t.tab);
  }

  lemma HeadTables(p: Program, c: Cfg, cycle: int, h: nat, tab: Tables, tab': Tables)
    requires RobStep(p, c, cycle, tab, tab')
    requires h in tab.executing ==> h !in tab.completing && h !in tab.done
    requires h in tab'.executing ==> h !in tab'.completing && h !in tab'.done
    requires h in tab'.completing ==> h !in tab'.done
    ensures RobStage(tab, h) == 10 ==> RobStage(tab', h) == 11
    ensures RobStage(tab, h) == 9 ==>
              RobStage(tab', h) == 10
              || (RobStage(tab', h) == 9 && h in tab'.executing && h in tab.executing
                  && tab'.executing[h].1 == tab.executing[h].1 - 1)
    ensures RobStage(tab, h) == 8 && RobStage(tab', h) == 9 ==> h in tab'.executing && tab'.executing[h] == Timing(p, c, h)
  {}

  lemma StaysHead(s: State, t: State)
    requires StageStep(s, t) && B0(s.line) <= B0(t.line)
    requires 7 <= Stage(s.line, s.tab, B0(s.line)) <= 10
    ensures B0(t.line) == B0(s.line) < B1(t.line)
    ensures Stage(t.line, t.tab, B0(s.line)) == RobStage(t.tab, B0(s.line))
  {
    assert 7 <= Stage(t.line, t.tab, B0(s.line)) <= 11;
  }

  lemma CloserInRob(p: Program, c: Cfg, s: State)
    requires Safe(p, c, s) && Live(p, c) && B0(s.line) < |p| && 7 <= Stage(s.line, s.tab, B0(s.line)) <= 10
    requires Safe(p, c, Step(p, c, s))
    ensures B0(Step(p, c, s).line) == B0(s.line) && HeadLeft(p, c, Step(p, c, s)) < HeadLeft(p, c, s)
  {
    hide Step;
    HeadFacts(p, c, s);
    HeadInRob(p, c, s);
  }

  /** How far an instruction in front of the ROB still has to go. */
  function FrontLeft(p: Program, c: Cfg, cycle: int, l: Line): int
    requires l.l1i != [] || FrontStage(l, B0(l)) != 1
  {
    var x := FrontStage(l, B0(l));
    if x >= 2 then 11 - x + Timing(p, c, B0(l)).1
    else if x == 1 then 9 + Timing(p, c, B0(l)).1 + Max(1, l.l1i[0].1 - cycle + 1)
    else 10 + Timing(p, c, B0(l)).1 + Max(1, 1 + c.fetchStage)
  }

  lemma FrontLeftDrops(p: Program, c: Cfg, cycle: int, l: Line, m: Line)
    requires FrontAdvanced(c, cycle, l, m) && FrontStage(l, B0(l)) <= 5
    requires FrontStage(l, B0(l)) == 1 ==> l.l1i != []
    ensures FrontStage(m, B0(m)) == 1 ==> m.l1i != []
    ensures FrontLeft(p, c, cycle + 1, m) < FrontLeft(p, c, cycle, l)
  {}

  lemma HeadLeftByPlace(p: Program, c: Cfg, s: State)
    requires Safe(p, c, s)
    ensures B0(s.line) < B1(s.line) ==> HeadLeft(p, c, s) <= 4 + Timing(p, c, B0(s.line)).1
    ensures B0(s.line) == B1(s.line) ==>
              (FrontStage(s.line, B0(s.line)) == 1 ==> s.line.l1i != [])
              && HeadLeft(p, c, s) == FrontLeft(p, c, s.cycle, s.line)
  {
    HeadFacts(p, c, s);
  }

  lemma CloserInFront(p: Program, c: Cfg, s: State)
    requires Safe(p, c, s) && Live(p, c) && B0(s.line) == B1(s.line) < |p|
    requires Safe(p, c, Step(p, c, s)) && Step(p, c, s).cycle == s.cycle + 1
    ensures B0(Step(p, c, s).line) == B0(s.line) && HeadLeft(p, c, Step(p, c, s)) < HeadLeft(p, c, s)
  {
    HeadInFront(p, c, s);
    CloserByAdvance(p, c, s, Step(p, c, s));
  }

  lemma CloserByAdvance(p: Program, c: Cfg, s: State, t: State)
    requires Safe(p, c, s) && Safe(p, c, t) && B0(s.line) == B1(s.line) && t.cycle == s.cycle + 1
    requires FrontAdvanced(c, s.cycle, s.line, t.line)
    ensures B0(t.line) == B0(s.line) && HeadLeft(p, c, t) < HeadLeft(p, c, s)
  {
    HeadLeftByPlace(p, c, s);
    HeadLeftByPlace(p, c, t);
    if FrontStage(s.line, B0(s.line)) <= 5 {
      FrontLeftDrops(p, c, s.cycle, s.line, t.line);
    }
  }

  /** From every state short of the end, a step retires the oldest instruction or brings it closer. */
  lemma HeadProgress(p: Program, c: Cfg, s: State)
    requires Safe(p, c, s) && Live(p, c) && B0(s.line) < |p|
    ensures Safe(p, c, Step(p, c, s))
    ensures var t := Step(p, c, s);
      B0(t.line) > B0(s.line) || (B0(t.line) == B0(s.line) && HeadLeft(p, c, t) < HeadLeft(p, c, s))
  {
    StepSafe(p, c, s);
    if B0(s.line) == B1(s.line) {
      StepKeepsStructure(p, c, s);
      CloserInFront(p, c, s);
    } else if B0(s.line) in s.tab.done {
      HeadRetires(p, c, s);
    } else {
      HeadNotDone(p, c, s);
      CloserInRob(p, c, s);
    }
  }

  lemma HeadNotDone(p: Program, c: Cfg, s: State)
    requires Safe(p, c, s) && B0(s.line) < B1(s.line) && B0(s.line) !in s.tab.done
    ensures 7 <= Stage(s.line, s.tab, B0(s.line)) <= 10
  {}

  /** Drained means exactly that every instruction has retired. */
  lemma DrainedWhenAllRetired(p: Program, c: Cfg, s: State)
    requires Safe(p, c, s)
    ensures Drained(p, s) <==> B0(s.line) == |p|
    ensures B0(s.line) <= |p|
    ensures AllRetired(p, s) <==> B0(s.line) == |p|
  {
    if B0(s.line) < |p| { assert B0(s.line) !in s.line.retired; }
    if B0(s.line) == |p| {
      assert forall i: nat :: i !in s.tab.executing && i !in s.tab.completing;
      assert s.tab.executing == map[] && s.tab.completing == map[];
    }
  }

  lemma MeasureDecreases(p: Program, c: Cfg, s: State, t: State)
    requires Safe(p, c, s) && Safe(p, c, t) && B0(s.line) < |p|
    requires B0(t.line) > B0(s.line) || (B0(t.line) == B0(s.line) && HeadLeft(p, c, t) < HeadLeft(p, c, s))
    ensures 0 <= Measure(p, c, t) < Measure(p, c, s) <= |p| * PerInsn(c)
  {
    StepsLeftDrops(|p|, B0(s.line), B0(t.line), PerInsn(c), HeadLeft(p, c, s), HeadLeft(p, c, t));
    StepsLeftBounds(|p|, B0(s.line), PerInsn(c), HeadLeft(p, c, s));
    StepsLeftBounds(|p|, B0(t.line), PerInsn(c), HeadLeft(p, c, t));
  }

  /** Every step from a state that has not drained lowers the measure. */
  lemma MeasureDrops(p: Program, c: Cfg, s: State)
    requires Safe(p, c, s) && Live(p, c) && !Drained(p, s)
    ensures Safe(p, c, Step(p, c, s))
    ensures 0 <= Measure(p, c, Step(p, c, s)) < Measure(p, c, s) <= |p| * PerInsn(c)
  {
    DrainedWhenAllRetired(p, c, s);
    HeadProgress(p, c, s);
    MeasureDecreases(p, c, s, Step(p, c, s));
  }

  lemma MeasureZeroWhenDrained(p: Program, c: Cfg, s: State)
    requires Safe(p, c, s)
    ensures 0 <= Measure(p, c, s) <= |p| * PerInsn(c)
    ensures Measure(p, c, s) == 0 <==> Drained(p, s)
  {
    DrainedWhenAllRetired(p, c, s);
    StepsLeftBounds(|p|, B0(s.line), PerInsn(c), HeadLeft(p, c, s));
  }

  lemma DrainedStays(p: Program, c: Cfg, s: State)
    requires Safe(p, c, s) && Drained(p, s)
    ensures Safe(p, c, Step(p, c, s)) && Drained(p, Step(p, c, s))
  {
    StepSafe(p, c, s);
    StepTab(p, c, s);
    DrainedWhenAllRetired(p, c, s);
    DrainedWhenAllRetired(p, c, Step(p, c, s));
  }

  ghost function RunMeasure(p: Program, c: Cfg, n: nat): int {
    RunSafe(p, c, n);
    Measure(p, c, Run(p, c, START, n))
  }

  lemma RunCountsDown(p: Program, c: Cfg, n: nat)
    requires Live(p, c)
    ensures Drained(p, Run(p, c, START, n)) ==> Drained(p, Run(p, c, START, n + 1))
    ensures !Drained(p, Run(p, c, START, n)) ==> 0 < RunMeasure(p, c, n) && RunMeasure(p, c, n + 1) < RunMeasure(p, c, n)
  {
    RunSafe(p, c, n);
    if Drained(p, Run(p, c, START, n)) {
      DrainedStays(p, c, Run(p, c, START, n));
    } else {
      MeasureDrops(p, c, Run(p, c, START, n));
    }
  }

  lemma RunMeasureBounds(p: Program, c: Cfg, n: nat)
    ensures 0 <= RunMeasure(p, c, n) <= |p| * PerInsn(c)
    ensures RunMeasure(p, c, n) == 0 <==> Drained(p, Run(p, c, START, n))
  {
    RunSafe(p, c, n);
    MeasureZeroWhenDrained(p, c, Run(p, c, START, n));
  }

  /** A live configuration drains within a number of steps linear in the program, and then
      stays drained. */
  lemma DrainsInTime(p: Program, c: Cfg, n: nat)
    requires Live(p, c) && n >= |p| * PerInsn(c)
    ensures Drained(p, Run(p, c, START, n))
  {
    var done := (k: nat) => Drained(p, Run(p, c, START, k));
    var left := (k: nat) => RunMeasure(p, c, k);
    forall k: nat ensures CountsDownAt(done, left, k) { RunCountsDown(p, c, k); }
    CountsDown(done, left, n);
    assert done(n) || left(n) <= left(0) - n;
    RunMeasureBounds(p, c, n);
    RunMeasureBounds(p, c, 0);
  }
}
