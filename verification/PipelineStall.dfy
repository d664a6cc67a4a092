/** The other half of progress: a configuration that is not live never drains. */
module PipelineStall {
  import opened Arith
  import opened Pipeline
  import opened PipelineInvariant
  import opened PipelineBackEnd
  import opened PipelineRuns
  import opened PipelineProgress

  // ---------- A width or capacity below one stops the line ----------

  lemma NoFetch(p: Program, c: Cfg, s: State)
    requires Safe(p, c, s) && c.decode <= 0
    ensures B7(Step(p, c, s).line) == B7(s.line)
  {
    LinesOfStep(p, c, s);
    FrontNoFetch(p, c, s.cycle, Allocate(c, BackEnd(p, c, s)).line);
  }

  lemma FrontNoFetch(p: Program, c: Cfg, cycle: int, l: Line)
    requires Ordered(p, l) && c.decode <= 0
    ensures B7(FrontEnd(p, c, cycle, l)) == B7(l)
  {
    var l1 := DecodeHalf(c, l); var l2 := IntoFqu(c, l1); var l3 := Respond(c, cycle, l2);
    DecodeHalfKeeps(p, c, l);
    IntoFquKeeps(p, c, l1);
    RespondKeeps(p, c, cycle, l2);
    RequestKeeps(p, c, cycle, l3);
  }

  lemma NoDecode(p: Program, c: Cfg, s: State)
    requires Safe(p, c, s) && (c.rnq <= 0 || c.rename <= 0 || c.uoq <= 0)
    ensures c.rnq <= 0 ==> B3(Step(p, c, s).line) == B3(s.line)
    ensures c.rename <= 0 || c.uoq <= 0 ==> B2(Step(p, c, s).line) == B2(s.line)
  {
    LinesOfStep(p, c, s);
    FrontNoDecode(p, c, s.cycle, Allocate(c, BackEnd(p, c, s)).line);
  }

  lemma FrontNoDecode(p: Program, c: Cfg, cycle: int, l: Line)
    requires Ordered(p, l)
    ensures c.rnq <= 0 ==> B3(FrontEnd(p, c, cycle, l)) == B3(l)
    ensures c.rename <= 0 || c.uoq <= 0 ==> B2(FrontEnd(p, c, cycle, l)) == B2(l)
  {
    var l1 := Rename(c, l); var l2 := Decode(c, l1); var l3 := IntoIdu(c, l2);
    RenameKeeps(p, c, l);
    DecodeKeeps(p, c, l1);
    IntoIduKeeps(p, c, l2);
    FetchHalfKeeps(p, c, cycle, l3);
  }

  lemma NoAllocate(p: Program, c: Cfg, s: State)
    requires Safe(p, c, s)
    ensures c.dispatch <= 0 || c.rob <= 0 ==> B1(Step(p, c, s).line) == B1(s.line)
    ensures c.commit <= 0 ==> B0(Step(p, c, s).line) == B0(s.line)
  {
    hide Ordered, Inside, RobStep, BackEnd, FrontEnd, Allocate, Commit;
    var u := Allocate(c, BackEnd(p, c, s));
    StepParts(p, c, s);
    CommitLine(p, c, s);
    AllocateLine(p, c, BackEnd(p, c, s));
    FrontEndKeeps(p, c, u.cycle, u.line);
  }

  // ---------- A queue without room or ports stops its instructions ----------

  lemma Shut(p: Program, c: Cfg, s: State, i: nat)
    requires Safe(p, c, s)
    requires IqCap(c, KindOf(p, i)) <= 0 || Ports(c, KindOf(p, i)) <= 0
    ensures IqCap(c, KindOf(p, i)) <= 0 && RobStage(s.tab, i) == 7 ==> RobStage(Step(p, c, s).tab, i) == 7
    ensures Ports(c, KindOf(p, i)) <= 0 && RobStage(s.tab, i) <= 8 ==> RobStage(Step(p, c, s).tab, i) <= 8
  {
    StepTab(p, c, s);
    StepParts(p, c, s);
    ShutFrom(p, c, Commit(p, c, s), i);
  }

  lemma ShutFrom(p: Program, c: Cfg, s: State, i: nat)
    requires Structural(p, s) && Timely(p, c, s)
    ensures var t := Dispatch(p, c, Issue(p, c, Execute(Complete(p, s))));
      && (IqCap(c, KindOf(p, i)) <= 0 && RobStage(s.tab, i) == 7 ==> RobStage(t.tab, i) == 7)
      && (Ports(c, KindOf(p, i)) <= 0 && RobStage(s.tab, i) <= 8 ==> RobStage(t.tab, i) <= 8)
  {
    var b0, b1 := B0(s.line), B1(s.line);
    var s1 := Execute(Complete(p, s));
    AdvanceUnits(p, b0, b1, s);
    assert RobStage(s.tab, i) <= 8 ==> RobStage(s1.tab, i) == RobStage(s.tab, i);
    ShutIssue(p, c, s1, i);
    ShutDispatch(p, c, Issue(p, c, s1), i);
  }

  lemma ShutIssue(p: Program, c: Cfg, s: State, i: nat)
    requires Structural(p, s)
    ensures Structural(p, Issue(p, c, s))
    ensures RobStage(s.tab, i) == 7 ==> RobStage(Issue(p, c, s).tab, i) == 7
    ensures Ports(c, KindOf(p, i)) <= 0 ==> RobStage(Issue(p, c, s).tab, i) == RobStage(s.tab, i)
  {
    IssueOverKeeps(p, c, B0(s.line), B1(s.line), s, ISSUE_ORDER);
  }

  lemma ShutDispatch(p: Program, c: Cfg, s: State, i: nat)
    requires Structural(p, s)
    ensures IqCap(c, KindOf(p, i)) <= 0 ==> RobStage(Dispatch(p, c, s).tab, i) == RobStage(s.tab, i)
    ensures RobStage(s.tab, i) <= 8 ==> RobStage(Dispatch(p, c, s).tab, i) <= 8
  {
    DispatchKeeps(p, c, s);
  }

  // ---------- Whole runs ----------

  /** A boundary that a configuration cannot move past, or an instruction it cannot move. */
  ghost predicate Stuck(p: Program, c: Cfg, i: nat, s: State) {
    && (c.decode <= 0 ==> B7(s.line) == 0)
    && (c.rnq <= 0 ==> B3(s.line) == 0)
    && (c.rename <= 0 || c.uoq <= 0 ==> B2(s.line) == 0)
    && (c.dispatch <= 0 || c.rob <= 0 ==> B1(s.line) == 0)
    && (c.commit <= 0 ==> B0(s.line) == 0)
    && (IqCap(c, KindOf(p, i)) <= 0 ==> RobStage(s.tab, i) == 7)
    && (Ports(c, KindOf(p, i)) <= 0 ==> RobStage(s.tab, i) <= 8)
  }

  lemma StuckStep(p: Program, c: Cfg, i: nat, s: State)
    requires Safe(p, c, s) && Stuck(p, c, i, s)
    ensures Stuck(p, c, i, Step(p, c, s))
  {
    if c.decode <= 0 { NoFetch(p, c, s); }
    if c.rnq <= 0 || c.rename <= 0 || c.uoq <= 0 { NoDecode(p, c, s); }
    NoAllocate(p, c, s);
    if IqCap(c, KindOf(p, i)) <= 0 || Ports(c, KindOf(p, i)) <= 0 { Shut(p, c, s, i); }
  }

  ghost predicate StuckAt(p: Program, c: Cfg, i: nat, n: nat) { Stuck(p, c, i, Run(p, c, START, n)) }

  lemma StuckNext(p: Program, c: Cfg, i: nat, n: nat)
    ensures StuckAt(p, c, i, n) ==> StuckAt(p, c, i, n + 1)
  {
    RunSafe(p, c, n);
    if StuckAt(p, c, i, n) { StuckStep(p, c, i, Run(p, c, START, n)); }
  }

  lemma StuckStart(p: Program, c: Cfg, i: nat)
    ensures StuckAt(p, c, i, 0)
  {}

  lemma StuckRun(p: Program, c: Cfg, i: nat, n: nat)
    ensures StuckAt(p, c, i, n)
  {
    StuckStart(p, c, i);
    var stuck := (k: nat) => StuckAt(p, c, i, k);
    forall k: nat ensures Carries(stuck, k) { StuckNext(p, c, i, k); }
    Always(stuck, 0, n);
  }

  lemma StuckIsNotDrained(p: Program, c: Cfg, i: nat, s: State)
    requires Safe(p, c, s) && Stuck(p, c, i, s) && i < |p|
    requires !FrontLive(c) || c.dispatch <= 0 || c.commit <= 0 || c.rob <= 0
             || IqCap(c, KindOf(p, i)) <= 0 || Ports(c, KindOf(p, i)) <= 0
    ensures !Drained(p, s)
  {
    DrainedWhenAllRetired(p, c, s);
    assert B0(s.line) <= B1(s.line) <= B2(s.line) <= B3(s.line) <= B7(s.line);
    assert i < B0(s.line) ==> i in s.tab.done;
  }

  /** A configuration that is not live for a non-empty program never drains. */
  lemma NeverDrains(p: Program, c: Cfg, n: nat)
    requires p != [] && !Live(p, c)
    ensures !Drained(p, Run(p, c, START, n))
  {
    var i: nat := 0;
    if FrontLive(c) && c.dispatch >= 1 && c.commit >= 1 && c.rob >= 1 {
      i :| i < |p| && (IqCap(c, KindOf(p, i)) <= 0 || Ports(c, KindOf(p, i)) <= 0);
    }
    RunSafe(p, c, n);
    StuckRun(p, c, i, n);
    StuckIsNotDrained(p, c, i, Run(p, c, START, n));
  }

  ghost predicate DrainedBy(p: Program, c: Cfg, n: nat) { Drained(p, Run(p, c, START, n)) }

  lemma DrainedByCases(p: Program, c: Cfg, n: nat)
    ensures p == [] ==> DrainedBy(p, c, n)
    ensures Live(p, c) && n >= |p| * PerInsn(c) ==> DrainedBy(p, c, n)
    ensures p != [] && !Live(p, c) ==> !DrainedBy(p, c, n)
  {
    if p == [] {
      EmptyIsDrained(p, c, n);
    } else if !Live(p, c) {
      NeverDrains(p, c, n);
    } else if n >= |p| * PerInsn(c) {
      DrainsInTime(p, c, n);
    }
  }

  /** The exact condition: a program drains at all if and only if it is empty or the
      configuration is live for it, and then within a bound linear in its length. */
  lemma DrainsExactlyWhenLive(p: Program, c: Cfg)
    ensures (exists n: nat :: DrainedBy(p, c, n)) <==> p == [] || Live(p, c)
    ensures p == [] || Live(p, c) ==> forall n: nat | n >= |p| * PerInsn(c) :: DrainedBy(p, c, n)
  {
    var bound: nat := |p| * PerInsn(c);
    forall n: nat
      ensures p == [] ==> DrainedBy(p, c, n)
      ensures Live(p, c) && n >= bound ==> DrainedBy(p, c, n)
      ensures p != [] && !Live(p, c) ==> !DrainedBy(p, c, n)
    {
      DrainedByCases(p, c, n);
    }
    assert p == [] || Live(p, c) ==> DrainedBy(p, c, bound);
  }

  lemma EmptyIsDrained(p: Program, c: Cfg, n: nat)
    requires p == []
    ensures Drained(p, Run(p, c, START, n))
  {
    RunSafe(p, c, n);
    DrainedWhenAllRetired(p, c, Run(p, c, START, n));
  }

  /** Presets that are not negative always give a live configuration, whatever the program. */
  lemma PresetsAreLive(values: map<string, int>, p: Program)
    requires forall k | k in values :: values[k] >= 0
    ensures Live(p, MakeCfg(values))
    ensures PerInsn(MakeCfg(values)) <= 19 + (if "fetch_response_stage" in values then values["fetch_response_stage"] else 0)
  {}
}
