/** The simulation loop: it steps the model until it has drained or the cycle limit is reached,
    recording one frame per step, and fails exactly when something has not retired by then. */
module PipelineSimulate {
  import opened Arith
  import opened Options
  import opened Pipeline
  import opened PipelineInvariant
  import opened PipelineRuns
  import opened PipelineProgress
  import opened PipelineStall
  import M = PipelineMachine

  /** What one frame records: the cycle, the queues after it, the instructions executing in the
      units of each issue queue, and how many instructions have retired so far. */
  datatype Frame = Frame(
    t: int, ifu: seq<nat>, fqu: seq<nat>, idu: seq<nat>, rnu: seq<nat>, uoq: seq<nat>, rob: seq<nat>,
    iqs: Queues, executing: seq<set<nat>>, retiredTotal: nat)

  function ExecutingOn(p: Program, tab: Tables, k: Kind): set<nat> {
    set i | i in tab.executing && KindOf(p, i) == k
  }

  function FrameOf(p: Program, s: State): Frame {
    Frame(s.cycle - 1, s.line.ifu, s.line.fqu, s.line.idu, s.line.rnu, s.line.uoq, s.line.rob, s.iqs,
          [ExecutingOn(p, s.tab, Alq), ExecutingOn(p, s.tab, Brq), ExecutingOn(p, s.tab, Mdq),
           ExecutingOn(p, s.tab, Ioq), ExecutingOn(p, s.tab, Fpq)],
          |s.line.committed|)
  }

  datatype Trace = Trace(cycles: int, committed: nat, frames: seq<Frame>)

  ghost predicate RetiredBy(p: Program, c: Cfg, n: nat) { AllRetired(p, Run(p, c, START, n)) }

  lemma RetiredIsDrained(p: Program, c: Cfg, n: nat)
    ensures RetiredBy(p, c, n) <==> DrainedBy(p, c, n)
    ensures RetiredBy(p, c, n) ==> |Run(p, c, START, n).line.committed| == |p|
  {
    RunSafe(p, c, n);
    DrainedWhenAllRetired(p, c, Run(p, c, START, n));
  }

  lemma DrainedFrom(p: Program, c: Cfg, m: nat, n: nat)
    requires m <= n && DrainedBy(p, c, m)
    ensures DrainedBy(p, c, n)
  {
    hide Step, Drained, Safe;
    var drained := (k: nat) => DrainedBy(p, c, k);
    forall k: nat ensures Carries(drained, k) {
      RunSafe(p, c, k);
      if DrainedBy(p, c, k) { DrainedStays(p, c, Run(p, c, START, k)); }
    }
    Always(drained, m, n);
  }

  lemma {:induction false} RunCycle(p: Program, c: Cfg, n: nat)
    ensures Run(p, c, START, n).cycle == n
  {
    hide Step;
    if n > 0 {
      RunCycle(p, c, n - 1);
      StepCycle(p, c, Run(p, c, START, n - 1));
    }
  }

  lemma StepCycle(p: Program, c: Cfg, s: State)
    ensures Step(p, c, s).cycle == s.cycle + 1
  {
    assert BackEnd(p, c, s).cycle == s.cycle by { BackEndCycle(p, c, s); }
  }

  lemma BackEndCycle(p: Program, c: Cfg, s: State)
    ensures BackEnd(p, c, s).cycle == s.cycle
  {
    var t := Issue(p, c, Execute(Complete(p, Commit(p, c, s))));
    IssueCycle(p, c, Execute(Complete(p, Commit(p, c, s))), ISSUE_ORDER);
    DispatchCycle(p, c, t, Pending(t.tab, t.line.rob), c.dispatch);
  }

  lemma {:induction false} IssueCycle(p: Program, c: Cfg, s: State, kinds: seq<Kind>)
    ensures IssueOver(p, c, s, kinds).cycle == s.cycle
    decreases |kinds|
  {
    if kinds != [] { IssueCycle(p, c, IssueKind(p, c, s, kinds[0]), kinds[1..]); }
  }

  lemma {:induction false} DispatchCycle(p: Program, c: Cfg, s: State, pending: seq<nat>, width: int)
    ensures DispatchOver(p, c, s, pending, width).cycle == s.cycle
    decreases |pending|
  {
    if pending != [] && width > 0 {
      DispatchCycle(p, c, s, pending[1..], width);
      DispatchCycle(p, c, DispatchOne(p, s, pending[0]), pending[1..], width - 1);
    }
  }

  /** The frames are those of the steps of cycles 0 to |frames| - 1. */
  ghost predicate Records(p: Program, c: Cfg, frames: seq<Frame>) {
    forall j | 0 <= j < |frames| :: frames[j] == FrameOf(p, Run(p, c, START, j + 1))
  }

  /** A run of n steps within the limit that stops as soon as a step leaves the model drained. */
  ghost predicate StopsAt(p: Program, c: Cfg, n: nat, limit: nat) {
    && n <= limit
    && (n < limit ==> n > 0 && DrainedBy(p, c, n))
    && (forall j | 0 < j < n :: !DrainedBy(p, c, j))
  }

  /** The loop stops with everything retired if and only if the model drains within the limit. */
  lemma StopDecides(p: Program, c: Cfg, n: nat, limit: nat)
    requires StopsAt(p, c, n, limit)
    ensures RetiredBy(p, c, n) <==> DrainedBy(p, c, limit)
    ensures RetiredBy(p, c, n) ==> |Run(p, c, START, n).line.committed| == |p|
  {
    RetiredIsDrained(p, c, n);
    if DrainedBy(p, c, n) { DrainedFrom(p, c, n, limit); }
  }

  method Simulate(insns: Program, values: map<string, int>, maxCycles: int) returns (r: Result<Trace, int>)
    ensures var c := MakeCfg(values); var limit := Max(0, maxCycles);
      && (r.Ok? <==> DrainedBy(insns, c, limit))
      && (r.Err? ==> r.error == limit)
      && (r.Ok? ==> StopsAt(insns, c, |r.value.frames|, limit) && Records(insns, c, r.value.frames)
                    && r.value.committed == |insns| && r.value.cycles == Max(|r.value.frames|, 1))
      && ((insns == [] || Live(insns, c)) && maxCycles >= |insns| * PerInsn(c) ==> r.Ok?)
      && (insns != [] && !Live(insns, c) ==> r.Err?)
  {
    hide Step, Drained;
    var cfg := MakeCfg(values);
    ghost var limit: nat := Max(0, maxCycles);
    var model := new M.Model(insns, cfg);
    var frames: seq<Frame> := [];
    RunCycle(insns, cfg, 0);
    while model.cycle < maxCycles
      invariant |frames| <= limit
      invariant model.insns == insns && model.cfg == cfg
      invariant model.Snapshot() == Run(insns, cfg, START, |frames|) && model.cycle == |frames|
      invariant Records(insns, cfg, frames)
      invariant forall j | 0 < j <= |frames| :: !DrainedBy(insns, cfg, j)
      decreases maxCycles - model.cycle
    {
      model.Step();
      RunCycle(insns, cfg, |frames| + 1);
      frames := frames + [FrameOf(insns, model.Snapshot())];
      if Drained(insns, model.Snapshot()) { break; }
    }
    assert StopsAt(insns, cfg, |frames|, limit);
    StopDecides(insns, cfg, |frames|, limit);
    RetiredIsDrained(insns, cfg, |frames|);
    DrainedByCases(insns, cfg, limit);
    if !AllRetired(insns, model.Snapshot()) { return Err(model.cycle); }
    r := Ok(Trace(Max(model.cycle, 1), |model.line.committed|, frames));
  }
}
