/** What the pipeline model promises about every run. */
module PipelineTheorems {
  import opened Arith
  import opened Pipeline
  import opened PipelineInvariant
  import opened PipelineBackEnd
  import opened PipelineRuns
  import opened PipelineProgress

  // ---------- In-order, exactly-once retirement ----------

  /** Everything fetched so far, oldest first. */
  function Fetched(l: Line): seq<nat> {
    l.committed + l.rob + l.uoq + l.rnu + l.idu + l.fqu + l.ifu + Indices(l.l1i)
  }

  lemma Join(q: seq<nat>, r: seq<nat>)
    requires Consecutive(q, 0) && Consecutive(r, |q|)
    ensures Consecutive(q + r, 0) && |q + r| == |q| + |r|
  {}

  lemma FetchedInOrder(p: Program, l: Line)
    requires Ordered(p, l)
    ensures Fetched(l) == seq(l.fetchI, j => j)
  {
    var a := l.committed + l.rob; var b := a + l.uoq; var d := b + l.rnu; var e := d + l.idu; var f := e + l.fqu;
    Join(l.committed, l.rob);
    Join(a, l.uoq);
    Join(b, l.rnu);
    Join(d, l.idu);
    Join(e, l.fqu);
    Join(f, l.ifu);
    Join(f + l.ifu, Indices(l.l1i));
  }

  function One(b: bool): nat { if b then 1 else 0 }

  /** In how many places a ROB entry is: undispatched, one of the five issue queues,
      executing, completing or done. */
  function Places(s: State, i: nat): nat {
    One(Undispatched(s.tab, i))
    + One(i in s.iqs.alq) + One(i in s.iqs.brq) + One(i in s.iqs.mdq) + One(i in s.iqs.ioq) + One(i in s.iqs.fpq)
    + One(i in s.tab.executing) + One(i in s.tab.completing) + One(i in s.tab.done)
  }

  lemma OnePlace(p: Program, b0: nat, b1: nat, s: State, i: nat)
    requires Inside(p, b0, b1, s.iqs, s.tab)
    ensures Places(s, i) == 1
  {
    assert QueueOf(p, Alq, s.iqs.Get(Alq), s.tab.iqOf, s.tab.issued);
    assert QueueOf(p, Brq, s.iqs.Get(Brq), s.tab.iqOf, s.tab.issued);
    assert QueueOf(p, Mdq, s.iqs.Get(Mdq), s.tab.iqOf, s.tab.issued);
    assert QueueOf(p, Ioq, s.iqs.Get(Ioq), s.tab.iqOf, s.tab.issued);
    assert QueueOf(p, Fpq, s.iqs.Get(Fpq), s.tab.iqOf, s.tab.issued);
  }

  /** After any number of steps the queues, read from the retired list back to the L1I, hold
      every fetched index exactly once and in program order, and each ROB entry is in exactly
      one place. */
  lemma InOrderExactlyOnce(p: Program, c: Cfg, n: nat)
    ensures var s := Run(p, c, START, n);
      && Fetched(s.line) == seq(s.line.fetchI, j => j)
      && s.line.fetchI <= |p|
      && (forall i: nat :: i in s.line.retired <==> i < |s.line.committed|)
      && (forall i | i in s.line.rob :: Places(s, i) == 1)
  {
    var s := Run(p, c, START, n);
    RunSafe(p, c, n);
    FetchedInOrder(p, s.line);
    forall i | i in s.line.rob ensures Places(s, i) == 1 {
      OnePlace(p, B0(s.line), B1(s.line), s, i);
    }
  }

  /** Within a kind, nothing is dispatched before an older instruction is. */
  lemma DispatchInProgramOrder(p: Program, c: Cfg, n: nat, i: nat, j: nat)
    requires i < j && KindOf(p, i) == KindOf(p, j)
    ensures DispatchedBy(p, c, n, j) ==> DispatchedBy(p, c, n, i)
  {
    hide Step, Safe, Stage;
    RunSafe(p, c, n);
    if DispatchedBy(p, c, n, j) { InStageOrder(p, c, Run(p, c, START, n), i, j); }
  }

  /** Dispatched, or further, after n steps. */
  ghost predicate DispatchedBy(p: Program, c: Cfg, n: nat, i: nat) {
    var s := Run(p, c, START, n); Stage(s.line, s.tab, i) >= 8
  }

  lemma InStageOrder(p: Program, c: Cfg, s: State, i: nat, j: nat)
    requires Safe(p, c, s) && i < j && KindOf(p, i) == KindOf(p, j)
    requires Stage(s.line, s.tab, j) >= 8
    ensures Stage(s.line, s.tab, i) >= 8
  {
    assert j in s.tab.done ==> j in s.tab.issued;
    assert j in s.tab.iqOf;
    assert i in s.tab.iqOf;
  }

  /** Sources are always ready: no value is ever scheduled for the future. */
  lemma SourcesAlwaysReady(p: Program, c: Cfg, n: nat, i: nat)
    ensures SrcsReady(p, Run(p, c, START, n), i)
  {
    RunSafe(p, c, n);
  }

  // ---------- Exact timing ----------

  /** Executing with a given number of cycles left. */
  predicate Executing(s: State, i: nat, left: int) { i in s.tab.executing && s.tab.executing[i].1 == left }

  lemma ExecutingStep(p: Program, c: Cfg, s: State, i: nat, left: int)
    requires Safe(p, c, s)
    ensures Executing(s, i, left) && left > 1 ==> Executing(Step(p, c, s), i, left - 1)
    ensures Executing(s, i, 1) ==> i in Step(p, c, s).tab.completing
    ensures i in s.tab.completing ==> i in Step(p, c, s).tab.done
  {
    StepKeepsStructure(p, c, s);
  }

  /** Due to finish executing in cycle `finish`, as seen after n steps. */
  ghost predicate OnTime(p: Program, c: Cfg, i: nat, finish: int, n: nat) {
    n < finish ==> Executing(Run(p, c, START, n), i, finish - n)
  }

  lemma OnTimeNext(p: Program, c: Cfg, i: nat, finish: int, n: nat)
    ensures OnTime(p, c, i, finish, n) ==> OnTime(p, c, i, finish, n + 1)
  {
    RunSafe(p, c, n);
    ExecutingStep(p, c, Run(p, c, START, n), i, finish - n);
  }

  lemma StartsWithFullDelay(p: Program, c: Cfg, m: nat, i: nat)
    ensures IssuesIn(p, c, i, m) ==> Run(p, c, START, m + 1).tab.executing[i] == Timing(p, c, i)
    ensures 1 <= Timing(p, c, i).1
  {
    hide Step, Timing;
    RunSafe(p, c, m);
    StepKeepsStructure(p, c, Run(p, c, START, m));
    LatencyBounded(p, c, i);
  }

  ghost predicate CompletingAt(p: Program, c: Cfg, i: nat, n: nat) { i in Run(p, c, START, n).tab.completing }

  ghost predicate DoneAt(p: Program, c: Cfg, i: nat, n: nat) { i in Run(p, c, START, n).tab.done }

  lemma LastExecuting(p: Program, c: Cfg, i: nat, k: nat)
    ensures OnTime(p, c, i, k + 1, k) ==> CompletingAt(p, c, i, k + 1)
  {
    RunSafe(p, c, k);
    ExecutingStep(p, c, Run(p, c, START, k), i, 1);
  }

  lemma LastCompleting(p: Program, c: Cfg, i: nat, k: nat)
    ensures CompletingAt(p, c, i, k + 1) ==> DoneAt(p, c, i, k + 2)
  {
    RunSafe(p, c, k + 1);
    ExecutingStep(p, c, Run(p, c, START, k + 1), i, 1);
  }

  /** Issuing in cycle m: not executing before, executing with the full delay after. */
  ghost predicate IssuesIn(p: Program, c: Cfg, i: nat, m: nat) {
    i !in Run(p, c, START, m).tab.executing && i in Run(p, c, START, m + 1).tab.executing
  }

  lemma IssuesOnTime(p: Program, c: Cfg, i: nat, m: nat, last: int)
    requires last == m + Timing(p, c, i).1
    ensures IssuesIn(p, c, i, m) ==> OnTime(p, c, i, last + 1, m + 1)
  {
    StartsWithFullDelay(p, c, m, i);
  }

  lemma OnTimeRun(p: Program, c: Cfg, i: nat, finish: int, m: nat, n: nat)
    requires m <= n
    ensures OnTime(p, c, i, finish, m) ==> OnTime(p, c, i, finish, n)
  {
    hide OnTime;
    var onTime := (k: nat) => OnTime(p, c, i, finish, k);
    forall k: nat ensures Carries(onTime, k) { OnTimeNext(p, c, i, finish, k); }
    if onTime(m) { Always(onTime, m, n); }
  }

  lemma CompletesOnTime(p: Program, c: Cfg, i: nat, m: nat, last: nat)
    requires m <= last
    ensures OnTime(p, c, i, last + 1, m) ==> CompletingAt(p, c, i, last + 1)
  {
    hide OnTime, CompletingAt;
    OnTimeRun(p, c, i, last + 1, m, last);
    LastExecuting(p, c, i, last);
  }

  /** An instruction that issues in cycle m with delay d counts down from d after that cycle, is
      completing after cycle m + d and done after cycle m + d + 1.  (Run n is the state after the
      steps of cycles 0 to n - 1.) */
  lemma ExactTiming(p: Program, c: Cfg, i: nat, m: nat, n: nat, last: nat)
    requires m < n <= last == m + Timing(p, c, i).1
    ensures IssuesIn(p, c, i, m) ==>
              OnTime(p, c, i, last + 1, n) && CompletingAt(p, c, i, last + 1) && DoneAt(p, c, i, last + 2)
  {
    hide IssuesIn, OnTime, CompletingAt, DoneAt, Timing;
    IssuesOnTime(p, c, i, m, last);
    OnTimeRun(p, c, i, last + 1, m + 1, n);
    CompletesOnTime(p, c, i, m + 1, last);
    LastCompleting(p, c, i, last);
  }

  // ---------- Retirement ----------

  /** What one step retires. */
  ghost function Retiring(p: Program, c: Cfg, s: State): seq<nat>
    requires Safe(p, c, s)
  {
    StepTab(p, c, s);
    Step(p, c, s).line.committed[|s.line.committed|..]
  }

  lemma RetiringIsCommit(p: Program, c: Cfg, s: State)
    requires Safe(p, c, s)
    ensures Step(p, c, s).line.committed == Commit(p, c, s).line.committed
    ensures Retiring(p, c, s) == s.line.rob[..RetireCount(p, c, s.line.rob, s.tab.done, 0)]
  {
    StepTab(p, c, s);
    StepParts(p, c, s);
    CommittedKept(p, c, s, BackEnd(p, c, s), Allocate(c, BackEnd(p, c, s)));
  }

  lemma CommittedKept(p: Program, c: Cfg, s: State, t: State, u: State)
    requires t == BackEnd(p, c, s) && u == Allocate(c, t) && Ordered(p, u.line) && t.line == Commit(p, c, s).line
    ensures Step(p, c, s).line.committed == t.line.committed
  {
    FrontEndKeeps(p, c, u.cycle, u.line);
  }

  /** A maximal run of finished instructions from the head of the ROB, within the commit width,
      in which a store is alone and a control transfer last. */
  ghost predicate RetiresBurst(p: Program, c: Cfg, s: State)
    requires Safe(p, c, s)
  {
    var gone := Retiring(p, c, s);
    && gone <= s.line.rob
    && Burst(p, c, s.line.rob, s.tab.done, |gone|)
    && (forall i | i in gone :: IsStore(p, i) ==> gone == [i])
  }

  lemma StepRetiresBurst(p: Program, c: Cfg, s: State)
    requires Safe(p, c, s)
    ensures RetiresBurst(p, c, s)
  {
    RetiringIsCommit(p, c, s);
    RetireCountIsBurst(p, c, s.line.rob, s.tab.done, 0);
    StoreAlone(p, c, s.line.rob, s.tab.done, RetireCount(p, c, s.line.rob, s.tab.done, 0));
  }

  lemma StoreAlone(p: Program, c: Cfg, rob: seq<nat>, done: set<nat>, k: nat)
    requires k <= |rob| && Burst(p, c, rob, done, k)
    ensures forall i | i in rob[..k] :: IsStore(p, i) ==> rob[..k] == [i]
  {}

  lemma RetiresOneBurst(p: Program, c: Cfg, n: nat)
    ensures Safe(p, c, Run(p, c, START, n)) && RetiresBurst(p, c, Run(p, c, START, n))
  {
    RunSafe(p, c, n);
    StepRetiresBurst(p, c, Run(p, c, START, n));
  }

  // ---------- Capacity ----------

  /** The front-end queues, but for the ROB, are within their capacities; one below zero counts as zero. */
  predicate FrontCapped(c: Cfg, l: Line) {
    && |l.l1i| <= Max(0, c.decode) && |l.ifu| <= Max(0, c.decode) && |l.fqu| <= Max(0, 2 * c.decode)
    && |l.idu| <= Max(0, c.decode) && |l.rnu| <= Max(0, c.rnq) && |l.uoq| <= Max(0, c.uoq)
  }

  /** Every queue is within its capacity; a capacity below zero counts as zero. */
  ghost predicate Capped(c: Cfg, s: State) {
    && FrontCapped(c, s.line)
    && |s.line.rob| <= Max(0, c.rob)
    && (forall k: Kind :: |s.iqs.Get(k)| <= Max(0, IqCap(c, k)))
  }

  lemma DecodeHalfCapped(c: Cfg, l: Line)
    requires FrontCapped(c, l)
    ensures FrontCapped(c, Rename(c, l)) && FrontCapped(c, Decode(c, l)) && FrontCapped(c, IntoIdu(c, l))
  {}

  lemma FetchHalfCapped(p: Program, c: Cfg, cycle: int, l: Line)
    requires FrontCapped(c, l)
    ensures FrontCapped(c, IntoFqu(c, l)) && FrontCapped(c, Respond(c, cycle, l)) && FrontCapped(c, Request(p, c, cycle, l))
  {}

  lemma LineCapped(p: Program, c: Cfg, cycle: int, l: Line)
    requires FrontCapped(c, l)
    ensures FrontCapped(c, FrontEnd(p, c, cycle, l)) && FrontEnd(p, c, cycle, l).rob == l.rob
  {
    hide FrontCapped, Fit, Responded, Indices;
    DecodeHalfCapped(c, l);
    DecodeHalfCapped(c, Rename(c, l));
    DecodeHalfCapped(c, Decode(c, Rename(c, l)));
    var l1 := DecodeHalf(c, l); var l2 := IntoFqu(c, l1); var l3 := Respond(c, cycle, l2);
    FetchHalfCapped(p, c, cycle, l1);
    FetchHalfCapped(p, c, cycle, l2);
    FetchHalfCapped(p, c, cycle, l3);
  }

  /** Dispatch counts the slots freed in the same step as still taken. */
  lemma {:induction false} DispatchCapped(p: Program, c: Cfg, s: State, pending: seq<nat>, width: int)
    ensures var t := DispatchOver(p, c, s, pending, width);
      && t.reclaim == s.reclaim
      && (forall k: Kind :: |t.iqs.Get(k)| + t.Reclaimed(k) <= Max(|s.iqs.Get(k)| + s.Reclaimed(k), IqCap(c, k)))
    decreases |pending|
  {
    if pending != [] && width > 0 {
      if Full(c, s, KindOf(p, pending[0])) {
        DispatchCapped(p, c, s, pending[1..], width);
      } else {
        DispatchCapped(p, c, DispatchOne(p, s, pending[0]), pending[1..], width - 1);
      }
    }
  }

  lemma BackEndCapped(p: Program, c: Cfg, s: State)
    requires Structural(p, s) && Timely(p, c, s)
    ensures var t := Dispatch(p, c, Issue(p, c, Execute(Complete(p, s))));
      forall k: Kind :: |t.iqs.Get(k)| <= Max(|s.iqs.Get(k)|, IqCap(c, k))
  {
    hide IssueOver, DispatchOver, Execute, Complete, Inside, Pending;
    var b0, b1 := B0(s.line), B1(s.line);
    var s1 := Execute(Complete(p, s)); var s2 := Issue(p, c, s1);
    AdvanceUnits(p, b0, b1, s);
    IssueOverKeeps(p, c, b0, b1, s1, ISSUE_ORDER);
    DispatchCapped(p, c, s2, Pending(s2.tab, s2.line.rob), c.dispatch);
  }

  lemma CommitCapped(p: Program, c: Cfg, s: State)
    requires Capped(c, s)
    ensures Capped(c, Commit(p, c, s))
  {}

  lemma AllocateCapped(c: Cfg, t: State)
    requires Capped(c, t)
    ensures Capped(c, Allocate(c, t))
  {}

  lemma FrontEndCapped(p: Program, c: Cfg, s: State)
    requires Capped(c, s)
    ensures Capped(c, s.(line := FrontEnd(p, c, s.cycle, s.line), cycle := s.cycle + 1))
  {
    LineCapped(p, c, s.cycle, s.line);
  }

  lemma CappedStep(p: Program, c: Cfg, s: State)
    requires Safe(p, c, s) && Capped(c, s)
    ensures Capped(c, Step(p, c, s))
  {
    var t := BackEnd(p, c, s);
    StepParts(p, c, s);
    CommitCapped(p, c, s);
    BackEndCapped(p, c, Commit(p, c, s));
    SameLineCapped(c, Commit(p, c, s), t);
    AllocateCapped(c, t);
    FrontEndCapped(p, c, Allocate(c, t));
  }

  lemma SameLineCapped(c: Cfg, s: State, t: State)
    requires Capped(c, s) && t.line == s.line
    requires forall k: Kind :: |t.iqs.Get(k)| <= Max(|s.iqs.Get(k)|, IqCap(c, k))
    ensures Capped(c, t)
  {}

  ghost predicate CappedAt(p: Program, c: Cfg, n: nat) { Capped(c, Run(p, c, START, n)) }

  lemma CappedNext(p: Program, c: Cfg, n: nat)
    ensures CappedAt(p, c, n) ==> CappedAt(p, c, n + 1)
  {
    RunSafe(p, c, n);
    if CappedAt(p, c, n) { CappedStep(p, c, Run(p, c, START, n)); }
  }

  lemma CappedStart(p: Program, c: Cfg)
    ensures CappedAt(p, c, 0)
  {
    assert forall k: Kind :: START.iqs.Get(k) == [];
  }

  /** After any number of steps no queue holds more than its capacity. */
  lemma QueuesWithinCapacity(p: Program, c: Cfg, n: nat)
    ensures CappedAt(p, c, n)
  {
    CappedStart(p, c);
    var capped := (k: nat) => CappedAt(p, c, k);
    forall k: nat ensures Carries(capped, k) { CappedNext(p, c, k); }
    Always(capped, 0, n);
  }

  // ---------- Freed slots ----------

  lemma {:induction false} PickLengths(p: Program, s: State, q: seq<nat>, ports: int)
    ensures |IssuePick(p, s, q, ports).0| + |IssuePick(p, s, q, ports).1| == |q|
  {
    if q != [] { PickLengths(p, s, q[1..], if ports > 0 && SrcsReady(p, s, q[0]) then ports - 1 else ports); }
  }

  /** Slots in use and slots freed in the same step, together, as issuing goes from queue to queue. */
  lemma {:induction false} IssueReclaims(p: Program, c: Cfg, s: State, kinds: seq<Kind>)
    requires c.iqReclaim
    ensures var t := IssueOver(p, c, s, kinds);
      forall k: Kind :: |t.iqs.Get(k)| + t.Reclaimed(k) == |s.iqs.Get(k)| + s.Reclaimed(k)
    decreases |kinds|
  {
    if kinds != [] {
      hide IssuePick, Started, Ports;
      PickLengths(p, s, s.iqs.Get(kinds[0]), Ports(c, kinds[0]));
      IssueReclaims(p, c, IssueKind(p, c, s, kinds[0]), kinds[1..]);
    }
  }

  /** The queue of a kind after the issue phase of the next step. */
  ghost function AfterIssue(p: Program, c: Cfg, s: State, k: Kind): seq<nat> {
    Issue(p, c, Execute(Complete(p, Commit(p, c, s)))).iqs.Get(k)
  }

  /** The entries that a step issues from a queue still count against its capacity in that step:
      those it holds afterwards and those it has just let go fit in it together. */
  ghost predicate FreedStayTaken(p: Program, c: Cfg, s: State) {
    forall k: Kind ::
      |AfterIssue(p, c, s, k)| <= |s.iqs.Get(k)|
      && |Step(p, c, s).iqs.Get(k)| + (|s.iqs.Get(k)| - |AfterIssue(p, c, s, k)|) <= Max(0, IqCap(c, k))
  }

  lemma BackEndFreed(p: Program, c: Cfg, s: State, k: Kind)
    requires Structural(p, s) && Timely(p, c, s) && c.iqReclaim
    ensures var u := Issue(p, c, Execute(Complete(p, s))); var t := Dispatch(p, c, u);
      && |u.iqs.Get(k)| <= |s.iqs.Get(k)|
      && |t.iqs.Get(k)| + (|s.iqs.Get(k)| - |u.iqs.Get(k)|) <= Max(|s.iqs.Get(k)|, IqCap(c, k))
  {
    hide IssueOver, DispatchOver, Execute, Complete, Inside, Pending;
    var s1 := Execute(Complete(p, s)); var s2 := Issue(p, c, s1);
    AdvanceUnits(p, B0(s.line), B1(s.line), s);
    IssueReclaims(p, c, s1, ISSUE_ORDER);
    DispatchCapped(p, c, s2, Pending(s2.tab, s2.line.rob), c.dispatch);
  }

  lemma StepFreed(p: Program, c: Cfg, s: State)
    requires Safe(p, c, s) && Capped(c, s) && c.iqReclaim
    ensures FreedStayTaken(p, c, s)
  {
    hide Execute, Complete, Issue, Dispatch, Inside, Ordered, RobStep, FrontEnd;
    StepParts(p, c, s);
    var s0 := Commit(p, c, s);
    forall k: Kind
      ensures |AfterIssue(p, c, s, k)| <= |s.iqs.Get(k)|
      ensures |Step(p, c, s).iqs.Get(k)| + (|s.iqs.Get(k)| - |AfterIssue(p, c, s, k)|) <= Max(0, IqCap(c, k))
    {
      BackEndFreed(p, c, s0, k);
    }
  }

  /** In every run, with reclaiming on, slots freed in a step are not filled in the same step. */
  lemma FreedSlotsStayTaken(p: Program, c: Cfg, n: nat)
    requires c.iqReclaim
    ensures FreedStayTaken(p, c, Run(p, c, START, n))
  {
    hide Step, Safe, FreedStayTaken, Capped;
    RunSafe(p, c, n);
    QueuesWithinCapacity(p, c, n);
    StepFreed(p, c, Run(p, c, START, n));
  }

  // ---------- Delays, queues and capacities in numbers ----------

  /** The cycles from issue to the end of execution, by what the instruction does. */
  function DelayOf(insn: Insn, fastMul: bool): int {
    if insn.domain.Mmio? then 4
    else if insn.domain.Memory? && insn.listKernel then 8
    else if insn.domain.Memory? then 2
    else if insn.domain.Mul? then (if fastMul then 2 else 3)
    else if insn.domain.Fp? then 4
    else 1
  }

  predicate FastMul(presets: map<string, int>) { "m_fast" in presets && presets["m_fast"] != 0 }

  lemma DelayIsTiming(p: Program, presets: map<string, int>, i: nat)
    requires i < |p|
    ensures Timing(p, MakeCfg(presets), i).1 == DelayOf(p[i], FastMul(presets)) >= 1
  {}

  /** With any presets an instruction that issues in cycle m is done after that many cycles and one more. */
  lemma DoneOnTime(p: Program, presets: map<string, int>, i: nat, m: nat)
    requires i < |p| && IssuesIn(p, MakeCfg(presets), i, m)
    ensures var d, c := DelayOf(p[i], FastMul(presets)), MakeCfg(presets);
      d >= 1 && Executing(Run(p, c, START, m + 1), i, d) && CompletingAt(p, c, i, m + d + 1) && DoneAt(p, c, i, m + d + 2)
  {
    hide IssuesIn, CompletingAt, DoneAt, Executing, MakeCfg, FastMul, DelayOf, Run;
    var d := DelayOf(p[i], FastMul(presets));
    DelayIsTiming(p, presets, i);
    hide Timing;
    ExactTiming(p, MakeCfg(presets), i, m, m + 1, m + d);
  }

  /** Each issue queue holds only instructions of its own kinds, and no more than its entry of the
      configuration. */
  lemma QueuesByKind(p: Program, c: Cfg, n: nat)
    ensures var q := Run(p, c, START, n).iqs;
      && (forall i | i in q.alq && i < |p| :: p[i].domain.Integer?)
      && (forall i | i in q.brq && i < |p| :: p[i].domain.Branch?)
      && (forall i | i in q.mdq && i < |p| :: p[i].domain.Mul?)
      && (forall i | i in q.ioq && i < |p| :: p[i].domain.Memory? || p[i].domain.Mmio?)
      && (forall i | i in q.fpq && i < |p| :: p[i].domain.Fp?)
      && |q.alq| <= Max(0, c.alq) && |q.brq| <= Max(0, c.brq) && |q.mdq| <= Max(0, c.mdq)
      && |q.ioq| <= Max(0, c.ioq) && |q.fpq| <= Max(0, c.fpq)
  {
    hide Step, Run, Timely, Placed, DispatchedInOrder, Ordered;
    var s := Run(p, c, START, n);
    RunSafe(p, c, n);
    QueuesWithinCapacity(p, c, n);
    assert |s.iqs.Get(Alq)| <= Max(0, IqCap(c, Alq)) && |s.iqs.Get(Brq)| <= Max(0, IqCap(c, Brq));
    assert |s.iqs.Get(Mdq)| <= Max(0, IqCap(c, Mdq)) && |s.iqs.Get(Ioq)| <= Max(0, IqCap(c, Ioq));
    assert |s.iqs.Get(Fpq)| <= Max(0, IqCap(c, Fpq));
    assert QueueOf(p, Alq, s.iqs.Get(Alq), s.tab.iqOf, s.tab.issued) && QueueOf(p, Brq, s.iqs.Get(Brq), s.tab.iqOf, s.tab.issued);
    assert QueueOf(p, Mdq, s.iqs.Get(Mdq), s.tab.iqOf, s.tab.issued) && QueueOf(p, Ioq, s.iqs.Get(Ioq), s.tab.iqOf, s.tab.issued);
    assert QueueOf(p, Fpq, s.iqs.Get(Fpq), s.tab.iqOf, s.tab.issued);
  }

  /** A preset that is missing or zero takes its default. */
  lemma DefaultPresets(presets: map<string, int>)
    requires forall key | key in presets :: presets[key] == 0
    ensures MakeCfg(presets) == Cfg(2, 2, 2, 2, 32, 8, 8, 2, 8, 8, 4, 8, 1, 0, 3, true)
  {}
}
