/** The pipeline model as the object that a simulation steps: every method is proved to do to
    its fields exactly what the corresponding phase does to the abstract state. */
module PipelineMachine {
  import P = Pipeline
  import L = PipelineLoops

  class Model {
    const insns: P.Program
    const cfg: P.Cfg
    var cycle: int
    var line: P.Line
    var iqs: P.Queues
    var tab: P.Tables
    var reclaim: map<P.Kind, nat>
    var readyAt: map<string, int>

    function Snapshot(): P.State
      reads this
    {
      P.State(cycle, line, iqs, tab, reclaim, readyAt)
    }

    constructor (insns: P.Program, cfg: P.Cfg)
      ensures this.insns == insns && this.cfg == cfg && Snapshot() == P.START
    {
      this.insns, this.cfg := insns, cfg;
      cycle := 0;
      line := P.Line(0, [], [], [], [], [], [], [], [], {});
      iqs := P.Queues([], [], [], [], []);
      tab := P.Tables(map[], map[], {}, {}, map[]);
      reclaim, readyAt := map[], map[];
    }

    method Commit()
      modifies this`line
      ensures Snapshot() == P.Commit(insns, cfg, old(Snapshot()))
    {
      var rob, committed, retired := L.Retire(insns, cfg, line.rob, tab.done, line.committed, line.retired);
      line := line.(rob := rob, committed := committed, retired := retired);
    }

    method Complete()
      modifies this`tab, this`readyAt
      ensures Snapshot() == P.Complete(insns, old(Snapshot()))
    {
      var completing, done, ready := L.Finish(insns, cycle, tab.completing, tab.done, readyAt);
      tab := tab.(completing := completing, done := done);
      readyAt := ready;
    }

    method Execute()
      modifies this`tab
      ensures Snapshot() == P.Execute(old(Snapshot()))
    {
      hide P.Countdown, P.Constant;
      var executing, completing := L.Advance(cycle, tab.executing, tab.completing);
      tab := tab.(executing := executing, completing := completing);
    }

    method Issue()
      modifies this`iqs, this`tab, this`reclaim
      ensures Snapshot() == P.Issue(insns, cfg, old(Snapshot()))
    {
      ghost var was := old(Snapshot());
      for j := 0 to |P.ISSUE_ORDER|
        invariant P.IssueOver(insns, cfg, Snapshot(), P.ISSUE_ORDER[j..]) == P.Issue(insns, cfg, was)
      {
        IssueQueue(P.ISSUE_ORDER[j]);
      }
    }

    method IssueQueue(k: P.Kind)
      modifies this`iqs, this`tab, this`reclaim
      ensures Snapshot() == P.IssueKind(insns, cfg, old(Snapshot()), k)
    {
      var keep, executing, issued, freed := L.Start(insns, cfg, Snapshot(), k);
      iqs := iqs.With(k, keep);
      tab := tab.(executing := executing, issued := issued);
      reclaim := freed;
    }

    method Dispatch()
      modifies this`iqs, this`tab, this`reclaim
      ensures Snapshot() == P.Dispatch(insns, cfg, old(Snapshot()))
    {
      var iqOf;
      iqs, iqOf := L.Enqueue(insns, cfg, Snapshot());
      tab := tab.(iqOf := iqOf);
      reclaim := map[];
    }

    method Allocate()
      modifies this`line, this`tab
      ensures Snapshot() == P.Allocate(cfg, old(Snapshot()))
    {
      var uoq, rob, iqOf := L.Admit(cfg, line.uoq, line.rob, tab.iqOf);
      line := line.(uoq := uoq, rob := rob);
      tab := tab.(iqOf := iqOf);
    }

    method Rename()
      modifies this`line
      ensures line == P.Rename(cfg, old(line))
    {
      var rnu, uoq := L.Move(line.rnu, line.uoq, cfg.rename, cfg.uoq);
      line := line.(rnu := rnu, uoq := uoq);
    }

    method Decode()
      modifies this`line
      ensures line == P.Decode(cfg, old(line))
    {
      var idu, rnu := L.Move(line.idu, line.rnu, cfg.decode, cfg.rnq);
      line := line.(idu := idu, rnu := rnu);
    }

    method IntoIdu()
      modifies this`line
      ensures line == P.IntoIdu(cfg, old(line))
    {
      var fqu, idu := L.Move(line.fqu, line.idu, cfg.decode, cfg.decode);
      line := line.(fqu := fqu, idu := idu);
    }

    method IntoFqu()
      modifies this`line
      ensures line == P.IntoFqu(cfg, old(line))
    {
      var ifu, fqu := L.Move(line.ifu, line.fqu, cfg.decode, 2 * cfg.decode);
      line := line.(ifu := ifu, fqu := fqu);
    }

    method Fetch()
      modifies this`line
      ensures line == P.Fetch(insns, cfg, cycle, old(line))
    {
      var l1i, ifu := L.Respond(cfg, cycle, line.l1i, line.ifu);
      line := line.(l1i := l1i, ifu := ifu);
      var requested, fetchI := L.Request(|insns|, cfg, cycle, line.l1i, line.fetchI);
      line := line.(l1i := requested, fetchI := fetchI);
    }

    method BackEnd()
      modifies this`line, this`iqs, this`tab, this`reclaim, this`readyAt
      ensures Snapshot() == P.Allocate(cfg, P.BackEnd(insns, cfg, old(Snapshot())))
    {
      Commit();
      Complete();
      Execute();
      Issue();
      Dispatch();
      Allocate();
    }

    method FrontEnd()
      modifies this`line
      ensures line == P.FrontEnd(insns, cfg, cycle, old(line))
    {
      Rename();
      Decode();
      IntoIdu();
      IntoFqu();
      Fetch();
    }

    method Step()
      modifies this
      ensures Snapshot() == P.Step(insns, cfg, old(Snapshot()))
    {
      hide P.BackEnd, P.Allocate, P.FrontEnd;
      ghost var s := Snapshot();
      BackEnd();
      ghost var t := Snapshot();
      FrontEnd();
      cycle := cycle + 1;
      StepParts(insns, cfg, s, t, Snapshot());
    }
  }

  lemma StepParts(p: P.Program, c: P.Cfg, s: P.State, t: P.State, u: P.State)
    requires t == P.Allocate(c, P.BackEnd(p, c, s))
    requires u == t.(line := P.FrontEnd(p, c, t.cycle, t.line), cycle := t.cycle + 1)
    ensures u == P.Step(p, c, s)
  {}
}
