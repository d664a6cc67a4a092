/** How much every queue moves in one step: as much as it has, its width and the room allow. */
module PipelineRates {
  import opened Pipeline
  import opened PipelineInvariant
  import opened PipelineBackEnd
  import opened PipelineRuns
  import opened PipelineTheorems

  /** No more than there is, than the width and than the room, and no less than one of them. */
  predicate MovesMost(k: int, available: int, width: int, room: int) {
    && 0 <= k <= available
    && (k > 0 ==> k <= width && k <= room)
    && (k < available ==> k >= width || k >= room)
  }

  /** That leaves only one number. */
  lemma OneMost(k: int, m: int, available: int, width: int, room: int)
    requires MovesMost(k, available, width, room) && MovesMost(m, available, width, room)
    ensures k == m
  {}

  lemma FitMovesMost(available: nat, width: int, room: int)
    ensures MovesMost(Fit(available, width, room), available, width, room)
    ensures Fit(available, width, room) <= available
  {}

  // ---------- The in-order queues ----------

  /** How far the boundaries between the front-end queues move in one step, from the front end's line
      before it to the line after it. */
  ghost predicate FrontRates(p: Program, c: Cfg, cycle: int, l: Line, m: Line) {
    && MovesMost(B2(m) - B2(l), |l.rnu|, c.rename, c.uoq - |l.uoq|)
    && MovesMost(B3(m) - B3(l), |l.idu|, c.decode, c.rnq - (B3(l) - B2(m)))
    && MovesMost(B4(m) - B4(l), |l.fqu|, c.decode, c.decode - (B4(l) - B3(m)))
    && MovesMost(B5(m) - B5(l), |l.ifu|, c.decode, 2 * c.decode - (B5(l) - B4(m)))
    && Responds(l.l1i, cycle, B6(m) - B6(l), c.decode - (B6(l) - B5(m)))
    && MovesMost(B7(m) - B7(l), Max(0, |p| - l.fetchI), c.decode - (B7(l) - B6(m)), c.decode - (B7(l) - B6(m)))
  }

  /** The responses taken are the leading ones that have arrived, as many as there is room for. */
  predicate Responds(l1i: seq<(nat, int)>, cycle: int, k: int, room: int) {
    && 0 <= k <= |l1i| && (forall j | 0 <= j < k :: l1i[j].1 <= cycle) && (k > 0 ==> k <= room)
    && (k < |l1i| ==> l1i[k].1 > cycle || k >= room)
  }

  lemma RenameRates(c: Cfg, l: Line)
    ensures var m := Rename(c, l);
      && MovesMost(B2(m) - B2(l), |l.rnu|, c.rename, c.uoq - |l.uoq|) && |m.rnu| == B3(l) - B2(m)
      && B1(m) == B1(l) && B3(m) == B3(l) && B4(m) == B4(l) && B5(m) == B5(l)
      && m.idu == l.idu && m.fqu == l.fqu && m.ifu == l.ifu && m.l1i == l.l1i && m.fetchI == l.fetchI
  {
    hide Fit, MovesMost;
    FitMovesMost(|l.rnu|, c.rename, c.uoq - |l.uoq|);
  }

  lemma DecodeRates(c: Cfg, l: Line)
    ensures var m := Decode(c, l);
      && MovesMost(B3(m) - B3(l), |l.idu|, c.decode, c.rnq - |l.rnu|) && |m.idu| == B4(l) - B3(m)
      && B1(m) == B1(l) && B2(m) == B2(l) && B4(m) == B4(l) && B5(m) == B5(l)
      && m.fqu == l.fqu && m.ifu == l.ifu && m.l1i == l.l1i && m.fetchI == l.fetchI
  {
    hide Fit, MovesMost;
    FitMovesMost(|l.idu|, c.decode, c.rnq - |l.rnu|);
  }

  lemma IntoIduRates(c: Cfg, l: Line)
    ensures var m := IntoIdu(c, l);
      && MovesMost(B4(m) - B4(l), |l.fqu|, c.decode, c.decode - |l.idu|)
      && B1(m) == B1(l) && B2(m) == B2(l) && B3(m) == B3(l) && B5(m) == B5(l)
      && m.ifu == l.ifu && m.l1i == l.l1i && m.fetchI == l.fetchI
  {
    hide Fit, MovesMost;
    FitMovesMost(|l.fqu|, c.decode, c.decode - |l.idu|);
  }

  lemma DecodeHalfRates(c: Cfg, l: Line)
    ensures var m := DecodeHalf(c, l);
      && MovesMost(B2(m) - B2(l), |l.rnu|, c.rename, c.uoq - |l.uoq|)
      && MovesMost(B3(m) - B3(l), |l.idu|, c.decode, c.rnq - (B3(l) - B2(m)))
      && MovesMost(B4(m) - B4(l), |l.fqu|, c.decode, c.decode - (B4(l) - B3(m)))
      && B1(m) == B1(l) && B5(m) == B5(l) && m.ifu == l.ifu && m.l1i == l.l1i && m.fetchI == l.fetchI
  {
    hide Rename, Decode, IntoIdu, MovesMost;
    RenameRates(c, l);
    DecodeRates(c, Rename(c, l));
    IntoIduRates(c, Decode(c, Rename(c, l)));
  }

  lemma RespondRates(c: Cfg, cycle: int, l: Line)
    ensures var m := Respond(c, cycle, l);
      && Responds(l.l1i, cycle, B6(m) - B6(l), c.decode - |l.ifu|)
      && B5(m) == B5(l) && B7(m) == B7(l) && m.fetchI == l.fetchI
      && m.l1i == l.l1i[B6(m) - B6(l)..]
  {
    hide Fit;
    FitMovesMost(Responded(l.l1i, cycle), c.decode - |l.ifu|, c.decode - |l.ifu|);
  }

  lemma RequestRates(p: Program, c: Cfg, cycle: int, l: Line)
    ensures var m := Request(p, c, cycle, l); var room := c.decode - |l.l1i|;
      && MovesMost(B7(m) - B7(l), Max(0, |p| - l.fetchI), room, room)
      && B6(m) == B6(l) && B5(m) == B5(l) && B4(m) == B4(l)
      && l.l1i <= m.l1i && forall j | |l.l1i| <= j < |m.l1i| :: m.l1i[j].1 == cycle + 1 + c.fetchStage
  {
    hide Fit, MovesMost;
    FitMovesMost(Max(0, |p| - l.fetchI), c.decode - |l.l1i|, c.decode - |l.l1i|);
  }

  lemma IntoFquRates(c: Cfg, l: Line)
    ensures var m := IntoFqu(c, l);
      && MovesMost(B5(m) - B5(l), |l.ifu|, c.decode, 2 * c.decode - |l.fqu|)
      && B4(m) == B4(l) && B3(m) == B3(l) && B2(m) == B2(l) && B1(m) == B1(l) && B6(m) == B6(l)
      && m.l1i == l.l1i && m.fetchI == l.fetchI
  {
    hide Fit, MovesMost;
    FitMovesMost(|l.ifu|, c.decode, 2 * c.decode - |l.fqu|);
  }

  lemma FrontEndRates(p: Program, c: Cfg, cycle: int, l: Line)
    ensures FrontRates(p, c, cycle, l, FrontEnd(p, c, cycle, l))
    ensures RequestsIn(c, cycle, l, FrontEnd(p, c, cycle, l))
  {
    hide MovesMost, DecodeHalf, IntoFqu, Respond, Request;
    var l1 := DecodeHalf(c, l);
    var l2 := IntoFqu(c, l1);
    var l3 := Respond(c, cycle, l2);
    DecodeHalfRates(c, l);
    IntoFquRates(c, l1);
    RespondRates(c, cycle, l2);
    RequestRates(p, c, cycle, l3);
    RequestKeepsFront(p, c, cycle, l3);
    RespondKeepsFront(c, cycle, l2);
  }

  lemma RequestKeepsFront(p: Program, c: Cfg, cycle: int, l: Line)
    ensures var m := Request(p, c, cycle, l); B1(m) == B1(l) && B2(m) == B2(l) && B3(m) == B3(l)
  {}

  lemma RespondKeepsFront(c: Cfg, cycle: int, l: Line)
    ensures var m := Respond(c, cycle, l); B1(m) == B1(l) && B2(m) == B2(l) && B3(m) == B3(l) && B4(m) == B4(l)
  {}

  /** The responses still awaited stay, with their times, and each new request is answered one cycle
      and the stages of the response later. */
  predicate RequestsIn(c: Cfg, cycle: int, l: Line, m: Line) {
    var k := B6(m) - B6(l);
    && 0 <= k <= |l.l1i| && l.l1i[k..] <= m.l1i
    && forall j | |l.l1i| - k <= j < |m.l1i| :: m.l1i[j].1 == cycle + 1 + c.fetchStage
  }

  /** How far every boundary of the in-order queues moves in one step. */
  ghost predicate LineRates(p: Program, c: Cfg, s: State, t: State) {
    var l, m := s.line, t.line;
    && MovesMost(B1(m) - B1(l), |l.uoq|, c.dispatch, c.rob - (B1(l) - B0(m)))
    && MovesMost(B2(m) - B2(l), |l.rnu|, c.rename, c.uoq - (B2(l) - B1(m)))
    && MovesMost(B3(m) - B3(l), |l.idu|, c.decode, c.rnq - (B3(l) - B2(m)))
    && MovesMost(B4(m) - B4(l), |l.fqu|, c.decode, c.decode - (B4(l) - B3(m)))
    && MovesMost(B5(m) - B5(l), |l.ifu|, c.decode, 2 * c.decode - (B5(l) - B4(m)))
    && Responds(l.l1i, s.cycle, B6(m) - B6(l), c.decode - (B6(l) - B5(m)))
    && MovesMost(B7(m) - B7(l), |p| - B7(l), c.decode - (B7(l) - B6(m)), c.decode - (B7(l) - B6(m)))
    && RequestsIn(c, s.cycle, l, m)
  }

  lemma AllocateRates(c: Cfg, s: State)
    ensures var l, m := s.line, Allocate(c, s).line;
      && MovesMost(B1(m) - B1(l), |l.uoq|, c.dispatch, c.rob - |l.rob|) && |m.uoq| == B2(l) - B1(m)
      && B0(m) == B0(l) && B2(m) == B2(l) && B3(m) == B3(l) && B4(m) == B4(l) && B5(m) == B5(l) && B6(m) == B6(l)
      && B7(m) == B7(l) && m.rnu == l.rnu && m.idu == l.idu && m.fqu == l.fqu && m.ifu == l.ifu && m.l1i == l.l1i
      && m.fetchI == l.fetchI && Allocate(c, s).cycle == s.cycle
  {
    hide Fit, MovesMost;
    FitMovesMost(|s.line.uoq|, c.dispatch, c.rob - |s.line.rob|);
  }

  lemma CommitRates(p: Program, c: Cfg, s: State)
    ensures var l, m := s.line, Commit(p, c, s).line;
      && B1(m) == B1(l) && B2(m) == B2(l) && B3(m) == B3(l) && B4(m) == B4(l) && B5(m) == B5(l) && B6(m) == B6(l)
      && B7(m) == B7(l) && m.uoq == l.uoq && m.rnu == l.rnu && m.idu == l.idu && m.fqu == l.fqu && m.ifu == l.ifu
      && m.l1i == l.l1i && m.fetchI == l.fetchI && |m.rob| == B1(l) - B0(m)
  {}

  lemma StepMovesMost(p: Program, c: Cfg, s: State)
    requires Safe(p, c, s)
    ensures LineRates(p, c, s, Step(p, c, s))
  {
    hide MovesMost, Responds, RequestsIn, Allocate, BackEnd, FrontEnd, Timely, Inside, RobStep;
    var t := BackEnd(p, c, s);
    var u := Allocate(c, t);
    StepParts(p, c, s);
    CommitRates(p, c, s);
    AllocateRates(c, t);
    FrontEndRates(p, c, u.cycle, u.line);
    FrontEndKeeps(p, c, u.cycle, u.line);
    hide Ordered;
    FetchedOf(p, s.line);
    SameRequests(c, s.cycle, s.line, u.line, Step(p, c, s).line);
  }

  lemma FetchedOf(p: Program, l: Line)
    requires Ordered(p, l)
    ensures B7(l) == l.fetchI <= |p|
  {}

  lemma SameRequests(c: Cfg, cycle: int, l: Line, l': Line, m: Line)
    requires l.l1i == l'.l1i && B6(l) == B6(l') && RequestsIn(c, cycle, l', m)
    ensures RequestsIn(c, cycle, l, m)
  {}

  /** In every step of every run each boundary of the in-order queues moves as far as what there is, the
      width and the room allow: nothing waits that could go on. */
  lemma EveryStepMovesMost(p: Program, c: Cfg, n: nat)
    ensures LineRates(p, c, Run(p, c, START, n), Run(p, c, START, n + 1))
  {
    hide Step, Safe, LineRates;
    RunSafe(p, c, n);
    StepMovesMost(p, c, Run(p, c, START, n));
  }
}
