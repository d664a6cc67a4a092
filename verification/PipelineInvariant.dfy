/** What every phase of the pipeline model keeps, and how far it may move an instruction. */
module PipelineInvariant {
  import opened Pipeline

  // ---------- Stages ----------

  function B0(l: Line): nat { |l.committed| }
  function B1(l: Line): nat { B0(l) + |l.rob| }
  function B2(l: Line): nat { B1(l) + |l.uoq| }
  function B3(l: Line): nat { B2(l) + |l.rnu| }
  function B4(l: Line): nat { B3(l) + |l.idu| }
  function B5(l: Line): nat { B4(l) + |l.fqu| }
  function B6(l: Line): nat { B5(l) + |l.ifu| }
  function B7(l: Line): nat { B6(l) + |l.l1i| }

  function FrontStage(l: Line, i: nat): nat {
    if i < B2(l) then 6
    else if i < B3(l) then 5
    else if i < B4(l) then 4
    else if i < B5(l) then 3
    else if i < B6(l) then 2
    else if i < B7(l) then 1
    else 0
  }

  function RobStage(tab: Tables, i: nat): nat {
    if i in tab.done then 11
    else if i in tab.completing then 10
    else if i in tab.executing then 9
    else if i in tab.iqOf then 8
    else 7
  }

  /** The stage an instruction has reached: 0 not fetched, 1 L1I, 2 IFU, 3 FQU, 4 IDU, 5 RNU,
      6 UOQ, 7 in the ROB undispatched, 8 in an issue queue, 9 executing, 10 completing,
      11 done, 12 committed. */
  function Stage(l: Line, tab: Tables, i: nat): nat {
    if i < B0(l) then 12 else if i < B1(l) then RobStage(tab, i) else FrontStage(l, i)
  }

  // ---------- The invariant ----------

  predicate Consecutive(q: seq<nat>, lo: nat) {
    forall j | 0 <= j < |q| :: q[j] == lo + j
  }

  predicate Increasing(q: seq<nat>) {
    forall a, b | 0 <= a < b < |q| :: q[a] < q[b]
  }

  /** The in-order queues hold consecutive indices, oldest nearest to retirement. */
  ghost predicate Ordered(p: Program, l: Line) {
    && Consecutive(l.committed, 0)
    && Consecutive(l.rob, B0(l))
    && Consecutive(l.uoq, B1(l))
    && Consecutive(l.rnu, B2(l))
    && Consecutive(l.idu, B3(l))
    && Consecutive(l.fqu, B4(l))
    && Consecutive(l.ifu, B5(l))
    && Consecutive(Indices(l.l1i), B6(l))
    && B7(l) == l.fetchI <= |p|
    && (forall i: nat :: i in l.retired <==> i < B0(l))
  }

  /** The tables agree with the ROB, which holds indices b0 up to b1. */
  ghost predicate Placed(p: Program, b0: nat, b1: nat, tab: Tables) {
    && b0 <= b1
    && (forall i: nat :: i < b0 ==> i in tab.done)
    && (forall i: nat :: i in tab.done ==> i < b1)
    && (forall i: nat :: i in tab.executing ==>
          b0 <= i < b1 && i !in tab.done && i !in tab.completing && 1 <= tab.executing[i].1)
    && (forall i: nat :: i in tab.completing ==> b0 <= i < b1 && i !in tab.done)
    && (forall i: nat :: i in tab.issued <==> i in tab.executing || i in tab.completing || i in tab.done)
    && (forall i: nat :: i in tab.issued ==> i in tab.iqOf)
    && (forall i: nat :: i in tab.iqOf ==> i < b1 && tab.iqOf[i] == KindOf(p, i))
  }

  /** Issue queue k lists, in program order, the waiting instructions of its kind. */
  ghost predicate QueueOf(p: Program, k: Kind, q: seq<nat>, iqOf: map<nat, Kind>, issued: set<nat>) {
    && (forall i: nat :: i in q <==> i in iqOf && i !in issued && KindOf(p, i) == k)
    && Increasing(q)
  }

  ghost predicate Queued(p: Program, iqs: Queues, iqOf: map<nat, Kind>, issued: set<nat>) {
    forall k: Kind :: QueueOf(p, k, iqs.Get(k), iqOf, issued)
  }

  /** Within a kind, instructions enter their issue queue in program order. */
  ghost predicate DispatchedInOrder(p: Program, iqOf: map<nat, Kind>) {
    forall i: nat, j: nat :: i < j && j in iqOf && KindOf(p, i) == KindOf(p, j) ==> i in iqOf
  }

  /** The invariant of the part of the state inside the ROB. */
  ghost predicate Inside(p: Program, b0: nat, b1: nat, iqs: Queues, tab: Tables) {
    && Placed(p, b0, b1, tab)
    && Queued(p, iqs, tab.iqOf, tab.issued)
    && DispatchedInOrder(p, tab.iqOf)
  }

  ghost predicate Structural(p: Program, s: State) {
    Ordered(p, s.line) && Inside(p, B0(s.line), B1(s.line), s.iqs, s.tab)
  }

  /** Every instruction either stays in its stage or goes from stage x to stage x + 1. */
  ghost predicate Moves(s: State, t: State, x: nat) {
    forall i: nat :: Stage(t.line, t.tab, i) == Stage(s.line, s.tab, i)
                     || (Stage(s.line, s.tab, i) == x && Stage(t.line, t.tab, i) == x + 1)
  }

  /** Inside the ROB, every index either keeps its stage or goes from stage x to x + 1. */
  ghost predicate Relabels(tab: Tables, tab': Tables, x: nat) {
    forall i: nat :: RobStage(tab', i) == RobStage(tab, i) || (RobStage(tab, i) == x && RobStage(tab', i) == x + 1)
  }

  // ---------- Queue facts ----------

  lemma Transfer(src: seq<nat>, dst: seq<nat>, lo: nat, k: nat)
    requires Consecutive(dst, lo) && Consecutive(src, lo + |dst|) && k <= |src|
    ensures Consecutive(dst + src[..k], lo) && |dst + src[..k]| == |dst| + k
    ensures Consecutive(src[k..], lo + |dst| + k) && |src[k..]| == |src| - k
    ensures forall i: nat :: i in src[..k] <==> lo + |dst| <= i < lo + |dst| + k
  {
    forall i: nat | lo + |dst| <= i < lo + |dst| + k ensures i in src[..k] {
      assert src[..k][i - lo - |dst|] == i;
    }
  }

  lemma Prepend(x: nat, q: seq<nat>)
    requires Increasing(q)
    ensures (forall i | i in q :: x < i) ==> Increasing([x] + q)
    ensures forall i :: i in [x] + q <==> i == x || i in q
  {
    assert forall b | 0 <= b < |q| :: q[b] in q;
    assert forall b | 1 <= b < |[x] + q| :: ([x] + q)[b] == q[b - 1];
  }

  // ---------- The front end ----------

  /** Nothing at or past the ROB differs. */
  predicate SameRob(l: Line, m: Line) {
    l.committed == m.committed && l.rob == m.rob && l.retired == m.retired
  }

  /** Only the boundary between stages x and x + 1 may move, and only upwards. */
  predicate Shifted(l: Line, m: Line, x: nat) {
    && SameRob(l, m)
    && (if x == 5 then B2(l) <= B2(m) else B2(l) == B2(m))
    && (if x == 4 then B3(l) <= B3(m) else B3(l) == B3(m))
    && (if x == 3 then B4(l) <= B4(m) else B4(l) == B4(m))
    && (if x == 2 then B5(l) <= B5(m) else B5(l) == B5(m))
    && (if x == 1 then B6(l) <= B6(m) else B6(l) == B6(m))
    && (if x == 0 then B7(l) <= B7(m) else B7(l) == B7(m))
  }

  lemma RenameKeeps(p: Program, c: Cfg, l: Line)
    requires Ordered(p, l)
    ensures Ordered(p, Rename(c, l)) && Shifted(l, Rename(c, l), 5)
    ensures c.rename >= 1 && c.uoq >= 1 && l.uoq == [] && l.rnu != [] ==> B2(l) < B2(Rename(c, l))
    ensures c.rename <= 0 || c.uoq <= 0 ==> B2(Rename(c, l)) == B2(l)
  {
    hide Consecutive;
    Transfer(l.rnu, l.uoq, B1(l), Fit(|l.rnu|, c.rename, c.uoq - |l.uoq|));
  }

  lemma DecodeKeeps(p: Program, c: Cfg, l: Line)
    requires Ordered(p, l)
    ensures Ordered(p, Decode(c, l)) && Shifted(l, Decode(c, l), 4)
    ensures c.decode >= 1 && c.rnq >= 1 && l.rnu == [] && l.idu != [] ==> B3(l) < B3(Decode(c, l))
    ensures c.decode <= 0 || c.rnq <= 0 ==> B3(Decode(c, l)) == B3(l)
  {
    hide Consecutive;
    Transfer(l.idu, l.rnu, B2(l), Fit(|l.idu|, c.decode, c.rnq - |l.rnu|));
  }

  lemma IntoIduKeeps(p: Program, c: Cfg, l: Line)
    requires Ordered(p, l)
    ensures Ordered(p, IntoIdu(c, l)) && Shifted(l, IntoIdu(c, l), 3)
    ensures c.decode >= 1 && l.idu == [] && l.fqu != [] ==> B4(l) < B4(IntoIdu(c, l))
  {
    hide Consecutive;
    Transfer(l.fqu, l.idu, B3(l), Fit(|l.fqu|, c.decode, c.decode - |l.idu|));
  }

  lemma IntoFquKeeps(p: Program, c: Cfg, l: Line)
    requires Ordered(p, l)
    ensures Ordered(p, IntoFqu(c, l)) && Shifted(l, IntoFqu(c, l), 2)
    ensures c.decode >= 1 && l.fqu == [] && l.ifu != [] ==> B5(l) < B5(IntoFqu(c, l))
  {
    hide Consecutive;
    Transfer(l.ifu, l.fqu, B4(l), Fit(|l.ifu|, c.decode, 2 * c.decode - |l.fqu|));
  }

  lemma IndicesSplit(l1i: seq<(nat, int)>, k: nat)
    requires k <= |l1i|
    ensures Indices(l1i)[..k] == Indices(l1i[..k]) && Indices(l1i)[k..] == Indices(l1i[k..])
  {}

  lemma RespondKeeps(p: Program, c: Cfg, cycle: int, l: Line)
    requires Ordered(p, l)
    ensures Ordered(p, Respond(c, cycle, l)) && Shifted(l, Respond(c, cycle, l), 1)
    ensures c.decode >= 1 && l.ifu == [] && l.l1i != [] && l.l1i[0].1 <= cycle ==> B6(l) < B6(Respond(c, cycle, l))
    ensures l.l1i != [] && l.l1i[0].1 > cycle ==> Respond(c, cycle, l) == l
  {
    hide Consecutive, Indices, Responded;
    var k := Fit(Responded(l.l1i, cycle), c.decode - |l.ifu|, c.decode - |l.ifu|);
    IndicesSplit(l.l1i, k);
    Transfer(Indices(l.l1i), l.ifu, B5(l), k);
  }

  lemma RequestKeeps(p: Program, c: Cfg, cycle: int, l: Line)
    requires Ordered(p, l)
    ensures Ordered(p, Request(p, c, cycle, l)) && Shifted(l, Request(p, c, cycle, l), 0)
    ensures c.decode >= 1 && l.l1i == [] && l.fetchI < |p| ==>
              B7(l) < B7(Request(p, c, cycle, l)) && Request(p, c, cycle, l).l1i[0].1 == cycle + 1 + c.fetchStage
    ensures l.l1i != [] ==> Request(p, c, cycle, l).l1i != [] && Request(p, c, cycle, l).l1i[0] == l.l1i[0]
    ensures c.decode <= 0 ==> Request(p, c, cycle, l).fetchI == l.fetchI
  {
    var m := Request(p, c, cycle, l);
    forall j | 0 <= j < |m.l1i| ensures Indices(m.l1i)[j] == B6(l) + j {
      if j < |l.l1i| { assert Indices(l.l1i)[j] == B6(l) + j; }
    }
  }

  lemma DecodeHalfKeeps(p: Program, c: Cfg, l: Line)
    requires Ordered(p, l)
    ensures var m := DecodeHalf(c, l);
      && Ordered(p, m) && SameRob(l, m)
      && B2(l) <= B2(m) <= B3(l) <= B3(m) <= B4(l) <= B4(m) <= B5(l)
      && m.l1i == l.l1i && B5(m) == B5(l) && B6(m) == B6(l) && B7(m) == B7(l)
  {
    hide Consecutive;
    var l1 := Rename(c, l); var l2 := Decode(c, l1);
    RenameKeeps(p, c, l);
    DecodeKeeps(p, c, l1);
    IntoIduKeeps(p, c, l2);
  }

  lemma FetchHalfKeeps(p: Program, c: Cfg, cycle: int, l: Line)
    requires Ordered(p, l)
    ensures var m := FetchHalf(p, c, cycle, l);
      && Ordered(p, m) && SameRob(l, m)
      && B2(l) == B2(m) && B3(l) == B3(m) && B4(l) == B4(m)
      && B5(l) <= B5(m) <= B6(l) <= B6(m) <= B7(l) <= B7(m)
  {
    hide Consecutive;
    var l1 := IntoFqu(c, l); var l2 := Respond(c, cycle, l1);
    IntoFquKeeps(p, c, l);
    RespondKeeps(p, c, cycle, l1);
    RequestKeeps(p, c, cycle, l2);
  }

  /** Each boundary moves no further than where the next one was: an instruction short of the
      ROB goes at most one stage further. */
  lemma FrontEndKeeps(p: Program, c: Cfg, cycle: int, l: Line)
    requires Ordered(p, l)
    ensures Ordered(p, FrontEnd(p, c, cycle, l)) && SameRob(l, FrontEnd(p, c, cycle, l))
    ensures forall i: nat :: i >= B1(l) ==>
              FrontStage(l, i) <= FrontStage(FrontEnd(p, c, cycle, l), i) <= FrontStage(l, i) + 1
  {
    DecodeHalfKeeps(p, c, l);
    FetchHalfKeeps(p, c, cycle, DecodeHalf(c, l));
    OneBoundaryAhead(l, FrontEnd(p, c, cycle, l));
  }

  lemma OneBoundaryAhead(l: Line, m: Line)
    requires B1(l) <= B2(l) <= B2(m) <= B3(l) <= B3(m) <= B4(l) <= B4(m) <= B5(l)
    requires B5(l) <= B5(m) <= B6(l) <= B6(m) <= B7(l) <= B7(m)
    ensures forall i: nat :: i >= B1(l) ==> FrontStage(l, i) <= FrontStage(m, i) <= FrontStage(l, i) + 1
  {}

  predicate FrontLive(c: Cfg) { c.decode >= 1 && c.rename >= 1 && c.rnq >= 1 && c.uoq >= 1 }

  lemma DecodeHalfHead(p: Program, c: Cfg, l: Line)
    requires Ordered(p, l) && FrontLive(c)
    ensures FrontStage(l, B1(l)) == 5 ==> B1(l) < B2(DecodeHalf(c, l))
    ensures FrontStage(l, B1(l)) == 4 ==> B1(l) < B3(DecodeHalf(c, l))
    ensures FrontStage(l, B1(l)) == 3 ==> B1(l) < B4(DecodeHalf(c, l))
  {
    hide Ordered, Rename, Decode, IntoIdu;
    var l1 := Rename(c, l); var l2 := Decode(c, l1);
    RenameKeeps(p, c, l);
    DecodeKeeps(p, c, l1);
    IntoIduKeeps(p, c, l2);
  }

  /** The head of the line at the L1I, when every queue in front of it is empty. */
  lemma FetchHead(p: Program, c: Cfg, cycle: int, l: Line)
    requires Ordered(p, l) && c.decode >= 1 && B1(l) == B6(l) < |p|
    ensures var m := Fetch(p, c, cycle, l);
      && (l.l1i == [] ==> B1(l) < B7(m) && m.l1i != [] && m.l1i[0].1 == cycle + 1 + c.fetchStage)
      && (l.l1i != [] && l.l1i[0].1 <= cycle ==> B1(l) < B6(m))
      && (l.l1i != [] && l.l1i[0].1 > cycle ==> B6(m) == B1(l) && m.l1i != [] && m.l1i[0] == l.l1i[0])
  {
    hide Consecutive;
    RespondKeeps(p, c, cycle, l);
    RequestKeeps(p, c, cycle, Respond(c, cycle, l));
  }

  lemma HeadAtIfu(p: Program, c: Cfg, cycle: int, l: Line)
    requires Ordered(p, l) && c.decode >= 1 && l.fqu == [] && l.ifu != []
    ensures B5(l) < B5(FetchHalf(p, c, cycle, l))
  {
    hide Consecutive;
    IntoFquKeeps(p, c, l);
    RespondKeeps(p, c, cycle, IntoFqu(c, l));
    RequestKeeps(p, c, cycle, Respond(c, cycle, IntoFqu(c, l)));
  }

  lemma IdleDecodeHalf(c: Cfg, l: Line)
    requires l.fqu == [] && l.idu == [] && l.rnu == []
    ensures DecodeHalf(c, l) == l
  {}

  /** The oldest instruction short of an empty ROB always goes one stage further, unless it
      is still waiting for its L1I response. */
  lemma FrontEndHead(p: Program, c: Cfg, cycle: int, l: Line)
    requires Ordered(p, l) && FrontLive(c) && B1(l) < |p|
    ensures var m := FrontEnd(p, c, cycle, l); var x := FrontStage(l, B1(l));
      if x == 1 && l.l1i[0].1 > cycle then FrontStage(m, B1(l)) == 1 && m.l1i != [] && m.l1i[0] == l.l1i[0]
      else if x == 0 then FrontStage(m, B1(l)) == 1 && m.l1i != [] && m.l1i[0].1 == cycle + 1 + c.fetchStage
      else FrontStage(m, B1(l)) == Min(x + 1, 6)
  {
    hide Ordered, Fetch, Respond, Request, Rename, Decode, IntoIdu, DecodeHalf;
    var x := FrontStage(l, B1(l));
    DecodeHalfKeeps(p, c, l);
    FetchHalfKeeps(p, c, cycle, DecodeHalf(c, l));
    if x >= 3 {
      DecodeHalfHead(p, c, l);
    } else {
      assert l.uoq == [] && l.rnu == [] && l.idu == [] && l.fqu == [];
      IdleDecodeHalf(c, l);
      if x == 2 {
        HeadAtIfu(p, c, cycle, l);
      } else {
        assert IntoFqu(c, l) == l;
        FetchHead(p, c, cycle, l);
      }
    }
  }
}
