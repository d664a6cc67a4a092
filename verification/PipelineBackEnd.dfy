/** What the phases inside the ROB keep: commit, complete, execute, issue, dispatch, allocate. */
module PipelineBackEnd {
  import opened Pipeline
  import opened PipelineInvariant

  // ---------- Commit and allocate: the two ends of the ROB ----------

  /** What retiring k instructions at once must look like: all done, within the width, a store
      alone, a control transfer last, and nothing more could have retired. */
  predicate Burst(p: Program, c: Cfg, rob: seq<nat>, done: set<nat>, k: nat)
    requires k <= |rob|
  {
    && (forall j | 0 <= j < k :: rob[j] in done)
    && (k > 0 ==> k <= c.commit)
    && (forall j | 0 <= j < k && IsStore(p, rob[j]) :: k == 1)
    && (forall j | 0 <= j < k && IsControl(p, rob[j]) :: j == k - 1)
    && (|| k == |rob|
        || k >= c.commit
        || rob[k] !in done
        || (k > 0 && IsStore(p, rob[k]))
        || (k > 0 && (IsStore(p, rob[k - 1]) || IsControl(p, rob[k - 1]))))
  }

  lemma {:induction false} RetireCountIsBurst(p: Program, c: Cfg, rob: seq<nat>, done: set<nat>, n: nat)
    requires n <= |rob| && (n > 0 ==> n <= c.commit)
    requires forall j | 0 <= j < n :: rob[j] in done && !IsStore(p, rob[j]) && !IsControl(p, rob[j])
    ensures Burst(p, c, rob, done, RetireCount(p, c, rob, done, n))
    decreases |rob| - n
  {
    if n < |rob| && n < c.commit && rob[n] in done && !IsStore(p, rob[n]) && !IsControl(p, rob[n]) {
      RetireCountIsBurst(p, c, rob, done, n + 1);
    }
  }

  /** The burst conditions leave no choice. */
  lemma BurstUnique(p: Program, c: Cfg, rob: seq<nat>, done: set<nat>, k: nat, m: nat)
    requires k <= |rob| && m <= |rob| && Burst(p, c, rob, done, k) && Burst(p, c, rob, done, m)
    ensures k == m
  {}

  lemma CommitLine(p: Program, c: Cfg, s: State)
    requires Ordered(p, s.line)
    ensures var l := s.line; var m := Commit(p, c, s).line;
      && Ordered(p, m) && B0(l) <= B0(m) <= B1(l) && B1(m) == B1(l)
      && B2(m) == B2(l) && B3(m) == B3(l) && B4(m) == B4(l) && B5(m) == B5(l) && B6(m) == B6(l) && B7(m) == B7(l)
      && m.l1i == l.l1i
      && (forall i: nat | B0(l) <= i < B0(m) :: i in s.tab.done)
      && (c.commit <= 0 ==> m.committed == l.committed)
      && (c.commit >= 1 && B0(l) < B1(l) && B0(l) in s.tab.done ==> B0(l) < B0(m))
  {
    var k := RetireCount(p, c, s.line.rob, s.tab.done, 0);
    RetireCountIsBurst(p, c, s.line.rob, s.tab.done, 0);
    Transfer(s.line.rob, s.line.committed, 0, k);
    forall i: nat | B0(s.line) <= i < B0(s.line) + k ensures i in s.tab.done {
      assert s.line.rob[i - B0(s.line)] == i;
    }
  }

  lemma PlacedAfterCommit(p: Program, b0: nat, b0': nat, b1: nat, tab: Tables)
    requires Placed(p, b0, b1, tab) && b0 <= b0' <= b1
    requires forall i: nat | b0 <= i < b0' :: i in tab.done
    ensures Placed(p, b0', b1, tab)
  {}

  lemma CommitKeeps(p: Program, c: Cfg, s: State)
    requires Structural(p, s)
    ensures Structural(p, Commit(p, c, s)) && Moves(s, Commit(p, c, s), 11)
  {
    CommitLine(p, c, s);
    PlacedAfterCommit(p, B0(s.line), B0(Commit(p, c, s).line), B1(s.line), s.tab);
  }

  lemma AllocateLine(p: Program, c: Cfg, s: State)
    requires Ordered(p, s.line)
    ensures var l := s.line; var m := Allocate(c, s).line;
      && Ordered(p, m) && B0(m) == B0(l) && B1(l) <= B1(m) <= B2(l) && B2(m) == B2(l)
      && B3(m) == B3(l) && B4(m) == B4(l) && B5(m) == B5(l) && B6(m) == B6(l) && B7(m) == B7(l)
      && m.l1i == l.l1i
      && (c.dispatch <= 0 || c.rob <= 0 ==> B1(m) == B1(l))
      && (c.dispatch >= 1 && c.rob >= 1 && l.rob == [] && l.uoq != [] ==> B1(l) < B1(m))
  {
    Transfer(s.line.uoq, s.line.rob, B0(s.line), Fit(|s.line.uoq|, c.dispatch, c.rob - |s.line.rob|));
  }

  /** Clearing the `iq` field on entry to the ROB never forgets anything. */
  lemma AllocateTables(p: Program, c: Cfg, s: State)
    requires Ordered(p, s.line) && Placed(p, B0(s.line), B1(s.line), s.tab)
    ensures Allocate(c, s).tab == s.tab && Allocate(c, s).iqs == s.iqs
  {
    Transfer(s.line.uoq, s.line.rob, B0(s.line), Fit(|s.line.uoq|, c.dispatch, c.rob - |s.line.rob|));
    assert Allocate(c, s).tab.iqOf == s.tab.iqOf;
  }

  lemma PlacedAfterAllocate(p: Program, b0: nat, b1: nat, b1': nat, tab: Tables)
    requires Placed(p, b0, b1, tab) && b1 <= b1'
    ensures Placed(p, b0, b1', tab)
    ensures forall i: nat | b1 <= i :: RobStage(tab, i) == 7
  {}

  lemma AllocateKeeps(p: Program, c: Cfg, s: State)
    requires Structural(p, s)
    ensures Structural(p, Allocate(c, s)) && Moves(s, Allocate(c, s), 6)
  {
    AllocateLine(p, c, s);
    AllocateTables(p, c, s);
    PlacedAfterAllocate(p, B0(s.line), B1(s.line), B1(Allocate(c, s).line), s.tab);
  }

  // ---------- Complete and execute ----------

  lemma CompleteKeeps(p: Program, b0: nat, b1: nat, s: State)
    requires Inside(p, b0, b1, s.iqs, s.tab)
    ensures Inside(p, b0, b1, Complete(p, s).iqs, Complete(p, s).tab)
    ensures Relabels(s.tab, Complete(p, s).tab, 10)
    ensures forall i: nat :: RobStage(Complete(p, s).tab, i)
                             == if i in Arrived(s.tab.completing, s.cycle) then 11 else RobStage(s.tab, i)
  {}

  lemma ExecuteKeeps(p: Program, b0: nat, b1: nat, s: State)
    requires Inside(p, b0, b1, s.iqs, s.tab)
    ensures Inside(p, b0, b1, Execute(s).iqs, Execute(s).tab)
    ensures Relabels(s.tab, Execute(s).tab, 9)
    ensures forall i: nat :: RobStage(Execute(s).tab, i) == if i in Finished(s.tab.executing) then 10 else RobStage(s.tab, i)
  {}

  // ---------- Issue ----------

  /** Picking splits an increasing queue into two increasing, disjoint parts. */
  lemma {:induction false} PickParts(p: Program, s: State, q: seq<nat>, ports: int)
    requires Increasing(q)
    ensures Increasing(IssuePick(p, s, q, ports).0) && Increasing(IssuePick(p, s, q, ports).1)
    ensures forall i :: i in q <==> i in IssuePick(p, s, q, ports).0 || i in IssuePick(p, s, q, ports).1
    ensures forall i :: i in IssuePick(p, s, q, ports).0 ==> i !in IssuePick(p, s, q, ports).1
    ensures |IssuePick(p, s, q, ports).0| + |IssuePick(p, s, q, ports).1| == |q|
    ensures |IssuePick(p, s, q, ports).0| <= Max(0, ports)
  {
    if q != [] {
      assert forall i | i in q[1..] :: q[0] < i;
      assert q == [q[0]] + q[1..];
      var rest := IssuePick(p, s, q[1..], if ports > 0 && SrcsReady(p, s, q[0]) then ports - 1 else ports);
      PickParts(p, s, q[1..], if ports > 0 && SrcsReady(p, s, q[0]) then ports - 1 else ports);
      assert forall i | i in rest.0 || i in rest.1 :: i in q[1..];
      Prepend(q[0], rest.0);
      Prepend(q[0], rest.1);
    }
  }

  /** When every source is ready the oldest entries issue, as many as there are ports. */
  lemma {:induction false} PickOldest(p: Program, s: State, q: seq<nat>, ports: int)
    requires forall i: nat :: SrcsReady(p, s, i)
    ensures IssuePick(p, s, q, ports).0 == q[..Fit(|q|, ports, ports)]
    ensures IssuePick(p, s, q, ports).1 == q[Fit(|q|, ports, ports)..]
  {
    if q != [] {
      assert SrcsReady(p, s, q[0]);
      if ports > 0 { PickOldest(p, s, q[1..], ports - 1); } else { PickOldest(p, s, q[1..], ports); }
    }
  }

  lemma StartPlaced(p: Program, b0: nat, b1: nat, tab: Tables, tab': Tables, gone: set<nat>)
    requires Placed(p, b0, b1, tab)
    requires tab'.done == tab.done && tab'.completing == tab.completing && tab'.iqOf == tab.iqOf
    requires tab'.issued == tab.issued + gone && tab'.executing.Keys == tab.executing.Keys + gone
    requires forall i: nat :: i in tab'.executing ==>
               if i in gone then tab'.executing[i].1 >= 1 else tab'.executing[i] == tab.executing[i]
    requires forall i: nat :: i in gone ==> i in tab.iqOf && i !in tab.issued
    ensures Placed(p, b0, b1, tab')
    ensures forall i: nat :: RobStage(tab', i) == if i in gone then 9 else RobStage(tab, i)
    ensures forall i: nat :: i in gone ==> RobStage(tab, i) == 8
  {}

  /** Executions under way are undisturbed, and each new one starts with its full delay. */
  ghost predicate Starts(p: Program, c: Cfg, tab: Tables, tab': Tables) {
    && (forall i: nat :: i in tab.executing ==> i in tab'.executing && tab'.executing[i] == tab.executing[i])
    && (forall i: nat :: i in tab'.executing ==> i in tab.executing || tab'.executing[i] == Timing(p, c, i))
  }

  lemma IssueQueued(p: Program, iqs: Queues, iqs': Queues, iqOf: map<nat, Kind>, issued: set<nat>,
                    k: Kind, gone: set<nat>, keep: seq<nat>)
    requires Queued(p, iqs, iqOf, issued) && iqs' == iqs.With(k, keep)
    requires Increasing(keep)
    requires forall i: nat :: i in iqs.Get(k) <==> i in gone || i in keep
    requires forall i: nat :: i in gone ==> i !in keep
    ensures Queued(p, iqs', iqOf, issued + gone)
  {
    assert QueueOf(p, k, iqs.Get(k), iqOf, issued);
    forall j: Kind ensures QueueOf(p, j, iqs'.Get(j), iqOf, issued + gone) {
      assert QueueOf(p, j, iqs.Get(j), iqOf, issued);
    }
  }

  lemma IssueKindKeeps(p: Program, c: Cfg, b0: nat, b1: nat, s: State, k: Kind)
    requires Inside(p, b0, b1, s.iqs, s.tab)
    ensures var t := IssueKind(p, c, s, k); var gone := IssuePick(p, s, s.iqs.Get(k), Ports(c, k)).0;
      && Inside(p, b0, b1, t.iqs, t.tab) && Relabels(s.tab, t.tab, 8)
      && (forall i: nat :: RobStage(t.tab, i) == if i in gone then 9 else RobStage(s.tab, i))
      && (forall i: nat :: i in gone ==> KindOf(p, i) == k)
      && |gone| <= Max(0, Ports(c, k))
      && |gone| + |t.iqs.Get(k)| == |s.iqs.Get(k)|
  {
    hide IssuePick, Started, Increasing;
    assert QueueOf(p, k, s.iqs.Get(k), s.tab.iqOf, s.tab.issued);
    var (gone, keep) := IssuePick(p, s, s.iqs.Get(k), Ports(c, k));
    var t := IssueKind(p, c, s, k);
    PickParts(p, s, s.iqs.Get(k), Ports(c, k));
    StartPlaced(p, b0, b1, s.tab, t.tab, ToSet(gone));
    IssueQueued(p, s.iqs, t.iqs, s.tab.iqOf, s.tab.issued, k, ToSet(gone), keep);
  }

  lemma IssueKindStarts(p: Program, c: Cfg, b0: nat, b1: nat, s: State, k: Kind)
    requires Placed(p, b0, b1, s.tab) && QueueOf(p, k, s.iqs.Get(k), s.tab.iqOf, s.tab.issued)
    ensures Starts(p, c, s.tab, IssueKind(p, c, s, k).tab)
  {
    PickParts(p, s, s.iqs.Get(k), Ports(c, k));
  }

  // ---------- Dispatch ----------

  lemma {:induction false} PendingIncreasing(tab: Tables, rob: seq<nat>)
    requires Increasing(rob)
    ensures Increasing(Pending(tab, rob))
  {
    if rob != [] {
      PendingIncreasing(tab, rob[1..]);
      assert forall i | i in rob[1..] :: rob[0] < i;
      Prepend(rob[0], Pending(tab, rob[1..]));
    }
  }

  lemma DispatchQueued(p: Program, iqs: Queues, iqOf: map<nat, Kind>, issued: set<nat>, i: nat)
    requires Queued(p, iqs, iqOf, issued) && i !in iqOf && i !in issued
    requires forall j: nat :: j in iqOf && KindOf(p, j) == KindOf(p, i) ==> j < i
    ensures var k := KindOf(p, i); Queued(p, iqs.With(k, iqs.Get(k) + [i]), iqOf[i := k], issued)
  {
    var k := KindOf(p, i);
    var iqs' := iqs.With(k, iqs.Get(k) + [i]);
    forall j: Kind ensures QueueOf(p, j, iqs'.Get(j), iqOf[i := k], issued) {
      assert QueueOf(p, j, iqs.Get(j), iqOf, issued);
      assert forall a | 0 <= a < |iqs.Get(j)| :: iqs.Get(j)[a] in iqs.Get(j);
    }
  }

  lemma DispatchPlaced(p: Program, b0: nat, b1: nat, tab: Tables, i: nat)
    requires Placed(p, b0, b1, tab) && b0 <= i < b1 && i !in tab.iqOf
    ensures var tab' := tab.(iqOf := tab.iqOf[i := KindOf(p, i)]);
      && Placed(p, b0, b1, tab') && RobStage(tab, i) == 7
      && (forall j: nat :: RobStage(tab', j) == if j == i then 8 else RobStage(tab, j))
  {}

  lemma DispatchOneKeeps(p: Program, b0: nat, b1: nat, s: State, i: nat)
    requires Inside(p, b0, b1, s.iqs, s.tab) && b0 <= i < b1 && i !in s.tab.iqOf
    requires forall j: nat :: j < i && KindOf(p, j) == KindOf(p, i) ==> j in s.tab.iqOf
    ensures var t := DispatchOne(p, s, i);
      && Inside(p, b0, b1, t.iqs, t.tab) && Relabels(s.tab, t.tab, 7) && RobStage(s.tab, i) == 7
      && (forall j: nat :: RobStage(t.tab, j) == if j == i then 8 else RobStage(s.tab, j))
  {
    DispatchPlaced(p, b0, b1, s.tab, i);
    DispatchQueued(p, s.iqs, s.tab.iqOf, s.tab.issued, i);
  }

  /** Every ROB entry still waiting for a queue is either listed or shut out by a full queue. */
  ghost predicate Accounted(p: Program, c: Cfg, b0: nat, b1: nat, s: State, pending: seq<nat>) {
    && Increasing(pending)
    && (forall i :: i in pending ==> b0 <= i < b1 && i !in s.tab.iqOf)
    && (forall i: nat :: b0 <= i < b1 && i !in s.tab.iqOf ==> i in pending || Full(c, s, KindOf(p, i)))
  }

  lemma PendingAccounted(p: Program, c: Cfg, s: State)
    requires Structural(p, s)
    ensures Accounted(p, c, B0(s.line), B1(s.line), s, Pending(s.tab, s.line.rob))
  {
    PendingIncreasing(s.tab, s.line.rob);
    forall i: nat | B0(s.line) <= i < B1(s.line) ensures i in s.line.rob { assert s.line.rob[i - B0(s.line)] == i; }
  }

  /** The first listed entry whose queue has room is the next of its kind. */
  lemma FirstPendingIsNext(p: Program, c: Cfg, b0: nat, b1: nat, s: State, pending: seq<nat>)
    requires Inside(p, b0, b1, s.iqs, s.tab) && Accounted(p, c, b0, b1, s, pending) && pending != []
    requires !Full(c, s, KindOf(p, pending[0]))
    ensures b0 <= pending[0] < b1 && pending[0] !in s.tab.iqOf
    ensures forall j: nat :: j < pending[0] && KindOf(p, j) == KindOf(p, pending[0]) ==> j in s.tab.iqOf
  {
    assert pending[0] in pending;
    forall j: nat | j < pending[0] && KindOf(p, j) == KindOf(p, pending[0]) ensures j in s.tab.iqOf {
      if j < b0 { assert j in s.tab.issued; } else { assert j !in pending; }
    }
  }

  lemma AccountedAfter(p: Program, c: Cfg, b0: nat, b1: nat, s: State, pending: seq<nat>)
    requires Accounted(p, c, b0, b1, s, pending) && pending != []
    ensures if Full(c, s, KindOf(p, pending[0])) then Accounted(p, c, b0, b1, s, pending[1..])
            else Accounted(p, c, b0, b1, DispatchOne(p, s, pending[0]), pending[1..])
    ensures forall k: Kind :: Full(c, s, k) ==> Full(c, DispatchOne(p, s, pending[0]), k)
  {
    var t := DispatchOne(p, s, pending[0]);
    forall k: Kind | Full(c, s, k) ensures Full(c, t, k) {}
    assert pending == [pending[0]] + pending[1..];
    forall i | i in pending[1..] ensures i in pending && pending[0] < i {}
    forall i | i in pending && i != pending[0] ensures i in pending[1..] {}
  }

  lemma {:induction false} DispatchOverKeeps(p: Program, c: Cfg, b0: nat, b1: nat, s: State, pending: seq<nat>, width: int)
    requires Inside(p, b0, b1, s.iqs, s.tab) && Accounted(p, c, b0, b1, s, pending)
    ensures var t := DispatchOver(p, c, s, pending, width);
      && t.line == s.line && t.cycle == s.cycle && t.tab == s.tab.(iqOf := t.tab.iqOf) && t.readyAt == s.readyAt
      && Inside(p, b0, b1, t.iqs, t.tab) && Relabels(s.tab, t.tab, 7)
      && (forall i: nat :: RobStage(s.tab, i) == RobStage(t.tab, i) || (width >= 1 && !Full(c, s, KindOf(p, i))))
    decreases |pending|
  {
    hide Inside, Accounted, Full, KindOf;
    if pending != [] && width > 0 {
      AccountedAfter(p, c, b0, b1, s, pending);
      if Full(c, s, KindOf(p, pending[0])) {
        DispatchOverKeeps(p, c, b0, b1, s, pending[1..], width);
      } else {
        FirstPendingIsNext(p, c, b0, b1, s, pending);
        DispatchOneKeeps(p, b0, b1, s, pending[0]);
        DispatchOverKeeps(p, c, b0, b1, DispatchOne(p, s, pending[0]), pending[1..], width - 1);
      }
    }
  }
}
