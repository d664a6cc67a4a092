/** How long frames wait: with a reader that takes what it is offered every accepted frame leaves,
    after an exact number of clocks. */
module FrameQueueProgress {
  import opened FrameQueue
  import opened FrameQueueTheorems

  /** The reader starts when it may and takes every beat. */
  predicate Eager(q: Queue, r: Reader) { (q.phase == Idle ==> r.idle) && (q.phase == Read ==> r.ready) }

  /** The reader of every clock after the first n is eager. */
  predicate EagerFrom(g: Geometry, inputs: seq<Input>, n: nat) {
    forall k | n <= k < |inputs| :: Eager(Run(g, inputs[..k]).0, inputs[k].reader)
  }

  /** One clock to start, one for each word and one to release the descriptor. */
  function Cost(length: nat): nat { (length + 3) / 4 + 2 }

  function TotalCost(desc: seq<Desc>, k: nat): nat
    requires k <= |desc|
  {
    if k == 0 then 0 else TotalCost(desc, k - 1) + Cost(desc[k - 1].length)
  }

  /** The clocks already spent on the frame at the head. */
  function Spent(q: Queue): nat {
    match q.phase
    case Idle => 0
    case Read => q.offset / 4
    case Release => if q.desc == [] then 0 else Cost(q.desc[0].length) - 1
  }

  /** The clocks until the first k descriptors are released. */
  function ClocksLeft(q: Queue, k: nat): int
    requires k <= |q.desc|
  {
    if k == 0 then 0 else TotalCost(q.desc, k) - Spent(q)
  }

  lemma {:induction false} TotalOfPrefix(desc: seq<Desc>, more: seq<Desc>, k: nat)
    requires k <= |desc|
    ensures TotalCost(desc + more, k) == TotalCost(desc, k)
  {
    if k > 0 { TotalOfPrefix(desc, more, k - 1); }
  }

  lemma {:induction false} TotalWithoutHead(desc: seq<Desc>, k: nat)
    requires 1 <= k <= |desc|
    ensures TotalCost(desc, k) == Cost(desc[0].length) + TotalCost(desc[1..], k - 1)
  {
    if k > 1 { TotalWithoutHead(desc, k - 1); }
  }

  lemma {:induction false} TotalBounds(g: Geometry, desc: seq<Desc>, k: nat)
    requires k <= |desc| && forall i | 0 <= i < |desc| :: desc[i].length <= g.mtu
    ensures TotalCost(desc, k) <= k * Cost(g.mtu)
  {
    if k > 0 {
      TotalBounds(g, desc, k - 1);
      assert Cost(desc[k - 1].length) <= Cost(g.mtu);
      assert k * Cost(g.mtu) == (k - 1) * Cost(g.mtu) + Cost(g.mtu);
    }
  }

  lemma {:induction false} TotalAtLeastHead(desc: seq<Desc>, k: nat)
    requires 1 <= k <= |desc|
    ensures TotalCost(desc, k) >= Cost(desc[0].length)
  {
    if k > 1 { TotalAtLeastHead(desc, k - 1); }
  }

  /** What the invariant says of the reader's registers. */
  lemma SpentBounds(g: Geometry, q: Queue, r: Record)
    requires Invariant(g, q, r) && q.desc != []
    ensures Spent(q) < Cost(q.desc[0].length)
    ensures q.phase == Read ==> 4 <= q.offset && q.offset % 4 == 0
                                && (LastBeat(q) <==> Spent(q) == Cost(q.desc[0].length) - 2)
  {
    if q.phase == Read {
      var f := Waiting(r)[0];
      assert Holds(q, Waiting(r), 0);
      assert |f| == WordsOf(q.desc[0].length);
      LastBeatIsLastWord(q.desc[0].length, |r.sending|);
    }
  }

  /** The reader's side of one clock, with an eager reader and a descriptor. */
  lemma AdvanceSpends(g: Geometry, q: Queue, r: Record, i: Reader)
    requires Invariant(g, q, r) && q.desc != [] && Eager(q, i) && ReaderKeepsPromise(q, i)
    ensures var a := Advance(q, i); var next := q.(phase := a.0, offset := a.1, fetched := a.2);
      if q.phase == Release then a.3 && Spent(q) == Cost(q.desc[0].length) - 1 && a.0 == Idle
      else !a.3 && Spent(next) == Spent(q) + 1
  {
    hide Invariant;
    SpentBounds(g, q, r);
  }

  /** What one clock does to the descriptors. */
  lemma DescriptorsAfter(g: Geometry, q: Queue, i: Input) returns (more: seq<Desc>)
    requires q.desc != []
    ensures var t := Clock(g, q, i); var a := Advance(q, i.reader);
      && t.phase == a.0 && t.offset == a.1
      && t.desc == (if a.3 then (q.desc + more)[1..] else q.desc + more)
  {
    more := Store(g, q, i.writer).desc[|q.desc|..];
  }

  /** Every clock with an eager reader brings the release of the first k descriptors one clock closer,
      and releases the head after its last. */
  lemma ClockSpends(g: Geometry, q: Queue, r: Record, i: Input, k: nat)
    requires Invariant(g, q, r) && Allowed(g, q, r, i) && Eager(q, i.reader) && 1 <= k <= |q.desc|
    ensures var t := Clock(g, q, i); var j := if q.phase == Release then k - 1 else k;
      j <= |t.desc| && ClocksLeft(q, k) >= 1 && ClocksLeft(t, j) == ClocksLeft(q, k) - 1 && (j == 0 ==> ClocksLeft(q, k) == 1)
  {
    hide Clock, Advance, Invariant, TotalCost, Cost, Store, WriterKeepsPromise, ReaderKeepsPromise;
    var t := Clock(g, q, i);
    var more := DescriptorsAfter(g, q, i);
    AdvanceSpends(g, q, r, i.reader);
    SpentBounds(g, q, r);
    TotalOfPrefix(q.desc, more, k);
    TotalAtLeastHead(q.desc, k);
    if q.phase == Release {
      TotalWithoutHead(q.desc + more, k);
      NothingLeftToCost(t.desc);
    } else {
      SameSpent(q, t, q.(phase := t.phase, offset := t.offset, fetched := Advance(q, i.reader).2));
    }
  }

  lemma NothingLeftToCost(desc: seq<Desc>)
    ensures TotalCost(desc, 0) == 0
  {}

  lemma SameSpent(q: Queue, t: Queue, u: Queue)
    requires q.desc != [] && q.desc <= t.desc && u.desc == q.desc && t.phase == u.phase && t.offset == u.offset
    ensures Spent(t) == Spent(u)
  {}

  /** The frames whose descriptors have been released. */
  function Released(q: Queue, r: Record): int { |r.accepted| - |q.desc| }

  lemma ReleasedAfter(g: Geometry, q: Queue, r: Record, i: Input)
    requires ValidGeometry(g) && Invariant(g, q, r) && Allowed(g, q, r, i)
    ensures var t, u := Clock(g, q, i), Observe(r, q, i);
      Released(t, u) == Released(q, r) + (if q.phase == Release then 1 else 0)
    ensures q.phase == Release ==> q.desc != []
  {
    hide Holds, Ring, WritingOk, WriterKeepsPromise, ReaderKeepsPromise, Bump;
    ClockKeepsFrames(g, q, r, i);
    assert SendingOk(q, r);
  }

  /** How far the release of the first m frames is after so many more clocks: it takes exactly the
      clocks that their words, starts and releases need, no more and no fewer. */
  lemma {:induction false} ReleaseTakes(g: Geometry, inputs: seq<Input>, n: nat, m: nat)
    requires ValidGeometry(g) && AllowedRun(g, inputs) && n <= |inputs| && EagerFrom(g, inputs, n)
    requires var (q, r) := Run(g, inputs[..n]); Released(q, r) <= m <= |r.accepted|
    ensures var (q, r) := Run(g, inputs[..n]); var (t, u) := Run(g, inputs);
      var left := ClocksLeft(q, m - Released(q, r));
      && m <= |u.accepted|
      && (Released(t, u) >= m <==> |inputs| - n >= left)
      && (Released(t, u) <= m ==>
            && m - Released(t, u) <= |t.desc|
            && ClocksLeft(t, m - Released(t, u)) == (if |inputs| - n >= left then 0 else left - (|inputs| - n)))
    decreases |inputs| - n
  {
    hide Clock, Observe, Invariant, Allowed, FinishesArrived, ArrivalsOf, ClocksLeft, Eager;
    RunKeeps(g, inputs);
    if n == |inputs| {
      assert inputs[..n] == inputs;
      LeftIsNothing(g, inputs, m);
    } else {
      var init, i := inputs[..|inputs| - 1], inputs[|inputs| - 1];
      PrefixEager(g, inputs, n);
      assert init[..n] == inputs[..n];
      RunKeeps(g, init);
      ReleaseTakes(g, init, n, m);
      var (q, r) := Run(g, init);
      LeftIsNothing(g, init, m);
      LeftIsNothing(g, inputs, m);
      ReleasedAfter(g, q, r, i);
      AcceptedGrows(g, q, r, i);
      if Released(q, r) < m { ClockSpends(g, q, r, i, m - Released(q, r)); }
    }
  }

  lemma PrefixEager(g: Geometry, inputs: seq<Input>, n: nat)
    requires n < |inputs| && EagerFrom(g, inputs, n)
    ensures EagerFrom(g, inputs[..|inputs| - 1], n)
    ensures Eager(Run(g, inputs[..|inputs| - 1]).0, inputs[|inputs| - 1].reader)
  {
    hide Run, Eager;
    var init := inputs[..|inputs| - 1];
    forall k | n <= k < |init| ensures Eager(Run(g, init[..k]).0, init[k].reader) {
      assert init[..k] == inputs[..k];
    }
  }

  lemma AcceptedGrows(g: Geometry, q: Queue, r: Record, i: Input)
    ensures |Observe(r, q, i).accepted| >= |r.accepted|
  {}

  /** No clocks are left exactly when no frame is. */
  lemma LeftIsNothing(g: Geometry, inputs: seq<Input>, m: nat)
    requires ValidGeometry(g) && AllowedRun(g, inputs)
    ensures var (q, r) := Run(g, inputs);
      0 <= Released(q, r) && (Released(q, r) <= m <= |r.accepted| ==>
        m - Released(q, r) <= |q.desc| && (ClocksLeft(q, m - Released(q, r)) == 0 <==> m == Released(q, r))
        && ClocksLeft(q, m - Released(q, r)) >= 0)
  {
    hide Run, AllowedRun, Cost, TotalCost;
    RunKeeps(g, inputs);
    var (q, r) := Run(g, inputs);
    hide Invariant;
    assert 0 <= Released(q, r) by { AccountsForDescriptors(g, q, r); }
    if Released(q, r) < m <= |r.accepted| {
      SpentBounds(g, q, r);
      TotalAtLeastHead(q.desc, m - Released(q, r));
    }
  }

  lemma AccountsForDescriptors(g: Geometry, q: Queue, r: Record)
    requires Invariant(g, q, r)
    ensures |q.desc| <= |r.accepted|
  {}

  /** With an eager reader every frame that has been accepted is sent, word for word and in order, and
      its descriptor released, within the clocks that the descriptors before it need: at most the
      number of slots times the clocks of the longest frame. */
  lemma EveryFrameLeaves(g: Geometry, inputs: seq<Input>, n: nat)
    requires ValidGeometry(g) && AllowedRun(g, inputs) && n <= |inputs| && EagerFrom(g, inputs, n)
    requires |inputs| - n >= g.slots * ((g.mtu + 3) / 4 + 2)
    ensures var before := Run(g, inputs[..n]).1; var (q, after) := Run(g, inputs);
      && before.accepted <= after.sent && Released(q, after) >= |before.accepted|
  {
    hide Run, AllowedRun, EagerFrom, ClocksLeft, Invariant;
    var (q, r) := Run(g, inputs[..n]);
    var (t, u) := Run(g, inputs);
    PrefixAllowed(g, inputs, n);
    LeftIsNothing(g, inputs[..n], |r.accepted|);
    ReleaseTakes(g, inputs, n, |r.accepted|);
    LeftBound(g, inputs[..n]);
    RunKeeps(g, inputs);
    SentOfReleased(g, t, u);
    AcceptedPrefix(g, inputs, n);
    FramesLeaveInOrder(g, inputs);
  }

  lemma SentOfReleased(g: Geometry, q: Queue, r: Record)
    requires Invariant(g, q, r)
    ensures |r.sent| >= Released(q, r)
  {}

  lemma LeftBound(g: Geometry, inputs: seq<Input>)
    requires ValidGeometry(g) && AllowedRun(g, inputs)
    ensures var q := Run(g, inputs).0; ClocksLeft(q, |q.desc|) <= g.slots * ((g.mtu + 3) / 4 + 2)
  {
    hide Run, AllowedRun;
    RunKeeps(g, inputs);
    var (q, r) := Run(g, inputs);
    BoundOfRing(g, q, r);
  }

  lemma BoundOfRing(g: Geometry, q: Queue, r: Record)
    requires Invariant(g, q, r)
    ensures ClocksLeft(q, |q.desc|) <= g.slots * ((g.mtu + 3) / 4 + 2)
  {
    hide Invariant, TotalCost, Cost;
    RingOf(g, q, r);
    TotalBounds(g, q.desc, |q.desc|);
    TimesGrows(|q.desc|, g.slots, Cost(g.mtu));
    CostOfLongest(g);
  }

  lemma RingOf(g: Geometry, q: Queue, r: Record)
    requires Invariant(g, q, r)
    ensures |q.desc| <= g.slots && forall i | 0 <= i < |q.desc| :: q.desc[i].length <= g.mtu
  {}

  lemma CostOfLongest(g: Geometry)
    ensures Cost(g.mtu) == (g.mtu + 3) / 4 + 2
  {}

  lemma TimesGrows(a: nat, b: nat, c: nat)
    requires a <= b
    ensures a * c <= b * c
  {
    assert (b - a) * c >= 0;
  }

  lemma {:induction false} PrefixAllowed(g: Geometry, inputs: seq<Input>, n: nat)
    requires AllowedRun(g, inputs) && n <= |inputs|
    ensures AllowedRun(g, inputs[..n])
    decreases |inputs|
  {
    hide Run, Allowed, FinishesArrived, ArrivalsOf;
    if n == |inputs| {
      assert inputs[..n] == inputs;
    } else {
      PrefixAllowed(g, inputs[..|inputs| - 1], n);
      assert inputs[..|inputs| - 1][..n] == inputs[..n];
    }
  }

  lemma {:induction false} AcceptedPrefix(g: Geometry, inputs: seq<Input>, n: nat)
    requires n <= |inputs|
    ensures Run(g, inputs[..n]).1.accepted <= Run(g, inputs).1.accepted
    decreases |inputs|
  {
    hide Clock;
    if n == |inputs| {
      assert inputs[..n] == inputs;
    } else {
      AcceptedPrefix(g, inputs[..|inputs| - 1], n);
      assert inputs[..|inputs| - 1][..n] == inputs[..n];
    }
  }
}
