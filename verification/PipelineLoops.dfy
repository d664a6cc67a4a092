/** The loops of the pipeline model's phases, each proved to compute what the phase says. */
module PipelineLoops {
  import P = Pipeline

  method Retire(p: P.Program, c: P.Cfg, rob: seq<nat>, done: set<nat>, committed: seq<nat>, retired: set<nat>)
    returns (rob': seq<nat>, committed': seq<nat>, retired': set<nat>)
    ensures var k := P.RetireCount(p, c, rob, done, 0);
            rob' == rob[k..] && committed' == committed + rob[..k] && retired' == retired + P.ToSet(rob[..k])
  {
    rob', committed', retired' := rob, committed, retired;
    var n, sawStore, sawControl := 0, false, false;
    while rob' != [] && n < c.commit
      invariant n <= |rob| && rob' == rob[n..] && !sawStore && !sawControl
      invariant committed' == committed + rob[..n] && retired' == retired + P.ToSet(rob[..n])
      invariant P.RetireCount(p, c, rob, done, n) == P.RetireCount(p, c, rob, done, 0)
    {
      var idx := rob'[0];
      if idx !in done { break; }
      if P.IsStore(p, idx) && (sawStore || n > 0) { break; }
      if P.IsControl(p, idx) && sawControl { break; }
      rob' := rob'[1..];
      retired' := retired' + {idx};
      committed' := committed' + [idx];
      n := n + 1;
      assert rob[..n] == rob[..n - 1] + [idx];
      if P.IsStore(p, idx) { sawStore := true; break; }
      if P.IsControl(p, idx) { sawControl := true; break; }
    }
  }

  lemma ExtendDests(p: P.Program, gone: set<nat>, i: nat)
    ensures P.Dests(p, gone + {i}) ==
            P.Dests(p, gone) + (if P.DestOf(p, i).Some? then {P.DestOf(p, i).value} else {})
  {}

  lemma ConstantGrows<K, V>(m: map<K, V>, keys: set<K>, k: K, v: V)
    ensures m + P.Constant(keys + {k}, v) == (m + P.Constant(keys, v))[k := v]
  {}

  lemma DropOneMore<K, V>(m: map<K, V>, gone: set<K>, k: K)
    ensures m - (gone + {k}) == (m - gone) - {k}
  {}

  lemma DestReady(p: P.Program, gone: set<nat>, i: nat, readyAt: map<string, int>, cycle: int)
    ensures readyAt + P.Constant(P.Dests(p, gone + {i}), cycle) ==
            var before := readyAt + P.Constant(P.Dests(p, gone), cycle);
            if P.DestOf(p, i).Some? then before[P.DestOf(p, i).value := cycle] else before
  {
    ExtendDests(p, gone, i);
    if P.DestOf(p, i).Some? {
      ConstantGrows(readyAt, P.Dests(p, gone), P.DestOf(p, i).value, cycle);
    } else {
      assert P.Dests(p, gone + {i}) == P.Dests(p, gone);
    }
  }

  method Finish(p: P.Program, cycle: int, completing: map<nat, int>, done: set<nat>, readyAt: map<string, int>)
    returns (completing': map<nat, int>, done': set<nat>, readyAt': map<string, int>)
    ensures var due := P.Arrived(completing, cycle);
            && completing' == completing - due && done' == done + due
            && readyAt' == readyAt + P.Constant(P.Dests(p, due), cycle)
  {
    completing', done', readyAt' := completing, done, readyAt;
    ghost var gone := {};
    var todo := completing.Keys;
    assert readyAt' == readyAt + P.Constant(P.Dests(p, gone), cycle);
    while todo != {}
      invariant todo <= completing.Keys && gone == P.Arrived(completing, cycle) - todo
      invariant completing' == completing - gone && done' == done + gone
      invariant readyAt' == readyAt + P.Constant(P.Dests(p, gone), cycle)
      decreases todo
    {
      var idx :| idx in todo;
      todo := todo - {idx};
      if completing[idx] <= cycle {
        DropOneMore(completing, gone, idx);
        DestReady(p, gone, idx, readyAt, cycle);
        completing' := completing' - {idx};
        done' := done' + {idx};
        var dest := P.DestOf(p, idx);
        if dest.Some? { readyAt' := readyAt'[dest.value := cycle]; }
        gone := gone + {idx};
      }
    }
    assert gone == P.Arrived(completing, cycle);
  }

  method Advance(cycle: int, executing: map<nat, (P.Node, int)>, completing: map<nat, int>)
    returns (executing': map<nat, (P.Node, int)>, completing': map<nat, int>)
    ensures executing' == P.Countdown(executing)
    ensures completing' == completing + P.Constant(P.Finished(executing), cycle + P.COMPLETE_REG)
  {
    var ending := P.Finished(executing);
    executing' := Decrement(executing);
    executing', completing' := Expire(cycle + P.COMPLETE_REG, ending, executing', completing);
  }

  method Expire(at: int, ending: set<nat>, executing: map<nat, (P.Node, int)>, completing: map<nat, int>)
    returns (executing': map<nat, (P.Node, int)>, completing': map<nat, int>)
    ensures executing' == executing - ending
    ensures completing' == completing + P.Constant(ending, at)
  {
    executing', completing' := executing, completing;
    var todo := ending;
    ghost var gone := {};
    while todo != {}
      invariant todo <= ending && gone == ending - todo
      invariant executing' == executing - gone
      invariant completing' == completing + P.Constant(gone, at)
      decreases todo
    {
      var idx :| idx in todo;
      todo := todo - {idx};
      DropOneMore(executing, gone, idx);
      ConstantGrows(completing, gone, idx, at);
      gone := gone + {idx};
      executing' := executing' - {idx};
      completing' := completing'[idx := at];
    }
    assert gone == ending;
  }

  method Decrement(executing: map<nat, (P.Node, int)>) returns (r: map<nat, (P.Node, int)>)
    ensures r.Keys == executing.Keys
    ensures forall i | i in r :: r[i] == if executing[i].1 > 1 then (executing[i].0, executing[i].1 - 1) else executing[i]
  {
    r := executing;
    var todo := executing.Keys;
    while todo != {}
      invariant todo <= executing.Keys && r.Keys == executing.Keys
      invariant forall i | i in r ::
        r[i] == if i !in todo && executing[i].1 > 1 then (executing[i].0, executing[i].1 - 1) else executing[i]
      decreases todo
    {
      var idx :| idx in todo;
      todo := todo - {idx};
      if executing[idx].1 > 1 { r := r[idx := (executing[idx].0, executing[idx].1 - 1)]; }
    }
  }

  method Start(p: P.Program, c: P.Cfg, s: P.State, k: P.Kind)
    returns (keep: seq<nat>, executing: map<nat, (P.Node, int)>, issued: set<nat>, reclaim: map<P.Kind, nat>)
    ensures var pick := P.IssuePick(p, s, s.iqs.Get(k), P.Ports(c, k));
            && keep == pick.1
            && executing == s.tab.executing + P.Started(p, c, P.ToSet(pick.0))
            && issued == s.tab.issued + P.ToSet(pick.0)
            && reclaim == Reclaiming(c, s, k, |pick.0|)
  {
    hide P.IssuePick, P.SrcsReady, P.Started, P.ToSet, Reclaiming;
    var q, ports := s.iqs.Get(k), P.Ports(c, k);
    keep, executing, issued, reclaim := [], s.tab.executing, s.tab.issued, s.reclaim;
    ghost var gone: seq<nat> := [];
    NothingPicked(p, c, s, k, q, ports);
    var n := 0;
    for j := 0 to |q|
      invariant n == |gone| && (gone, keep) == P.IssuePick(p, s, q[..j], ports)
      invariant executing == s.tab.executing + P.Started(p, c, P.ToSet(gone))
      invariant issued == s.tab.issued + P.ToSet(gone)
      invariant reclaim == Reclaiming(c, s, k, n)
    {
      var idx := q[j];
      PickOneMore(p, s, q[..j], idx, ports);
      assert q[..j + 1] == q[..j] + [idx];
      if n < ports && P.SrcsReady(p, s, idx) {
        StartedGrows(p, c, s.tab.executing, gone, idx);
        executing := executing[idx := P.Timing(p, c, idx)];
        issued := issued + {idx};
        ReclaimOneMore(c, s, k, n);
        if c.iqReclaim { reclaim := reclaim[k := (if k in reclaim then reclaim[k] else 0) + 1]; }
        n := n + 1;
        gone := gone + [idx];
      } else {
        keep := keep + [idx];
      }
    }
    assert q[..|q|] == q;
  }

  lemma NothingPicked(p: P.Program, c: P.Cfg, s: P.State, k: P.Kind, q: seq<nat>, ports: int)
    ensures P.IssuePick(p, s, q[..0], ports) == ([], []) && P.ToSet([]) == {} && Reclaiming(c, s, k, 0) == s.reclaim
  {}

  function Reclaiming(c: P.Cfg, s: P.State, k: P.Kind, n: nat): map<P.Kind, nat> {
    if c.iqReclaim && n > 0 then s.reclaim[k := s.Reclaimed(k) + n] else s.reclaim
  }

  lemma ReclaimOneMore(c: P.Cfg, s: P.State, k: P.Kind, n: nat)
    ensures var m := Reclaiming(c, s, k, n);
      Reclaiming(c, s, k, n + 1) == if c.iqReclaim then m[k := (if k in m then m[k] else 0) + 1] else m
  {}

  /** Scanning one entry more: it issues if a port is left and its sources are ready. */
  lemma {:induction false} PickOneMore(p: P.Program, s: P.State, q: seq<nat>, i: nat, ports: int)
    ensures var pick := P.IssuePick(p, s, q, ports);
      P.IssuePick(p, s, q + [i], ports) ==
        if |pick.0| < ports && P.SrcsReady(p, s, i) then (pick.0 + [i], pick.1) else (pick.0, pick.1 + [i])
  {
    if q != [] {
      assert (q + [i])[1..] == q[1..] + [i];
      var goes := ports > 0 && P.SrcsReady(p, s, q[0]);
      var rest := P.IssuePick(p, s, q[1..], if goes then ports - 1 else ports);
      PickOneMore(p, s, q[1..], i, if goes then ports - 1 else ports);
      assert [q[0]] + (rest.0 + [i]) == ([q[0]] + rest.0) + [i];
      assert [q[0]] + (rest.1 + [i]) == ([q[0]] + rest.1) + [i];
    } else {
      var none: seq<nat> := [];
      assert q + [i] == [i] && [i][1..] == none && [i] + none == none + [i] == [i];
    }
  }

  lemma StartedOneMore(p: P.Program, c: P.Cfg, executing: map<nat, (P.Node, int)>, gone: set<nat>, i: nat)
    ensures executing + P.Started(p, c, gone + {i}) == (executing + P.Started(p, c, gone))[i := P.Timing(p, c, i)]
  {
    hide P.Started, P.Timing;
  }

  lemma StartedGrows(p: P.Program, c: P.Cfg, executing: map<nat, (P.Node, int)>, gone: seq<nat>, i: nat)
    ensures P.ToSet(gone + [i]) == P.ToSet(gone) + {i}
    ensures executing + P.Started(p, c, P.ToSet(gone + [i]))
            == (executing + P.Started(p, c, P.ToSet(gone)))[i := P.Timing(p, c, i)]
  {
    hide P.Started, P.Timing;
    assert P.ToSet(gone + [i]) == P.ToSet(gone) + {i};
    StartedOneMore(p, c, executing, P.ToSet(gone), i);
  }

  /** The state with the given issue queues and `iq` fields. */
  function Dispatching(s: P.State, iqs: P.Queues, iqOf: map<nat, P.Kind>): P.State {
    s.(iqs := iqs, tab := s.tab.(iqOf := iqOf))
  }

  method Enqueue(p: P.Program, c: P.Cfg, s: P.State) returns (iqs: P.Queues, iqOf: map<nat, P.Kind>)
    ensures Dispatching(s, iqs, iqOf) == P.DispatchOver(p, c, s, P.Pending(s.tab, s.line.rob), c.dispatch)
  {
    hide P.DispatchOver;
    iqs, iqOf := s.iqs, s.tab.iqOf;
    var pending := P.Pending(s.tab, s.line.rob);
    ghost var goal := P.DispatchOver(p, c, s, pending, c.dispatch);
    var moved, j := 0, 0;
    assert Dispatching(s, iqs, iqOf) == s;
    while j < |pending| && moved < c.dispatch
      invariant 0 <= j <= |pending|
      invariant goal == P.DispatchOver(p, c, Dispatching(s, iqs, iqOf), pending[j..], c.dispatch - moved)
    {
      var idx := pending[j];
      var k := P.KindOf(p, idx);
      var q := iqs.Get(k);
      DispatchNext(p, c, s, iqs, iqOf, pending, j, c.dispatch - moved);
      j := j + 1;
      if |q| + s.Reclaimed(k) < P.IqCap(c, k) {
        iqs := iqs.With(k, q + [idx]);
        iqOf := iqOf[idx := k];
        moved := moved + 1;
      }
    }
    DispatchStops(p, c, Dispatching(s, iqs, iqOf), pending[j..], c.dispatch - moved);
  }

  lemma DispatchStops(p: P.Program, c: P.Cfg, t: P.State, pending: seq<nat>, width: int)
    requires pending == [] || width <= 0
    ensures P.DispatchOver(p, c, t, pending, width) == t
  {}

  lemma DispatchNext(p: P.Program, c: P.Cfg, s: P.State, iqs: P.Queues, iqOf: map<nat, P.Kind>,
                     pending: seq<nat>, j: nat, width: int)
    requires j < |pending| && width > 0
    ensures var k := P.KindOf(p, pending[j]); var q := iqs.Get(k);
      P.DispatchOver(p, c, Dispatching(s, iqs, iqOf), pending[j..], width) ==
      if |q| + s.Reclaimed(k) < P.IqCap(c, k)
      then P.DispatchOver(p, c, Dispatching(s, iqs.With(k, q + [pending[j]]), iqOf[pending[j] := k]), pending[j + 1..], width - 1)
      else P.DispatchOver(p, c, Dispatching(s, iqs, iqOf), pending[j + 1..], width)
  {
    assert pending[j..][1..] == pending[j + 1..];
  }

  method Admit(c: P.Cfg, uoq: seq<nat>, rob: seq<nat>, iqOf: map<nat, P.Kind>)
    returns (uoq': seq<nat>, rob': seq<nat>, iqOf': map<nat, P.Kind>)
    ensures var k := P.Fit(|uoq|, c.dispatch, c.rob - |rob|);
            uoq' == uoq[k..] && rob' == rob + uoq[..k] && iqOf' == iqOf - P.ToSet(uoq[..k])
  {
    uoq', rob', iqOf' := uoq, rob, iqOf;
    var n := 0;
    while uoq' != [] && n < c.dispatch && |rob'| < c.rob
      invariant n <= P.Fit(|uoq|, c.dispatch, c.rob - |rob|)
      invariant uoq' == uoq[n..] && rob' == rob + uoq[..n] && iqOf' == iqOf - P.ToSet(uoq[..n])
    {
      var idx := uoq'[0];
      uoq' := uoq'[1..];
      rob' := rob' + [idx];
      iqOf' := iqOf' - {idx};
      n := n + 1;
      assert uoq[..n] == uoq[..n - 1] + [idx];
      assert P.ToSet(uoq[..n]) == P.ToSet(uoq[..n - 1]) + {idx};
    }
  }

  method Move(src: seq<nat>, dst: seq<nat>, width: int, cap: int) returns (src': seq<nat>, dst': seq<nat>)
    ensures var k := P.Fit(|src|, width, cap - |dst|);
            src' == src[k..] && dst' == dst + src[..k]
  {
    var n := 0;
    src', dst' := src, dst;
    while src' != [] && n < width && |dst'| < cap
      invariant n <= P.Fit(|src|, width, cap - |dst|)
      invariant src' == src[n..] && dst' == dst + src[..n]
    {
      var idx := src'[0];
      src' := src'[1..];
      dst' := dst' + [idx];
      n := n + 1;
      assert src[..n] == src[..n - 1] + [idx];
    }
  }

  method Respond(c: P.Cfg, cycle: int, l1i: seq<(nat, int)>, ifu: seq<nat>)
    returns (l1i': seq<(nat, int)>, ifu': seq<nat>)
    ensures var k := P.Fit(P.Responded(l1i, cycle), c.decode - |ifu|, c.decode - |ifu|);
            l1i' == l1i[k..] && ifu' == ifu + P.Indices(l1i[..k])
  {
    var n := 0;
    l1i', ifu' := l1i, ifu;
    while l1i' != [] && l1i'[0].1 <= cycle && |ifu'| < c.decode
      invariant n <= P.Fit(P.Responded(l1i, cycle), c.decode - |ifu|, c.decode - |ifu|)
      invariant l1i' == l1i[n..] && ifu' == ifu + P.Indices(l1i[..n])
      decreases |l1i'|
    {
      assert l1i'[0] == l1i[n];
      var idx := l1i'[0].0;
      l1i' := l1i'[1..];
      ifu' := ifu' + [idx];
      n := n + 1;
      assert P.Indices(l1i[..n]) == P.Indices(l1i[..n - 1]) + [idx];
    }
  }

  method Request(count: nat, c: P.Cfg, cycle: int, l1i: seq<(nat, int)>, fetchI: nat)
    returns (l1i': seq<(nat, int)>, fetchI': nat)
    ensures var k := P.Fit(P.Max(0, count - fetchI), c.decode - |l1i|, c.decode - |l1i|);
            && l1i' == l1i + seq(k, j requires 0 <= j < k => (fetchI + j, cycle + 1 + c.fetchStage))
            && fetchI' == fetchI + k
  {
    l1i', fetchI' := l1i, fetchI;
    var delay := 1 + c.fetchStage;
    while |l1i'| < c.decode && fetchI' < count
      invariant fetchI <= fetchI' <= fetchI + P.Fit(P.Max(0, count - fetchI), c.decode - |l1i|, c.decode - |l1i|)
      invariant l1i' == l1i + seq(fetchI' - fetchI, j requires 0 <= j < fetchI' - fetchI =>
                                    (fetchI + j, cycle + 1 + c.fetchStage))
    {
      l1i' := l1i' + [(fetchI', cycle + delay)];
      fetchI' := fetchI' + 1;
    }
  }
}
