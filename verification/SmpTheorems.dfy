/** What every interleaving of the shared-counter check keeps, and how it ends. */
module SmpTheorems {
  import opened Arith
  import opened SmpProgram

  // ---------- Sums over threads ----------

  function Sum(threads: seq<Thread>, f: Thread -> nat): nat
    decreases |threads|
  {
    if threads == [] then 0 else Sum(threads[..|threads| - 1], f) + f(threads[|threads| - 1])
  }

  lemma {:induction false} SumUpdate(threads: seq<Thread>, f: Thread -> nat, t: nat, th: Thread)
    requires t < |threads|
    ensures Sum(threads[t := th], f) + f(threads[t]) == Sum(threads, f) + f(th)
    decreases |threads|
  {
    var n := |threads| - 1;
    if t == n {
      assert threads[t := th][..n] == threads[..n];
    } else {
      assert threads[t := th][..n] == threads[..n][t := th];
      SumUpdate(threads[..n], f, t, th);
    }
  }

  lemma {:induction false} SumBounded(threads: seq<Thread>, f: Thread -> nat, bound: nat)
    requires forall t | 0 <= t < |threads| :: f(threads[t]) <= bound
    ensures Sum(threads, f) <= |threads| * bound
    decreases |threads|
  {
    if threads != [] { SumBounded(threads[..|threads| - 1], f, bound); }
  }

  lemma {:induction false} SumConstant(threads: seq<Thread>, f: Thread -> nat, each: nat)
    requires forall t | 0 <= t < |threads| :: f(threads[t]) == each
    ensures Sum(threads, f) == |threads| * each
    decreases |threads|
  {
    if threads != [] { SumConstant(threads[..|threads| - 1], f, each); }
  }

  // ---------- What a thread has completed ----------

  function AmoDone(th: Thread): nat {
    th.iteration + (if th.pc.Load? || th.pc.Cas? || th.pc == Add || th.pc == Cpu then 1 else 0)
  }

  function CasDone(th: Thread): nat {
    th.iteration + (if th.pc == Add || th.pc == Cpu then 1 else 0)
  }

  function AddDone(th: Thread): nat { th.iteration + (if th.pc == Cpu then 1 else 0) }

  function Failures(th: Thread): nat { th.failed }

  predicate ThreadOk(k: nat, t: nat, th: Thread) {
    && th.hart == t
    && th.iteration <= k
    && ((th.pc == Affinity || th.pc == Barrier) ==> th.iteration == 0)
    && ((th.pc == Amo || th.pc == Load || th.pc.Cas? || th.pc == Add || th.pc == Cpu) ==> th.iteration < k)
    && ((th.pc == Final || th.pc == Done) ==> th.iteration == k)
    && th.value == t as real + AddDone(th) as real * 0.5
    && th.failed <= th.iteration + (if th.pc == Affinity then 0 else 1)
  }

  /** A thread about to compare has itself swapped nothing since it read. */
  predicate ReadOk(s: State, t: nat, pc: Pc) {
    pc.Cas? ==>
      && pc.readAt <= |s.winners| && pc.expected == Wrap(pc.readAt)
      && forall w | pc.readAt <= w < |s.winners| :: s.winners[w] != t
  }

  ghost predicate Threads(n: nat, k: nat, s: State) {
    |s.threads| == n && forall t | 0 <= t < n :: ThreadOk(k, t, s.threads[t]) && ReadOk(s, t, s.threads[t].pc)
  }

  ghost predicate Counters(s: State) {
    && s.amoCounter == Wrap(Sum(s.threads, AmoDone))
    && s.casCounter == Wrap(Sum(s.threads, CasDone))
    && |s.winners| == Sum(s.threads, CasDone)
    && s.failures == Wrap(Sum(s.threads, Failures))
  }

  lemma WrapNext(n: nat)
    ensures Wrap(Wrap(n) + 1) == Wrap(n + 1)
  {}

  lemma StepThreads(n: nat, k: nat, s: State, turn: Turn)
    requires Threads(n, k, s) && Counters(s)
    ensures Threads(n, k, Step(k, s, turn))
  {
    hide Sum;
    var t := turn.thread;
    if Enabled(s, t) {
      var u := Step(k, s, turn);
      assert ThreadOk(k, t, s.threads[t]) && ReadOk(s, t, s.threads[t].pc);
      forall j | 0 <= j < n ensures ThreadOk(k, j, u.threads[j]) && ReadOk(u, j, u.threads[j].pc) {
        if j != t { assert ThreadOk(k, j, s.threads[j]) && ReadOk(s, j, s.threads[j].pc); }
      }
    }
  }

  lemma StepCounters(n: nat, k: nat, s: State, turn: Turn)
    requires Threads(n, k, s) && Counters(s)
    ensures Counters(Step(k, s, turn))
  {
    hide Sum, Wrap;
    var t := turn.thread;
    if Enabled(s, t) {
      var th := Step(k, s, turn).threads[t];
      assert ThreadOk(k, t, s.threads[t]) && ReadOk(s, t, s.threads[t].pc);
      SumUpdate(s.threads, AmoDone, t, th);
      SumUpdate(s.threads, CasDone, t, th);
      SumUpdate(s.threads, Failures, t, th);
      WrapNext(Sum(s.threads, AmoDone));
      WrapNext(Sum(s.threads, CasDone));
      WrapNext(Sum(s.threads, Failures));
    }
  }

  lemma {:induction false} RunKeeps(n: nat, k: nat, turns: seq<Turn>)
    ensures Threads(n, k, Run(n, k, turns)) && Counters(Run(n, k, turns))
    decreases |turns|
  {
    if turns == [] {
      SumConstant(Start(n).threads, AmoDone, 0);
      SumConstant(Start(n).threads, CasDone, 0);
      SumConstant(Start(n).threads, Failures, 0);
    } else {
      hide Step, Threads, Counters;
      var init := turns[..|turns| - 1];
      RunKeeps(n, k, init);
      StepThreads(n, k, Run(n, k, init), turns[|turns| - 1]);
      StepCounters(n, k, Run(n, k, init), turns[|turns| - 1]);
    }
  }

  // ---------- No lost updates ----------

  /** In every reachable state each counter is the number of increments completed, modulo the
      word size, and exactly that number when the total cannot overflow. */
  lemma NoLostUpdates(n: nat, k: nat, turns: seq<Turn>)
    ensures var s := Run(n, k, turns);
      && s.amoCounter == Wrap(Sum(s.threads, AmoDone)) && s.casCounter == Wrap(Sum(s.threads, CasDone))
      && (n * k < WORD ==> s.amoCounter == Sum(s.threads, AmoDone) && s.casCounter == Sum(s.threads, CasDone))
  {
    hide Step, Run, Sum;
    var s := Run(n, k, turns);
    RunKeeps(n, k, turns);
    SumBounded(s.threads, AmoDone, k);
    SumBounded(s.threads, CasDone, k);
  }

  /** A swap that fails although it was not spurious has been overtaken: since the expected
      value was read some swap succeeded, and it was another thread's. */
  lemma FailureMeansOvertaken(n: nat, k: nat, turns: seq<Turn>, t: nat)
    requires var s := Run(n, k, turns); t < n == |s.threads| && s.threads[t].pc.Cas?
    requires var s := Run(n, k, turns); s.casCounter != s.threads[t].pc.expected
    ensures var s := Run(n, k, turns); var r := s.threads[t].pc.readAt;
      r < |s.winners| && forall w | r <= w < |s.winners| :: s.winners[w] != t
  {
    hide Step, Run, Sum;
    RunKeeps(n, k, turns);
  }

  /** And without overflow a swap that is not spurious succeeds exactly when nobody has
      overtaken it. */
  lemma SwapsExactlyWhenNotOvertaken(n: nat, k: nat, turns: seq<Turn>, t: nat, c: Choice)
    requires n * k < WORD && !c.spurious
    requires var s := Run(n, k, turns); t < n == |s.threads| && s.threads[t].pc.Cas?
    ensures var s := Run(n, k, turns);
      Swaps(s, s.threads[t].pc.expected, c) <==> s.threads[t].pc.readAt == |s.winners|
  {
    hide Step, Run, Sum;
    var s := Run(n, k, turns);
    RunKeeps(n, k, turns);
    SumBounded(s.threads, CasDone, k);
    assert ReadOk(s, t, s.threads[t].pc);
  }

  // ---------- The barrier ----------

  /** A thread that has not passed the barrier. */
  predicate Early(th: Thread) { th.pc == Affinity || th.pc == Barrier }

  predicate SomeAtAffinity(s: State) { exists t :: 0 <= t < |s.threads| && s.threads[t].pc == Affinity }

  predicate AllEarly(s: State) { forall t | 0 <= t < |s.threads| :: Early(s.threads[t]) }

  lemma BarrierStep(k: nat, s: State, turn: Turn)
    requires SomeAtAffinity(s) ==> AllEarly(s)
    ensures SomeAtAffinity(Step(k, s, turn)) ==> AllEarly(Step(k, s, turn))
  {
    var u := Step(k, s, turn);
    if t :| 0 <= t < |u.threads| && u.threads[t].pc == Affinity { assert s.threads[t].pc == Affinity; }
  }

  lemma {:induction false} BarrierHolds(n: nat, k: nat, turns: seq<Turn>)
    ensures var s := Run(n, k, turns); SomeAtAffinity(s) ==> AllEarly(s)
    decreases |turns|
  {
    if turns != [] {
      hide Step, SomeAtAffinity, AllEarly;
      BarrierHolds(n, k, turns[..|turns| - 1]);
      BarrierStep(k, Run(n, k, turns[..|turns| - 1]), turns[|turns| - 1]);
    }
  }

  /** In every schedule, as long as some thread has not set its affinity nobody has passed the
      barrier: both counters are 0, no swap has happened and every value is the thread's number. */
  lemma NobodyStartsEarly(n: nat, k: nat, turns: seq<Turn>)
    requires SomeAtAffinity(Run(n, k, turns))
    ensures var s := Run(n, k, turns);
      && s.amoCounter == 0 && s.casCounter == 0 && s.winners == [] && |s.threads| == n
      && forall t | 0 <= t < n :: s.threads[t].pc in {Affinity, Barrier}
                                  && s.threads[t].iteration == 0 && s.threads[t].value == t as real
  {
    hide Step, Run, Sum;
    var s := Run(n, k, turns);
    RunKeeps(n, k, turns);
    BarrierHolds(n, k, turns);
    forall t | 0 <= t < n ensures ThreadOk(k, t, s.threads[t]) && Early(s.threads[t]) {}
    SumConstant(s.threads, AmoDone, 0);
    SumConstant(s.threads, CasDone, 0);
  }

  /** And nothing else holds a thread back: outside the compare-and-swap its turn changes it exactly
      when it is not done and, at the barrier, every thread has set its affinity. */
  lemma TurnsTakeEffect(k: nat, s: State, turn: Turn)
    requires turn.thread < |s.threads| && !s.threads[turn.thread].pc.Cas?
    ensures var th := s.threads[turn.thread];
      Step(k, s, turn).threads[turn.thread].pc != th.pc
      <==> th.pc != Done && (th.pc == Barrier ==> forall t | 0 <= t < |s.threads| :: s.threads[t].pc != Affinity)
    ensures forall t | 0 <= t < |s.threads| && t != turn.thread :: Step(k, s, turn).threads[t] == s.threads[t]
  {}

  // ---------- The end ----------

  lemma WrapSmall(m: nat)
    ensures m < WORD ==> Wrap(m) == m
  {}

  lemma DoneTotals(n: nat, k: nat, s: State)
    requires Threads(n, k, s) && AllDone(s)
    ensures Sum(s.threads, AmoDone) == n * k && Sum(s.threads, CasDone) == n * k
    ensures Sum(s.threads, Failures) <= n * (k + 1)
    ensures forall t | 0 <= t < n :: s.threads[t].value == t as real + k as real * 0.5
  {
    hide Sum;
    forall t | 0 <= t < n ensures ThreadOk(k, t, s.threads[t]) {}
    SumConstant(s.threads, AmoDone, k);
    SumConstant(s.threads, CasDone, k);
    SumBounded(s.threads, Failures, k + 1);
  }

  /** Once every thread has finished, both counters have their full value and only a failed
      affinity call or a thread seen on another processor makes the check fail. */
  lemma ExitsByFailuresAlone(n: nat, k: nat, turns: seq<Turn>)
    requires AllDone(Run(n, k, turns))
    ensures var s := Run(n, k, turns);
      && |s.threads| == n
      && s.amoCounter == Wrap(n * k) && s.casCounter == Wrap(n * k) && |s.winners| == n * k
      && (forall t | 0 <= t < n :: s.threads[t].value == t as real + k as real * 0.5)
      && (ExitCode(s, n, k) == 0 <==> Wrap(Sum(s.threads, Failures)) == 0)
      && (n * (k + 1) < WORD ==> (ExitCode(s, n, k) == 0 <==> forall t | 0 <= t < n :: s.threads[t].failed == 0))
  {
    hide Step, Run, Sum, Wrap, ThreadOk, ReadOk;
    var s := Run(n, k, turns);
    RunKeeps(n, k, turns);
    DoneTotals(n, k, s);
    WrapSmall(Sum(s.threads, Failures));
    NoneFailed(s.threads);
  }

  lemma {:induction false} NoneFailed(threads: seq<Thread>)
    ensures Sum(threads, Failures) == 0 <==> forall t | 0 <= t < |threads| :: threads[t].failed == 0
    decreases |threads|
  {
    if threads != [] { NoneFailed(threads[..|threads| - 1]); }
  }

  /** A turn in which setting the affinity fails, or a thread is found off its own processor in an
      iteration that looks. */
  predicate BadTurn(s: State, turn: Turn) {
    && Enabled(s, turn.thread)
    && (var th := s.threads[turn.thread];
        || (th.pc == Affinity && !turn.choice.affinityOk)
        || (th.pc == Cpu && th.iteration % 128 == 0 && !turn.choice.onCpu))
  }

  function BadTurns(n: nat, k: nat, turns: seq<Turn>): nat
    decreases |turns|
  {
    if turns == [] then 0
    else
      var init := turns[..|turns| - 1];
      BadTurns(n, k, init) + (if BadTurn(Run(n, k, init), turns[|turns| - 1]) then 1 else 0)
  }

  lemma StepCountsBadTurn(n: nat, k: nat, s: State, turn: Turn)
    requires Threads(n, k, s)
    ensures Sum(Step(k, s, turn).threads, Failures) == Sum(s.threads, Failures) + (if BadTurn(s, turn) then 1 else 0)
  {
    hide Sum, Wrap;
    var t := turn.thread;
    if Enabled(s, t) {
      assert ThreadOk(k, t, s.threads[t]);
      SumUpdate(s.threads, Failures, t, Step(k, s, turn).threads[t]);
    }
  }

  /** The failures counted are exactly the bad turns: the comparison of the value never adds one. */
  lemma {:induction false} FailuresAreBadTurns(n: nat, k: nat, turns: seq<Turn>)
    ensures Sum(Run(n, k, turns).threads, Failures) == BadTurns(n, k, turns)
    decreases |turns|
  {
    if turns == [] {
      SumConstant(Start(n).threads, Failures, 0);
    } else {
      hide Step, BadTurn, Sum, Threads;
      var init := turns[..|turns| - 1];
      FailuresAreBadTurns(n, k, init);
      RunKeeps(n, k, init);
      StepCountsBadTurn(n, k, Run(n, k, init), turns[|turns| - 1]);
    }
  }

  /** The check passes if and only if its schedule has no bad turn. */
  lemma PassesWithoutBadTurns(n: nat, k: nat, turns: seq<Turn>)
    requires AllDone(Run(n, k, turns)) && n * (k + 1) < WORD
    ensures ExitCode(Run(n, k, turns), n, k) == 0 <==> BadTurns(n, k, turns) == 0
  {
    hide Step, Run, Sum, Wrap, BadTurn, Threads, Counters;
    ExitsByFailuresAlone(n, k, turns);
    FailuresAreBadTurns(n, k, turns);
    NoneFailed(Run(n, k, turns).threads);
  }

  // ---------- Progress ----------

  /** Steps a thread still has to take, not counting failed swaps. */
  function Rank(k: nat, th: Thread): int {
    var left := 6 * (k - th.iteration);
    match th.pc
    case Affinity => left + 4
    case Barrier => left + 3
    case Loop => left + 2
    case Amo => left + 1
    case Load => left
    case Cas(_, _) => left - 1
    case Add => left - 2
    case Cpu => left - 3
    case Final => 1
    case Done => 0
  }

  function RankOf(k: nat): Thread -> nat {
    (th: Thread) => if Rank(k, th) < 0 then 0 else Rank(k, th)
  }

  /** About to compare with a value read before the last success. */
  function Stale(successes: nat): Thread -> nat {
    (th: Thread) => if th.pc.Cas? && th.pc.readAt < successes then 1 else 0
  }

  ghost function Measure(k: nat, s: State): int {
    Sum(s.threads, RankOf(k)) * |s.threads| + Sum(s.threads, Stale(|s.winners|))
  }

  predicate Spurious(s: State, turn: Turn) {
    && turn.thread < |s.threads| && s.threads[turn.thread].pc.Cas?
    && s.casCounter == s.threads[turn.thread].pc.expected && turn.choice.spurious
  }

  /** A step that does something, other than failing for no reason. */
  predicate Effective(s: State, turn: Turn) { Enabled(s, turn.thread) && !Spurious(s, turn) }

  lemma {:induction false} StaleAfterSuccess(threads: seq<Thread>, m: nat)
    ensures Sum(threads, Stale(m + 1)) <= |threads|
    decreases |threads|
  {
    if threads != [] { StaleAfterSuccess(threads[..|threads| - 1], m); }
  }

  lemma RankDrops(k: nat, t: nat, s: State, turn: Turn)
    requires turn.thread == t && Enabled(s, t) && ThreadOk(k, t, s.threads[t])
    ensures var th, th' := s.threads[t], Step(k, s, turn).threads[t];
      && RankOf(k)(th) == Rank(k, th) && RankOf(k)(th') == Rank(k, th')
      && (if th.pc.Cas? && th'.pc.Cas? then Rank(k, th') == Rank(k, th) else Rank(k, th') == Rank(k, th) - 1)
  {}

  /** A failed swap that is not spurious was stale and is not any more; a success adds a winner. */
  lemma StaleAfterStep(n: nat, k: nat, s: State, turn: Turn)
    requires Threads(n, k, s) && Counters(s) && Effective(s, turn)
    ensures var t := turn.thread; var u := Step(k, s, turn); var th, th', m := s.threads[t], u.threads[t], |s.winners|;
      && u.threads == s.threads[t := th']
      && (|u.winners| == m || (|u.winners| == m + 1 && !th'.pc.Cas?))
      && (|u.winners| == m ==> Stale(m)(th') <= Stale(m)(th))
      && (th.pc.Cas? && th'.pc.Cas? ==> |u.winners| == m && Stale(m)(th') < Stale(m)(th))
  {
    hide Sum, Wrap;
    var t := turn.thread;
    assert ThreadOk(k, t, s.threads[t]) && ReadOk(s, t, s.threads[t].pc);
  }

  /** Every step that is not a spurious failure lowers the measure: a swap overtaken is paid for
      by the swap that overtook it. */
  lemma EffectiveStepsDescend(n: nat, k: nat, s: State, turn: Turn)
    requires Threads(n, k, s) && Counters(s) && Effective(s, turn)
    ensures 0 <= Measure(k, Step(k, s, turn)) < Measure(k, s)
  {
    hide Sum, Wrap, Rank, Step, ReadOk, Counters, Stale, RankOf;
    var t := turn.thread;
    var u := Step(k, s, turn);
    assert ThreadOk(k, t, s.threads[t]);
    RankDrops(k, t, s, turn);
    StaleAfterStep(n, k, s, turn);
    SumUpdate(s.threads, RankOf(k), t, u.threads[t]);
    SumUpdate(s.threads, Stale(|s.winners|), t, u.threads[t]);
    if |u.winners| != |s.winners| { FreshWinner(u.threads, |s.winners|, t); }
    Descends(n, Sum(s.threads, RankOf(k)), Sum(u.threads, RankOf(k)),
             Sum(s.threads, Stale(|s.winners|)), Sum(u.threads, Stale(|u.winners|)));
  }

  lemma Descends(n: nat, w: nat, w': nat, x: nat, x': nat)
    requires (w' < w && (x' <= x || x' < n)) || (w' == w && x' < x)
    requires n > 0
    ensures w' * n + x' < w * n + x
  {
    if w' < w { MulGap(w', w, n); }
  }

  lemma {:induction false} FreshWinner(threads: seq<Thread>, m: nat, t: nat)
    requires t < |threads| && !threads[t].pc.Cas?
    ensures Sum(threads, Stale(m + 1)) < |threads|
    decreases |threads|
  {
    var n := |threads| - 1;
    if t < n { FreshWinner(threads[..n], m, t); } else { StaleAfterSuccess(threads[..n], m); }
  }

  /** Until every thread has finished, some thread can take a step that is not spurious. */
  lemma NoDeadlock(s: State)
    requires !AllDone(s)
    ensures exists turn :: Effective(s, turn)
  {
    var calm := Choice(true, false, true);
    if BarrierOpen(s) {
      var t :| 0 <= t < |s.threads| && s.threads[t].pc != Done;
      assert Effective(s, Turn(t, calm));
    } else {
      var t :| 0 <= t < |s.threads| && s.threads[t].pc == Affinity;
      assert Effective(s, Turn(t, calm));
    }
  }

  /** How many of a schedule's turns were effective. */
  ghost function EffectiveTurns(n: nat, k: nat, turns: seq<Turn>): nat
    decreases |turns|
  {
    if turns == [] then 0
    else
      var init := turns[..|turns| - 1];
      EffectiveTurns(n, k, init) + (if Effective(Run(n, k, init), turns[|turns| - 1]) then 1 else 0)
  }

  /** A spurious failure never raises the measure. */
  lemma SpuriousStepsKeep(n: nat, k: nat, s: State, turn: Turn)
    requires Threads(n, k, s) && Counters(s) && !Effective(s, turn)
    ensures 0 <= Measure(k, Step(k, s, turn)) <= Measure(k, s)
  {
    hide Sum, Wrap, Rank;
    var t := turn.thread;
    if Enabled(s, t) {
      var th := Step(k, s, turn).threads[t];
      assert ThreadOk(k, t, s.threads[t]) && ReadOk(s, t, s.threads[t].pc);
      RankDrops(k, t, s, turn);
      SumUpdate(s.threads, RankOf(k), t, th);
      SumUpdate(s.threads, Stale(|s.winners|), t, th);
    }
  }

  lemma MeasureAtStart(n: nat, k: nat)
    ensures Measure(k, Start(n)) == n * (6 * k + 4) * n
  {
    SumConstant(Start(n).threads, RankOf(k), 6 * k + 4);
    SumConstant(Start(n).threads, Stale(0), 0);
  }

  lemma {:induction false} WorkIsPaidFor(n: nat, k: nat, turns: seq<Turn>)
    ensures 0 <= Measure(k, Run(n, k, turns))
    ensures Measure(k, Run(n, k, turns)) + EffectiveTurns(n, k, turns) <= n * (6 * k + 4) * n
    decreases |turns|
  {
    MeasureAtStart(n, k);
    if turns != [] {
      hide Step, Measure, Effective, Threads, Counters;
      var init, turn := turns[..|turns| - 1], turns[|turns| - 1];
      WorkIsPaidFor(n, k, init);
      RunKeeps(n, k, init);
      if Effective(Run(n, k, init), turn) {
        EffectiveStepsDescend(n, k, Run(n, k, init), turn);
      } else {
        SpuriousStepsKeep(n, k, Run(n, k, init), turn);
      }
    }
  }

  /** Whatever the schedule, steps other than spurious failures are bounded, failed swaps
      included, and a schedule to which none can be added has finished every thread. */
  lemma EverySchedulesWorkIsBounded(n: nat, k: nat, turns: seq<Turn>)
    ensures EffectiveTurns(n, k, turns) <= n * (6 * k + 4) * n
    ensures (forall turn :: !Effective(Run(n, k, turns), turn)) ==> AllDone(Run(n, k, turns))
  {
    hide Measure, Run, Effective;
    WorkIsPaidFor(n, k, turns);
    if !AllDone(Run(n, k, turns)) { NoDeadlock(Run(n, k, turns)); }
  }
}
