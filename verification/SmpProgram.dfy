/** The shared-counter check: any number of threads, each incrementing one counter by an atomic
    add and another by a compare-and-swap loop, interleaved one atomic step at a time. */
module SmpProgram {
  const WORD := 0x1_0000_0000

  /** Where a thread is: about to set its affinity, wait at the barrier, test its loop, add
      atomically, load, compare and swap, add to its value, look at its processor, or compare
      its value.  A compare-and-swap holds the value expected and, as a record of the past, how
      many swaps had succeeded when that value was read. */
  datatype Pc = Affinity | Barrier | Loop | Amo | Load | Cas(expected: nat, readAt: nat) | Add | Cpu | Final | Done

  datatype Thread = Thread(hart: nat, pc: Pc, iteration: nat, value: real, failed: nat)

  /** The shared atomics are 32-bit; `winners` records whose swaps succeeded, in order. */
  datatype State = State(amoCounter: nat, casCounter: nat, failures: nat, threads: seq<Thread>, winners: seq<nat>)

  /** What a step does not decide itself: whether setting the affinity works, whether a swap
      fails although it could succeed, and whether the thread runs on its own processor. */
  datatype Choice = Choice(affinityOk: bool, spurious: bool, onCpu: bool)

  datatype Turn = Turn(thread: nat, choice: Choice)

  function Wrap(n: nat): nat { n % WORD }

  function FirstThread(hart: nat): Thread { Thread(hart, Affinity, 0, hart as real, 0) }

  function Start(n: nat): State { State(0, 0, 0, seq(n, h requires 0 <= h < n => FirstThread(h)), []) }

  predicate BarrierOpen(s: State) { forall t | 0 <= t < |s.threads| :: s.threads[t].pc != Affinity }

  /** Whether a thread's next step can happen. */
  predicate Enabled(s: State, t: nat) {
    t < |s.threads| && s.threads[t].pc != Done && (s.threads[t].pc == Barrier ==> BarrierOpen(s))
  }

  function With(s: State, t: nat, th: Thread): State
    requires t < |s.threads|
  {
    s.(threads := s.threads[t := th])
  }

  function Failed(s: State, t: nat, th: Thread): State
    requires t < |s.threads|
  {
    With(s, t, th.(failed := th.failed + 1)).(failures := Wrap(s.failures + 1))
  }

  /** Whether the swap of a thread about to compare succeeds. */
  predicate Swaps(s: State, expected: nat, c: Choice) { s.casCounter == expected && !c.spurious }

  function ThreadStep(k: nat, s: State, t: nat, c: Choice): State
    requires t < |s.threads|
  {
    var th := s.threads[t];
    match th.pc
    case Affinity => if c.affinityOk then With(s, t, th.(pc := Barrier)) else Failed(s, t, th.(pc := Barrier))
    case Barrier => With(s, t, th.(pc := Loop))
    case Loop => With(s, t, th.(pc := if th.iteration < k then Amo else Final))
    case Amo => With(s, t, th.(pc := Load)).(amoCounter := Wrap(s.amoCounter + 1))
    case Load => With(s, t, th.(pc := Cas(s.casCounter, |s.winners|)))
    case Cas(expected, _) =>
      if Swaps(s, expected, c)
      then With(s, t, th.(pc := Add)).(casCounter := Wrap(expected + 1), winners := s.winners + [t])
      else With(s, t, th.(pc := Cas(s.casCounter, |s.winners|)))
    case Add => With(s, t, th.(pc := Cpu, value := th.value + 0.5))
    case Cpu =>
      var next := th.(pc := Loop, iteration := th.iteration + 1);
      if th.iteration % 128 == 0 && !c.onCpu then Failed(s, t, next) else With(s, t, next)
    case Final =>
      if th.value != th.hart as real + k as real * 0.5 then Failed(s, t, th.(pc := Done)) else With(s, t, th.(pc := Done))
    case Done => s
  }

  function Step(k: nat, s: State, turn: Turn): State {
    if Enabled(s, turn.thread) then ThreadStep(k, s, turn.thread, turn.choice) else s
  }

  function Run(n: nat, k: nat, turns: seq<Turn>): State
    decreases |turns|
  {
    if turns == [] then Start(n) else Step(k, Run(n, k, turns[..|turns| - 1]), turns[|turns| - 1])
  }

  predicate AllDone(s: State) { forall t | 0 <= t < |s.threads| :: s.threads[t].pc == Done }

  /** The exit status once every thread has been joined. */
  function ExitCode(s: State, n: nat, k: nat): nat {
    if s.failures != 0 || s.amoCounter != Wrap(n * k) || s.casCounter != Wrap(n * k) then 5 else 0
  }
}
