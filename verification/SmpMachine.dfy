/** The shared-counter check as mutable shared memory that threads take turns to change. */
module SmpMachine {
  import opened SmpProgram
  import opened SmpTheorems

  class Machine {
    const iterations: nat
    const harts: nat
    var amoCounter: nat
    var casCounter: nat
    var failures: nat
    var threads: seq<Thread>
    ghost var winners: seq<nat>

    ghost function Snapshot(): State
      reads this
    {
      State(amoCounter, casCounter, failures, threads, winners)
    }

    constructor (harts: nat, iterations: nat)
      ensures this.harts == harts && this.iterations == iterations && Snapshot() == Start(harts)
    {
      this.harts, this.iterations := harts, iterations;
      amoCounter, casCounter, failures := 0, 0, 0;
      threads := seq(harts, h requires 0 <= h < harts => FirstThread(h));
      winners := [];
    }

    /** fetch_add on the failure count. */
    method Fail(t: nat)
      requires t < |threads|
      modifies this`failures, this`threads
      ensures failures == Wrap(old(failures) + 1)
      ensures threads == old(threads)[t := old(threads)[t].(failed := old(threads)[t].failed + 1)]
    {
      failures := (failures + 1) % WORD;
      threads := threads[t := threads[t].(failed := threads[t].failed + 1)];
    }

    method Goto(t: nat, pc: Pc)
      requires t < |threads|
      modifies this`threads
      ensures threads == old(threads)[t := old(threads)[t].(pc := pc)]
    {
      threads := threads[t := threads[t].(pc := pc)];
    }

    /** Thread t takes its next step, if it can; `swaps` is how many swaps have succeeded, which
        the thread remembers with the value it reads. */
    method Take(turn: Turn, swaps: nat) returns (swapped: bool)
      requires swaps == |winners|
      modifies this
      ensures Snapshot() == Step(iterations, old(Snapshot()), turn)
      ensures swapped <==> winners != old(winners)
      ensures swapped ==> |winners| == swaps + 1
    {
      var t := turn.thread;
      swapped := false;
      if t >= |threads| || threads[t].pc == Done { return; }
      var th := threads[t];
      match th.pc
      case Affinity =>
        if !turn.choice.affinityOk { Fail(t); }
        Goto(t, Barrier);
      case Barrier =>
        if exists j | 0 <= j < |threads| :: threads[j].pc == Affinity { return; }
        Goto(t, Loop);
      case Loop =>
        if th.iteration < iterations { Goto(t, Amo); } else { Goto(t, Final); }
      case Amo =>
        amoCounter := (amoCounter + 1) % WORD;
        Goto(t, Load);
      case Load =>
        Goto(t, Cas(casCounter, swaps));
      case Cas(expected, _) =>
        if casCounter == expected && !turn.choice.spurious {
          casCounter := (expected + 1) % WORD;
          winners := winners + [t];
          swapped := true;
          Goto(t, Add);
        } else {
          Goto(t, Cas(casCounter, swaps));
        }
      case Add =>
        threads := threads[t := th.(pc := Cpu, value := th.value + 0.5)];
      case Cpu =>
        if th.iteration % 128 == 0 && !turn.choice.onCpu { Fail(t); }
        threads := threads[t := threads[t].(pc := Loop, iteration := th.iteration + 1)];
      case Final =>
        if th.value != th.hart as real + iterations as real * 0.5 { Fail(t); }
        Goto(t, Done);
    }

    /** Join every thread and compare: 5 when the check fails, 0 when it passes. */
    method Join() returns (code: nat)
      requires exists turns :: Snapshot() == Run(harts, iterations, turns)
      requires AllDone(Snapshot())
      ensures code == 0 || code == 5
      ensures harts * (iterations + 1) < WORD ==> (code == 0 <==> forall t | 0 <= t < |threads| :: threads[t].failed == 0)
    {
      hide Run, Step, Sum;
      ghost var turns :| Snapshot() == Run(harts, iterations, turns);
      ExitsByFailuresAlone(harts, iterations, turns);
      var all := (harts * iterations) % WORD;
      code := if failures != 0 || amoCounter != all || casCounter != all then 5 else 0;
    }
  }

  /** The program under a given schedule. */
  method RunSchedule(harts: nat, iterations: nat, turns: seq<Turn>) returns (m: Machine)
    ensures fresh(m) && m.Snapshot() == Run(harts, iterations, turns)
  {
    m := new Machine(harts, iterations);
    var swaps := 0;
    for i := 0 to |turns|
      invariant m.iterations == iterations && swaps == |m.winners|
      invariant m.Snapshot() == Run(harts, iterations, turns[..i])
    {
      hide Step;
      assert turns[..i + 1][..i] == turns[..i];
      var swapped := m.Take(turns[i], swaps);
      if swapped { swaps := swaps + 1; }
    }
    assert turns[..|turns|] == turns;
  }
}
