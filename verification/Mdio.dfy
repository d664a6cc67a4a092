/** The serialiser that writes three management frames after every reset, most significant bit
    first, one bit per period of the management clock. */
module Mdio {
  import opened Arith

  datatype Config = Config(settleCycles: nat, halfPeriod: nat, gigabit: bool)

  predicate ValidConfig(c: Config) { c.settleCycles >= 1 && c.halfPeriod >= 1 }

  /** The n low bits of a number, most significant first. */
  function Bits(v: nat, n: nat): (b: seq<bool>)
    ensures |b| == n
  {
    if n == 0 then [] else Bits(v / 2, n - 1) + [v % 2 == 1]
  }

  function Ones(n: nat): (b: seq<bool>)
    ensures |b| == n && forall i | 0 <= i < n :: b[i]
  {
    seq(n, _ => true)
  }

  /** The 64-bit number that is shifted out for one write. */
  function FrameNumber(register: nat, value: nat): nat {
    0xFFFF_FFFF * 0x1_0000_0000 + 0x5 * 0x1000_0000 + register * 0x4_0000 + 0x2 * 0x1_0000 + value
  }

  /** The three writes: gigabit advertisement, other advertisement, restart of negotiation. */
  function FrameOf(c: Config, transaction: nat): (b: seq<bool>)
    ensures |b| == 64
  {
    if transaction == 0 then Bits(FrameNumber(9, if c.gigabit then 0x0200 else 0x0000), 64)
    else if transaction == 1 then Bits(FrameNumber(4, if c.gigabit then 0x0001 else 0x0101), 64)
    else Bits(FrameNumber(0, 0x1200), 64)
  }

  datatype Registers = Registers(
    settle: nat, divider: nat, bit: nat, transaction: nat, done: bool, mdc: bool, shift: seq<bool>)

  function ResetState(c: Config): Registers { Registers(c.settleCycles, 0, 0, 0, false, false, FrameOf(c, 0)) }

  /** At power-up the shift register holds zeros. */
  function PowerUp(c: Config): Registers { ResetState(c).(shift := seq(64, _ => false)) }

  function Data(r: Registers): bool { r.shift != [] && r.shift[0] }

  function Enabled(r: Registers, reset: bool): bool { !r.done && r.settle == 0 && !reset }

  function ShiftLeft(s: seq<bool>): seq<bool> { if s == [] then s else s[1..] + [true] }

  /** The end of a bit: the next bit, the next frame, or done. */
  function EndBit(c: Config, r: Registers): Registers {
    if r.bit == 63 then
      if r.transaction == 2 then r.(bit := 0, done := true)
      else r.(bit := 0, transaction := r.transaction + 1, shift := FrameOf(c, r.transaction + 1))
    else r.(bit := r.bit + 1, shift := ShiftLeft(r.shift))
  }

  function Tick(c: Config, r: Registers, reset: bool): Registers {
    if reset then ResetState(c)
    else if r.settle != 0 then r.(settle := r.settle - 1, shift := FrameOf(c, 0))
    else if r.done then r
    else if r.divider + 1 == c.halfPeriod then
      (if r.mdc then EndBit(c, r) else r).(divider := 0, mdc := !r.mdc)
    else r.(divider := r.divider + 1)
  }

  /** The registers k cycles after reset is released. */
  function Run(c: Config, start: Registers, k: nat): Registers
    decreases k
  {
    if k == 0 then start else Tick(c, Run(c, start, k - 1), false)
  }

  /** The bits on the wire at rising edges of the clock while the output is enabled. */
  function Sampled(c: Config, start: Registers, k: nat): seq<bool>
    decreases k
  {
    if k == 0 then []
    else
      var before, after := Run(c, start, k - 1), Run(c, start, k);
      Sampled(c, start, k - 1) + (if !before.mdc && after.mdc && Enabled(before, false) then [Data(before)] else [])
  }

  function AllBits(c: Config): (b: seq<bool>)
    ensures |b| == 192
  {
    FrameOf(c, 0) + FrameOf(c, 1) + FrameOf(c, 2)
  }

  // ---------- The layout of a management frame ----------

  lemma Double(a: nat, p: nat)
    ensures a * (2 * p) == 2 * (a * p)
  {}

  lemma HalfOf(v: nat, half: nat, low: nat)
    requires v == 2 * half + low % 2
    ensures v / 2 == half && v % 2 == low % 2
  {}

  /** High bits and low bits are written one after the other. */
  lemma {:induction false} BitsSplit(high: nat, low: nat, m: nat, n: nat)
    requires low < Pow2(n)
    ensures Bits(high * Pow2(n) + low, m + n) == Bits(high, m) + Bits(low, n)
    decreases n
  {
    if n > 0 {
      var v, half := high * Pow2(n) + low, high * Pow2(n - 1) + low / 2;
      Double(high, Pow2(n - 1));
      HalfOf(v, half, low);
      BitsSplit(high, low / 2, m, n - 1);
      assert Bits(v, m + n) == Bits(half, m + n - 1) + [low % 2 == 1];
    } else {
      assert high * Pow2(0) + low == high;
      assert Bits(high, m) + Bits(low, 0) == Bits(high, m);
    }
  }

  lemma {:induction false} BitsOfOnes(n: nat)
    ensures Bits(Pow2(n) - 1, n) == Ones(n)
  {
    if n > 0 {
      BitsOfOnes(n - 1);
      assert (Pow2(n) - 1) / 2 == Pow2(n - 1) - 1;
    }
  }

  lemma Powers()
    ensures Pow2(5) == 0x20 && Pow2(2) == 4 && Pow2(4) == 0x10 && Pow2(16) == 0x1_0000
    ensures Pow2(18) == 0x4_0000 && Pow2(23) == 0x80_0000 && Pow2(28) == 0x1000_0000 && Pow2(32) == 0x1_0000_0000
  {
    assert Pow2(8) == 0x100;
    assert Pow2(16) == 0x1_0000;
    assert Pow2(23) == 0x80_0000;
    assert Pow2(28) == 0x1000_0000;
  }

  /** Preamble of 32 ones, start 01, write 01, address 0, register, turnaround 10, value. */
  lemma FrameLayout(register: nat, value: nat)
    requires register < 0x20 && value < 0x1_0000
    ensures Bits(FrameNumber(register, value), 64)
            == Ones(32) + Bits(0x5, 4) + Bits(0, 5) + Bits(register, 5) + Bits(0x2, 2) + Bits(value, 16)
    ensures Bits(0x5, 4) == [false, true, false, true] && Bits(0x2, 2) == [true, false]
  {
    hide Bits, Pow2;
    Powers();
    var r16 := value;
    var r18 := 0x2 * 0x1_0000 + value;
    var r23 := register * 0x4_0000 + r18;
    var r28 := 0 * 0x80_0000 + r23;
    var r32 := 0x5 * 0x1000_0000 + r28;
    BitsSplit(0xFFFF_FFFF, r32, 32, 32);
    BitsSplit(0x5, r28, 4, 28);
    BitsSplit(0, r23, 5, 23);
    BitsSplit(register, r18, 5, 18);
    BitsSplit(0x2, r16, 2, 16);
    BitsOfOnes(32);
    Constants();
  }

  lemma Constants()
    ensures Bits(0x5, 4) == [false, true, false, true] && Bits(0x2, 2) == [true, false]
  {}

  // ---------- Where the serialiser is after so many cycles ----------

  /** After e half periods and d cycles of the next. */
  function At(c: Config, e: nat, d: nat): Registers {
    var b := e / 2;
    Registers(0, d, b % 64, b / 64, false, e % 2 == 1, FrameOf(c, b / 64)[b % 64..] + Ones(b % 64))
  }

  function Finished(c: Config): Registers { Registers(0, 0, 0, 2, true, false, FrameOf(c, 2)[63..] + Ones(63)) }

  function Position(c: Config, e: nat, d: nat): nat { c.settleCycles + e * c.halfPeriod + d }

  lemma ShiftOnce(f: seq<bool>, i: nat)
    requires |f| == 64 && i < 63
    ensures ShiftLeft(f[i..] + Ones(i)) == f[i + 1..] + Ones(i + 1)
  {}

  lemma StepFrom(c: Config, e: nat, d: nat)
    requires ValidConfig(c) && e < 384 && d < c.halfPeriod
    ensures Tick(c, At(c, e, d), false) ==
            if d + 1 < c.halfPeriod then At(c, e, d + 1) else if e == 383 then Finished(c) else At(c, e + 1, 0)
  {
    hide FrameOf;
    var b := e / 2;
    if d + 1 == c.halfPeriod && e % 2 == 1 {
      assert (e + 1) / 2 == b + 1;
      if b % 64 < 63 {
        ShiftOnce(FrameOf(c, b / 64), b % 64);
      } else if e < 383 {
        assert FrameOf(c, b / 64 + 1)[0..] + Ones(0) == FrameOf(c, b / 64 + 1);
      }
    } else if d + 1 == c.halfPeriod {
      assert (e + 1) / 2 == b;
    }
  }

  lemma Settled(c: Config)
    requires ValidConfig(c)
    ensures At(c, 0, 0) == Registers(0, 0, 0, 0, false, false, FrameOf(c, 0))
  {
    assert FrameOf(c, 0)[0..] + Ones(0) == FrameOf(c, 0);
  }

  lemma {:induction false} Settling(c: Config, start: Registers, k: nat)
    requires ValidConfig(c) && (start == ResetState(c) || start == PowerUp(c)) && 1 <= k <= c.settleCycles
    ensures Run(c, start, k) == ResetState(c).(settle := c.settleCycles - k)
    ensures Sampled(c, start, k) == []
    decreases k
  {
    hide FrameOf;
    if k > 1 { Settling(c, start, k - 1); }
    assert Run(c, start, k) == Tick(c, Run(c, start, k - 1), false);
    assert Run(c, start, 0) == start && Sampled(c, start, 0) == [];
  }

  /** Every state of the transmission, and what has been sampled by then. */
  lemma {:induction false} Sending(c: Config, start: Registers, e: nat, d: nat)
    requires ValidConfig(c) && (start == ResetState(c) || start == PowerUp(c)) && e < 384 && d < c.halfPeriod
    ensures Run(c, start, Position(c, e, d)) == At(c, e, d)
    ensures Sampled(c, start, Position(c, e, d)) == AllBits(c)[..(e + 1) / 2]
    decreases e, d
  {
    hide At, Tick, FrameOf, AllBits;
    if e == 0 && d == 0 {
      Settling(c, start, c.settleCycles);
      Settled(c);
      assert AllBits(c)[..0] == [];
    } else if d > 0 {
      Sending(c, start, e, d - 1);
      StepFrom(c, e, d - 1);
      ClockSteady(c, e, d - 1);
    } else {
      Sending(c, start, e - 1, c.halfPeriod - 1);
      StepFrom(c, e - 1, c.halfPeriod - 1);
      MulDistributes(e - 1, 1, c.halfPeriod);
      assert Position(c, e, 0) - 1 == Position(c, e - 1, c.halfPeriod - 1);
      Edge(c, e);
    }
  }

  lemma ClockSteady(c: Config, e: nat, d: nat)
    ensures At(c, e, d).mdc == At(c, e, d + 1).mdc
  {}

  /** Half period e begins with a rising edge when e is odd, and the bit on the wire then is the
      next one to be sent. */
  lemma Edge(c: Config, e: nat)
    requires ValidConfig(c) && 0 < e < 384
    ensures var before := At(c, e - 1, c.halfPeriod - 1);
      AllBits(c)[..(e + 1) / 2] ==
        AllBits(c)[..e / 2] + (if !before.mdc && At(c, e, 0).mdc && Enabled(before, false) then [Data(before)] else [])
  {
    hide FrameOf;
    var b := (e - 1) / 2;
    if e % 2 == 1 {
      assert (e + 1) / 2 == b + 1 && e / 2 == b;
      assert AllBits(c)[b] == FrameOf(c, b / 64)[b % 64];
      assert (FrameOf(c, b / 64)[b % 64..] + Ones(b % 64))[0] == FrameOf(c, b / 64)[b % 64];
    } else {
      assert (e + 1) / 2 == e / 2;
    }
  }

  /** Done exactly 384 half periods after settling, with all bits sampled, and not before. */
  lemma {:induction false} SendsEverything(c: Config, start: Registers, k: nat)
    requires ValidConfig(c) && (start == ResetState(c) || start == PowerUp(c))
    requires k >= c.settleCycles + 384 * c.halfPeriod
    ensures Run(c, start, k) == Finished(c) && Sampled(c, start, k) == AllBits(c)
    decreases k
  {
    hide FrameOf, AllBits, At;
    if k == c.settleCycles + 384 * c.halfPeriod {
      Sending(c, start, 383, c.halfPeriod - 1);
      StepFrom(c, 383, c.halfPeriod - 1);
      assert Position(c, 383, c.halfPeriod - 1) == k - 1;
      AllSampled(c);
    } else {
      SendsEverything(c, start, k - 1);
      assert Tick(c, Finished(c), false) == Finished(c);
    }
  }

  lemma AllSampled(c: Config)
    requires ValidConfig(c)
    ensures AllBits(c)[..192] == AllBits(c)
    ensures !Finished(c).mdc
  {}

  /** Before that it is not done. */
  lemma NotDoneEarly(c: Config, start: Registers, k: nat)
    requires ValidConfig(c) && (start == ResetState(c) || start == PowerUp(c))
    requires k < c.settleCycles + 384 * c.halfPeriod
    ensures !Run(c, start, k).done
  {
    hide FrameOf, AllBits;
    if 0 < k < c.settleCycles {
      Settling(c, start, k);
    } else if k > 0 {
      var e, d := Split(k - c.settleCycles, c.halfPeriod);
      if e >= 384 { MulMonotone(384, e, c.halfPeriod); }
      Sending(c, start, e, d);
    }
  }

  lemma Split(t: nat, h: nat) returns (e: nat, d: nat)
    requires h >= 1
    ensures t == e * h + d && d < h
  {
    e, d := t / h, t % h;
  }

  lemma MulMonotone(a: nat, b: nat, k: nat)
    requires a <= b
    ensures a * k <= b * k
  {
    MulDistributes(b - a, a, k);
    MulNonNegative(b - a, k);
  }

  /** Once settled the data changes only where the clock falls, or not at all. */
  lemma DataChangesOnFallingEdges(c: Config, start: Registers, k: nat)
    requires ValidConfig(c) && (start == ResetState(c) || start == PowerUp(c)) && k >= c.settleCycles
    ensures var before, after := Run(c, start, k), Run(c, start, k + 1);
      Data(before) != Data(after) ==> before.mdc && !after.mdc
  {
    hide FrameOf;
    assert Run(c, start, k).settle == 0 by { StaysSettled(c, start, k); }
  }

  lemma StaysSettled(c: Config, start: Registers, k: nat)
    requires ValidConfig(c) && (start == ResetState(c) || start == PowerUp(c)) && k >= c.settleCycles
    ensures Run(c, start, k).settle == 0
    decreases k
  {
    hide FrameOf;
    if k == c.settleCycles { Settling(c, start, k); } else { StaysSettled(c, start, k - 1); }
  }

  /** A reset at any time replays the whole sequence. */
  lemma ResetReplays(c: Config, r: Registers, k: nat)
    requires ValidConfig(c) && k >= c.settleCycles + 384 * c.halfPeriod
    ensures Sampled(c, Tick(c, r, true), k) == AllBits(c) && Run(c, Tick(c, r, true), k).done
  {
    SendsEverything(c, ResetState(c), k);
  }

  // ---------- The registers ----------

  class Serialiser {
    const config: Config
    var settle: nat
    var divider: nat
    var bit: nat
    var transaction: nat
    var done: bool
    var mdc: bool
    var shift: seq<bool>

    function Snapshot(): Registers
      reads this
    {
      Registers(settle, divider, bit, transaction, done, mdc, shift)
    }

    constructor (config: Config)
      requires ValidConfig(config)
      ensures this.config == config && Snapshot() == PowerUp(config)
    {
      this.config := config;
      settle, divider, bit, transaction := config.settleCycles, 0, 0, 0;
      done, mdc := false, false;
      shift := seq(64, _ => false);
    }

    method Clock(reset: bool)
      modifies this
      ensures Snapshot() == Tick(config, old(Snapshot()), reset)
    {
      hide FrameOf;
      if reset {
        settle, divider, bit, transaction := config.settleCycles, 0, 0, 0;
        done, mdc, shift := false, false, FrameOf(config, 0);
      } else if settle != 0 {
        settle, shift := settle - 1, FrameOf(config, 0);
      } else if !done {
        if divider + 1 == config.halfPeriod {
          divider := 0;
          if mdc {
            if bit == 63 {
              bit := 0;
              if transaction == 2 {
                done := true;
              } else {
                transaction := transaction + 1;
                shift := FrameOf(config, transaction);
              }
            } else {
              bit := bit + 1;
              if shift != [] { shift := shift[1..] + [true]; }
            }
          }
          mdc := !mdc;
        } else {
          divider := divider + 1;
        }
      }
    }
  }
}
