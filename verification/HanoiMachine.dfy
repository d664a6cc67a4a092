/** The solver on the array it works in: row p holds the number of disks on peg p and then the
    disks from the bottom up. */
module HanoiMachine {
  import opened Arith
  import opened Hanoi

  /** The disks that a row holds. */
  function Row(a: array<nat>): seq<nat>
    requires 0 < a.Length && a[0] < a.Length
    reads a
  {
    a[1..a[0] + 1]
  }

  method TakeOff(a: array<nat>) returns (disk: nat)
    requires 0 < a.Length && 0 < a[0] < a.Length
    modifies a
    ensures a[0] == old(a[0]) - 1
    ensures Row(a) == old(Row(a))[..old(a[0]) - 1] && disk == old(Row(a))[old(a[0]) - 1]
  {
    disk := a[a[0]];
    a[0] := a[0] - 1;
  }

  method PutOn(a: array<nat>, disk: nat)
    requires 0 < a.Length && a[0] + 1 < a.Length
    modifies a
    ensures a[0] == old(a[0]) + 1 && Row(a) == old(Row(a)) + [disk]
  {
    a[0] := a[0] + 1;
    a[a[0]] := disk;
  }

  method FillStack(a: array<nat>, n: nat)
    requires a.Length == n + 1
    modifies a
    ensures a[0] == n && Row(a) == Stack(n)
  {
    a[0] := n;
    for i := 0 to n
      invariant a[0] == n
      invariant forall k | 1 <= k <= i :: a[k] == n + 1 - k
    {
      a[i + 1] := n - i;
    }
  }

  class Towers {
    const disks: nat
    const peg: seq<array<nat>>
    var moveCount: nat

    ghost predicate Shaped()
      reads this
    {
      && |peg| == 3 && peg[0] != peg[1] && peg[0] != peg[2] && peg[1] != peg[2]
      && forall x | 0 <= x < 3 :: peg[x].Length == disks + 1
    }

    ghost predicate Valid()
      reads this, peg
    {
      Shaped() && peg[0][0] + peg[1][0] + peg[2][0] == disks
    }

    function Snapshot(): Pegs
      requires Valid()
      reads this, peg
    {
      [Row(peg[0]), Row(peg[1]), Row(peg[2])]
    }

    /** All disks on the first peg, the largest at the bottom. */
    constructor (disks: nat)
      ensures Valid() && fresh(peg[0]) && fresh(peg[1]) && fresh(peg[2])
      ensures this.disks == disks && moveCount == 0
      ensures Snapshot() == [Stack(disks), [], []]
    {
      this.disks := disks;
      moveCount := 0;
      var a, b, c := new nat[disks + 1](_ => 0), new nat[disks + 1](_ => 0), new nat[disks + 1](_ => 0);
      peg := [a, b, c];
      new;
      FillStack(a, disks);
    }

    method MoveDisk(from: nat, to: nat)
      requires Valid() && CanMove(Snapshot(), Move(from, to))
      modifies this`moveCount, peg
      ensures Valid() && Snapshot() == Apply(old(Snapshot()), Move(from, to))
      ensures moveCount == old(moveCount) + 1
    {
      hide Row, Legal;
      ghost var via := 3 - from - to;
      ghost var was := Snapshot();
      RowsOf();
      var disk := TakeOff(peg[from]);
      PutOn(peg[to], disk);
      moveCount := moveCount + 1;
      RowsOf();
      Assembled(Snapshot(), was, Move(from, to), via);
    }

    lemma RowsOf()
      requires Shaped() && peg[0][0] + peg[1][0] + peg[2][0] == disks
      ensures Valid() && forall x | 0 <= x < 3 :: Snapshot()[x] == Row(peg[x])
      ensures forall x | 0 <= x < 3 :: |Row(peg[x])| == peg[x][0]
      ensures forall x: nat, y: nat, z: nat | Different(x, y, z) :: peg[x][0] + peg[y][0] + peg[z][0] == disks
    {}

    /** Moves the top n disks; `kept` is what stays under them. */
    method Transfer(n: nat, from: nat, to: nat, via: nat, ghost kept: seq<nat>, ghost top: seq<nat>)
      requires Valid() && |top| == n && Ready(Snapshot(), kept, top, from, to, via)
      modifies this`moveCount, peg
      ensures Valid()
      ensures LegalMoves(old(Snapshot()), Solve(n, from, to, via))
      ensures Snapshot() == Run(old(Snapshot()), Solve(n, from, to, via)) == Transferred(old(Snapshot()), kept, top, from, to)
      ensures moveCount == old(moveCount) + Pow2(n) - 1
      decreases n
    {
      hide Legal, LegalMoves, Run, Apply, CanMove, Row, Solve, Snapshot;
      ghost var p := Snapshot();
      SolveTransfers(p, kept, top, from, to, via);
      if n == 0 { NothingToDo(p, from, to, via); return; }
      ThreePegs(p);
      ghost var p1 := Transferred(p, kept + [top[0]], top[1..], from, via);
      ReadyForSmaller(p, kept, top, from, to, via);
      SolveTransfers(p, kept + [top[0]], top[1..], from, via, to);
      Transfer(n - 1, from, via, to, kept + [top[0]], top[1..]);
      ReadyForLargest(p, kept, top, from, to, via);
      MoveKeepsLegal(p1, Move(from, to));
      MoveDisk(from, to);
      ReadyForRest(p, kept, top, from, to, via);
      Transfer(n - 1, via, to, from, p[via], top[1..]);
    }
  }

  /** Disks n down to 1. */
  function Stack(n: nat): (q: seq<nat>)
    ensures |q| == n && forall i | 0 <= i < n :: q[i] == n - i
  {
    seq(n, i requires 0 <= i < n => n - i)
  }

  lemma Assembled(q: Pegs, p: Pegs, m: Move, via: nat)
    requires |q| == |p| == 3 && CanMove(p, m) && Different(m.from, m.to, via)
    requires q[m.from] == p[m.from][..|p[m.from]| - 1] && q[m.to] == p[m.to] + [p[m.from][|p[m.from]| - 1]] && q[via] == p[via]
    ensures q == Apply(p, m)
  {}

  lemma ThreePegs(p: Pegs)
    requires Legal(p)
    ensures |p| == 3
  {}

  lemma NothingToDo(p: Pegs, from: nat, to: nat, via: nat)
    ensures Solve(0, from, to, via) == [] && LegalMoves(p, []) && Run(p, []) == p
  {}

  lemma FirstPegReady(n: nat)
    ensures Ready([Stack(n), [], []], [], Stack(n), 0, 2, 1)
  {
    assert [] + Stack(n) == Stack(n);
  }

  /** The whole program: every disk ends on the last peg after 2^n - 1 moves, and no legal way of
      getting them there is shorter. */
  method SolveTowers(n: nat) returns (t: Towers)
    ensures fresh(t) && t.Valid() && t.Snapshot() == [[], [], Stack(n)]
    ensures t.moveCount == Pow2(n) - 1
    ensures forall moves | LegalMoves([Stack(n), [], []], moves) && Run([Stack(n), [], []], moves) == [[], [], Stack(n)] ::
              t.moveCount <= |moves|
  {
    hide Run, LegalMoves, Solve, Ready;
    t := new Towers(n);
    FirstPegReady(n);
    t.Transfer(n, 0, 2, 1, [], Stack(n));
    AllOnLast(n);
    forall moves | LegalMoves([Stack(n), [], []], moves) && Run([Stack(n), [], []], moves) == [[], [], Stack(n)]
      ensures Pow2(n) - 1 <= |moves|
    {
      NoneShorter(n, moves);
    }
  }

  lemma AllOnLast(n: nat)
    ensures Transferred([Stack(n), [], []], [], Stack(n), 0, 2) == [[], [], Stack(n)]
  {
    assert [] + Stack(n) == Stack(n);
  }

  lemma NoneShorter(n: nat, moves: seq<Move>)
    requires LegalMoves([Stack(n), [], []], moves) && Run([Stack(n), [], []], moves) == [[], [], Stack(n)]
    ensures Pow2(n) - 1 <= |moves|
  {
    hide Ready, LegalMoves, Run, Solve;
    FirstPegReady(n);
    SolveIsShortest([Stack(n), [], []], [], Stack(n), 0, 2, 1, moves);
    SolveLength(n, 0, 2, 1);
  }
}
