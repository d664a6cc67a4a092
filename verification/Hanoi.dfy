/** The Tower of Hanoi solver: the moves of the recursion are all legal, move exactly the top
    disks asked for, and no legal way of moving them is shorter. */
module Hanoi {
  import opened Arith

  /** Three pegs, each listing its disks from the bottom up. */
  type Pegs = seq<seq<nat>>

  datatype Move = Move(from: nat, to: nat)

  predicate Shrinking(disks: seq<nat>) { forall i, j | 0 <= i < j < |disks| :: disks[i] > disks[j] }

  /** No disk lies on a smaller one, and none is on two pegs. */
  predicate Legal(p: Pegs) {
    && |p| == 3
    && (forall x | 0 <= x < 3 :: Shrinking(p[x]))
    && Apart(p[0], p[1]) && Apart(p[0], p[2]) && Apart(p[1], p[2])
  }

  predicate Apart(a: seq<nat>, b: seq<nat>) { forall d | d in a :: d !in b }

  /** A disk is on some peg. */
  predicate Placed(p: Pegs, d: nat) { |p| == 3 && (d in p[0] || d in p[1] || d in p[2]) }

  predicate Fits(disks: seq<nat>, d: nat) { disks == [] || disks[|disks| - 1] > d }

  predicate CanMove(p: Pegs, m: Move) {
    && |p| == 3 && m.from < 3 && m.to < 3 && m.from != m.to && p[m.from] != []
    && Fits(p[m.to], p[m.from][|p[m.from]| - 1])
  }

  function Apply(p: Pegs, m: Move): Pegs
    requires |p| == 3 && m.from < 3 && m.to < 3 && m.from != m.to && p[m.from] != []
  {
    var n := |p[m.from]| - 1;
    p[m.from := p[m.from][..n]][m.to := p[m.to] + [p[m.from][n]]]
  }

  /** Every move is legal when it is made. */
  predicate LegalMoves(p: Pegs, moves: seq<Move>)
    decreases |moves|
  {
    moves == [] || (CanMove(p, moves[0]) && LegalMoves(Apply(p, moves[0]), moves[1..]))
  }

  function Run(p: Pegs, moves: seq<Move>): Pegs
    requires LegalMoves(p, moves)
    decreases |moves|
  {
    if moves == [] then p else Run(Apply(p, moves[0]), moves[1..])
  }

  /** The moves of the recursion. */
  function Solve(n: nat, from: nat, to: nat, via: nat): seq<Move> {
    if n == 0 then [] else Solve(n - 1, from, via, to) + [Move(from, to)] + Solve(n - 1, via, to, from)
  }

  lemma {:induction false} SolveLength(n: nat, from: nat, to: nat, via: nat)
    ensures |Solve(n, from, to, via)| == Pow2(n) - 1
  {
    if n > 0 {
      SolveLength(n - 1, from, via, to);
      SolveLength(n - 1, via, to, from);
    }
  }

  // ---------- Runs ----------

  lemma TakeTop(a: seq<nat>, b: seq<nat>, c: seq<nat>)
    requires a != [] && Shrinking(a) && Shrinking(b) && Fits(b, a[|a| - 1])
    requires Apart(a, b) && Apart(a, c) && Apart(b, c)
    ensures var n := |a| - 1;
      && Shrinking(a[..n]) && Shrinking(b + [a[n]])
      && Apart(a[..n], b + [a[n]]) && Apart(b + [a[n]], a[..n])
      && Apart(a[..n], c) && Apart(c, a[..n]) && Apart(b + [a[n]], c) && Apart(c, b + [a[n]])
      && (forall d :: d in a <==> d in a[..n] || d == a[n])
  {
    var n := |a| - 1;
    assert a == a[..n] + [a[n]];
    assert a[n] !in a[..n];
  }

  lemma ApartBothWays(a: seq<nat>, b: seq<nat>)
    ensures Apart(a, b) <==> Apart(b, a)
  {}

  lemma MoveKeepsLegal(p: Pegs, m: Move)
    requires Legal(p) && CanMove(p, m)
    ensures Legal(Apply(p, m))
    ensures forall d :: Placed(p, d) ==> Placed(Apply(p, m), d)
  {
    hide Shrinking, Apart;
    var via := 3 - m.from - m.to;
    ApartBothWays(p[0], p[1]);
    ApartBothWays(p[0], p[2]);
    ApartBothWays(p[1], p[2]);
    TakeTop(p[m.from], p[m.to], p[via]);
  }

  lemma {:induction false} RunKeepsLegal(p: Pegs, moves: seq<Move>)
    requires Legal(p) && LegalMoves(p, moves)
    ensures Legal(Run(p, moves))
    decreases |moves|
  {
    if moves != [] {
      MoveKeepsLegal(p, moves[0]);
      RunKeepsLegal(Apply(p, moves[0]), moves[1..]);
    }
  }

  lemma {:induction false} RunJoin(p: Pegs, a: seq<Move>, b: seq<Move>)
    requires LegalMoves(p, a) && LegalMoves(Run(p, a), b)
    ensures LegalMoves(p, a + b) && Run(p, a + b) == Run(Run(p, a), b)
    decreases |a|
  {
    if a == [] {
      assert a + b == b;
    } else {
      assert (a + b)[1..] == a[1..] + b;
      RunJoin(Apply(p, a[0]), a[1..], b);
    }
  }

  lemma {:induction false} RunSplit(p: Pegs, moves: seq<Move>, i: nat)
    requires i <= |moves| && LegalMoves(p, moves)
    ensures LegalMoves(p, moves[..i]) && LegalMoves(Run(p, moves[..i]), moves[i..])
    ensures Run(Run(p, moves[..i]), moves[i..]) == Run(p, moves)
    decreases |moves|
  {
    if i == 0 {
      assert moves[..0] == [] && moves[0..] == moves;
    } else {
      assert moves[..i][0] == moves[0] && moves[..i][1..] == moves[1..][..i - 1] && moves[i..] == moves[1..][i - 1..];
      RunSplit(Apply(p, moves[0]), moves[1..], i - 1);
    }
  }

  // ---------- Correctness ----------

  predicate Different(a: nat, b: nat, c: nat) { a < 3 && b < 3 && c < 3 && a != b && b != c && a != c }

  /** `from` holds `kept` and on top of them the disks `top`, all smaller than whatever is on the
      other two pegs. */
  predicate Ready(p: Pegs, kept: seq<nat>, top: seq<nat>, from: nat, to: nat, via: nat) {
    && Legal(p) && Different(from, to, via) && p[from] == kept + top
    && (forall d | d in top :: Fits(p[to], d) && Fits(p[via], d))
  }

  /** The pegs with these disks moved from the top of one peg to another. */
  function Transferred(p: Pegs, kept: seq<nat>, top: seq<nat>, from: nat, to: nat): Pegs
    requires |p| == 3 && from < 3 && to < 3
  {
    p[from := kept][to := p[to] + top]
  }

  lemma ReadyForSmaller(p: Pegs, kept: seq<nat>, top: seq<nat>, from: nat, to: nat, via: nat)
    requires Ready(p, kept, top, from, to, via) && top != []
    ensures Ready(p, kept + [top[0]], top[1..], from, via, to)
  {
    assert (kept + [top[0]]) + top[1..] == kept + top;
    assert forall d | d in top[1..] :: d in top;
  }

  lemma ReadyForLargest(p: Pegs, kept: seq<nat>, top: seq<nat>, from: nat, to: nat, via: nat)
    requires Ready(p, kept, top, from, to, via) && top != []
    ensures var p1 := Transferred(p, kept + [top[0]], top[1..], from, via);
      && CanMove(p1, Move(from, to))
      && Apply(p1, Move(from, to)) == p1[from := kept][to := p[to] + [top[0]]]
  {
    var p1 := Transferred(p, kept + [top[0]], top[1..], from, via);
    assert p1[from] == kept + [top[0]] && p1[to] == p[to];
    assert (kept + [top[0]])[..|kept|] == kept;
    assert top[0] in top;
  }

  lemma LargestUnder(p: Pegs, kept: seq<nat>, top: seq<nat>, from: nat, to: nat, via: nat, d: nat)
    requires Ready(p, kept, top, from, to, via) && top != [] && d in top[1..]
    ensures Fits(p[to] + [top[0]], d) && Fits(kept, d)
  {
    var i :| 0 < i < |top| && top[i] == d;
    assert p[from][|kept|] == top[0] && p[from][|kept| + i] == d;
    if kept != [] { assert p[from][|kept| - 1] == kept[|kept| - 1]; }
  }

  lemma ReadyForRest(p: Pegs, kept: seq<nat>, top: seq<nat>, from: nat, to: nat, via: nat)
    requires Ready(p, kept, top, from, to, via) && top != []
    ensures var p2 := Transferred(p, kept + [top[0]], top[1..], from, via)[from := kept][to := p[to] + [top[0]]];
      && (Legal(p2) ==> Ready(p2, p[via], top[1..], via, to, from))
      && Transferred(p2, p[via], top[1..], via, to) == Transferred(p, kept, top, from, to)
  {
    forall d | d in top[1..] ensures Fits(p[to] + [top[0]], d) && Fits(kept, d) {
      LargestUnder(p, kept, top, from, to, via, d);
    }
    assert (p[to] + [top[0]]) + top[1..] == p[to] + top;
  }

  /** The recursion's moves are legal from any pegs that are ready for them, and transfer exactly
      the top disks. */
  lemma {:induction false} SolveTransfers(p: Pegs, kept: seq<nat>, top: seq<nat>, from: nat, to: nat, via: nat)
    requires Ready(p, kept, top, from, to, via)
    ensures LegalMoves(p, Solve(|top|, from, to, via))
    ensures Run(p, Solve(|top|, from, to, via)) == Transferred(p, kept, top, from, to)
    ensures Legal(Transferred(p, kept, top, from, to))
    decreases |top|
  {
    if top == [] {
      NothingMoves(p, kept, from, to);
    } else {
      hide Legal, Apply;
      var m, n := Move(from, to), |top| - 1;
      ReadyForSmaller(p, kept, top, from, to, via);
      SolveTransfers(p, kept + [top[0]], top[1..], from, via, to);
      var p1 := Transferred(p, kept + [top[0]], top[1..], from, via);
      ReadyForLargest(p, kept, top, from, to, via);
      MoveKeepsLegal(p1, m);
      var p2 := Apply(p1, m);
      ReadyForRest(p, kept, top, from, to, via);
      SolveTransfers(p2, p[via], top[1..], via, to, from);
      OneMove(p1, m);
      RunJoin(p, Solve(n, from, via, to), [m]);
      RunJoin(p, Solve(n, from, via, to) + [m], Solve(n, via, to, from));
    }
  }

  lemma NothingMoves(p: Pegs, kept: seq<nat>, from: nat, to: nat)
    requires |p| == 3 && from < 3 && to < 3 && from != to && p[from] == kept + []
    ensures Transferred(p, kept, [], from, to) == p
  {
    assert kept + [] == kept && p[to] + [] == p[to];
  }

  lemma OneMove(p: Pegs, m: Move)
    requires CanMove(p, m)
    ensures LegalMoves(p, [m]) && Run(p, [m]) == Apply(p, m)
  {
    assert [m][1..] == [];
  }

  // ---------- Optimality ----------

  /** The largest of some disks. */
  lemma {:induction false} Largest(disks: set<nat>) returns (big: nat)
    requires disks != {}
    ensures big in disks && forall d | d in disks :: d <= big
    decreases disks
  {
    var one :| one in disks;
    big := one;
    assert forall d | d in disks :: d == one || d in disks - {one};
    if disks - {one} != {} {
      var rest := Largest(disks - {one});
      if rest > one { big := rest; }
    }
  }

  predicate On(p: Pegs, x: nat, d: nat) { x < 3 == |p| && d in p[x] }

  predicate AllOn(p: Pegs, x: nat, disks: set<nat>) { forall d | d in disks :: On(p, x, d) }

  predicate AllPlaced(p: Pegs, disks: set<nat>) { forall d | d in disks :: Placed(p, d) }

  /** Whether a move takes this disk. */
  predicate Takes(p: Pegs, m: Move, d: nat) {
    |p| == 3 && m.from < 3 && p[m.from] != [] && p[m.from][|p[m.from]| - 1] == d
  }

  function Third(m: Move): int { 3 - m.from - m.to }

  lemma TopIsSmallest(peg: seq<nat>)
    requires Shrinking(peg)
    ensures peg != [] ==> forall d | d in peg :: d >= peg[|peg| - 1]
  {}

  /** When a disk moves, no smaller one is on either peg: those that exist are all on the third. */
  lemma SmallerAreAside(p: Pegs, m: Move, disks: set<nat>, big: nat)
    requires Legal(p) && CanMove(p, m) && Takes(p, m, big) && AllPlaced(p, disks)
    requires forall d | d in disks :: d < big
    ensures var aside := Third(m);
      && 0 <= aside < 3 && aside != m.from && aside != m.to
      && AllOn(p, aside, disks) && AllOn(Apply(p, m), aside, disks)
  {
    TopIsSmallest(p[m.from]);
    TopIsSmallest(p[m.to]);
    forall d | d in disks ensures On(p, Third(m), d) {
      assert Placed(p, d) && d !in p[m.from] && d !in p[m.to];
    }
  }

  lemma OthersStay(p: Pegs, m: Move, d: nat, x: nat)
    requires Legal(p) && CanMove(p, m) && !Takes(p, m, d)
    ensures On(p, x, d) <==> On(Apply(p, m), x, d)
  {
    if x == m.from { assert p[x] == p[x][..|p[x]| - 1] + [p[x][|p[x]| - 1]]; }
  }

  lemma TakenMoves(p: Pegs, m: Move, d: nat)
    requires Legal(p) && CanMove(p, m) && Takes(p, m, d)
    ensures On(p, m.from, d) && On(Apply(p, m), m.to, d)
  {}

  lemma OnOnePeg(p: Pegs, d: nat, x: nat, y: nat)
    requires Legal(p) && On(p, x, d) && On(p, y, d)
    ensures x == y
  {}

  lemma RunOneMore(p: Pegs, moves: seq<Move>)
    requires LegalMoves(p, moves) && moves != []
    ensures var n := |moves| - 1;
      && LegalMoves(p, moves[..n]) && CanMove(Run(p, moves[..n]), moves[n])
      && Run(p, moves) == Apply(Run(p, moves[..n]), moves[n])
  {
    var n := |moves| - 1;
    RunSplit(p, moves, n);
    assert moves[n..] == [moves[n]];
    assert [moves[n]][1..] == [];
  }

  /** The state before and after the move at position i. */
  lemma RunAround(p: Pegs, moves: seq<Move>, i: nat)
    requires Legal(p) && LegalMoves(p, moves) && i < |moves|
    ensures LegalMoves(p, moves[..i])
    ensures var q := Run(p, moves[..i]);
      && Legal(q) && CanMove(q, moves[i]) && Legal(Apply(q, moves[i]))
      && LegalMoves(Apply(q, moves[i]), moves[i + 1..])
      && Run(Apply(q, moves[i]), moves[i + 1..]) == Run(p, moves)
  {
    RunSplit(p, moves, i);
    RunKeepsLegal(p, moves[..i]);
    assert moves[i..][0] == moves[i] && moves[i..][1..] == moves[i + 1..];
    MoveKeepsLegal(Run(p, moves[..i]), moves[i]);
  }

  /** The first move of a run that takes a disk which ends on another peg. */
  lemma {:induction false} FirstMoveOf(p: Pegs, moves: seq<Move>, d: nat, a: nat, b: nat) returns (i: nat)
    requires Legal(p) && LegalMoves(p, moves) && a != b && On(p, a, d) && On(Run(p, moves), b, d)
    ensures i < |moves| && LegalMoves(p, moves[..i])
    ensures Takes(Run(p, moves[..i]), moves[i], d) && moves[i].from == a
    decreases |moves|
  {
    hide Legal, Apply, Takes, On;
    i := 0;
    if moves == [] { OnOnePeg(p, d, a, b); return; }
    if Takes(p, moves[0], d) {
      assert moves[..0] == [];
      TakenMoves(p, moves[0], d);
      OnOnePeg(p, d, a, moves[0].from);
    } else {
      OthersStay(p, moves[0], d, a);
      MoveKeepsLegal(p, moves[0]);
      i := FirstMoveOf(Apply(p, moves[0]), moves[1..], d, a, b);
      i := i + 1;
      assert moves[..i][1..] == moves[1..][..i - 1];
    }
  }

  /** How many moves there are up to the last one that takes a disk: none if it never moves. */
  lemma {:induction false} LastMoveOf(p: Pegs, moves: seq<Move>, d: nat, b: nat) returns (k: nat)
    requires Legal(p) && LegalMoves(p, moves) && On(Run(p, moves), b, d)
    ensures k <= |moves| && (k == 0 ==> On(p, b, d))
    ensures k > 0 ==> LegalMoves(p, moves[..k - 1]) && Takes(Run(p, moves[..k - 1]), moves[k - 1], d) && moves[k - 1].to == b
    decreases |moves|
  {
    hide Legal, CanMove, Apply, Takes, On;
    k := |moves|;
    if k > 0 {
      var n := k - 1;
      RunOneMore(p, moves);
      RunKeepsLegal(p, moves[..n]);
      var q := Run(p, moves[..n]);
      if Takes(q, moves[n], d) {
        MoveKeepsLegal(q, moves[n]);
        TakenMoves(q, moves[n], d);
        OnOnePeg(Apply(q, moves[n]), d, moves[n].to, b);
      } else {
        OthersStay(q, moves[n], d, b);
        k := LastMoveOf(p, moves[..n], d, b);
        if k > 0 { assert moves[..n][..k - 1] == moves[..k - 1]; }
      }
    }
  }

  lemma {:induction false} RunKeepsPlaced(p: Pegs, moves: seq<Move>, disks: set<nat>)
    requires Legal(p) && LegalMoves(p, moves) && AllPlaced(p, disks)
    ensures AllPlaced(Run(p, moves), disks)
    decreases |moves|
  {
    if moves != [] {
      MoveKeepsLegal(p, moves[0]);
      RunKeepsPlaced(Apply(p, moves[0]), moves[1..], disks);
    }
  }

  /** When a disk moves at position i, the smaller ones are all on one peg: neither the one it
      leaves nor the one it goes to. */
  lemma OthersAside(p: Pegs, moves: seq<Move>, i: nat, disks: set<nat>, big: nat)
    requires Legal(p) && LegalMoves(p, moves) && i < |moves| && AllPlaced(p, disks)
    requires forall d | d in disks :: d < big
    requires LegalMoves(p, moves[..i]) && Takes(Run(p, moves[..i]), moves[i], big)
    ensures var q := Run(p, moves[..i]); var aside := Third(moves[i]);
      && CanMove(q, moves[i])
      && 0 <= aside < 3 && aside != moves[i].from && aside != moves[i].to
      && AllOn(q, aside, disks) && AllOn(Apply(q, moves[i]), aside, disks)
  {
    hide Legal, LegalMoves, Run, Apply, CanMove, Takes, AllOn, AllPlaced;
    RunAround(p, moves, i);
    RunKeepsPlaced(p, moves[..i], disks);
    SmallerAreAside(Run(p, moves[..i]), moves[i], disks, big);
  }

  lemma OnIsPlaced(p: Pegs, x: nat, disks: set<nat>)
    requires AllOn(p, x, disks)
    ensures AllPlaced(p, disks)
  {}

  /** No legal way of getting n disks from one peg to another takes fewer than 2^n - 1 moves,
      whatever else is on the pegs and is moved on the way. */
  lemma {:induction false} NoShorterWay(p: Pegs, moves: seq<Move>, disks: set<nat>, a: nat, b: nat)
    requires Legal(p) && LegalMoves(p, moves) && a != b
    requires AllOn(p, a, disks) && AllOn(Run(p, moves), b, disks)
    ensures |moves| >= Pow2(|disks|) - 1
    decreases |disks|, 0
  {
    hide Legal, LegalMoves, Run, Apply, CanMove, Takes, On, AllPlaced;
    if disks != {} {
      var big := Largest(disks);
      var rest := disks - {big};
      assert |rest| == |disks| - 1;
      var i := FirstMoveOf(p, moves, big, a, b);
      RunAround(p, moves, i);
      OnIsPlaced(p, a, rest);
      OthersAside(p, moves, i, rest, big);
      NoShorterWay(p, moves[..i], rest, a, Third(moves[i]));
      TakenMoves(Run(p, moves[..i]), moves[i], big);
      OnIsPlaced(Apply(Run(p, moves[..i]), moves[i]), Third(moves[i]), rest);
      RestOfTheWay(Apply(Run(p, moves[..i]), moves[i]), moves[i + 1..], rest, big, Third(moves[i]), moves[i].to, b);
    }
  }

  /** Once the largest has moved and the rest are on a third peg, the rest still have all their
      moves to make after the largest has moved last. */
  lemma {:induction false} RestOfTheWay(p: Pegs, moves: seq<Move>, rest: set<nat>, big: nat, aside: nat, now: nat, b: nat)
    requires Legal(p) && LegalMoves(p, moves) && aside != now && On(p, now, big) && AllOn(p, aside, rest) && AllPlaced(p, rest)
    requires On(Run(p, moves), b, big) && AllOn(Run(p, moves), b, rest)
    requires forall d | d in rest :: d < big
    ensures |moves| >= Pow2(|rest|) - 1
    decreases |rest|, 1
  {
    hide Legal, LegalMoves, Run, Apply, CanMove, Takes, On, AllPlaced;
    var k := LastMoveOf(p, moves, big, b);
    if k == 0 {
      OnOnePeg(p, big, now, b);
      NoShorterWay(p, moves, rest, aside, b);
    } else {
      RunAround(p, moves, k - 1);
      OthersAside(p, moves, k - 1, rest, big);
      NoShorterWay(Apply(Run(p, moves[..k - 1]), moves[k - 1]), moves[k..], rest, Third(moves[k - 1]), b);
    }
  }

  /** So the recursion is as short as any solution. */
  lemma SolveIsShortest(p: Pegs, kept: seq<nat>, top: seq<nat>, from: nat, to: nat, via: nat, moves: seq<Move>)
    requires Ready(p, kept, top, from, to, via) && LegalMoves(p, moves)
    requires forall d | d in top :: On(Run(p, moves), to, d)
    ensures |Solve(|top|, from, to, via)| <= |moves|
  {
    hide Run, LegalMoves, Solve;
    SolveLength(|top|, from, to, via);
    assert forall i | 0 <= i < |top| :: p[from][|kept| + i] == top[i];
    DistinctCount(top);
    NoShorterWay(p, moves, Members(top), from, to);
  }

  function Members(q: seq<nat>): set<nat> { set d | d in q }

  lemma {:induction false} DistinctCount(q: seq<nat>)
    requires Shrinking(q)
    ensures |Members(q)| == |q|
    decreases |q|
  {
    if q != [] {
      var n := |q| - 1;
      DistinctCount(q[..n]);
      assert q == q[..n] + [q[n]];
      assert Members(q) == Members(q[..n]) + {q[n]};
    }
  }
}
