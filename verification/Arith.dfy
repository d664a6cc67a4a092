/** Small facts of integer arithmetic that the solver is better given than left to find. */
module Arith {
  function Pow2(n: nat): (p: nat)
    ensures p >= 1
  {
    if n == 0 then 1 else 2 * Pow2(n - 1)
  }

  lemma MulDistributes(a: int, b: int, k: int)
    ensures (a + b) * k == a * k + b * k
  {}

  lemma MulNonNegative(a: int, k: int)
    requires a >= 0 && k >= 0
    ensures a * k >= 0
  {}

  lemma MulGap(a: int, b: int, k: int)
    requires a < b && k >= 0
    ensures a * k + k <= b * k
  {
    MulDistributes(b - a - 1, a + 1, k);
    MulDistributes(a, 1, k);
    MulNonNegative(b - a - 1, k);
  }

  /** n tasks in a row, at most k steps each: the steps left when b are finished and the next
      one needs r more. */
  function StepsLeft(n: nat, b: nat, k: nat, r: int): int
  {
    if b >= n then 0 else (n - b - 1) * k + r
  }

  lemma StepsLeftBounds(n: nat, b: nat, k: nat, r: int)
    requires 1 <= r <= k
    ensures 0 <= StepsLeft(n, b, k, r) <= n * k
    ensures StepsLeft(n, b, k, r) == 0 <==> b >= n
  {
    if b < n {
      MulNonNegative(n - b - 1, k);
      MulGap(n - b - 1, n, k);
    } else {
      MulNonNegative(n, k);
    }
  }

  lemma StepsLeftDrops(n: nat, b: nat, b': nat, k: nat, r: int, r': int)
    requires b < n && 1 <= r <= k && 1 <= r' <= k
    requires b' > b || (b' == b && r' < r)
    ensures StepsLeft(n, b', k, r') < StepsLeft(n, b, k, r)
  {
    if b' > b && b' < n {
      MulGap(n - b' - 1, n - b - 1, k);
    } else if b' >= n {
      MulNonNegative(n - b - 1, k);
    }
  }

  /** One step of a run that counts down until it is done. */
  ghost predicate CountsDownAt(done: nat -> bool, left: nat -> int, k: nat) {
    if done(k) then done(k + 1) else 0 < left(k) && left(k + 1) < left(k)
  }

  lemma {:induction false} CountsDown(done: nat -> bool, left: nat -> int, n: nat)
    requires forall k: nat :: CountsDownAt(done, left, k)
    ensures done(n) || left(n) <= left(0) - n
  {
    if n > 0 {
      CountsDown(done, left, n - 1);
      assert CountsDownAt(done, left, n - 1);
    }
  }

  ghost predicate Carries(holds: nat -> bool, k: nat) { holds(k) ==> holds(k + 1) }

  lemma {:induction false} Always(holds: nat -> bool, m: nat, n: nat)
    requires m <= n && holds(m)
    requires forall k: nat :: Carries(holds, k)
    ensures holds(n)
    decreases n - m
  {
    if m < n {
      Always(holds, m, n - 1);
      assert Carries(holds, n - 1);
    }
  }
}
