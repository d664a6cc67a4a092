/** A set-associative cache that evicts the least recently used line: address decoding, and
    what its contents must be after any trace, stated by recency alone. */
module LruCache {
  import opened Arith

  // ---------- Address decoding ----------

  /** One less than the bit length: the exponent of the largest power of two not above n. */
  function Log2(n: nat): (b: nat)
    requires n >= 1
    ensures Pow2(b) <= n < 2 * Pow2(b)
  {
    if n == 1 then 0 else 1 + Log2(n / 2)
  }

  datatype Shape = Shape(blockSize: nat, sets: nat)

  predicate ValidShape(g: Shape) { g.blockSize >= 1 && g.sets >= 1 }

  function OffsetBits(g: Shape): nat
    requires ValidShape(g)
  {
    Log2(g.blockSize)
  }

  function IndexBits(g: Shape): nat
    requires ValidShape(g)
  {
    Log2(g.sets)
  }

  function SetOf(g: Shape, address: nat): (s: nat)
    requires ValidShape(g)
    ensures s < Pow2(IndexBits(g)) <= g.sets
  {
    (address / Pow2(OffsetBits(g))) % Pow2(IndexBits(g))
  }

  function TagOf(g: Shape, address: nat): nat
    requires ValidShape(g)
  {
    address / Pow2(OffsetBits(g) + IndexBits(g))
  }

  lemma {:induction false} Pow2Sum(a: nat, b: nat)
    ensures Pow2(a + b) == Pow2(a) * Pow2(b)
  {
    if b > 0 {
      Pow2Sum(a, b - 1);
      assert a + b - 1 == a + (b - 1);
      assert Pow2(a) * (2 * Pow2(b - 1)) == 2 * (Pow2(a) * Pow2(b - 1));
    }
  }

  /** Quotients and remainders are unique. */
  lemma QuotientUnique(x: nat, d: nat, q: nat, r: nat)
    requires d >= 1 && r < d && x == q * d + r
    ensures x / d == q && x % d == r
  {
    var q', r' := x / d, x % d;
    assert x == q' * d + r';
    if q' < q {
      MulStep(q', q, d);
    } else if q < q' {
      MulStep(q, q', d);
    }
  }

  lemma MulStep(a: nat, b: nat, d: nat)
    requires a < b
    ensures a * d + d <= b * d
  {
    assert (b - a - 1) * d >= 0;
    assert b * d == a * d + d + (b - a - 1) * d;
  }

  lemma Regroup(q: nat, b: nat, r: nat, a: nat, s: nat)
    requires r < b && s < a
    ensures (q * b + r) * a + s == q * (a * b) + (r * a + s) && r * a + s < a * b
  {
    MulStep(r, b, a);
    assert (q * b + r) * a == (q * b) * a + r * a;
    assert (q * b) * a == q * (a * b);
  }

  lemma QuotientOf(x: nat, a: nat, b: nat, q: nat, r: nat, s: nat)
    requires x == (q * b + r) * a + s && r < b && s < a
    ensures a * b >= 1 && x / (a * b) == q
  {
    Regroup(q, b, r, a, s);
    MulStep(0, b, a);
    QuotientUnique(x, a * b, q, r * a + s);
  }

  lemma Division(x: nat, a: nat)
    requires a >= 1
    ensures x == (x / a) * a + x % a && 0 <= x % a < a
  {}

  lemma DivideTwice(x: nat, a: nat, b: nat)
    requires a >= 1 && b >= 1
    ensures a * b >= 1 && x / (a * b) == (x / a) / b
  {
    var y, s := x / a, x % a;
    Division(x, a);
    var q, r := y / b, y % b;
    Division(y, b);
    assert x == (q * b + r) * a + s;
    QuotientOf(x, a, b, q, r, s);
  }

  lemma SplitQuotient(x: nat, a: nat, b: nat)
    requires a >= 1 && b >= 1
    ensures a * b >= 1 && x / a == (x / (a * b)) * b + (x / a) % b
  {
    DivideTwice(x, a, b);
  }

  /** The set and the tag together are the block number, no more and no less. */
  lemma DecodeIsBlock(g: Shape, address: nat)
    requires ValidShape(g)
    ensures address / Pow2(OffsetBits(g)) == TagOf(g, address) * Pow2(IndexBits(g)) + SetOf(g, address)
  {
    hide Pow2, OffsetBits, IndexBits;
    Pow2Sum(OffsetBits(g), IndexBits(g));
    SplitQuotient(address, Pow2(OffsetBits(g)), Pow2(IndexBits(g)));
  }

  lemma SameLineSameBlock(g: Shape, a: nat, b: nat)
    requires ValidShape(g)
    ensures SetOf(g, a) == SetOf(g, b) && TagOf(g, a) == TagOf(g, b)
            <==> a / Pow2(OffsetBits(g)) == b / Pow2(OffsetBits(g))
  {
    DecodeIsBlock(g, a);
    DecodeIsBlock(g, b);
    if a / Pow2(OffsetBits(g)) == b / Pow2(OffsetBits(g)) {
      QuotientUnique(a / Pow2(OffsetBits(g)), Pow2(IndexBits(g)), TagOf(g, a), SetOf(g, a));
      QuotientUnique(b / Pow2(OffsetBits(g)), Pow2(IndexBits(g)), TagOf(g, b), SetOf(g, b));
    }
  }

  // ---------- Traces ----------

  datatype Access = Access(address: nat, write: bool)

  /** What one set sees of a trace. */
  datatype Use = Use(tag: nat, write: bool)

  function UsesOf(g: Shape, trace: seq<Access>, s: nat): seq<Use>
    requires ValidShape(g)
    decreases |trace|
  {
    if trace == [] then []
    else
      var rest, a := UsesOf(g, trace[..|trace| - 1], s), trace[|trace| - 1];
      if SetOf(g, a.address) == s then rest + [Use(TagOf(g, a.address), a.write)] else rest
  }

  // ---------- Recency ----------

  function Remove(q: seq<nat>, t: nat): seq<nat> {
    if q == [] then [] else if q[0] == t then q[1..] else [q[0]] + Remove(q[1..], t)
  }

  /** The distinct tags of a history, most recently used first. */
  function Recency(h: seq<Use>): seq<nat>
    decreases |h|
  {
    if h == [] then [] else [h[|h| - 1].tag] + Remove(Recency(h[..|h| - 1]), h[|h| - 1].tag)
  }

  function Take<T>(q: seq<T>, k: nat): seq<T> { if k < |q| then q[..k] else q }

  /** The tags that a set of the given associativity must hold. */
  function Resident(h: seq<Use>, ways: nat): seq<nat> { Take(Recency(h), ways) }

  predicate HitsSet(h: seq<Use>, ways: nat, t: nat) { t in Resident(h, ways) }

  function Hits(g: Shape, ways: nat, trace: seq<Access>): nat
    requires ValidShape(g)
    decreases |trace|
  {
    if trace == [] then 0
    else
      var init, a := trace[..|trace| - 1], trace[|trace| - 1];
      Hits(g, ways, init)
      + (if HitsSet(UsesOf(g, init, SetOf(g, a.address)), ways, TagOf(g, a.address)) then 1 else 0)
  }

  // ---------- One set, with dirty bits ----------

  datatype Entry = Entry(tag: nat, dirty: bool)

  function Without(q: seq<Entry>, t: nat): seq<Entry> {
    if q == [] then [] else if q[0].tag == t then q[1..] else [q[0]] + Without(q[1..], t)
  }

  predicate IsDirty(q: seq<Entry>, t: nat) { exists e :: e in q && e.tag == t && e.dirty }

  /** The entries of a set, most recently used first, after one more use. */
  function Touch(q: seq<Entry>, ways: nat, u: Use): seq<Entry> {
    Take([Entry(u.tag, u.write || IsDirty(q, u.tag))] + Without(q, u.tag), ways)
  }

  function Entries(h: seq<Use>, ways: nat): seq<Entry>
    decreases |h|
  {
    if h == [] then [] else Touch(Entries(h[..|h| - 1], ways), ways, h[|h| - 1])
  }

  function Tags(q: seq<Entry>): (t: seq<nat>)
    ensures |t| == |q| && forall i | 0 <= i < |q| :: t[i] == q[i].tag
  {
    seq(|q|, i requires 0 <= i < |q| => q[i].tag)
  }
}
