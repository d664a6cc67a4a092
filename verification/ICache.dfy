/** The direct-mapped instruction cache simulator, and exactly when it agrees with the
    least-recently-used simulator with one way. */
module ICache {
  import opened Arith
  import opened Options
  import opened LruCache
  import opened LruTheorems

  /** The block number last brought into line i, or -1. */
  function Content(lineSize: nat, lines: nat, trace: seq<nat>, i: nat): int
    requires lineSize >= 1 && lines >= 1
    decreases |trace|
  {
    if trace == [] then -1
    else
      var b := trace[|trace| - 1] / lineSize;
      if b % lines == i then b else Content(lineSize, lines, trace[..|trace| - 1], i)
  }

  predicate DirectHit(lineSize: nat, lines: nat, trace: seq<nat>, address: nat)
    requires lineSize >= 1 && lines >= 1
  {
    Content(lineSize, lines, trace, (address / lineSize) % lines) == address / lineSize
  }

  function DirectHits(lineSize: nat, lines: nat, trace: seq<nat>): nat
    requires lineSize >= 1 && lines >= 1
    decreases |trace|
  {
    if trace == [] then 0
    else
      var init, a := trace[..|trace| - 1], trace[|trace| - 1];
      DirectHits(lineSize, lines, init) + (if DirectHit(lineSize, lines, init, a) then 1 else 0)
  }

  // ---------- Agreement with one way of least recently used ----------

  function Reads(trace: seq<nat>): (r: seq<Access>)
    ensures |r| == |trace| && forall i | 0 <= i < |trace| :: r[i] == Access(trace[i], false)
  {
    seq(|trace|, i requires 0 <= i < |trace| => Access(trace[i], false))
  }

  predicate LruHit(lineSize: nat, lines: nat, trace: seq<nat>, address: nat)
    requires lineSize >= 1 && lines >= 1
  {
    var g := Shape(lineSize, lines);
    HitsSet(UsesOf(g, Reads(trace), SetOf(g, address)), 1, TagOf(g, address))
  }

  predicate IsPow2(n: nat) { n >= 1 && n == Pow2(Log2(n)) }

  /** With one way a set holds the tag used last. */
  lemma OneWay(h: seq<Use>, t: nat)
    ensures HitsSet(h, 1, t) <==> h != [] && h[|h| - 1].tag == t
  {
    if h != [] { assert Resident(h, 1) == [h[|h| - 1].tag]; }
  }

  lemma Pow2Decode(lineSize: nat, lines: nat, address: nat)
    requires IsPow2(lineSize) && IsPow2(lines)
    ensures var g := Shape(lineSize, lines);
      SetOf(g, address) == (address / lineSize) % lines && TagOf(g, address) == (address / lineSize) / lines
  {
    var g := Shape(lineSize, lines);
    Pow2Sum(OffsetBits(g), IndexBits(g));
    DivideTwice(address, lineSize, lines);
  }

  lemma ReadsInit(trace: seq<nat>)
    requires trace != []
    ensures Reads(trace)[..|trace| - 1] == Reads(trace[..|trace| - 1])
  {}

  lemma {:induction false} LastTagIsContent(lineSize: nat, lines: nat, trace: seq<nat>, s: nat)
    requires IsPow2(lineSize) && IsPow2(lines) && s < lines
    ensures var h := UsesOf(Shape(lineSize, lines), Reads(trace), s); var c := Content(lineSize, lines, trace, s);
      if h == [] then c == -1 else c >= 0 && c % lines == s && c / lines == h[|h| - 1].tag
    decreases |trace|
  {
    hide IsPow2, SetOf, TagOf;
    if trace != [] {
      ReadsInit(trace);
      Pow2Decode(lineSize, lines, trace[|trace| - 1]);
      LastTagIsContent(lineSize, lines, trace[..|trace| - 1], s);
    }
  }

  lemma AgreesOnPow2(lineSize: nat, lines: nat, trace: seq<nat>, address: nat)
    requires IsPow2(lineSize) && IsPow2(lines)
    ensures DirectHit(lineSize, lines, trace, address) <==> LruHit(lineSize, lines, trace, address)
  {
    hide SetOf, TagOf, UsesOf, Content, HitsSet;
    var b := address / lineSize;
    var s := b % lines;
    Pow2Decode(lineSize, lines, address);
    LastTagIsContent(lineSize, lines, trace, s);
    OneWay(UsesOf(Shape(lineSize, lines), Reads(trace), s), b / lines);
    var c := Content(lineSize, lines, trace, s);
    if c >= 0 {
      Division(c, lines);
      Division(b, lines);
    }
  }

  lemma LastReadDecides(g: Shape, trace: seq<nat>, a: nat, b: nat)
    requires ValidShape(g) && SetOf(g, a) == SetOf(g, b)
    ensures LruHit(g.blockSize, g.sets, trace + [a], b) <==> TagOf(g, a) == TagOf(g, b)
  {
    hide SetOf, TagOf, Resident;
    var s := SetOf(g, b);
    ReadsInit(trace + [a]);
    assert (trace + [a])[..|trace|] == trace;
    var h := UsesOf(g, Reads(trace + [a]), s);
    assert h == UsesOf(g, Reads(trace), s) + [Use(TagOf(g, a), false)];
    OneWay(h, TagOf(g, b));
  }

  lemma OtherSetMisses(g: Shape, a: nat, b: nat)
    requires ValidShape(g) && SetOf(g, a) != SetOf(g, b)
    ensures !LruHit(g.blockSize, g.sets, [a], b)
  {
    hide SetOf, TagOf, Resident;
    ReadsInit([a]);
    assert Reads([a][..0]) == [];
    assert UsesOf(g, Reads([a]), SetOf(g, b)) == [];
    OneWay(UsesOf(g, Reads([a]), SetOf(g, b)), TagOf(g, b));
  }

  lemma SmallBlock(a: nat, d: nat)
    requires a < d
    ensures a / d == 0
  {}

  /** A line size that is not a power of two: the first line is split in two. */
  lemma OddLineSizeDiffers(lineSize: nat, lines: nat)
    requires lineSize >= 1 && lines >= 1 && !IsPow2(lineSize)
    ensures var p := Pow2(Log2(lineSize)); DirectHit(lineSize, lines, [0], p) && !LruHit(lineSize, lines, [0], p)
  {
    var g := Shape(lineSize, lines);
    var p := Pow2(OffsetBits(g));
    SmallBlock(p, lineSize);
    SmallBlock(0, lineSize);
    SmallBlock(0, p);
    SmallBlock(0, lines);
    SameLineSameBlock(g, 0, p);
    QuotientUnique(p, p, 1, 0);
    hide SetOf, TagOf, LruHit, Log2, Pow2;
    if SetOf(g, 0) == SetOf(g, p) {
      LastReadDecides(g, [], 0, p);
      assert [] + [0] == [0];
    } else {
      OtherSetMisses(g, 0, p);
    }
  }

  lemma SetAndTagOfPower(lineSize: nat, lines: nat, m: nat)
    requires IsPow2(lineSize) && lines >= 1 && m == Pow2(Log2(lines))
    ensures var g := Shape(lineSize, lines);
      SetOf(g, lineSize * m) == 0 && TagOf(g, lineSize * m) == 1 && SetOf(g, 0) == 0 && TagOf(g, 0) == 0
    ensures (lineSize * m) / lineSize == m
  {
    hide Log2, Pow2;
    Pow2Sum(Log2(lineSize), Log2(lines));
    PowerQuotients(lineSize, m);
  }

  lemma PowerQuotients(a: nat, m: nat)
    requires a >= 1 && m >= 1
    ensures a * m >= 1 && (a * m) / a == m && m % m == 0 && (a * m) / (a * m) == 1
    ensures 0 / a == 0 && 0 % m == 0 && 0 / (a * m) == 0
  {
    MulStep(0, m, a);
    assert a * m == m * a + 0;
    QuotientUnique(a * m, a, m, 0);
    QuotientUnique(m, m, 1, 0);
    QuotientUnique(a * m, a * m, 1, 0);
    SmallBlock(0, a);
    SmallBlock(0, a * m);
    QuotientUnique(0, m, 0, 0);
  }

  lemma KeepsFirstLine(lineSize: nat, lines: nat, a: nat)
    requires lineSize >= 1 && lines >= 1 && 0 < a / lineSize < lines
    ensures DirectHit(lineSize, lines, [0] + [a], 0)
  {
    var b := a / lineSize;
    SmallBlock(0, lineSize);
    SmallBlock(0, lines);
    QuotientUnique(b, lines, 0, b);
    assert ([0] + [a])[..1] == [0];
  }

  /** A number of lines that is not a power of two: two lines share a set. */
  lemma OddLineCountDiffers(lineSize: nat, lines: nat)
    requires IsPow2(lineSize) && lines >= 1 && !IsPow2(lines)
    ensures var a := lineSize * Pow2(Log2(lines));
      DirectHit(lineSize, lines, [0] + [a], 0) && !LruHit(lineSize, lines, [0] + [a], 0)
  {
    var g := Shape(lineSize, lines);
    var m := Pow2(Log2(lines));
    SetAndTagOfPower(lineSize, lines, m);
    hide SetOf, TagOf, Pow2, Log2, LruHit, DirectHit;
    KeepsFirstLine(lineSize, lines, lineSize * m);
    LastReadDecides(g, [0], lineSize * m, 0);
  }

  /** The two simulators agree on every access of every trace exactly when the line size and the
      number of lines are powers of two. */
  lemma AgreesExactlyOnPow2(lineSize: nat, lines: nat)
    requires lineSize >= 1 && lines >= 1
    ensures (forall trace: seq<nat>, a: nat :: DirectHit(lineSize, lines, trace, a) <==> LruHit(lineSize, lines, trace, a))
            <==> IsPow2(lineSize) && IsPow2(lines)
  {
    hide DirectHit, LruHit, IsPow2;
    if IsPow2(lineSize) && IsPow2(lines) {
      forall trace: seq<nat>, a: nat ensures DirectHit(lineSize, lines, trace, a) <==> LruHit(lineSize, lines, trace, a) {
        AgreesOnPow2(lineSize, lines, trace, a);
      }
    } else if !IsPow2(lineSize) {
      OddLineSizeDiffers(lineSize, lines);
    } else {
      OddLineCountDiffers(lineSize, lines);
    }
  }

  // ---------- The simulator ----------

  class ICacheSimulator {
    const lineSize: nat
    const numLines: nat
    const cache: array<int>
    ghost var trace: seq<nat>

    ghost predicate Valid()
      reads this, cache
    {
      && lineSize >= 1 && numLines >= 1 && cache.Length == numLines
      && forall i | 0 <= i < numLines :: cache[i] == Content(lineSize, numLines, trace, i)
    }

    constructor (cacheSize: nat, lineSize: nat)
      requires 1 <= lineSize <= cacheSize
      ensures Valid() && fresh(cache) && trace == []
      ensures this.lineSize == lineSize && numLines == cacheSize / lineSize
    {
      this.lineSize := lineSize;
      numLines := cacheSize / lineSize;
      cache := new int[cacheSize / lineSize](_ => -1);
      trace := [];
    }

    method AccessCache(address: nat) returns (hit: bool)
      requires Valid()
      modifies this, cache
      ensures Valid() && trace == old(trace) + [address]
      ensures hit <==> DirectHit(lineSize, numLines, old(trace), address)
    {
      var tag := address / lineSize;
      var index := tag % numLines;
      assert (trace + [address])[..|trace|] == trace;
      hit := cache[index] == tag;
      if !hit { cache[index] := tag; }
      trace := trace + [address];
    }
  }

  /** The addresses of one range, four bytes apart. */
  function Addresses(from: nat, to: nat): seq<nat>
    decreases to - from
  {
    if from >= to then [] else [from] + Addresses(from + 4, to)
  }

  function AllAddresses(ranges: seq<(nat, nat)>): seq<nat>
    decreases |ranges|
  {
    if ranges == [] then []
    else AllAddresses(ranges[..|ranges| - 1]) + Addresses(ranges[|ranges| - 1].0, ranges[|ranges| - 1].1)
  }

  lemma HitsOneMore(lineSize: nat, lines: nat, trace: seq<nat>, a: nat)
    requires lineSize >= 1 && lines >= 1
    ensures DirectHits(lineSize, lines, trace + [a])
            == DirectHits(lineSize, lines, trace) + (if DirectHit(lineSize, lines, trace, a) then 1 else 0)
  {
    assert (trace + [a])[..|trace|] == trace;
  }

  datatype Meta = Meta(hitRate: real, instCount: nat, hitCount: nat, missCount: nat)

  /** Runs every address of every range.  A line size of zero divides by zero at once, a cache with
      no line at the first address, and no address at all where the hit rate is taken. */
  method SimulateICache(ranges: seq<(nat, nat)>, cacheSize: nat, lineSize: nat) returns (r: Result<Meta, string>)
    ensures r.Err? <==> lineSize == 0 || cacheSize < lineSize || AllAddresses(ranges) == []
    ensures r.Ok? ==>
      var all := AllAddresses(ranges); var n := cacheSize / lineSize;
      n >= 1 && r.value.instCount == |all| && r.value.hitCount == DirectHits(lineSize, n, all)
      && r.value.missCount == |all| - r.value.hitCount
      && r.value.hitRate * |all| as real == r.value.hitCount as real
  {
    hide DirectHit, Content, DirectHits;
    if lineSize == 0 || cacheSize < lineSize { return Err("ZeroDivisionError"); }
    var simulator := new ICacheSimulator(cacheSize, lineSize);
    var hits, count := 0, 0;
    NoHits(lineSize, simulator.numLines);
    for k := 0 to |ranges|
      invariant simulator.Valid() && fresh(simulator) && fresh(simulator.cache) && simulator.lineSize == lineSize
      invariant simulator.numLines == cacheSize / lineSize
      invariant simulator.trace == AllAddresses(ranges[..k])
      invariant count == |simulator.trace|
      invariant hits == DirectHits(lineSize, simulator.numLines, simulator.trace) && hits <= count
    {
      var (from, to) := ranges[k];
      assert ranges[..k + 1][..k] == ranges[..k];
      ghost var before := simulator.trace;
      var address := from;
      while address < to
        invariant simulator.Valid() && fresh(simulator) && fresh(simulator.cache)
        invariant before + Addresses(from, to) == simulator.trace + Addresses(address, to)
        invariant count == |simulator.trace|
        invariant hits == DirectHits(lineSize, simulator.numLines, simulator.trace) && hits <= count
        decreases if address < to then to - address else 0
      {
        HitsOneMore(lineSize, simulator.numLines, simulator.trace, address);
        count := count + 1;
        var hit := simulator.AccessCache(address);
        if hit { hits := hits + 1; }
        address := address + 4;
      }
    }
    assert ranges[..|ranges|] == ranges;
    if count == 0 { return Err("ZeroDivisionError"); }
    r := Ok(Meta(hits as real / count as real, count, hits, count - hits));
  }

  lemma NoHits(lineSize: nat, lines: nat)
    requires lineSize >= 1 && lines >= 1
    ensures DirectHits(lineSize, lines, []) == 0
  {}
}
