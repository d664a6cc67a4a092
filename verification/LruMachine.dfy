/** The data cache simulator: sets of lines with the time of their last use, updated in place,
    proved to hold what recency says and to count exactly the hits that recency predicts. */
module LruMachine {
  import opened LruCache
  import opened LruTheorems

  datatype Line = Line(tag: nat, dirty: bool, lastUsed: nat)

  // ---------- The lines of a set, by recency ----------

  function Stripped(mru: seq<Line>): (q: seq<Entry>)
    ensures |q| == |mru| && forall i | 0 <= i < |mru| :: q[i] == Entry(mru[i].tag, mru[i].dirty)
  {
    seq(|mru|, i requires 0 <= i < |mru| => Entry(mru[i].tag, mru[i].dirty))
  }

  predicate OneLinePerTag(lines: seq<Line>) { forall i, j | 0 <= i < j < |lines| :: lines[i].tag != lines[j].tag }

  predicate NewestFirst(mru: seq<Line>) { forall i, j | 0 <= i < j < |mru| :: mru[i].lastUsed > mru[j].lastUsed }

  /** The same lines, in whatever order they were appended and by recency. */
  ghost predicate SameLines(lines: seq<Line>, mru: seq<Line>) {
    && |lines| == |mru| && OneLinePerTag(lines) && NewestFirst(mru)
    && forall x :: x in lines <==> x in mru
  }

  function Drop(mru: seq<Line>, p: nat): seq<Line>
    requires p < |mru|
  {
    mru[..p] + mru[p + 1..]
  }

  lemma OneEntryPerTag(lines: seq<Line>, mru: seq<Line>, p: nat, q: nat)
    requires SameLines(lines, mru) && p < q < |mru|
    ensures mru[p].tag != mru[q].tag
  {
    assert mru[p] in lines && mru[q] in lines && mru[p] != mru[q];
  }

  lemma {:induction false} WithoutAt(q: seq<Entry>, p: nat)
    requires p < |q| && forall i | 0 <= i < p :: q[i].tag != q[p].tag
    ensures Without(q, q[p].tag) == q[..p] + q[p + 1..]
  {
    if p > 0 { WithoutAt(q[1..], p - 1); }
  }

  lemma {:induction false} WithoutAbsent(q: seq<Entry>, t: nat)
    requires forall i | 0 <= i < |q| :: q[i].tag != t
    ensures Without(q, t) == q && !IsDirty(q, t)
  {
    if q != [] { WithoutAbsent(q[1..], t); }
  }

  lemma DropMembers(mru: seq<Line>, p: nat)
    requires p < |mru| && forall i | 0 <= i < |mru| && i != p :: mru[i] != mru[p]
    ensures forall x :: x in Drop(mru, p) <==> x in mru && x != mru[p]
  {
    forall x | x in mru && x != mru[p] ensures x in Drop(mru, p) {
      var i :| 0 <= i < |mru| && mru[i] == x;
      assert Drop(mru, p)[if i < p then i else i - 1] == x;
    }
  }

  lemma HitKeeps(lines: seq<Line>, mru: seq<Line>, i: nat, p: nat, x: Line)
    requires SameLines(lines, mru) && i < |lines| && p < |mru| && mru[p] == lines[i]
    requires x.tag == lines[i].tag && forall k | 0 <= k < |mru| :: mru[k].lastUsed < x.lastUsed
    ensures SameLines(lines[i := x], [x] + Drop(mru, p))
  {
    DropMembers(mru, p);
    forall y ensures y in lines[i := x] <==> y == x || (y in lines && y != lines[i]) {
      if y == x { assert lines[i := x][i] == y; }
      if y in lines && y != lines[i] {
        var k :| 0 <= k < |lines| && lines[k] == y;
        assert lines[i := x][k] == y;
      }
    }
    assert OneLinePerTag(lines[i := x]);
    assert NewestFirst([x] + Drop(mru, p));
    assert forall y :: y in [x] + Drop(mru, p) <==> y == x || y in Drop(mru, p);
  }

  lemma HitEntries(lines: seq<Line>, mru: seq<Line>, p: nat, ways: nat, w: bool, time: nat)
    requires SameLines(lines, mru) && p < |mru| <= ways
    ensures var t := mru[p].tag;
      Stripped([Line(t, w || mru[p].dirty, time)] + Drop(mru, p)) == Touch(Stripped(mru), ways, Use(t, w))
  {
    hide SameLines;
    forall i, j | 0 <= i < j < |mru| ensures mru[i].tag != mru[j].tag { OneEntryPerTag(lines, mru, i, j); }
    TouchAt(Stripped(mru), p, ways, w);
    assert Stripped(Drop(mru, p)) == Stripped(mru)[..p] + Stripped(mru)[p + 1..];
    assert Stripped([Line(mru[p].tag, w || mru[p].dirty, time)] + Drop(mru, p))
           == [Entry(mru[p].tag, w || mru[p].dirty)] + Stripped(Drop(mru, p));
  }

  lemma TouchAt(q: seq<Entry>, p: nat, ways: nat, w: bool)
    requires p < |q| <= ways && forall i, j | 0 <= i < j < |q| :: q[i].tag != q[j].tag
    ensures Touch(q, ways, Use(q[p].tag, w)) == [Entry(q[p].tag, w || q[p].dirty)] + (q[..p] + q[p + 1..])
  {
    hide Without;
    WithoutAt(q, p);
    assert q[p] in q;
    assert IsDirty(q, q[p].tag) <==> q[p].dirty;
  }

  lemma FillKeeps(lines: seq<Line>, mru: seq<Line>, x: Line)
    requires SameLines(lines, mru)
    requires forall k | 0 <= k < |lines| :: lines[k].tag != x.tag
    requires forall k | 0 <= k < |mru| :: mru[k].lastUsed < x.lastUsed
    ensures SameLines(lines + [x], [x] + mru)
  {}

  lemma MissEntries(lines: seq<Line>, mru: seq<Line>, x: Line, ways: nat)
    requires SameLines(lines, mru) && 1 <= ways && |mru| <= ways
    requires forall k | 0 <= k < |lines| :: lines[k].tag != x.tag
    ensures Stripped([x] + (if |mru| == ways then mru[..ways - 1] else mru))
            == Touch(Stripped(mru), ways, Use(x.tag, x.dirty))
  {
    var q := Stripped(mru);
    forall i | 0 <= i < |q| ensures q[i].tag != x.tag { assert mru[i] in lines; }
    hide SameLines;
    WithoutAbsent(q, x.tag);
  }

  /** Evicting the line used longest ago drops the last of the recency order. */
  lemma EvictKeeps(lines: seq<Line>, mru: seq<Line>, m: nat)
    requires SameLines(lines, mru) && m < |lines|
    requires forall k | 0 <= k < |lines| :: lines[m].lastUsed <= lines[k].lastUsed
    ensures mru[|mru| - 1] == lines[m] && SameLines(Drop(lines, m), mru[..|mru| - 1])
  {
    var n := |mru| - 1;
    assert lines[m] in mru && mru[n] in lines;
    assert mru[n] == lines[m];
    DropMembers(lines, m);
    DropMembers(mru, n);
    assert Drop(mru, n) == mru[..n];
  }

  // ---------- The simulator ----------

  class DCacheSimulator {
    const cacheSize: nat
    const blockSize: nat
    const associativity: nat
    const numSets: nat
    var cache: seq<seq<Line>>
    var time: nat
    var totalAccesses: nat
    var hits: nat
    ghost var trace: seq<Access>
    ghost var recent: seq<seq<Line>>

    function Geometry(): Shape { Shape(blockSize, numSets) }

    ghost predicate Usable() { blockSize >= 1 && associativity >= 1 && numSets >= 1 }

    /** Set s holds exactly what its history says. */
    ghost predicate SetValid(s: nat)
      reads this
      requires Usable() && |cache| == |recent| == numSets && s < numSets
    {
      && SameLines(cache[s], recent[s])
      && (forall k | 0 <= k < |recent[s]| :: recent[s][k].lastUsed <= time)
      && |recent[s]| <= associativity
      && Stripped(recent[s]) == Entries(UsesOf(Geometry(), trace, s), associativity)
    }

    ghost predicate Valid()
      reads this
    {
      && Usable()
      && |cache| == |recent| == numSets
      && totalAccesses == time == |trace|
      && hits == Hits(Geometry(), associativity, trace)
      && forall s | 0 <= s < numSets :: SetValid(s)
    }

    /** The source divides by the block size and associativity and shifts by the bit length of the
        number of sets less one, so all three must be at least one. */
    constructor (cacheSize: nat, blockSize: nat, associativity: nat)
      requires blockSize >= 1 && associativity >= 1 && cacheSize >= blockSize * associativity >= 1
      ensures Valid() && trace == []
      ensures this.cacheSize == cacheSize && this.blockSize == blockSize && this.associativity == associativity
      ensures this.numSets == cacheSize / (blockSize * associativity)
    {
      this.cacheSize, this.blockSize, this.associativity := cacheSize, blockSize, associativity;
      var sets := cacheSize / (blockSize * associativity);
      this.numSets := sets;
      cache := seq(sets, _ => []);
      time, totalAccesses, hits := 0, 0, 0;
      trace, recent := [], seq(sets, _ => []);
    }

    /** The tags in a set, by the specification of recency. */
    lemma TagsResident(s: nat)
      requires Valid() && s < numSets
      ensures forall t :: (exists x :: x in cache[s] && x.tag == t) <==> HitsSet(UsesOf(Geometry(), trace, s), associativity, t)
    {
      hide SameLines, Entries, UsesOf, Resident;
      assert SetValid(s);
      EntriesAreResident(UsesOf(Geometry(), trace, s), associativity);
      var r := Resident(UsesOf(Geometry(), trace, s), associativity);
      assert |r| == |recent[s]| && forall i | 0 <= i < |r| :: r[i] == recent[s][i].tag;
      forall t ensures (exists x :: x in cache[s] && x.tag == t) <==> t in r {
        MembersByRecency(cache[s], recent[s]);
        if t in r { var i :| 0 <= i < |r| && r[i] == t; assert recent[s][i] in recent[s]; }
      }
    }

    method FindLine(lines: seq<Line>, tag: nat) returns (i: nat)
      ensures i <= |lines| && (i < |lines| ==> lines[i].tag == tag)
      ensures forall k | 0 <= k < i :: lines[k].tag != tag
    {
      i := 0;
      while i < |lines| && lines[i].tag != tag
        invariant i <= |lines| && forall k | 0 <= k < i :: lines[k].tag != tag
      {
        i := i + 1;
      }
    }

    /** The first line whose last use is longest ago. */
    method FindOldest(lines: seq<Line>) returns (m: nat)
      requires lines != []
      ensures m < |lines| && forall k | 0 <= k < |lines| :: lines[m].lastUsed <= lines[k].lastUsed
    {
      m := 0;
      for i := 1 to |lines|
        invariant m < |lines| && forall k | 0 <= k < i :: lines[m].lastUsed <= lines[k].lastUsed
      {
        if lines[i].lastUsed < lines[m].lastUsed { m := i; }
      }
    }

    /** One set after an access, and the same by recency. */
    method UpdateSet(lines: seq<Line>, ghost mru: seq<Line>, tag: nat, write: bool)
      returns (hit: bool, lines': seq<Line>, ghost mru': seq<Line>)
      requires associativity >= 1 && SameLines(lines, mru) && |mru| <= associativity
      requires forall k | 0 <= k < |mru| :: mru[k].lastUsed < time
      ensures hit <==> exists x :: x in lines && x.tag == tag
      ensures SameLines(lines', mru') && |mru'| <= associativity
      ensures forall k | 0 <= k < |mru'| :: mru'[k].lastUsed <= time
      ensures Stripped(mru') == Touch(Stripped(mru), associativity, Use(tag, write))
    {
      hide SameLines, Touch;
      MembersByRecency(lines, mru);
      var i := FindLine(lines, tag);
      if i < |lines| {
        assert lines[i] in lines;
        ghost var p :| 0 <= p < |mru| && mru[p] == lines[i];
        var x := Line(tag, write || lines[i].dirty, time);
        HitKeeps(lines, mru, i, p, x);
        HitEntries(lines, mru, p, associativity, write, time);
        hit, lines', mru' := true, lines[i := x], [x] + Drop(mru, p);
      } else {
        var x := Line(tag, write, time);
        MissEntries(lines, mru, x, associativity);
        hit, lines', mru' := false, lines, mru;
        if |lines| >= associativity {
          var m := FindOldest(lines);
          EvictKeeps(lines, mru, m);
          lines', mru' := lines[..m] + lines[m + 1..], mru[..|mru| - 1];
        }
        FillKeeps(lines', mru', x);
        lines', mru' := lines' + [x], [x] + mru';
      }
    }

    /** One access: it hits exactly when recency says that its tag is resident, and every set is
        again what recency says. */
    method AccessCache(address: nat, write: bool) returns (hit: bool)
      requires Valid()
      modifies this
      ensures Valid() && trace == old(trace) + [Access(address, write)]
      ensures hit <==> HitsSet(UsesOf(Geometry(), old(trace), SetOf(Geometry(), address)), associativity,
                               TagOf(Geometry(), address))
      ensures hits == old(hits) + (if hit then 1 else 0)
    {
      hide SameLines, SetOf, TagOf, Entries, Touch, HitsSet, UsesOf, Hits;
      var s, tag := SetOf(Geometry(), address), TagOf(Geometry(), address);
      assert SetValid(s);
      TagsResident(s);
      OneAccessMore(Geometry(), associativity, trace, Access(address, write));
      time := time + 1;
      totalAccesses := totalAccesses + 1;
      ghost var mru;
      var lines;
      hit, lines, mru := UpdateSet(cache[s], recent[s], tag, write);
      if hit { hits := hits + 1; }
      cache := cache[s := lines];
      recent := recent[s := mru];
      trace := trace + [Access(address, write)];
      forall j | 0 <= j < numSets ensures SetValid(j) {
        assert old(SetValid(j));
      }
    }
  }

  lemma MembersByRecency(lines: seq<Line>, mru: seq<Line>)
    requires SameLines(lines, mru)
    ensures |lines| == |mru| && forall x :: x in lines <==> x in mru
  {}

  lemma OneAccessMore(g: Shape, ways: nat, trace: seq<Access>, a: Access)
    requires ValidShape(g)
    ensures forall s | s != SetOf(g, a.address) :: UsesOf(g, trace + [a], s) == UsesOf(g, trace, s)
    ensures var s := SetOf(g, a.address); var u := Use(TagOf(g, a.address), a.write);
      Entries(UsesOf(g, trace + [a], s), ways) == Touch(Entries(UsesOf(g, trace, s), ways), ways, u)
    ensures Hits(g, ways, trace + [a]) == Hits(g, ways, trace)
              + (if HitsSet(UsesOf(g, trace, SetOf(g, a.address)), ways, TagOf(g, a.address)) then 1 else 0)
  {
    assert (trace + [a])[..|trace + [a]| - 1] == trace;
    var h := UsesOf(g, trace, SetOf(g, a.address));
    var u := Use(TagOf(g, a.address), a.write);
    assert (h + [u])[..|h + [u]| - 1] == h;
  }

  /** The number of accesses and of hits of a whole trace. */
  method SimulateTrace(cache: DCacheSimulator, trace: seq<Access>) returns (accesses: nat, hits: nat)
    requires cache.Valid() && cache.trace == []
    modifies cache
    ensures cache.Valid() && cache.trace == trace
    ensures accesses == |trace| && hits == Hits(cache.Geometry(), cache.associativity, trace)
  {
    for i := 0 to |trace|
      invariant cache.Valid() && cache.trace == trace[..i]
    {
      var hit := cache.AccessCache(trace[i].address, trace[i].write);
      assert trace[..i + 1] == trace[..i] + [trace[i]];
    }
    assert trace[..|trace|] == trace;
    accesses, hits := cache.totalAccesses, cache.hits;
  }

  /** Some line has the tag of x, and is dirty if x is. */
  predicate Covers(lines: seq<Line>, x: Line) {
    exists y :: y in lines && y.tag == x.tag && (x.dirty ==> y.dirty)
  }

  /** Two caches with the same block size and number of sets that have seen the same trace: the one
      with more ways holds every line of the other, dirty where that is dirty, and has hit at least
      as often. */
  lemma LargerHoldsSmaller(small: DCacheSimulator, large: DCacheSimulator)
    requires small.Valid() && large.Valid() && small.trace == large.trace
    requires small.blockSize == large.blockSize && small.numSets == large.numSets
    requires small.associativity <= large.associativity
    ensures small.hits <= large.hits
    ensures forall s, x | 0 <= s < small.numSets && x in small.cache[s] :: Covers(large.cache[s], x)
  {
    hide SameLines, Entries, UsesOf, Hits;
    var g, trace := small.Geometry(), small.trace;
    MoreWaysMoreHits(g, small.associativity, large.associativity, trace);
    forall s, x | 0 <= s < small.numSets && x in small.cache[s] ensures Covers(large.cache[s], x)
    {
      assert small.SetValid(s) && large.SetValid(s);
      Inclusion(UsesOf(g, trace, s), small.associativity, large.associativity);
      MembersByRecency(small.cache[s], small.recent[s]);
      MembersByRecency(large.cache[s], large.recent[s]);
      var i :| 0 <= i < |small.recent[s]| && small.recent[s][i] == x;
      LineInLarger(small.recent[s], large.recent[s], i);
      var y :| y in large.recent[s] && y.tag == x.tag && (x.dirty ==> y.dirty);
      assert y in large.cache[s];
    }
  }

  /** The line at a position of a recency order, found in an order that it begins. */
  lemma LineInLarger(mru: seq<Line>, more: seq<Line>, i: nat)
    requires i < |mru| && Tags(Stripped(mru)) <= Tags(Stripped(more))
    requires forall t | IsDirty(Stripped(mru), t) :: IsDirty(Stripped(more), t)
    ensures Covers(more, mru[i])
  {
    assert Tags(Stripped(mru)) == Tags(Stripped(more))[..|mru|];
    if mru[i].dirty {
      assert Stripped(mru)[i] in Stripped(mru);
      assert IsDirty(Stripped(mru), mru[i].tag);
      var e :| e in Stripped(more) && e.tag == mru[i].tag && e.dirty;
      var j :| 0 <= j < |more| && Stripped(more)[j] == e;
      assert more[j] in more && more[j].tag == mru[i].tag && more[j].dirty;
    } else {
      assert more[i] in more && more[i].tag == mru[i].tag;
    }
  }
}
