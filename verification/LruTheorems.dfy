/** Least-recently-used replacement keeps exactly the most recent tags, and a larger set of
    ways never does worse. */
module LruTheorems {
  import opened LruCache

  predicate Distinct(q: seq<nat>) { forall i, j | 0 <= i < j < |q| :: q[i] != q[j] }

  // ---------- The recency list means what it says ----------

  lemma {:induction false} RemoveSplits(q: seq<nat>, t: nat) returns (p: nat)
    requires t in q
    ensures p < |q| && q[p] == t && Remove(q, t) == q[..p] + q[p + 1..]
  {
    if q[0] == t {
      p := 0;
    } else {
      p := RemoveSplits(q[1..], t);
      p := p + 1;
    }
  }

  lemma {:induction false} RemoveAbsent(q: seq<nat>, t: nat)
    requires t !in q
    ensures Remove(q, t) == q
  {
    if q != [] { RemoveAbsent(q[1..], t); }
  }

  lemma RemoveDistinct(q: seq<nat>, t: nat)
    requires Distinct(q)
    ensures Distinct(Remove(q, t)) && t !in Remove(q, t)
    ensures forall x :: x in Remove(q, t) <==> x in q && x != t
    ensures |Remove(q, t)| == if t in q then |q| - 1 else |q|
  {
    hide Remove;
    if t in q {
      var p := RemoveSplits(q, t);
      forall x | x in q && x != t ensures x in Remove(q, t) {
        var i :| 0 <= i < |q| && q[i] == x;
        assert Remove(q, t)[if i < p then i else i - 1] == x;
      }
    } else {
      RemoveAbsent(q, t);
    }
  }

  /** Removing a tag keeps the others in order. */
  lemma RemoveKeepsOrder(q: seq<nat>, t: nat, i: nat, j: nat) returns (a: nat, b: nat)
    requires i < j < |Remove(q, t)|
    ensures a < b < |q| && q[a] == Remove(q, t)[i] && q[b] == Remove(q, t)[j]
  {
    hide Remove;
    a, b := i, j;
    if t in q {
      var p := RemoveSplits(q, t);
      if i >= p { a := i + 1; }
      if j >= p { b := j + 1; }
    } else {
      RemoveAbsent(q, t);
    }
  }

  /** One more than the position of the last use of a tag, or 0 when there is none. */
  function LastUse(h: seq<Use>, t: nat): (n: nat)
    ensures n <= |h|
    ensures n == 0 <==> forall i | 0 <= i < |h| :: h[i].tag != t
    ensures n > 0 ==> h[n - 1].tag == t && forall i | n <= i < |h| :: h[i].tag != t
    decreases |h|
  {
    if h == [] then 0 else if h[|h| - 1].tag == t then |h| else LastUse(h[..|h| - 1], t)
  }

  lemma {:induction false} RecencyMembers(h: seq<Use>)
    ensures Distinct(Recency(h))
    ensures forall t :: t in Recency(h) <==> LastUse(h, t) > 0
    decreases |h|
  {
    if h != [] {
      RecencyMembers(h[..|h| - 1]);
      RemoveDistinct(Recency(h[..|h| - 1]), h[|h| - 1].tag);
    }
  }

  lemma OneUseMore(h: seq<Use>)
    requires h != []
    ensures var init, t := h[..|h| - 1], h[|h| - 1].tag;
      && Recency(h) == [t] + Remove(Recency(init), t)
      && LastUse(h, t) == |h|
      && forall x | x != t :: LastUse(h, x) == LastUse(init, x) <= |init|
  {}

  /** Earlier in the recency list means used more recently. */
  lemma {:induction false} RecencyByLastUse(h: seq<Use>, i: nat, j: nat)
    requires i < j < |Recency(h)|
    ensures LastUse(h, Recency(h)[i]) > LastUse(h, Recency(h)[j])
    decreases |h|
  {
    hide Remove, LastUse;
    if h == [] { return; }
    var init, t := h[..|h| - 1], h[|h| - 1].tag;
    OneUseMore(h);
    hide Recency;
    var rest := Remove(Recency(init), t);
    RecencyMembers(init);
    RemoveDistinct(Recency(init), t);
    assert Recency(h)[j] == rest[j - 1];
    assert rest[j - 1] in rest;
    if i > 0 {
      assert Recency(h)[i] == rest[i - 1] && rest[i - 1] in rest;
      var a, b := RemoveKeepsOrder(Recency(init), t, i - 1, j - 1);
      RecencyByLastUse(init, a, b);
    }
  }

  /** A tag is resident exactly when fewer than `ways` distinct tags have been used since it was. */
  lemma ResidentByDistance(h: seq<Use>, ways: nat, t: nat)
    ensures HitsSet(h, ways, t) <==> LastUse(h, t) > 0 && |set x | x in Recency(h) && LastUse(h, x) > LastUse(h, t)| < ways
  {
    hide Recency, LastUse;
    RecencyMembers(h);
    if LastUse(h, t) > 0 {
      var p :| 0 <= p < |Recency(h)| && Recency(h)[p] == t;
      NewerIsPrefix(h, p);
    }
  }

  lemma NewerIsPrefix(h: seq<Use>, p: nat)
    requires p < |Recency(h)|
    ensures |set x | x in Recency(h) && LastUse(h, x) > LastUse(h, Recency(h)[p])| == p
    ensures forall k: nat :: Recency(h)[p] in Take(Recency(h), k) <==> p < k
  {
    hide Recency, LastUse;
    var r := Recency(h);
    RecencyMembers(h);
    forall i, j | 0 <= i < j < |r| ensures LastUse(h, r[i]) > LastUse(h, r[j]) { RecencyByLastUse(h, i, j); }
    forall x | x in r ensures LastUse(h, x) > LastUse(h, r[p]) <==> x in r[..p] {
      var i :| 0 <= i < |r| && r[i] == x;
      if i < p { assert r[..p][i] == x; }
    }
    assert (set x | x in r && LastUse(h, x) > LastUse(h, r[p])) == Members(r[..p]);
    PrefixSize(r[..p]);
  }

  function Members(q: seq<nat>): set<nat> { set x | x in q }

  lemma {:induction false} PrefixSize(q: seq<nat>)
    requires Distinct(q)
    ensures |Members(q)| == |q|
    decreases |q|
  {
    if q != [] {
      var n := |q| - 1;
      PrefixSize(q[..n]);
      assert q == q[..n] + [q[n]];
      assert Members(q) == Members(q[..n]) + {q[n]};
    }
  }

  // ---------- A set holds exactly the resident tags ----------

  lemma {:induction false} WithoutTags(q: seq<Entry>, t: nat)
    ensures Tags(Without(q, t)) == Remove(Tags(q), t)
  {
    if q != [] {
      WithoutTags(q[1..], t);
      assert Tags(q)[1..] == Tags(q[1..]);
    }
  }

  lemma TakeTail(r: seq<nat>, k: nat)
    requires k >= 1 && r != []
    ensures Take(r, k) == [r[0]] + Take(r[1..], k - 1)
    ensures Take(r, k)[1..] == Take(r[1..], k - 1)
  {}

  /** Forgetting beyond the ways before or after a use makes no difference. */
  lemma {:induction false} TakeRemove(r: seq<nat>, t: nat, k: nat)
    requires k >= 1
    ensures Take(Remove(Take(r, k), t), k - 1) == Take(Remove(r, t), k - 1)
    decreases k
  {
    hide Take;
    if r != [] {
      TakeTail(r, k);
      if r[0] == t {
        TakeTwice(r[1..], k - 1);
      } else if k == 1 {
        TakeNone(Remove(Take(r, k), t), Remove(r, t));
      } else {
        TakeRemove(r[1..], t, k - 1);
        TakeCons(r[0], Remove(Take(r[1..], k - 1), t), k - 1);
        TakeCons(r[0], Remove(r[1..], t), k - 1);
      }
    } else {
      TakeNone(r, r);
    }
  }

  lemma TakeTwice(r: seq<nat>, k: nat)
    ensures Take(Take(r, k), k) == Take(r, k)
  {}

  lemma TakeNone(q: seq<nat>, r: seq<nat>)
    ensures Take(q, 0) == Take(r, 0)
    ensures forall k: nat :: q == [] ==> Take(q, k) == []
  {}

  lemma {:induction false} EntriesAreResident(h: seq<Use>, ways: nat)
    requires ways >= 1
    ensures Tags(Entries(h, ways)) == Resident(h, ways)
    decreases |h|
  {
    if h != [] {
      var init, u := h[..|h| - 1], h[|h| - 1];
      var q := Entries(init, ways);
      EntriesAreResident(init, ways);
      WithoutTags(q, u.tag);
      TakeRemove(Recency(init), u.tag, ways);
      var full := [Entry(u.tag, u.write || IsDirty(q, u.tag))] + Without(q, u.tag);
      assert Tags(full) == [u.tag] + Remove(Tags(q), u.tag);
      assert Tags(Take(full, ways)) == Take(Tags(full), ways);
      TakeCons(u.tag, Remove(Tags(q), u.tag), ways);
      TakeCons(u.tag, Remove(Recency(init), u.tag), ways);
    }
  }

  lemma TakeCons(x: nat, q: seq<nat>, k: nat)
    requires k >= 1
    ensures Take([x] + q, k) == [x] + Take(q, k - 1)
  {}

  // ---------- Inclusion ----------

  lemma ResidentPrefix(h: seq<Use>, k: nat, m: nat)
    requires k <= m
    ensures Resident(h, k) <= Resident(h, m)
  {}

  lemma {:induction false} MoreWaysMoreHits(g: Shape, k: nat, m: nat, trace: seq<Access>)
    requires ValidShape(g) && k <= m
    ensures Hits(g, k, trace) <= Hits(g, m, trace)
    decreases |trace|
  {
    if trace != [] {
      var init, a := trace[..|trace| - 1], trace[|trace| - 1];
      MoreWaysMoreHits(g, k, m, init);
      var h := UsesOf(g, init, SetOf(g, a.address));
      ResidentPrefix(h, k, m);
      assert forall t | t in Resident(h, k) :: t in Resident(h, m);
    }
  }

  // ---------- Dirty lines ----------

  /** Written at position i of the history and never evicted since. */
  predicate WrittenAndKept(h: seq<Use>, ways: nat, t: nat, i: nat) {
    && i < |h| && h[i].tag == t && h[i].write
    && forall j | i < j <= |h| :: HitsSet(h[..j], ways, t)
  }

  lemma {:induction false} WithoutMembers(q: seq<Entry>, t: nat)
    requires Distinct(Tags(q))
    ensures forall e :: e in Without(q, t) <==> e in q && e.tag != t
  {
    if q != [] {
      assert Tags(q)[1..] == Tags(q[1..]);
      assert forall e :: e in q <==> e == q[0] || e in q[1..];
      if q[0].tag == t {
        forall e | e in q[1..] ensures e.tag != t {
          var i :| 0 <= i < |q| - 1 && q[i + 1] == e;
          assert Tags(q)[i + 1] != Tags(q)[0];
        }
      } else {
        WithoutMembers(q[1..], t);
        assert forall e :: e in Without(q, t) <==> e == q[0] || e in Without(q[1..], t);
      }
    }
  }

  lemma TouchDirty(q: seq<Entry>, ways: nat, u: Use, t: nat)
    requires ways >= 1 && Distinct(Tags(q))
    ensures IsDirty(Touch(q, ways, u), t) <==>
            if t == u.tag then u.write || IsDirty(q, t) else IsDirty(q, t) && t in Tags(Touch(q, ways, u))
  {
    WithoutMembers(q, u.tag);
    var full := [Entry(u.tag, u.write || IsDirty(q, u.tag))] + Without(q, u.tag);
    var kept := Touch(q, ways, u);
    assert kept <= full && kept[0] == full[0];
    assert forall e | e in kept :: e in full;
    if t == u.tag {
      assert IsDirty(kept, t) <==> full[0].dirty;
    } else if IsDirty(q, t) && t in Tags(kept) {
      var i :| 0 <= i < |kept| && Tags(kept)[i] == t;
      var e :| e in q && e.tag == t && e.dirty;
      SameEntry(q, kept[i], e);
      assert kept[i] in kept;
    }
  }

  lemma SameEntry(q: seq<Entry>, d: Entry, e: Entry)
    requires Distinct(Tags(q)) && d in q && e in q && d.tag == e.tag
    ensures d == e
  {
    var i :| 0 <= i < |q| && q[i] == d;
    var j :| 0 <= j < |q| && q[j] == e;
    assert Tags(q)[i] == Tags(q)[j];
  }

  lemma KeptOneMore(h: seq<Use>, ways: nat, t: nat, i: nat)
    requires h != []
    ensures i < |h| - 1 ==>
              (WrittenAndKept(h, ways, t, i) <==> WrittenAndKept(h[..|h| - 1], ways, t, i) && HitsSet(h, ways, t))
    ensures i == |h| - 1 ==>
              (WrittenAndKept(h, ways, t, i) <==> h[i].tag == t && h[i].write && HitsSet(h, ways, t))
  {
    hide HitsSet;
    var init := h[..|h| - 1];
    assert h[..|h|] == h;
    forall j | 0 <= j <= |init| ensures init[..j] == h[..j] {}
  }

  /** A line is dirty exactly when it has been written since it was last brought in. */
  lemma {:induction false} DirtyMeansWrittenSinceBroughtIn(h: seq<Use>, ways: nat, t: nat)
    requires ways >= 1
    ensures IsDirty(Entries(h, ways), t) <==> exists i: nat :: WrittenAndKept(h, ways, t, i)
    decreases |h|
  {
    hide WrittenAndKept, Touch, Recency, IsDirty;
    if h == [] {
      NothingDirty(ways, t);
    } else {
      var n := |h| - 1;
      var init, u := h[..n], h[n];
      DirtyMeansWrittenSinceBroughtIn(init, ways, t);
      EntriesAreResident(init, ways);
      EntriesAreResident(h, ways);
      ResidentDistinct(init, ways);
      LatestIsResident(h, ways);
      TouchDirty(Entries(init, ways), ways, u, t);
      forall i: nat | i <= n
        ensures WrittenAndKept(h, ways, t, i) <==>
                if i < n then WrittenAndKept(init, ways, t, i) && HitsSet(h, ways, t) else u.tag == t && u.write
      {
        KeptOneMore(h, ways, t, i);
      }
      assert WrittenAndKept(h, ways, t, n) <==> u.tag == t && u.write;
      assert Tags(Touch(Entries(init, ways), ways, u)) == Resident(h, ways);
      if i: nat :| WrittenAndKept(init, ways, t, i) && i < n { assert WrittenAndKept(h, ways, t, i) <==> HitsSet(h, ways, t); }
      KeptInside(h, ways, t);
      KeptInside(init, ways, t);
    }
  }

  lemma KeptInside(h: seq<Use>, ways: nat, t: nat)
    ensures forall i: nat :: WrittenAndKept(h, ways, t, i) ==> i < |h|
  {}

  lemma NothingDirty(ways: nat, t: nat)
    ensures !IsDirty(Entries([], ways), t) && forall i: nat :: !WrittenAndKept([], ways, t, i)
  {}

  lemma LatestIsResident(h: seq<Use>, ways: nat)
    requires h != [] && ways >= 1
    ensures HitsSet(h, ways, h[|h| - 1].tag)
  {
    assert Resident(h, ways)[0] == h[|h| - 1].tag;
  }

  lemma ResidentDistinct(h: seq<Use>, ways: nat)
    ensures Distinct(Resident(h, ways))
  {
    RecencyMembers(h);
  }

  /** After the same uses a set with more ways holds every tag that one with fewer does, in the same
      order of recency, and whatever is dirty in the smaller set is dirty in the larger. */
  lemma Inclusion(h: seq<Use>, k: nat, m: nat)
    requires 1 <= k <= m
    ensures Tags(Entries(h, k)) <= Tags(Entries(h, m))
    ensures forall t | IsDirty(Entries(h, k), t) :: IsDirty(Entries(h, m), t)
  {
    hide Entries, IsDirty, Resident;
    EntriesAreResident(h, k);
    EntriesAreResident(h, m);
    ResidentPrefix(h, k, m);
    forall t | IsDirty(Entries(h, k), t) ensures IsDirty(Entries(h, m), t) {
      DirtyMeansWrittenSinceBroughtIn(h, k, t);
      DirtyMeansWrittenSinceBroughtIn(h, m, t);
      var i: nat :| WrittenAndKept(h, k, t, i);
      KeptWithMoreWays(h, k, m, t, i);
    }
  }

  lemma KeptWithMoreWays(h: seq<Use>, k: nat, m: nat, t: nat, i: nat)
    requires k <= m && WrittenAndKept(h, k, t, i)
    ensures WrittenAndKept(h, m, t, i)
  {
    hide Resident;
    forall j | i < j <= |h| ensures HitsSet(h[..j], m, t) { ResidentPrefix(h[..j], k, m); }
  }
}
