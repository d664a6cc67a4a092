/** Facts about sequences and maps that several models use. */
module Collections {
  /** The order of a dictionary, from an order of the elements. */
  predicate Precedes<T(==)>(a: seq<T>, b: seq<T>, below: (T, T) -> bool) {
    b != [] && (a == [] || below(a[0], b[0]) || (a[0] == b[0] && Precedes(a[1..], b[1..], below)))
  }

  /** It goes one way only if the order of the elements does. */
  lemma {:induction false} PrecedesIsOneWay<T>(a: seq<T>, b: seq<T>, below: (T, T) -> bool)
    requires forall i, j | 0 <= i < |a| && 0 <= j < |b| && below(a[i], b[j]) :: a[i] != b[j] && !below(b[j], a[i])
    requires Precedes(a, b, below)
    ensures !Precedes(b, a, below) && a != b
  {
    if a != [] && a[0] == b[0] { PrecedesIsOneWay(a[1..], b[1..], below); }
  }

  lemma {:induction false} PrefixIsNotAfter<T>(a: seq<T>, rest: seq<T>, below: (T, T) -> bool)
    requires forall i | 0 <= i < |a| :: !below(a[i], a[i])
    ensures !Precedes(a + rest, a, below)
  {
    if a != [] {
      assert (a + rest)[1..] == a[1..] + rest;
      PrefixIsNotAfter(a[1..], rest, below);
    }
  }

  lemma SmallerWithout<V>(m: map<string, V>, key: string)
    requires key in m
    ensures |m - {key}| == |m| - 1
  {
    assert (m - {key}).Keys == m.Keys - {key};
    assert |m.Keys - {key}| == |m.Keys| - 1;
    assert |m - {key}| == |(m - {key}).Keys|;
  }
}
