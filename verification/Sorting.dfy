/** Stand-in for the library sort calls (`sort.SliceStable`, `sort.Slice`): an in-place
    insertion sort, specified only by what every caller relies on. */
module Sorting {

  /** `less` orders `T` up to ties: asymmetric, and "not after" is transitive. */
  ghost predicate IsOrder<T(!new)>(less: (T, T) -> bool) {
    && (forall x, y :: less(x, y) ==> !less(y, x))
    && (forall x, y, z :: !less(y, x) && !less(z, y) ==> !less(z, x))
  }

  ghost predicate SortedBy<T>(less: (T, T) -> bool, s: seq<T>) {
    forall i, j :: 0 <= i < j < |s| ==> !less(s[j], s[i])
  }

  method Swap<T>(a: array<T>, j: nat)
    requires 0 < j < a.Length
    modifies a
    ensures a[..] == old(a[..])[j := old(a[j - 1])][j - 1 := old(a[j])]
    ensures multiset(a[..]) == multiset(old(a[..]))
  {
    a[j], a[j - 1] := a[j - 1], a[j];
  }

  method InsertionSort<T(!new)>(a: array<T>, less: (T, T) -> bool)
    requires IsOrder(less)
    modifies a
    ensures SortedBy(less, a[..])
    ensures multiset(a[..]) == multiset(old(a[..]))
  {
    var i := 0;
    while i < a.Length
      invariant 0 <= i <= a.Length
      invariant SortedBy(less, a[..i])
      invariant multiset(a[..]) == multiset(old(a[..]))
    {
      var j := i;
      while 0 < j && less(a[j], a[j - 1])
        invariant 0 <= j <= i
        invariant multiset(a[..]) == multiset(old(a[..]))
        // Sorted except that the item at j may belong further left.
        invariant forall p, q :: 0 <= p < q <= i && q != j ==> !less(a[q], a[p])
      {
        Swap(a, j);
        j := j - 1;
      }
      i := i + 1;
    }
    assert a[..a.Length] == a[..];
  }

  lemma {:induction false} AtMostOnce<T>(s: seq<T>, x: T)
    requires forall i, j :: 0 <= i < j < |s| ==> s[i] != s[j]
    ensures multiset(s)[x] <= 1
  {
    if s != [] {
      var n := |s| - 1;
      AtMostOnce(s[..n], x);
      assert s == s[..n] + [s[n]];
      assert s[n] !in s[..n];
      assert s[n] !in multiset(s[..n]);
    }
  }

  /** A listing drawn from distinct elements has no element twice. */
  lemma KeepsDistinct<T>(from: seq<T>, s: seq<T>, i: nat, j: nat)
    requires forall i, j :: 0 <= i < j < |from| ==> from[i] != from[j]
    requires multiset(s) <= multiset(from) && i < j < |s|
    ensures s[i] != s[j]
  {
    var front, back := s[..j], s[j..];
    assert s == front + back;
    assert front[i] == s[i] && back[0] == s[j];
    assert multiset(s)[s[i]] == multiset(front)[s[i]] + multiset(back)[s[i]];
    assert s[i] in multiset(front);
    assert back[0] in multiset(back);
    AtMostOnce(from, s[i]);
  }
}
