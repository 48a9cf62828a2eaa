/** Small facts about built-in sets. */
module Sets {

  /** A non-empty set has an element; used before drawing one. */
  lemma Draw<T>(s: set<T>) returns (x: T)
    requires s != {}
    ensures x in s
  {
    x :| x in s;
  }

  lemma SubsetSize<T>(a: set<T>, b: set<T>)
    requires a <= b
    ensures |a| <= |b|
    ensures |a| == |b| ==> a == b
  {
    assert b == a + (b - a);
    assert |b| == |a| + |b - a|;
    assert |b - a| == 0 ==> b - a == {};
  }

  /** A set that embeds into `t` through an injective key is no larger than `t`. */
  lemma {:induction false} EmbeddedSize<A, B>(s: set<A>, key: map<A, B>, t: set<B>)
    requires forall x :: x in s ==> x in key && key[x] in t
    requires forall x, y :: x in s && y in s && key[x] == key[y] ==> x == y
    ensures |s| <= |t|
    decreases |s|
  {
    if s != {} {
      var x := Draw(s);
      EmbeddedSize(s - {x}, key, t - {key[x]});
    }
  }

  /** The numbers below `n`. */
  function Below(n: nat): (r: set<nat>)
    ensures |r| == n
    ensures forall i: nat :: i in r <==> i < n
  {
    if n == 0 then {} else Below(n - 1) + {n - 1}
  }
}
