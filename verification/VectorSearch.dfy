/** Cosine similarity as the accumulator loop computes it, and the top-K cut of the
    vector stream (internal/search/hybrid.go). The square root is a parameter. */
module VectorSearch {
  import opened Reals
  import opened Sorting

  /** What the proofs need from a square root: non-negative, and it squares back. */
  ghost predicate IsSqrt(sqrt: real -> real) {
    forall x :: x >= 0.0 ==> sqrt(x) >= 0.0 && Times(sqrt(x), sqrt(x)) == x
  }

  function Dot(a: seq<real>, b: seq<real>): real
    requires |a| == |b|
  {
    if a == [] then 0.0 else
      var n := |a| - 1;
      Dot(a[..n], b[..n]) + Times(a[n], b[n])
  }

  predicate Comparable(a: seq<real>, b: seq<real>) {
    |a| > 0 && |a| == |b| && Dot(a, a) != 0.0 && Dot(b, b) != 0.0
  }

  /** 0 for empty, unequal or zero vectors, otherwise the normalised inner product. */
  ghost function CosineOf(a: seq<real>, b: seq<real>, sqrt: real -> real): real
    requires IsSqrt(sqrt)
  {
    if !Comparable(a, b) then 0.0
    else
      NormsMultiply(a, b, sqrt);
      Dot(a, b) / NormProduct(a, b, sqrt)
  }

  /** The product of the two norms. */
  ghost function NormProduct(a: seq<real>, b: seq<real>, sqrt: real -> real): real {
    Times(sqrt(Dot(a, a)), sqrt(Dot(b, b)))
  }

  lemma {:induction false} DotSquare(a: seq<real>)
    ensures Dot(a, a) >= 0.0
  {
    if a != [] {
      DotSquare(a[..|a| - 1]);
      SquareSign(a[|a| - 1]);
    }
  }

  lemma NormPositive(a: seq<real>, sqrt: real -> real)
    requires IsSqrt(sqrt) && Dot(a, a) != 0.0
    ensures Dot(a, a) > 0.0 && sqrt(Dot(a, a)) > 0.0
  {
    DotSquare(a);
    Units(0.0);
  }

  lemma NormsMultiply(a: seq<real>, b: seq<real>, sqrt: real -> real)
    requires IsSqrt(sqrt) && Comparable(a, b)
    ensures NormProduct(a, b, sqrt) > 0.0
    ensures Times(NormProduct(a, b, sqrt), NormProduct(a, b, sqrt)) == Times(Dot(a, a), Dot(b, b))
  {
    NormPositive(a, sqrt);
    NormPositive(b, sqrt);
    hide Times, Dot;
    Positive(sqrt(Dot(a, a)), sqrt(Dot(b, b)));
    SquareOfProduct(sqrt(Dot(a, a)), sqrt(Dot(b, b)));
  }

  method Cosine(a: seq<real>, b: seq<real>, sqrt: real -> real) returns (r: real)
    requires IsSqrt(sqrt)
    ensures r == CosineOf(a, b, sqrt)
  {
    if |a| == 0 || |a| != |b| {
      return 0.0;
    }
    var dot, normA, normB := 0.0, 0.0, 0.0;
    for i := 0 to |a|
      invariant dot == Dot(a[..i], b[..i])
      invariant normA == Dot(a[..i], a[..i])
      invariant normB == Dot(b[..i], b[..i])
    {
      assert a[..i + 1][..i] == a[..i] && b[..i + 1][..i] == b[..i];
      dot := dot + a[i] * b[i];
      normA := normA + a[i] * a[i];
      normB := normB + b[i] * b[i];
    }
    assert a[..|a|] == a && b[..|b|] == b;
    if normA == 0.0 || normB == 0.0 {
      return 0.0;
    }
    NormsMultiply(a, b, sqrt);
    return dot / (sqrt(normA) * sqrt(normB));
  }

  // ---------------------------------------------------------------- Cauchy-Schwarz

  /** Squared distance from `b` to `c` times `a`. */
  function Residual(a: seq<real>, b: seq<real>, c: real): real
    requires |a| == |b|
  {
    if a == [] then 0.0 else
      var n := |a| - 1;
      Residual(a[..n], b[..n], c) + Gap(a[n], b[n], c)
  }

  function Gap(x: real, y: real, c: real): real {
    Times(y - Times(c, x), y - Times(c, x))
  }

  lemma GapExpands(x: real, y: real, c: real)
    ensures Gap(x, y, c) == Times(y, y) - 2.0 * Times(c, Times(x, y)) + Times(Times(c, c), Times(x, x))
  {
  }

  lemma {:induction false} ResidualExpands(a: seq<real>, b: seq<real>, c: real)
    requires |a| == |b|
    ensures Residual(a, b, c) == Dot(b, b) - 2.0 * Times(c, Dot(a, b)) + Times(Times(c, c), Dot(a, a))
  {
    Units(c);
    Units(Times(c, c));
    if a != [] {
      hide Times, Gap;
      var n := |a| - 1;
      ResidualExpands(a[..n], b[..n], c);
      GapExpands(a[n], b[n], c);
      Distribute(c, Dot(a[..n], b[..n]), Times(a[n], b[n]));
      Distribute(Times(c, c), Dot(a[..n], a[..n]), Times(a[n], a[n]));
    }
  }

  /** The residual is a sum of squares: it vanishes only when `b` is `c` times `a`. */
  lemma {:induction false} ResidualSign(a: seq<real>, b: seq<real>, c: real)
    requires |a| == |b|
    ensures Residual(a, b, c) >= 0.0
    ensures Residual(a, b, c) == 0.0 ==> forall i :: 0 <= i < |a| ==> b[i] == Times(c, a[i])
  {
    if a != [] {
      var n := |a| - 1;
      ResidualSign(a[..n], b[..n], c);
      SquareSign(b[n] - Times(c, a[n]));
      hide Times;
      assert forall i :: 0 <= i < n ==> a[..n][i] == a[i] && b[..n][i] == b[i];
    }
  }

  /** At the projection coefficient the residual, scaled by the norm of `a`, is the
      Cauchy-Schwarz gap. */
  lemma ProjectionResidual(a: seq<real>, b: seq<real>)
    requires |a| == |b| && Dot(a, a) > 0.0
    ensures Times(Dot(a, a), Residual(a, b, Dot(a, b) / Dot(a, a)))
      == Times(Dot(a, a), Dot(b, b)) - Times(Dot(a, b), Dot(a, b))
    ensures Times(Dot(a, b), Dot(a, b)) <= Times(Dot(a, a), Dot(b, b))
  {
    hide Times, Dot, Residual;
    var d, p, q := Dot(a, b), Dot(a, a), Dot(b, b);
    var c := d / p;
    var r := Residual(a, b, c);
    ResidualExpands(a, b, c);
    Divide(d, p);
    Associate(c, c, p);
    assert r == q - Times(c, d);
    Distribute(p, q, Times(c, d));
    Associate(p, c, d);
    ResidualSign(a, b, c);
    Positive(p, r);
  }

  /** A square bounded by `n` squared. */
  lemma WithinNorm(x: real, n: real)
    requires n > 0.0 && Times(x, x) <= Times(n, n)
    ensures -n <= x <= n
    ensures x > 0.0 && Times(x, x) == Times(n, n) ==> x == n
  {
    hide Times;
    SquareOrder(n, x);
    SquareOrder(n, -x);
    SquareOrder(x, n);
    Negate(x, x);
  }

  /** The loop's result lies in [-1, 1] for every pair of vectors. */
  lemma CosineInRange(a: seq<real>, b: seq<real>, sqrt: real -> real)
    requires IsSqrt(sqrt)
    ensures -1.0 <= CosineOf(a, b, sqrt) <= 1.0
  {
    if Comparable(a, b) {
      hide Times, Dot, NormProduct;
      NormPositive(a, sqrt);
      ProjectionResidual(a, b);
      NormsMultiply(a, b, sqrt);
      WithinNorm(Dot(a, b), NormProduct(a, b, sqrt));
      QuotientOrder(Dot(a, b), NormProduct(a, b, sqrt));
    }
  }

  /** The loop's result scales the product of the norms to the inner product. */
  lemma CosineTimesNorms(a: seq<real>, b: seq<real>, sqrt: real -> real)
    requires IsSqrt(sqrt) && Comparable(a, b)
    ensures CosineOf(a, b, sqrt) * (sqrt(Dot(a, a)) * sqrt(Dot(b, b))) == Dot(a, b)
  {
    NormsMultiply(a, b, sqrt);
  }

  /** A vector with a component other than zero is no zero vector. */
  lemma {:induction false} NonZero(a: seq<real>, i: nat)
    requires i < |a| && a[i] != 0.0
    ensures Dot(a, a) > 0.0
    decreases |a|
  {
    var n := |a| - 1;
    DotSquare(a[..n]);
    SquareSign(a[n]);
    if i < n { NonZero(a[..n], i); }
  }

  /** `b` is `c` times `a` with `c` positive. */
  ghost predicate PositiveMultiple(a: seq<real>, b: seq<real>, c: real) {
    c > 0.0 && |a| == |b| && forall i :: 0 <= i < |a| ==> b[i] == Times(c, a[i])
  }

  ghost predicate SameDirection(a: seq<real>, b: seq<real>) {
    exists c :: PositiveMultiple(a, b, c)
  }

  /** Similarity 1 is reached exactly on positive multiples of a non-zero vector. */
  lemma CosineOneIff(a: seq<real>, b: seq<real>, sqrt: real -> real)
    requires IsSqrt(sqrt)
    ensures CosineOf(a, b, sqrt) == 1.0 <==> |a| == |b| && Dot(a, a) != 0.0 && SameDirection(a, b)
  {
    hide Times, Dot, CosineOf, PositiveMultiple;
    if |a| == |b| && Dot(a, a) != 0.0 && SameDirection(a, b) {
      var c :| PositiveMultiple(a, b, c);
      MultipleGivesOne(a, b, c, sqrt);
    }
    if CosineOf(a, b, sqrt) == 1.0 {
      OneGivesMultiple(a, b, sqrt);
    }
  }

  lemma {:induction false} MultipleDots(a: seq<real>, b: seq<real>, c: real)
    requires PositiveMultiple(a, b, c)
    ensures Dot(a, b) == Times(c, Dot(a, a)) && Dot(b, b) == Times(c, Times(c, Dot(a, a)))
  {
    Units(c);
    if a != [] {
      var n := |a| - 1;
      MultipleDots(a[..n], b[..n], c);
      MultipleStep(a[n], b[n], c, Dot(a[..n], a[..n]));
    }
  }

  lemma MultipleStep(x: real, y: real, c: real, p: real)
    requires y == Times(c, x)
    ensures Times(c, p) + Times(x, y) == Times(c, p + Times(x, x))
    ensures Times(c, Times(c, p)) + Times(y, y) == Times(c, Times(c, p + Times(x, x)))
  {
    hide Times;
    Associate(x, c, x);
    Commute(x, c);
    Associate(c, x, x);
    Distribute(c, p, Times(x, x));
    Associate(c, x, y);
    Distribute(c, Times(c, p), Times(c, Times(x, x)));
  }

  lemma MultipleGivesOne(a: seq<real>, b: seq<real>, c: real, sqrt: real -> real)
    requires IsSqrt(sqrt) && Dot(a, a) != 0.0 && PositiveMultiple(a, b, c)
    ensures CosineOf(a, b, sqrt) == 1.0
  {
    assert a != [];
    hide Times, Dot, NormProduct;
    var p, n := Dot(a, a), NormProduct(a, b, sqrt);
    NormPositive(a, sqrt);
    MultipleDots(a, b, c);
    Positive(c, p);
    Positive(c, Times(c, p));
    NormsMultiply(a, b, sqrt);
    Associate(Times(c, p), c, p);
    Commute(Times(c, p), c);
    Commute(Times(c, Times(c, p)), p);
    WithinNorm(Times(c, p), n);
    QuotientOrder(Dot(a, b), n);
  }

  lemma OneGivesMultiple(a: seq<real>, b: seq<real>, sqrt: real -> real)
    requires IsSqrt(sqrt) && CosineOf(a, b, sqrt) == 1.0
    ensures |a| == |b| && Dot(a, a) != 0.0 && SameDirection(a, b)
  {
    hide Times, Dot, NormProduct, Residual;
    var d, p := Dot(a, b), Dot(a, a);
    var c := d / p;
    NormPositive(a, sqrt);
    NormsMultiply(a, b, sqrt);
    QuotientOrder(d, NormProduct(a, b, sqrt));
    ProjectionResidual(a, b);
    ResidualSign(a, b, c);
    Positive(p, Residual(a, b, c));
    QuotientOrder(d, p);
    assert PositiveMultiple(a, b, c);
  }

  // ---------------------------------------------------------------- top K

  datatype Candidate = Candidate(id: int, vector: seq<real>)
  datatype Scored = Scored(candidate: Candidate, score: real)

  /** Comparator of the vector stream: higher similarity first, then lower id. */
  predicate Nearer(x: Scored, y: Scored) {
    if x.score == y.score then x.candidate.id < y.candidate.id else x.score > y.score
  }

  /** At least as similar, and no higher an id where equally similar. */
  ghost predicate Leads(x: Scored, y: Scored) {
    x.score > y.score || (x.score == y.score && x.candidate.id <= y.candidate.id)
  }

  ghost function ScoreAll(query: seq<real>, candidates: seq<Candidate>, sqrt: real -> real): seq<Scored>
    requires IsSqrt(sqrt)
  {
    seq(|candidates|, i requires 0 <= i < |candidates| =>
      Scored(candidates[i], CosineOf(query, candidates[i].vector, sqrt)))
  }

  /** Scores every candidate, sorts in place and keeps the first `topK`. Every candidate is
      either returned or omitted, the answer is sorted, and nothing omitted beats it. */
  method TopCandidates(query: seq<real>, candidates: seq<Candidate>, topK: nat, sqrt: real -> real)
    returns (results: seq<Scored>, ghost omitted: seq<Scored>)
    requires IsSqrt(sqrt)
    ensures |results| == if topK < |candidates| then topK else |candidates|
    ensures multiset(results) + multiset(omitted) == multiset(ScoreAll(query, candidates, sqrt))
    ensures forall i, j :: 0 <= i < j < |results| ==> Leads(results[i], results[j])
    ensures forall r, o :: r in results && o in omitted ==> Leads(r, o)
  {
    var scored: seq<Scored> := [];
    for i := 0 to |candidates|
      invariant scored == ScoreAll(query, candidates[..i], sqrt)
    {
      var score := Cosine(query, candidates[i].vector, sqrt);
      scored := scored + [Scored(candidates[i], score)];
    }
    assert candidates[..|candidates|] == candidates;
    var a := new Scored[|scored|](i requires 0 <= i < |scored| => scored[i]);
    assert a[..] == scored;
    InsertionSort(a, Nearer);
    var limit := topK;
    if limit > |scored| {
      limit := |scored|;
    }
    ghost var sorted := a[..];
    assert |sorted| == |multiset(scored)| == |scored|;
    results := [];
    for i := 0 to limit
      invariant results == sorted[..i]
    {
      results := results + [a[i]];
    }
    omitted := sorted[limit..];
    assert sorted == results + omitted;
  }

  /** Membership form of the cut: a candidate more similar to the query than a returned one, or as
      similar with a lower id, is returned with its similarity for a score. */
  lemma NobodyBetterLeftOut(query: seq<real>, candidates: seq<Candidate>, sqrt: real -> real,
      results: seq<Scored>, omitted: seq<Scored>, i: nat)
    requires IsSqrt(sqrt) && i < |candidates|
    requires multiset(results) + multiset(omitted) == multiset(ScoreAll(query, candidates, sqrt))
    requires forall r, o :: r in results && o in omitted ==> Leads(r, o)
    ensures var c, score := candidates[i], CosineOf(query, candidates[i].vector, sqrt);
      (exists r :: r in results && (r.score < score || (r.score == score && r.candidate.id > c.id)))
      ==> Scored(c, score) in results
  {
    var x := ScoreAll(query, candidates, sqrt)[i];
    assert x in multiset(ScoreAll(query, candidates, sqrt));
    assert x in multiset(results) || x in multiset(omitted);
    assert x in results || x in omitted;
    hide CosineOf, IsSqrt;
    assert x == Scored(candidates[i], CosineOf(query, candidates[i].vector, sqrt));
  }
}
