/** What the numbers of the cosine search are: the inner product, the distance of a score from the true cosine, and the
    fields of every hit. */
module EmbeddingLaws {
  import opened Text
  import opened Embedding
  import opened EmbeddingProofs

  // ---------------------------------------------------------------- the inner product

  /** The vector with a 1 in one place. */
  function Unit(n: nat, i: nat): (r: Vector)
    ensures |r| == n
  {
    seq(n, k => if k == i then 1.0 else 0.0)
  }

  function Sum(a: Vector, b: Vector): (r: Vector)
    requires |a| == |b|
    ensures |r| == |a|
  {
    seq(|a|, i requires 0 <= i < |a| => a[i] + b[i])
  }

  lemma {:induction false} DotSymmetric(a: Vector, b: Vector)
    requires |a| == |b|
    ensures Dot(a, b) == Dot(b, a)
  {
    if a != [] {
      DotSymmetric(a[..|a| - 1], b[..|a| - 1]);
      TimesOfSums(a[|a| - 1], b[|a| - 1], 0.0, 0.0);
    }
  }

  lemma {:induction false} DotSum(a: Vector, b: Vector, v: Vector)
    requires |a| == |b| == |v|
    ensures Dot(Sum(a, b), v) == Dot(a, v) + Dot(b, v)
  {
    if a != [] {
      var n := |a| - 1;
      DotSum(a[..n], b[..n], v[..n]);
      assert Sum(a, b)[..n] == Sum(a[..n], b[..n]);
      TimesOfSums(a[n], b[n], v[n], 0.0);
    }
  }

  lemma {:induction false} DotScaled(c: real, a: Vector, v: Vector)
    requires |a| == |v|
    ensures Dot(Stretched(c, a), v) == c * Dot(a, v)
  {
    if a != [] {
      var n := |a| - 1;
      DotScaled(c, a[..n], v[..n]);
      StretchedInit(c, a);
      Distributes(c, Dot(a[..n], v[..n]), a[n], v[n]);
    }
  }

  lemma Distributes(c: real, d: real, x: real, y: real)
    ensures c * d + Times(c * x, y) == c * (d + Times(x, y))
  {
    Regroup(c, x, y);
  }

  lemma {:induction false} DotZero(a: Vector, v: Vector)
    requires |a| == |v| && forall i :: 0 <= i < |a| ==> a[i] == 0.0
    ensures Dot(a, v) == 0.0
  {
    if a != [] {
      DotZero(a[..|a| - 1], v[..|a| - 1]);
    }
  }

  /** With symmetry and linearity, this says what the inner product is. */
  lemma {:induction false} DotUnit(i: nat, v: Vector)
    requires i < |v|
    ensures Dot(Unit(|v|, i), v) == v[i]
  {
    var n := |v| - 1;
    var u := Unit(|v|, i);
    if i == n {
      DotZero(u[..n], v[..n]);
    } else {
      DotUnit(i, v[..n]);
      assert u[..n] == Unit(n, i);
    }
  }

  // ---------------------------------------------------------------- scores

  /** A score times the product of the two norms and a billionth is the inner product. */
  lemma ScoreEquation(q: Vector, v: Vector, norm: Vector -> real)
    requires |q| == |v| && IsNorm(norm)
    ensures CosineOf(Dot(q, v), norm(q), norm(v)) * (norm(q) * norm(v) + 0.000000001) == Dot(q, v)
  {
    hide Dot;
    TimesSign(norm(q), norm(v));
    QuotientTimes(Dot(q, v), norm(q) * norm(v) + 0.000000001);
  }

  lemma QuotientTimes(a: real, m: real)
    requires m > 0.0
    ensures a / m * m == a
  {
  }

  /** So a score misses the true cosine by less than a billionth over the product of the norms, whatever the vectors. */
  lemma ScoreNearCosine(q: Vector, v: Vector, norm: Vector -> real)
    requires |q| == |v| && IsNorm(norm)
    ensures var m, s := norm(q) * norm(v), CosineOf(Dot(q, v), norm(q), norm(v));
            && -0.000000001 < s * m - Dot(q, v) < 0.000000001
            && (m > 0.0 ==> -0.000000001 < (s - Dot(q, v) / m) * m < 0.000000001)
  {
    hide Dot, CosineOf;
    var m, s := norm(q) * norm(v), CosineOf(Dot(q, v), norm(q), norm(v));
    ScoreEquation(q, v, norm);
    ScoreRange(q, v, norm);
    TimesSum(s, m, 0.000000001);
    if m > 0.0 {
      QuotientTimes(Dot(q, v), m);
      TimesSum(m, s, -(Dot(q, v) / m));
    }
  }

  lemma TimesSum(a: real, x: real, y: real)
    ensures a * (x + y) == a * x + a * y == (x + y) * a
  {
  }

  // ---------------------------------------------------------------- hits

  /** The hit shows the row: its id, kind and text, and the score of its vector. */
  predicate Shows(h: Hit, r: Row, q: Vector, norm: Vector -> real) {
    && |r.vector| == |q| && h.id == r.id && h.kind == r.kind && h.text == r.text
    && h.score * (norm(q) * norm(r.vector) + 0.000000001) == Dot(q, r.vector)
  }

  lemma HitShows(q: Vector, norm: Vector -> real, r: Row)
    requires |r.vector| == |q| && IsNorm(norm)
    ensures Shows(HitOf(q, norm, r), r, q, norm)
  {
    hide Dot, CosineOf;
    ScoreEquation(q, r.vector, norm);
  }

  /** The hit shows the latest row of its id, of the kind asked for. */
  ghost predicate ShowsLatest(h: Hit, ops: seq<Op>, q: Vector, norm: Vector -> real, kind: string) {
    exists r :: Latest(ops, h.id) == Some(r) && (kind == "" || r.kind == kind) && Shows(h, r, q, norm)
  }

  lemma EligibleShown(ops: seq<Op>, q: Vector, norm: Vector -> real, kind: string, r: Row)
    requires IsNorm(norm) && Eligible(ops, q, kind, r)
    ensures ShowsLatest(HitOf(q, norm, r), ops, q, norm, kind)
  {
    hide Dot, CosineOf, Latest, Shows;
    HitShows(q, norm, r);
  }

  /** A latest row of the kind asked for is left out only when the limit is reached and no hit scores below it. */
  ghost predicate LeftOut(found: seq<Hit>, limit: nat, q: Vector, norm: Vector -> real, r: Row)
    requires |r.vector| == |q|
  {
    && |found| == limit
    && forall h :: h in found ==> h.score * (norm(q) * norm(r.vector) + 0.000000001) >= Dot(q, r.vector)
  }

  lemma LowerScores(found: seq<Hit>, limit: nat, q: Vector, norm: Vector -> real, r: Row)
    requires IsNorm(norm) && |r.vector| == |q| && |found| == limit
    requires forall h :: h in found ==> h.score >= HitOf(q, norm, r).score
    ensures LeftOut(found, limit, q, norm, r)
  {
    hide Dot, CosineOf;
    HitShows(q, norm, r);
    forall h | h in found
      ensures h.score * (norm(q) * norm(r.vector) + 0.000000001) >= Dot(q, r.vector)
    {
      TimesSign(norm(q), norm(r.vector));
      Scale(HitOf(q, norm, r).score, h.score, norm(q) * norm(r.vector) + 0.000000001);
    }
  }

  /** After every run of upserts and deletes, every hit of a search shows the latest row of its id, of the kind asked
      for, and the latest rows of that kind that no hit shows are left out for the limit alone. */
  lemma HitsAfterRun(ops: seq<Op>, q: Vector, norm: Vector -> real, kind: string, k: int)
    requires IsNorm(norm)
    ensures var found := Found(q, norm, RunOps(ops), kind, k);
            && (forall h :: h in found ==> ShowsLatest(h, ops, q, norm, kind))
            && (forall r: Row ::
                  (&& Latest(ops, r.id) == Some(r) && (kind == "" || r.kind == kind) && |r.vector| == |q|
                   && forall h :: h in found ==> h.id != r.id)
                  ==> LeftOut(found, if k < 0 then 0 else k, q, norm, r))
  {
    hide Dot, CosineOf, Found, RunOps, Latest, ShowsLatest, LeftOut, UniqueHits, Descending;
    SearchAfterRun(ops, q, norm, kind, k);
    var found, limit := Found(q, norm, RunOps(ops), kind, k), if k < 0 then 0 else k;
    forall h | h in found
      ensures ShowsLatest(h, ops, q, norm, kind)
    {
      var r :| Eligible(ops, q, kind, r) && h == HitOf(q, norm, r);
      EligibleShown(ops, q, norm, kind, r);
    }
    forall r: Row | Latest(ops, r.id) == Some(r) && (kind == "" || r.kind == kind) && |r.vector| == |q|
                    && (forall h :: h in found ==> h.id != r.id)
      ensures LeftOut(found, limit, q, norm, r)
    {
      assert Eligible(ops, q, kind, r);
      assert HitOf(q, norm, r) !in found;
      LowerScores(found, limit, q, norm, r);
    }
  }
}
