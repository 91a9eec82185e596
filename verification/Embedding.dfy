/** The embedding store with cosine search (`embedding_store.py`). Vectors hold reals; the embedding service and
    the Euclidean norm are parameters. */
module Embedding {
  import opened Text

  type Vector = seq<real>

  const DIM := 768

  const EPSILON := 0.000000001

  function Dot(a: Vector, b: Vector): real
    requires |a| == |b|
  {
    if a == [] then 0.0 else Dot(a[..|a| - 1], b[..|b| - 1]) + Times(a[|a| - 1], b[|b| - 1])
  }

  /** `norm` is the Euclidean norm: the non-negative root of the sum of squares. */
  ghost predicate IsNorm(norm: Vector -> real) {
    forall v :: norm(v) >= 0.0 && norm(v) * norm(v) == Dot(v, v)
  }

  function Times(a: real, b: real): real {
    a * b
  }

  lemma TimesSign(a: real, b: real)
    ensures a >= 0.0 && b >= 0.0 ==> Times(a, b) >= 0.0
    ensures a > 0.0 && b > 0.0 ==> Times(a, b) > 0.0
  {
  }

  /** The cosine score of a stored vector for a query, from their inner product and their norms. */
  function CosineOf(dot: real, qnorm: real, vnorm: real): real
    requires qnorm >= 0.0 && vnorm >= 0.0
  {
    TimesSign(qnorm, vnorm);
    dot / (Times(qnorm, vnorm) + EPSILON)
  }

  // ---------------------------------------------------------------- the table

  datatype Row = Row(id: string, kind: string, text: string, vector: Vector)

  datatype Hit = Hit(id: string, kind: string, text: string, score: real)

  /** Position of a row by its key. */
  function RowIndex(rows: seq<Row>, id: string): (r: Option<nat>)
    ensures r.Some? ==> r.value < |rows| && rows[r.value].id == id
    ensures r.None? ==> forall i :: 0 <= i < |rows| ==> rows[i].id != id
  {
    if rows == [] then None
    else if rows[0].id == id then Some(0)
    else
      match RowIndex(rows[1..], id)
      case Some(i) => Some(i + 1)
      case None => None
  }

  /** `INSERT ... ON CONFLICT(node_id) DO UPDATE`. */
  function Upserted(rows: seq<Row>, row: Row): seq<Row> {
    match RowIndex(rows, row.id)
    case Some(i) => rows[i := row]
    case None => rows + [row]
  }

  function Deleted(rows: seq<Row>, id: string): seq<Row> {
    if rows == [] then [] else (if rows[0].id == id then [] else [rows[0]]) + Deleted(rows[1..], id)
  }

  /** What the operations that change the table do to it: a row written, or the rows of an id removed. */
  datatype Op = Put(row: Row) | Remove(id: string)

  function AfterOp(rows: seq<Row>, op: Op): seq<Row> {
    match op
    case Put(row) => Upserted(rows, row)
    case Remove(id) => Deleted(rows, id)
  }

  /** `WHERE node_type = ?`; no filter for an absent or empty type. */
  function OfKind(rows: seq<Row>, kind: string): seq<Row> {
    if rows == [] then []
    else (if kind == "" || rows[0].kind == kind then [rows[0]] else []) + OfKind(rows[1..], kind)
  }

  /** Place of a hit in a list sorted by descending score, behind equal scores. */
  function InsertHit(hits: seq<Hit>, h: Hit): seq<Hit> {
    if hits == [] then [h]
    else if hits[0].score >= h.score then [hits[0]] + InsertHit(hits[1..], h)
    else [h] + hits
  }

  /** A stable sort by descending score. */
  function SortHits(hits: seq<Hit>): seq<Hit> {
    if hits == [] then [] else InsertHit(SortHits(hits[..|hits| - 1]), hits[|hits| - 1])
  }

  function HitOf(q: Vector, norm: Vector -> real, row: Row): Hit
    requires |row.vector| == |q| && norm(q) >= 0.0 && norm(row.vector) >= 0.0
  {
    Hit(row.id, row.kind, row.text, CosineOf(Dot(q, row.vector), norm(q), norm(row.vector)))
  }

  /** The hits of all rows whose vector has the right length. */
  ghost function Hits(q: Vector, norm: Vector -> real, rows: seq<Row>): seq<Hit>
    requires IsNorm(norm)
  {
    if rows == [] then []
    else
      var row := rows[|rows| - 1];
      Hits(q, norm, rows[..|rows| - 1]) + if |row.vector| == |q| then [HitOf(q, norm, row)] else []
  }

  function TopK(hits: seq<Hit>, k: int): seq<Hit> {
    var n := if k < 0 then 0 else k;
    if |hits| <= n then hits else hits[..n]
  }

  /** What a search finds in a table. */
  ghost function Found(q: Vector, norm: Vector -> real, rows: seq<Row>, kind: string, k: int): seq<Hit>
    requires IsNorm(norm)
  {
    TopK(SortHits(Hits(q, norm, OfKind(rows, kind))), k)
  }

  class EmbeddingStore {
    var rows: seq<Row>
    const embed: string -> Option<Vector>
    const norm: Vector -> real

    constructor (embed: string -> Option<Vector>, norm: Vector -> real)
      ensures rows == [] && this.embed == embed && this.norm == norm
    {
      rows := [];
      this.embed := embed;
      this.norm := norm;
    }

    /** The embedding that the store accepts: none unless the service answers with a vector of the right length. */
    function Embedded(text: string): (r: Option<Vector>)
      ensures r == if embed(text).Some? && |embed(text).value| == 768 then embed(text) else None
    {
      var answer := embed(text);
      if answer.Some? && |answer.value| == DIM then answer else None
    }

    method Upsert(id: string, kind: string, text: string) returns (ok: bool)
      modifies this
      ensures ok <==> embed(text).Some? && |embed(text).value| == 768
      ensures rows == if ok then AfterOp(old(rows), Put(Row(id, kind, text, embed(text).value))) else old(rows)
    {
      var vec := Embedded(text);
      if vec.None? {
        return false;
      }
      var row := Row(id, kind, text, vec.value);
      var at := RowIndex(rows, id);
      if at.Some? {
        rows := rows[at.value := row];
      } else {
        rows := rows + [row];
      }
      return true;
    }

    method Delete(id: string)
      modifies this
      ensures rows == AfterOp(old(rows), Remove(id))
    {
      rows := Deleted(rows, id);
    }

    method Search(query: string, topK: int, kind: string) returns (results: seq<Hit>)
      requires IsNorm(norm)
      ensures embed(query).Some? && |embed(query).value| == 768 ==>
                results == Found(embed(query).value, norm, rows, kind, topK)
      ensures embed(query).None? || |embed(query).value| != 768 ==> results == []
    {
      hide Dot, CosineOf, OfKind, SortHits, TopK;
      var embedded := Embedded(query);
      if embedded.None? {
        return [];
      }
      var q := embedded.value;
      var chosen := OfKind(rows, kind);
      if chosen == [] {
        NothingFound(q, norm, topK);
        return [];
      }
      var hits: seq<Hit> := [];
      for i := 0 to |chosen|
        invariant hits == Hits(q, norm, chosen[..i])
      {
        assert chosen[..i + 1][..i] == chosen[..i];
        var row := chosen[i];
        if |row.vector| == DIM {
          hits := hits + [HitOf(q, norm, row)];
        }
      }
      assert chosen[..|chosen|] == chosen;
      results := TopK(SortHits(hits), topK);
    }
  }

  lemma NothingFound(q: Vector, norm: Vector -> real, k: int)
    requires IsNorm(norm)
    ensures TopK(SortHits(Hits(q, norm, [])), k) == []
  {
  }

  // ---------------------------------------------------------------- products and quotients of reals

  lemma Scale(a: real, b: real, c: real)
    requires a <= b && c >= 0.0
    ensures a * c <= b * c
  {
  }

  lemma ScaleStrict(a: real, b: real, c: real)
    requires a < b && c > 0.0
    ensures a * c < b * c
  {
  }

  lemma Cancel(a: real, b: real, c: real)
    requires c > 0.0 && a * c <= b * c
    ensures a <= b
  {
    if a > b {
      ScaleStrict(b, a, c);
    }
  }

  lemma CancelStrict(a: real, b: real, c: real)
    requires c > 0.0 && a * c < b * c
    ensures a < b
  {
    if a >= b {
      Scale(b, a, c);
    }
  }

  lemma Regroup(x: real, m: real, n: real)
    ensures x * (m * n) == (x * m) * n == (x * n) * m
  {
  }

  lemma Square(x: real, y: real)
    ensures x * x >= 0.0
    ensures (x + y) * (x + y) == x * x + 2.0 * (x * y) + y * y
    ensures (x - y) * (x - y) == x * x - 2.0 * (x * y) + y * y
  {
  }

  lemma SquareOfProduct(x: real, y: real)
    ensures (x * y) * (x * y) == (x * x) * (y * y)
  {
    Regroup(x * y, x, y);
    Regroup(x, x, y);
    Regroup(x * x, y, y);
  }

  lemma SquareDifference(s: real, t: real)
    ensures (s - t) * (s + t) == s * s - t * t
  {
  }

  lemma Positive(a: real, b: real)
    requires a > 0.0 && b > 0.0
    ensures a * b > 0.0
  {
  }

  lemma RootOrder(s: real, t: real)
    requires t >= 0.0 && s * s <= t * t
    ensures s <= t
  {
    if s > t {
      SquareDifference(s, t);
      Positive(s - t, s + t);
    }
  }

  /** Comparing two quotients by cross multiplication. */
  lemma QuotientOrder(a: real, m: real, b: real, n: real)
    requires m > 0.0 && n > 0.0
    ensures a * n <= b * m ==> a / m <= b / n
    ensures a * n < b * m ==> a / m < b / n
  {
    var x, y := a / m, b / n;
    assert x * m == a && y * n == b;
    Regroup(x, m, n);
    Regroup(y, m, n);
    Positive(m, n);
    if a * n <= b * m {
      Cancel(x, y, m * n);
    }
    if a * n < b * m {
      CancelStrict(x, y, m * n);
    }
  }

  // ---------------------------------------------------------------- Cauchy-Schwarz

  /** Twice a number is at most the sum of two whose product is at least its square. */
  lemma MeanBound(s: real, p: real, q: real)
    requires p >= 0.0 && q >= 0.0 && Times(s, s) <= Times(p, q)
    ensures 2.0 * s <= p + q
  {
    Square(p, q);
    Square(p - q, 0.0);
    assert (2.0 * s) * (2.0 * s) == 4.0 * (s * s);
    RootOrder(2.0 * s, p + q);
  }

  /** The product of two cross terms. */
  lemma CrossProducts(d: real, w: real, a: real, b: real, u: real, v: real)
    requires Times(d, d) <= Times(a, b) && Times(w, w) == Times(u, v) && Times(u, v) >= 0.0
    ensures Times(Times(d, w), Times(d, w)) <= Times(Times(a, v), Times(u, b))
  {
    SquareOfProduct(d, w);
    Scale(d * d, a * b, u * v);
    CrossProduct(a, b, u, v);
  }

  lemma CrossProduct(a: real, b: real, u: real, v: real)
    ensures (a * b) * (u * v) == (a * v) * (u * b)
  {
    Regroup(a * b, u, v);
    Regroup(a * v, u, b);
    Regroup(a, b, v);
    Regroup(a, v, b);
    Regroup(a * b, v, u);
    Regroup(a * v, b, u);
  }

  lemma ProductOfSums(a: real, u: real, b: real, v: real)
    ensures (a + u) * (b + v) == a * b + a * v + u * b + u * v
  {
  }

  lemma TimesOfSums(a: real, u: real, b: real, v: real)
    ensures Times(a + u, b + v) == Times(a, b) + Times(a, v) + Times(u, b) + Times(u, v)
    ensures Times(a, u) == Times(u, a)
  {
  }

  /** The induction step: the product `w` of two coordinates joins the inner product, their squares join the sums
      of squares. */
  lemma CauchyStep(d: real, a: real, b: real, u: real, v: real, w: real)
    requires a >= 0.0 && b >= 0.0 && u >= 0.0 && v >= 0.0
    requires Times(d, d) <= Times(a, b) && Times(w, w) == Times(u, v)
    ensures Times(d + w, d + w) <= Times(a + u, b + v)
  {
    hide Times;
    TimesSign(a, v);
    TimesSign(u, b);
    TimesSign(u, v);
    CrossProducts(d, w, a, b, u, v);
    MeanBound(Times(d, w), Times(a, v), Times(u, b));
    TimesOfSums(d, w, d, w);
    TimesOfSums(a, u, b, v);
  }

  lemma {:induction false} DotSquare(v: Vector)
    ensures Dot(v, v) >= 0.0
  {
    if v != [] {
      DotSquare(v[..|v| - 1]);
      Square(v[|v| - 1], 0.0);
    }
  }

  /** The square of the inner product is at most the product of the squared norms. */
  lemma {:induction false} CauchySchwarz(a: Vector, b: Vector)
    requires |a| == |b|
    ensures Times(Dot(a, b), Dot(a, b)) <= Times(Dot(a, a), Dot(b, b))
  {
    if a != [] {
      var n := |a| - 1;
      CauchySchwarz(a[..n], b[..n]);
      DotSquare(a[..n]);
      DotSquare(b[..n]);
      Square(a[n], 0.0);
      Square(b[n], 0.0);
      SquareOfProduct(a[n], b[n]);
      CauchyStep(Dot(a[..n], b[..n]), Dot(a[..n], a[..n]), Dot(b[..n], b[..n]), a[n] * a[n], b[n] * b[n], a[n] * b[n]);
    }
  }

  lemma DotWithinNorms(a: Vector, b: Vector, an: real, bn: real)
    requires |a| == |b| && an >= 0.0 && bn >= 0.0 && an * an == Dot(a, a) && bn * bn == Dot(b, b)
    ensures Dot(a, b) <= Times(an, bn) && -Dot(a, b) <= Times(an, bn)
  {
    hide Dot;
    var d := Dot(a, b);
    CauchySchwarz(a, b);
    TimesSign(an, bn);
    SquareOfProduct(an, bn);
    RootOrder(d, an * bn);
    assert (-d) * (-d) == d * d;
    RootOrder(-d, an * bn);
  }

  // ---------------------------------------------------------------- scores

  /** Every score lies strictly between -1 and 1, whatever the vectors. */
  lemma ScoreRange(q: Vector, v: Vector, norm: Vector -> real)
    requires |q| == |v| && IsNorm(norm)
    ensures -1.0 < CosineOf(Dot(q, v), norm(q), norm(v)) < 1.0
  {
    hide Times, Dot;
    DotWithinNorms(q, v, norm(q), norm(v));
    TimesSign(norm(q), norm(v));
    ScoreWithin(Dot(q, v), Times(norm(q), norm(v)));
  }

  lemma ScoreWithin(d: real, m: real)
    requires m >= 0.0 && d <= m && -d <= m
    ensures -1.0 < d / (m + EPSILON) < 1.0
  {
    var n := m + EPSILON;
    QuotientOrder(d, n, 1.0, 1.0);
    QuotientOrder(-1.0, 1.0, d, n);
  }

  /** A stored vector equal to the query is never beaten by one whose norm is no larger. */
  lemma ExactMatchWins(q: Vector, v: Vector, norm: Vector -> real)
    requires |q| == |v| && IsNorm(norm) && norm(v) <= norm(q)
    ensures CosineOf(Dot(q, v), norm(q), norm(v)) <= CosineOf(Dot(q, q), norm(q), norm(q))
  {
    hide Times, Dot;
    var n, w := norm(q), norm(v);
    DotWithinNorms(q, v, n, w);
    AsTimes(n, Dot(q, q));
    TimesSign(n, w);
    TimesSign(n, n);
    TimesOrder(w, n);
    SmallerIsLower(Dot(q, v), Times(n, w), Times(n, n));
  }

  lemma TimesOrder(w: real, n: real)
    requires 0.0 <= w <= n
    ensures Times(n, w) <= Times(n, n)
  {
    Scale(w, n, n);
  }

  lemma SmallerIsLower(d: real, m: real, s: real)
    requires 0.0 <= m <= s && d <= m
    ensures d / (m + EPSILON) <= s / (s + EPSILON)
  {
    Scale(d, m, s + EPSILON);
    ProductOfSums(m, 0.0, s, EPSILON);
    ProductOfSums(s, 0.0, m, EPSILON);
    Scale(m, s, EPSILON);
    QuotientOrder(d, m + EPSILON, s, s + EPSILON);
  }

  function Stretched(c: real, v: Vector): (r: Vector)
    ensures |r| == |v|
  {
    seq(|v|, i requires 0 <= i < |v| => c * v[i])
  }

  lemma DotLast(a: Vector, b: Vector)
    requires |a| == |b| && a != []
    ensures Dot(a, b) == Dot(a[..|a| - 1], b[..|b| - 1]) + Times(a[|a| - 1], b[|b| - 1])
  {
    hide Times;
  }

  lemma {:induction false} DotStretched(c: real, v: Vector)
    ensures Dot(v, Stretched(c, v)) == Times(c, Dot(v, v))
    ensures Dot(Stretched(c, v), Stretched(c, v)) == Times(c, Times(c, Dot(v, v)))
  {
    if v == [] {
      TimesZero(c);
    } else {
      hide Dot, Times;
      var n, w := |v| - 1, Stretched(c, v);
      DotStretched(c, v[..n]);
      StretchedInit(c, v);
      DotLast(v, v);
      DotLast(v, w);
      DotLast(w, w);
      StretchedTerms(c, Dot(v[..n], v[..n]), v[n], w[n]);
    }
  }

  lemma StretchedInit(c: real, v: Vector)
    requires v != []
    ensures Stretched(c, v)[..|v| - 1] == Stretched(c, v[..|v| - 1])
  {
    var a, b := Stretched(c, v)[..|v| - 1], Stretched(c, v[..|v| - 1]);
    forall i | 0 <= i < |v| - 1
      ensures a[i] == b[i]
    {
      assert a[i] == c * v[i];
    }
  }

  lemma TimesZero(c: real)
    ensures Times(c, 0.0) == 0.0
  {
  }

  lemma StretchedTerms(c: real, d: real, x: real, y: real)
    requires y == c * x
    ensures Times(c, d) + Times(x, y) == Times(c, d + Times(x, x))
    ensures Times(c, Times(c, d)) + Times(y, y) == Times(c, Times(c, d + Times(x, x)))
  {
    Regroup(x, c, x);
    Regroup(c, x, x);
    SquareOfProduct(c, x);
    Regroup(c, c, x * x);
  }

  /** The norm of a stretched vector. */
  lemma NormStretched(c: real, v: Vector, norm: Vector -> real)
    requires IsNorm(norm) && c > 0.0
    ensures norm(Stretched(c, v)) == Times(c, norm(v))
  {
    hide Dot, Times, Stretched;
    DotStretched(c, v);
    TimesSign(c, norm(v));
    AsTimes(norm(v), Dot(v, v));
    AsTimes(norm(Stretched(c, v)), Dot(Stretched(c, v), Stretched(c, v)));
    SquareOfTimes(c, norm(v), Dot(v, v));
    RootUnique(norm(Stretched(c, v)), Times(c, norm(v)));
  }

  lemma AsTimes(a: real, d: real)
    requires a * a == d
    ensures Times(a, a) == d
  {
  }

  lemma SquareOfTimes(c: real, b: real, d: real)
    requires Times(b, b) == d
    ensures Times(Times(c, b), Times(c, b)) == Times(c, Times(c, d))
  {
    SquareOfProduct(c, b);
    Regroup(c, c, b * b);
  }

  lemma RootUnique(a: real, b: real)
    requires a >= 0.0 && b >= 0.0 && Times(a, a) == Times(b, b)
    ensures a == b
  {
    RootOrder(a, b);
    RootOrder(b, a);
  }

  /** A longer vector of the query's own direction does beat the query itself: stretching a query that is not zero
      by `c` scores higher exactly for `c` above 1. */
  lemma StretchedMatch(q: Vector, c: real, norm: Vector -> real)
    requires IsNorm(norm) && norm(q) > 0.0 && c > 0.0
    ensures CosineOf(Dot(q, Stretched(c, q)), norm(q), norm(Stretched(c, q))) > CosineOf(Dot(q, q), norm(q), norm(q))
        <==> c > 1.0
  {
    hide Dot, Times, Stretched;
    var n, s := norm(q), Dot(q, q);
    DotStretched(c, q);
    NormStretched(c, q, norm);
    AsTimes(n, s);
    StretchedProduct(n, c);
    PositiveSquare(n, s);
    StretchedScore(s, c);
    TimesSign(c, s);
    TimesSign(n, n);
    TimesSign(n, Times(c, n));
  }

  lemma PositiveSquare(n: real, s: real)
    requires n > 0.0 && Times(n, n) == s
    ensures s > 0.0
  {
    TimesSign(n, n);
  }

  lemma StretchedProduct(n: real, c: real)
    ensures Times(n, Times(c, n)) == Times(c, Times(n, n))
  {
    Regroup(n, c, n);
    Regroup(c, n, n);
  }

  lemma StretchedScore(s: real, c: real)
    requires s > 0.0 && c > 0.0
    ensures Times(c, s) >= 0.0
    ensures Times(c, s) / (Times(c, s) + EPSILON) > s / (s + EPSILON) <==> c > 1.0
  {
    Positive(c, s);
    if c > 1.0 {
      ScaleStrict(1.0, c, s);
      LargerIsHigher(s, c * s);
    } else {
      Scale(c, 1.0, s);
      SmallerIsLower(c * s, c * s, s);
    }
  }

  lemma LargerIsHigher(s: real, m: real)
    requires 0.0 <= s < m
    ensures s / (s + EPSILON) < m / (m + EPSILON)
  {
    ProductOfSums(s, 0.0, m, EPSILON);
    ProductOfSums(m, 0.0, s, EPSILON);
    ScaleStrict(s, m, EPSILON);
    QuotientOrder(s, s + EPSILON, m, m + EPSILON);
  }

  /** No vector of norm `w` scores higher than the query itself. */
  ghost predicate Unbeaten(q: Vector, norm: Vector -> real, w: real)
    requires IsNorm(norm)
  {
    forall v :: |v| == |q| && norm(v) == w ==>
      CosineOf(Dot(q, v), norm(q), norm(v)) <= CosineOf(Dot(q, q), norm(q), norm(q))
  }

  lemma Ratio(w: real, n: real)
    requires w > n > 0.0
    ensures w / n > 1.0 && Times(w / n, n) == w
  {
    var c := w / n;
    assert c * n == w;
    if c <= 1.0 {
      Scale(c, 1.0, n);
    }
  }

  /** A stored vector equal to a query that is not zero is safe from the vectors of a given norm exactly when that norm
      is at most the query's. */
  lemma UnbeatenExactly(q: Vector, norm: Vector -> real, w: real)
    requires IsNorm(norm) && norm(q) > 0.0 && w > 0.0
    ensures Unbeaten(q, norm, w) <==> w <= norm(q)
  {
    hide Dot, Times, CosineOf, Stretched;
    if w <= norm(q) {
      forall v | |v| == |q| && norm(v) == w
        ensures CosineOf(Dot(q, v), norm(q), norm(v)) <= CosineOf(Dot(q, q), norm(q), norm(q))
      {
        ExactMatchWins(q, v, norm);
      }
    } else {
      var c := w / norm(q);
      Ratio(w, norm(q));
      NormStretched(c, q, norm);
      StretchedMatch(q, c, norm);
      assert norm(Stretched(c, q)) == w;
    }
  }
}
