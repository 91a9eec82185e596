/** What a search returns, over every run of upserts and deletes. */
module EmbeddingProofs {
  import opened Text
  import opened Embedding

  // ---------------------------------------------------------------- sorting

  predicate Descending(hits: seq<Hit>) {
    forall i, j :: 0 <= i < j < |hits| ==> hits[i].score >= hits[j].score
  }

  /** The hits of one score, in order. */
  function WithScore(hits: seq<Hit>, score: real): seq<Hit> {
    if hits == [] then [] else (if hits[0].score == score then [hits[0]] else []) + WithScore(hits[1..], score)
  }

  lemma MultisetCons(x: Hit, s: seq<Hit>)
    ensures multiset([x] + s) == multiset{x} + multiset(s)
  {
  }

  lemma {:induction false} InsertPermutes(hits: seq<Hit>, h: Hit)
    ensures multiset(InsertHit(hits, h)) == multiset(hits) + multiset{h}
  {
    if hits != [] && hits[0].score >= h.score {
      var tail := hits[1..];
      InsertPermutes(tail, h);
      assert hits == [hits[0]] + tail;
      MultisetCons(hits[0], tail);
      MultisetCons(hits[0], InsertHit(tail, h));
    } else {
      MultisetCons(h, hits);
      assert hits == [] ==> [h] + hits == [h];
    }
  }

  lemma InsertMembers(hits: seq<Hit>, h: Hit, x: Hit)
    requires x in InsertHit(hits, h)
    ensures x == h || x in hits
  {
    InsertPermutes(hits, h);
    assert x in multiset(InsertHit(hits, h));
  }

  lemma {:induction false} InsertSorted(hits: seq<Hit>, h: Hit)
    requires Descending(hits)
    ensures Descending(InsertHit(hits, h))
  {
    if hits != [] && hits[0].score >= h.score {
      var rest := InsertHit(hits[1..], h);
      InsertSorted(hits[1..], h);
      forall i | 0 <= i < |rest|
        ensures hits[0].score >= rest[i].score
      {
        InsertMembers(hits[1..], h, rest[i]);
      }
    }
  }

  lemma {:induction false} InsertStable(hits: seq<Hit>, h: Hit, score: real)
    requires Descending(hits)
    ensures WithScore(InsertHit(hits, h), score) == WithScore(hits, score) + if h.score == score then [h] else []
  {
    if hits != [] && hits[0].score >= h.score {
      InsertStable(hits[1..], h, score);
      assert InsertHit(hits, h)[1..] == InsertHit(hits[1..], h);
    } else {
      assert InsertHit(hits, h)[1..] == hits;
      if h.score == score {
        NoneWithScore(hits, score);
      }
    }
  }

  lemma {:induction false} NoneWithScore(hits: seq<Hit>, score: real)
    requires forall i :: 0 <= i < |hits| ==> hits[i].score != score
    ensures WithScore(hits, score) == []
  {
    if hits != [] {
      NoneWithScore(hits[1..], score);
    }
  }

  lemma {:induction false} WithScoreAppend(hits: seq<Hit>, h: Hit, score: real)
    ensures WithScore(hits + [h], score) == WithScore(hits, score) + if h.score == score then [h] else []
  {
    if hits != [] {
      WithScoreAppend(hits[1..], h, score);
      assert (hits + [h])[1..] == hits[1..] + [h];
    }
  }

  /** The sort is a permutation into descending order that keeps the order of equal scores. */
  lemma {:induction false} SortedHits(hits: seq<Hit>)
    ensures Descending(SortHits(hits))
    ensures multiset(SortHits(hits)) == multiset(hits)
    ensures forall score :: WithScore(SortHits(hits), score) == WithScore(hits, score)
  {
    if hits != [] {
      var init, last := hits[..|hits| - 1], hits[|hits| - 1];
      assert hits == init + [last];
      SortedHits(init);
      InsertSorted(SortHits(init), last);
      InsertPermutes(SortHits(init), last);
      forall score
        ensures WithScore(SortHits(hits), score) == WithScore(hits, score)
      {
        InsertStable(SortHits(init), last, score);
        WithScoreAppend(init, last, score);
      }
    }
  }

  lemma SplitDescending(top: seq<Hit>, rest: seq<Hit>)
    requires Descending(top + rest)
    ensures Descending(top) && forall a, b :: a in top && b in rest ==> a.score >= b.score
  {
    var all := top + rest;
    forall i, j | 0 <= i < |top| && 0 <= j < |rest|
      ensures top[i].score >= rest[j].score
    {
      assert all[i] == top[i] && all[|top| + j] == rest[j];
    }
    forall i, j | 0 <= i < j < |top|
      ensures top[i].score >= top[j].score
    {
      assert all[i] == top[i] && all[j] == top[j];
    }
  }

  /** The first `k` of the sorted hits: as many as there are and asked for, in descending order, and together with
      the rest all the hits, none of the rest scoring higher. */
  lemma TopKIsBest(hits: seq<Hit>, k: int) returns (rest: seq<Hit>)
    ensures var top := TopK(SortHits(hits), k);
            && |top| == (if k < 0 then 0 else if k < |hits| then k else |hits|)
            && Descending(top)
            && multiset(top) + multiset(rest) == multiset(hits)
            && forall a, b :: a in top && b in rest ==> a.score >= b.score
  {
    hide SortHits, Descending;
    var sorted := SortHits(hits);
    SortedHits(hits);
    assert |sorted| == |multiset(sorted)| == |multiset(hits)| == |hits|;
    rest := sorted[|TopK(sorted, k)|..];
    assert sorted == TopK(sorted, k) + rest;
    SplitDescending(TopK(sorted, k), rest);
  }

  // ---------------------------------------------------------------- runs of the table

  function RunOps(ops: seq<Op>): seq<Row> {
    if ops == [] then [] else AfterOp(RunOps(ops[..|ops| - 1]), ops[|ops| - 1])
  }

  /** The row last written under an id, unless it was deleted since. */
  function Latest(ops: seq<Op>, id: string): Option<Row> {
    if ops == [] then None
    else
      match ops[|ops| - 1]
      case Put(row) => if row.id == id then Some(row) else Latest(ops[..|ops| - 1], id)
      case Remove(gone) => if gone == id then None else Latest(ops[..|ops| - 1], id)
  }

  predicate UniqueIds(rows: seq<Row>) {
    forall i, j :: 0 <= i < j < |rows| ==> rows[i].id != rows[j].id
  }

  lemma UpsertEffect(rows: seq<Row>, row: Row)
    requires UniqueIds(rows)
    ensures UniqueIds(Upserted(rows, row))
    ensures forall r :: r in Upserted(rows, row) <==> r == row || (r in rows && r.id != row.id)
  {
    var at := RowIndex(rows, row.id);
    var out := Upserted(rows, row);
    if at.Some? {
      var k := at.value;
      assert out[k] == row;
      forall r | r in rows && r.id != row.id
        ensures r in out
      {
        var i :| 0 <= i < |rows| && rows[i] == r;
        assert out[i] == r;
      }
      forall r | r in out && r != row
        ensures r in rows && r.id != row.id
      {
        var i :| 0 <= i < |out| && out[i] == r;
        assert rows[i] == r && i != k;
      }
    } else {
      assert forall i :: 0 <= i < |rows| ==> out[i] == rows[i];
    }
  }

  lemma {:induction false} DeleteEffect(rows: seq<Row>, id: string)
    requires UniqueIds(rows)
    ensures UniqueIds(Deleted(rows, id))
    ensures forall r :: r in Deleted(rows, id) <==> r in rows && r.id != id
  {
    if rows != [] {
      var rest := Deleted(rows[1..], id);
      DeleteEffect(rows[1..], id);
      assert rows == [rows[0]] + rows[1..];
      forall i | 0 <= i < |rest|
        ensures rest[i].id != rows[0].id
      {
        assert rest[i] in rest;
        var j :| 0 <= j < |rows[1..]| && rows[1..][j] == rest[i];
        assert rows[j + 1] == rest[i];
      }
    }
  }

  lemma {:induction false} DeletedAppend(a: seq<Row>, b: seq<Row>, id: string)
    ensures Deleted(a + b, id) == Deleted(a, id) + Deleted(b, id)
  {
    if a == [] {
      assert a + b == b;
    } else {
      var r := if a[0].id == id then [] else [a[0]];
      DeletedAppend(a[1..], b, id);
      assert (a + b)[0] == a[0] && (a + b)[1..] == a[1..] + b;
      assert Deleted(a + b, id) == r + Deleted(a[1..] + b, id);
      assert Deleted(a, id) == r + Deleted(a[1..], id);
      Regrouped(r, Deleted(a[1..], id), Deleted(b, id));
    }
  }

  lemma DeletedOne(r: Row, id: string)
    ensures Deleted([r], id) == if r.id == id then [] else [r]
  {
    assert Deleted([r][1..], id) == [];
  }

  /** Deleting keeps the rows of other ids in their order: `x` ahead of `y` stays ahead of `y`, with what is kept of
      the rows around them. */
  lemma DeleteKeepsOrder(a: seq<Row>, x: Row, b: seq<Row>, y: Row, c: seq<Row>, id: string)
    requires x.id != id && y.id != id
    ensures Deleted(a + [x] + b + [y] + c, id) == Deleted(a, id) + [x] + Deleted(b, id) + [y] + Deleted(c, id)
  {
    hide Deleted;
    DeletedAppend(a + [x] + b + [y], c, id);
    DeletedAppend(a + [x] + b, [y], id);
    DeletedAppend(a + [x], b, id);
    DeletedAppend(a, [x], id);
    DeletedOne(x, id);
    DeletedOne(y, id);
  }

  /** After every run the table holds, once each, exactly the latest rows that were not deleted. */
  lemma {:induction false} TableHoldsLatest(ops: seq<Op>)
    ensures UniqueIds(RunOps(ops))
    ensures forall r :: r in RunOps(ops) <==> Latest(ops, r.id) == Some(r)
    decreases |ops|
  {
    if ops != [] {
      var init := ops[..|ops| - 1];
      TableHoldsLatest(init);
      match ops[|ops| - 1] {
        case Put(row) => UpsertEffect(RunOps(init), row);
        case Remove(id) => DeleteEffect(RunOps(init), id);
      }
    }
  }

  // ---------------------------------------------------------------- searching after a run

  lemma {:induction false} OfKindMembers(rows: seq<Row>, kind: string, r: Row)
    ensures r in OfKind(rows, kind) <==> r in rows && (kind == "" || r.kind == kind)
  {
    if rows != [] {
      OfKindMembers(rows[1..], kind, r);
      assert rows == [rows[0]] + rows[1..];
    }
  }

  lemma {:induction false} HitsMembers(q: Vector, norm: Vector -> real, rows: seq<Row>, h: Hit)
    requires IsNorm(norm)
    ensures h in Hits(q, norm, rows) <==> exists r :: r in rows && |r.vector| == |q| && h == HitOf(q, norm, r)
  {
    if rows != [] {
      var init, last := rows[..|rows| - 1], rows[|rows| - 1];
      assert rows == init + [last];
      HitsMembers(q, norm, init, h);
    }
  }

  /** Once a run is over, the hits that a search ranks are those of exactly the latest rows of the kind asked for,
      and every score is strictly between -1 and 1. */
  lemma SearchRanksLatest(ops: seq<Op>, q: Vector, norm: Vector -> real, kind: string, h: Hit)
    requires IsNorm(norm)
    ensures h in Hits(q, norm, OfKind(RunOps(ops), kind)) <==>
              exists r: Row :: Latest(ops, r.id) == Some(r) && (kind == "" || r.kind == kind)
                       && |r.vector| == |q| && h == HitOf(q, norm, r)
    ensures h in Hits(q, norm, OfKind(RunOps(ops), kind)) ==> -1.0 < h.score < 1.0
  {
    hide Latest, RunOps, OfKind, Dot, CosineOf;
    var rows := OfKind(RunOps(ops), kind);
    TableHoldsLatest(ops);
    HitsMembers(q, norm, rows, h);
    forall r: Row
      ensures r in rows <==> Latest(ops, r.id) == Some(r) && (kind == "" || r.kind == kind)
    {
      OfKindMembers(RunOps(ops), kind, r);
    }
    if h in Hits(q, norm, rows) {
      var r :| r in rows && |r.vector| == |q| && h == HitOf(q, norm, r);
      ScoreRange(q, r.vector, norm);
    }
  }

  // ---------------------------------------------------------------- the search as a whole

  predicate UniqueHits(hits: seq<Hit>) {
    forall i, j :: 0 <= i < j < |hits| ==> hits[i].id != hits[j].id
  }

  lemma {:induction false} OfKindUnique(rows: seq<Row>, kind: string)
    requires UniqueIds(rows)
    ensures UniqueIds(OfKind(rows, kind))
  {
    if rows != [] {
      var rest := OfKind(rows[1..], kind);
      OfKindUnique(rows[1..], kind);
      forall i | 0 <= i < |rest|
        ensures rest[i].id != rows[0].id
      {
        OfKindMembers(rows[1..], kind, rest[i]);
        var j :| 0 <= j < |rows[1..]| && rows[1..][j] == rest[i];
        assert rows[j + 1] == rest[i];
      }
    }
  }

  lemma {:induction false} HitsUnique(q: Vector, norm: Vector -> real, rows: seq<Row>)
    requires IsNorm(norm) && UniqueIds(rows)
    ensures UniqueHits(Hits(q, norm, rows))
  {
    hide Dot, CosineOf;
    if rows != [] {
      var init, last := rows[..|rows| - 1], rows[|rows| - 1];
      HitsUnique(q, norm, init);
      forall h | h in Hits(q, norm, init)
        ensures h.id != last.id
      {
        HitsMembers(q, norm, init, h);
        var r :| r in init && |r.vector| == |q| && h == HitOf(q, norm, r);
        var i :| 0 <= i < |init| && init[i] == r;
        assert rows[i] == r;
      }
    }
  }

  lemma TwiceInMultiset(s: seq<Hit>, i: nat, j: nat)
    requires i < j < |s| && s[i] == s[j]
    ensures multiset(s)[s[i]] >= 2
  {
    assert s == s[..i] + [s[i]] + s[i + 1..j] + [s[j]] + s[j + 1..];
  }

  lemma {:induction false} OnceInMultiset(s: seq<Hit>, h: Hit)
    requires UniqueHits(s)
    ensures multiset(s)[h] <= 1
  {
    if s != [] {
      var init := s[..|s| - 1];
      assert s == init + [s[|s| - 1]];
      OnceInMultiset(init, h);
      if h in init {
        assert h.id != s[|s| - 1].id;
      }
    }
  }

  /** A part of hits with different ids has different ids. */
  lemma PartUnique(part: seq<Hit>, all: seq<Hit>)
    requires UniqueHits(all) && multiset(part) <= multiset(all)
    ensures UniqueHits(part)
  {
    forall i, j | 0 <= i < j < |part|
      ensures part[i].id != part[j].id
    {
      if part[i] == part[j] {
        TwiceInMultiset(part, i, j);
        OnceInMultiset(all, part[i]);
      } else {
        assert part[i] in multiset(part) && part[j] in multiset(part);
        assert part[i] in all && part[j] in all;
      }
    }
  }

  /** A row that the search may return: the latest under its id, of the kind asked for, with a vector as long as the
      query's. */
  predicate Eligible(ops: seq<Op>, q: Vector, kind: string, r: Row) {
    Latest(ops, r.id) == Some(r) && (kind == "" || r.kind == kind) && |r.vector| == |q|
  }

  lemma HitsAreEligible(ops: seq<Op>, q: Vector, norm: Vector -> real, kind: string)
    requires IsNorm(norm)
    ensures var hits := Hits(q, norm, OfKind(RunOps(ops), kind));
            && UniqueHits(hits)
            && (forall h :: h in hits ==> exists r :: Eligible(ops, q, kind, r) && h == HitOf(q, norm, r))
            && (forall r :: Eligible(ops, q, kind, r) ==> HitOf(q, norm, r) in hits)
            && (forall h :: h in hits ==> -1.0 < h.score < 1.0)
  {
    hide Latest, RunOps, OfKind, Dot, CosineOf, Hits, UniqueIds, UniqueHits;
    var hits := Hits(q, norm, OfKind(RunOps(ops), kind));
    TableHoldsLatest(ops);
    OfKindUnique(RunOps(ops), kind);
    HitsUnique(q, norm, OfKind(RunOps(ops), kind));
    forall h | h in hits
      ensures exists r :: Eligible(ops, q, kind, r) && h == HitOf(q, norm, r)
      ensures -1.0 < h.score < 1.0
    {
      SearchRanksLatest(ops, q, norm, kind, h);
      var r: Row :| Latest(ops, r.id) == Some(r) && (kind == "" || r.kind == kind)
                    && |r.vector| == |q| && h == HitOf(q, norm, r);
      assert Eligible(ops, q, kind, r);
    }
    forall r | Eligible(ops, q, kind, r)
      ensures HitOf(q, norm, r) in hits
    {
      SearchRanksLatest(ops, q, norm, kind, HitOf(q, norm, r));
    }
  }

  /** After every run of upserts and deletes a search returns the best of exactly the latest rows: hits in descending
      order, one for an id, each of a latest row that fits; and a row that fits and is left out means that the limit
      is reached and no hit returned scores lower. */
  lemma SearchAfterRun(ops: seq<Op>, q: Vector, norm: Vector -> real, kind: string, k: int)
    requires IsNorm(norm)
    ensures var found, limit := Found(q, norm, RunOps(ops), kind, k), if k < 0 then 0 else k;
            && |found| <= limit && Descending(found) && UniqueHits(found)
            && (forall h :: h in found ==> -1.0 < h.score < 1.0)
            && (forall h :: h in found ==> exists r :: Eligible(ops, q, kind, r) && h == HitOf(q, norm, r))
            && (forall r :: Eligible(ops, q, kind, r) && HitOf(q, norm, r) !in found ==>
                  |found| == limit && forall h :: h in found ==> h.score >= HitOf(q, norm, r).score)
  {
    hide Latest, RunOps, OfKind, Dot, CosineOf, Hits, HitOf, UniqueHits, Descending, SortHits, TopK, Eligible;
    var hits := Hits(q, norm, OfKind(RunOps(ops), kind));
    var found := Found(q, norm, RunOps(ops), kind, k);
    HitsAreEligible(ops, q, norm, kind);
    var rest := TopKIsBest(hits, k);
    PartUnique(found, hits);
    assert |found| + |rest| == |multiset(found) + multiset(rest)| == |hits|;
    forall h | h in found
      ensures h in hits
    {
      assert h in multiset(found);
      assert h in multiset(hits);
    }
    forall h | h in hits && h !in found
      ensures h in rest
    {
      assert h in multiset(hits) && h !in multiset(found);
      assert h in multiset(rest);
    }
  }
}
