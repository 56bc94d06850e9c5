/**
  Nearest rows of the embedding index: every stored vector of the query's
  length is compared with it, positive similarities are sorted and cut at `k`.
  */
module VectorIndex {
  import opened Store
  import opened Ranking
  import opened Embedding

  /** A stored row; `None` stands for a vector that does not parse. */
  datatype IndexRow = IndexRow(id: string, vector: Option<seq<real>>)

  /** Identifiers are unique among the rows of one tenant and resource type. */
  ghost predicate DistinctIds(rows: seq<IndexRow>) {
    forall i, j | 0 <= i < j < |rows| :: rows[i].id != rows[j].id
  }

  function Similarity(query: seq<real>, row: IndexRow): real {
    match row.vector
    case Some(v) => if |v| == |query| then Dot(query, v) else 0.0
    case None => 0.0
  }

  ghost function SimilarityScores(query: seq<real>, rows: seq<IndexRow>): Scores {
    if rows == [] then map[]
    else
      var n := |rows| - 1;
      var s := Similarity(query, rows[n]);
      var before := SimilarityScores(query, rows[..n]);
      if s > 0.0 then before[rows[n].id := s] else before
  }

  ghost predicate OtherLength(query: seq<real>, row: IndexRow) {
    row.vector.Some? && |row.vector.value| != |query|
  }

  /** Scans the rows, skipping vectors that do not parse or have another length. */
  method ScoreRows(rows: seq<IndexRow>, query: array<real>) returns (scores: Scores, mismatch: bool)
    ensures scores == SimilarityScores(query[..], rows)
    ensures mismatch <==> exists r :: r in rows && OtherLength(query[..], r)
  {
    scores, mismatch := map[], false;
    for i := 0 to |rows|
      invariant scores == SimilarityScores(query[..], rows[..i])
      invariant mismatch <==> exists r :: r in rows[..i] && OtherLength(query[..], r)
    {
      assert rows[..i + 1][..i] == rows[..i];
      assert rows[..i + 1] == rows[..i] + [rows[i]];
      if rows[i].vector.None? {
        continue;
      }
      var v := rows[i].vector.value;
      if |v| != query.Length {
        mismatch := true;
        assert OtherLength(query[..], rows[i]);
        continue;
      }
      var docVec := new real[|v|](k requires 0 <= k < |v| => v[k]);
      assert docVec[..] == v;
      var score := Cosine(query, docVec);
      if score <= 0.0 {
        continue;
      }
      scores := scores[rows[i].id := score];
    }
    assert rows[..|rows|] == rows;
  }

  /**
    The search over the rows of a tenant and resource type: nothing without
    those two or for `k <= 0`, otherwise the best `k` rows.
    */
  method TopK(tenant: string, resource: string, rows: seq<IndexRow>, query: array<real>, k: int)
    returns (ids: seq<string>, mismatch: bool)
    requires DistinctIds(rows)
    ensures tenant == "" || resource == "" || k <= 0 ==> ids == [] && !mismatch
    ensures tenant != "" && resource != "" && k > 0 ==>
              && IsTopK(SimilarityScores(query[..], rows), k, ids)
              && (mismatch <==> exists r :: r in rows && OtherLength(query[..], r))
  {
    if tenant == "" || resource == "" || k <= 0 {
      return [], false;
    }
    var scores;
    scores, mismatch := ScoreRows(rows, query);
    ids := Rank(scores);
    PrefixIsTopK(scores, ids, k);
    if |ids| > k {
      ids := ids[..k];
    }
  }

  /** With unique identifiers, the scores are exactly the positive similarities. */
  lemma {:induction false} ScoresAreSimilarities(query: seq<real>, rows: seq<IndexRow>)
    requires DistinctIds(rows)
    ensures forall r | r in rows && Similarity(query, r) > 0.0 ::
              r.id in SimilarityScores(query, rows) && SimilarityScores(query, rows)[r.id] == Similarity(query, r)
    ensures forall id | id in SimilarityScores(query, rows) ::
              exists r :: r in rows && r.id == id && Similarity(query, r) > 0.0
  {
    if rows != [] {
      var n := |rows| - 1;
      var before, scores := SimilarityScores(query, rows[..n]), SimilarityScores(query, rows);
      ScoresAreSimilarities(query, rows[..n]);
      assert rows == rows[..n] + [rows[n]];
      forall r | r in rows && Similarity(query, r) > 0.0
        ensures r.id in scores && scores[r.id] == Similarity(query, r)
      {
        if r in rows[..n] {
          var i :| 0 <= i < n && rows[i] == r;
          assert rows[i].id != rows[n].id;
        }
      }
      forall id | id in scores
        ensures exists r :: r in rows && r.id == id && Similarity(query, r) > 0.0
      {
        if id in before {
          var r :| r in rows[..n] && r.id == id && Similarity(query, r) > 0.0;
          assert r in rows;
        } else {
          assert rows[n] in rows;
        }
      }
    }
  }

  /** Every stored vector of the query's length is itself an embedding. */
  ghost predicate Embedded(rows: seq<IndexRow>, dims: nat) {
    forall r | r in rows && r.vector.Some? && |r.vector.value| == dims :: UnitOrZero(r.vector.value)
  }

  /** Between embeddings, a row is similar to at most 1, and to 1 exactly when it stores the query's own vector. */
  lemma SimilarityBounds(query: seq<real>, row: IndexRow)
    requires UnitOrZero(query) && !IsZero(query)
    requires row.vector.Some? && |row.vector.value| == |query| ==> UnitOrZero(row.vector.value)
    ensures 0.0 <= Similarity(query, row) <= 1.0
    ensures Similarity(query, row) == 1.0 <==> row.vector == Some(query)
  {
    if row.vector.Some? && |row.vector.value| == |query| {
      CosineBounds(query, row.vector.value);
    }
  }

  /**
    A text that is in the index under any word order is found first: when some
    row stores the embedding of a reordering of the message, the leading hit is
    a row whose vector is the message's own, and no hit scores above it.
    */
  lemma ReorderedTextLeads(rows: seq<IndexRow>, message: seq<Token>, stored: seq<Token>, row: IndexRow, dims: nat,
                           sqrt: real -> real, k: nat, ids: seq<string>)
    requires SafeDims(dims) && IsRoot(sqrt) && DistinctIds(rows) && Embedded(rows, dims)
    requires message != [] && multiset(message) == multiset(stored)
    requires row in rows && row.vector == Some(Embed(stored, dims, sqrt))
    requires k >= 1 && IsTopK(SimilarityScores(Embed(message, dims, sqrt), rows), k, ids)
    ensures ids != []
    ensures exists r :: r in rows && r.id == ids[0] && r.vector == Some(Embed(message, dims, sqrt))
    ensures forall id | id in ids :: 0.0 < SimilarityScores(Embed(message, dims, sqrt), rows)[id] <= 1.0
  {
    var query := Embed(message, dims, sqrt);
    var scores := SimilarityScores(query, rows);
    EmbedIsUnit(message, dims, sqrt);
    EmbedIgnoresOrder(message, stored, dims, sqrt);
    ScoresAreSimilarities(query, rows);
    SimilarityBounds(query, row);
    assert row.id in scores && scores[row.id] == 1.0;
    assert |scores| != 0 by {
      assert row.id in scores.Keys;
    }
    forall id | id in ids
      ensures 0.0 < scores[id] <= 1.0
      ensures scores[id] == 1.0 ==> exists r :: r in rows && r.id == id && r.vector == Some(query)
    {
      var r :| r in rows && r.id == id && Similarity(query, r) > 0.0;
      SimilarityBounds(query, r);
    }
    assert ids[0] in ids && scores[ids[0]] >= 1.0 by {
      if row.id in ids {
        var m :| 0 <= m < |ids| && ids[m] == row.id;
      }
    }
  }
}
