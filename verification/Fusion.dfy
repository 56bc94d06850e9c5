/**
  Weighted reciprocal-rank fusion of three ranked identifier lists. Scores are
  exact reals; the order of map iteration and of equal scores is left open.
  */
module Fusion {
  import opened Text
  import opened Dedup
  import opened Store
  import opened Ranking

  datatype Weights = Weights(identifier: real, lexical: real, vector: real)

  const IDENTIFIER_HEAVY := Weights(0.55, 0.30, 0.15)

  function RankScore(rank: nat): real {
    1.0 / ((rank + 1) as real)
  }

  /** A list's share for the id at a rank: its weight over the rank counted from one. */
  function Share(weight: real, rank: nat): real {
    weight * RankScore(rank)
  }

  function ScoreOf(scores: Scores, id: string): real {
    if id in scores then scores[id] else 0.0
  }

  /** What one occurrence of an id at a rank contributes; blanks and non-positive scores nothing. */
  function Contribution(entry: string, rank: nat, weight: real, id: string): real {
    var s := Share(weight, rank);
    if TrimSpace(entry) == id && id != "" && s > 0.0 then s else 0.0
  }

  /** The contribution of a whole list to one id. */
  function ListScore(ids: seq<string>, weight: real, id: string): (r: real)
    ensures r >= 0.0
  {
    if ids == [] then 0.0
    else
      var n := |ids| - 1;
      ListScore(ids[..n], weight, id) + Contribution(ids[n], n, weight, id)
  }

  datatype Lists = Lists(identifier: seq<string>, lexical: seq<string>, vector: seq<string>)

  /** The fused score of an id: the sum of its contributions from all three lists. */
  function Total(w: Weights, l: Lists, id: string): real {
    ListScore(l.identifier, w.identifier, id) + ListScore(l.lexical, w.lexical, id) + ListScore(l.vector, w.vector, id)
  }

  /** The map holds the positive totals and nothing else. */
  ghost predicate IsFused(w: Weights, l: Lists, scores: Scores) {
    forall id :: ScoreOf(scores, id) == Total(w, l, id) && (id in scores <==> Total(w, l, id) > 0.0)
  }

  /** Adds one occurrence to the running scores. */
  method AddScore(scores: Scores, entry: string, score: real) returns (out: Scores)
    ensures forall id :: ScoreOf(out, id) == ScoreOf(scores, id)
                                             + if TrimSpace(entry) == id && id != "" && score > 0.0 then score else 0.0
    ensures forall id :: id in out <==> id in scores || (TrimSpace(entry) == id && id != "" && score > 0.0)
  {
    var id := TrimSpace(entry);
    if id == "" || score <= 0.0 {
      return scores;
    }
    out := scores[id := ScoreOf(scores, id) + score];
  }

  ghost predicate Positive(scores: Scores) {
    forall id | id in scores :: scores[id] > 0.0
  }

  /** Adds a whole list, rank by rank. */
  method AddList(scores: Scores, ids: seq<string>, weight: real) returns (out: Scores)
    requires Positive(scores)
    ensures Positive(out)
    ensures forall id :: ScoreOf(out, id) == ScoreOf(scores, id) + ListScore(ids, weight, id)
  {
    out := scores;
    for rank := 0 to |ids|
      invariant Positive(out)
      invariant forall id :: ScoreOf(out, id) == ScoreOf(scores, id) + ListScore(ids[..rank], weight, id)
    {
      assert ids[..rank + 1][..rank] == ids[..rank];
      ghost var before := out;
      out := AddScore(out, ids[rank], Share(weight, rank));
      assert forall id | id in out :: ScoreOf(out, id) > 0.0;
    }
    assert ids[..|ids|] == ids;
  }

  function EffectiveLimit(topK: int, fusionCap: int): int {
    var limit := if topK <= 0 then fusionCap else topK;
    if fusionCap > 0 && limit > fusionCap then fusionCap else limit
  }

  /** The number asked for, or the cap where none is asked for, never more than a positive cap. */
  lemma EffectiveLimitIs(topK: int, fusionCap: int)
    ensures 1 <= topK && (topK <= fusionCap || fusionCap <= 0) ==> EffectiveLimit(topK, fusionCap) == topK
    ensures 1 <= fusionCap && (topK <= 0 || topK > fusionCap) ==> EffectiveLimit(topK, fusionCap) == fusionCap
    ensures topK <= 0 && fusionCap <= 0 ==> EffectiveLimit(topK, fusionCap) == fusionCap
  {
  }

  /** Fusion: accumulate three lists, sort by score, keep the top. */
  method Fuse(w: Weights, l: Lists, topK: int, fusionCap: int) returns (scores: Scores, out: seq<string>)
    requires EffectiveLimit(topK, fusionCap) >= 0
    ensures IsFused(w, l, scores)
    ensures IsTopK(scores, EffectiveLimit(topK, fusionCap), out)
    ensures fusionCap > 0 ==> |out| <= fusionCap
    ensures topK > 0 ==> |out| <= topK
  {
    scores := AddList(map[], l.identifier, w.identifier);
    scores := AddList(scores, l.lexical, w.lexical);
    scores := AddList(scores, l.vector, w.vector);
    var limit := EffectiveLimit(topK, fusionCap);
    var ranking := Rank(scores);
    PrefixIsTopK(scores, ranking, limit);
    out := ranking;
    if |out| > limit {
      out := out[..limit];
    }
  }

  // ----- scores on clean lists -----

  /** Distinct, trimmed, non-blank: what deduplication leaves. */
  ghost predicate CleanList(ids: seq<string>) {
    Distinct(ids) && forall x | x in ids :: x != "" && IsTrimmed(x)
  }

  ghost predicate CleanLists(l: Lists) {
    CleanList(l.identifier) && CleanList(l.lexical) && CleanList(l.vector)
  }

  lemma ScaledRank(weight: real, rank: nat)
    requires weight > 0.0
    ensures 0.0 < Share(weight, rank) <= weight
    ensures rank == 0 ==> Share(weight, rank) == weight
  {
    var r := RankScore(rank);
    assert 0.0 < r <= 1.0;
    MulMonotone(weight, r, 1.0);
    MulMonotone(weight, 0.0, r);
  }

  lemma MulMonotone(w: real, a: real, b: real)
    requires w >= 0.0 && a <= b
    ensures w * a <= w * b
    ensures w > 0.0 && a < b ==> w * a < w * b
  {
  }

  lemma RanksFall(weight: real, r: nat, s: nat)
    requires weight > 0.0 && r < s
    ensures Share(weight, s) < Share(weight, r)
  {
    var a, b := (r + 1) as real, (s + 1) as real;
    InverseFalls(a, b);
    assert RankScore(r) == 1.0 / a && RankScore(s) == 1.0 / b;
    MulMonotone(weight, RankScore(s), RankScore(r));
  }

  lemma InverseFalls(a: real, b: real)
    requires 0.0 < a < b
    ensures 1.0 / b < 1.0 / a
  {
    var x, y := 1.0 / a, 1.0 / b;
    assert x * a == 1.0 && y * b == 1.0 && y > 0.0;
    if y >= x {
      MulMonotone(a, x, y);
      MulMonotone(y, a, b);
    }
  }

  lemma CleanContribution(entry: string, rank: nat, weight: real, id: string)
    requires entry != "" && IsTrimmed(entry)
    ensures Contribution(entry, rank, weight, id) == if entry == id && weight > 0.0 then Share(weight, rank) else 0.0
  {
    TrimSpaceTrims(entry);
    if weight > 0.0 {
      ScaledRank(weight, rank);
    } else {
      MulMonotone(-weight, 0.0, RankScore(rank));
    }
  }

  lemma CleanPrefix(ids: seq<string>)
    requires CleanList(ids) && ids != []
    ensures var n := |ids| - 1;
            CleanList(ids[..n]) && ids[n] != "" && IsTrimmed(ids[n]) && ids[n] !in ids[..n]
  {
    assert ids[|ids| - 1] in ids;
  }

  /** An id outside a clean list scores nothing from it, nor does a weight that is not positive. */
  lemma {:induction false} SilentList(ids: seq<string>, weight: real, id: string)
    requires CleanList(ids) && (id !in ids || weight <= 0.0)
    ensures ListScore(ids, weight, id) == 0.0
  {
    if ids != [] {
      var n := |ids| - 1;
      CleanPrefix(ids);
      assert ids[n] in ids;
      SilentList(ids[..n], weight, id);
      CleanContribution(ids[n], n, weight, id);
    }
  }

  /** On a clean list the id at rank `r` scores `weight/(r+1)`. */
  lemma {:induction false} RankedScore(ids: seq<string>, weight: real, r: nat)
    requires CleanList(ids) && r < |ids| && weight > 0.0
    ensures ListScore(ids, weight, ids[r]) == Share(weight, r)
  {
    var n := |ids| - 1;
    CleanPrefix(ids);
    CleanContribution(ids[n], n, weight, ids[r]);
    if r == n {
      SilentList(ids[..n], weight, ids[r]);
    } else {
      assert ids[..n][r] == ids[r];
      RankedScore(ids[..n], weight, r);
    }
  }

  lemma CleanListBound(ids: seq<string>, weight: real, id: string)
    requires CleanList(ids) && weight > 0.0
    ensures ListScore(ids, weight, id) <= weight
    ensures id !in ids ==> ListScore(ids, weight, id) == 0.0
    ensures ids != [] && ids[0] == id ==> ListScore(ids, weight, id) == weight
  {
    if id in ids {
      var r :| 0 <= r < |ids| && ids[r] == id;
      RankedScore(ids, weight, r);
      ScaledRank(weight, r);
      if ids[0] == id {
        RankedScore(ids, weight, 0);
        ScaledRank(weight, 0);
      }
    } else {
      SilentList(ids, weight, id);
    }
  }

  // ----- identifier-heavy weights -----

  /** Under identifier-heavy weights: the top identifier scores at least .55, strangers at most .45, nobody above 1. */
  lemma HeavyScores(l: Lists, id: string)
    requires CleanLists(l)
    ensures Total(IDENTIFIER_HEAVY, l, id) <= 1.0
    ensures id !in l.identifier ==> Total(IDENTIFIER_HEAVY, l, id) <= 0.45
    ensures l.identifier != [] && l.identifier[0] == id ==> Total(IDENTIFIER_HEAVY, l, id) >= 0.55
  {
    CleanListBound(l.identifier, 0.55, id);
    CleanListBound(l.lexical, 0.30, id);
    CleanListBound(l.vector, 0.15, id);
  }

  /**
    Identifier hits dominate: whatever the other lists say, the first result
    comes from the identifier list, the rank-0 identifier hit precedes every
    result from outside that list, and no score exceeds 1.
    */
  lemma IdentifierDominates(l: Lists, scores: Scores, limit: nat, out: seq<string>)
    requires CleanLists(l) && l.identifier != [] && limit >= 1
    requires IsFused(IDENTIFIER_HEAVY, l, scores) && IsTopK(scores, limit, out)
    ensures out != [] && out[0] in l.identifier
    ensures forall j | 0 <= j < |out| && out[j] !in l.identifier :: exists i :: 0 <= i < j && out[i] == l.identifier[0]
    ensures forall id | id in scores :: scores[id] <= 1.0
  {
    var top := l.identifier[0];
    HeavyScores(l, top);
    assert ScoreOf(scores, top) == scores[top] >= 0.55;
    assert |scores| != 0 by {
      assert top in scores.Keys;
    }
    forall j | 0 <= j < |out| && out[j] !in l.identifier
      ensures exists i :: 0 <= i < j && out[i] == top
    {
      HeavyScores(l, out[j]);
      assert out[j] in scores && ScoreOf(scores, out[j]) == scores[out[j]];
      BestNotSkipped(scores, limit, out, j, top);
    }
    forall id | id in scores
      ensures scores[id] <= 1.0
    {
      HeavyScores(l, id);
      assert ScoreOf(scores, id) == scores[id];
    }
  }

  /** Every fusion of these identifier hits puts the rank-0 hit first. */
  ghost predicate TopHitAlwaysFirst(ids: seq<string>)
    requires ids != []
  {
    forall lexical: seq<string>, vector: seq<string>, scores: Scores, limit: nat, out: seq<string>
      | && CleanLists(Lists(ids, lexical, vector)) && limit >= 1
        && IsFused(IDENTIFIER_HEAVY, Lists(ids, lexical, vector), scores) && IsTopK(scores, limit, out) ::
      out != [] && out[0] == ids[0]
  }

  lemma {:induction false} FusedExists(w: Weights, l: Lists) returns (scores: Scores)
    ensures IsFused(w, l, scores)
  {
    var keys := Mentioned(l.identifier) + Mentioned(l.lexical) + Mentioned(l.vector);
    scores := map id | id in keys && Total(w, l, id) > 0.0 :: Total(w, l, id);
    forall id
      ensures ScoreOf(scores, id) == Total(w, l, id)
    {
      UnmentionedScoresNothing(l.identifier, w.identifier, id);
      UnmentionedScoresNothing(l.lexical, w.lexical, id);
      UnmentionedScoresNothing(l.vector, w.vector, id);
    }
  }

  function Mentioned(ids: seq<string>): set<string> {
    set x | x in ids :: TrimSpace(x)
  }

  lemma {:induction false} UnmentionedScoresNothing(ids: seq<string>, weight: real, id: string)
    ensures id !in Mentioned(ids) ==> ListScore(ids, weight, id) == 0.0
  {
    if ids != [] {
      UnmentionedScoresNothing(ids[..|ids| - 1], weight, id);
      assert ids == ids[..|ids| - 1] + [ids[|ids| - 1]];
    }
  }

  /** With two identifier hits, agreement of the other lists lifts the second above the first. */
  lemma SecondHitCanWin(ids: seq<string>)
    requires CleanList(ids) && |ids| >= 2
    ensures !TopHitAlwaysFirst(ids)
  {
    var second := ids[1];
    assert second in ids;
    var l := Lists(ids, [second], [second]);
    assert CleanLists(l);
    var scores := FusedExists(IDENTIFIER_HEAVY, l);
    var out := RankingExists(scores);
    PrefixIsTopK(scores, out, |out|);
    assert out[..Min(|out|, |out|)] == out;
    TopTwoScores(ids);
    assert ScoreOf(scores, ids[0]) == 0.55 && ScoreOf(scores, second) == 0.725;
    assert second in Elems(out) && out != [];
    var m :| 0 <= m < |out| && out[m] == second;
    assert out[0] in out && scores[out[0]] >= 0.725;
  }

  lemma TopTwoScores(ids: seq<string>)
    requires CleanList(ids) && |ids| >= 2
    ensures var l := Lists(ids, [ids[1]], [ids[1]]);
            Total(IDENTIFIER_HEAVY, l, ids[0]) == 0.55 && Total(IDENTIFIER_HEAVY, l, ids[1]) == 0.725
  {
    var other := [ids[1]];
    assert ids[1] in ids;
    assert CleanList(other);
    CleanListBound(ids, 0.55, ids[0]);
    RankedScore(ids, 0.55, 1);
    CleanListBound(other, 0.30, ids[1]);
    CleanListBound(other, 0.15, ids[1]);
    CleanListBound(other, 0.30, ids[0]);
    CleanListBound(other, 0.15, ids[0]);
  }

  /** The rank-0 identifier hit is always the first result exactly when it is the only one. */
  lemma TopHitAlwaysFirstIff(ids: seq<string>)
    requires CleanList(ids) && ids != []
    ensures TopHitAlwaysFirst(ids) <==> |ids| == 1
  {
    if |ids| >= 2 {
      SecondHitCanWin(ids);
    } else {
      forall lexical: seq<string>, vector: seq<string>, scores: Scores, limit: nat, out: seq<string>
        | && CleanLists(Lists(ids, lexical, vector)) && limit >= 1
          && IsFused(IDENTIFIER_HEAVY, Lists(ids, lexical, vector), scores) && IsTopK(scores, limit, out)
        ensures out != [] && out[0] == ids[0]
      {
        IdentifierDominates(Lists(ids, lexical, vector), scores, limit, out);
      }
    }
  }

  // ----- a single list -----

  /** Only `ids` can score: it is clean and positively weighted, and the total is its score alone. */
  ghost predicate SoleList(w: Weights, l: Lists, ids: seq<string>, weight: real) {
    && CleanList(ids) && weight > 0.0
    && forall id :: Total(w, l, id) == ListScore(ids, weight, id)
  }

  /** Lists that are empty or not positively weighted leave the third alone. */
  lemma OthersSilent(w: Weights, l: Lists)
    requires CleanLists(l)
    ensures (l.lexical == [] || w.lexical <= 0.0) && (l.vector == [] || w.vector <= 0.0) && w.identifier > 0.0
            ==> SoleList(w, l, l.identifier, w.identifier)
    ensures (l.identifier == [] || w.identifier <= 0.0) && (l.vector == [] || w.vector <= 0.0) && w.lexical > 0.0
            ==> SoleList(w, l, l.lexical, w.lexical)
    ensures (l.identifier == [] || w.identifier <= 0.0) && (l.lexical == [] || w.lexical <= 0.0) && w.vector > 0.0
            ==> SoleList(w, l, l.vector, w.vector)
  {
    forall id
      ensures l.identifier == [] || w.identifier <= 0.0 ==> ListScore(l.identifier, w.identifier, id) == 0.0
      ensures l.lexical == [] || w.lexical <= 0.0 ==> ListScore(l.lexical, w.lexical, id) == 0.0
      ensures l.vector == [] || w.vector <= 0.0 ==> ListScore(l.vector, w.vector, id) == 0.0
    {
      if l.identifier == [] || w.identifier <= 0.0 {
        SilentList(l.identifier, w.identifier, id);
      }
      if l.lexical == [] || w.lexical <= 0.0 {
        SilentList(l.lexical, w.lexical, id);
      }
      if l.vector == [] || w.vector <= 0.0 {
        SilentList(l.vector, w.vector, id);
      }
    }
  }

  /**
    When only one list can score, fusion returns exactly a prefix of it,
    whatever the iteration order of the map and the instability of the sort.
    */
  lemma SoleListIsKept(w: Weights, l: Lists, ids: seq<string>, weight: real, scores: Scores, limit: nat, out: seq<string>)
    requires SoleList(w, l, ids, weight) && IsFused(w, l, scores) && IsTopK(scores, limit, out)
    ensures out == ids[..Min(limit, |ids|)]
  {
    forall r | 0 <= r < |ids|
      ensures ids[r] in scores && scores[ids[r]] == Share(weight, r)
    {
      RankedScore(ids, weight, r);
      ScaledRank(weight, r);
      assert ScoreOf(scores, ids[r]) == Total(w, l, ids[r]);
    }
    forall id | id in scores
      ensures id in ids
    {
      assert Total(w, l, id) > 0.0;
      if id !in ids {
        SilentList(ids, weight, id);
      }
    }
    KeysAreList(scores, ids);
    forall i, j | 0 <= i < j < |ids|
      ensures scores[ids[i]] > scores[ids[j]]
    {
      RanksFall(weight, i, j);
      assert scores[ids[i]] == Share(weight, i) && scores[ids[j]] == Share(weight, j);
    }
    StrictOrderDecides(scores, ids, limit, out);
  }

  lemma KeysAreList(scores: Scores, ids: seq<string>)
    requires (forall id | id in scores :: id in ids) && forall r | 0 <= r < |ids| :: ids[r] in scores
    ensures Elems(ids) == scores.Keys
  {
  }
}
