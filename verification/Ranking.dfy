/** Sorting a score map by descending score, ties in any order, and keeping the top. */
module Ranking {
  import opened Store
  import opened Dedup

  type Scores = map<string, real>

  ghost function Elems(s: seq<string>): set<string> {
    set x | x in s
  }

  lemma ElemsAppend(s: seq<string>, x: string)
    ensures Elems(s + [x]) == Elems(s) + {x}
  {
  }

  ghost predicate Descending(scores: Scores, out: seq<string>)
    requires forall x | x in out :: x in scores
  {
    forall i, j | 0 <= i < j < |out| :: scores[out[i]] >= scores[out[j]]
  }

  /** Some descending listing of all keys; equal scores may come in any order. */
  ghost predicate IsRanking(scores: Scores, out: seq<string>) {
    && Distinct(out)
    && Elems(out) == scores.Keys
    && Descending(scores, out)
  }

  /** The best `k` keys, best first; nothing left out beats anything kept. */
  ghost predicate IsTopK(scores: Scores, k: nat, out: seq<string>) {
    && Distinct(out)
    && (forall x | x in out :: x in scores)
    && |out| == Min(k, |scores|)
    && Descending(scores, out)
    && (forall x, y | x in scores && x !in out && y in out :: scores[y] >= scores[x])
  }

  lemma {:induction false} DistinctSize(s: seq<string>)
    requires Distinct(s)
    ensures |Elems(s)| == |s|
  {
    if s != [] {
      var n := |s| - 1;
      DistinctSize(s[..n]);
      assert s == s[..n] + [s[n]];
      ElemsAppend(s[..n], s[n]);
      assert s[n] !in Elems(s[..n]);
    }
  }

  /** Truncating a ranking gives the top of it. */
  lemma PrefixIsTopK(scores: Scores, ranking: seq<string>, k: nat)
    requires IsRanking(scores, ranking)
    ensures IsTopK(scores, k, ranking[..Min(k, |ranking|)])
  {
    DistinctSize(ranking);
    assert |scores| == |scores.Keys|;
    var n := Min(k, |ranking|);
    var out := ranking[..n];
    assert forall x | x in out :: x in Elems(ranking);
    forall x, y | x in scores && x !in out && y in out
      ensures scores[y] >= scores[x]
    {
      LeftOutIsNoBetter(scores, ranking, n, x, y);
    }
  }

  lemma LeftOutIsNoBetter(scores: Scores, ranking: seq<string>, n: nat, x: string, y: string)
    requires IsRanking(scores, ranking) && n <= |ranking|
    requires x in scores && x !in ranking[..n] && y in ranking[..n]
    ensures y in scores && scores[y] >= scores[x]
  {
    assert forall a | 0 <= a < n :: ranking[a] == ranking[..n][a] && ranking[a] in ranking[..n];
    var i :| 0 <= i < n && ranking[..n][i] == y;
    assert x in Elems(ranking) && y in Elems(ranking);
    var j :| 0 <= j < |ranking| && ranking[j] == x;
  }

  /** Collects the keys in whatever order the map yields them. */
  method ListKeys(scores: Scores) returns (list: seq<string>)
    ensures Distinct(list) && Elems(list) == scores.Keys
  {
    list := [];
    var todo := scores.Keys;
    while todo != {}
      invariant todo <= scores.Keys
      invariant Distinct(list) && Elems(list) == scores.Keys - todo
    {
      var id :| id in todo;
      assert id !in Elems(list);
      ElemsAppend(list, id);
      list := list + [id];
      todo := todo - {id};
    }
  }

  /** Splicing a key in between better and worse ones keeps a list sorted. */
  lemma SpliceKeepsOrder(scores: Scores, sorted: seq<string>, id: string, i: nat)
    requires i <= |sorted| && id in scores && id !in sorted && Distinct(sorted)
    requires (forall x | x in sorted :: x in scores) && Descending(scores, sorted)
    requires forall j | 0 <= j < i :: scores[sorted[j]] >= scores[id]
    requires i < |sorted| ==> scores[sorted[i]] < scores[id]
    ensures var out := sorted[..i] + [id] + sorted[i..];
            Distinct(out) && Elems(out) == Elems(sorted) + {id}
            && (forall x | x in out :: x in scores) && Descending(scores, out)
  {
    var out := sorted[..i] + [id] + sorted[i..];
    SpliceMembers(sorted, id, i);
    forall j, k | 0 <= j < k < |out|
      ensures out[j] != out[k] && out[j] in scores && out[k] in scores && scores[out[j]] >= scores[out[k]]
    {
      var a, b := if j < i then j else j - 1, if k < i then k else k - 1;
      if j == i {
        assert out[k] == sorted[b] && sorted[b] in sorted;
      } else if k == i {
        assert out[j] == sorted[a] && sorted[a] in sorted;
      } else {
        assert out[j] == sorted[a] && sorted[a] in sorted;
        assert out[k] == sorted[b] && sorted[b] in sorted;
      }
    }
  }

  lemma SpliceMembers(s: seq<string>, id: string, i: nat)
    requires i <= |s|
    ensures var out := s[..i] + [id] + s[i..];
            Elems(out) == Elems(s) + {id} && forall x | x in out :: x in s || x == id
  {
    assert s == s[..i] + s[i..];
  }

  /** Places one key behind every key that scores at least as much. */
  method Insert(scores: Scores, sorted: seq<string>, id: string) returns (out: seq<string>)
    requires id in scores && id !in sorted && Distinct(sorted)
    requires (forall x | x in sorted :: x in scores) && Descending(scores, sorted)
    ensures Distinct(out) && Elems(out) == Elems(sorted) + {id}
    ensures (forall x | x in out :: x in scores) && Descending(scores, out)
  {
    var i := 0;
    while i < |sorted| && scores[sorted[i]] >= scores[id]
      invariant i <= |sorted|
      invariant forall j | 0 <= j < i :: scores[sorted[j]] >= scores[id]
    {
      i := i + 1;
    }
    SpliceKeepsOrder(scores, sorted, id, i);
    out := sorted[..i] + [id] + sorted[i..];
  }

  /** Sorts all keys by descending score; callers may rely on the contract only. */
  method Rank(scores: Scores) returns (ranking: seq<string>)
    ensures IsRanking(scores, ranking)
  {
    var list := ListKeys(scores);
    assert forall x | x in list :: x in Elems(list);
    ranking := [];
    for i := 0 to |list|
      invariant Distinct(ranking) && Elems(ranking) == Elems(list[..i])
      invariant (forall x | x in ranking :: x in scores) && Descending(scores, ranking)
    {
      assert list[..i + 1] == list[..i] + [list[i]];
      assert list[i] !in Elems(list[..i]) && list[i] in list;
      ElemsAppend(list[..i], list[i]);
      assert forall x | x in ranking :: x in Elems(ranking);
      ranking := Insert(scores, ranking, list[i]);
    }
    assert list[..|list|] == list;
  }

  lemma AppendWorst(scores: Scores, worst: string, rest: seq<string>)
    requires worst in scores && forall x | x in scores :: scores[worst] <= scores[x]
    requires IsRanking(scores - {worst}, rest)
    ensures IsRanking(scores, rest + [worst])
  {
    var ranking := rest + [worst];
    ElemsAppend(rest, worst);
    assert forall x | x in rest :: x in Elems(rest);
    assert (scores - {worst}).Keys == scores.Keys - {worst};
    assert Elems(ranking) == scores.Keys;
    assert forall x | x in ranking :: x in Elems(ranking);
    forall i, j | 0 <= i < j < |ranking|
      ensures scores[ranking[i]] >= scores[ranking[j]]
    {
      assert ranking[i] == rest[i] && rest[i] in rest;
      if j < |rest| {
        assert (scores - {worst})[rest[i]] >= (scores - {worst})[rest[j]];
      }
    }
  }

  /** Every score map has a ranking. */
  lemma {:induction false} RankingExists(scores: Scores) returns (ranking: seq<string>)
    ensures IsRanking(scores, ranking)
    decreases |scores|
  {
    if scores == map[] {
      ranking := [];
    } else {
      assert scores.Keys != {};
      var worst := LowestKey(scores, scores.Keys);
      assert |scores - {worst}| < |scores| by {
        assert scores == (scores - {worst})[worst := scores[worst]];
      }
      var rest := RankingExists(scores - {worst});
      ranking := rest + [worst];
      AppendWorst(scores, worst, rest);
    }
  }

  lemma {:induction false} LowestKey(scores: Scores, keys: set<string>) returns (worst: string)
    requires keys != {} && keys <= scores.Keys
    ensures worst in keys && forall x | x in keys :: scores[worst] <= scores[x]
    decreases |keys|
  {
    worst :| worst in keys;
    if keys != {worst} {
      var other := LowestKey(scores, keys - {worst});
      if scores[other] < scores[worst] {
        worst := other;
      }
    }
  }

  /**
    When scores fall strictly along a listing of all keys, there is only one
    top list: a prefix of that listing, however ties and iteration fall out.
    */
  lemma {:induction false} StrictOrderDecides(scores: Scores, order: seq<string>, k: nat, out: seq<string>)
    requires Distinct(order) && Elems(order) == scores.Keys
    requires forall i, j | 0 <= i < j < |order| :: scores[order[i]] > scores[order[j]]
    requires IsTopK(scores, k, out)
    ensures out == order[..Min(k, |order|)]
  {
    DistinctSize(order);
    assert |scores| == |scores.Keys|;
    forall i | 0 <= i < |out|
      ensures out[i] == order[i]
    {
      PositionDecided(scores, order, k, out, i);
    }
  }

  lemma {:induction false} PositionDecided(scores: Scores, order: seq<string>, k: nat, out: seq<string>, i: nat)
    requires Distinct(order) && Elems(order) == scores.Keys && |out| <= |order|
    requires forall a, b | 0 <= a < b < |order| :: scores[order[a]] > scores[order[b]]
    requires IsTopK(scores, k, out) && i < |out|
    ensures out[i] == order[i]
    decreases i
  {
    forall j | 0 <= j < i
      ensures out[j] == order[j]
    {
      PositionDecided(scores, order, k, out, j);
    }
    assert out[i] in Elems(order);
    var r :| 0 <= r < |order| && order[r] == out[i];
    if r < i {
      assert false;
    }
    assert order[i] in Elems(order);
    if scores[order[i]] > scores[out[i]] {
      BestNotSkipped(scores, k, out, i, order[i]);
    }
  }

  /** Whatever scores more than the entry at `i` stands before it. */
  lemma BestNotSkipped(scores: Scores, k: nat, out: seq<string>, i: nat, x: string)
    requires IsTopK(scores, k, out) && i < |out| && x in scores && scores[x] > scores[out[i]]
    ensures exists m :: 0 <= m < i && out[m] == x
  {
    assert x in out;
    var m :| 0 <= m < |out| && out[m] == x;
    assert m != i;
  }
}
