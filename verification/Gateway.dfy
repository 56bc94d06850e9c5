/** Normalisation of what the semantic gateway's provider returns: ids, scores, confidence. */
module Gateway {
  import opened Text
  import opened Dedup
  import opened Store

  datatype Payload = Payload(candidateIDs: seq<string>, scores: seq<real>, confidence: real, evidence: seq<string>)

  datatype Normal = Normal(candidateIDs: seq<string>, scores: seq<real>, confidence: real, evidence: seq<string>)

  datatype Refusal = EmptyCandidates | ScoresLengthMismatch

  datatype Answer = Accepted(value: Normal) | Refused(why: Refusal)

  function Clamp01(v: real): (r: real)
    ensures 0.0 <= r <= 1.0
    ensures 0.0 <= v <= 1.0 ==> r == v
    ensures v < 0.0 ==> r == 0.0
    ensures v > 1.0 ==> r == 1.0
  {
    if v < 0.0 then 0.0 else if v > 1.0 then 1.0 else v
  }

  /** The ids that survive trimming, deduplication and clipping. */
  ghost function Kept(raw: seq<string>, maxCandidates: nat): seq<string> {
    var d := DedupeTrimmed(raw);
    d[..Min(|d|, maxCandidates)]
  }

  /** Scores are read by position in the kept list; without scores, the confidence stands in. */
  function ScoreAt(p: Payload, i: nat): real
    requires p.scores == [] || i < |p.scores|
  {
    Clamp01(if p.scores == [] then p.confidence else p.scores[i])
  }

  lemma {:induction false} CleanedShrinks(s: seq<string>)
    ensures |Cleaned(s)| <= |s|
  {
    if s != [] {
      CleanedShrinks(s[..|s| - 1]);
    }
  }

  lemma KeptFits(raw: seq<string>, maxCandidates: nat)
    ensures |Kept(raw, maxCandidates)| <= |raw|
  {
    CleanedShrinks(raw);
  }

  /** What normalisation answers: kept ids with a score each, or the refusal that applies. */
  ghost function Normalized(p: Payload, maxCandidates: nat): Answer
    requires maxCandidates >= 1
  {
    var kept := Kept(p.candidateIDs, maxCandidates);
    KeptFits(p.candidateIDs, maxCandidates);
    if kept == [] then Refused(EmptyCandidates)
    else if p.scores != [] && |p.scores| != |p.candidateIDs| then Refused(ScoresLengthMismatch)
    else Accepted(Normal(kept, seq(|kept|, i requires 0 <= i < |kept| => ScoreAt(p, i)),
                         Clamp01(p.confidence), DedupeTrimmed(p.evidence)))
  }

  /** The normaliser. */
  method Normalize(p: Payload, maxCandidates: nat) returns (r: Answer)
    requires maxCandidates >= 1
    ensures r == Normalized(p, maxCandidates)
  {
    var evidence := DedupeStrings(p.evidence);
    var candidates := DedupeStrings(p.candidateIDs);
    CleanedShrinks(p.candidateIDs);
    if |candidates| == 0 {
      return Refused(EmptyCandidates);
    }
    if |candidates| > maxCandidates {
      candidates := candidates[..maxCandidates];
    }
    if |p.scores| > 0 && |p.scores| != |p.candidateIDs| {
      return Refused(ScoresLengthMismatch);
    }
    var confidence := Clamp01(p.confidence);
    var scores: seq<real> := [];
    for i := 0 to |candidates|
      invariant |scores| == i
      invariant forall k | 0 <= k < i :: (p.scores == [] || k < |p.scores|) && scores[k] == ScoreAt(p, k)
    {
      scores := scores + [if |p.scores| == 0 then confidence else Clamp01(p.scores[i])];
    }
    r := Accepted(Normal(candidates, scores, confidence, evidence));
  }

  /** Kept ids are distinct, trimmed and non-blank, at most the cap of them, in order of first appearance. */
  lemma KeptIds(raw: seq<string>, maxCandidates: nat)
    requires maxCandidates >= 1
    ensures var kept := Kept(raw, maxCandidates);
            && Distinct(kept) && |kept| <= maxCandidates && |kept| <= |raw|
            && (forall x | x in kept :: x != "" && IsTrimmed(x) && exists y :: y in raw && TrimSpace(y) == x)
            && (kept == [] <==> forall y | y in raw :: TrimSpace(y) == "")
            && (|kept| < maxCandidates ==> forall y | y in raw && TrimSpace(y) != "" :: TrimSpace(y) in kept)
            && (forall i, j | 0 <= i < j < |kept| :: FirstPosition(raw, kept[i]) < FirstPosition(raw, kept[j]))
  {
    var d, kept := DedupeTrimmed(raw), Kept(raw, maxCandidates);
    DedupeTrimmedProperties(raw);
    CleanedShrinks(raw);
    assert forall x | x in kept :: x in d;
    if d == [] {
      assert forall y | y in raw :: TrimSpace(y) == "";
    } else {
      assert kept[0] in kept;
    }
    forall i, j | 0 <= i < j < |kept|
      ensures FirstPosition(raw, kept[i]) < FirstPosition(raw, kept[j])
    {
      KeptInOrder(raw, i, j);
    }
  }

  /** Position of the first raw entry that trims to `id`; the length if there is none. */
  function FirstPosition(raw: seq<string>, id: string): (p: nat)
    ensures p <= |raw|
    ensures p < |raw| ==> TrimSpace(raw[p]) == id
    ensures forall j | 0 <= j < p :: TrimSpace(raw[j]) != id
  {
    if raw == [] then 0
    else if TrimSpace(raw[0]) == id then 0
    else
      var p := FirstPosition(raw[1..], id);
      assert forall j | 1 <= j < p + 1 :: raw[1..][j - 1] == raw[j];
      p + 1
  }

  lemma {:induction false} KeptInOrder(raw: seq<string>, i: nat, j: nat)
    requires i < j < |DedupeTrimmed(raw)|
    ensures FirstPosition(raw, DedupeTrimmed(raw)[i]) < FirstPosition(raw, DedupeTrimmed(raw)[j])
    decreases |raw|
  {
    var n := |raw| - 1;
    var d, prior := DedupeTrimmed(raw), DedupeTrimmed(raw[..n]);
    LastEntry(raw);
    PositionInPrefix(raw, d[i]);
    if j < |prior| {
      KeptInOrder(raw[..n], i, j);
      PositionInPrefix(raw, d[j]);
      DedupeTrimmedProperties(raw[..n]);
      assert prior[i] in prior && prior[j] in prior;
    } else {
      DedupeTrimmedProperties(raw[..n]);
      assert prior[i] in prior;
      PositionInPrefix(raw, d[j]);
      DedupeTrimmedProperties(raw);
      assert d[j] !in prior;
    }
  }

  /** The last raw entry adds itself, trimmed, unless it is blank or already there. */
  lemma LastEntry(raw: seq<string>)
    requires raw != []
    ensures var n := |raw| - 1;
            var prior, last := DedupeTrimmed(raw[..n]), TrimSpace(raw[n]);
            DedupeTrimmed(raw) == if last == "" || last in prior then prior else prior + [last]
  {
    var n := |raw| - 1;
    var c, last := Cleaned(raw[..n]), TrimSpace(raw[n]);
    KeepFirstKeys(c, Same);
    var prior := DedupeTrimmed(raw[..n]);
    assert last in prior <==> last in Keys(c, Same) by {
      if last in Keys(c, Same) {
        assert last in Keys(prior, Same);
      }
      if last in prior {
        assert Same(last) in Keys(prior, Same);
      }
    }
    if last == "" {
      assert Cleaned(raw) == c;
    } else {
      assert Cleaned(raw) == c + [last] && (c + [last])[..|c|] == c;
    }
  }

  lemma {:induction false} PositionInPrefix(raw: seq<string>, id: string)
    requires raw != []
    ensures var n := |raw| - 1;
            && (FirstPosition(raw[..n], id) < n ==> FirstPosition(raw, id) == FirstPosition(raw[..n], id))
            && (FirstPosition(raw[..n], id) == n ==> FirstPosition(raw, id) >= n)
  {
    var n := |raw| - 1;
    var p, q := FirstPosition(raw[..n], id), FirstPosition(raw, id);
    if p < n {
      assert raw[..n][p] == raw[p];
    }
    if q < n {
      assert raw[..n][q] == raw[q];
    }
  }

  /** What is accepted has between one and the cap of ids, and as many scores, each between 0 and 1. */
  lemma AcceptedShape(p: Payload, maxCandidates: nat)
    requires maxCandidates >= 1 && Normalized(p, maxCandidates).Accepted?
    ensures var n := Normalized(p, maxCandidates).value;
            && 1 <= |n.candidateIDs| <= maxCandidates && |n.scores| == |n.candidateIDs|
            && (forall i | 0 <= i < |n.scores| :: 0.0 <= n.scores[i] <= 1.0)
            && 0.0 <= n.confidence <= 1.0
            && (p.scores == [] ==> forall i | 0 <= i < |n.scores| :: n.scores[i] == n.confidence)
            && (0.0 <= p.confidence <= 1.0 ==> n.confidence == p.confidence)
  {
  }

  /** Nothing is accepted without a visible id, nor with scores for another number of raw ids; all else is. */
  lemma RefusalsAre(p: Payload, maxCandidates: nat)
    requires maxCandidates >= 1
    ensures var blank := forall y | y in p.candidateIDs :: TrimSpace(y) == "";
            var r := Normalized(p, maxCandidates);
            && (r == Refused(EmptyCandidates) <==> blank)
            && (r == Refused(ScoresLengthMismatch) <==> !blank && p.scores != [] && |p.scores| != |p.candidateIDs|)
  {
    KeptIds(p.candidateIDs, maxCandidates);
  }

  // ----- whose score is it -----

  /** Every id carries the raw score at its own first position. */
  ghost predicate OwnScores(p: Payload, n: Normal) {
    && |n.scores| == |n.candidateIDs|
    && forall i | 0 <= i < |n.scores| ::
         var own := FirstPosition(p.candidateIDs, n.candidateIDs[i]);
         own < |p.scores| && n.scores[i] == Clamp01(p.scores[own])
  }

  /** Whatever the scores, an accepted payload with these raw ids gives every id its own. */
  ghost predicate AlwaysOwnScores(raw: seq<string>, maxCandidates: nat)
    requires maxCandidates >= 1
  {
    forall p: Payload | p.candidateIDs == raw && p.scores != [] && Normalized(p, maxCandidates).Accepted? ::
      OwnScores(p, Normalized(p, maxCandidates).value)
  }

  /** The trimmed entry is blank or repeats one of the first `n`. */
  ghost predicate AddsNothing(raw: seq<string>, n: nat, j: nat)
    requires n <= j < |raw|
  {
    TrimSpace(raw[j]) == "" || exists i :: 0 <= i < n && TrimSpace(raw[i]) == TrimSpace(raw[j])
  }

  /** The first `n` entries are distinct and non-blank, and either they fill the cap or the others add nothing. */
  ghost predicate CleanUpTo(raw: seq<string>, maxCandidates: nat, n: nat) {
    && n <= |raw| && n <= maxCandidates
    && (forall i | 0 <= i < n :: TrimSpace(raw[i]) != "")
    && (forall i, j | 0 <= i < j < n :: TrimSpace(raw[i]) != TrimSpace(raw[j]))
    && (n == maxCandidates || forall j | n <= j < |raw| :: AddsNothing(raw, n, j))
  }

  /** The kept ids are the first raw ids, trimmed, one for one. */
  ghost predicate KeptIsPrefix(raw: seq<string>, kept: seq<string>) {
    |kept| <= |raw| && forall i | 0 <= i < |kept| :: TrimSpace(raw[i]) == kept[i]
  }

  function Trims(raw: seq<string>, n: nat): seq<string>
    requires n <= |raw|
  {
    seq(n, i requires 0 <= i < n => TrimSpace(raw[i]))
  }

  lemma {:induction false} StartIsKept(raw: seq<string>, k: nat)
    requires k <= |raw|
    requires forall i | 0 <= i < k :: TrimSpace(raw[i]) != ""
    requires forall i, j | 0 <= i < j < k :: TrimSpace(raw[i]) != TrimSpace(raw[j])
    ensures DedupeTrimmed(raw[..k]) == Trims(raw, k)
  {
    if k == 0 {
      assert raw[..0] == [];
    } else {
      StartIsKept(raw, k - 1);
      NextEntry(raw, k - 1);
      NotAmong(raw, k - 1);
      assert Trims(raw, k) == Trims(raw, k - 1) + [TrimSpace(raw[k - 1])];
    }
  }

  lemma NotAmong(raw: seq<string>, k: nat)
    requires k < |raw| && forall i | 0 <= i < k :: TrimSpace(raw[i]) != TrimSpace(raw[k])
    ensures TrimSpace(raw[k]) !in Trims(raw, k)
  {
  }

  lemma NextEntry(raw: seq<string>, k: nat)
    requires k < |raw|
    ensures var prior, next := DedupeTrimmed(raw[..k]), TrimSpace(raw[k]);
            DedupeTrimmed(raw[..k + 1]) == if next == "" || next in prior then prior else prior + [next]
    ensures DedupeTrimmed(raw[..k]) <= DedupeTrimmed(raw[..k + 1])
  {
    LastEntry(raw[..k + 1]);
    assert raw[..k + 1][..k] == raw[..k];
  }

  lemma {:induction false} RestAddsNothing(raw: seq<string>, n: nat, m: nat, kept: seq<string>)
    requires n <= m <= |raw| && DedupeTrimmed(raw[..n]) == kept
    requires forall j | n <= j < |raw| :: TrimSpace(raw[j]) == "" || TrimSpace(raw[j]) in kept
    ensures DedupeTrimmed(raw[..m]) == kept
  {
    if m > n {
      RestAddsNothing(raw, n, m - 1, kept);
      KnownAddsNothing(raw, m - 1, kept);
    }
  }

  lemma KnownAddsNothing(raw: seq<string>, k: nat, kept: seq<string>)
    requires k < |raw| && DedupeTrimmed(raw[..k]) == kept
    requires TrimSpace(raw[k]) == "" || TrimSpace(raw[k]) in kept
    ensures DedupeTrimmed(raw[..k + 1]) == kept
  {
    NextEntry(raw, k);
  }

  lemma Repeated(raw: seq<string>, n: nat, j: nat)
    requires n <= j < |raw| && AddsNothing(raw, n, j)
    ensures TrimSpace(raw[j]) == "" || TrimSpace(raw[j]) in Trims(raw, n)
  {
    if TrimSpace(raw[j]) != "" {
      var i :| 0 <= i < n && TrimSpace(raw[i]) == TrimSpace(raw[j]);
      assert Trims(raw, n)[i] == TrimSpace(raw[j]);
    }
  }

  lemma {:induction false} KeptGrows(raw: seq<string>, n: nat, m: nat)
    requires n <= m <= |raw|
    ensures DedupeTrimmed(raw[..n]) <= DedupeTrimmed(raw[..m])
  {
    if m > n {
      KeptGrows(raw, n, m - 1);
      NextEntry(raw, m - 1);
      PrefixChains(DedupeTrimmed(raw[..n]), DedupeTrimmed(raw[..m - 1]), DedupeTrimmed(raw[..m]));
    }
  }

  lemma PrefixChains(a: seq<string>, b: seq<string>, c: seq<string>)
    requires a <= b <= c
    ensures a <= c
  {
  }

  /** A clean start is exactly what is kept. */
  lemma CleanStartIsKept(raw: seq<string>, maxCandidates: nat, n: nat)
    requires maxCandidates >= 1 && CleanUpTo(raw, maxCandidates, n)
    ensures |Kept(raw, maxCandidates)| == n && KeptIsPrefix(raw, Kept(raw, maxCandidates))
  {
    StartIsKept(raw, n);
    assert raw[..|raw|] == raw;
    if n == maxCandidates {
      KeptGrows(raw, n, |raw|);
    } else {
      forall j | n <= j < |raw|
        ensures TrimSpace(raw[j]) == "" || TrimSpace(raw[j]) in Trims(raw, n)
      {
        Repeated(raw, n, j);
      }
      RestAddsNothing(raw, n, |raw|, Trims(raw, n));
    }
  }

  lemma KeptPrefixIsClean(raw: seq<string>, maxCandidates: nat)
    requires maxCandidates >= 1 && KeptIsPrefix(raw, Kept(raw, maxCandidates))
    ensures CleanUpTo(raw, maxCandidates, |Kept(raw, maxCandidates)|)
  {
    var kept := Kept(raw, maxCandidates);
    KeptIds(raw, maxCandidates);
    assert forall i | 0 <= i < |kept| :: kept[i] in kept;
    if |kept| < maxCandidates {
      forall j | |kept| <= j < |raw|
        ensures AddsNothing(raw, |kept|, j)
      {
        assert raw[j] in raw;
        if TrimSpace(raw[j]) != "" {
          var i :| 0 <= i < |kept| && kept[i] == TrimSpace(raw[j]);
        }
      }
    }
  }

  lemma PrefixPositions(raw: seq<string>, maxCandidates: nat)
    requires maxCandidates >= 1
    ensures var kept := Kept(raw, maxCandidates);
            (forall i | 0 <= i < |kept| :: FirstPosition(raw, kept[i]) == i) <==> KeptIsPrefix(raw, kept)
  {
    var kept := Kept(raw, maxCandidates);
    KeptIds(raw, maxCandidates);
    if KeptIsPrefix(raw, kept) {
      forall i | 0 <= i < |kept|
        ensures FirstPosition(raw, kept[i]) == i
      {
        var p := FirstPosition(raw, kept[i]);
        assert p <= i;
        assert kept[p] == TrimSpace(raw[p]);
      }
    }
    if forall i | 0 <= i < |kept| :: FirstPosition(raw, kept[i]) == i {
      forall i | 0 <= i < |kept|
        ensures TrimSpace(raw[i]) == kept[i]
      {
        assert FirstPosition(raw, kept[i]) == i;
      }
    }
  }

  /** Scores that tell all positions apart. */
  function Marked(n: nat): (s: seq<real>)
    ensures |s| == n
    ensures forall i | 0 <= i < n :: 0.0 <= s[i] <= 1.0
    ensures forall i, j | 0 <= i < j < n :: s[i] != s[j]
  {
    if n == 0 then []
    else
      var half := Marked(n - 1);
      seq(n, i requires 0 <= i < n => if i == 0 then 1.0 else half[i - 1] / 2.0)
  }

  /**
    Every accepted payload with these raw ids gives each id its own raw score
    exactly when the raw ids start clean: trimmed, distinct and non-blank up to
    the cap, or up to a point after which nothing new comes.
    */
  lemma OwnScoresIff(raw: seq<string>, maxCandidates: nat)
    requires maxCandidates >= 1
    ensures AlwaysOwnScores(raw, maxCandidates) <==> exists n :: CleanUpTo(raw, maxCandidates, n)
  {
    if exists n :: CleanUpTo(raw, maxCandidates, n) {
      var n :| CleanUpTo(raw, maxCandidates, n);
      CleanStartIsKept(raw, maxCandidates, n);
      PrefixMeansOwn(raw, maxCandidates);
    }
    if AlwaysOwnScores(raw, maxCandidates) {
      MarkedScoresTell(raw, maxCandidates);
      KeptPrefixIsClean(raw, maxCandidates);
    }
  }

  lemma PrefixMeansOwn(raw: seq<string>, maxCandidates: nat)
    requires maxCandidates >= 1 && KeptIsPrefix(raw, Kept(raw, maxCandidates))
    ensures AlwaysOwnScores(raw, maxCandidates)
  {
    PrefixPositions(raw, maxCandidates);
    forall p: Payload | p.candidateIDs == raw && p.scores != [] && Normalized(p, maxCandidates).Accepted?
      ensures OwnScores(p, Normalized(p, maxCandidates).value)
    {
      ReadInPlace(p, maxCandidates);
    }
  }

  lemma ReadInPlace(p: Payload, maxCandidates: nat)
    requires maxCandidates >= 1 && p.scores != [] && Normalized(p, maxCandidates).Accepted?
    requires var kept := Kept(p.candidateIDs, maxCandidates);
             forall i | 0 <= i < |kept| :: FirstPosition(p.candidateIDs, kept[i]) == i
    ensures OwnScores(p, Normalized(p, maxCandidates).value)
  {
    KeptFits(p.candidateIDs, maxCandidates);
  }

  lemma MarkedScoresTell(raw: seq<string>, maxCandidates: nat)
    requires maxCandidates >= 1 && AlwaysOwnScores(raw, maxCandidates)
    ensures KeptIsPrefix(raw, Kept(raw, maxCandidates))
  {
    var kept := Kept(raw, maxCandidates);
    KeptFits(raw, maxCandidates);
    PrefixPositions(raw, maxCandidates);
    if kept != [] {
      var p := Payload(raw, Marked(|raw|), 0.0, []);
      var n := Normalized(p, maxCandidates).value;
      assert OwnScores(p, n);
      forall i | 0 <= i < |kept|
        ensures FirstPosition(raw, kept[i]) == i
      {
        MarkTells(|raw|, i, FirstPosition(raw, kept[i]), n.scores[i]);
      }
    }
  }

  lemma MarkTells(n: nat, i: nat, j: nat, x: real)
    requires i < n && j < n && Clamp01(Marked(n)[i]) == x == Clamp01(Marked(n)[j])
    ensures i == j
  {
  }

  lemma BlankIsDropped()
    ensures Kept([" ", "a"], 100) == ["a"]
  {
    var raw := [" ", "a"];
    assert raw[..1] == [" "];
    TrimSpaceTrims("a");
    BlankAlone();
    LastEntry(raw);
    assert DedupeTrimmed(raw) == [] + ["a"] == ["a"];
    assert ["a"][..1] == ["a"];
  }

  lemma BlankAlone()
    ensures DedupeTrimmed([" "]) == []
  {
    assert [" "][..0] == [];
    assert TrimSpace(" ") == "" by {
      assert " "[1..] == "";
    }
    LastEntry([" "]);
    assert DedupeTrimmed([]) == [];
  }

  /** After a blank entry, every id carries its predecessor's score. */
  lemma BlankShiftsScores(x: real, y: real)
    ensures var p := Payload([" ", "a"], [x, y], 0.0, []);
            && Normalized(p, 100).Accepted?
            && Normalized(p, 100).value.candidateIDs == ["a"] && |Normalized(p, 100).value.scores| == 1
            && Normalized(p, 100).value.scores[0] == Clamp01(x)
  {
    BlankIsDropped();
  }
}
