/**
  How old the ACL answer behind a cached decision can be. The lifetime of an
  entry is counted from its store, and the answer may have waited before that.
  */
module CacheAges {
  import opened Store
  import opened GrantsCache
  import opened Grants
  import opened CacheRuns
  import opened Policy

  /** Every stored answer was stored within `d` of being asked for. */
  ghost predicate Prompt(s: State, d: int) {
    forall i | 0 <= i < |s.log| && s.log[i].Put? :: s.log[i].at <= s.log[i].askedAt + d
  }

  /** Event `i` is the store behind the thread's hit. */
  ghost predicate Behind(s: State, t: nat, i: nat) {
    var th := ThreadOf(s, t);
    th.Answered? && LastStore(s.log, th.seen, CacheKey(th.request), i) && th.ids == s.log[i].ids
  }

  /** The answer behind the thread's hit was asked for at most `bound` before the hit. */
  ghost predicate AtMostOld(s: State, t: nat, bound: int) {
    exists i: nat :: Behind(s, t, i) && ThreadOf(s, t).at <= s.log[i].askedAt + bound
  }

  /** In every run that stores its answers within `d`, no hit is older than `bound`. */
  ghost predicate HitsWithin(ttl: int, d: int, bound: int) {
    forall s, t | Reachable(s, ttl) && Prompt(s, d) && ThreadOf(s, t).Answered? :: AtMostOld(s, t, bound)
  }

  lemma HitIsYoung(s: State, t: nat, ttl: int, d: int) returns (i: nat)
    requires Reachable(s, ttl) && Prompt(s, d) && ThreadOf(s, t).Answered?
    ensures Behind(s, t, i) && ThreadOf(s, t).at <= s.log[i].askedAt + ttl + d
    ensures ThreadOf(s, t).ids == AclQuery(s.log[i].acl, s.log[i].request)
  {
    var s0, acts :| CacheRuns.Init(s0) && CanRun(s0, acts, ttl) && After(s0, acts, ttl) == s;
    HitsAreBounded(s0, acts, ttl, t);
    var th := ThreadOf(s, t);
    i :| LastStore(s.log, th.seen, CacheKey(th.request), i)
         && th.ids == s.log[i].ids == AclQuery(s.log[i].acl, s.log[i].request)
         && s.log[i].at <= s.clock && th.at <= s.log[i].at + ttl;
  }

  /** An answer that waits `d` and is then served at the end of its lifetime is `ttl + d` old. */
  lemma OldestHit(q: Request, ttl: int, d: int) returns (s: State)
    requires ttl >= 0 && d >= 0
    ensures Reachable(s, ttl) && Prompt(s, d) && ThreadOf(s, 2).Answered?
    ensures forall i: nat | Behind(s, 2, i) :: ThreadOf(s, 2).at == s.log[i].askedAt + ttl + d
  {
    s := Start({}, ttl);
    s := AskAcl(s, 1, q, ttl);
    s := Extend(s, Tick(d), ttl);
    s := Extend(s, StoreAnswer(1), ttl);
    s := Extend(s, Tick(d + ttl), ttl);
    s := MeetLive(s, 2, q, ttl);
    assert |s.log| == 1 && s.log[0].askedAt == 0 && s.log[0].at == d;
  }

  /**
    The age of the ACL answer behind a hit is bounded exactly by the lifetime of
    entries plus the longest wait between asking and storing.
    */
  lemma HitsWithinIff(q: Request, ttl: int, d: int, bound: int)
    requires ttl >= 0 && d >= 0
    ensures HitsWithin(ttl, d, bound) <==> bound >= ttl + d
  {
    if bound >= ttl + d {
      forall s, t | Reachable(s, ttl) && Prompt(s, d) && ThreadOf(s, t).Answered?
        ensures AtMostOld(s, t, bound)
      {
        var i := HitIsYoung(s, t, ttl, d);
      }
    } else {
      var s := OldestHit(q, ttl, d);
      assert !AtMostOld(s, 2, bound);
    }
  }

  /**
    Whatever the engine decides on cached grants, it would have decided under the
    ACL as it stood when the answer was asked for, at most `ttl + d` before the
    hit, if that answer was asked for by the same user with the same roles.
    */
  lemma DecisionIsRecent(s: State, t: nat, ttl: int, d: int, doc: Doc, rules: seq<Rule>)
    requires Reachable(s, ttl) && Prompt(s, d) && ThreadOf(s, t).Answered?
    ensures var th := ThreadOf(s, t);
            exists i: nat ::
              && Behind(s, t, i) && th.at <= s.log[i].askedAt + ttl + d
              && (SameAudience(s.log[i].request, th.request) ==>
                    Decide(th.request.subject, doc, th.ids, rules)
                    == Decide(th.request.subject, doc, AclQuery(s.log[i].acl, th.request), rules))
  {
    var i := HitIsYoung(s, t, ttl, d);
    if SameAudience(s.log[i].request, ThreadOf(s, t).request) {
      SameAnswersIff(s.log[i].request, ThreadOf(s, t).request);
    }
  }
}
