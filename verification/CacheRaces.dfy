/**
  The races of the grants cache, exactly. After an invalidation an older answer
  is handed out only by a lookup that already holds a live entry, or through an
  answer already on its way to the cache; a stored entry is lost only to a lookup
  that already holds an older, expired one.
  */
module CacheRaces {
  import opened Store
  import opened GrantsCache
  import opened Grants
  import opened CacheRuns

  // ----- what an invalidation promises -----

  /** The thread holds an answer of the ACL for this key, not yet stored. */
  predicate OnItsWay(th: Thread, key: string) {
    th.Queried? && CacheKey(th.request) == key
  }

  /** The thread holds an entry for this key, read but not yet compared with the clock, and still live. */
  predicate HoldsLive(th: Thread, key: string, now: int) {
    th.HasRead? && CacheKey(th.request) == key && th.item.Some? && Live(th.item.value, now)
  }

  /** If the thread's hit is for the key, its answer was asked for at log position `n` or later. */
  ghost predicate AskedFrom(s: State, t: nat, key: string, n: nat) {
    var th := ThreadOf(s, t);
    th.Answered? && CacheKey(th.request) == key ==>
      exists i: nat :: LastStore(s.log, th.seen, key, i) && th.ids == s.log[i].ids && s.log[i].asked >= n
  }

  /**
    In every continuation of `s`, whatever thread looks at the clock and is
    answered on the key, whenever it read its entry, gets an answer that was
    asked for after `s`.
    */
  ghost predicate OnlyFreshHits(s: State, key: string, ttl: int) {
    forall acts, t | CanRun(s, acts, ttl) && Enabled(After(s, acts, ttl), CheckClock(t)) ::
      AskedFrom(Step(After(s, acts, ttl), CheckClock(t), ttl), t, key, |s.log|)
  }

  /** Position `n - 1` invalidated the key, and everything stored or on its way since was asked for since. */
  ghost predicate AskedSince(s: State, key: string, n: nat) {
    && 0 < n <= |s.log|
    && s.log[n - 1].Dropped? && Touches(s.log[n - 1], key)
    && (forall j | n <= j < |s.log| && s.log[j].Put? && s.log[j].key == key :: s.log[j].asked >= n)
    && (forall t | t in s.threads && OnItsWay(s.threads[t], key) :: s.threads[t].asked >= n)
  }

  lemma StepKeepsAsked(s: State, a: Action, key: string, n: nat, ttl: int)
    requires AskedSince(s, key, n) && Enabled(s, a)
    ensures AskedSince(Step(s, a, ttl), key, n)
  {
    var s' := Step(s, a, ttl);
    assert s.log <= s'.log;
    forall t | t in s'.threads && OnItsWay(s'.threads[t], key)
      ensures s'.threads[t].asked >= n
    {
      if t in s.threads && s'.threads[t] == s.threads[t] {
        assert OnItsWay(s.threads[t], key);
      }
    }
    if a.StoreAnswer? && CacheKey(ThreadOf(s, a.t).request) == key {
      assert OnItsWay(s.threads[a.t], key);
    }
  }

  lemma {:induction false} RunKeepsAsked(s: State, acts: seq<Action>, key: string, n: nat, ttl: int)
    requires AskedSince(s, key, n) && CanRun(s, acts, ttl)
    ensures AskedSince(After(s, acts, ttl), key, n)
    decreases |acts|
  {
    if acts != [] {
      StepKeepsAsked(s, acts[0], key, n, ttl);
      RunKeepsAsked(Step(s, acts[0], ttl), acts[1..], key, n, ttl);
    }
  }

  /** Entries for the key that were read before position `n` and not yet compared with the clock have expired. */
  ghost predicate EarlyReadsExpired(s: State, key: string, n: nat) {
    forall t | t in s.threads && s.threads[t].HasRead? && s.threads[t].seen < n :: !HoldsLive(s.threads[t], key, s.clock)
  }

  lemma StepKeepsExpired(s: State, a: Action, key: string, n: nat, ttl: int)
    requires EarlyReadsExpired(s, key, n) && n <= |s.log| && Enabled(s, a)
    ensures EarlyReadsExpired(Step(s, a, ttl), key, n)
  {
    var s' := Step(s, a, ttl);
    forall t | t in s'.threads && s'.threads[t].HasRead? && s'.threads[t].seen < n
      ensures !HoldsLive(s'.threads[t], key, s'.clock)
    {
      assert t in s.threads && s.threads[t] == s'.threads[t];
    }
  }

  lemma {:induction false} RunKeepsExpired(s: State, acts: seq<Action>, key: string, n: nat, ttl: int)
    requires EarlyReadsExpired(s, key, n) && AskedSince(s, key, n) && CanRun(s, acts, ttl)
    ensures EarlyReadsExpired(After(s, acts, ttl), key, n)
    decreases |acts|
  {
    if acts != [] {
      StepKeepsExpired(s, acts[0], key, n, ttl);
      StepKeepsAsked(s, acts[0], key, n, ttl);
      RunKeepsExpired(Step(s, acts[0], ttl), acts[1..], key, n, ttl);
    }
  }

  /** A hit read since position `n` was asked for since. */
  lemma ReadSinceIsAskedSince(s: State, t: nat, key: string, n: nat, ttl: int)
    requires Inv(s, ttl) && AskedSince(s, key, n)
    requires ThreadOf(s, t).Answered? ==> ThreadOf(s, t).seen >= n
    ensures AskedFrom(s, t, key, n)
  {
    var th := ThreadOf(s, t);
    if th.Answered? && CacheKey(th.request) == key {
      assert HonestThread(s, th, ttl);
      var i: nat :| LastStore(s.log, th.seen, key, i) && th.ids == s.log[i].ids;
      assert i >= n;
    }
  }

  /** So a thread that now looks at the clock is answered with something asked for since, if at all. */
  lemma NextHitIsAskedSince(s: State, t: nat, key: string, n: nat, ttl: int)
    requires Inv(s, ttl) && AskedSince(s, key, n) && EarlyReadsExpired(s, key, n) && Enabled(s, CheckClock(t))
    ensures AskedFrom(Step(s, CheckClock(t), ttl), t, key, n)
  {
    var s' := Step(s, CheckClock(t), ttl);
    StepKeepsInv(s, CheckClock(t), ttl);
    StepKeepsAsked(s, CheckClock(t), key, n, ttl);
    var th := ThreadOf(s', t);
    if th.Answered? && CacheKey(th.request) == key {
      assert HoldsLive(s.threads[t], key, s.clock);
      ReadSinceIsAskedSince(s', t, key, n, ttl);
    }
  }

  lemma {:induction false} SomeBound(keys: set<nat>) returns (bound: nat)
    ensures forall k | k in keys :: k < bound
    decreases |keys|
  {
    bound := 0;
    if keys != {} {
      var k :| k in keys;
      var rest := SomeBound(keys - {k});
      bound := if k < rest then rest else k + 1;
      assert forall x | x in keys :: x == k || x in keys - {k};
    }
  }

  /** A thread not seen so far can read what is stored for a request. */
  lemma NewReader(s: State, q: Request, ttl: int) returns (u: nat)
    requires CacheKey(q) in s.items
    ensures CanRun(s, [Read(u, q)], ttl)
    ensures After(s, [Read(u, q)], ttl) == s.(threads := s.threads[u := HasRead(q, Some(s.items[CacheKey(q)]), |s.log|)])
  {
    u := SomeBound(s.threads.Keys);
    assert u !in s.threads.Keys;
    assert ThreadOf(s, u) == Idle;
    assert [Read(u, q)][1..] == [];
    assert CanRun(Step(s, Read(u, q), ttl), [], ttl);
  }

  /** An answer on its way across an invalidation is stored and served after it. */
  lemma LateAnswerIsServed(s: State, prefix: string, t: nat, ttl: int)
    requires Inv(s, ttl) && ttl >= 0 && t in s.threads && s.threads[t].Queried?
    requires HasPrefix(CacheKey(s.threads[t].request), prefix)
    ensures !OnlyFreshHits(Step(s, Invalidate(prefix), ttl), CacheKey(s.threads[t].request), ttl)
  {
    var q, key := s.threads[t].request, CacheKey(s.threads[t].request);
    var s1 := Step(s, Invalidate(prefix), ttl);
    var s2 := Step(s1, StoreAnswer(t), ttl);
    var u := NewReader(s2, q, ttl);
    var acts := [StoreAnswer(t)] + [Read(u, q)];
    assert acts[1..] == [Read(u, q)];
    assert CanRun(s1, acts, ttl);
    var s3 := After(s1, acts, ttl);
    assert s3 == After(s2, [Read(u, q)], ttl);
    assert HonestThread(s, s.threads[t], ttl);
    var n := |s1.log|;
    var s4 := Step(s3, CheckClock(u), ttl);
    assert s4.log[n].Put? && s4.log[n].key == key && s4.log[n].asked <= |s.log| < n;
    var seen := n + 1;
    assert ThreadOf(s4, u).Answered? && ThreadOf(s4, u).seen == seen;
    forall i: nat | LastStore(s4.log, seen, key, i)
      ensures i == n
    {
      assert Touches(s4.log[n], key);
    }
    assert !AskedFrom(s4, u, key, n);
  }

  /** An entry read before an invalidation and still live is handed out after it. */
  lemma EarlyReadIsServed(s: State, prefix: string, t: nat, ttl: int)
    requires Inv(s, ttl) && t in s.threads && s.threads[t].HasRead?
    requires HoldsLive(s.threads[t], CacheKey(s.threads[t].request), s.clock)
    ensures !OnlyFreshHits(Step(s, Invalidate(prefix), ttl), CacheKey(s.threads[t].request), ttl)
  {
    var key, seen := CacheKey(s.threads[t].request), s.threads[t].seen;
    var s1 := Step(s, Invalidate(prefix), ttl);
    assert CanRun(s1, [], ttl) && After(s1, [], ttl) == s1;
    var s2 := Step(s1, CheckClock(t), ttl);
    assert ThreadOf(s2, t).Answered? && ThreadOf(s2, t).seen == seen;
    assert HonestThread(s, s.threads[t], ttl);
    forall i: nat | LastStore(s2.log, seen, key, i)
      ensures s2.log[i].asked < |s1.log|
    {
      assert s2.log[i] == s.log[i];
    }
    assert !AskedFrom(s2, t, key, |s1.log|);
  }

  /**
    After an invalidation every answer handed out on the key, in every
    continuation, was asked for after it, exactly when no thread was holding an
    unstored answer for the key, nor a live entry read but not yet handed out.
    */
  lemma InvalidationHoldsIff(s: State, prefix: string, key: string, ttl: int)
    requires Reachable(s, ttl) && HasPrefix(key, prefix) && ttl >= 0
    ensures OnlyFreshHits(Step(s, Invalidate(prefix), ttl), key, ttl)
            <==> forall t | t in s.threads :: !OnItsWay(s.threads[t], key) && !HoldsLive(s.threads[t], key, s.clock)
  {
    var s0, before :| CacheRuns.Init(s0) && CanRun(s0, before, ttl) && After(s0, before, ttl) == s;
    RunKeepsInv(s0, before, ttl);
    if forall t | t in s.threads :: !OnItsWay(s.threads[t], key) && !HoldsLive(s.threads[t], key, s.clock) {
      StaysFresh(s, prefix, key, ttl);
    } else if exists t :: t in s.threads && OnItsWay(s.threads[t], key) {
      var t :| t in s.threads && OnItsWay(s.threads[t], key);
      LateAnswerIsServed(s, prefix, t, ttl);
    } else {
      var t :| t in s.threads && HoldsLive(s.threads[t], key, s.clock);
      EarlyReadIsServed(s, prefix, t, ttl);
    }
  }

  lemma StaysFresh(s: State, prefix: string, key: string, ttl: int)
    requires Inv(s, ttl) && HasPrefix(key, prefix)
    requires forall t | t in s.threads :: !OnItsWay(s.threads[t], key) && !HoldsLive(s.threads[t], key, s.clock)
    ensures OnlyFreshHits(Step(s, Invalidate(prefix), ttl), key, ttl)
  {
    var s1 := Step(s, Invalidate(prefix), ttl);
    var n := |s1.log|;
    StepKeepsInv(s, Invalidate(prefix), ttl);
    forall acts, t | CanRun(s1, acts, ttl) && Enabled(After(s1, acts, ttl), CheckClock(t))
      ensures AskedFrom(Step(After(s1, acts, ttl), CheckClock(t), ttl), t, key, n)
    {
      RunKeepsInv(s1, acts, ttl);
      RunKeepsAsked(s1, acts, key, n, ttl);
      RunKeepsExpired(s1, acts, key, n, ttl);
      NextHitIsAskedSince(After(s1, acts, ttl), t, key, n, ttl);
    }
  }

  // ----- how a stored entry is lost -----

  /** No action of the run invalidates the key. */
  ghost predicate LeavesAlone(acts: seq<Action>, key: string) {
    forall i | 0 <= i < |acts| && acts[i].Invalidate? :: !HasPrefix(key, acts[i].prefix)
  }

  /** Some continuation loses the key by the given time without invalidating it. */
  ghost predicate CanLose(s: State, key: string, until: int, ttl: int) {
    exists acts ::
      && CanRun(s, acts, ttl) && LeavesAlone(acts, key)
      && After(s, acts, ttl).clock <= until && key !in After(s, acts, ttl).items
  }

  /** The thread has seen an expired entry for the key, or holds one that will be seen expired by then. */
  predicate Threatens(th: Thread, key: string, until: int) {
    match th
    case SawExpired(q) => CacheKey(q) == key
    case HasRead(q, Some(e), _) => CacheKey(q) == key && e.expiresAt < until
    case _ => false
  }

  /** The key is stored until `until` at least, and nobody threatens it. */
  ghost predicate Safe(s: State, key: string, until: int, ttl: int) {
    && s.clock + ttl >= until
    && key in s.items && s.items[key].expiresAt >= until
    && forall t | t in s.threads :: !Threatens(s.threads[t], key, until)
  }

  lemma StepKeepsSafe(s: State, a: Action, key: string, until: int, ttl: int)
    requires Safe(s, key, until, ttl) && Enabled(s, a) && s.clock <= until
    requires a.Invalidate? ==> !HasPrefix(key, a.prefix)
    ensures Safe(Step(s, a, ttl), key, until, ttl)
  {
    var s' := Step(s, a, ttl);
    forall t | t in s'.threads
      ensures !Threatens(s'.threads[t], key, until)
    {
      if t in s.threads {
        assert !Threatens(s.threads[t], key, until);
      }
    }
    if a.DeleteExpired? {
      assert !Threatens(s.threads[a.t], key, until);
    }
  }

  lemma {:induction false} ClockRuns(s: State, acts: seq<Action>, ttl: int)
    requires CanRun(s, acts, ttl)
    ensures s.clock <= After(s, acts, ttl).clock
    decreases |acts|
  {
    if acts != [] {
      ClockRuns(Step(s, acts[0], ttl), acts[1..], ttl);
    }
  }

  lemma {:induction false} RunKeepsSafe(s: State, acts: seq<Action>, key: string, until: int, ttl: int)
    requires Safe(s, key, until, ttl) && CanRun(s, acts, ttl) && LeavesAlone(acts, key)
    requires After(s, acts, ttl).clock <= until
    ensures Safe(After(s, acts, ttl), key, until, ttl)
    decreases |acts|
  {
    if acts != [] {
      ClockRuns(s, acts, ttl);
      StepKeepsSafe(s, acts[0], key, until, ttl);
      assert forall i | 0 <= i < |acts[1..]| :: acts[1..][i] == acts[i + 1];
      RunKeepsSafe(Step(s, acts[0], ttl), acts[1..], key, until, ttl);
    }
  }

  /** A threat can be carried out in time. */
  lemma ThreatIsReal(s: State, u: nat, key: string, until: int, ttl: int)
    requires s.clock <= until && u in s.threads && Threatens(s.threads[u], key, until)
    ensures CanLose(s, key, until, ttl)
  {
    if s.threads[u].SawExpired? {
      ExpiredIsDropped(s, u, key, until, ttl);
    } else {
      var e := s.threads[u].item.value;
      var tick := Tick(if s.clock > e.expiresAt then s.clock else e.expiresAt + 1);
      var s1 := Step(s, tick, ttl);
      var s2 := Step(s1, CheckClock(u), ttl);
      ExpiredIsDropped(s2, u, key, until, ttl);
      var rest :| CanRun(s2, rest, ttl) && LeavesAlone(rest, key)
                  && After(s2, rest, ttl).clock <= until && key !in After(s2, rest, ttl).items;
      LoseLater(s1, CheckClock(u), rest, key, until, ttl);
      LoseLater(s, tick, [CheckClock(u)] + rest, key, until, ttl);
    }
  }

  /** A losing run after one more step is a losing run. */
  lemma LoseLater(s: State, a: Action, rest: seq<Action>, key: string, until: int, ttl: int)
    requires Enabled(s, a) && !a.Invalidate?
    requires CanRun(Step(s, a, ttl), rest, ttl) && LeavesAlone(rest, key)
    requires After(Step(s, a, ttl), rest, ttl).clock <= until && key !in After(Step(s, a, ttl), rest, ttl).items
    ensures CanRun(s, [a] + rest, ttl) && LeavesAlone([a] + rest, key)
    ensures After(s, [a] + rest, ttl) == After(Step(s, a, ttl), rest, ttl)
    ensures CanLose(s, key, until, ttl)
  {
    var acts := [a] + rest;
    assert acts[1..] == rest;
    assert forall i | 0 < i < |acts| :: acts[i] == rest[i - 1];
    assert CanRun(s, acts, ttl) && LeavesAlone(acts, key);
  }

  lemma ExpiredIsDropped(s: State, u: nat, key: string, until: int, ttl: int)
    requires s.clock <= until && u in s.threads && s.threads[u].SawExpired? && CacheKey(s.threads[u].request) == key
    ensures CanLose(s, key, until, ttl)
  {
    var acts := [DeleteExpired(u)];
    assert acts[1..] == [];
    assert CanRun(s, acts, ttl) && LeavesAlone(acts, key);
    assert After(s, acts, ttl) == Step(s, DeleteExpired(u), ttl);
  }

  /**
    An entry just stored can be lost within its lifetime, without an
    invalidation, exactly when some other thread has already seen an expired
    entry for its key or holds one that expires within that time.
    */
  lemma EntryCanBeLostIff(s: State, t: nat, ttl: int)
    requires ttl >= 0 && Enabled(s, StoreAnswer(t))
    ensures var key := CacheKey(ThreadOf(s, t).request);
            CanLose(Step(s, StoreAnswer(t), ttl), key, s.clock + ttl, ttl)
            <==> exists u :: u in s.threads && u != t && Threatens(s.threads[u], key, s.clock + ttl)
  {
    var key, until := CacheKey(ThreadOf(s, t).request), s.clock + ttl;
    var s1 := Step(s, StoreAnswer(t), ttl);
    if exists u :: u in s.threads && u != t && Threatens(s.threads[u], key, until) {
      var u :| u in s.threads && u != t && Threatens(s.threads[u], key, until);
      ThreatIsReal(s1, u, key, until, ttl);
    } else {
      assert Safe(s1, key, until, ttl);
      forall acts | CanRun(s1, acts, ttl) && LeavesAlone(acts, key) && After(s1, acts, ttl).clock <= until
        ensures key in After(s1, acts, ttl).items
      {
        RunKeepsSafe(s1, acts, key, until, ttl);
      }
    }
  }
}
