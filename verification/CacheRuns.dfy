/**
  The grants cache under concurrency. A lookup is three steps that other
  threads may interleave with: read the entry under the shared lock, compare
  the clock, and delete under the exclusive lock if it looked expired. After a
  miss the thread queries the ACL and stores the answer, or gives up when the
  query fails. The ACL and the clock move on their own, and prefixes may be
  invalidated at any time.

  A log records what was stored and invalidated, and each answer remembers when
  the ACL was asked and how long the log was then; this is for the statements only.
  */
module CacheRuns {
  import opened Store
  import opened GrantsCache
  import opened Grants

  datatype Event =
    | Put(key: string, ids: set<string>, at: int, request: Request, acl: Acl, asked: nat, askedAt: int)
    | Dropped(prefix: string)

  datatype Thread =
    | Idle
    | HasRead(request: Request, item: Option<Stored>, seen: nat)
    | SawExpired(request: Request)
    | Missed(request: Request)
    | Queried(request: Request, ids: set<string>, acl: Acl, asked: nat, askedAt: int)
    | Answered(request: Request, ids: set<string>, at: int, seen: nat)

  datatype State = State(
    clock: int,
    acl: Acl,
    items: Snapshot,
    log: seq<Event>,
    threads: map<nat, Thread>)

  datatype Action =
    | Tick(to: int)
    | ChangeAcl(acl: Acl)
    | Invalidate(prefix: string)
    | Read(t: nat, request: Request)
    | CheckClock(t: nat)
    | DeleteExpired(t: nat)
    | QueryAcl(t: nat)
    | GiveUp(t: nat)
    | StoreAnswer(t: nat)
    | Finish(t: nat)

  function ThreadOf(s: State, t: nat): Thread {
    if t in s.threads then s.threads[t] else Idle
  }

  predicate Enabled(s: State, a: Action) {
    match a
    case Tick(to) => s.clock <= to
    case ChangeAcl(_) => true
    case Invalidate(_) => true
    case Read(t, _) => ThreadOf(s, t).Idle?
    case CheckClock(t) => ThreadOf(s, t).HasRead?
    case DeleteExpired(t) => ThreadOf(s, t).SawExpired?
    case QueryAcl(t) => ThreadOf(s, t).Missed?
    case GiveUp(t) => ThreadOf(s, t).Missed?
    case StoreAnswer(t) => ThreadOf(s, t).Queried?
    case Finish(t) => ThreadOf(s, t).Answered?
  }

  function Move(s: State, t: nat, th: Thread): State {
    s.(threads := s.threads[t := th])
  }

  function Step(s: State, a: Action, ttl: int): State
    requires Enabled(s, a)
  {
    match a
    case Tick(to) => s.(clock := to)
    case ChangeAcl(acl) => s.(acl := acl)
    case Invalidate(prefix) =>
      s.(items := AfterInvalidate(s.items, prefix), log := s.log + [Dropped(prefix)])
    case Read(t, q) =>
      var key := CacheKey(q);
      Move(s, t, HasRead(q, if key in s.items then Some(s.items[key]) else None, |s.log|))
    case CheckClock(t) =>
      var th := ThreadOf(s, t);
      Move(s, t,
           match th.item
           case None => Missed(th.request)
           case Some(e) =>
             if Live(e, s.clock) then Answered(th.request, e.ids, s.clock, th.seen) else SawExpired(th.request))
    case DeleteExpired(t) =>
      var th := ThreadOf(s, t);
      Move(s.(items := s.items - {CacheKey(th.request)}), t, Missed(th.request))
    case QueryAcl(t) =>
      var th := ThreadOf(s, t);
      Move(s, t, Queried(th.request, AclQuery(s.acl, th.request), s.acl, |s.log|, s.clock))
    case StoreAnswer(t) =>
      var th := ThreadOf(s, t);
      var key := CacheKey(th.request);
      Move(s.(items := AfterSet(s.items, key, th.ids, s.clock, ttl),
              log := s.log + [Put(key, th.ids, s.clock, th.request, th.acl, th.asked, th.askedAt)]),
           t, Idle)
    case GiveUp(t) => Move(s, t, Idle)
    case Finish(t) => Move(s, t, Idle)
  }

  /** A run: every action is enabled when its turn comes. */
  ghost predicate CanRun(s: State, acts: seq<Action>, ttl: int)
    decreases |acts|
  {
    acts == [] || (Enabled(s, acts[0]) && CanRun(Step(s, acts[0], ttl), acts[1..], ttl))
  }

  ghost function After(s: State, acts: seq<Action>, ttl: int): State
    requires CanRun(s, acts, ttl)
    decreases |acts|
  {
    if acts == [] then s else After(Step(s, acts[0], ttl), acts[1..], ttl)
  }

  ghost predicate Init(s: State) {
    s.items == map[] && s.log == [] && s.threads == map[]
  }

  // ----- the invariant -----

  predicate Touches(e: Event, key: string) {
    match e
    case Put(k, _, _, _, _, _, _) => k == key
    case Dropped(p) => HasPrefix(key, p)
  }

  /** Event `i` is the last one before position `n` that touches `key`, and stores it. */
  ghost predicate LastStore(log: seq<Event>, n: nat, key: string, i: nat) {
    && i < n <= |log|
    && log[i].Put? && log[i].key == key
    && forall j | i < j < n :: !Touches(log[j], key)
  }

  /** An entry is explained when it is what the last touching event before `n` stored. */
  ghost predicate Explained(log: seq<Event>, n: nat, key: string, e: Stored, ttl: int) {
    exists i: nat :: LastStore(log, n, key, i) && e.ids == log[i].ids && e.expiresAt == log[i].at + ttl
  }

  /** Every stored answer was an ACL answer to a request with that key, and lies in the past. */
  ghost predicate HonestLog(s: State) {
    forall i | 0 <= i < |s.log| && s.log[i].Put? ::
      && s.log[i].key == CacheKey(s.log[i].request)
      && s.log[i].ids == AclQuery(s.log[i].acl, s.log[i].request)
      && s.log[i].asked <= i && s.log[i].askedAt <= s.log[i].at <= s.clock
  }

  ghost predicate HonestThread(s: State, th: Thread, ttl: int) {
    match th
    case HasRead(q, item, seen) =>
      seen <= |s.log| && (item.Some? ==> Explained(s.log, seen, CacheKey(q), item.value, ttl))
    case Queried(q, ids, acl, asked, askedAt) => ids == AclQuery(acl, q) && asked <= |s.log| && askedAt <= s.clock
    case Answered(q, ids, at, seen) =>
      at <= s.clock && exists i: nat :: LastStore(s.log, seen, CacheKey(q), i) && ids == s.log[i].ids && at <= s.log[i].at + ttl
    case _ => true
  }

  ghost predicate Inv(s: State, ttl: int) {
    && HonestLog(s)
    && (forall k | k in s.items :: Explained(s.log, |s.log|, k, s.items[k], ttl))
    && (forall t | t in s.threads :: HonestThread(s, s.threads[t], ttl))
  }

  lemma LogGrows(log: seq<Event>, e: Event, n: nat, key: string, x: Stored, ttl: int)
    requires n <= |log| && Explained(log, n, key, x, ttl)
    ensures Explained(log + [e], n, key, x, ttl)
    ensures n == |log| && !Touches(e, key) ==> Explained(log + [e], n + 1, key, x, ttl)
  {
    var i: nat :| LastStore(log, n, key, i) && x.ids == log[i].ids && x.expiresAt == log[i].at + ttl;
    assert LastStore(log + [e], n, key, i);
    if n == |log| && !Touches(e, key) {
      assert LastStore(log + [e], n + 1, key, i);
    }
  }

  lemma ThreadsSurviveLog(s: State, s': State, th: Thread, e: Event, ttl: int)
    requires HonestThread(s, th, ttl) && s'.log == s.log + [e] && s.clock <= s'.clock
    ensures HonestThread(s', th, ttl)
  {
    match th
    case HasRead(q, item, seen) =>
      if item.Some? {
        LogGrows(s.log, e, seen, CacheKey(q), item.value, ttl);
      }
    case Answered(q, ids, at, seen) =>
      var i: nat :| LastStore(s.log, seen, CacheKey(q), i) && ids == s.log[i].ids && at <= s.log[i].at + ttl;
      assert LastStore(s'.log, seen, CacheKey(q), i);
    case _ =>
  }

  lemma InvalidateKeepsInv(s: State, prefix: string, ttl: int)
    requires Inv(s, ttl)
    ensures Inv(Step(s, Invalidate(prefix), ttl), ttl)
  {
    var e := Dropped(prefix);
    var s' := Step(s, Invalidate(prefix), ttl);
    forall k | k in s'.items
      ensures Explained(s'.log, |s'.log|, k, s'.items[k], ttl)
    {
      LogGrows(s.log, e, |s.log|, k, s.items[k], ttl);
    }
    forall t | t in s'.threads
      ensures HonestThread(s', s'.threads[t], ttl)
    {
      ThreadsSurviveLog(s, s', s.threads[t], e, ttl);
    }
  }

  lemma StoreKeepsInv(s: State, t: nat, ttl: int)
    requires Inv(s, ttl) && Enabled(s, StoreAnswer(t))
    ensures Inv(Step(s, StoreAnswer(t), ttl), ttl)
  {
    var th := ThreadOf(s, t);
    var key := CacheKey(th.request);
    var e := Put(key, th.ids, s.clock, th.request, th.acl, th.asked, th.askedAt);
    var s' := Step(s, StoreAnswer(t), ttl);
    assert LastStore(s'.log, |s'.log|, key, |s.log|);
    forall k | k in s'.items
      ensures Explained(s'.log, |s'.log|, k, s'.items[k], ttl)
    {
      if k != key {
        LogGrows(s.log, e, |s.log|, k, s.items[k], ttl);
      }
    }
    forall u | u in s'.threads
      ensures HonestThread(s', s'.threads[u], ttl)
    {
      if u != t {
        ThreadsSurviveLog(s, s', s.threads[u], e, ttl);
      }
    }
  }

  lemma CheckKeepsInv(s: State, t: nat, ttl: int)
    requires Inv(s, ttl) && Enabled(s, CheckClock(t))
    ensures Inv(Step(s, CheckClock(t), ttl), ttl)
  {
    var th := ThreadOf(s, t);
    var s' := Step(s, CheckClock(t), ttl);
    if th.item.Some? {
      var i: nat :| LastStore(s.log, th.seen, CacheKey(th.request), i)
               && th.item.value.ids == s.log[i].ids && th.item.value.expiresAt == s.log[i].at + ttl;
      assert HonestThread(s', s'.threads[t], ttl);
    }
    assert forall u | u in s'.threads && u != t :: s'.threads[u] == s.threads[u] && HonestThread(s, s.threads[u], ttl);
  }

  /** Every step of every thread keeps the invariant. */
  lemma StepKeepsInv(s: State, a: Action, ttl: int)
    requires Inv(s, ttl) && Enabled(s, a)
    ensures Inv(Step(s, a, ttl), ttl)
  {
    match a
    case Invalidate(prefix) => InvalidateKeepsInv(s, prefix, ttl);
    case StoreAnswer(t) => StoreKeepsInv(s, t, ttl);
    case CheckClock(t) => CheckKeepsInv(s, t, ttl);
    case _ =>
      var s' := Step(s, a, ttl);
      assert s'.log == s.log && s.clock <= s'.clock;
      forall u | u in s'.threads
        ensures HonestThread(s', s'.threads[u], ttl)
      {
        if u in s.threads {
          assert HonestThread(s, s.threads[u], ttl);
        }
      }
  }

  lemma {:induction false} RunKeepsInv(s: State, acts: seq<Action>, ttl: int)
    requires Inv(s, ttl) && CanRun(s, acts, ttl)
    ensures Inv(After(s, acts, ttl), ttl)
    decreases |acts|
  {
    if acts != [] {
      StepKeepsInv(s, acts[0], ttl);
      RunKeepsInv(Step(s, acts[0], ttl), acts[1..], ttl);
    }
  }

  // ----- what a hit is worth -----

  /**
    In every interleaving, a hit at time `at` returns what the latest store to
    its key, as of the moment the entry was read, had put there; no
    invalidation of the key lies between that store and the read; and the store
    is at most `ttl` old.
    */
  lemma HitsAreBounded(s0: State, acts: seq<Action>, ttl: int, t: nat)
    requires Init(s0) && CanRun(s0, acts, ttl) && ThreadOf(After(s0, acts, ttl), t).Answered?
    ensures var s := After(s0, acts, ttl);
            var th := ThreadOf(s, t);
            exists i: nat ::
              && LastStore(s.log, th.seen, CacheKey(th.request), i)
              && th.ids == s.log[i].ids == AclQuery(s.log[i].acl, s.log[i].request)
              && s.log[i].at <= s.clock && th.at <= s.log[i].at + ttl
  {
    RunKeepsInv(s0, acts, ttl);
    var s := After(s0, acts, ttl);
    assert HonestThread(s, ThreadOf(s, t), ttl);
  }

  /** The request behind event `i` is entitled to the same rows as `q`, and the ACL is still the one it was asked of. */
  ghost predicate UnchangedSince(s: State, i: nat, q: Request)
    requires i < |s.log| && s.log[i].Put?
  {
    s.log[i].acl == s.acl && SameAudience(s.log[i].request, q)
  }

  /**
    A hit equals a fresh ACL query when the ACL has not changed since the entry
    was asked for and the two requests name the same rows of it.
    */
  lemma UnchangedHitsAreFresh(s0: State, acts: seq<Action>, ttl: int, t: nat)
    requires Init(s0) && CanRun(s0, acts, ttl) && ThreadOf(After(s0, acts, ttl), t).Answered?
    ensures var s := After(s0, acts, ttl);
            var th := ThreadOf(s, t);
            exists i: nat ::
              && LastStore(s.log, th.seen, CacheKey(th.request), i)
              && (UnchangedSince(s, i, th.request) ==> th.ids == AclQuery(s.acl, th.request))
  {
    RunKeepsInv(s0, acts, ttl);
    HitsAreBounded(s0, acts, ttl, t);
    var s := After(s0, acts, ttl);
    var th := ThreadOf(s, t);
    var i: nat :| LastStore(s.log, th.seen, CacheKey(th.request), i)
             && th.ids == s.log[i].ids == AclQuery(s.log[i].acl, s.log[i].request)
             && s.log[i].at <= s.clock && th.at <= s.log[i].at + ttl;
    if UnchangedSince(s, i, th.request) {
      SameAnswersIff(s.log[i].request, th.request);
    }
  }

  // ----- an undisturbed lookup is the sequential one -----

  /** The steps of one lookup by thread `t`, run without interruption. */
  function LookupSteps(s: State, t: nat, q: Request): seq<Action> {
    var key := CacheKey(q);
    if key in s.items && !Live(s.items[key], s.clock)
    then [Read(t, q), CheckClock(t), DeleteExpired(t)]
    else [Read(t, q), CheckClock(t)]
  }

  /** Run alone, the three steps do to the cache, and answer, what the object's lookup does. */
  lemma UndisturbedLookup(s: State, t: nat, q: Request, ttl: int)
    requires ThreadOf(s, t).Idle?
    ensures CanRun(s, LookupSteps(s, t, q), ttl)
    ensures var s' := After(s, LookupSteps(s, t, q), ttl);
            && s'.items == AfterLookup(s.items, CacheKey(q), s.clock)
            && s'.log == s.log
            && (match Lookup(s.items, CacheKey(q), s.clock)
                case Some(ids) => ThreadOf(s', t) == Answered(q, ids, s.clock, |s.log|)
                case None => ThreadOf(s', t) == Missed(q))
  {
    var acts := LookupSteps(s, t, q);
    var s1 := Step(s, acts[0], ttl);
    assert ThreadOf(s1, t).HasRead?;
    var s2 := Step(s1, acts[1], ttl);
    assert acts[1..][0] == acts[1];
    if |acts| == 3 {
      assert ThreadOf(s2, t) == SawExpired(q);
      assert acts[1..][1..] == [DeleteExpired(t)];
      assert [DeleteExpired(t)][1..] == [];
      assert CanRun(s2, [DeleteExpired(t)], ttl);
      assert CanRun(s1, acts[1..], ttl);
      assert After(s, acts, ttl) == After(s2, [DeleteExpired(t)], ttl) == Step(s2, DeleteExpired(t), ttl);
    } else {
      assert acts[1..][1..] == [];
      assert CanRun(s1, acts[1..], ttl);
      assert After(s, acts, ttl) == After(s1, acts[1..], ttl) == s2;
    }
  }

  // ----- what the cache does not promise -----

  ghost predicate Reachable(s: State, ttl: int) {
    exists s0, acts :: Init(s0) && CanRun(s0, acts, ttl) && After(s0, acts, ttl) == s
  }

  lemma {:induction false} OneMore(s0: State, acts: seq<Action>, a: Action, ttl: int)
    requires CanRun(s0, acts, ttl) && Enabled(After(s0, acts, ttl), a)
    ensures CanRun(s0, acts + [a], ttl) && After(s0, acts + [a], ttl) == Step(After(s0, acts, ttl), a, ttl)
    decreases |acts|
  {
    if acts == [] {
      assert [a][1..] == [];
      assert acts + [a] == [a];
    } else {
      OneMore(Step(s0, acts[0], ttl), acts[1..], a, ttl);
      assert (acts + [a])[1..] == acts[1..] + [a];
    }
  }

  /** Takes one more step from a reachable state. */
  lemma Extend(s: State, a: Action, ttl: int) returns (s': State)
    requires Reachable(s, ttl) && Enabled(s, a)
    ensures s' == Step(s, a, ttl) && Reachable(s', ttl)
  {
    var s0, acts :| Init(s0) && CanRun(s0, acts, ttl) && After(s0, acts, ttl) == s;
    OneMore(s0, acts, a, ttl);
    s' := Step(s, a, ttl);
  }

  lemma Start(acl: Acl, ttl: int) returns (s: State)
    ensures s == State(0, acl, map[], [], map[]) && Reachable(s, ttl)
  {
    s := State(0, acl, map[], [], map[]);
    assert Init(s) && CanRun(s, [], ttl) && After(s, [], ttl) == s;
  }

  /** A miss, from the first read to the stored answer. */
  lemma FillEntry(s: State, t: nat, q: Request, ttl: int) returns (s': State)
    requires Reachable(s, ttl) && ThreadOf(s, t).Idle? && CacheKey(q) !in s.items
    ensures Reachable(s', ttl) && s'.clock == s.clock
    ensures s'.items == AfterSet(s.items, CacheKey(q), AclQuery(s.acl, q), s.clock, ttl)
    ensures s'.threads == s.threads[t := Idle] && s'.acl == s.acl
    ensures s'.log == s.log + [Put(CacheKey(q), AclQuery(s.acl, q), s.clock, q, s.acl, |s.log|, s.clock)]
  {
    s' := AskAcl(s, t, q, ttl);
    s' := Extend(s', StoreAnswer(t), ttl);
  }

  /** A miss, up to the moment the ACL has answered. */
  lemma AskAcl(s: State, t: nat, q: Request, ttl: int) returns (s': State)
    requires Reachable(s, ttl) && ThreadOf(s, t).Idle? && CacheKey(q) !in s.items
    ensures Reachable(s', ttl) && s' == s.(threads := s.threads[t := Queried(q, AclQuery(s.acl, q), s.acl, |s.log|, s.clock)])
  {
    s' := Extend(s, Read(t, q), ttl);
    s' := Extend(s', CheckClock(t), ttl);
    s' := Extend(s', QueryAcl(t), ttl);
  }

  /** A lookup that meets a live entry. */
  lemma MeetLive(s: State, t: nat, q: Request, ttl: int) returns (s': State)
    requires Reachable(s, ttl) && ThreadOf(s, t).Idle?
    requires CacheKey(q) in s.items && Live(s.items[CacheKey(q)], s.clock)
    ensures Reachable(s', ttl)
    ensures s' == s.(threads := s.threads[t := Answered(q, s.items[CacheKey(q)].ids, s.clock, |s.log|)])
  {
    s' := Extend(s, Read(t, q), ttl);
    s' := Extend(s', CheckClock(t), ttl);
  }

  /** A lookup that meets an expired entry, up to the moment before the delete. */
  lemma MeetExpired(s: State, t: nat, q: Request, ttl: int) returns (s': State)
    requires Reachable(s, ttl) && ThreadOf(s, t).Idle?
    requires CacheKey(q) in s.items && !Live(s.items[CacheKey(q)], s.clock)
    ensures Reachable(s', ttl) && s' == s.(threads := s.threads[t := SawExpired(q)])
  {
    s' := Extend(s, Read(t, q), ttl);
    s' := Extend(s', CheckClock(t), ttl);
  }

  /** The rest of that lookup: delete, query, store. */
  lemma Refill(s: State, t: nat, q: Request, ttl: int) returns (s': State)
    requires Reachable(s, ttl) && ThreadOf(s, t) == SawExpired(q)
    ensures Reachable(s', ttl) && s'.clock == s.clock && s'.threads == s.threads[t := Idle]
    ensures s'.log == s.log + [Put(CacheKey(q), AclQuery(s.acl, q), s.clock, q, s.acl, |s.log|, s.clock)]
  {
    s' := Extend(s, DeleteExpired(t), ttl);
    s' := Extend(s', QueryAcl(t), ttl);
    s' := Extend(s', StoreAnswer(t), ttl);
  }

  /**
    The delete after a lookup names a key, not the entry it saw: a slow reader
    can drop an entry stored since. The entry below is live, is the last thing
    that happened to its key, and is gone.
    */
  lemma FreshEntryCanBeLost(q: Request, acl: Acl, ttl: int)
    requires ttl >= 0
    ensures exists s: State, i: nat ::
              && Reachable(s, ttl)
              && LastStore(s.log, |s.log|, CacheKey(q), i) && s.clock <= s.log[i].at + ttl
              && CacheKey(q) !in s.items
  {
    var s := Start(acl, ttl);
    s := FillEntry(s, 1, q, ttl);
    s := Extend(s, Tick(ttl + 1), ttl);
    s := MeetExpired(s, 1, q, ttl);
    s := MeetExpired(s, 2, q, ttl);
    s := Refill(s, 2, q, ttl);
    s := Extend(s, DeleteExpired(1), ttl);
    assert LastStore(s.log, |s.log|, CacheKey(q), 1);
  }

  /**
    Invalidation clears what is stored, not what is on its way: an answer read
    from the ACL before a revocation can be stored, and served, after the
    invalidation that followed it.
    */
  lemma RevokedGrantCanBeServed(q: Request, ttl: int)
    requires ttl >= 0
    ensures exists s: State, t: nat ::
              && Reachable(s, ttl) && ThreadOf(s, t).Answered? && ThreadOf(s, t).request == q
              && |s.log| == 2 && s.log[0].Dropped? && Touches(s.log[0], CacheKey(q)) && s.log[1].Put?
              && ThreadOf(s, t).ids != AclQuery(s.acl, q)
  {
    var row := AclRow(q.subject.tenantID, "user:" + q.subject.userID, q.resourceType, "x", q.action);
    var s := Start({row}, ttl);
    s := AskAcl(s, 1, q, ttl);
    assert "user:" + q.subject.userID in SubjectIDs(q.subject);
    assert "x" in ThreadOf(s, 1).ids;
    s := Extend(s, ChangeAcl({}), ttl);
    s := Extend(s, Invalidate(CacheKey(q)), ttl);
    s := Extend(s, StoreAnswer(1), ttl);
    s := MeetLive(s, 2, q, ttl);
    assert AclQuery(s.acl, q) == {};
    assert ThreadOf(s, 2).Answered?;
  }
}
