/** Direct grants of a subject: the ACL query and the key its answer is cached under. */
module Grants {
  import opened Store
  import opened Policy
  import opened GrantsCache

  datatype AclRow = AclRow(tenantID: string, subjectID: string, resourceType: string, resourceID: string, action: string)

  type Acl = set<AclRow>

  /** A request for the grants of one subject. */
  datatype Request = Request(subject: Subject, action: string, resourceType: string)

  /** The user itself and each of its roles, as they appear in the ACL. */
  function SubjectIDs(s: Subject): set<string> {
    {"user:" + s.userID} + set r | r in s.roles :: "role:" + r
  }

  function AclQuery(acl: Acl, q: Request): set<string> {
    set g | g in acl && g.tenantID == q.subject.tenantID && g.action == q.action
            && g.resourceType == q.resourceType && g.subjectID in SubjectIDs(q.subject) :: g.resourceID
  }

  /** An answer holds exactly what the tenant's rows for the type and action grant the user or one of its roles. */
  lemma AclQueryIs(acl: Acl, q: Request, id: string)
    ensures id in AclQuery(acl, q)
            <==> || AclRow(q.subject.tenantID, "user:" + q.subject.userID, q.resourceType, id, q.action) in acl
                 || exists r :: r in q.subject.roles
                                && AclRow(q.subject.tenantID, "role:" + r, q.resourceType, id, q.action) in acl
  {
    if id in AclQuery(acl, q) {
      var g :| g in acl && g.resourceID == id && g.tenantID == q.subject.tenantID && g.action == q.action
               && g.resourceType == q.resourceType && g.subjectID in SubjectIDs(q.subject);
      if g.subjectID == "user:" + q.subject.userID {
        assert g == AclRow(q.subject.tenantID, "user:" + q.subject.userID, q.resourceType, id, q.action);
      } else {
        var r :| r in q.subject.roles && g.subjectID == "role:" + r;
        assert g == AclRow(q.subject.tenantID, "role:" + r, q.resourceType, id, q.action);
      }
    }
  }

  /** The cache key names tenant, user, resource type and action, but no roles. */
  function CacheKey(q: Request): string {
    q.subject.tenantID + ":" + (q.subject.userID + ":" + (q.resourceType + ":" + q.action))
  }

  /** All keys of a user continue the tenant and the user, so a prefix of those two covers them. */
  lemma KeysOfOneUser(q: Request)
    ensures HasPrefix(CacheKey(q), q.subject.tenantID + ":")
    ensures HasPrefix(CacheKey(q), q.subject.tenantID + ":" + q.subject.userID + ":")
    ensures HasPrefix(CacheKey(q), q.subject.tenantID + ":" + q.subject.userID + ":" + q.resourceType + ":")
  {
    assert CacheKey(q) == q.subject.tenantID + ":" + q.subject.userID + ":" + q.resourceType + ":" + q.action;
  }

  /**
    Cached grants if live, otherwise the ACL query, whose answer is then cached.
    A failing query leaves nothing behind but the lookup's own clean-up.
    */
  method GrantsForSubject(cache: Cache, acl: Result<Acl>, q: Request, now: int) returns (r: Result<IdSet>)
    modifies cache
    ensures r.Ok? ==> fresh(r.value)
    ensures var before := old(cache.Contents());
            match (Lookup(before, CacheKey(q), now), acl)
            case (Some(cached), _) => r.Ok? && r.value.ids == cached && cache.Contents() == before
            case (None, Err(e)) => r == Err(e) && cache.Contents() == AfterLookup(before, CacheKey(q), now)
            case (None, Ok(rows)) =>
              r.Ok? && r.value.ids == AclQuery(rows, q)
              && cache.Contents() == AfterSet(before, CacheKey(q), r.value.ids, now, cache.ttl)
  {
    var key := CacheKey(q);
    ghost var before := cache.Contents();
    var cached := cache.Get(key, now);
    if cached != null {
      return Ok(cached);
    }
    if acl.Err? {
      return Err(acl.error);
    }
    ghost var looked := cache.Contents();
    var ids := new IdSet(AclQuery(acl.value, q));
    assert cache.Contents() == looked == AfterLookup(before, key, now);
    cache.Set(key, ids, now);
    SetOverwritesLookup(before, key, ids.ids, now, cache.ttl);
    r := Ok(ids);
  }

  lemma SetOverwritesLookup(m: Snapshot, key: string, ids: set<string>, now: int, ttl: int)
    ensures AfterSet(AfterLookup(m, key, now), key, ids, now, ttl) == AfterSet(m, key, ids, now, ttl)
  {
  }

  // ----- what the key does and does not identify -----

  ghost predicate ColonFree(q: Request) {
    ':' !in q.subject.tenantID && ':' !in q.subject.userID && ':' !in q.resourceType && ':' !in q.action
  }

  lemma {:induction false} SplitAtColon(a: string, b: string, x: string, y: string)
    requires a + ":" + b == x + ":" + y && ':' !in a && ':' !in x
    ensures a == x && b == y
  {
    var s := a + ":" + b;
    assert a == s[..|a|] && x == s[..|x|];
    assert forall i | 0 <= i < |a| :: s[i] in a;
    assert forall i | 0 <= i < |x| :: s[i] in x;
    assert s[|a|] == ':' && s[|x|] == ':';
    assert b == s[|a| + 1..] && y == s[|x| + 1..];
  }

  /** Among colon-free requests, equal keys mean equal tenant, user, resource type and action. */
  lemma KeyIdentifies(p: Request, q: Request)
    requires ColonFree(p) && ColonFree(q) && CacheKey(p) == CacheKey(q)
    ensures p.subject.tenantID == q.subject.tenantID && p.subject.userID == q.subject.userID
    ensures p.resourceType == q.resourceType && p.action == q.action
  {
    var p1, q1 := p.resourceType + ":" + p.action, q.resourceType + ":" + q.action;
    var p2, q2 := p.subject.userID + ":" + p1, q.subject.userID + ":" + q1;
    assert CacheKey(p) == p.subject.tenantID + ":" + p2;
    assert CacheKey(q) == q.subject.tenantID + ":" + q2;
    SplitAtColon(p.subject.tenantID, p2, q.subject.tenantID, q2);
    SplitAtColon(p.subject.userID, p1, q.subject.userID, q1);
    SplitAtColon(p.resourceType, p.action, q.resourceType, q.action);
  }

  ghost predicate SameRoles(a: Subject, b: Subject) {
    forall r :: r in a.roles <==> r in b.roles
  }

  lemma RoleIdInjective(r: string, s: string)
    ensures "role:" + r == "role:" + s ==> r == s
    ensures "role:" + r != "user:" + s
  {
    assert ("role:" + r)[5..] == r && ("role:" + s)[5..] == s;
    assert ("role:" + r)[0] == 'r' && ("user:" + s)[0] == 'u';
  }

  /** The two requests are about the same rows of every ACL. */
  ghost predicate SameAudience(p: Request, q: Request) {
    && p.subject.tenantID == q.subject.tenantID
    && p.resourceType == q.resourceType && p.action == q.action
    && SubjectIDs(p.subject) == SubjectIDs(q.subject)
  }

  /** A row granting one of a request's subjects something tells the request from others. */
  lemma OneRowTells(p: Request, q: Request, sid: string)
    requires sid in SubjectIDs(p.subject) && forall acl :: AclQuery(acl, p) == AclQuery(acl, q)
    ensures p.subject.tenantID == q.subject.tenantID && p.resourceType == q.resourceType && p.action == q.action
    ensures sid in SubjectIDs(q.subject)
  {
    var acl := {AclRow(p.subject.tenantID, sid, p.resourceType, "x", p.action)};
    assert "x" in AclQuery(acl, p);
    assert "x" in AclQuery(acl, q);
  }

  /** Two requests get the same answer from every ACL exactly when they are about the same rows. */
  lemma SameAnswersIff(p: Request, q: Request)
    ensures (forall acl :: AclQuery(acl, p) == AclQuery(acl, q)) <==> SameAudience(p, q)
  {
    if forall acl :: AclQuery(acl, p) == AclQuery(acl, q) {
      OneRowTells(p, q, "user:" + p.subject.userID);
      forall sid
        ensures sid in SubjectIDs(p.subject) <==> sid in SubjectIDs(q.subject)
      {
        if sid in SubjectIDs(p.subject) {
          OneRowTells(p, q, sid);
        }
        if sid in SubjectIDs(q.subject) {
          OneRowTells(q, p, sid);
        }
      }
    }
  }

  /** The same subjects are the same user with the same set of roles. */
  lemma SameSubjectsIff(a: Subject, b: Subject)
    ensures SubjectIDs(a) == SubjectIDs(b) <==> a.userID == b.userID && SameRoles(a, b)
  {
    if SubjectIDs(a) == SubjectIDs(b) {
      UserNamed(a, b);
      forall r
        ensures r in a.roles <==> r in b.roles
      {
        if r in a.roles {
          RoleNamed(a, b, r);
        }
        if r in b.roles {
          RoleNamed(b, a, r);
        }
      }
    }
  }

  lemma UserNamed(a: Subject, b: Subject)
    requires SubjectIDs(a) <= SubjectIDs(b)
    ensures a.userID == b.userID
  {
    assert "user:" + a.userID in SubjectIDs(b);
    forall r | r in b.roles
      ensures "role:" + r != "user:" + a.userID
    {
      RoleIdInjective(r, a.userID);
    }
    assert ("user:" + a.userID)[5..] == a.userID && ("user:" + b.userID)[5..] == b.userID;
  }

  lemma RoleNamed(a: Subject, b: Subject, r: string)
    requires SubjectIDs(a) <= SubjectIDs(b) && r in a.roles
    ensures r in b.roles
  {
    assert "role:" + r in SubjectIDs(b);
    RoleIdInjective(r, b.userID);
    var s :| s in b.roles && "role:" + s == "role:" + r;
    RoleIdInjective(s, r);
  }

  /**
    One cached answer serves two requests correctly, for every ACL, exactly when
    tenant, user, resource type, action and the set of roles agree. Equal keys do
    not settle this: they do not show the roles, and colons inside the parts can
    move between them.
    */
  lemma SharedEntryCorrectIff(p: Request, q: Request)
    ensures (forall acl :: AclQuery(acl, p) == AclQuery(acl, q))
            <==> && p.subject.tenantID == q.subject.tenantID && p.subject.userID == q.subject.userID
                 && p.resourceType == q.resourceType && p.action == q.action
                 && SameRoles(p.subject, q.subject)
  {
    SameAnswersIff(p, q);
    SameSubjectsIff(p.subject, q.subject);
  }

  /** Among colon-free requests the key leaves only the roles open. */
  lemma ColonFreeEntryCorrectIff(p: Request, q: Request)
    requires ColonFree(p) && ColonFree(q) && CacheKey(p) == CacheKey(q)
    ensures (forall acl :: AclQuery(acl, p) == AclQuery(acl, q)) <==> SameRoles(p.subject, q.subject)
  {
    KeyIdentifies(p, q);
    SharedEntryCorrectIff(p, q);
  }

  /** With a colon inside a part, users of different tenants share a key, and one answer is wrong for one of them. */
  lemma ColonsCollide(roles: seq<string>, attributes: map<string, string>, resourceType: string, action: string)
    ensures var p := Request(Subject("a:b", "c", roles, attributes), action, resourceType);
            var q := Request(Subject("a", "b:c", roles, attributes), action, resourceType);
            && CacheKey(p) == CacheKey(q)
            && exists acl :: AclQuery(acl, p) != AclQuery(acl, q)
  {
    var p := Request(Subject("a:b", "c", roles, attributes), action, resourceType);
    var q := Request(Subject("a", "b:c", roles, attributes), action, resourceType);
    var rest := resourceType + ":" + action;
    assert "a:b" + (":" + ("c" + (":" + rest))) == "a:b:c:" + rest;
    assert "a" + (":" + ("b:c" + (":" + rest))) == "a:b:c:" + rest;
    assert CacheKey(p) == "a:b" + (":" + ("c" + (":" + rest)));
    assert CacheKey(q) == "a" + (":" + ("b:c" + (":" + rest)));
    assert |p.subject.tenantID| != |q.subject.tenantID|;
    SharedEntryCorrectIff(p, q);
  }
}
