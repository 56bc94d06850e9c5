/**
  The policy engine behind the service: what a change of rules does to a whole
  walk over one query.
  */
module PolicyWalk {
  import opened Store
  import opened Schema
  import Sql
  import opened Policy
  import opened CursorWalk
  import opened SearchService
  import opened ServiceWalk
  import SqliteAdapter

  /** The engine with its loads done: one decision per document. */
  ghost function Judge(subject: Subject, grants: set<string>, rules: seq<Rule>): Evaluator {
    doc => Ok(Decide(subject, doc, grants, rules))
  }

  ghost predicate Denied(subject: Subject, rules: seq<Rule>, doc: Doc) {
    SomeRule("deny", rules, subject, doc)
  }

  /** Extra deny rules take away exactly the documents one of them matches. */
  lemma ExtraDenyDecides(subject: Subject, grants: set<string>, rules: seq<Rule>, extra: seq<Rule>, doc: Doc)
    requires forall r | r in extra :: r.effect == "deny"
    ensures Decide(subject, doc, grants, rules + extra).allowed
            <==> Decide(subject, doc, grants, rules).allowed && !Denied(subject, extra, doc)
  {
    SomeRuleConcat("deny", rules, extra, subject, doc);
    SomeRuleConcat("allow", rules, extra, subject, doc);
    assert !SomeRule("allow", extra, subject, doc);
  }

  lemma SomeRuleConcat(effect: string, a: seq<Rule>, b: seq<Rule>, subject: Subject, doc: Doc)
    ensures SomeRule(effect, a + b, subject, doc) <==> SomeRule(effect, a, subject, doc) || SomeRule(effect, b, subject, doc)
  {
    assert forall r :: r in a + b <==> r in a || r in b;
  }

  /** Selecting twice, the second time on documents, is selecting once on both tests. */
  lemma {:induction false} SelectTwice(cs: seq<Candidate>, p: Candidate -> bool, q: Candidate -> bool, keep: Doc -> bool)
    requires forall c | c in cs :: q(c) <==> p(c) && keep(c.doc)
    ensures Docs(Select(cs, q)) == Select(Docs(Select(cs, p)), keep)
  {
    if cs != [] {
      var n := |cs| - 1;
      var c := cs[n];
      assert forall x | x in cs[..n] :: x in cs;
      SelectTwice(cs[..n], p, q, keep);
      assert c in cs;
      SelectLast(cs, p);
      SelectLast(cs, q);
      DocsSnoc(Select(cs[..n], p), c);
      DocsSnoc(Select(cs[..n], q), c);
      SelectSnoc(Docs(Select(cs[..n], p)), c.doc, keep);
    }
  }

  lemma SelectLast<T>(s: seq<T>, p: T -> bool)
    requires s != []
    ensures var n := |s| - 1; Select(s, p) == if p(s[n]) then Select(s[..n], p) + [s[n]] else Select(s[..n], p)
  {
  }

  lemma SelectSnoc<T>(s: seq<T>, x: T, p: T -> bool)
    ensures Select(s + [x], p) == if p(x) then Select(s, p) + [x] else Select(s, p)
  {
    assert (s + [x])[..|s|] == s;
  }

  lemma DocsSnoc(cs: seq<Candidate>, c: Candidate)
    ensures Docs(cs + [c]) == Docs(cs) + [c.doc]
  {
  }

  /**
    The same query walked to the end before and after deny rules are added,
    with a page limit that loses nothing: the second walk shows the first one's
    rows without those the new rules match, in the same order, and counts every
    row taken away as hidden.
    */
  lemma DenyRulesMoveRowsToHidden(db: Sql.Database, reg: Registry, subject: Subject, grants: set<string>,
                                  rules: seq<Rule>, extra: seq<Rule>, resource: string, q: QueryDSL,
                                  before: seq<Response>, after: seq<Response>)
    requires forall r | r in extra :: r.effect == "deny"
    requires q.page.limit >= MAX_CANDIDATE_WINDOW
    requires Walkable(db, reg, subject.tenantID, resource, Normalize(reg, resource, q), MAX_CANDIDATE_WINDOW)
    requires IsServiceWalk(ServicePager(db, reg, Judge(subject, grants, rules), subject.tenantID, resource, q), "", before)
    requires IsServiceWalk(ServicePager(db, reg, Judge(subject, grants, rules + extra), subject.tenantID, resource, q), "", after)
    ensures Shown(after) == Select(Shown(before), doc => !Denied(subject, extra, doc))
    ensures |Shown(after)| + HiddenTotal(after) == |Shown(before)| + HiddenTotal(before)
  {
    var first, second := Judge(subject, grants, rules), Judge(subject, grants, rules + extra);
    var cs := SqliteAdapter.Candidates(SqliteAdapter.Matching(db, reg, subject.tenantID, resource, Normalize(reg, resource, q)));
    ServiceWalkAccounts(db, reg, first, subject.tenantID, resource, q, before);
    ServiceWalkAccounts(db, reg, second, subject.tenantID, resource, q, after);
    SplitIsComplete(first, cs);
    SplitIsComplete(second, cs);
    VisibleUnderExtra(subject, grants, rules, extra, cs);
  }

  lemma VisibleUnderExtra(subject: Subject, grants: set<string>, rules: seq<Rule>, extra: seq<Rule>, cs: seq<Candidate>)
    requires forall r | r in extra :: r.effect == "deny"
    ensures Docs(VisibleOnes(Judge(subject, grants, rules + extra), cs))
            == Select(Docs(VisibleOnes(Judge(subject, grants, rules), cs)), doc => !Denied(subject, extra, doc))
  {
    var a, b := Judge(subject, grants, rules), Judge(subject, grants, rules + extra);
    forall c | c in cs
      ensures Visible(b, c) <==> Visible(a, c) && !Denied(subject, extra, c.doc)
    {
      ExtraDenyDecides(subject, grants, rules, extra, c.doc);
    }
    SelectTwice(cs, c => Visible(a, c), c => Visible(b, c), doc => !Denied(subject, extra, doc));
  }
}
