/**
  Following the cursor through the service. Hidden rows are counted exactly
  once over a whole walk; visible rows may be lost to truncation, because the
  cursor moves past the window whether or not all of it was shown.
  */
module ServiceWalk {
  import opened Store
  import opened Schema
  import opened Sql
  import opened CursorWalk
  import opened SearchService
  import SqliteAdapter

  type ResponsePager = string -> Result<Response>

  /** A completed run of service calls. */
  ghost predicate IsServiceWalk(pager: ResponsePager, cursor: string, rs: seq<Response>)
    decreases |rs|
  {
    && rs != []
    && pager(cursor) == Ok(rs[0])
    && if rs[0].nextCursor == "" then |rs| == 1
       else IsServiceWalk(pager, rs[0].nextCursor, rs[1..])
  }

  function Shown(rs: seq<Response>): seq<Doc> {
    if rs == [] then [] else rs[0].items + Shown(rs[1..])
  }

  function HiddenTotal(rs: seq<Response>): nat {
    if rs == [] then 0 else rs[0].hiddenCount + HiddenTotal(rs[1..])
  }

  /** The service's answers to a list of adapter pages. */
  function Responses(evaluate: Evaluator, q: QueryDSL, pages: seq<SearchResult>): seq<Response> {
    if pages == [] then [] else [Respond(evaluate, q, pages[0])] + Responses(evaluate, q, pages[1..])
  }

  // ----- accounting over any list of pages -----

  /** Conservation: hidden counts add up to the hidden candidates of all pages. */
  lemma {:induction false} HiddenCountsAdd(evaluate: Evaluator, q: QueryDSL, pages: seq<SearchResult>)
    ensures HiddenTotal(Responses(evaluate, q, pages)) == |HiddenOnes(evaluate, Collected(pages))|
  {
    if pages != [] {
      HiddenCountsAdd(evaluate, q, pages[1..]);
      SelectConcat(pages[0].candidates, Collected(pages[1..]), c => !Visible(evaluate, c));
      assert Responses(evaluate, q, pages)[1..] == Responses(evaluate, q, pages[1..]);
    }
  }

  /** The page has no more visible candidates than the service shows. */
  ghost predicate Fits(evaluate: Evaluator, q: QueryDSL, page: SearchResult) {
    |VisibleOnes(evaluate, page.candidates)| <= ServiceLimit(q.page.limit)
  }

  lemma {:induction false} ShownAtMostVisible(evaluate: Evaluator, q: QueryDSL, pages: seq<SearchResult>)
    ensures |Shown(Responses(evaluate, q, pages))| <= |VisibleOnes(evaluate, Collected(pages))|
  {
    if pages != [] {
      ShownAtMostVisible(evaluate, q, pages[1..]);
      SelectConcat(pages[0].candidates, Collected(pages[1..]), c => Visible(evaluate, c));
      assert Responses(evaluate, q, pages)[1..] == Responses(evaluate, q, pages[1..]);
    }
  }

  lemma TruncatedAppend<T>(v: seq<T>, k: nat, rest: seq<T>, vs: seq<T>)
    requires |rest| <= |vs|
    ensures v[..Min(|v|, k)] + rest == v + vs <==> |v| <= k && rest == vs
  {
    var first := v[..Min(|v|, k)];
    if first + rest == v + vs {
      assert |v| <= k;
      assert (first + rest)[|first|..] == rest && (v + vs)[|v|..] == vs;
    }
  }

  lemma VisibleSplits(evaluate: Evaluator, pages: seq<SearchResult>)
    requires pages != []
    ensures Docs(VisibleOnes(evaluate, Collected(pages)))
            == Docs(VisibleOnes(evaluate, pages[0].candidates)) + Docs(VisibleOnes(evaluate, Collected(pages[1..])))
  {
    var a, b := pages[0].candidates, Collected(pages[1..]);
    SelectConcat(a, b, c => Visible(evaluate, c));
    DocsConcat(VisibleOnes(evaluate, a), VisibleOnes(evaluate, b));
  }

  lemma DocsConcat(a: seq<Candidate>, b: seq<Candidate>)
    ensures Docs(a + b) == Docs(a) + Docs(b)
  {
  }

  lemma ShownSplits(evaluate: Evaluator, q: QueryDSL, pages: seq<SearchResult>)
    requires pages != []
    ensures var v := Docs(VisibleOnes(evaluate, pages[0].candidates));
            Shown(Responses(evaluate, q, pages))
            == v[..Min(|v|, ServiceLimit(q.page.limit))] + Shown(Responses(evaluate, q, pages[1..]))
  {
    var v := VisibleOnes(evaluate, pages[0].candidates);
    var k := ServiceLimit(q.page.limit);
    assert Responses(evaluate, q, pages)[1..] == Responses(evaluate, q, pages[1..]);
    assert Docs(v[..Min(|v|, k)]) == Docs(v)[..Min(|v|, k)];
  }

  /** All visible candidates are shown, in order, exactly when no window overflows the limit. */
  lemma {:induction false} ShownCompleteIff(evaluate: Evaluator, q: QueryDSL, pages: seq<SearchResult>)
    ensures Shown(Responses(evaluate, q, pages)) == Docs(VisibleOnes(evaluate, Collected(pages)))
            <==> forall p | p in pages :: Fits(evaluate, q, p)
  {
    if pages != [] {
      ShownCompleteIff(evaluate, q, pages[1..]);
      ShownAtMostVisible(evaluate, q, pages[1..]);
      VisibleSplits(evaluate, pages);
      ShownSplits(evaluate, q, pages);
      TruncatedAppend(Docs(VisibleOnes(evaluate, pages[0].candidates)), ServiceLimit(q.page.limit),
                      Shown(Responses(evaluate, q, pages[1..])), Docs(VisibleOnes(evaluate, Collected(pages[1..]))));
      FitsSplits(evaluate, q, pages);
    }
  }

  lemma FitsSplits(evaluate: Evaluator, q: QueryDSL, pages: seq<SearchResult>)
    requires pages != []
    ensures (forall p | p in pages :: Fits(evaluate, q, p))
            <==> Fits(evaluate, q, pages[0]) && forall p | p in pages[1..] :: Fits(evaluate, q, p)
  {
    assert pages == [pages[0]] + pages[1..];
  }

  // ----- the service as a pager over the adapter -----

  ghost function ServicePager(db: Database, reg: Registry, evaluate: Evaluator, tenant: string,
                              resource: string, q: QueryDSL): ResponsePager
  {
    cursor => SearchService.SearchOutcome(db, reg, evaluate, tenant, resource, At(q, cursor))
  }

  ghost function PagesBehind(db: Database, reg: Registry, tenant: string, resource: string, q: QueryDSL): Pager {
    AdapterPager(db, reg, tenant, resource, Normalize(reg, resource, q), MAX_CANDIDATE_WINDOW)
  }

  /** One service call answers the adapter page behind it. */
  lemma CallAnswersPage(db: Database, reg: Registry, evaluate: Evaluator, tenant: string, resource: string, q: QueryDSL, cursor: string)
    ensures var r := ServicePager(db, reg, evaluate, tenant, resource, q)(cursor);
            var p := PagesBehind(db, reg, tenant, resource, q)(cursor);
            var n := Normalize(reg, resource, q);
            r.Ok? <==> && Validation(reg, resource, n).None? && p.Ok? && Decided(evaluate, p.value.candidates)
    ensures var r := ServicePager(db, reg, evaluate, tenant, resource, q)(cursor);
            r.Ok? ==> r.value == Respond(evaluate, Normalize(reg, resource, q), PagesBehind(db, reg, tenant, resource, q)(cursor).value)
  {
    var n := Normalize(reg, resource, q);
    CursorPassesThrough(reg, resource, q, cursor);
    var p := PagesBehind(db, reg, tenant, resource, q)(cursor);
    if p.Ok? {
      CursorIsNotAnswered(evaluate, n, cursor, p.value);
      AnswersIff(evaluate, n, p.value);
    }
  }

  lemma CursorPassesThrough(reg: Registry, resource: string, q: QueryDSL, cursor: string)
    ensures var n := Normalize(reg, resource, q);
            && Normalize(reg, resource, At(q, cursor)) == At(n, cursor)
            && Validation(reg, resource, At(n, cursor)) == Validation(reg, resource, n)
  {
  }

  lemma CursorIsNotAnswered(evaluate: Evaluator, q: QueryDSL, cursor: string, page: SearchResult)
    ensures Answer(evaluate, At(q, cursor), page) == Answer(evaluate, q, page)
  {
  }

  /** Whenever the service answers a cursor, it answers the adapter page behind it. */
  ghost predicate Answers(service: ResponsePager, pager: Pager, evaluate: Evaluator, q: QueryDSL) {
    forall cursor :: service(cursor).Ok? ==>
                       pager(cursor).Ok? && service(cursor).value == Respond(evaluate, q, pager(cursor).value)
  }

  /** Every run of the service is the service's view of a run of the adapter. */
  lemma {:induction false} RunsCorrespond(service: ResponsePager, pager: Pager, evaluate: Evaluator, q: QueryDSL,
                                          cursor: string, rs: seq<Response>)
    returns (pages: seq<SearchResult>)
    requires Answers(service, pager, evaluate, q) && IsServiceWalk(service, cursor, rs)
    ensures IsWalk(pager, cursor, pages) && rs == Responses(evaluate, q, pages)
    decreases |rs|
  {
    assert service(cursor).Ok?;
    var page := pager(cursor).value;
    assert rs == [rs[0]] + rs[1..];
    if rs[0].nextCursor == "" {
      pages := [page];
    } else {
      var rest := RunsCorrespond(service, pager, evaluate, q, page.nextCursor, rs[1..]);
      pages := [page] + rest;
      assert pages[1..] == rest;
    }
  }

  lemma ServiceAnswers(db: Database, reg: Registry, evaluate: Evaluator, tenant: string, resource: string, q: QueryDSL)
    ensures Answers(ServicePager(db, reg, evaluate, tenant, resource, q), PagesBehind(db, reg, tenant, resource, q),
                    evaluate, Normalize(reg, resource, q))
  {
    forall cursor: string
      ensures var r := ServicePager(db, reg, evaluate, tenant, resource, q)(cursor);
              var p := PagesBehind(db, reg, tenant, resource, q)(cursor);
              r.Ok? ==> p.Ok? && r.value == Respond(evaluate, Normalize(reg, resource, q), p.value)
    {
      CallAnswersPage(db, reg, evaluate, tenant, resource, q, cursor);
    }
  }

  /**
    A whole walk from the start hides exactly the denied matching rows, each
    counted once, and shows all the permitted ones exactly when no window holds
    more of them than the page limit; a limit of at least 500 ensures that.
    */
  lemma ServiceWalkAccounts(db: Database, reg: Registry, evaluate: Evaluator, tenant: string, resource: string,
                            q: QueryDSL, rs: seq<Response>)
    requires Walkable(db, reg, tenant, resource, Normalize(reg, resource, q), MAX_CANDIDATE_WINDOW)
    requires IsServiceWalk(ServicePager(db, reg, evaluate, tenant, resource, q), "", rs)
    ensures var n := Normalize(reg, resource, q);
            var matching := SqliteAdapter.Candidates(SqliteAdapter.Matching(db, reg, tenant, resource, n));
            && HiddenTotal(rs) == |HiddenOnes(evaluate, matching)|
            && (Shown(rs) == Docs(VisibleOnes(evaluate, matching))
                <==> forall pages, p | IsWalk(PagesBehind(db, reg, tenant, resource, q), "", pages) && p in pages :: Fits(evaluate, n, p))
            && (q.page.limit >= MAX_CANDIDATE_WINDOW ==> Shown(rs) == Docs(VisibleOnes(evaluate, matching)))
  {
    var n := Normalize(reg, resource, q);
    var matching := SqliteAdapter.Candidates(SqliteAdapter.Matching(db, reg, tenant, resource, n));
    ServiceAnswers(db, reg, evaluate, tenant, resource, q);
    var pages := RunsCorrespond(ServicePager(db, reg, evaluate, tenant, resource, q),
                                PagesBehind(db, reg, tenant, resource, q), evaluate, n, "", rs);
    CursorWalkCoversTable(db, reg, tenant, resource, n, MAX_CANDIDATE_WINDOW);
    assert Collected(pages) == matching;
    HiddenCountsAdd(evaluate, n, pages);
    ShownCompleteIff(evaluate, n, pages);
    forall other: seq<SearchResult> | IsWalk(PagesBehind(db, reg, tenant, resource, q), "", other)
      ensures other == pages
    {
      WalkUnique(PagesBehind(db, reg, tenant, resource, q), "", pages, other);
    }
    if q.page.limit >= MAX_CANDIDATE_WINDOW {
      forall p | p in pages
        ensures Fits(evaluate, n, p)
      {
      }
    }
  }

  /** A pager has at most one completed run from a cursor. */
  lemma {:induction false} WalkUnique(pager: Pager, cursor: string, a: seq<SearchResult>, b: seq<SearchResult>)
    requires IsWalk(pager, cursor, a) && IsWalk(pager, cursor, b)
    ensures a == b
    decreases |a|
  {
    assert a == [a[0]] + a[1..] && b == [b[0]] + b[1..];
    if a[0].nextCursor != "" {
      WalkUnique(pager, a[0].nextCursor, a[1..], b[1..]);
    }
  }

  lemma {:induction false} WalkIsAnswered(db: Database, reg: Registry, evaluate: Evaluator, tenant: string,
                                          resource: string, q: QueryDSL, cursor: string, pages: seq<SearchResult>)
    requires IsWalk(PagesBehind(db, reg, tenant, resource, q), cursor, pages)
    requires Validation(reg, resource, Normalize(reg, resource, q)).None?
    requires Decided(evaluate, Collected(pages))
    ensures IsServiceWalk(ServicePager(db, reg, evaluate, tenant, resource, q), cursor,
                          Responses(evaluate, Normalize(reg, resource, q), pages))
    decreases |pages|
  {
    assert forall c | c in pages[0].candidates :: c in Collected(pages);
    assert forall c | c in Collected(pages[1..]) :: c in Collected(pages);
    CallAnswersPage(db, reg, evaluate, tenant, resource, q, cursor);
    var rs := Responses(evaluate, Normalize(reg, resource, q), pages);
    if pages[0].nextCursor == "" {
      assert pages[1..] == [];
    } else {
      WalkIsAnswered(db, reg, evaluate, tenant, resource, q, pages[0].nextCursor, pages[1..]);
      assert rs[1..] == Responses(evaluate, Normalize(reg, resource, q), pages[1..]);
    }
  }

  /** A valid query whose rows can all be judged does have a completed walk. */
  lemma ServiceWalkExists(db: Database, reg: Registry, evaluate: Evaluator, tenant: string, resource: string, q: QueryDSL)
    requires Walkable(db, reg, tenant, resource, Normalize(reg, resource, q), MAX_CANDIDATE_WINDOW)
    requires Validation(reg, resource, Normalize(reg, resource, q)).None?
    requires Decided(evaluate, SqliteAdapter.Candidates(SqliteAdapter.Matching(db, reg, tenant, resource, Normalize(reg, resource, q))))
    ensures exists rs :: IsServiceWalk(ServicePager(db, reg, evaluate, tenant, resource, q), "", rs)
  {
    CursorWalkCoversTable(db, reg, tenant, resource, Normalize(reg, resource, q), MAX_CANDIDATE_WINDOW);
    var pages :| IsWalk(PagesBehind(db, reg, tenant, resource, q), "", pages);
    WalkIsAnswered(db, reg, evaluate, tenant, resource, q, "", pages);
  }
}
