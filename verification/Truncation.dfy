/**
  Which page limits are safe. The cursor moves past a whole window although only
  the first `limit` visible rows of it are shown; below the candidate cap, some
  database always makes a walk lose rows.
  */
module Truncation {
  import opened Text
  import opened Store
  import opened Schema
  import opened Contracts
  import opened CursorWalk
  import opened SearchService
  import opened ServiceWalk
  import opened PolicyWalk
  import opened SqliteAdapter
  import opened Sql
  import Policy

  /** Row identifiers are unique, as in a table keyed by them. */
  ghost predicate UniqueIds(t: Table) {
    forall i, j | 0 <= i < j < |t.rows| :: t.rows[i].id != t.rows[j].id
  }

  /** Everything the service can be asked under this page limit, over any keyed table and any policy. */
  ghost predicate Possible(db: Database, reg: Registry, subject: Policy.Subject, resource: string, q: QueryDSL, limit: int) {
    && q.page.limit == limit
    && Walkable(db, reg, subject.tenantID, resource, Normalize(reg, resource, q), MAX_CANDIDATE_WINDOW)
    && UniqueIds(db.tables[reg.resources[resource].tableName])
  }

  /** The walk shows every matching row that the policy permits. */
  ghost predicate ShowsAll(db: Database, reg: Registry, subject: Policy.Subject, grants: set<string>, rules: seq<Policy.Rule>,
                           resource: string, q: QueryDSL, rs: seq<Response>)
    requires Walkable(db, reg, subject.tenantID, resource, Normalize(reg, resource, q), MAX_CANDIDATE_WINDOW)
  {
    var rows := Candidates(Matching(db, reg, subject.tenantID, resource, Normalize(reg, resource, q)));
    Shown(rs) == Docs(VisibleOnes(Judge(subject, grants, rules), rows))
  }

  /** Under this page limit no table, query or policy can make a completed walk lose a permitted row. */
  ghost predicate NeverLoses(reg: Registry, resource: string, limit: int) {
    forall db, subject: Policy.Subject, grants, rules, q, rs
      | && Possible(db, reg, subject, resource, q, limit)
        && IsServiceWalk(ServicePager(db, reg, Judge(subject, grants, rules), subject.tenantID, resource, q), "", rs) ::
      ShowsAll(db, reg, subject, grants, rules, resource, q, rs)
  }

  // ----- a table that is always too wide -----

  function NumberedRow(tenant: string, i: nat): Row {
    Row(Itoa(i), map["id" := TextCell(Itoa(i)), "tenant_id" := TextCell(tenant)],
        map["id" := Str(Itoa(i)), "tenant_id" := Str(tenant)])
  }

  function NumberedRows(tenant: string, n: nat): seq<Row> {
    seq(n, i requires 0 <= i < n => NumberedRow(tenant, i))
  }

  const PLAIN := Collation((a, b) => a == b, (a, b) => false, (a, b) => false)

  /** One table of `n` rows, listed alike under every sort. */
  function NumberedDb(table: string, tenant: string, n: nat): Database {
    Database(map[table := Table(NumberedRows(tenant, n), (col, dir) => NumberedRows(tenant, n))], PLAIN)
  }

  lemma NumbersAreUnique(tenant: string, n: nat)
    requires n <= MAX_INT
    ensures forall i, j | 0 <= i < j < n :: NumberedRows(tenant, n)[i].id != NumberedRows(tenant, n)[j].id
  {
    forall i, j | 0 <= i < j < n
      ensures Itoa(i) != Itoa(j)
    {
      AtoiUndoesItoa(i);
      AtoiUndoesItoa(j);
    }
  }

  /** A query for everything, under a page limit. */
  function AskAll(limit: int): QueryDSL {
    QueryDSL(V2, "", [], Sort("", ""), Page(limit, ""))
  }

  lemma AskAllNormalized(reg: Registry, resource: string, limit: int)
    ensures var n := Normalize(reg, resource, AskAll(limit));
            && n == QueryDSL(V2, INTENT_DEFAULT, [], Sort("", ""), Page(limit, ""))
            && Validation(reg, resource, n).None?
  {
    assert NormalizeFilters(reg, resource, []) == [];
  }

  /** Every row of the numbered table matches. */
  lemma AllNumberedMatch(reg: Registry, resource: string, tenant: string, n: nat, limit: int)
    requires resource in reg.resources && SortColumn(reg, resource, "") != ""
    ensures var db, q := NumberedDb(reg.resources[resource].tableName, tenant, n), Normalize(reg, resource, AskAll(limit));
            Servable(db, reg, resource, q) && Matching(db, reg, tenant, resource, q) == NumberedRows(tenant, n)
  {
    AskAllNormalized(reg, resource, limit);
    NumberedAreWanted(reg, resource, tenant, n);
  }

  lemma NumberedAreWanted(reg: Registry, resource: string, tenant: string, n: nat)
    ensures Select(NumberedRows(tenant, n), Wanted(PLAIN, reg, tenant, resource, [])) == NumberedRows(tenant, n)
  {
    var wanted := Wanted(PLAIN, reg, tenant, resource, []);
    forall row | row in NumberedRows(tenant, n)
      ensures wanted(row)
    {
      assert CellOf(row, "tenant_id") == TextCell(tenant);
    }
    SelectExtremes(NumberedRows(tenant, n), wanted);
  }

  lemma NumberedDbIsPossible(reg: Registry, subject: Policy.Subject, resource: string, n: nat, limit: int)
    requires resource in reg.resources && SortColumn(reg, resource, "") != "" && n <= MAX_INT
    ensures Possible(NumberedDb(reg.resources[resource].tableName, subject.tenantID, n), reg, subject, resource, AskAll(limit), limit)
  {
    AllNumberedMatch(reg, resource, subject.tenantID, n, limit);
    NumbersAreUnique(subject.tenantID, n);
  }

  /** Under a wildcard grant and no rules, every numbered row may be seen. */
  lemma AllNumberedVisible(subject: Policy.Subject, n: nat)
    ensures forall c | c in Candidates(NumberedRows(subject.tenantID, n)) :: Visible(Judge(subject, {"*"}, []), c)
  {
  }

  lemma SmallWindowsOverflow(limit: int)
    requires limit < MAX_CANDIDATE_WINDOW
    ensures ServiceLimit(limit) < WindowSize(limit, MAX_CANDIDATE_WINDOW) <= MAX_CANDIDATE_WINDOW
  {
  }

  /** A first window of visible rows, wider than the page limit, is not shown whole. */
  lemma WideWindowLoses(evaluate: Evaluator, q: QueryDSL, pages: seq<SearchResult>)
    requires pages != [] && forall c | c in pages[0].candidates :: Visible(evaluate, c)
    requires |pages[0].candidates| > ServiceLimit(q.page.limit)
    ensures Shown(Responses(evaluate, q, pages)) != Docs(VisibleOnes(evaluate, Collected(pages)))
  {
    SelectExtremes(pages[0].candidates, c => Visible(evaluate, c));
    ShownCompleteIff(evaluate, q, pages);
    assert pages[0] in pages && !Fits(evaluate, q, pages[0]);
  }

  /** A table exactly one window wide. */
  function WideDb(reg: Registry, resource: string, tenant: string, limit: int): Database
    requires resource in reg.resources
  {
    NumberedDb(reg.resources[resource].tableName, tenant, Max(0, WindowSize(limit, MAX_CANDIDATE_WINDOW)))
  }

  lemma WideWalkExists(reg: Registry, subject: Policy.Subject, resource: string, limit: int) returns (rs: seq<Response>)
    requires resource in reg.resources && SortColumn(reg, resource, "") != "" && limit < MAX_CANDIDATE_WINDOW
    ensures var db := WideDb(reg, resource, subject.tenantID, limit);
            && Possible(db, reg, subject, resource, AskAll(limit), limit)
            && IsServiceWalk(ServicePager(db, reg, Judge(subject, {"*"}, []), subject.tenantID, resource, AskAll(limit)), "", rs)
  {
    SmallWindowsOverflow(limit);
    var db, judge := WideDb(reg, resource, subject.tenantID, limit), Judge(subject, {"*"}, []);
    NumberedDbIsPossible(reg, subject, resource, WindowSize(limit, MAX_CANDIDATE_WINDOW), limit);
    AskAllNormalized(reg, resource, limit);
    ServiceWalkExists(db, reg, judge, subject.tenantID, resource, AskAll(limit));
    rs :| IsServiceWalk(ServicePager(db, reg, judge, subject.tenantID, resource, AskAll(limit)), "", rs);
  }

  /** Below the cap, that table loses rows to truncation. */
  lemma SmallLimitsLose(reg: Registry, resource: string, limit: int)
    requires resource in reg.resources && SortColumn(reg, resource, "") != "" && limit < MAX_CANDIDATE_WINDOW
    ensures !NeverLoses(reg, resource, limit)
  {
    var subject := Policy.Subject("t", "u", [], map[]);
    var rs := WideWalkExists(reg, subject, resource, limit);
    WideWalkLoses(reg, subject, resource, limit, rs);
    OneLossIsEnough(WideDb(reg, resource, subject.tenantID, limit), reg, subject, {"*"}, [], resource, AskAll(limit), limit, rs);
  }

  lemma OneLossIsEnough(db: Database, reg: Registry, subject: Policy.Subject, grants: set<string>, rules: seq<Policy.Rule>,
                        resource: string, q: QueryDSL, limit: int, rs: seq<Response>)
    requires Possible(db, reg, subject, resource, q, limit)
    requires IsServiceWalk(ServicePager(db, reg, Judge(subject, grants, rules), subject.tenantID, resource, q), "", rs)
    requires !ShowsAll(db, reg, subject, grants, rules, resource, q, rs)
    ensures !NeverLoses(reg, resource, limit)
  {
  }

  lemma WideWalkLoses(reg: Registry, subject: Policy.Subject, resource: string, limit: int, rs: seq<Response>)
    requires resource in reg.resources && SortColumn(reg, resource, "") != "" && limit < MAX_CANDIDATE_WINDOW
    requires var db := WideDb(reg, resource, subject.tenantID, limit);
             && Possible(db, reg, subject, resource, AskAll(limit), limit)
             && IsServiceWalk(ServicePager(db, reg, Judge(subject, {"*"}, []), subject.tenantID, resource, AskAll(limit)), "", rs)
    ensures !ShowsAll(WideDb(reg, resource, subject.tenantID, limit), reg, subject, {"*"}, [], resource, AskAll(limit), rs)
  {
    SmallWindowsOverflow(limit);
    var n: nat := WindowSize(limit, MAX_CANDIDATE_WINDOW);
    var q, judge := AskAll(limit), Judge(subject, {"*"}, []);
    var db, norm := WideDb(reg, resource, subject.tenantID, limit), Normalize(reg, resource, q);
    var rows := Candidates(NumberedRows(subject.tenantID, n));
    AllNumberedMatch(reg, resource, subject.tenantID, n, limit);
    AskAllNormalized(reg, resource, limit);
    ServiceAnswers(db, reg, judge, subject.tenantID, resource, q);
    var pages := RunsCorrespond(ServicePager(db, reg, judge, subject.tenantID, resource, q),
                                PagesBehind(db, reg, subject.tenantID, resource, q), judge, norm, "", rs);
    AdapterPages(db, reg, subject.tenantID, resource, norm, MAX_CANDIDATE_WINDOW);
    FirstPageIsAll(PagesBehind(db, reg, subject.tenantID, resource, q), rows, n, pages);
    AllNumberedVisible(subject, n);
    WideWindowLoses(judge, norm, pages);
  }

  lemma FirstPageIsAll(pager: Pager, rows: seq<Candidate>, w: nat, pages: seq<SearchResult>)
    requires PagesOver(pager, rows, w) && |rows| == w && IsWalk(pager, "", pages)
    ensures pages[0].candidates == rows && Collected(pages) == rows
  {
    PageAdvances(rows, w, "");
    WalkCollects(pager, rows, w, "", pages);
    assert rows[0..] == rows && rows[0..w] == rows;
  }

  /**
    A page limit never loses a permitted row, over any table, query and policy
    of a resource, exactly when it is at least the candidate cap.
    */
  lemma NeverLosesIff(reg: Registry, resource: string, limit: int)
    requires resource in reg.resources && SortColumn(reg, resource, "") != ""
    ensures NeverLoses(reg, resource, limit) <==> limit >= MAX_CANDIDATE_WINDOW
  {
    if limit < MAX_CANDIDATE_WINDOW {
      SmallLimitsLose(reg, resource, limit);
    } else {
      forall db, subject: Policy.Subject, grants, rules, q, rs
        | && Possible(db, reg, subject, resource, q, limit)
          && IsServiceWalk(ServicePager(db, reg, Judge(subject, grants, rules), subject.tenantID, resource, q), "", rs)
        ensures ShowsAll(db, reg, subject, grants, rules, resource, q, rs)
      {
        ServiceWalkAccounts(db, reg, Judge(subject, grants, rules), subject.tenantID, resource, q, rs);
      }
    }
  }
}
