/**
  From a valid query to the rows a user sees: validation, compilation, paging
  and policy put together.
  */
module EndToEnd {
  import opened Store
  import opened Text
  import opened Schema
  import opened Contracts
  import opened SearchService
  import opened ServiceWalk
  import opened PolicyWalk
  import opened Acceptance
  import opened SqliteAdapter
  import Sql
  import Policy

  /** The driver takes the filter's arguments: nothing in them is a list. */
  ghost predicate FilterBinds(f: Filter) {
    if ToLower(f.op) == "in" then f.value.List? && forall v | v in f.value.items :: !v.List? else !f.value.List?
  }

  lemma {:induction false} BindsIff(vs: seq<Value>)
    ensures Sql.BindAll(vs).Some? <==> forall v | v in vs :: !v.List?
  {
    if vs != [] {
      BindsIff(vs[1..]);
      assert vs == [vs[0]] + vs[1..];
    }
  }

  lemma ClauseBindsIff(reg: Registry, allowed: set<string>, f: Filter)
    requires CompileFilter(reg, allowed, f).Ok?
    ensures Sql.BindAll(CompileFilter(reg, allowed, f).value.args).Some? <==> FilterBinds(f)
  {
    var args := CompileFilter(reg, allowed, f).value.args;
    BindsIff(args);
    if ToLower(f.op) == "in" {
      assert args == f.value.items;
    } else {
      assert args == [f.value] && f.value in args;
    }
  }

  /** The driver accepts the compiled arguments exactly when every filter binds. */
  lemma {:induction false} ArgumentsBindIff(reg: Registry, allowed: set<string>, filters: seq<Filter>)
    requires Compile(reg, allowed, filters).Ok?
    ensures Sql.BindAll(Compile(reg, allowed, filters).value.args).Some? <==> forall f | f in filters :: FilterBinds(f)
  {
    if filters != [] {
      var head := CompileFilter(reg, allowed, filters[0]).value;
      var tail := Compile(reg, allowed, filters[1..]).value;
      ClauseBindsIff(reg, allowed, filters[0]);
      ArgumentsBindIff(reg, allowed, filters[1..]);
      Sql.BindAllConcat(head.args, tail.args);
      assert filters == [filters[0]] + filters[1..];
    }
  }

  /** The resource's table exists, has fixed listings, and every field has a column name. */
  ghost predicate TableReady(db: Sql.Database, reg: Registry, resource: string) {
    && resource in reg.resources && resource in reg.fieldIndex
    && reg.resources[resource].tableName in db.tables
    && db.tables[reg.resources[resource].tableName].Fixed()
    && forall n | n in reg.fieldIndex[resource] :: reg.fieldIndex[resource][n].nativeColumn != ""
  }

  /** A v2 query the service lets through, with operators the compiler knows. */
  ghost predicate Accepted(reg: Registry, resource: string, q: QueryDSL) {
    && VersionOf(q) == V2
    && Validation(reg, resource, Normalize(reg, resource, q)).None?
    && forall f | f in q.filters :: OperatorFits(f)
  }

  lemma BindsAfterNormalize(reg: Registry, resource: string, filters: seq<Filter>)
    ensures (forall f | f in NormalizeFilters(reg, resource, filters) :: FilterBinds(f))
            <==> forall f | f in filters :: FilterBinds(f)
  {
    var n := NormalizeFilters(reg, resource, filters);
    assert forall i | 0 <= i < |filters| :: FilterBinds(n[i]) <==> FilterBinds(filters[i]);
    assert forall i | 0 <= i < |filters| :: n[i] in n && filters[i] in filters;
  }

  lemma OwnColumnsWhenDisjoint(reg: Registry, resource: string, q: QueryDSL)
    requires WellFormedRegistry(reg) && DisjointFields(reg) && Accepted(reg, resource, q)
    ensures OwnColumns(reg, resource, Normalize(reg, resource, q).filters)
  {
    ValidatedFiltersAreKnown(reg, resource, q);
    forall f | f in Normalize(reg, resource, q).filters
      ensures reg.NativeColumnForField(f.field) == reg.GetNativeColumn(resource, f.field)
    {
      DisjointFieldsOwnColumns(reg, resource, f.field);
    }
  }

  /** An accepted query can be served exactly when the driver can bind its values. */
  lemma AcceptedIsServableIff(db: Sql.Database, reg: Registry, resource: string, q: QueryDSL)
    requires WellFormedRegistry(reg) && DisjointFields(reg) && TableReady(db, reg, resource) && Accepted(reg, resource, q)
    ensures Servable(db, reg, resource, Normalize(reg, resource, q)) <==> forall f | f in q.filters :: FilterBinds(f)
  {
    var n := Normalize(reg, resource, q);
    OwnColumnsWhenDisjoint(reg, resource, q);
    ValidatedQueryCompilesIff(reg, resource, q);
    ArgumentsBindIff(reg, reg.Filterable(resource), n.filters);
    BindsAfterNormalize(reg, resource, q.filters);
    SortIsOwnColumn(reg, resource, n.sort.field);
  }

  /**
    The service's promise. Over an accepted query whose values bind, with a
    page limit of at least 500, a walk along the cursor can be completed; every
    completed walk shows the tenant's matching rows the policy permits, all of
    them, each once, in the order asked for, and counts the denied ones.
    */
  lemma WalkShowsExactlyThePermitted(db: Sql.Database, reg: Registry, subject: Policy.Subject, grants: set<string>,
                                     rules: seq<Policy.Rule>, resource: string, q: QueryDSL)
    requires WellFormedRegistry(reg) && DisjointFields(reg) && TableReady(db, reg, resource) && Accepted(reg, resource, q)
    requires q.page.limit >= MAX_CANDIDATE_WINDOW && forall f | f in q.filters :: FilterBinds(f)
    requires |Matching(db, reg, subject.tenantID, resource, Normalize(reg, resource, q))| <= MAX_INT
    ensures var n, judge := Normalize(reg, resource, q), Judge(subject, grants, rules);
            var rows := Candidates(Matching(db, reg, subject.tenantID, resource, n));
            var pager := ServicePager(db, reg, judge, subject.tenantID, resource, q);
            && (exists rs :: IsServiceWalk(pager, "", rs))
            && forall rs | IsServiceWalk(pager, "", rs) ::
                 && Shown(rs) == Docs(Select(rows, (c: Candidate) => Policy.Decide(subject, c.doc, grants, rules).allowed))
                 && |Shown(rs)| + HiddenTotal(rs) == |rows|
  {
    var n, judge := Normalize(reg, resource, q), Judge(subject, grants, rules);
    var rows := Candidates(Matching(db, reg, subject.tenantID, resource, n));
    AcceptedIsServableIff(db, reg, resource, q);
    ServiceWalkExists(db, reg, judge, subject.tenantID, resource, q);
    SplitIsComplete(judge, rows);
    SelectSame(rows, c => Visible(judge, c), (c: Candidate) => Policy.Decide(subject, c.doc, grants, rules).allowed);
    forall rs | IsServiceWalk(ServicePager(db, reg, judge, subject.tenantID, resource, q), "", rs)
      ensures Shown(rs) == Docs(VisibleOnes(judge, rows)) && HiddenTotal(rs) == |HiddenOnes(judge, rows)|
    {
      ServiceWalkAccounts(db, reg, judge, subject.tenantID, resource, q, rs);
    }
  }
}
