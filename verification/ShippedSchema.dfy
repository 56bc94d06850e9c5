/**
  The shipped registry, and the identifier fast path over it. Fast-path lookups
  run under the default intent and sort by `created_at`; whether a group can
  succeed at all is decided by the intent scopes of two fields.
  */
module ShippedSchema {
  import opened Text
  import opened Store
  import opened Schema
  import opened Contracts
  import opened Sql
  import opened SearchService
  import opened Acceptance
  import opened ShippedDefinition
  import EndToEnd
  import Policy
  import PolicyWalk
  import ServiceWalk
  import SqliteAdapter
  import QueryMerge
  import RewriteRouter
  import Truncation
  import opened RemoteValidation
  import Guardrail
  import FastPath

  /** The query the fast path builds for one group, under the caller's contract version. */
  function GroupQuery(version: string, field: string, op: string, value: string): QueryDSL {
    QueryDSL(version, INTENT_DEFAULT, [Filter(field, op, Str(value))], Sort("created_at", "desc"), Page(20, ""))
  }

  ghost predicate OpenByDefault(reg: Registry, resource: string, field: string) {
    reg.IsFieldAllowed(resource, INTENT_DEFAULT, NormalizeField(reg, resource, field))
  }

  /** Under contract v2 a group passes validation exactly when both its match field and `created_at` are open to the default intent. */
  lemma GroupValidatesIff(reg: Registry, resource: string, version: string, field: string, op: string, value: string)
    requires WellFormedRegistry(reg) && NormalizeField(reg, resource, "created_at") != ""
    requires version == "" || version == V2
    ensures Validation(reg, resource, Normalize(reg, resource, GroupQuery(version, field, op, value))).None?
            <==> && resource in reg.resources
                 && OpenByDefault(reg, resource, field)
                 && OpenByDefault(reg, resource, "created_at")
  {
    var n := Normalize(reg, resource, GroupQuery(version, field, op, value));
    assert n.filters == [Filter(NormalizeField(reg, resource, field), op, Str(value))];
    NoRefusalIff(reg, resource, V2, INTENT_DEFAULT, n.filters);
    NormalizeIdempotentIff(reg, resource);
    assert n.sort.field == NormalizeField(reg, resource, "created_at");
    assert n.filters[0] in n.filters && n.filters[0].field == NormalizeField(reg, resource, field);
  }

  /**
    Under any contract version, a group reaches the store exactly when the
    version is v2, both fields are open to the default intent, and the operator
    takes a single value.
    */
  lemma GroupPassesIff(reg: Registry, resource: string, version: string, field: string, op: string, value: string)
    requires WellFormedRegistry(reg) && NormalizeField(reg, resource, "created_at") != ""
    requires LegacyNamesApart(reg, resource)
    ensures !Refused(reg, resource, GroupQuery(version, field, op, value))
            <==> && (version == "" || version == V2)
                 && resource in reg.resources
                 && OpenByDefault(reg, resource, field)
                 && OpenByDefault(reg, resource, "created_at")
                 && OperatorFits(Filter(field, op, Str(value)))
  {
    var q := GroupQuery(version, field, op, value);
    assert q.filters == [Filter(field, op, Str(value))];
    if VersionOf(q) == V2 {
      GroupValidatesIff(reg, resource, version, field, op, value);
      if Validation(reg, resource, Normalize(reg, resource, q)).None? {
        ValidatedQueryCompilesIff(reg, resource, q);
        assert q.filters[0] in q.filters;
      }
    } else if version == V1 {
      LegacyFilterRefused(reg, resource, q);
    } else {
      FirstFilterRefused(reg, resource, Normalize(reg, resource, q));
    }
  }

  lemma FirstFilterRefused(reg: Registry, resource: string, q: QueryDSL)
    requires q.filters != []
    requires ValidateField(reg, resource, q.contractVersion, q.intentCategory, q.filters[0].field).Some?
    ensures Validation(reg, resource, q).Some?
  {
  }

  // ----- the shipped registry -----

  /** What indexing one more resource adds. */
  lemma AddResource(defs: seq<Resource>, d: Resource)
    ensures var before, reg := Index(defs), Index(defs + [d]);
            && reg.fieldIndex.Keys == before.fieldIndex.Keys + {d.name}
            && IndexedFrom(reg, d.name, d)
  {
    assert (defs + [d])[..|defs|] == defs;
  }

  lemma KeepResource(defs: seq<Resource>, d: Resource, n: string, e: Resource)
    requires n != d.name && IndexedFrom(Index(defs), n, e)
    ensures IndexedFrom(Index(defs + [d]), n, e)
  {
    assert (defs + [d])[..|defs|] == defs;
  }

  lemma FirstResource(a: Resource)
    ensures Index([a]).fieldIndex.Keys == {a.name} && IndexedFrom(Index([a]), a.name, a)
  {
    AddResource([], a);
    assert [] + [a] == [a];
    assert Index([]).fieldIndex == map[];
  }

  lemma TwoResources(a: Resource, b: Resource)
    requires a.name != b.name
    ensures var reg := Index([a, b]);
            && reg.fieldIndex.Keys == {a.name, b.name}
            && IndexedFrom(reg, a.name, a) && IndexedFrom(reg, b.name, b)
  {
    FirstResource(a);
    AddResource([a], b);
    KeepResource([a], b, a.name, a);
    assert [a] + [b] == [a, b];
  }

  lemma ShippedIndex()
    ensures var reg := Index(DEFINITION);
            && reg.fieldIndex.Keys == {"order", "customer"}
            && IndexedFrom(reg, "order", ORDER) && IndexedFrom(reg, "customer", CUSTOMER)
  {
    TwoResources(ORDER, CUSTOMER);
  }

  /** Two resources whose names start differently have no field in common. */
  lemma FirstLetterSeparates(reg: Registry, a: Resource, b: Resource)
    requires reg.fieldIndex.Keys == {a.name, b.name}
    requires IndexedFrom(reg, a.name, a) && IndexedFrom(reg, b.name, b)
    requires forall f | f in a.fields :: f.name != "" && f.name[0] != 'c'
    requires forall f | f in b.fields :: f.name != "" && f.name[0] == 'c'
    ensures DisjointFields(reg)
  {
    FieldsIndexed(a.fields);
    FieldsIndexed(b.fields);
  }

  /** Dotted field names never coincide with undotted legacy names. */
  lemma DotsKeepLegacyApart(reg: Registry, d: Resource)
    requires IndexedFrom(reg, d.name, d)
    requires forall f | f in d.fields :: Dotted(f.name)
    requires forall n | n in d.v1Fields :: !Dotted(n)
    ensures LegacyNamesApart(reg, d.name)
  {
    FieldsIndexed(d.fields);
  }

  lemma OrderLegacyUndotted()
    ensures forall n | n in ORDER_V1_FIELDS :: !Dotted(n)
  {
  }

  lemma CustomerLegacyUndotted()
    ensures forall n | n in CUSTOMER_V1_FIELDS :: !Dotted(n)
  {
  }

  /** The shipped registry is well formed and no field name belongs to both resources. */
  lemma ShippedIsWellFormed()
    ensures WellFormedRegistry(Index(DEFINITION)) && DisjointFields(Index(DEFINITION))
  {
    DefinitionIsWellFormed();
    WellFormedDefinitions(DEFINITION);
    ShippedIndex();
    OrderFields();
    CustomerFields();
    FirstLetterSeparates(Index(DEFINITION), ORDER, CUSTOMER);
  }

  /** In the shipped registry every v1 query with a filter is refused, for both resources. */
  lemma ShippedLegacyApart()
    ensures LegacyNamesApart(Index(DEFINITION), "order") && LegacyNamesApart(Index(DEFINITION), "customer")
  {
    ShippedIndex();
    OrderFields();
    CustomerFields();
    OrderLegacyUndotted();
    CustomerLegacyUndotted();
    DotsKeepLegacyApart(Index(DEFINITION), ORDER);
    DotsKeepLegacyApart(Index(DEFINITION), CUSTOMER);
  }

  lemma ColumnsNamed(reg: Registry, d: Resource)
    requires IndexedFrom(reg, d.name, d) && forall f | f in d.fields :: |f.nativeColumn| > 0
    ensures forall n | n in reg.fieldIndex[d.name] :: reg.fieldIndex[d.name][n].nativeColumn != ""
  {
    FieldsIndexed(d.fields);
  }

  lemma ShippedColumnsNamed()
    ensures var reg := Index(DEFINITION);
            && "order" in reg.fieldIndex && "customer" in reg.fieldIndex
            && (forall n | n in reg.fieldIndex["order"] :: reg.fieldIndex["order"][n].nativeColumn != "")
            && (forall n | n in reg.fieldIndex["customer"] :: reg.fieldIndex["customer"][n].nativeColumn != "")
  {
    ShippedIndex();
    OrderFields();
    CustomerFields();
    ColumnsNamed(Index(DEFINITION), ORDER);
    ColumnsNamed(Index(DEFINITION), CUSTOMER);
  }

  /** The resource is a shipped one, and its table exists with fixed listings. */
  ghost predicate HasTable(db: Database, resource: string) {
    && resource in Index(DEFINITION).resources
    && Index(DEFINITION).resources[resource].tableName in db.tables
    && db.tables[Index(DEFINITION).resources[resource].tableName].Fixed()
  }

  /** That is all the shipped registry asks of a database. */
  lemma ShippedTableReady(db: Database, resource: string)
    requires HasTable(db, resource)
    ensures EndToEnd.TableReady(db, Index(DEFINITION), resource)
  {
    ShippedIsWellFormed();
    ShippedIndex();
    ShippedColumnsNamed();
  }

  // ----- the fields behind the fast path -----

  lemma CreatedAliased()
    ensures Alias("created_at", CUSTOMER_SORT) in CUSTOMER_ALIASES
  {
    assert CUSTOMER_PROFILE_ALIASES[3] == Alias("created_at", CUSTOMER_SORT);
    assert CUSTOMER_PROFILE_ALIASES[3] in CUSTOMER_PROFILE_ALIASES;
  }

  lemma CreatedIsSpelled()
    ensures Spelled("created_at")
  {
  }

  /** A customer's `created_at` is its creation time. */
  lemma CustomerSortName()
    ensures NormalizeField(Index(DEFINITION), "customer", "created_at") == CUSTOMER_SORT
  {
    ShippedIndex();
    CustomerAliases();
    CreatedAliased();
    CreatedIsSpelled();
    SpelledIsStable("created_at");
    UniqueTarget(Index(DEFINITION), CUSTOMER, "created_at", CUSTOMER_SORT);
  }

  /** An input all of whose aliases agree is normalised to what they agree on. */
  lemma UniqueTarget(reg: Registry, d: Resource, input: string, target: string)
    requires IndexedFrom(reg, d.name, d) && Alias(input, target) in d.aliases
    requires ToLower(input) == input && TrimSpace(input) == input
    requires forall a | a in d.aliases && |a.input| == |input| && ToLower(a.input) == input :: a.resolves == target
    ensures NormalizeField(reg, d.name, input) == target
  {
    AliasesIndexed(d.aliases);
    var a :| a in d.aliases && ToLower(a.input) == input && a.resolves == reg.aliasIndex[d.name][input];
  }

  /** A field all of whose namesakes have these scopes is closed to the default intent unless they say otherwise. */
  lemma ClosedField(reg: Registry, d: Resource, name: string, scopes: seq<string>)
    requires IndexedFrom(reg, d.name, d)
    requires forall f | f in d.fields && f.name == name :: f.intentScopes == scopes
    requires INTENT_DEFAULT !in scopes
    ensures !reg.IsFieldAllowed(d.name, INTENT_DEFAULT, name)
  {
    FieldsIndexed(d.fields);
  }

  lemma TrackingDeclared()
    ensures HasName(ORDER_FIELDS, TRACKING)
  {
    FivePartsOf(ORDER_CORE_FIELDS, ORDER_TERMS_FIELDS, ORDER_PROGRESS_FIELDS, ORDER_RETURNS_FIELDS, ORDER_LEGACY_FIELDS);
    assert ORDER_PROGRESS_FIELDS[1] in ORDER_PROGRESS_FIELDS && ORDER_PROGRESS_FIELDS[1].name == TRACKING;
  }

  lemma StateDeclared()
    ensures HasName(ORDER_FIELDS, Guardrail.STATE)
  {
    FivePartsOf(ORDER_CORE_FIELDS, ORDER_TERMS_FIELDS, ORDER_PROGRESS_FIELDS, ORDER_RETURNS_FIELDS, ORDER_LEGACY_FIELDS);
    assert ORDER_PROGRESS_FIELDS[0] in ORDER_PROGRESS_FIELDS && ORDER_PROGRESS_FIELDS[0].name == Guardrail.STATE;
  }

  lemma ScopeIsNotDefault()
    ensures INTENT_DEFAULT !in ["wismo"] && INTENT_DEFAULT !in ["crm_profile"]
  {
  }

  lemma CustomerSortScope()
    ensures forall f | f in CUSTOMER_FIELDS && f.name == CUSTOMER_SORT :: f.intentScopes == ["crm_profile"]
  {
    CustomerFields();
    assert LikeCreated(CUSTOMER_SORT);
  }

  lemma TrackingScope()
    ensures forall f | f in ORDER_FIELDS && f.name == TRACKING :: f.intentScopes == ["wismo"]
  {
    OrderFields();
    assert LikeTracking(TRACKING);
  }

  lemma TrackingName()
    ensures NormalizeField(Index(DEFINITION), "order", TRACKING) == TRACKING
  {
    ShippedIndex();
    OrderWellFormed();
    TrackingDeclared();
    CanonicalNameStable(Index(DEFINITION), "order", ORDER, TRACKING);
  }

  /** A customer's creation time is reserved to the profile intent, so its sort is closed by default. */
  lemma CustomerSortIsClosed()
    ensures !OpenByDefault(Index(DEFINITION), "customer", "created_at")
  {
    ShippedIndex();
    CustomerSortName();
    CustomerSortScope();
    ScopeIsNotDefault();
    ClosedField(Index(DEFINITION), CUSTOMER, CUSTOMER_SORT, ["crm_profile"]);
  }

  /** Tracking numbers are reserved to the order-status intent. */
  lemma TrackingIsClosed()
    ensures !OpenByDefault(Index(DEFINITION), "order", TRACKING)
  {
    ShippedIndex();
    TrackingName();
    TrackingScope();
    ScopeIsNotDefault();
    ClosedField(Index(DEFINITION), ORDER, TRACKING, ["wismo"]);
  }

  /** No customer lookup of the fast path can succeed, under any contract version. */
  lemma CustomerGroupsFail(db: Database, evaluate: Evaluator, tenant: string, version: string,
                           field: string, op: string, value: string)
    ensures SearchService.SearchOutcome(db, Index(DEFINITION), evaluate, tenant, "customer",
                                        GroupQuery(version, field, op, value)).Err?
  {
    ShippedIsWellFormed();
    ShippedLegacyApart();
    CustomerSortName();
    CustomerSortIsClosed();
    GroupPassesIff(Index(DEFINITION), "customer", version, field, op, value);
    RefusedFails(db, Index(DEFINITION), evaluate, tenant, "customer", GroupQuery(version, field, op, value));
  }

  lemma RefusedFails(db: Database, reg: Registry, evaluate: Evaluator, tenant: string, resource: string, q: QueryDSL)
    requires Refused(reg, resource, q)
    ensures SearchService.SearchOutcome(db, reg, evaluate, tenant, resource, q).Err?
  {
  }

  /** Nor can a lookup by tracking number. */
  lemma TrackingGroupsFail(db: Database, evaluate: Evaluator, tenant: string, version: string, op: string, value: string)
    ensures SearchService.SearchOutcome(db, Index(DEFINITION), evaluate, tenant, "order",
                                        GroupQuery(version, TRACKING, op, value)).Err?
  {
    ShippedIsWellFormed();
    ShippedLegacyApart();
    OrderSortNamed();
    TrackingIsClosed();
    GroupPassesIff(Index(DEFINITION), "order", version, TRACKING, op, value);
    RefusedFails(db, Index(DEFINITION), evaluate, tenant, "order", GroupQuery(version, TRACKING, op, value));
  }

  lemma OrderSortNamed()
    ensures NormalizeField(Index(DEFINITION), "order", "created_at") != ""
  {
    ShippedIndex();
    OrderAliases();
    OrderNames();
    CreatedIsSpelled();
    SpelledIsStable("created_at");
    NormalizedIsNamed(Index(DEFINITION), ORDER, "created_at");
  }

  lemma NormalizedIsNamed(reg: Registry, d: Resource, input: string)
    requires IndexedFrom(reg, d.name, d) && input != "" && ToLower(input) == input && TrimSpace(input) == input
    requires forall f | f in d.fields :: f.name != ""
    requires forall a | a in d.aliases :: HasName(d.fields, a.resolves)
    ensures NormalizeField(reg, d.name, input) != ""
  {
    AliasesIndexed(d.aliases);
  }

  // ----- the guardrail over the shipped registry -----

  lemma RoleNamesElsewhere()
    ensures forall i | 0 <= i < |ORDER_ROLES| :: |ORDER_ROLES[i].role| <= 26 || ORDER_ROLES[i].role[26] != '.'
    ensures forall i | 0 <= i < |CUSTOMER_ROLES| :: |CUSTOMER_ROLES[i].role| <= 26 || CUSTOMER_ROLES[i].role[26] != '.'
  {
  }

  lemma SingleDot(role: string)
    requires |role| <= 26 || role[26] != '.'
    ensures !FiledUnder(role, Guardrail.DENY_PREFIX)
  {
    assert |Guardrail.DENY_PREFIX| == 26 && (Guardrail.DENY_PREFIX + ".")[26] == '.';
  }

  lemma RolesFiledElsewhere()
    ensures forall d, e | d in DEFINITION && e in d.enumRoles :: !FiledUnder(e.role, Guardrail.DENY_PREFIX)
  {
    RoleNamesElsewhere();
    forall e | e in ORDER_ROLES || e in CUSTOMER_ROLES
      ensures !FiledUnder(e.role, Guardrail.DENY_PREFIX)
    {
      SingleDot(e.role);
    }
  }

  /** The guardrail's conditions hold of the shipped registry, and its state filter has a column. */
  lemma ShippedGuardReady()
    ensures Guardrail.GuardReady(Index(DEFINITION))
    ensures Index(DEFINITION).GetNativeColumn("order", Guardrail.STATE).Some?
  {
    RolesFiledElsewhere();
    Guardrail.DenyListIsBuiltInIff(DEFINITION);
    ShippedIsWellFormed();
    ShippedIndex();
    StateName();
    StateDeclared();
    FieldsIndexed(ORDER_FIELDS);
  }

  lemma StateName()
    ensures NormalizeField(Index(DEFINITION), "order", Guardrail.STATE) == Guardrail.STATE
  {
    ShippedIndex();
    OrderWellFormed();
    StateDeclared();
    CanonicalNameStable(Index(DEFINITION), "order", ORDER, Guardrail.STATE);
  }

  // ----- merging over the shipped registry -----

  lemma SpelledIsBarFree(s: string)
    requires Spelled(s)
    ensures '|' !in s
  {
  }

  lemma SpelledNamesAreBarFree(reg: Registry, d: Resource)
    requires IndexedFrom(reg, d.name, d)
    requires forall f | f in d.fields :: Spelled(f.name)
    requires forall a | a in d.aliases :: Spelled(a.input)
    ensures QueryMerge.BarFreeNames(reg, d.name)
  {
    FieldsIndexed(d.fields);
    AliasesIndexed(d.aliases);
    forall n | n in reg.fieldIndex[d.name]
      ensures '|' !in n
    {
      SpelledIsBarFree(reg.fieldIndex[d.name][n].name);
    }
    forall k | k in reg.aliasIndex[d.name]
      ensures '|' !in k
    {
      var a :| a in d.aliases && ToLower(a.input) == k;
      SpelledIsStable(a.input);
      SpelledIsBarFree(a.input);
    }
  }

  /** No name of the shipped registry holds a bar, so filter keys of clean results never collide. */
  lemma ShippedNamesAreBarFree()
    ensures QueryMerge.BarFreeNames(Index(DEFINITION), "order") && QueryMerge.BarFreeNames(Index(DEFINITION), "customer")
  {
    ShippedIndex();
    OrderNames();
    OrderInputs();
    CustomerNames();
    CustomerInputs();
    SpelledNamesAreBarFree(Index(DEFINITION), ORDER);
    SpelledNamesAreBarFree(Index(DEFINITION), CUSTOMER);
  }

  // ----- the rewrite router's last resort over the shipped registry -----

  /**
    What the rule provider answers to a message with a customer hint and no cue:
    the default intent, no filter, newest customers first.
    */
  function CustomerAnswer(confidence: real): Analysis {
    Analysis(QueryDSL(V2, INTENT_DEFAULT, [], Sort(CUSTOMER_SORT, "desc"), Page(20, "")),
             INTENT_DEFAULT, "customer", confidence)
  }

  lemma CustomerSortStands()
    ensures NormalizeField(Index(DEFINITION), "customer", CUSTOMER_SORT) == CUSTOMER_SORT
  {
    ShippedIndex();
    CustomerWellFormed();
    CustomerSortDeclared();
    CanonicalNameStable(Index(DEFINITION), "customer", CUSTOMER, CUSTOMER_SORT);
  }

  lemma CustomerSortRefused()
    ensures ValidateField(Index(DEFINITION), "customer", V2, INTENT_DEFAULT, CUSTOMER_SORT).Some?
  {
    CustomerSortName();
    CustomerSortIsClosed();
    CustomerSortStands();
  }

  /** It is unclean, refused by the router's validator, and refused again by the service. */
  lemma CustomerAnswerIsRefused(confidence: real)
    ensures !Clean(Index(DEFINITION), CustomerAnswer(confidence))
    ensures RewriteRouter.RemoteValidator(Index(DEFINITION), V2).errors(CustomerAnswer(confidence)) != []
    ensures Refused(Index(DEFINITION), "customer", CustomerAnswer(confidence).query)
  {
    CustomerSortRefused();
    CustomerSortStands();
    ClosedSortIsRefused(Index(DEFINITION), CustomerAnswer(confidence));
  }

  /** A complete v2 answer that sorts by a canonical name closed to its intent is refused everywhere. */
  lemma ClosedSortIsRefused(reg: Registry, a: Analysis)
    requires a.query.contractVersion == V2 && a.query.page.limit > 0 && a.query.filters == []
    requires a.intentCategory != "" && a.query.intentCategory == a.intentCategory
    requires a.query.sort.field != "" && NormalizeField(reg, a.resourceType, a.query.sort.field) == a.query.sort.field
    requires ValidateField(reg, a.resourceType, V2, a.intentCategory, a.query.sort.field).Some?
    ensures !Clean(reg, a) && RewriteRouter.RemoteValidator(reg, V2).errors(a) != []
    ensures Refused(reg, a.resourceType, a.query)
  {
    assert Complete(a, V2) == a;
    NoComplaintsIffClean(reg, a, V2);
    var n := Normalize(reg, a.resourceType, a.query);
    assert n.filters == [] && n.sort.field == a.query.sort.field;
  }

  /**
    So under every configuration and chain the router serves it, although the
    service will not run its query, once the other providers fail.
    */
  lemma CustomerAnswerIsServed(c: RewriteRouter.Config, known: set<string>, chain: seq<string>, confidence: real)
    returns (ps: RewriteRouter.Providers, r: RewriteRouter.Outcome)
    requires RewriteRouter.RULE in known
    ensures ps.known == known
    ensures forall id, k :: ps.calls(id, k) == if id == RewriteRouter.RULE then Some(CustomerAnswer(confidence)) else None
    ensures RewriteRouter.IsOutcome(RewriteRouter.RemoteValidator(Index(DEFINITION), V2), c, ps, chain, r)
    ensures r.Served? && r.result == CustomerAnswer(confidence)
    ensures !Clean(Index(DEFINITION), r.result) && Refused(Index(DEFINITION), "customer", r.result.query)
  {
    CustomerAnswerIsRefused(confidence);
    ps, r := RewriteRouter.RefusedThenServed(RewriteRouter.RemoteValidator(Index(DEFINITION), V2), c, known, chain,
                                             CustomerAnswer(confidence));
  }

  // ----- the service over the shipped registry -----

  /** For both shipped resources, page limits of 500 and more are exactly those that never lose a permitted row. */
  lemma ShippedLimitsIff(resource: string, limit: int)
    requires resource == "order" || resource == "customer"
    ensures Truncation.NeverLoses(Index(DEFINITION), resource, limit) <==> limit >= MAX_CANDIDATE_WINDOW
  {
    ShippedSorts(resource);
    Truncation.NeverLosesIff(Index(DEFINITION), resource, limit);
  }

  /** The service's promise, for the shipped definition: nothing is assumed of the registry. */
  lemma ShippedWalkShowsExactlyThePermitted(db: Database, subject: Policy.Subject, grants: set<string>,
                                            rules: seq<Policy.Rule>, resource: string, q: QueryDSL)
    requires HasTable(db, resource) && EndToEnd.Accepted(Index(DEFINITION), resource, q)
    requires q.page.limit >= MAX_CANDIDATE_WINDOW && forall f | f in q.filters :: EndToEnd.FilterBinds(f)
    requires |SqliteAdapter.Matching(db, Index(DEFINITION), subject.tenantID, resource,
                                     Normalize(Index(DEFINITION), resource, q))| <= MAX_INT
    ensures var reg, judge := Index(DEFINITION), PolicyWalk.Judge(subject, grants, rules);
            var rows := SqliteAdapter.Candidates(SqliteAdapter.Matching(db, reg, subject.tenantID, resource, Normalize(reg, resource, q)));
            var pager := ServiceWalk.ServicePager(db, reg, judge, subject.tenantID, resource, q);
            && (exists rs :: ServiceWalk.IsServiceWalk(pager, "", rs))
            && forall rs | ServiceWalk.IsServiceWalk(pager, "", rs) ::
                 && ServiceWalk.Shown(rs) == Docs(Select(rows, (c: Candidate) => Policy.Decide(subject, c.doc, grants, rules).allowed))
                 && |ServiceWalk.Shown(rs)| + ServiceWalk.HiddenTotal(rs) == |rows|
  {
    ShippedIsWellFormed();
    ShippedTableReady(db, resource);
    EndToEnd.WalkShowsExactlyThePermitted(db, Index(DEFINITION), subject, grants, rules, resource, q);
  }

  lemma ShippedSorts(resource: string)
    requires resource == "order" || resource == "customer"
    ensures resource in Index(DEFINITION).resources
    ensures SqliteAdapter.SortColumn(Index(DEFINITION), resource, "") != ""
  {
    ShippedIsWellFormed();
    ShippedColumnsNamed();
    ShippedIndex();
    SortIsOwnColumn(Index(DEFINITION), resource, "");
  }

  /** The promise is about something: a table of any size and a query for all of it meet every condition. */
  lemma PromiseApplies(resource: string, tenant: string, n: nat)
    requires resource == "order" || resource == "customer"
    requires n <= MAX_INT
    ensures var reg, q := Index(DEFINITION), Truncation.AskAll(MAX_CANDIDATE_WINDOW);
            && resource in reg.resources
            && var db := Truncation.NumberedDb(reg.resources[resource].tableName, tenant, n);
               && HasTable(db, resource) && EndToEnd.Accepted(reg, resource, q)
               && (forall f | f in q.filters :: EndToEnd.FilterBinds(f))
               && SqliteAdapter.Matching(db, reg, tenant, resource, Normalize(reg, resource, q)) == Truncation.NumberedRows(tenant, n)
  {
    var reg := Index(DEFINITION);
    ShippedSorts(resource);
    Truncation.AskAllNormalized(reg, resource, MAX_CANDIDATE_WINDOW);
    Truncation.AllNumberedMatch(reg, resource, tenant, n, MAX_CANDIDATE_WINDOW);
  }

  // ----- a whole plan -----

  datatype GroupSpec = GroupSpec(resource: string, field: string, op: string, value: string)

  function GroupResult(g: GroupSpec, r: Result<Response>): Result<FastPath.Group> {
    match r
    case Err(e) => Err(e)
    case Ok(resp) => Ok(FastPath.Group(g.resource, g.field, resp.authorizedCount, resp.hiddenCount))
  }

  /** What each goroutine of a plan will send. */
  function PlanResults(db: Database, reg: Registry, evaluate: Evaluator, tenant: string, version: string, plan: seq<GroupSpec>): seq<Result<FastPath.Group>> {
    seq(|plan|, i requires 0 <= i < |plan| =>
      GroupResult(plan[i], SearchService.SearchOutcome(db, reg, evaluate, tenant, plan[i].resource,
                                                       GroupQuery(version, plan[i].field, plan[i].op, plan[i].value))))
  }

  /** The group looks up a customer, or an order by its tracking number. */
  predicate Doomed(g: GroupSpec) {
    g.resource == "customer" || (g.resource == "order" && g.field == TRACKING)
  }

  /** Under the shipped schema, one doomed group makes the whole fast path fail, whatever the schedule. */
  lemma DoomedGroupSinksPlan(db: Database, evaluate: Evaluator, tenant: string, version: string, plan: seq<GroupSpec>, i: nat, acts: seq<FastPath.Action>)
    requires i < |plan| && Doomed(plan[i])
    requires var results := PlanResults(db, Index(DEFINITION), evaluate, tenant, version, plan);
             && FastPath.CanRun(FastPath.Init(results), acts, results)
             && FastPath.After(FastPath.Init(results), acts, results).main.Returned?
    ensures var results := PlanResults(db, Index(DEFINITION), evaluate, tenant, version, plan);
            FastPath.After(FastPath.Init(results), acts, results).main.outcome.Err?
  {
    var results := PlanResults(db, Index(DEFINITION), evaluate, tenant, version, plan);
    if plan[i].resource == "customer" {
      CustomerGroupsFail(db, evaluate, tenant, version, plan[i].field, plan[i].op, plan[i].value);
    } else {
      TrackingGroupsFail(db, evaluate, tenant, version, plan[i].op, plan[i].value);
    }
    assert results[i] in results && results[i].Err?;
    FastPath.OutcomeIsScheduleFree(results, acts);
  }
}
