/**
  Across the layers: what a provider's validation, the service's validation and
  the adapter's compiler promise each other about one query.
  */
module Acceptance {
  import opened Text
  import opened Store
  import opened Schema
  import opened Contracts
  import opened Sql
  import opened SqliteAdapter
  import opened SearchService
  import opened RemoteValidation

  /** The operator is known, and an `in` carries a non-empty list. */
  ghost predicate OperatorFits(f: Filter) {
    var op := ToLower(f.op);
    if op == "in" then f.value.List? && f.value.items != [] else ComparisonOf(op).Some? || op == "like"
  }

  /** A validated v2 field name is a filterable field of its resource. */
  lemma ValidatedFieldIsFilterable(reg: Registry, resource: string, intent: string, field: string)
    requires WellFormedRegistry(reg)
    requires ValidateField(reg, resource, V2, intent, field).None? && NormalizeField(reg, resource, field) == field
    ensures resource in reg.resources && reg.FieldOf(resource, field).Some?
    ensures field in reg.Filterable(resource) && reg.NativeColumnForField(field).Some?
  {
    var scopes := reg.fieldIndex[resource][field].intentScopes;
    assert scopes != [];
    FilterColumnIsOwn(reg, resource, field);
  }

  /** Whatever compiles names only fields of the resource that its definition opens to filtering. */
  lemma CompiledFieldsAreFilterable(reg: Registry, resource: string, filters: seq<Filter>)
    requires Compile(reg, reg.Filterable(resource), filters).Ok?
    ensures forall f | f in filters :: reg.FieldOf(resource, f.field).Some? && reg.FieldOf(resource, f.field).value.filterable
  {
    CompileFailsIff(reg, reg.Filterable(resource), filters);
    forall f | f in filters
      ensures f.field in reg.Filterable(resource)
    {
      if f.field !in reg.Filterable(resource) {
        assert Inexpressible(reg, reg.Filterable(resource), f, UnsupportedField(f.field));
      }
    }
  }

  /** Normalising a whole query twice changes nothing more. */
  lemma NormalizeQueryIdempotent(reg: Registry, resource: string, q: QueryDSL)
    requires WellFormedRegistry(reg)
    ensures Normalize(reg, resource, Normalize(reg, resource, q)) == Normalize(reg, resource, q)
  {
    NormalizeIdempotentIff(reg, resource);
    var n := Normalize(reg, resource, q);
    if n.contractVersion == V2 {
      assert NormalizeFilters(reg, resource, n.filters) == n.filters;
    }
  }

  /** Over known fields, only operators and `in` values can stop the compiler. */
  lemma KnownFieldsCompileIff(reg: Registry, allowed: set<string>, filters: seq<Filter>)
    requires forall f | f in filters :: f.field in allowed && reg.NativeColumnForField(f.field).Some?
    ensures var r := Compile(reg, allowed, filters);
            && (r.Ok? <==> forall f | f in filters :: OperatorFits(f))
            && (r.Err? ==> r.error.UnsupportedOperator? || r.error.InvalidInValue?)
  {
    CompileFailsIff(reg, allowed, filters);
    forall f | f in filters
      ensures OperatorFits(f) <==> forall e :: !Inexpressible(reg, allowed, f, e)
    {
      InexpressibleIff(reg, allowed, f);
    }
  }

  lemma ValidatedFiltersAreKnown(reg: Registry, resource: string, q: QueryDSL)
    requires WellFormedRegistry(reg) && VersionOf(q) == V2
    requires Validation(reg, resource, Normalize(reg, resource, q)).None?
    ensures forall f | f in Normalize(reg, resource, q).filters ::
              f.field in reg.Filterable(resource) && reg.NativeColumnForField(f.field).Some?
  {
    var n := Normalize(reg, resource, q);
    NoRefusalIff(reg, resource, V2, n.intentCategory, n.filters);
    forall f | f in n.filters
      ensures f.field in reg.Filterable(resource) && reg.NativeColumnForField(f.field).Some?
    {
      var i :| 0 <= i < |n.filters| && n.filters[i] == f;
      NormalizeIdempotentIff(reg, resource);
      assert f.field == NormalizeField(reg, resource, q.filters[i].field);
      ValidatedFieldIsFilterable(reg, resource, n.intentCategory, f.field);
    }
  }

  /**
    A v2 query that passes the service's validation reaches the compiler with
    nothing left to refuse but operators and `in` values: it compiles exactly
    when those fit.
    */
  lemma ValidatedQueryCompilesIff(reg: Registry, resource: string, q: QueryDSL)
    requires WellFormedRegistry(reg) && VersionOf(q) == V2
    requires Validation(reg, resource, Normalize(reg, resource, q)).None?
    ensures var r := Compile(reg, reg.Filterable(resource), Normalize(reg, resource, q).filters);
            && (r.Ok? <==> forall f | f in q.filters :: OperatorFits(f))
            && (r.Err? ==> r.error.UnsupportedOperator? || r.error.InvalidInValue?)
  {
    ValidatedFiltersAreKnown(reg, resource, q);
    KnownFieldsCompileIff(reg, reg.Filterable(resource), Normalize(reg, resource, q).filters);
    FitsAfterNormalize(reg, resource, q.filters);
  }

  lemma InexpressibleIff(reg: Registry, allowed: set<string>, f: Filter)
    requires f.field in allowed && reg.NativeColumnForField(f.field).Some?
    ensures OperatorFits(f) <==> forall e :: !Inexpressible(reg, allowed, f, e)
  {
    if !OperatorFits(f) {
      var e := if ToLower(f.op) == "in" then InvalidInValue(f.field) else UnsupportedOperator(f.op);
      assert Inexpressible(reg, allowed, f, e);
    }
  }

  lemma FitsAfterNormalize(reg: Registry, resource: string, filters: seq<Filter>)
    ensures (forall f | f in NormalizeFilters(reg, resource, filters) :: OperatorFits(f))
            <==> forall f | f in filters :: OperatorFits(f)
  {
    var n := NormalizeFilters(reg, resource, filters);
    assert forall i | 0 <= i < |filters| :: OperatorFits(n[i]) <==> OperatorFits(filters[i]);
    assert forall i | 0 <= i < |filters| :: n[i] in n && filters[i] in filters;
  }

  /** Whatever sort field is asked for, the rows are ordered by a column of their own resource. */
  lemma SortIsOwnColumn(reg: Registry, resource: string, field: string)
    requires WellFormedRegistry(reg) && resource in reg.resources
    ensures exists f :: reg.GetNativeColumn(resource, f) == Some(SortColumn(reg, resource, field))
    ensures field in reg.Sortable(resource) ==> reg.GetNativeColumn(resource, field) == Some(SortColumn(reg, resource, field))
                                                || field == ""
  {
    var d := DefaultSortField(reg, resource);
    assert reg.GetNativeColumn(resource, d).Some?;
    var wanted := if field == "" then d else field;
    var chosen := if wanted in reg.Sortable(resource) then wanted else d;
    assert reg.GetNativeColumn(resource, chosen) == Some(SortColumn(reg, resource, field));
  }

  /** A clean provider result passes the service's validation. */
  lemma CleanResultPassesService(reg: Registry, out: Analysis)
    requires WellFormedRegistry(reg)
    requires out.query.contractVersion == V2 && Clean(reg, out)
    ensures Validation(reg, out.resourceType, Normalize(reg, out.resourceType, out.query)).None?
  {
    var r := out.resourceType;
    var n := Normalize(reg, r, out.query);
    forall f | f in n.filters
      ensures ValidateField(reg, r, V2, n.intentCategory, f.field).None?
    {
      var i :| 0 <= i < |n.filters| && n.filters[i] == f;
      assert out.query.filters[i] in out.query.filters;
      ValidateSeesThroughNormalize(reg, r, n.intentCategory, out.query.filters[i].field);
    }
    NoRefusalIff(reg, r, V2, n.intentCategory, n.filters);
    ValidateSeesThroughNormalize(reg, r, n.intentCategory, out.query.sort.field);
  }

  /** Known operators are the ones the compiler knows. */
  lemma ValidOpsCompile(op: string)
    ensures ValidOp(op) <==> op == "in" || op == "like" || ComparisonOf(op).Some?
  {
  }

  /**
    From provider to store: a clean v2 result is refused by the compiler exactly
    when one of its `in` filters carries something other than a non-empty list.
    */
  lemma CleanResultCompilesIff(reg: Registry, out: Analysis)
    requires WellFormedRegistry(reg)
    requires out.query.contractVersion == V2 && Clean(reg, out)
    ensures var n := Normalize(reg, out.resourceType, out.query);
            Compile(reg, reg.Filterable(out.resourceType), n.filters).Ok?
            <==> forall f | f in out.query.filters && ToLower(f.op) == "in" :: f.value.List? && f.value.items != []
  {
    CleanResultPassesService(reg, out);
    ValidatedQueryCompilesIff(reg, out.resourceType, out.query);
    forall f | f in out.query.filters
      ensures OperatorFits(f) <==> (ToLower(f.op) == "in" ==> f.value.List? && f.value.items != [])
    {
      ValidOpsCompile(ToLower(f.op));
    }
  }

  // ----- the legacy contract -----

  /** No legacy name of the resource is also the canonical name of a field open to filtering. */
  ghost predicate LegacyNamesApart(reg: Registry, resource: string) {
    reg.GetV1SearchableFields(resource) !! reg.Filterable(resource)
  }

  /** The service or the compiler turns the query down. */
  ghost predicate Refused(reg: Registry, resource: string, q: QueryDSL) {
    var n := Normalize(reg, resource, q);
    Validation(reg, resource, n).Some? || Compile(reg, reg.Filterable(resource), n.filters).Err?
  }

  /**
    Legacy filters are validated under their legacy names and never renamed.
    One is let through exactly when its name is a legacy name and, by
    coincidence, also that of a filterable field.
    */
  lemma LegacyQueryPassesIff(reg: Registry, resource: string, q: QueryDSL)
    requires reg.Consistent() && q.contractVersion == V1
    ensures !Refused(reg, resource, q)
            <==> && (forall f | f in q.filters ::
                       && f.field in reg.GetV1SearchableFields(resource) && f.field in reg.Filterable(resource)
                       && OperatorFits(f))
                 && (q.sort.field == "" || q.sort.field in reg.GetV1SearchableFields(resource))
  {
    var n := Normalize(reg, resource, q);
    assert n.filters == q.filters;
    NoRefusalIff(reg, resource, V1, n.intentCategory, q.filters);
    CompileFailsIff(reg, reg.Filterable(resource), q.filters);
    forall f | f in q.filters
      ensures (forall e :: !Inexpressible(reg, reg.Filterable(resource), f, e))
              <==> f.field in reg.Filterable(resource) && OperatorFits(f)
    {
      ExpressibleIff(reg, resource, f);
    }
  }

  lemma ExpressibleIff(reg: Registry, resource: string, f: Filter)
    requires reg.Consistent()
    ensures (forall e :: !Inexpressible(reg, reg.Filterable(resource), f, e))
            <==> f.field in reg.Filterable(resource) && OperatorFits(f)
  {
    if f.field in reg.Filterable(resource) {
      FilterColumnIsOwn(reg, resource, f.field);
      InexpressibleIff(reg, reg.Filterable(resource), f);
    } else {
      assert Inexpressible(reg, reg.Filterable(resource), f, UnsupportedField(f.field));
    }
  }

  /** Every v1 query with a filter is refused exactly when legacy and filterable names stay apart. */
  lemma LegacyRefusedIff(reg: Registry, resource: string)
    requires reg.Consistent()
    ensures (forall q: QueryDSL | q.contractVersion == V1 && q.filters != [] :: Refused(reg, resource, q))
            <==> LegacyNamesApart(reg, resource)
  {
    if LegacyNamesApart(reg, resource) {
      forall q: QueryDSL | q.contractVersion == V1 && q.filters != []
        ensures Refused(reg, resource, q)
      {
        LegacyFilterRefused(reg, resource, q);
      }
    } else {
      var name :| name in reg.GetV1SearchableFields(resource) && name in reg.Filterable(resource);
      var q := QueryDSL(V1, "", [Filter(name, "eq", Str(""))], Sort("", ""), Page(0, ""));
      assert ToLower("eq") == "eq";
      LegacyQueryPassesIff(reg, resource, q);
    }
  }

  lemma LegacyFilterRefused(reg: Registry, resource: string, q: QueryDSL)
    requires q.contractVersion == V1 && q.filters != [] && LegacyNamesApart(reg, resource)
    ensures Refused(reg, resource, q)
    ensures Validation(reg, resource, Normalize(reg, resource, q)).None? ==>
              && resource in reg.resources
              && Compile(reg, reg.Filterable(resource), q.filters) == Err(UnsupportedField(q.filters[0].field))
  {
    var n := Normalize(reg, resource, q);
    assert n.filters == q.filters;
    NoRefusalIff(reg, resource, V1, n.intentCategory, q.filters);
    assert q.filters[0] in q.filters;
  }

  /** So the service answers no such query. */
  lemma LegacyFiltersAreRefused(db: Database, reg: Registry, evaluate: Evaluator, tenant: string, resource: string, q: QueryDSL)
    requires q.contractVersion == V1 && q.filters != [] && LegacyNamesApart(reg, resource)
    ensures SearchService.SearchOutcome(db, reg, evaluate, tenant, resource, q).Err?
    ensures Validation(reg, resource, Normalize(reg, resource, q)).None? ==>
              SearchService.SearchOutcome(db, reg, evaluate, tenant, resource, q) == Err(UnsupportedField(q.filters[0].field))
  {
    LegacyFilterRefused(reg, resource, q);
  }
}
