/**
  Merging the queries of two rewrite stages. The second stage overrides the
  scalars, intent included, while the filters of both are kept; so a filter may
  end up under an intent it was never validated for.
  */
module QueryMerge {
  import opened Store
  import opened Schema
  import opened Contracts
  import opened SearchService
  import opened FilterMerge
  import opened RemoteValidation
  import opened Text

  /** The merged query: the second stage's scalars where it sets them, the filters of both. */
  ghost function MergedQuery(enc: Encoding, p: QueryDSL, s: QueryDSL): QueryDSL {
    QueryDSL(
      if s.contractVersion != "" then s.contractVersion else p.contractVersion,
      if s.intentCategory != "" then s.intentCategory else p.intentCategory,
      Merged(enc, p.filters, s.filters),
      if s.sort.field != "" then s.sort else p.sort,
      if s.page.limit > 0 then s.page else p.page)
  }

  method MergeQueryDSL(enc: Encoding, primary: QueryDSL, secondary: QueryDSL) returns (out: QueryDSL)
    ensures out == MergedQuery(enc, primary, secondary)
  {
    out := primary;
    if secondary.contractVersion != "" {
      out := out.(contractVersion := secondary.contractVersion);
    }
    if secondary.intentCategory != "" {
      out := out.(intentCategory := secondary.intentCategory);
    }
    if secondary.sort.field != "" {
      out := out.(sort := secondary.sort);
    }
    if secondary.page.limit > 0 {
      out := out.(page := secondary.page);
    }
    var filters := MergeFilters(enc, primary.filters, secondary.filters);
    out := out.(filters := filters);
  }

  /**
    What the second stage leaves unset the first one decides, scalar by scalar,
    and a page counts as unset when its limit is not positive.
    */
  lemma MergedScalars(enc: Encoding, p: QueryDSL, s: QueryDSL)
    ensures var m := MergedQuery(enc, p, s);
            && (s.page.limit <= 0 ==> m.page == p.page) && (s.page.limit > 0 ==> m.page == s.page)
            && (s.sort.field == "" ==> m.sort == p.sort) && (s.sort.field != "" ==> m.sort == s.sort)
            && (s.contractVersion == "" ==> m.contractVersion == p.contractVersion)
            && (s.intentCategory == "" ==> m.intentCategory == p.intentCategory)
            && (s.contractVersion != "" ==> m.contractVersion == s.contractVersion)
            && (s.intentCategory != "" ==> m.intentCategory == s.intentCategory)
  {
  }

  /** The service's validation accepts the query. */
  ghost predicate Valid(reg: Registry, resource: string, q: QueryDSL) {
    Validation(reg, resource, Normalize(reg, resource, q)).None?
  }

  function IntentOf(q: QueryDSL): string {
    if q.intentCategory == "" then INTENT_DEFAULT else q.intentCategory
  }

  /** The field may be used under the intent. */
  ghost predicate Open(reg: Registry, resource: string, intent: string, field: string) {
    ValidateField(reg, resource, V2, intent, field).None?
  }

  /** A sort field that normalises away is no sort field. */
  ghost predicate SortOpen(reg: Registry, resource: string, intent: string, sort: Sort) {
    sort.field == "" || NormalizeField(reg, resource, sort.field) == "" || Open(reg, resource, intent, sort.field)
  }

  /** Validity of a v2 query, read off the names as they were written. */
  lemma ValidIff(reg: Registry, resource: string, q: QueryDSL)
    requires WellFormedRegistry(reg) && VersionOf(q) == V2
    ensures Valid(reg, resource, q)
            <==> && (forall f | f in q.filters :: Open(reg, resource, IntentOf(q), f.field))
                 && SortOpen(reg, resource, IntentOf(q), q.sort)
  {
    var n := Normalize(reg, resource, q);
    NoRefusalIff(reg, resource, V2, IntentOf(q), n.filters);
    ValidateSeesThroughNormalize(reg, resource, IntentOf(q), q.sort.field);
    FiltersOpenIff(reg, resource, IntentOf(q), q.filters);
    assert n.filters == NormalizeFilters(reg, resource, q.filters);
    assert FirstRefusal(reg, resource, V2, IntentOf(q), n.filters).None?
           <==> forall f | f in q.filters :: Open(reg, resource, IntentOf(q), f.field);
  }

  lemma FiltersOpenIff(reg: Registry, resource: string, intent: string, filters: seq<Filter>)
    requires WellFormedRegistry(reg)
    ensures (forall f | f in NormalizeFilters(reg, resource, filters) :: Open(reg, resource, intent, f.field))
            <==> forall f | f in filters :: Open(reg, resource, intent, f.field)
  {
    var n := NormalizeFilters(reg, resource, filters);
    forall i | 0 <= i < |filters|
      ensures Open(reg, resource, intent, n[i].field) <==> Open(reg, resource, intent, filters[i].field)
      ensures n[i] in n && filters[i] in filters
    {
      ValidateSeesThroughNormalize(reg, resource, intent, filters[i].field);
    }
  }

  /** What is open to the default intent is open to every intent. */
  lemma DefaultOpensAll(reg: Registry, resource: string, intent: string, field: string)
    requires Open(reg, resource, INTENT_DEFAULT, field)
    ensures Open(reg, resource, intent, field)
  {
  }

  /**
    Of two valid queries, the merged one is valid exactly when the first
    stage's filters, and its sort if that is the one kept, are open to the
    merged intent. The second stage's own fields never stand in the way.
    */
  lemma MergedValidIff(reg: Registry, resource: string, enc: Encoding, p: QueryDSL, s: QueryDSL)
    requires WellFormedRegistry(reg) && VersionOf(p) == V2 && VersionOf(s) == V2
    requires Valid(reg, resource, p) && Valid(reg, resource, s) && KeysSeparate(enc, p.filters + s.filters)
    ensures var m := MergedQuery(enc, p, s);
            Valid(reg, resource, m)
            <==> && (forall f | f in p.filters :: Open(reg, resource, IntentOf(m), f.field))
                 && (s.sort.field == "" ==> SortOpen(reg, resource, IntentOf(m), p.sort))
  {
    var m := MergedQuery(enc, p, s);
    ValidIff(reg, resource, m);
    ValidIff(reg, resource, s);
    MergeKeepsAllIff(enc, p.filters, s.filters);
    forall f | f in s.filters
      ensures Open(reg, resource, IntentOf(m), f.field)
    {
      StaysOpen(reg, resource, p, s, f.field);
    }
    if s.sort.field != "" && NormalizeField(reg, resource, s.sort.field) != "" {
      StaysOpen(reg, resource, p, s, s.sort.field);
    }
    assert forall f :: f in m.filters <==> f in p.filters || f in s.filters;
  }

  lemma StaysOpen(reg: Registry, resource: string, p: QueryDSL, s: QueryDSL, field: string)
    requires Open(reg, resource, IntentOf(s), field)
    ensures Open(reg, resource, if s.intentCategory != "" then s.intentCategory else IntentOf(p), field)
  {
    if s.intentCategory == "" {
      DefaultOpensAll(reg, resource, IntentOf(p), field);
    }
  }

  /** Two valid queries merge into a valid one when the second keeps the intent, or the first asked under the default one. */
  lemma CompatibleIntentsMerge(reg: Registry, resource: string, enc: Encoding, p: QueryDSL, s: QueryDSL)
    requires WellFormedRegistry(reg) && VersionOf(p) == V2 && VersionOf(s) == V2
    requires Valid(reg, resource, p) && Valid(reg, resource, s)
    requires s.intentCategory == "" || IntentOf(s) == IntentOf(p) || IntentOf(p) == INTENT_DEFAULT
    ensures Valid(reg, resource, MergedQuery(enc, p, s))
  {
    var m := MergedQuery(enc, p, s);
    ValidIff(reg, resource, m);
    ValidIff(reg, resource, p);
    ValidIff(reg, resource, s);
    MergeKeepsAllIff(enc, p.filters, s.filters);
    forall field | Open(reg, resource, IntentOf(p), field)
      ensures Open(reg, resource, IntentOf(m), field)
    {
      if IntentOf(p) == INTENT_DEFAULT {
        DefaultOpensAll(reg, resource, IntentOf(m), field);
      }
    }
    forall field | Open(reg, resource, IntentOf(s), field)
      ensures Open(reg, resource, IntentOf(m), field)
    {
      StaysOpen(reg, resource, p, s, field);
    }
  }

  function Unsorted(intent: string, filters: seq<Filter>): QueryDSL {
    QueryDSL(V2, intent, filters, Sort("", ""), Page(0, ""))
  }

  lemma UnsortedValidIff(reg: Registry, resource: string, intent: string, filters: seq<Filter>)
    requires WellFormedRegistry(reg) && intent != ""
    ensures Valid(reg, resource, Unsorted(intent, filters)) <==> forall f | f in filters :: Open(reg, resource, intent, f.field)
  {
    ValidIff(reg, resource, Unsorted(intent, filters));
  }

  /** A change of intent can turn two valid queries into one the service refuses. */
  lemma IntentChangeInvalidates(reg: Registry, resource: string, enc: Encoding, f: Filter, i: string, j: string)
    requires WellFormedRegistry(reg) && i != "" && j != ""
    requires Open(reg, resource, i, f.field) && !Open(reg, resource, j, f.field)
    ensures var p, s := Unsorted(i, [f]), Unsorted(j, []);
            Valid(reg, resource, p) && Valid(reg, resource, s) && !Valid(reg, resource, MergedQuery(enc, p, s))
  {
    var p, s := Unsorted(i, [f]), Unsorted(j, []);
    UnsortedValidIff(reg, resource, i, [f]);
    UnsortedValidIff(reg, resource, j, []);
    MergeKeepsAllIff(enc, [f], []);
    assert MergedQuery(enc, p, s) == Unsorted(j, Merged(enc, [f], []));
    UnsortedValidIff(reg, resource, j, Merged(enc, [f], []));
    assert f in [f] + [];
  }

  // ----- the names that reach the merge -----

  /** Neither the canonical names nor the alias keys of the resource hold a bar. */
  ghost predicate BarFreeNames(reg: Registry, resource: string) {
    && (resource in reg.fieldIndex ==> forall n | n in reg.fieldIndex[resource] :: '|' !in n)
    && (resource in reg.aliasIndex ==> forall k | k in reg.aliasIndex[resource] :: '|' !in k)
  }

  lemma LowerKeepsBar(s: string)
    ensures '|' in s ==> '|' in ToLower(s)
  {
    if '|' in s {
      var i :| 0 <= i < |s| && s[i] == '|';
      assert ToLower(s)[i] == '|';
    }
  }

  lemma KeyKeepsBar(s: string)
    ensures '|' in s ==> '|' in ToLower(TrimSpace(s))
  {
    if '|' in s {
      VisibleTextSurvives(s, '|');
    }
    LowerKeepsBar(TrimSpace(s));
  }

  /** A name that validates under v2 holds no bar when the registry's names hold none. */
  lemma OpenNamesAreBarFree(reg: Registry, resource: string, intent: string, field: string)
    requires BarFreeNames(reg, resource) && Open(reg, resource, intent, field)
    ensures '|' !in field
  {
    KeyIsStable(field);
    KeyKeepsBar(field);
    var key := ToLower(TrimSpace(field));
    assert (resource in reg.aliasIndex && key in reg.aliasIndex[resource]) || reg.FieldOf(resource, key).Some?;
  }

  lemma KnownOpsAreBarFree(op: string)
    requires ValidOp(ToLower(op))
    ensures '|' !in op
  {
    LowerKeepsBar(op);
  }

  /** The filters of a clean result hold no bar in field or operator. */
  lemma CleanFiltersAreBarFree(reg: Registry, out: Analysis)
    requires BarFreeNames(reg, out.resourceType) && Clean(reg, out)
    ensures forall f | f in out.query.filters :: BarFree(f)
  {
    forall f | f in out.query.filters
      ensures BarFree(f)
    {
      OpenNamesAreBarFree(reg, out.resourceType, out.intentCategory, f.field);
      KnownOpsAreBarFree(f.op);
    }
  }

  /** So merging two clean results drops nothing but exact repeats, and means both on every row. */
  lemma CleanResultsMerge(reg: Registry, enc: Encoding, a: Analysis, b: Analysis)
    requires BarFreeNames(reg, a.resourceType) && Clean(reg, a)
    requires BarFreeNames(reg, b.resourceType) && Clean(reg, b)
    requires Injective(enc)
    ensures KeysSeparate(enc, a.query.filters + b.query.filters)
    ensures forall f | f in a.query.filters + b.query.filters :: f in Merged(enc, a.query.filters, b.query.filters)
  {
    CleanFiltersAreBarFree(reg, a);
    CleanFiltersAreBarFree(reg, b);
    BarFreeKeysSeparate(enc, a.query.filters + b.query.filters);
    MergeKeepsAllIff(enc, a.query.filters, b.query.filters);
  }
}
