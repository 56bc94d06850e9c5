/**
  Validation of what a remote rewrite provider returns, before its query is
  allowed anywhere near the store.
  */
module RemoteValidation {
  import opened Text
  import opened Dedup
  import opened Store
  import opened Schema
  import opened Contracts

  /** The part of an analysis that validation reads or completes. */
  datatype Analysis = Analysis(query: QueryDSL, intentCategory: string, resourceType: string, confidence: real)

  predicate ValidIntent(intent: string) {
    intent in {INTENT_DEFAULT, INTENT_WISMO, INTENT_CRM_PROFILE, INTENT_RETURNS_REFUNDS}
  }

  predicate ValidOp(op: string) {
    op in {"eq", "neq", "gt", "gte", "lt", "lte", "like", "in"}
  }

  /** The analysis with missing version, intents and page limit filled in. */
  function Complete(a: Analysis, contractVersion: string): Analysis {
    var q := a.query;
    var version := if q.contractVersion == "" then contractVersion else q.contractVersion;
    var queryIntent := if q.intentCategory == "" then a.intentCategory else q.intentCategory;
    var intent := if a.intentCategory == "" then queryIntent else a.intentCategory;
    var limit := if q.page.limit <= 0 then 20 else q.page.limit;
    Analysis(QueryDSL(version, queryIntent, q.filters, q.sort, Page(limit, q.page.cursor)),
             intent, a.resourceType, a.confidence)
  }

  /** What was missing is filled in, from the call, from the other intent, or with twenty rows a page; nothing else changes. */
  lemma CompletedIs(a: Analysis, contractVersion: string)
    ensures var out := Complete(a, contractVersion);
            && out.resourceType == a.resourceType && out.confidence == a.confidence
            && out.query.filters == a.query.filters && out.query.sort == a.query.sort
            && out.query.page.cursor == a.query.page.cursor
            && (a.query.contractVersion != "" ==> out.query.contractVersion == a.query.contractVersion)
            && (a.query.contractVersion == "" ==> out.query.contractVersion == contractVersion)
            && (a.query.page.limit >= 1 ==> out.query.page.limit == a.query.page.limit)
            && (a.query.page.limit <= 0 ==> out.query.page.limit == 20)
            && (a.intentCategory != "" && a.query.intentCategory != "" ==>
                  out.intentCategory == a.intentCategory && out.query.intentCategory == a.query.intentCategory)
            && (a.intentCategory == "" ==> out.intentCategory == out.query.intentCategory == a.query.intentCategory)
            && (a.query.intentCategory == "" ==> out.query.intentCategory == out.intentCategory == a.intentCategory)
  {
  }

  function FieldErrors(reg: Registry, out: Analysis, field: string): seq<string> {
    if out.resourceType == "" || out.intentCategory == "" || out.query.contractVersion == "" then []
    else
      match ValidateField(reg, out.resourceType, out.query.contractVersion, out.intentCategory, field)
      case Some(e) => [e.Message()]
      case None => []
  }

  function FilterErrors(reg: Registry, out: Analysis, filters: seq<Filter>): seq<string> {
    if filters == [] then []
    else
      var f := filters[|filters| - 1];
      FilterErrors(reg, out, filters[..|filters| - 1])
      + (if ValidOp(ToLower(f.op)) then [] else ["invalid operator for field " + f.field])
      + FieldErrors(reg, out, f.field)
  }

  predicate Inconsistent(out: Analysis) {
    (out.intentCategory == INTENT_WISMO || out.intentCategory == INTENT_RETURNS_REFUNDS) && out.resourceType == "customer"
  }

  function When(c: bool, message: string): seq<string> {
    if c then [message] else []
  }

  /** The complaints in the order they are raised. */
  function Gather(badResource: bool, badIntent: bool, mismatch: bool, filterErrors: seq<string>,
                  sortErrors: seq<string>, inconsistent: bool): seq<string>
  {
    When(badResource, "invalid resourceType")
    + When(badIntent, "invalid intentCategory")
    + When(mismatch, "query intentCategory mismatch")
    + filterErrors
    + sortErrors
    + When(inconsistent, "resource-intent inconsistency")
  }

  predicate KnownResource(name: string) {
    name == "order" || name == "customer"
  }

  function SortErrors(reg: Registry, out: Analysis): seq<string> {
    if out.query.sort.field == "" then [] else FieldErrors(reg, out, out.query.sort.field)
  }

  /** All complaints about an analysis. */
  function Complaints(reg: Registry, a: Analysis, contractVersion: string): seq<string> {
    var out := Complete(a, contractVersion);
    Gather(!KnownResource(a.resourceType), !ValidIntent(a.intentCategory),
           out.query.intentCategory != out.intentCategory,
           FilterErrors(reg, out, out.query.filters), SortErrors(reg, out), Inconsistent(out))
  }

  /** Which complaint is raised for what. */
  lemma ComplaintsAre(reg: Registry, a: Analysis, contractVersion: string)
    ensures var errs, out := Complaints(reg, a, contractVersion), Complete(a, contractVersion);
            && (a.resourceType !in {"order", "customer"} ==> "invalid resourceType" in errs)
            && (a.intentCategory !in {"default", "wismo", "crm_profile", "returns_refunds"} ==> "invalid intentCategory" in errs)
            && (out.query.intentCategory != out.intentCategory ==> "query intentCategory mismatch" in errs)
            && (out.resourceType == "customer" && out.intentCategory in {"wismo", "returns_refunds"} ==>
                  "resource-intent inconsistency" in errs)
  {
  }

  /** The validator: completes the analysis and gathers the complaints, without repeats. */
  method ValidateRemoteResult(reg: Registry, a: Analysis, contractVersion: string)
    returns (out: Analysis, errors: seq<string>)
    ensures out == Complete(a, contractVersion)
    ensures errors == DedupeTrimmed(Complaints(reg, a, contractVersion))
  {
    var errs: seq<string> := [];
    if !KnownResource(a.resourceType) {
      errs := errs + ["invalid resourceType"];
    }
    if !ValidIntent(a.intentCategory) {
      errs := errs + ["invalid intentCategory"];
    }
    out := Complete(a, contractVersion);
    if out.query.intentCategory != out.intentCategory {
      errs := errs + ["query intentCategory mismatch"];
    }
    assert errs == When(!KnownResource(a.resourceType), "invalid resourceType")
                   + When(!ValidIntent(a.intentCategory), "invalid intentCategory")
                   + When(out.query.intentCategory != out.intentCategory, "query intentCategory mismatch");
    var perFilter := CheckFilters(reg, out);
    errs := errs + perFilter;
    errs := errs + SortErrors(reg, out);
    if Inconsistent(out) {
      errs := errs + ["resource-intent inconsistency"];
    }
    assert errs == Complaints(reg, a, contractVersion);
    errors := DedupeStrings(errs);
  }

  method CheckFilters(reg: Registry, out: Analysis) returns (errs: seq<string>)
    ensures errs == FilterErrors(reg, out, out.query.filters)
  {
    var filters := out.query.filters;
    errs := [];
    for i := 0 to |filters|
      invariant errs == FilterErrors(reg, out, filters[..i])
    {
      assert filters[..i + 1][..i] == filters[..i];
      if !ValidOp(ToLower(filters[i].op)) {
        errs := errs + ["invalid operator for field " + filters[i].field];
      }
      errs := errs + FieldErrors(reg, out, filters[i].field);
    }
    assert filters[..|filters|] == filters;
  }

  // ----- what a clean result is -----

  /** A v2 analysis nobody can complain about. */
  ghost predicate Clean(reg: Registry, out: Analysis) {
    && out.resourceType in {"order", "customer"}
    && out.intentCategory in {"default", "wismo", "crm_profile", "returns_refunds"}
    && out.query.intentCategory == out.intentCategory
    && (forall f | f in out.query.filters ::
          && ToLower(f.op) in {"eq", "neq", "gt", "gte", "lt", "lte", "like", "in"}
          && ValidateField(reg, out.resourceType, V2, out.intentCategory, f.field).None?)
    && (out.query.sort.field != "" ==> ValidateField(reg, out.resourceType, V2, out.intentCategory, out.query.sort.field).None?)
    && !(out.resourceType == "customer" && out.intentCategory in {"wismo", "returns_refunds"})
  }

  lemma MessageVisible(e: Error)
    ensures TrimSpace(e.Message()) != ""
  {
    VisibleTextSurvives(e.Message(), e.Message()[0]);
  }

  lemma {:induction false} FilterErrorsVisible(reg: Registry, out: Analysis, filters: seq<Filter>)
    ensures forall m | m in FilterErrors(reg, out, filters) :: TrimSpace(m) != ""
  {
    if filters != [] {
      var f := filters[|filters| - 1];
      FilterErrorsVisible(reg, out, filters[..|filters| - 1]);
      VisibleTextSurvives("invalid operator for field " + f.field, ("invalid operator for field " + f.field)[0]);
      FieldErrorsVisible(reg, out, f.field);
    }
  }

  lemma FieldErrorsVisible(reg: Registry, out: Analysis, field: string)
    ensures forall m | m in FieldErrors(reg, out, field) :: TrimSpace(m) != ""
  {
    forall e: Error
      ensures TrimSpace(e.Message()) != ""
    {
      MessageVisible(e);
    }
  }

  lemma FixedMessagesVisible()
    ensures TrimSpace("invalid resourceType") != "" && TrimSpace("invalid intentCategory") != ""
    ensures TrimSpace("query intentCategory mismatch") != "" && TrimSpace("resource-intent inconsistency") != ""
  {
    VisibleTextSurvives("invalid resourceType", "invalid resourceType"[0]);
    VisibleTextSurvives("invalid intentCategory", "invalid intentCategory"[0]);
    VisibleTextSurvives("query intentCategory mismatch", "query intentCategory mismatch"[0]);
    VisibleTextSurvives("resource-intent inconsistency", "resource-intent inconsistency"[0]);
  }

  lemma WhenMembers(c: bool, text: string)
    ensures forall m | m in When(c, text) :: m == text
  {
  }

  lemma GatherMembers(b1: bool, b2: bool, b3: bool, filterErrors: seq<string>, sortErrors: seq<string>, b4: bool, m: string)
    requires m in Gather(b1, b2, b3, filterErrors, sortErrors, b4)
    ensures || m in filterErrors || m in sortErrors
            || m == "invalid resourceType" || m == "invalid intentCategory"
            || m == "query intentCategory mismatch" || m == "resource-intent inconsistency"
  {
    WhenMembers(b1, "invalid resourceType");
    WhenMembers(b2, "invalid intentCategory");
    WhenMembers(b3, "query intentCategory mismatch");
    WhenMembers(b4, "resource-intent inconsistency");
  }

  lemma GatherVisible(b1: bool, b2: bool, b3: bool, filterErrors: seq<string>, sortErrors: seq<string>, b4: bool)
    requires forall m | m in filterErrors :: TrimSpace(m) != ""
    requires forall m | m in sortErrors :: TrimSpace(m) != ""
    ensures forall m | m in Gather(b1, b2, b3, filterErrors, sortErrors, b4) :: TrimSpace(m) != ""
  {
    FixedMessagesVisible();
    forall m | m in Gather(b1, b2, b3, filterErrors, sortErrors, b4)
      ensures TrimSpace(m) != ""
    {
      GatherMembers(b1, b2, b3, filterErrors, sortErrors, b4, m);
    }
  }

  /** No complaint is blank, so deduplication never hides the last one. */
  lemma ComplaintsSurvive(reg: Registry, a: Analysis, contractVersion: string)
    ensures DedupeTrimmed(Complaints(reg, a, contractVersion)) == [] <==> Complaints(reg, a, contractVersion) == []
  {
    var out := Complete(a, contractVersion);
    var errs := Complaints(reg, a, contractVersion);
    FilterErrorsVisible(reg, out, out.query.filters);
    FieldErrorsVisible(reg, out, out.query.sort.field);
    GatherVisible(!KnownResource(a.resourceType), !ValidIntent(a.intentCategory),
                  out.query.intentCategory != out.intentCategory,
                  FilterErrors(reg, out, out.query.filters), SortErrors(reg, out), Inconsistent(out));
    DedupeTrimmedProperties(errs);
    if errs != [] {
      assert errs[0] in errs;
    }
  }

  lemma {:induction false} NoFilterErrorsIff(reg: Registry, out: Analysis, filters: seq<Filter>)
    ensures FilterErrors(reg, out, filters) == []
            <==> forall f | f in filters :: ValidOp(ToLower(f.op)) && FieldErrors(reg, out, f.field) == []
  {
    if filters != [] {
      NoFilterErrorsIff(reg, out, filters[..|filters| - 1]);
      assert filters == filters[..|filters| - 1] + [filters[|filters| - 1]];
    }
  }

  /** Under contract v2, validation reports nothing exactly when the completed analysis is clean. */
  lemma NoComplaintsIffClean(reg: Registry, a: Analysis, contractVersion: string)
    requires Complete(a, contractVersion).query.contractVersion == V2
    ensures DedupeTrimmed(Complaints(reg, a, contractVersion)) == []
            <==> ValidIntent(a.intentCategory) && Clean(reg, Complete(a, contractVersion))
  {
    var out := Complete(a, contractVersion);
    ComplaintsSurvive(reg, a, contractVersion);
    NoFilterErrorsIff(reg, out, out.query.filters);
  }
}
