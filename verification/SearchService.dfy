/**
  The search service: normalises and validates the query, fetches a candidate
  window, splits it by permission, truncates what is visible and reports how
  much is hidden.
  */
module SearchService {
  import opened Store
  import opened Schema
  import opened Contracts
  import opened Sql
  import opened Policy
  import SqliteAdapter

  const MAX_CANDIDATE_WINDOW := 500
  const MAX_PLACEHOLDERS := 3
  const DEFAULT_LIMIT := 20

  datatype Response = Response(
    items: seq<Doc>,
    authorizedCount: nat,
    hiddenCount: nat,
    reasonCode: string,
    placeholders: seq<string>,
    contractVersion: string,
    nextCursor: string,
    scopeCapped: bool)

  /** The policy engine as the service sees it: a decision or an error per document. */
  type Evaluator = Doc -> Result<Decision>

  // ----- normalisation and validation -----

  function NormalizeFilters(reg: Registry, resource: string, filters: seq<Filter>): seq<Filter> {
    seq(|filters|, i requires 0 <= i < |filters| =>
      filters[i].(field := NormalizeField(reg, resource, filters[i].field)))
  }

  function VersionOf(q: QueryDSL): string {
    if q.contractVersion == "" then V2 else q.contractVersion
  }

  /** The query the adapter will see. */
  function Normalize(reg: Registry, resource: string, q: QueryDSL): QueryDSL {
    var version := VersionOf(q);
    var intent := if q.intentCategory == "" then INTENT_DEFAULT else q.intentCategory;
    if version == V2 then
      QueryDSL(version, intent, NormalizeFilters(reg, resource, q.filters),
               if q.sort.field == "" then q.sort else q.sort.(field := NormalizeField(reg, resource, q.sort.field)),
               q.page)
    else QueryDSL(version, intent, q.filters, q.sort, q.page)
  }

  function FirstRefusal(reg: Registry, resource: string, version: string, intent: string, filters: seq<Filter>): Option<Error> {
    if filters == [] then None
    else
      match ValidateField(reg, resource, version, intent, filters[0].field)
      case Some(e) => Some(e)
      case None => FirstRefusal(reg, resource, version, intent, filters[1..])
  }

  /** The refusal a normalised query meets, if any: filters in order, then the sort field. */
  function Validation(reg: Registry, resource: string, q: QueryDSL): Option<Error> {
    match FirstRefusal(reg, resource, q.contractVersion, q.intentCategory, q.filters)
    case Some(e) => Some(e)
    case None =>
      if q.sort.field == "" then None
      else ValidateField(reg, resource, q.contractVersion, q.intentCategory, q.sort.field)
  }

  lemma {:induction false} NoRefusalIff(reg: Registry, resource: string, version: string, intent: string, filters: seq<Filter>)
    ensures FirstRefusal(reg, resource, version, intent, filters).None?
            <==> forall f | f in filters :: ValidateField(reg, resource, version, intent, f.field).None?
  {
    if filters != [] {
      NoRefusalIff(reg, resource, version, intent, filters[1..]);
      assert filters == [filters[0]] + filters[1..];
    }
  }

  /** The refusal reported is that of the first field refused. */
  lemma {:induction false} FirstRefusalIs(reg: Registry, resource: string, version: string, intent: string, filters: seq<Filter>)
    ensures var refusal := FirstRefusal(reg, resource, version, intent, filters);
            refusal.Some? ==>
              exists i :: 0 <= i < |filters|
                          && refusal == ValidateField(reg, resource, version, intent, filters[i].field)
                          && forall j | 0 <= j < i :: ValidateField(reg, resource, version, intent, filters[j].field).None?
  {
    if filters != [] && ValidateField(reg, resource, version, intent, filters[0].field).None? {
      FirstRefusalIs(reg, resource, version, intent, filters[1..]);
      if FirstRefusal(reg, resource, version, intent, filters).Some? {
        var fs := filters[1..];
        var i :| 0 <= i < |fs|
                 && FirstRefusal(reg, resource, version, intent, fs) == ValidateField(reg, resource, version, intent, fs[i].field)
                 && forall j | 0 <= j < i :: ValidateField(reg, resource, version, intent, fs[j].field).None?;
        forall j | 0 <= j < i + 1
          ensures ValidateField(reg, resource, version, intent, filters[j].field).None?
        {
          assert j > 0 ==> filters[j] == fs[j - 1];
        }
        assert filters[i + 1] == fs[i];
      }
    }
  }

  // ----- the split by permission -----

  /** The documents of a candidate list, in order. */
  function Docs(cs: seq<Candidate>): seq<Doc> {
    seq(|cs|, i requires 0 <= i < |cs| => cs[i].doc)
  }

  predicate Visible(evaluate: Evaluator, c: Candidate) {
    evaluate(c.doc).Ok? && evaluate(c.doc).value.allowed
  }

  function VisibleOnes(evaluate: Evaluator, cs: seq<Candidate>): seq<Candidate> {
    Select(cs, c => Visible(evaluate, c))
  }

  function HiddenOnes(evaluate: Evaluator, cs: seq<Candidate>): seq<Candidate> {
    Select(cs, c => !Visible(evaluate, c))
  }

  /** Visible and hidden candidates together are the window. */
  lemma SplitIsComplete(evaluate: Evaluator, cs: seq<Candidate>)
    ensures |VisibleOnes(evaluate, cs)| + |HiddenOnes(evaluate, cs)| == |cs|
  {
    SelectComplement(cs, c => Visible(evaluate, c), c => !Visible(evaluate, c));
  }

  function Ids(cs: seq<Candidate>): seq<string> {
    seq(|cs|, i requires 0 <= i < |cs| => cs[i].id)
  }

  /** Evaluation succeeds on every candidate. */
  ghost predicate Decided(evaluate: Evaluator, cs: seq<Candidate>) {
    forall c | c in cs :: evaluate(c.doc).Ok?
  }

  function DeriveReason(total: nat, authorized: nat, hidden: nat): string {
    if authorized > 0 then "VISIBLE_RESULTS"
    else if hidden > 0 then "MATCHES_EXIST_BUT_NOT_VISIBLE"
    else if total == 0 then "NO_MATCH_IN_TENANT"
    else "NO_VISIBLE_RESULTS_FOR_CURRENT_SCOPE"
  }

  function ServiceLimit(limit: int): nat {
    if limit <= 0 then DEFAULT_LIMIT else limit
  }

  /** What the service answers for one page of candidates. */
  function Respond(evaluate: Evaluator, q: QueryDSL, page: SearchResult): Response {
    var visible := VisibleOnes(evaluate, page.candidates);
    var hidden := Ids(HiddenOnes(evaluate, page.candidates));
    var items := Docs(visible[..Min(|visible|, ServiceLimit(q.page.limit))]);
    Response(items, |items|, |hidden|,
             DeriveReason(page.total, |items|, |hidden|),
             hidden[..Min(|hidden|, MAX_PLACEHOLDERS)],
             q.contractVersion, page.nextCursor, page.total > |page.candidates|)
  }

  function FirstFailure(evaluate: Evaluator, cs: seq<Candidate>): Option<Error> {
    if cs == [] then None
    else if evaluate(cs[0].doc).Err? then Some(evaluate(cs[0].doc).error)
    else FirstFailure(evaluate, cs[1..])
  }

  lemma {:induction false} NoFailureIff(evaluate: Evaluator, cs: seq<Candidate>)
    ensures FirstFailure(evaluate, cs).None? <==> Decided(evaluate, cs)
  {
    if cs != [] {
      NoFailureIff(evaluate, cs[1..]);
      assert cs == [cs[0]] + cs[1..];
    }
  }

  /** The error reported is that of the first candidate that cannot be judged. */
  lemma {:induction false} FirstFailureIs(evaluate: Evaluator, cs: seq<Candidate>)
    ensures FirstFailure(evaluate, cs).Some? ==>
              exists i :: 0 <= i < |cs| && evaluate(cs[i].doc) == Err(FirstFailure(evaluate, cs).value)
                          && forall j | 0 <= j < i :: evaluate(cs[j].doc).Ok?
  {
    if cs != [] && evaluate(cs[0].doc).Ok? && FirstFailure(evaluate, cs).Some? {
      FirstFailureIs(evaluate, cs[1..]);
      var rest := cs[1..];
      var i :| 0 <= i < |rest| && evaluate(rest[i].doc) == Err(FirstFailure(evaluate, rest).value)
               && forall j | 0 <= j < i :: evaluate(rest[j].doc).Ok?;
      forall j | 0 <= j < i + 1
        ensures evaluate(cs[j].doc).Ok?
      {
        assert j > 0 ==> cs[j] == rest[j - 1];
      }
      assert cs[i + 1] == rest[i];
    }
  }

  /** The whole call, as a function of the query. */
  function SearchOutcome(db: Database, reg: Registry, evaluate: Evaluator, tenant: string, resource: string, q: QueryDSL): Result<Response> {
    var n := Normalize(reg, resource, q);
    match Validation(reg, resource, n)
    case Some(e) => Err(e)
    case None =>
      match SqliteAdapter.SearchOutcome(db, reg, tenant, resource, n, MAX_CANDIDATE_WINDOW)
      case Err(e) => Err(e)
      case Ok(page) => Answer(evaluate, n, page)
  }

  /** What becomes of a page: the first evaluation error, or the response. */
  function Answer(evaluate: Evaluator, q: QueryDSL, page: SearchResult): Result<Response> {
    match FirstFailure(evaluate, page.candidates)
    case Some(e) => Err(e)
    case None => Ok(Respond(evaluate, q, page))
  }

  lemma AnswersIff(evaluate: Evaluator, q: QueryDSL, page: SearchResult)
    ensures Answer(evaluate, q, page).Ok? <==> Decided(evaluate, page.candidates)
    ensures Answer(evaluate, q, page).Ok? ==> Answer(evaluate, q, page).value == Respond(evaluate, q, page)
  {
    NoFailureIff(evaluate, page.candidates);
  }

  // ----- the imperative service -----

  /** Rewrites the caller's filter fields in place. */
  method NormalizeInPlace(reg: Registry, resource: string, filters: array<Filter>)
    modifies filters
    ensures filters[..] == NormalizeFilters(reg, resource, old(filters[..]))
  {
    for i := 0 to filters.Length
      invariant forall k | 0 <= k < i :: filters[k] == NormalizeFilters(reg, resource, old(filters[..]))[k]
      invariant forall k | i <= k < filters.Length :: filters[k] == old(filters[k])
    {
      filters[i] := filters[i].(field := NormalizeField(reg, resource, filters[i].field));
    }
  }

  /** The candidate loop: visible documents, hidden identifiers, or the first evaluation error. */
  method Partition(evaluate: Evaluator, cs: seq<Candidate>) returns (failure: Option<Error>, allowed: seq<Doc>, hiddenIDs: seq<string>)
    ensures failure == FirstFailure(evaluate, cs)
    ensures failure.None? ==> allowed == Docs(VisibleOnes(evaluate, cs)) && hiddenIDs == Ids(HiddenOnes(evaluate, cs))
  {
    allowed, hiddenIDs := [], [];
    assert cs[0..] == cs;
    for i := 0 to |cs|
      invariant FirstFailure(evaluate, cs) == FirstFailure(evaluate, cs[i..])
      invariant allowed == Docs(VisibleOnes(evaluate, cs[..i]))
      invariant hiddenIDs == Ids(HiddenOnes(evaluate, cs[..i]))
    {
      assert cs[i..][1..] == cs[i + 1..];
      assert cs[..i + 1][..i] == cs[..i];
      var decision := evaluate(cs[i].doc);
      if decision.Err? {
        return Some(decision.error), [], [];
      }
      if decision.value.allowed {
        allowed := allowed + [cs[i].doc];
        continue;
      }
      hiddenIDs := hiddenIDs + [cs[i].id];
    }
    assert cs[..|cs|] == cs;
    failure := None;
  }

  /**
    The service's entry point. The filters live in the caller's array: under
    contract v2 they come back with canonical field names, whatever the outcome.
    */
  method Search(db: Database, reg: Registry, evaluate: Evaluator, tenant: string, resource: string,
                q: QueryDSL, filters: array<Filter>)
    returns (r: Result<Response>)
    requires q.filters == filters[..]
    modifies filters
    ensures r == SearchOutcome(db, reg, evaluate, tenant, resource, q)
    ensures filters[..] == if VersionOf(q) == V2 then NormalizeFilters(reg, resource, q.filters) else q.filters
  {
    var version := VersionOf(q);
    var intent := if q.intentCategory == "" then INTENT_DEFAULT else q.intentCategory;
    var sort := q.sort;
    if version == V2 {
      NormalizeInPlace(reg, resource, filters);
      if sort.field != "" {
        sort := sort.(field := NormalizeField(reg, resource, sort.field));
      }
    }
    var n := QueryDSL(version, intent, filters[..], sort, q.page);
    assert n == Normalize(reg, resource, q);
    var refusal := Validation(reg, resource, n);
    if refusal.Some? {
      return Err(refusal.value);
    }
    var page := SqliteAdapter.Search(db, reg, tenant, resource, n, MAX_CANDIDATE_WINDOW);
    if page.Err? {
      return Err(page.error);
    }
    r := Assemble(evaluate, n, page.value);
  }

  /** Splits, truncates and counts one page. */
  method Assemble(evaluate: Evaluator, q: QueryDSL, page: SearchResult) returns (r: Result<Response>)
    ensures r == Answer(evaluate, q, page)
  {
    var failure, allowed, hiddenIDs := Partition(evaluate, page.candidates);
    if failure.Some? {
      return Err(failure.value);
    }
    SplitIsComplete(evaluate, page.candidates);
    var allowedInWindow := |allowed|;
    var limit := ServiceLimit(q.page.limit);
    if |allowed| > limit {
      allowed := allowed[..limit];
    }
    var hiddenInWindow := Max(0, |page.candidates| - allowedInWindow);
    var redacted: seq<string> := [];
    for i := 0 to Min(hiddenInWindow, MAX_PLACEHOLDERS)
      invariant redacted == hiddenIDs[..i]
    {
      redacted := redacted + [hiddenIDs[i]];
    }
    ghost var visible := VisibleOnes(evaluate, page.candidates);
    assert allowed == Docs(visible[..Min(|visible|, limit)]);
    r := Ok(Response(allowed, |allowed|, hiddenInWindow,
                     DeriveReason(page.total, |allowed|, hiddenInWindow),
                     redacted, q.contractVersion, page.nextCursor, page.total > |page.candidates|));
  }

  /** A query without version or intent is answered as the v2 query under the default intent. */
  lemma UnsetMeansDefault(db: Database, reg: Registry, evaluate: Evaluator, tenant: string, resource: string, q: QueryDSL)
    ensures q.contractVersion == "" ==>
              SearchOutcome(db, reg, evaluate, tenant, resource, q)
              == SearchOutcome(db, reg, evaluate, tenant, resource, q.(contractVersion := "v2"))
    ensures q.intentCategory == "" ==>
              SearchOutcome(db, reg, evaluate, tenant, resource, q)
              == SearchOutcome(db, reg, evaluate, tenant, resource, q.(intentCategory := "default"))
  {
    assert q.contractVersion == "" ==> Normalize(reg, resource, q) == Normalize(reg, resource, q.(contractVersion := "v2"));
    assert q.intentCategory == "" ==> Normalize(reg, resource, q) == Normalize(reg, resource, q.(intentCategory := "default"));
  }

  /** What the service makes of a query: under v2 every name canonical, otherwise every name as it came; the rest stays. */
  lemma NormalizedIs(reg: Registry, resource: string, q: QueryDSL)
    ensures var n := Normalize(reg, resource, q);
            && n.page == q.page && n.sort.dir == q.sort.dir && |n.filters| == |q.filters|
            && (n.contractVersion == "v2" <==> q.contractVersion in {"", "v2"})
            && (forall i | 0 <= i < |q.filters| :: n.filters[i].op == q.filters[i].op && n.filters[i].value == q.filters[i].value)
            && (n.contractVersion == "v2" ==>
                  && (forall i | 0 <= i < |q.filters| :: n.filters[i].field == NormalizeField(reg, resource, q.filters[i].field))
                  && (q.sort.field != "" ==> n.sort.field == NormalizeField(reg, resource, q.sort.field)))
            && (n.contractVersion != "v2" ==> n.filters == q.filters && n.sort == q.sort)
  {
  }

  // ----- what a response discloses -----

  /**
    Only permitted documents are shown, the first of them up to the limit, or
    twenty; of the hidden candidates the first three identifiers surface; shown
    plus hidden plus truncated make up the window.
    */
  lemma ResponseIsRedacted(evaluate: Evaluator, q: QueryDSL, page: SearchResult)
    ensures var r := Respond(evaluate, q, page);
            && (forall d | d in r.items :: evaluate(d).Ok? && evaluate(d).value.allowed)
            && (forall id | id in r.placeholders :: exists c :: c in page.candidates && c.id == id && !Visible(evaluate, c))
            && |r.placeholders| == Min(r.hiddenCount, 3) && r.placeholders <= Ids(HiddenOnes(evaluate, page.candidates))
            && r.items <= Docs(VisibleOnes(evaluate, page.candidates))
            && |r.items| == Min(|VisibleOnes(evaluate, page.candidates)|, if q.page.limit >= 1 then q.page.limit else 20)
            && r.nextCursor == page.nextCursor && r.contractVersion == q.contractVersion
            && (r.scopeCapped <==> |page.candidates| < page.total)
            && r.hiddenCount + |VisibleOnes(evaluate, page.candidates)| == |page.candidates|
            && r.authorizedCount == Min(|VisibleOnes(evaluate, page.candidates)|, ServiceLimit(q.page.limit))
  {
    var visible, hidden := VisibleOnes(evaluate, page.candidates), HiddenOnes(evaluate, page.candidates);
    SelectMembers(page.candidates, c => Visible(evaluate, c));
    SelectMembers(page.candidates, c => !Visible(evaluate, c));
    SplitIsComplete(evaluate, page.candidates);
    var r := Respond(evaluate, q, page);
    forall d | d in r.items
      ensures evaluate(d).Ok? && evaluate(d).value.allowed
    {
      var i :| 0 <= i < |r.items| && r.items[i] == d;
      assert visible[i] in visible;
    }
    forall id | id in r.placeholders
      ensures exists c :: c in page.candidates && c.id == id && !Visible(evaluate, c)
    {
      var i :| 0 <= i < |r.placeholders| && r.placeholders[i] == id;
      assert hidden[i] in hidden;
    }
  }

  /** The reason code states what the caller can see of the window, case by case. */
  lemma ReasonTellsTheTruth(evaluate: Evaluator, q: QueryDSL, page: SearchResult)
    requires |page.candidates| <= page.total
    ensures var code := Respond(evaluate, q, page).reasonCode;
            var cs := page.candidates;
            && (code == "VISIBLE_RESULTS" <==> exists c :: c in cs && Visible(evaluate, c))
            && (code == "MATCHES_EXIST_BUT_NOT_VISIBLE" <==> cs != [] && forall c | c in cs :: !Visible(evaluate, c))
            && (code == "NO_MATCH_IN_TENANT" <==> page.total == 0)
            && (code == "NO_VISIBLE_RESULTS_FOR_CURRENT_SCOPE" <==> cs == [] && page.total > 0)
  {
    var cs := page.candidates;
    SelectMembers(cs, c => Visible(evaluate, c));
    SplitIsComplete(evaluate, cs);
    var visible := VisibleOnes(evaluate, cs);
    if visible != [] {
      assert visible[0] in visible;
    }
    if cs != [] {
      assert cs[0] in cs;
    }
  }
}
