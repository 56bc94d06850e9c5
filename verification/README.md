# A model of the permission-aware search service

The service answers searches over tenant data on behalf of a user. A message is
rewritten into a query by a chain of providers, the query is checked against a
field contract, compiled to SQL, run in bounded windows behind an offset cursor,
and every row is shown or hidden by a deny-overrides policy engine that keeps a
cache of grants. Identifier lookups take a shortcut that searches several
resources at once, and candidate identifiers may be ranked by fusing three lists.

This project models those parts in Dafny and proves what they promise each other.
`dafny verify dfyconfig.toml` checks everything.

## How it is built

Code that changes things step by step is a method with loops, an array or a
class (`GrantsCache.Cache`, `GrantsCache.IdSet`, `Guardrail.Draft`), proved equal
to a specification function; the laws are lemmas about those functions.
Concurrent code is a transition system, and its statements hold for every run.

| file | part of the service |
|---|---|
| `Text`, `Dedup`, `Sums`, `Store` | strings, the shared `seen` loops, sums over sequences, the query types |
| `Schema`, `Contracts`, `ShippedDefinition`, `ShippedSchema` | schema registry, field contracts, the shipped definition in full, and what holds of its registry |
| `Sql`, `SqliteAdapter`, `CursorWalk` | SQL as tokens and arguments, the filter compiler, one search, a whole cursor walk |
| `SearchService`, `ServiceWalk`, `Truncation`, `Acceptance`, `EndToEnd`, `AccessToken` | the service, walks through it, safe page limits, cross-layer acceptance, the whole path from a valid query to the rows shown, request-access tokens |
| `Policy`, `PolicyWalk`, `GrantsCache`, `Grants`, `CacheRuns`, `CacheRaces`, `CacheAges` | the decision, its effect on a walk, the cache object, cached grants, concurrent cache runs, their races, the age of answers |
| `FastPath` | fan-out and fan-in of identifier lookups |
| `Ranking`, `Fusion`, `Embedding`, `VectorIndex` | top-k ranking, rank fusion, hashed embeddings, nearest rows |
| `RemoteValidation`, `RewriteRouter`, `Guardrail`, `FilterMerge`, `QueryMerge`, `Gateway` | the rewriting pipeline |

SQL text is a list of tokens evaluated on a row while consuming an argument
stream, with three-valued logic; equality, order and LIKE of the database are
parameters (`Sql.Collation`). A table is a set of rows with one fixed listing per
sort column and direction.

## What the proofs found

Each of these is proved, with the exact condition under which the code does what
one would expect.

- A page limit below 500 can lose permitted rows over a cursor walk: the cursor
  moves past the whole window although only the first `limit` rows are shown. For
  every resource with a default sort column some database of distinct rows shows
  it; limits of 500 and more never lose a row (`Truncation.NeverLosesIff`).
- A client that sends a negative cursor gets the first page again until the offset
  passes zero, so rows repeat; delivery is exactly once only for cursors that are
  not negative (`CursorWalk.NegativeWalkRepeats`, `CursorWalk.ExactlyOnceIff`).
  Without matches it gets the same cursor back for ever (`CursorWalk.WalkEndsIff`).
- Contract v1 is described as backward compatible (line 167 of the repository's
  README), but v1 field names are never mapped: every v1 query with a filter is
  refused exactly when no legacy name is also a filterable canonical name
  (`Acceptance.LegacyRefusedIff`), as in the shipped definition
  (`ShippedSchema.ShippedLegacyApart`).
- The grants cache key omits the roles, and colons inside its parts can move
  between them; one entry is right for two requests exactly when tenant, user,
  resource type, action and the set of roles agree (`Grants.SharedEntryCorrectIff`,
  `Grants.ColonsCollide`).
- After an invalidation, every answer the cache then hands out on the key was asked
  of the ACL after it exactly when no thread was holding an unstored answer for the
  key, nor a live entry read but not yet handed out (`CacheRaces.InvalidationHoldsIff`).
  This concerns the cache's interface: nothing in the repository calls
  `InvalidatePrefix`. An entry just stored can be lost within its lifetime exactly
  when another thread has seen, or holds and will see, an expired entry for its key
  (`CacheRaces.EntryCanBeLostIff`).
- The lifetime of an entry is counted from its store: the ACL answer behind a hit
  can be older by the time it waited before, and no more (`CacheAges.HitsWithinIff`).
- In the shipped schema every fast-path lookup of a customer, or of an order by
  tracking number, is refused, and one such group fails the whole plan
  (`ShippedSchema.DoomedGroupSinksPlan`).
- The rank-0 identifier hit always precedes strangers, but it is always first
  only when it is the only identifier hit (`Fusion.TopHitAlwaysFirstIff`).
- The last resort of the rewrite router is not validated: everything served is
  clean exactly when there is no rule provider or it has no unclean answer
  (`RewriteRouter.ServesOnlyCleanIff`). Over the shipped schema it has one: a
  customer hint under the default intent (`ShippedSchema.CustomerAnswerIsServed`).
- Merging two valid queries under a new intent can give an invalid one
  (`QueryMerge.MergedValidIff`).
- A state negation spelled in another case satisfies the not-shipped guardrail
  but not the store, so a shipped order slips through (`Guardrail.GuardHoldsIff`).
- Gateway scores are read by position after blanks and repeats have been dropped;
  every id keeps its own score exactly when the raw ids start clean
  (`Gateway.OwnScoresIff`).
- The filter key function is not injective when a name holds a `|`
  (`FilterMerge.BarsCollide`). Clean results over bar-free names never collide
  (`QueryMerge.CleanResultsMerge`), and no shipped name holds one.
- The guardrail asks the registry for its deny roles under a prefix with a trailing
  dot; only a role with a second dot there would be found, so with the shipped
  roles the built-in states are used (`Guardrail.DenyListIsBuiltInIff`,
  `ShippedSchema.ShippedGuardReady`).
- The registry constructor is documented to panic on programmer errors
  (`internal/schema/registry.go:20-21`); the code does not. Of repeated field names
  the last is kept (`Schema.LastFieldKept`), and a role may name any field.

## Model

| member | source | states |
|---|---|---|
| SqliteAdapter.BuildWhere | internal/store/sqlite/adapter.go:175-218 | the loop yields the compiled clauses joined by AND with their arguments in order, or the first error |
| SqliteAdapter.CompileFailsIff | internal/store/sqlite/adapter.go:181-215 | compilation fails exactly when some filter has an unknown field, an unknown operator or an `in` without a non-empty list, and reports the first such filter |
| SqliteAdapter.ListEvaluates | internal/store/sqlite/adapter.go:203-212 | the generated placeholder list takes exactly as many arguments as the `in` list is long, leaves the rest, and is true exactly on membership |
| SqliteAdapter.ConjunctionEvaluates | internal/store/sqlite/adapter.go:175-218 | whatever arguments follow, the compiled conjunction consumes exactly its own and is true exactly on rows satisfying every filter; NULL satisfies none |
| SqliteAdapter.WhereMeansFilters | internal/store/sqlite/adapter.go:38-42 | with the tenant test and argument prepended, the text uses up all arguments and accepts exactly the tenant's rows that satisfy every filter |
| SqliteAdapter.WindowSizeBounds | internal/store/sqlite/adapter.go:30-66 | under a positive cap the window is at least one row, never above the cap, whatever limit is asked for |
| SqliteAdapter.ResolveSort | internal/store/sqlite/adapter.go:44-58 | the sort column is the asked field's if sortable, else the default's |
| SqliteAdapter.Search | internal/store/sqlite/adapter.go:25-94 | one call returns the specified page, count and cursor, or the specified error |
| SqliteAdapter.SearchIsWindow | internal/store/sqlite/adapter.go:60-93 | a servable search returns the offset window of the matching rows, counts all of them, and its cursor names the next row or is empty |
| SqliteAdapter.SearchDelivers | internal/store/sqlite/adapter.go:44-92 | a servable search delivers, from the cursor's offset on, the wanted rows of the sort column's ascending listing exactly when the direction is ASC in any case, and of the descending one otherwise |
| SqliteAdapter.SortColumnIs | internal/store/sqlite/adapter.go:44-58 | the rows are ordered by the field asked for if the resource sorts by it, otherwise by the default sort |
| SqliteAdapter.WindowSizeIs | internal/store/sqlite/adapter.go:30-66 | a limit between one and the cap fetches five times as many rows up to the cap, any other a hundred up to the cap |
| SqliteAdapter.SearchRefusals | internal/store/sqlite/adapter.go:26-41 | an unknown resource is refused first, then whatever the compiler refuses, before the store is asked |
| SqliteAdapter.MatchingIsComplete | internal/store/sqlite/adapter.go:60-69 | the rows paged through are, up to order, the table's matching rows, whatever the sort |
| Text.AtoiUndoesItoa | internal/store/sqlite/adapter.go:33-36 | parsing a printed cursor gives the offset back for every 64-bit integer |
| Text.AtoiElsewhere | internal/store/sqlite/adapter.go:33-36 | a malformed cursor counts as zero, and numbers out of range are cut to it |
| Text.EqualFoldIff | internal/semantic/parser.go:514-521 | two texts fold together exactly when they agree letter by letter up to case |
| Text.TrimSpaceCuts | internal/semantic/rewrite_intent_router.go:142-144 | trimming cuts off the white space at both ends, all of it and nothing else |
| CursorWalk.AdapterPages | internal/store/sqlite/adapter.go:66-93 | for every cursor text the adapter answers the page of the matching rows that the cursor selects |
| CursorWalk.WalkCovers | internal/store/sqlite/adapter.go:75-92 | every completed run from a non-negative cursor lists the rows from there on, each once and in order; all pages but the last are full |
| CursorWalk.WalkExists | internal/store/sqlite/adapter.go:89-92 | a completed run exists; the measure is the rows left |
| CursorWalk.NegativeWalkRepeats | internal/store/sqlite/adapter.go:33-92 | from a negative cursor over some rows, the first page comes once for every step it takes to pass zero, then the rows from where the offset lands |
| CursorWalk.ExactlyOnceIff | internal/store/sqlite/adapter.go:33-92 | a completed run delivers the rows from its cursor on, each once, exactly when the cursor is not negative |
| CursorWalk.WalkEndsIff | internal/store/sqlite/adapter.go:33-92 | a run ends exactly unless the cursor is negative and nothing matches |
| CursorWalk.CursorWalkCoversTable | internal/store/sqlite/adapter.go:25-94 | from the empty cursor a run exists, and every run lists each matching row of the table once, in order, in windows within the cap |
| Schema.New | internal/schema/registry.go:22-61 | the constructor builds exactly the specified index |
| Schema.IndexConsistent | internal/schema/registry.go:31-60 | every built registry indexes each resource from one of its definitions, and lists every resource in order |
| Schema.FieldsIndexed | internal/schema/registry.go:36-41 | the field index holds exactly the declared names, each under a record of that name |
| Schema.LastFieldKept | internal/schema/registry.go:38-41 | of several fields with one name the last is kept |
| Schema.AliasesIndexed | internal/schema/registry.go:43-47 | every alias is filed in lower case and every filed key resolves as some declared alias does |
| Schema.FilterableFields | internal/schema/registry.go:134-144 | the loop gathers exactly the filterable fields |
| Schema.SortableFields | internal/schema/registry.go:147-157 | the loop gathers exactly the sortable fields |
| Schema.FilterColumnIsOwn | internal/schema/registry.go:106-113 | a filter reaches the searched resource's own column exactly when no earlier owner of the name maps it elsewhere |
| Schema.DisjointFieldsOwnColumns | internal/schema/registry.go:106-113 | with field names disjoint across resources every filter reaches its own resource's column |
| Schema.RolesIndexed | internal/schema/registry.go:185-191 | looking up a role by its full name finds exactly the declared roles, each under its own name |
| Schema.PrefixLookup | internal/schema/registry.go:54-57 | looking up a prefix gives exactly the roles one segment below it, in definition order |
| Schema.PrefixFindsNothingIff | internal/schema/registry.go:203-205 | a prefix finds nothing exactly when no declared role is the prefix, a dot and one more segment |
| Contracts.NormalizeIdempotentIff | internal/contracts/fields.go:27-35 | normalising twice is normalising once exactly when alias targets are stable |
| Contracts.NormalizeFieldIs | internal/contracts/fields.go:27-35 | a name is looked up trimmed and lower-cased; an alias gives its target, any other name comes back that way |
| Contracts.ValidateFieldIs | internal/contracts/contracts.go:19-54 | v1 knows the legacy names, v2 the fields scoped to the intent or to the default one, other versions nothing; each refusal is named |
| Contracts.ValidateSeesThroughNormalize | internal/contracts/contracts.go:38-49 | a v2 verdict is the same for a name and its canonical form |
| Contracts.WellFormedDefinitions | internal/schema/registry.go:22-61 | a well-formed definition yields a well-formed registry |
| SearchService.NormalizeInPlace | internal/search/service.go:66-68 | the caller's filter array is rewritten to canonical names, element by element |
| SearchService.Partition | internal/search/service.go:89-101 | the loop splits candidates into permitted documents and hidden identifiers, in order, or stops at the first evaluation error |
| SearchService.Search | internal/search/service.go:57-143 | the whole call returns the specified response or error and leaves the filters canonical |
| SearchService.UnsetMeansDefault | internal/search/service.go:59-64 | a query without version or intent is answered as the v2 query under the default intent |
| SearchService.NormalizedIs | internal/search/service.go:65-72 | under v2 every name becomes canonical, otherwise none changes, and the rest of the query stays |
| SearchService.FirstRefusalIs | internal/search/service.go:73-77 | the refusal reported is that of the first field refused |
| SearchService.FirstFailureIs | internal/search/service.go:91-95 | the error reported is that of the first candidate that cannot be judged |
| SearchService.ResponseIsRedacted | internal/search/service.go:89-142 | only permitted documents are shown, the first of them up to the limit or twenty; the first three hidden identifiers appear; hidden plus permitted candidates make up the window |
| SearchService.ReasonTellsTheTruth | internal/search/service.go:145-171 | each reason code is given exactly when it describes the window |
| ServiceWalk.HiddenCountsAdd | internal/search/service.go:112-115 | over any pages the hidden counts sum to the number of hidden candidates |
| ServiceWalk.ShownCompleteIff | internal/search/service.go:104-110 | everything permitted is shown, in order, exactly when no window holds more of it than the page limit |
| ServiceWalk.CallAnswersPage | internal/search/service.go:73-142 | a service call succeeds exactly when the query validates, the adapter answers and every candidate can be judged, and then responds to that page |
| ServiceWalk.RunsCorrespond | internal/search/service.go:84-139 | every run of the service is the service's view of a run of the adapter |
| ServiceWalk.ServiceWalkAccounts | internal/search/service.go:57-143 | a whole walk hides exactly the denied matching rows, each once, and with a limit of 500 or more shows exactly the permitted ones in order |
| ServiceWalk.ServiceWalkExists | internal/search/service.go:57-143 | a valid query whose rows can be judged has a completed walk |
| Truncation.NeverLosesIff | internal/search/service.go:104-110 | for every resource with a default sort column, a page limit never loses a permitted row, over any keyed table, query and policy, exactly when it is at least 500 |
| Truncation.SmallLimitsLose | internal/search/service.go:104-139 | below 500 a table of distinct rows one window wide loses rows under a wildcard grant |
| Acceptance.ValidatedQueryCompilesIff | internal/search/service.go:65-82 | a v2 query past validation compiles exactly when its operators and `in` values fit, and fails for no other reason |
| Acceptance.NormalizeQueryIdempotent | internal/search/service.go:65-72 | normalising a query twice changes nothing more |
| Acceptance.CompiledFieldsAreFilterable | internal/store/sqlite/adapter.go:181-184 | whatever compiles names only fields the resource opens to filtering |
| Acceptance.SortIsOwnColumn | internal/store/sqlite/adapter.go:52-58 | whatever sort is asked for, rows are ordered by a column of their own resource |
| Acceptance.CleanResultPassesService | internal/semantic/analyzer_slm_local.go:382-397 | a v2 provider result without complaints passes the service's validation |
| Acceptance.CleanResultCompilesIff | internal/store/sqlite/adapter.go:203-207 | such a result is refused by the compiler exactly for an `in` filter without a non-empty list |
| Acceptance.LegacyQueryPassesIff | internal/search/service.go:65-82 | a v1 query reaches the store exactly when each filter and the sort use legacy names, the filters ones that are also filterable canonical names, with fitting operators |
| Acceptance.LegacyRefusedIff | internal/search/service.go:65-77 | every v1 query with a filter is refused exactly when no legacy name of the resource is also a filterable canonical name |
| Acceptance.LegacyFiltersAreRefused | internal/search/service.go:65-87 | so with names apart the service answers no such query, and past validation the compiler names the first field |
| EndToEnd.AcceptedIsServableIff | internal/store/sqlite/adapter.go:38-69 | over disjoint field names, a validated v2 query with known operators can be served exactly when the driver can bind its values |
| EndToEnd.WalkShowsExactlyThePermitted | internal/search/service.go:57-143 | with a page limit of 500 or more a walk over such a query exists, and every walk shows exactly the tenant's matching rows the policy permits, each once, in order, and counts the denied ones |
| AccessToken.Base64RoundTrip | internal/search/service.go:203-203 | unpadded base64url decodes back to the encoded bytes and contains no dot |
| AccessToken.SplitToken | internal/search/service.go:250-257 | the scan cuts at the first dot, and fails exactly without one |
| AccessToken.ValidateRequestAccessToken | internal/search/service.go:217-248 | any token text is accepted exactly when it is a coded payload, a dot and the coded signature of that payload, and the payload names the tenant and user |
| AccessToken.ForgedIsRefused | internal/search/service.go:235-239 | a payload under any other signature, an empty one included, is refused for everybody |
| AccessToken.EncodeVectors | internal/search/service.go:203-203 | the vectors of section 10 of RFC 4648 without padding, and one with both special characters |
| AccessToken.LineBreaksDoNotCount | internal/search/service.go:227-234 | line breaks anywhere in a coded part do not count |
| AccessToken.TokenValidatesIff | internal/search/service.go:191-248 | an issued token is valid for its tenant and user and for nobody else |
| Policy.EvalABAC | internal/policy/sqlite_engine.go:111-132 | the early-exit scan allows exactly with a matching allow and no matching deny, with the reason that applies |
| Policy.HasDenyRule | internal/policy/sqlite_engine.go:134-145 | the scan finds a matching deny exactly when there is one |
| Policy.Evaluate | internal/policy/sqlite_engine.go:33-64 | both code paths give access exactly without a tenant mismatch or an applying deny rule, and with a wildcard or id grant or an applying allow rule, each rule read from its operator and value; load errors surface except on a tenant mismatch |
| Policy.MatchIsApplies | internal/policy/sqlite_engine.go:166-184 | a rule matches in exactly four ways: its attribute is the named value, or is another; or is a non-empty value the document shares, or differs from the document's |
| Policy.ReasonsAre | internal/policy/sqlite_engine.go:33-64 | each of the five reasons is given exactly when it holds and no earlier one does |
| Policy.OneDenyRule | internal/policy/sqlite_engine.go:134-145 | operator by operator, whom one deny rule refuses among subjects with every grant |
| Policy.OneAllowRule | internal/policy/sqlite_engine.go:111-132 | operator by operator, whom one allow rule lets in among subjects without a grant |
| Policy.EvaluateAcrossChange | internal/policy/sqlite_engine.go:33-64 | two evaluations before and after a change, whichever code path each takes: the same rules in another order change nothing, added denials never open or alter an open decision, added grants never close one |
| PolicyWalk.DenyRulesMoveRowsToHidden | internal/search/service.go:89-115 | over whole walks, adding deny rules removes exactly the rows they match, keeps the order of the rest, and every removed row is counted as hidden |
| GrantsCache.IdSet.Copy | internal/cache/grants_cache.go:46-49 | the copy loop yields a new set with the same elements |
| GrantsCache.Cache.Get | internal/cache/grants_cache.go:26-43 | a hit gives a fresh copy of a live entry and changes nothing; a miss gives none and drops the key |
| GrantsCache.Cache.Set | internal/cache/grants_cache.go:45-53 | the key then holds a copy of the set until now plus the time to live; other keys are untouched |
| GrantsCache.Cache.InvalidatePrefix | internal/cache/grants_cache.go:55-63 | no key that continues the prefix is left, and every other entry stays as it was |
| GrantsCache.CallersMayMutate | internal/cache/grants_cache.go:38-49 | changing a stored or a returned set never changes the cache |
| Grants.GrantsForSubject | internal/policy/sqlite_engine.go:71-109 | cached grants if live, else the ACL answer, which is then stored; a failing query stores nothing |
| Grants.AclQueryIs | internal/policy/sqlite_engine.go:77-105 | an answer holds exactly what the tenant's rows for the type and action grant the user or one of its roles |
| Grants.KeyIdentifies | internal/policy/sqlite_engine.go:72-72 | colon-free requests with equal keys agree on tenant, user, resource type and action |
| Grants.KeysOfOneUser | internal/policy/sqlite_engine.go:72-72 | all keys of a user continue its tenant and user, then the resource type |
| Grants.SharedEntryCorrectIff | internal/policy/sqlite_engine.go:72-86 | one cached answer serves two requests for every ACL exactly when tenant, user, resource type, action and the set of roles agree |
| Grants.ColonFreeEntryCorrectIff | internal/policy/sqlite_engine.go:72-86 | among colon-free requests with equal keys, exactly when their role sets agree |
| Grants.ColonsCollide | internal/policy/sqlite_engine.go:72-72 | with a colon inside a part, users of different tenants share a key, and some ACL answers them differently |
| CacheRuns.StepKeepsInv | internal/cache/grants_cache.go:26-63 | every step of every thread keeps each entry and answer explained by the last store to its key |
| CacheRuns.HitsAreBounded | internal/cache/grants_cache.go:26-53 | in every interleaving a hit returns what the last store before the read put there, not invalidated since, and at most the time to live old |
| CacheRuns.UnchangedHitsAreFresh | internal/policy/sqlite_engine.go:71-109 | a hit equals a fresh ACL query when the ACL is unchanged since the entry was asked for and the two requests agree in tenant, user, type, action and roles |
| CacheRuns.UndisturbedLookup | internal/cache/grants_cache.go:26-43 | run without interruption, the three steps are the sequential lookup |
| CacheRuns.FreshEntryCanBeLost | internal/cache/grants_cache.go:30-36 | a reachable state in which a racing delete has dropped the live latest entry |
| CacheRuns.RevokedGrantCanBeServed | internal/policy/sqlite_engine.go:89-107 | a reachable state in which an answer from before a revocation and its invalidation is served |
| CacheRaces.InvalidationHoldsIff | internal/cache/grants_cache.go:26-63 | for every reachable state, prefix and key it covers: in every continuation every answer handed out, whenever its entry was read, was asked for after the invalidation, exactly when no thread held an unstored answer for the key nor a live entry read but not yet handed out |
| CacheRaces.EntryCanBeLostIff | internal/cache/grants_cache.go:26-53 | an entry just stored can be lost within its lifetime without an invalidation exactly when another thread has seen an expired entry for the key or holds one that expires by then |
| CacheAges.HitsWithinIff | internal/cache/grants_cache.go:26-53 | over all runs that store answers within a given wait, the age of the ACL answer behind every hit is bounded exactly by the lifetime plus that wait |
| CacheAges.DecisionIsRecent | internal/policy/sqlite_engine.go:33-64 | a decision on cached grants is the one the ACL gave at most lifetime plus wait ago, if asked by the same user with the same roles |
| FastPath.SendsNeverBlock | internal/http/server.go:439-469 | in every reachable state a sender finds room and an open channel, and after the close every worker has finished |
| FastPath.MeasureDecreases | internal/http/server.go:441-481 | every step of every thread lowers the work left |
| FastPath.EveryRunFinishes | internal/http/server.go:441-481 | runs are bounded, and a run that cannot go on has returned |
| FastPath.OutcomeIsScheduleFree | internal/http/server.go:471-561 | success exactly if every group succeeded; then the groups are a permutation of the results, the totals are fixed, and the reason code says whether any group shows or hides a row; otherwise the error of a failed group |
| FastPath.ReasonTellsTheTruth | internal/http/server.go:553-561 | each reason code is given exactly when it describes the results |
| ShippedDefinition.DefinitionIsWellFormed | internal/schema/ecommerce.go:37-472 | all fields and aliases of both shipped resources keep the discipline the other modules ask for |
| ShippedSchema.ShippedIsWellFormed | internal/schema/ecommerce.go:22-29 | the shipped registry is well formed and no field name belongs to both resources |
| ShippedSchema.ShippedLegacyApart | internal/schema/ecommerce.go:43-46 | no legacy name of either resource is a filterable canonical name |
| ShippedSchema.ShippedTableReady | internal/schema/ecommerce.go:37-41 | a database with a resource's table is ready for that resource |
| ShippedSchema.PromiseApplies | internal/search/service.go:57-143 | a table of any size and a query for all of it meet every condition of that promise |
| ShippedSchema.ShippedGuardReady | internal/schema/ecommerce.go:303-334 | the shipped roles leave the built-in deny list in force, and the shipment state has a column |
| ShippedSchema.ShippedWalkShowsExactlyThePermitted | internal/search/service.go:57-143 | the service's promise for both shipped resources, with nothing assumed of the registry |
| ShippedSchema.ShippedLimitsIff | internal/search/service.go:104-110 | for both shipped resources page limits of 500 and more are exactly those that never lose a permitted row |
| ShippedSchema.GroupValidatesIff | internal/http/server.go:446-452 | under v2 a fast-path group validates exactly when its match field and `created_at` are open to the default intent |
| ShippedSchema.GroupPassesIff | internal/http/server.go:446-453 | under any version a group reaches the store exactly when the version is v2, both fields are open and the operator takes a single value |
| ShippedSchema.CustomerGroupsFail | internal/schema/ecommerce.go:397-400 | no customer lookup of the fast path succeeds, under any contract version |
| ShippedSchema.TrackingGroupsFail | internal/schema/ecommerce.go:131-134 | no lookup by tracking number succeeds, under any contract version |
| ShippedSchema.DoomedGroupSinksPlan | internal/http/server.go:474-477 | one such group makes the whole fast path fail under every schedule |
| Ranking.Rank | internal/semantic/hybrid_retriever.go:116-120 | the sort lists every key once by descending score, ties in any order |
| Ranking.PrefixIsTopK | internal/semantic/hybrid_retriever.go:122-128 | truncating a ranking keeps the best, of the right number, and omits nothing better |
| Ranking.StrictOrderDecides | internal/semantic/hybrid_retriever.go:116-128 | with strictly falling scores there is only one possible top list |
| Fusion.AddScore | internal/semantic/hybrid_retriever.go:166-177 | only the trimmed, non-blank id gains, and only a positive score |
| Fusion.AddList | internal/semantic/hybrid_retriever.go:98-110 | a list adds to each id the sum of weight over rank plus one of its occurrences |
| Fusion.EffectiveLimitIs | internal/semantic/hybrid_retriever.go:80-125 | the number asked for, or the cap where none is, never more than a positive cap |
| Fusion.Fuse | internal/semantic/hybrid_retriever.go:94-138 | the scores are the sums over the three lists and the output is a top-k of them, within the cap and the number asked for |
| Fusion.IdentifierDominates | internal/semantic/retrieval_config.go:42-44 | under identifier-heavy weights the first result is an identifier hit, the rank-0 hit precedes every stranger, and no score exceeds 1 |
| Fusion.TopHitAlwaysFirstIff | internal/semantic/retrieval_config.go:42-44 | the rank-0 identifier hit is always first exactly when it is the only identifier hit |
| Fusion.OthersSilent | internal/semantic/hybrid_retriever.go:166-170 | empty or not positively weighted lists contribute nothing |
| Fusion.SoleListIsKept | internal/semantic/hybrid_retriever.go:94-138 | when one list alone can score, the output is a prefix of it, whatever the map order and the sort |
| Dedup.DedupeStrings | internal/semantic/hybrid_retriever.go:327-342 | the `seen` loop yields the non-blank entries, trimmed, each once |
| Dedup.DedupeTrimmedProperties | internal/semantic/analyzer_slm_local.go:422-437 | the result is distinct, trimmed, non-blank, complete, and holds nothing foreign |
| Dedup.KeepFirstOrder | internal/semantic/analyzer_slm_superlinked.go:146-158 | what a `seen` loop keeps is the first of each key, in order of first appearance |
| Dedup.DedupeTrimmedIdentity | internal/semantic/hybrid_retriever.go:327-342 | a list that is already distinct, trimmed and non-blank passes through unchanged |
| Dedup.KeepFirstIdempotent | internal/semantic/analyzer_slm_superlinked.go:146-158 | a second pass of a `seen` loop changes nothing |
| Dedup.AppendUnique | internal/semantic/analyzer_slm_superlinked.go:160-178 | the second list after the first, each entry once |
| Embedding.HashString | internal/semantic/embedding_index.go:170-180 | the loop computes the wrapped signed 64-bit hash, its negation included |
| Embedding.HashVectors | internal/semantic/embedding_index.go:170-175 | known hashes of the empty text and of two short words |
| Embedding.NegativeHashVector | internal/semantic/embedding_index.go:176-179 | a hash whose bits read as negative is negated |
| Embedding.RemIs | internal/semantic/embedding_index.go:140-141 | the remainder leaves a multiple, is smaller than the divisor and keeps the dividend's sign |
| Embedding.CellInRangeIff | internal/semantic/embedding_index.go:138-143 | every hash gives an index in range, the least integer included, exactly when the dimension divides 2^63 |
| Embedding.PowersAreSafe | internal/semantic/embedding_index.go:138-143 | every power of two up to 2^62 is such a dimension |
| Embedding.Reverse | internal/semantic/embedding_index.go:182-188 | the swap loop reverses the bytes |
| Embedding.ReversedConcat | internal/semantic/embedding_index.go:182-188 | reversing turns a concatenation around and leaves single bytes |
| Embedding.Accumulate | internal/semantic/embedding_index.go:134-144 | the loop leaves in each cell the count of tokens hashed there plus half the count of reversed ones |
| Embedding.RawAtCounts | internal/semantic/embedding_index.go:138-143 | a cell holds one for every token hashed there and a half for every token whose reversal is |
| Embedding.EmbedTokens | internal/semantic/embedding_index.go:127-157 | the in-place computation gives the specified vector |
| Embedding.EmbedIsUnit | internal/semantic/embedding_index.go:145-156 | the vector is zero exactly without tokens, and otherwise non-negative of length one |
| Embedding.EmbedIgnoresOrder | internal/semantic/embedding_index.go:134-144 | the vector depends on the multiset of tokens only |
| Embedding.Cosine | internal/semantic/embedding_index.go:159-168 | the loop computes the dot product, or zero for different lengths |
| Embedding.CosineBounds | internal/semantic/embedding_index.go:159-168 | between embeddings the cosine is in [0, 1], and 1 exactly for equal unit vectors |
| Embedding.TextSimilarity | internal/semantic/embedding_index.go:127-168 | two texts compare within [0, 1], and to 1 when non-empty and reorderings of each other |
| VectorIndex.TopK | internal/semantic/embedding_index.go:38-105 | nothing without tenant, resource type or a positive `k`, else the `k` best positive similarities, and a mismatch flag exactly when some vector has another length |
| VectorIndex.ScoresAreSimilarities | internal/semantic/embedding_index.go:67-86 | the scored rows are exactly those of positive similarity |
| VectorIndex.ReorderedTextLeads | internal/semantic/embedding_index.go:38-105 | a message stored under any word order is found first, by a row with exactly its vector, and nothing scores above 1 |
| RemoteValidation.ValidateRemoteResult | internal/semantic/analyzer_slm_local.go:350-406 | the method returns the completed result and all complaints without repeats |
| RemoteValidation.CompletedIs | internal/semantic/analyzer_slm_local.go:366-400 | what was missing is filled in from the call, the other intent or with twenty rows a page, and nothing else changes |
| RemoteValidation.ComplaintsAre | internal/semantic/analyzer_slm_local.go:353-404 | which complaint is raised for what |
| RemoteValidation.ComplaintsSurvive | internal/semantic/analyzer_slm_local.go:405-405 | deduplication never hides the last complaint, since none is blank |
| RemoteValidation.NoComplaintsIffClean | internal/semantic/analyzer_slm_local.go:350-406 | under v2 there is no complaint exactly when the completed result is clean |
| RewriteRouter.EnsureRuleFallback | internal/semantic/rewrite_intent_router.go:175-193 | the chain trimmed and deduplicated, with the rule provider added if missing |
| RewriteRouter.EnsureRuleIs | internal/semantic/rewrite_intent_router.go:175-193 | named providers first, in order of first mention, then the rule provider if it was not named |
| RewriteRouter.ResolveProviderChain | internal/semantic/rewrite_intent_router.go:141-164 | the first applicable route decides, else the defaults |
| RewriteRouter.FirstRouteDecides | internal/semantic/rewrite_intent_router.go:146-159 | the first route whose selectors are each unset or name what was asked gives the chain |
| RewriteRouter.DefaultsDecide | internal/semantic/rewrite_intent_router.go:161-163 | without such a route the defaults do |
| RewriteRouter.ChainsAreSound | internal/semantic/rewrite_intent_router.go:141-193 | every chain is free of repeats and blanks and contains the rule provider |
| RewriteRouter.WalkChain | internal/semantic/rewrite_intent_router.go:73-113 | the loop stops at the first provider that serves, with one gate reason per skipped one, in order |
| RewriteRouter.Analyze | internal/semantic/rewrite_intent_router.go:62-129 | the outcome is that of the first serving provider with the chain prefix up to it, or the last resort; at most one call more than the chain is long |
| RewriteRouter.TurnIs | internal/semantic/rewrite_intent_router.go:75-112 | every provider's turn, read off the configuration list: not found, silent, invalid, below the positive floor of its first entry, or served |
| RewriteRouter.LowConfidenceIsSkipped | internal/semantic/rewrite_intent_router.go:96-99 | an answer below the floor configured first for its provider never serves, and the reason is on record |
| RewriteRouter.CallsAreKnown | internal/semantic/rewrite_intent_router.go:75-85 | one call for each known provider on the way |
| RewriteRouter.OutcomeIsDetermined | internal/semantic/rewrite_intent_router.go:62-129 | that description admits one outcome per request |
| RewriteRouter.ServesIff | internal/semantic/rewrite_intent_router.go:75-99 | a provider serves exactly when it exists, answers, validates and meets its minimum confidence |
| RewriteRouter.ServedWithinChainIsClean | internal/semantic/rewrite_intent_router.go:91-112 | when some entry of the chain serves, a v2 result is clean |
| RewriteRouter.ServesOnlyCleanIff | internal/semantic/rewrite_intent_router.go:75-128 | for every chain and however providers answer, every v2 result served is clean exactly when there is no rule provider or none of its possible answers is unclean |
| RewriteRouter.AnyAnswerIsCleanIff | internal/semantic/rewrite_intent_router.go:115-128 | with nothing known of the answers, exactly when there is no rule provider |
| RewriteRouter.RefusedThenServed | internal/semantic/rewrite_intent_router.go:115-128 | on every chain, an answer the validator refuses is served when the rule provider repeats it and the others fail |
| ShippedSchema.CustomerAnswerIsServed | internal/semantic/parser.go:137-137 | the rule provider's answer to a bare customer hint is refused by the validator and by the service, and served by the router under every configuration and chain |
| Guardrail.Draft.RemoveShipped | internal/semantic/analyzer_slm_local.go:174-186 | what is left, in order and under canonical names, is every filter except equalities on the shipment state whose trimmed text is shipped, delivered or ready in any case |
| Guardrail.Draft.ApplyNotShippedFilters | internal/semantic/parser.go:461-484 | missing negations are appended, one deny entry after another |
| Guardrail.MissingNegationsFollow | internal/semantic/parser.go:472-484 | with the built-in states exactly the negations that are missing follow the filters, in their order |
| Guardrail.HasNegationIs | internal/semantic/parser.go:514-521 | a state counts as negated exactly by an inequality on the field, in any case, with the word up to case and blanks |
| Guardrail.Draft.ApplyMessageGuardrails | internal/semantic/analyzer_slm_local.go:159-190 | the guarded filters and marks exactly for order-status results with the cue, else nothing changes |
| Guardrail.DenyListIsBuiltInIff | internal/semantic/parser.go:467-478 | the registry supplies no deny list exactly when no role goes on after the dotted prefix with a second dot and one segment; otherwise the list is those roles |
| Guardrail.GuardIsIdempotent | internal/semantic/analyzer_slm_local.go:174-187 | guarding a guarded query changes nothing |
| Guardrail.MarkIsIdempotent | internal/semantic/analyzer_slm_local.go:188-189 | marking evidence or notes twice changes nothing |
| Guardrail.GuardKeepsValidIff | internal/semantic/analyzer_slm_local.go:174-187 | a query valid before the guardrail is valid after it exactly when the shipment state is open to the intent |
| Guardrail.GuardCompleteIff | internal/semantic/parser.go:514-521 | the guarded query negates each of the three states exactly as stored, exactly when no surviving negation is spelled otherwise |
| Guardrail.GuardedMeaning | internal/semantic/parser.go:461-521 | with exact negations the guarded query accepts exactly the rows of its surviving filters whose state is present and none of the three |
| Guardrail.MisspelledNegationLeaks | internal/semantic/parser.go:514-521 | with a negation spelled otherwise, a row in a denied state is accepted |
| Guardrail.GuardHoldsIff | internal/semantic/parser.go:461-521 | over state negations, the guard means what it should on every row exactly when they are exact |
| FilterMerge.MergeFilters | internal/semantic/analyzer_slm_superlinked.go:146-158 | the loop keeps the first filter of each key, in order |
| FilterMerge.MergeKeepsAllIff | internal/semantic/analyzer_slm_superlinked.go:146-158 | nothing but exact repeats is dropped exactly when keys tell the filters apart |
| FilterMerge.MergeMeansBoth | internal/semantic/analyzer_slm_superlinked.go:146-158 | the merged conjunction is both conjunctions together, on every row |
| FilterMerge.FirstStageLeads | internal/semantic/analyzer_slm_superlinked.go:149-156 | the first stage's filters lead, in their order |
| FilterMerge.BarFreeKeysSeparate | internal/semantic/filter_source.go:44-47 | bar-free names and an injective value encoding make keys tell filters apart |
| FilterMerge.BarsCollide | internal/semantic/filter_source.go:44-47 | with a bar in a name, two different filters share a key and one is lost |
| FilterMerge.MergeFilterSources | internal/semantic/filter_source.go:17-42 | the map loop labels each merged filter with its claimed source |
| FilterMerge.ProvenanceIsExact | internal/semantic/filter_source.go:17-42 | the label is the one stage that produced the filter, `both` exactly when both did, never `unknown` |
| QueryMerge.MergeQueryDSL | internal/semantic/analyzer_slm_superlinked.go:128-144 | the second query's scalars where set, the filters of both |
| QueryMerge.MergedScalars | internal/semantic/analyzer_slm_superlinked.go:128-144 | what the second query leaves unset the first decides, scalar by scalar; a page without a positive limit counts as unset |
| QueryMerge.MergedValidIff | internal/semantic/analyzer_slm_superlinked.go:128-144 | of two valid v2 queries the merged one is valid exactly when the first's fields are open to the merged intent |
| QueryMerge.CompatibleIntentsMerge | internal/semantic/analyzer_slm_superlinked.go:128-144 | equal intents, an unset second one or a default first one always merge into a valid query |
| QueryMerge.IntentChangeInvalidates | internal/semantic/analyzer_slm_superlinked.go:133-135 | a field open to one intent and not to another gives two valid queries whose merge is refused |
| QueryMerge.CleanFiltersAreBarFree | internal/semantic/analyzer_slm_local.go:382-391 | over bar-free names the filters of a clean result hold no bar |
| QueryMerge.CleanResultsMerge | internal/semantic/analyzer_slm_superlinked.go:146-158 | merging two clean results drops nothing but exact repeats |
| ShippedSchema.ShippedNamesAreBarFree | internal/schema/ecommerce.go:37-472 | no canonical name or alias of either shipped resource holds a bar |
| Gateway.Normalize | internal/semantic/superlinked_gateway.go:153-200 | kept ids with one clamped score each, every score read in range, or the refusal that applies |
| Gateway.KeptIds | internal/semantic/superlinked_gateway.go:164-183 | kept ids are distinct, trimmed, non-blank, within the cap, complete below it, and in order of first appearance |
| Gateway.AcceptedShape | internal/semantic/superlinked_gateway.go:177-200 | what is accepted has between one and the cap of ids and as many scores, all within [0, 1] |
| Gateway.RefusalsAre | internal/semantic/superlinked_gateway.go:177-187 | refused exactly without a visible id, or with scores for another number of raw ids |
| Gateway.OwnScoresIff | internal/semantic/superlinked_gateway.go:196-198 | every accepted payload with these raw ids returns each id its own raw score exactly when they are trimmed distinct and non-blank up to the cap, or up to a point after which nothing new comes |
| Gateway.BlankShiftsScores | internal/semantic/superlinked_gateway.go:196-198 | after a blank entry the returned score of an id is its predecessor's |

## Left out

- The SQLite driver, migrations, seeding and reindexing: a table is a parameter with a fixed listing per sort, so ties in ORDER BY are resolved the same way on every page.
- SQL text below the level of tokens, type affinity, collation and LIKE patterns: equality, order and LIKE are parameters of `Sql`; a column absent from a row reads as NULL, while the database would reject an unknown column.
- Parsing of stored documents: a row carries its document; documents that do not parse are not modelled.
- `Adapter.FetchByIDs` and `Adapter.GetByID`: single-statement lookups, easy beside `Search`.
- Non-ASCII case mapping, case folding and white space: lower-casing, folding and trimming work on ASCII letters and the ASCII blanks.
- Identifier patterns, enum values, operators and descriptions of the schema: single reads that nothing modelled uses. `nil` registries and providers registered as `nil` are unknown providers or not modelled.
- Notices, suggestions, latencies and the token attached to each redacted placeholder: constant texts or parameters.
- HMAC and JSON: the signature is a function and the payload encoding a function whose reading inverts it; a token's expiry is never read by the code and nothing is claimed about it.
- Loading of policy rules and ACL rows: relations given as parameters; loads may fail.
- EndToEnd.WalkShowsExactlyThePermitted: grants and rules are fixed for the whole walk, while the engine asks the cache anew for each row; `CacheAges` says how old the grants behind one decision can be.
- The clock: times are integers given as parameters or moved by steps.
- Documents, placeholders and debug objects of fast-path groups: a group carries its counts only. The plan itself, built from detected identifiers, is a parameter.
- Floating-point rounding: scores, weights and vectors are exact reals, and the square root is a parameter whose square gives its argument back.
- Splitting a text into lower-case words before hashing: the embedding takes the word list; an embedding provider other than the hashed one is not modelled.
- `sort.Slice`: modelled by what it guarantees, a descending listing with ties in any order.
- Evidence texts of fusion, strategy names and score printing: they do not affect the result.
- Model calls, prompts and timeouts: a provider call answers or does not, and may answer differently each time it is asked. Notes and model names on a served result are not modelled.
- Regular expressions and cue tables: whether a message asks for unshipped orders is a boolean.
- Printed forms of non-string filter values: none of them spells a shipment state.
- `removePaymentStateFilters` and `removeShipmentStateFilters`: single filters over a list, no harder than `RemoveShipped`.
- `mergeFilterSources` takes any number of groups; the model takes the two that are passed.
- Machine integers: unbounded, except where the width matters (the hash, the page limit product, the cursor).
- HTTP handlers other than the fan-out, configuration files, metrics, the web interface and the Mongo and Python adapters.
- Guardrail.GuardHoldsIff: the only-if half is stated for queries whose surviving filters are state negations, since another filter may already exclude the leaking row; `GuardCompleteIff` covers all queries.
- Fusion.Fuse: takes three lists as given; running the three candidate searches is not part of the model, and a negative effective limit, on which the original panics, is excluded.
- Gateway.Normalize: requires a positive cap, which the gateway's constructor enforces.
- VectorIndex.TopK: requires distinct row identifiers, which the table's primary key enforces.
- CacheRaces.EntryCanBeLostIff: the lifetime of entries is taken as not negative, as the constructor's only caller sets it; likewise in `InvalidationHoldsIff`.
