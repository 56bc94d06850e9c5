/**
  The rewrite router: walks a chain of providers until one returns a result
  that validates and is confident enough, and keeps a record of the others.
  */
module RewriteRouter {
  import opened Text
  import opened Dedup
  import opened Store
  import opened Schema
  import opened Contracts
  import opened RemoteValidation

  const RULE := "intent-rule"

  datatype Route = Route(tenantID: string, queryShape: string, intentCategory: string, primary: string, fallbacks: seq<string>)

  datatype ProviderConfig = ProviderConfig(id: string, minConfidence: real)

  datatype Config = Config(providers: seq<ProviderConfig>, routes: seq<Route>, primary: string, fallbacks: seq<string>)

  /** What one call of a provider yields; `None` stands for an error or a timeout. */
  type Call = Option<Analysis>

  /**
    The providers at hand. `calls(id, k)` is the answer to the k-th call of the
    whole request, so a provider asked twice may answer differently.
    */
  datatype Providers = Providers(known: set<string>, calls: (string, nat) -> Call)

  // ----- the chain -----

  predicate RouteApplies(r: Route, tenant: string, shape: string, intent: string) {
    && (r.tenantID != "" ==> r.tenantID == TrimSpace(tenant))
    && (r.queryShape != "" ==> r.queryShape == TrimSpace(shape))
    && (r.intentCategory != "" ==> r.intentCategory == TrimSpace(intent))
  }

  /** Trimmed, non-blank, without repeats, and ending in the rule provider if it was not named. */
  ghost function EnsureRule(chain: seq<string>): seq<string> {
    var d := DedupeTrimmed(chain);
    if RULE in d then d else d + [RULE]
  }

  method EnsureRuleFallback(chain: seq<string>) returns (out: seq<string>)
    ensures out == EnsureRule(chain)
  {
    out := DedupeStrings(chain);
    if RULE !in out {
      out := out + [RULE];
    }
  }

  /** The first applicable route decides; otherwise the defaults. */
  ghost function ChainFor(c: Config, routes: seq<Route>, tenant: string, shape: string, intent: string): seq<string> {
    if routes == [] then EnsureRule([c.primary] + c.fallbacks)
    else if RouteApplies(routes[0], tenant, shape, intent) then EnsureRule([routes[0].primary] + routes[0].fallbacks)
    else ChainFor(c, routes[1..], tenant, shape, intent)
  }

  method ResolveProviderChain(c: Config, tenant: string, shape: string, intent: string) returns (chain: seq<string>)
    ensures chain == ChainFor(c, c.routes, tenant, shape, intent)
  {
    for i := 0 to |c.routes|
      invariant ChainFor(c, c.routes, tenant, shape, intent) == ChainFor(c, c.routes[i..], tenant, shape, intent)
    {
      assert c.routes[i..][1..] == c.routes[i + 1..];
      if RouteApplies(c.routes[i], tenant, shape, intent) {
        chain := EnsureRuleFallback([c.routes[i].primary] + c.routes[i].fallbacks);
        return;
      }
    }
    chain := EnsureRuleFallback([c.primary] + c.fallbacks);
  }

  /** Named providers come first, in order of first mention; the rule provider follows if it was not named. */
  lemma EnsureRuleIs(chain: seq<string>)
    ensures DedupeTrimmed(chain) <= EnsureRule(chain)
    ensures RULE in DedupeTrimmed(chain) ==> |EnsureRule(chain)| == |DedupeTrimmed(chain)|
    ensures RULE !in DedupeTrimmed(chain) ==>
              |EnsureRule(chain)| == |DedupeTrimmed(chain)| + 1 && EnsureRule(chain)[|DedupeTrimmed(chain)|] == "intent-rule"
  {
  }

  /** Each selector of the route is unset or names what was asked, blanks aside. */
  ghost predicate Selects(r: Route, tenant: string, shape: string, intent: string) {
    && (r.tenantID == "" || r.tenantID == TrimSpace(tenant))
    && (r.queryShape == "" || r.queryShape == TrimSpace(shape))
    && (r.intentCategory == "" || r.intentCategory == TrimSpace(intent))
  }

  ghost predicate FirstSelected(routes: seq<Route>, tenant: string, shape: string, intent: string, i: nat) {
    && i < |routes| && Selects(routes[i], tenant, shape, intent)
    && forall j | 0 <= j < i :: !Selects(routes[j], tenant, shape, intent)
  }

  /** The first route that selects the request names the chain. */
  lemma {:induction false} FirstRouteDecides(c: Config, routes: seq<Route>, tenant: string, shape: string, intent: string, i: nat)
    requires FirstSelected(routes, tenant, shape, intent, i)
    ensures ChainFor(c, routes, tenant, shape, intent) == EnsureRule([routes[i].primary] + routes[i].fallbacks)
  {
    if i > 0 {
      assert !Selects(routes[0], tenant, shape, intent);
      assert forall j | 0 <= j < i :: routes[1..][j] == routes[j + 1];
      FirstRouteDecides(c, routes[1..], tenant, shape, intent, i - 1);
    }
  }

  /** When no route selects it, the defaults do. */
  lemma {:induction false} DefaultsDecide(c: Config, routes: seq<Route>, tenant: string, shape: string, intent: string)
    requires forall i | 0 <= i < |routes| :: !Selects(routes[i], tenant, shape, intent)
    ensures ChainFor(c, routes, tenant, shape, intent) == EnsureRule([c.primary] + c.fallbacks)
  {
    if routes != [] {
      assert !Selects(routes[0], tenant, shape, intent);
      DefaultsDecide(c, routes[1..], tenant, shape, intent);
    }
  }

  lemma RuleIsTrimmed()
    ensures RULE != "" && TrimSpace(RULE) == RULE
  {
    TrimSpaceTrims(RULE);
  }

  /** Every chain is free of repeats and blanks and contains the rule provider, which nothing but named providers precede. */
  lemma {:induction false} ChainsAreSound(c: Config, routes: seq<Route>, tenant: string, shape: string, intent: string)
    ensures var chain := ChainFor(c, routes, tenant, shape, intent);
            && Distinct(chain) && RULE in chain
            && (forall p | p in chain :: p != "" && IsTrimmed(p))
    decreases |routes|
  {
    if routes == [] {
      EnsureRuleSound([c.primary] + c.fallbacks);
    } else if RouteApplies(routes[0], tenant, shape, intent) {
      EnsureRuleSound([routes[0].primary] + routes[0].fallbacks);
    } else {
      ChainsAreSound(c, routes[1..], tenant, shape, intent);
    }
  }

  lemma EnsureRuleSound(chain: seq<string>)
    ensures var out := EnsureRule(chain);
            && Distinct(out) && RULE in out
            && (forall p | p in out :: p != "" && IsTrimmed(p))
            && (forall p | p in chain && TrimSpace(p) != "" :: TrimSpace(p) in out)
            && (forall p | p in out && p != RULE :: exists q :: q in chain && TrimSpace(q) == p)
  {
    DedupeTrimmedProperties(chain);
    RuleIsTrimmed();
    TrimSpaceTrims(RULE);
  }

  // ----- one provider's turn -----

  function MinConfidence(providers: seq<ProviderConfig>, id: string): real {
    if providers == [] then 0.0
    else if providers[0].id == id then providers[0].minConfidence
    else MinConfidence(providers[1..], id)
  }

  /** A validator completes an analysis and lists its errors; the router works with any. */
  datatype Validator = Validator(complete: Analysis -> Analysis, errors: Analysis -> seq<string>)

  /** The validator in use: what `ValidateRemoteResult` computes. */
  ghost function RemoteValidator(reg: Registry, version: string): Validator {
    Validator(a => Complete(a, version), a => DedupeTrimmed(Complaints(reg, a, version)))
  }

  datatype Verdict = Serves(result: Analysis) | Skipped(reason: string)

  /** What becomes of provider `id` when it is asked as call number `k`. */
  function Judge(v: Validator, c: Config, ps: Providers, id: string, k: nat): Verdict {
    if id !in ps.known then Skipped(id + ":provider_not_found")
    else
      match ps.calls(id, k)
      case None => Skipped(id + ":timeout_or_error")
      case Some(a) =>
        if v.errors(a) != [] then Skipped(id + ":invalid_output")
        else if MinConfidence(c.providers, id) > 0.0 && v.complete(a).confidence < MinConfidence(c.providers, id)
        then Skipped(id + ":low_confidence")
        else Serves(v.complete(a))
  }

  /** Entry `j` is the first of the list for this provider. */
  ghost predicate FirstEntry(providers: seq<ProviderConfig>, id: string, j: nat) {
    j < |providers| && providers[j].id == id && forall k | 0 <= k < j :: providers[k].id != id
  }

  /** The confidence is below the floor the provider's first entry sets, if it has one and it is positive. */
  ghost predicate BelowFloor(providers: seq<ProviderConfig>, id: string, confidence: real) {
    exists j: nat :: FirstEntry(providers, id, j) && providers[j].minConfidence > 0.0 && confidence < providers[j].minConfidence
  }

  lemma {:induction false} FloorIs(providers: seq<ProviderConfig>, id: string)
    ensures forall j: nat | FirstEntry(providers, id, j) :: MinConfidence(providers, id) == providers[j].minConfidence
    ensures (forall j: nat :: !FirstEntry(providers, id, j)) ==> MinConfidence(providers, id) == 0.0
  {
    if providers != [] {
      FloorIs(providers[1..], id);
      if providers[0].id == id {
        assert FirstEntry(providers, id, 0);
      } else {
        forall j: nat | FirstEntry(providers, id, j)
          ensures MinConfidence(providers, id) == providers[j].minConfidence
        {
          LaterEntry(providers, id, j);
        }
        if forall j: nat :: !FirstEntry(providers, id, j) {
          forall j: nat
            ensures !FirstEntry(providers[1..], id, j)
          {
            LaterEntry(providers, id, j + 1);
          }
        }
      }
    }
  }

  lemma LaterEntry(providers: seq<ProviderConfig>, id: string, j: nat)
    requires providers != [] && providers[0].id != id
    ensures FirstEntry(providers, id, j) <==> (j > 0 && FirstEntry(providers[1..], id, j - 1))
  {
    if j > 0 && j < |providers| {
      assert providers[1..][j - 1] == providers[j];
      assert forall k | 0 < k < j :: providers[1..][k - 1] == providers[k];
      if FirstEntry(providers[1..], id, j - 1) {
        forall k | 0 <= k < j
          ensures providers[k].id != id
        {
          assert k > 0 ==> providers[k] == providers[1..][k - 1];
        }
      }
    }
  }

  lemma BelowFloorIff(providers: seq<ProviderConfig>, id: string, confidence: real)
    ensures BelowFloor(providers, id, confidence)
            <==> MinConfidence(providers, id) > 0.0 && confidence < MinConfidence(providers, id)
  {
    FloorIs(providers, id);
    if MinConfidence(providers, id) > 0.0 {
      var j: nat :| FirstEntry(providers, id, j);
    }
  }

  /** How many calls the first `n` chain entries cost; unknown providers are not called. */
  function CallsBefore(ps: Providers, chain: seq<string>, n: nat): nat
    requires n <= |chain|
  {
    if n == 0 then 0 else CallsBefore(ps, chain, n - 1) + if chain[n - 1] in ps.known then 1 else 0
  }

  /** One call for each known provider on the way. */
  lemma {:induction false} CallsAreKnown(ps: Providers, chain: seq<string>, n: nat)
    requires n <= |chain|
    ensures CallsBefore(ps, chain, n) == |Select(chain[..n], id => id in ps.known)|
  {
    if n > 0 {
      CallsAreKnown(ps, chain, n - 1);
      assert chain[..n][..n - 1] == chain[..n - 1];
    }
  }

  function VerdictAt(v: Validator, c: Config, ps: Providers, chain: seq<string>, i: nat): Verdict
    requires i < |chain|
  {
    Judge(v, c, ps, chain[i], CallsBefore(ps, chain, i))
  }

  /** The gate reasons of the first `n` chain entries, none of which serves. */
  ghost predicate ReasonsOf(v: Validator, c: Config, ps: Providers, chain: seq<string>, n: nat, reasons: seq<string>)
    requires n <= |chain|
  {
    && |reasons| == n
    && forall i | 0 <= i < n :: VerdictAt(v, c, ps, chain, i) == Skipped(reasons[i])
  }

  datatype Outcome =
    | Served(result: Analysis, provider: string, chain: seq<string>, reasons: seq<string>, calls: nat)
    | Unavailable(calls: nat)

  /** Entry `i` serves and none before it does. */
  ghost predicate FirstServing(v: Validator, c: Config, ps: Providers, chain: seq<string>, i: nat) {
    && i < |chain|
    && VerdictAt(v, c, ps, chain, i).Serves?
    && forall j | 0 <= j < i :: VerdictAt(v, c, ps, chain, j).Skipped?
  }

  ghost predicate NoneServes(v: Validator, c: Config, ps: Providers, chain: seq<string>) {
    forall j | 0 <= j < |chain| :: VerdictAt(v, c, ps, chain, j).Skipped?
  }

  /** Served from within the chain: by entry `i`, with the chain up to it and a reason per entry before it. */
  ghost predicate ServedBy(v: Validator, c: Config, ps: Providers, chain: seq<string>, i: nat, r: Outcome)
    requires i < |chain| && VerdictAt(v, c, ps, chain, i).Serves?
  {
    && r.Served? && r.provider == chain[i] && r.chain == chain[..i + 1]
    && r.result == VerdictAt(v, c, ps, chain, i).result
    && ReasonsOf(v, c, ps, chain, i, r.reasons)
    && r.calls == CallsBefore(ps, chain, i + 1)
  }

  /** The last resort: the rule provider, asked once more, its answer passed on as it is. */
  ghost predicate LastResort(v: Validator, c: Config, ps: Providers, chain: seq<string>, r: Outcome) {
    var n := CallsBefore(ps, chain, |chain|);
    if RULE !in ps.known then r == Unavailable(n)
    else
      match ps.calls(RULE, n)
      case None => r == Unavailable(n + 1)
      case Some(a) =>
        && r.Served? && r.result == a && r.provider == RULE && r.chain == chain + [RULE]
        && ReasonsOf(v, c, ps, chain, |chain|, r.reasons)
        && r.calls == n + 1
  }

  ghost predicate IsOutcome(v: Validator, c: Config, ps: Providers, chain: seq<string>, r: Outcome) {
    && (forall i: nat | FirstServing(v, c, ps, chain, i) :: ServedBy(v, c, ps, chain, i, r))
    && (NoneServes(v, c, ps, chain) ==> LastResort(v, c, ps, chain, r))
    && r.calls <= |chain| + 1
  }

  /** Asks one provider and applies the three gates in turn. */
  method Ask(v: Validator, c: Config, ps: Providers, id: string, k: nat) returns (verdict: Verdict)
    ensures verdict == Judge(v, c, ps, id, k)
  {
    if id !in ps.known {
      return Skipped(id + ":provider_not_found");
    }
    var answer := ps.calls(id, k);
    if answer.None? {
      return Skipped(id + ":timeout_or_error");
    }
    var normalized, errs := v.complete(answer.value), v.errors(answer.value);
    if |errs| > 0 {
      return Skipped(id + ":invalid_output");
    }
    var floor := MinConfidence(c.providers, id);
    if floor > 0.0 && normalized.confidence < floor {
      return Skipped(id + ":low_confidence");
    }
    verdict := Serves(normalized);
  }

  /** The loop over the chain: stops at the first provider that serves. */
  method WalkChain(v: Validator, c: Config, ps: Providers, chain: seq<string>)
    returns (i: nat, served: Option<Analysis>, reasons: seq<string>, calls: nat)
    ensures i <= |chain| && ReasonsOf(v, c, ps, chain, i, reasons)
    ensures served.Some? <==> i < |chain|
    ensures served.Some? ==> VerdictAt(v, c, ps, chain, i) == Serves(served.value)
    ensures calls == CallsBefore(ps, chain, if i < |chain| then i + 1 else i)
  {
    i, reasons, calls := 0, [], 0;
    while i < |chain|
      invariant i <= |chain| && ReasonsOf(v, c, ps, chain, i, reasons)
      invariant calls == CallsBefore(ps, chain, i)
    {
      var verdict := Ask(v, c, ps, chain[i], calls);
      if chain[i] in ps.known {
        calls := calls + 1;
      }
      if verdict.Serves? {
        return i, Some(verdict.result), reasons, calls;
      }
      reasons := reasons + [verdict.reason];
      i := i + 1;
    }
    served := None;
  }

  /** Runs the chain until a provider serves; failing that, falls back on the last resort. */
  method Analyze(v: Validator, c: Config, ps: Providers, chain: seq<string>) returns (r: Outcome)
    ensures IsOutcome(v, c, ps, chain, r)
  {
    var i, served, reasons, calls := WalkChain(v, c, ps, chain);
    CallsBounded(ps, chain, |chain|);
    if served.Some? {
      CallsBounded(ps, chain, i + 1);
      r := Served(served.value, chain[i], chain[..i + 1], reasons, calls);
      FirstIsUnique(v, c, ps, chain, i, reasons);
      return;
    }
    NoneFirst(v, c, ps, chain, reasons);
    if RULE !in ps.known {
      return Unavailable(calls);
    }
    var last := ps.calls(RULE, calls);
    calls := calls + 1;
    if last.None? {
      return Unavailable(calls);
    }
    r := Served(last.value, RULE, chain + [RULE], reasons, calls);
  }

  lemma {:induction false} CallsBounded(ps: Providers, chain: seq<string>, n: nat)
    requires n <= |chain|
    ensures CallsBefore(ps, chain, n) <= n
  {
    if n > 0 {
      CallsBounded(ps, chain, n - 1);
    }
  }

  lemma FirstIsUnique(v: Validator, c: Config, ps: Providers, chain: seq<string>, i: nat, reasons: seq<string>)
    requires i < |chain| && ReasonsOf(v, c, ps, chain, i, reasons)
    requires VerdictAt(v, c, ps, chain, i).Serves?
    ensures forall k: nat | FirstServing(v, c, ps, chain, k) :: k == i
    ensures !NoneServes(v, c, ps, chain)
  {
    forall k: nat | FirstServing(v, c, ps, chain, k)
      ensures k == i
    {
    }
  }

  lemma NoneFirst(v: Validator, c: Config, ps: Providers, chain: seq<string>, reasons: seq<string>)
    requires ReasonsOf(v, c, ps, chain, |chain|, reasons)
    ensures forall k: nat :: !FirstServing(v, c, ps, chain, k)
  {
    forall k: nat | k < |chain|
      ensures VerdictAt(v, c, ps, chain, k).Skipped?
    {
      assert VerdictAt(v, c, ps, chain, k) == Skipped(reasons[k]);
    }
  }

  /** Either some entry is the first to serve, or none serves. */
  lemma {:induction false} FirstOrNone(v: Validator, c: Config, ps: Providers, chain: seq<string>, n: nat) returns (i: nat)
    requires n <= |chain|
    ensures i <= n && forall j | 0 <= j < i :: VerdictAt(v, c, ps, chain, j).Skipped?
    ensures i < n ==> VerdictAt(v, c, ps, chain, i).Serves?
  {
    i := 0;
    if n > 0 {
      i := FirstOrNone(v, c, ps, chain, n - 1);
      if i == n - 1 && VerdictAt(v, c, ps, chain, i).Skipped? {
        i := n;
      }
    }
  }

  /** The description leaves no choice: a request has one outcome. */
  lemma OutcomeIsDetermined(v: Validator, c: Config, ps: Providers, chain: seq<string>, r: Outcome, r': Outcome)
    requires IsOutcome(v, c, ps, chain, r) && IsOutcome(v, c, ps, chain, r')
    ensures r == r'
  {
    var i := FirstOrNone(v, c, ps, chain, |chain|);
    if i < |chain| {
      assert FirstServing(v, c, ps, chain, i);
      assert ServedBy(v, c, ps, chain, i, r) && ServedBy(v, c, ps, chain, i, r');
      assert r.reasons == r'.reasons by {
        assert forall j | 0 <= j < i :: Skipped(r.reasons[j]) == Skipped(r'.reasons[j]);
      }
    } else {
      assert NoneServes(v, c, ps, chain);
      if r.Served? {
        assert r.reasons == r'.reasons by {
          assert forall j | 0 <= j < |chain| :: Skipped(r.reasons[j]) == Skipped(r'.reasons[j]);
        }
      }
    }
  }

  // ----- what being served means -----

  ghost predicate Confident(c: Config, id: string, out: Analysis) {
    !BelowFloor(c.providers, id, out.confidence)
  }

  /** A provider serves exactly when it exists, answers, validates without complaint and meets its floor. */
  lemma ServesIff(reg: Registry, version: string, c: Config, ps: Providers, id: string, k: nat)
    ensures Judge(RemoteValidator(reg, version), c, ps, id, k).Serves?
            <==> && id in ps.known
                 && ps.calls(id, k).Some?
                 && Complaints(reg, ps.calls(id, k).value, version) == []
                 && Confident(c, id, Complete(ps.calls(id, k).value, version))
  {
    TurnIs(RemoteValidator(reg, version), c, ps, id, k);
    if ps.calls(id, k).Some? {
      ComplaintsSurvive(reg, ps.calls(id, k).value, version);
    }
  }

  /**
    Every provider's turn, read off the configuration list: unknown, silent,
    refused, below the floor of its first entry, or served.
    */
  lemma TurnIs(v: Validator, c: Config, ps: Providers, id: string, k: nat)
    ensures var verdict := Judge(v, c, ps, id, k);
            && (id !in ps.known ==> verdict == Skipped(id + ":provider_not_found"))
            && (id in ps.known && ps.calls(id, k).None? ==> verdict == Skipped(id + ":timeout_or_error"))
            && (id in ps.known && ps.calls(id, k).Some? ==>
                  var a := ps.calls(id, k).value;
                  && (v.errors(a) != [] ==> verdict == Skipped(id + ":invalid_output"))
                  && (v.errors(a) == [] && BelowFloor(c.providers, id, v.complete(a).confidence) ==>
                        verdict == Skipped(id + ":low_confidence"))
                  && (v.errors(a) == [] && !BelowFloor(c.providers, id, v.complete(a).confidence) ==>
                        verdict == Serves(v.complete(a))))
  {
    if id in ps.known && ps.calls(id, k).Some? {
      BelowFloorIff(c.providers, id, v.complete(ps.calls(id, k).value).confidence);
    }
  }

  /**
    The confidence gate on a whole request: an entry of the chain whose answer
    validates but lies below the floor configured first for it is never the one
    that serves, and if the request got past it the reason is on record.
    */
  lemma LowConfidenceIsSkipped(v: Validator, c: Config, ps: Providers, chain: seq<string>, r: Outcome, i: nat)
    requires IsOutcome(v, c, ps, chain, r) && i < |chain| && chain[i] in ps.known
    requires var call := ps.calls(chain[i], CallsBefore(ps, chain, i));
             call.Some? && v.errors(call.value) == [] && BelowFloor(c.providers, chain[i], v.complete(call.value).confidence)
    ensures !FirstServing(v, c, ps, chain, i)
    ensures r.Served? && i < |r.reasons| ==> r.reasons[i] == chain[i] + ":low_confidence"
  {
    TurnIs(v, c, ps, chain[i], CallsBefore(ps, chain, i));
    var j := FirstOrNone(v, c, ps, chain, |chain|);
    if j < |chain| {
      assert FirstServing(v, c, ps, chain, j);
    } else {
      assert NoneServes(v, c, ps, chain);
    }
  }

  /** When some entry serves, the result is that of the first such entry. */
  lemma ServedWithinChain(v: Validator, c: Config, ps: Providers, chain: seq<string>, r: Outcome) returns (i: nat)
    requires IsOutcome(v, c, ps, chain, r) && !NoneServes(v, c, ps, chain)
    ensures FirstServing(v, c, ps, chain, i) && ServedBy(v, c, ps, chain, i, r)
  {
    i := FirstOrNone(v, c, ps, chain, |chain|);
    assert i == |chain| ==> NoneServes(v, c, ps, chain);
    assert i < |chain| ==> FirstServing(v, c, ps, chain, i);
  }

  /** What the remote validator lets through under contract v2 is clean. */
  lemma AcceptedIsClean(reg: Registry, version: string, a: Analysis)
    requires RemoteValidator(reg, version).errors(a) == []
    requires RemoteValidator(reg, version).complete(a).query.contractVersion == V2
    ensures Clean(reg, RemoteValidator(reg, version).complete(a))
  {
    NoComplaintsIffClean(reg, a, version);
  }

  /** When some entry serves, the result was accepted by the validator and is confident enough. */
  lemma ServedWasAccepted(v: Validator, c: Config, ps: Providers, chain: seq<string>, r: Outcome) returns (a: Analysis)
    requires IsOutcome(v, c, ps, chain, r) && !NoneServes(v, c, ps, chain)
    ensures r.Served? && v.errors(a) == [] && r.result == v.complete(a)
    ensures r.provider in chain && Confident(c, r.provider, r.result)
  {
    var i := ServedWithinChain(v, c, ps, chain, r);
    a := ps.calls(chain[i], CallsBefore(ps, chain, i)).value;
    TurnIs(v, c, ps, chain[i], CallsBefore(ps, chain, i));
  }

  /** When some entry serves, a v2 result is clean. */
  lemma ServedWithinChainIsClean(reg: Registry, version: string, c: Config, ps: Providers, chain: seq<string>, r: Outcome)
    requires IsOutcome(RemoteValidator(reg, version), c, ps, chain, r) && !NoneServes(RemoteValidator(reg, version), c, ps, chain)
    requires r.Served? && r.result.query.contractVersion == V2
    ensures Clean(reg, r.result)
  {
    var a := ServedWasAccepted(RemoteValidator(reg, version), c, ps, chain, r);
    AcceptedIsClean(reg, version, a);
  }

  // ----- when everything served is clean -----

  /** Every answer the rule provider gives is one of these. */
  ghost predicate RuleAnswersIn(ps: Providers, answers: Analysis -> bool) {
    forall k: nat :: ps.calls(RULE, k).Some? ==> answers(ps.calls(RULE, k).value)
  }

  /** Whatever the other providers answer, every v2 result the router serves is clean. */
  ghost predicate ServesOnlyClean(reg: Registry, version: string, c: Config, known: set<string>, chain: seq<string>,
                                  answers: Analysis -> bool)
  {
    forall calls, r: Outcome
      | && RuleAnswersIn(Providers(known, calls), answers)
        && IsOutcome(RemoteValidator(reg, version), c, Providers(known, calls), chain, r)
        && r.Served? && r.result.query.contractVersion == V2 ::
      Clean(reg, r.result)
  }

  /** A served v2 result is clean if the last resort cannot give an unclean one. */
  lemma CleanWhenRuleIs(reg: Registry, version: string, c: Config, ps: Providers, chain: seq<string>,
                        answers: Analysis -> bool, r: Outcome)
    requires RuleAnswersIn(ps, answers) && IsOutcome(RemoteValidator(reg, version), c, ps, chain, r)
    requires r.Served? && r.result.query.contractVersion == V2
    requires RULE !in ps.known || forall a: Analysis | answers(a) && a.query.contractVersion == V2 :: Clean(reg, a)
    ensures Clean(reg, r.result)
  {
    var v := RemoteValidator(reg, version);
    var i := FirstOrNone(v, c, ps, chain, |chain|);
    if i < |chain| {
      ServedWithinChainIsClean(reg, version, c, ps, chain, r);
    } else {
      assert NoneServes(v, c, ps, chain);
      assert answers(r.result);
    }
  }

  lemma {:induction false} CallsGrow(ps: Providers, chain: seq<string>, i: nat, n: nat)
    requires i <= n <= |chain|
    ensures CallsBefore(ps, chain, i) <= CallsBefore(ps, chain, n)
    decreases n
  {
    if i < n {
      CallsGrow(ps, chain, i, n - 1);
    }
  }

  lemma {:induction false} CallsDependOnKnown(ps: Providers, ps': Providers, chain: seq<string>, n: nat)
    requires n <= |chain| && ps.known == ps'.known
    ensures CallsBefore(ps, chain, n) == CallsBefore(ps', chain, n)
  {
    if n > 0 {
      CallsDependOnKnown(ps, ps', chain, n - 1);
    }
  }

  /** When no entry serves, the rule provider's next answer is served as it is. */
  lemma LastAnswerIsServed(v: Validator, c: Config, ps: Providers, chain: seq<string>) returns (r: Outcome)
    requires NoneServes(v, c, ps, chain) && RULE in ps.known
    requires ps.calls(RULE, CallsBefore(ps, chain, |chain|)).Some?
    ensures IsOutcome(v, c, ps, chain, r)
    ensures r.Served? && r.result == ps.calls(RULE, CallsBefore(ps, chain, |chain|)).value
  {
    var n := CallsBefore(ps, chain, |chain|);
    var reasons := seq(|chain|, i requires 0 <= i < |chain| && NoneServes(v, c, ps, chain) => VerdictAt(v, c, ps, chain, i).reason);
    r := Served(ps.calls(RULE, n).value, RULE, chain + [RULE], reasons, n + 1);
    CallsBounded(ps, chain, |chain|);
    assert ReasonsOf(v, c, ps, chain, |chain|, reasons);
    NoneFirst(v, c, ps, chain, reasons);
  }

  /** Providers that stay silent through the chain, and a rule provider that answers only when asked last. */
  lemma SilentChain(v: Validator, c: Config, known: set<string>, chain: seq<string>, last: Analysis) returns (ps: Providers, r: Outcome)
    requires RULE in known
    ensures ps.known == known && RuleAnswersIn(ps, a => a == last)
    ensures IsOutcome(v, c, ps, chain, r) && r.Served? && r.result == last
  {
    var n := CallsBefore(Providers(known, (id, k) => None), chain, |chain|);
    ps := Providers(known, (id, k) => if id == RULE && k == n then Some(last) else None);
    CallsDependOnKnown(ps, Providers(known, (id, k) => None), chain, |chain|);
    forall j | 0 <= j < |chain|
      ensures VerdictAt(v, c, ps, chain, j).Skipped?
    {
      CallsGrow(ps, chain, j + 1, |chain|);
    }
    r := LastAnswerIsServed(v, c, ps, chain);
  }

  /**
    Everything the router serves under contract v2 is clean, for every chain and
    however the providers answer, exactly when there is no rule provider or none
    of its possible answers is unclean.
    */
  lemma ServesOnlyCleanIff(reg: Registry, version: string, c: Config, known: set<string>, chain: seq<string>, answers: Analysis -> bool)
    ensures ServesOnlyClean(reg, version, c, known, chain, answers)
            <==> RULE !in known || forall a: Analysis | answers(a) && a.query.contractVersion == V2 :: Clean(reg, a)
  {
    if RULE !in known || forall a: Analysis | answers(a) && a.query.contractVersion == V2 :: Clean(reg, a) {
      forall calls, r: Outcome
        | && RuleAnswersIn(Providers(known, calls), answers)
          && IsOutcome(RemoteValidator(reg, version), c, Providers(known, calls), chain, r)
          && r.Served? && r.result.query.contractVersion == V2
        ensures Clean(reg, r.result)
      {
        CleanWhenRuleIs(reg, version, c, Providers(known, calls), chain, answers, r);
      }
    } else {
      var bad: Analysis :| answers(bad) && bad.query.contractVersion == V2 && !Clean(reg, bad);
      UncleanCanBeServed(reg, version, c, known, chain, answers, bad);
    }
  }

  lemma UncleanCanBeServed(reg: Registry, version: string, c: Config, known: set<string>, chain: seq<string>,
                           answers: Analysis -> bool, bad: Analysis)
    requires RULE in known && answers(bad) && bad.query.contractVersion == V2 && !Clean(reg, bad)
    ensures !ServesOnlyClean(reg, version, c, known, chain, answers)
  {
    var ps, r := SilentChain(RemoteValidator(reg, version), c, known, chain, bad);
    assert Providers(known, ps.calls) == ps;
    assert RuleAnswersIn(Providers(known, ps.calls), answers);
  }

  /** With nothing known of the rule provider's answers, exactly when there is no rule provider. */
  lemma AnyAnswerIsCleanIff(reg: Registry, version: string, c: Config, known: set<string>, chain: seq<string>)
    ensures ServesOnlyClean(reg, version, c, known, chain, a => true) <==> RULE !in known
  {
    var bad := Analysis(QueryDSL(V2, "", [], Sort("", ""), Page(20, "")), "", "", 1.0);
    assert !KnownResource(bad.resourceType) && !Clean(reg, bad);
    ServesOnlyCleanIff(reg, version, c, known, chain, a => true);
    if RULE in known {
      assert (a => true)(bad);
    }
  }

  /**
    An answer the validator refuses within the chain is served after it, whatever
    the chain: here the rule provider always answers the same and the others never do.
    */
  lemma RefusedThenServed(v: Validator, c: Config, known: set<string>, chain: seq<string>, bad: Analysis)
    returns (ps: Providers, r: Outcome)
    requires RULE in known && v.errors(bad) != []
    ensures ps.known == known && forall id, k :: ps.calls(id, k) == if id == RULE then Some(bad) else None
    ensures IsOutcome(v, c, ps, chain, r) && r.Served? && r.result == bad
  {
    ps := Providers(known, (id, k) => if id == RULE then Some(bad) else None);
    forall j | 0 <= j < |chain|
      ensures VerdictAt(v, c, ps, chain, j).Skipped?
    {
    }
    r := LastAnswerIsServed(v, c, ps, chain);
  }
}
