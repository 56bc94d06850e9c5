/**
  Contract governance: which field names a query may use, per contract version
  and intent, and the canonical spelling they are reduced to.
  */
module Contracts {
  import opened Text
  import opened Store
  import opened Schema

  const V1 := "v1"
  const V2 := "v2"

  const INTENT_DEFAULT := "default"
  const INTENT_WISMO := "wismo"
  const INTENT_CRM_PROFILE := "crm_profile"
  const INTENT_RETURNS_REFUNDS := "returns_refunds"

  /** Canonical form of a field name; unknown names come back lower-cased and trimmed. */
  function NormalizeField(reg: Registry, resource: string, field: string): string {
    var key := ToLower(TrimSpace(field));
    match reg.NormalizeField(resource, key)
    case Some(canonical) => canonical
    case None => key
  }

  /** `None` when the field may be used, otherwise the refusal. */
  function ValidateField(reg: Registry, resource: string, version: string, intent: string, field: string): Option<Error> {
    var scope := if intent == "" then INTENT_DEFAULT else intent;
    if version == V1 then
      var allowed := reg.GetV1SearchableFields(resource);
      if allowed == {} then Some(UnknownResource(resource))
      else if field !in allowed then Some(FieldNotAllowed(field))
      else None
    else if version == V2 then
      if resource !in reg.resources then Some(UnknownResource(resource))
      else if !reg.IsFieldAllowed(resource, scope, NormalizeField(reg, resource, field)) then Some(FieldNotAllowed(field))
      else None
    else Some(UnsupportedVersion(version))
  }

  /**
    A name is looked up trimmed and lower-cased: an alias gives its target, and
    any other name comes back trimmed and lower-cased.
    */
  lemma NormalizeFieldIs(reg: Registry, resource: string, field: string)
    ensures var key := ToLower(TrimSpace(field));
            && (resource in reg.aliasIndex && key in reg.aliasIndex[resource] ==>
                  NormalizeField(reg, resource, field) == reg.aliasIndex[resource][key])
            && (resource !in reg.aliasIndex || key !in reg.aliasIndex[resource] ==>
                  NormalizeField(reg, resource, field) == key)
  {
    KeyIsStable(field);
  }

  /** The field record, if any, lists the intent or is open by default. */
  ghost predicate Scoped(reg: Registry, resource: string, name: string, intent: string) {
    && resource in reg.fieldIndex && name in reg.fieldIndex[resource]
    && exists scope :: scope in reg.fieldIndex[resource][name].intentScopes && (scope == intent || scope == "default")
  }

  /**
    The contract: v1 knows the resource's legacy names, v2 the fields scoped to
    the intent, which is the default one if unset, and there is no other version.
    */
  lemma ValidateFieldIs(reg: Registry, resource: string, version: string, intent: string, field: string)
    ensures var verdict := ValidateField(reg, resource, version, intent, field);
            && (version == "v1" ==>
                  (verdict.None? <==> resource in reg.resources && field in reg.resources[resource].v1Fields))
            && (version == "v2" && intent != "" ==>
                  (verdict.None? <==> resource in reg.resources && Scoped(reg, resource, NormalizeField(reg, resource, field), intent)))
            && (version == "v2" && intent == "" ==>
                  (verdict.None? <==> resource in reg.resources && Scoped(reg, resource, NormalizeField(reg, resource, field), "default")))
            && (version != "v1" && version != "v2" ==> verdict == Some(UnsupportedVersion(version)))
            && (version == "v2" && resource !in reg.resources ==> verdict == Some(UnknownResource(resource)))
            && (version == "v2" && resource in reg.resources && verdict.Some? ==> verdict == Some(FieldNotAllowed(field)))
  {
  }

  /** Alias targets are spelled the way normalisation leaves them. */
  ghost predicate StableAliases(reg: Registry, resource: string) {
    resource in reg.aliasIndex ==>
      forall k | k in reg.aliasIndex[resource] && TrimSpace(k) == k ::
        NormalizeField(reg, resource, reg.aliasIndex[resource][k]) == reg.aliasIndex[resource][k]
  }

  /** Aliases are indexed by lower-case keys, as the registry constructor files them. */
  ghost predicate LowerAliasKeys(reg: Registry, resource: string) {
    resource in reg.aliasIndex ==> forall k | k in reg.aliasIndex[resource] :: ToLower(k) == k
  }

  lemma KeyIsStable(s: string)
    ensures var k := ToLower(TrimSpace(s)); TrimSpace(k) == k && ToLower(k) == k
  {
    TrimSpaceTrims(s);
    ToLowerStable(TrimSpace(s));
    TrimSpaceTrims(ToLower(TrimSpace(s)));
  }

  /** Normalising twice is normalising once exactly when alias targets are stable. */
  lemma NormalizeIdempotentIff(reg: Registry, resource: string)
    requires LowerAliasKeys(reg, resource)
    ensures (forall f :: NormalizeField(reg, resource, NormalizeField(reg, resource, f)) == NormalizeField(reg, resource, f))
            <==> StableAliases(reg, resource)
  {
    forall f
      ensures StableAliases(reg, resource) ==>
                NormalizeField(reg, resource, NormalizeField(reg, resource, f)) == NormalizeField(reg, resource, f)
    {
      KeyIsStable(f);
      KeyIsStable(ToLower(TrimSpace(f)));
    }
    if resource in reg.aliasIndex {
      forall k | k in reg.aliasIndex[resource] && TrimSpace(k) == k
        ensures NormalizeField(reg, resource, k) == reg.aliasIndex[resource][k]
      {
      }
    }
  }

  /** Validation does not distinguish a name from its canonical form. */
  lemma ValidateSeesThroughNormalize(reg: Registry, resource: string, intent: string, field: string)
    requires LowerAliasKeys(reg, resource) && StableAliases(reg, resource)
    ensures ValidateField(reg, resource, V2, intent, NormalizeField(reg, resource, field)).None?
            <==> ValidateField(reg, resource, V2, intent, field).None?
  {
    NormalizeIdempotentIff(reg, resource);
  }

  // ----- definitions whose registry behaves -----

  /** Canonical names are lower-case and trimmed, and an alias spelled like one resolves to it. */
  ghost predicate CanonicalNames(d: Resource) {
    && (forall f | f in d.fields :: ToLower(f.name) == f.name && TrimSpace(f.name) == f.name)
    && (forall a | a in d.aliases :: exists f :: f in d.fields && f.name == a.resolves)
    && (forall a, f | a in d.aliases && f in d.fields && ToLower(a.input) == f.name :: a.resolves == f.name)
  }

  /** Every field some intent may name can be filtered on, and the default sort is a field. */
  ghost predicate ServiceableFields(d: Resource) {
    && (forall f | f in d.fields && f.intentScopes != [] :: f.filterable)
    && (exists f :: f in d.fields && f.name == d.defaultSort)
  }

  ghost predicate WellFormed(defs: seq<Resource>) {
    forall d | d in defs :: CanonicalNames(d) && ServiceableFields(d)
  }

  /** The same discipline, read off the index. */
  ghost predicate WellFormedRegistry(reg: Registry) {
    && reg.Consistent()
    && (forall r | r in reg.resources ::
          && LowerAliasKeys(reg, r) && StableAliases(reg, r)
          && (forall n | n in reg.fieldIndex[r] && reg.fieldIndex[r][n].intentScopes != [] :: reg.fieldIndex[r][n].filterable)
          && reg.resources[r].defaultSort in reg.fieldIndex[r])
  }

  /** A well-formed definition yields a well-formed registry. */
  lemma WellFormedDefinitions(defs: seq<Resource>)
    requires WellFormed(defs)
    ensures WellFormedRegistry(Index(defs))
  {
    var reg := Index(defs);
    IndexConsistent(defs);
    forall r | r in reg.resources
      ensures LowerAliasKeys(reg, r) && StableAliases(reg, r)
      ensures forall n | n in reg.fieldIndex[r] && reg.fieldIndex[r][n].intentScopes != [] :: reg.fieldIndex[r][n].filterable
      ensures reg.resources[r].defaultSort in reg.fieldIndex[r]
    {
      var d :| d in defs && IndexedFrom(reg, r, d);
      FieldsIndexed(d.fields);
      AliasesIndexed(d.aliases);
      AliasesAreStable(reg, r, d);
    }
  }

  lemma AliasesAreStable(reg: Registry, r: string, d: Resource)
    requires IndexedFrom(reg, r, d) && CanonicalNames(d)
    ensures LowerAliasKeys(reg, r) && StableAliases(reg, r)
  {
    forall k | k in reg.aliasIndex[r]
      ensures ToLower(k) == k
      ensures NormalizeField(reg, r, reg.aliasIndex[r][k]) == reg.aliasIndex[r][k]
    {
      AliasTargetStable(reg, r, d, k);
    }
  }

  lemma AliasTargetStable(reg: Registry, r: string, d: Resource, k: string)
    requires IndexedFrom(reg, r, d) && CanonicalNames(d) && k in reg.aliasIndex[r]
    ensures ToLower(k) == k
    ensures NormalizeField(reg, r, reg.aliasIndex[r][k]) == reg.aliasIndex[r][k]
  {
    var m := reg.aliasIndex[r];
    AliasesIndexed(d.aliases);
    var a :| a in d.aliases && ToLower(a.input) == k && a.resolves == m[k];
    ToLowerStable(a.input);
    CanonicalNameStable(reg, r, d, m[k]);
  }

  lemma CanonicalNameStable(reg: Registry, r: string, d: Resource, n: string)
    requires IndexedFrom(reg, r, d) && CanonicalNames(d)
    requires exists f :: f in d.fields && f.name == n
    ensures NormalizeField(reg, r, n) == n
  {
    var f :| f in d.fields && f.name == n;
    assert ToLower(TrimSpace(n)) == n;
    if n in reg.aliasIndex[r] {
      AliasesIndexed(d.aliases);
      var b :| b in d.aliases && ToLower(b.input) == n && b.resolves == reg.aliasIndex[r][n];
    }
  }
}
