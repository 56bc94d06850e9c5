/**
  The not-shipped guardrail: when a message asks for orders that have not
  shipped, positive shipment-state filters are removed and the three shipped
  states are negated.
  */
module Guardrail {
  import opened Text
  import opened Dedup
  import opened Store
  import opened Schema
  import opened Contracts
  import opened Sql
  import opened SqliteAdapter

  const EVIDENCE := "guardrail:not_shipped"
  const NOTE := "guardrail_not_shipped_enforced"

  const STATE := "shipment.state"
  const SHIPPED := "Shipped"
  const DELIVERED := "Delivered"
  const READY := "Ready"

  /** The prefix the deny roles are asked for under, its trailing dot included. */
  const DENY_PREFIX := "shipment.not_shipped_deny."

  datatype Deny = Deny(field: string, value: string)

  const DEFAULT_DENY: seq<Deny> := [Deny(STATE, SHIPPED), Deny(STATE, DELIVERED), Deny(STATE, READY)]

  function RolesToDeny(roles: seq<EnumRole>): seq<Deny> {
    seq(|roles|, i requires 0 <= i < |roles| => Deny(roles[i].field, roles[i].value))
  }

  /** The deny list: the registry's roles under the dotted prefix, or else the three built-in states. */
  function DenyList(reg: Registry): seq<Deny> {
    var roles := reg.GetEnumRolesByPrefix(DENY_PREFIX);
    if roles == [] then DEFAULT_DENY else RolesToDeny(roles)
  }

  /**
    The built-in states are used unless some role's name goes on with a second
    dot and one more segment; a role with a single dot is never found.
    */
  lemma DenyListIsBuiltInIff(defs: seq<Resource>)
    ensures Index(defs).GetEnumRolesByPrefix(DENY_PREFIX) == []
            <==> forall d, e | d in defs && e in d.enumRoles :: !FiledUnder(e.role, DENY_PREFIX)
    ensures (forall d, e | d in defs && e in d.enumRoles :: !FiledUnder(e.role, DENY_PREFIX))
            ==> DenyList(Index(defs)) == DEFAULT_DENY
    ensures (exists d, e :: d in defs && e in d.enumRoles && FiledUnder(e.role, DENY_PREFIX))
            ==> DenyList(Index(defs)) == RolesToDeny(AllFiled(defs, DENY_PREFIX))
  {
    PrefixFindsNothingIff(defs, DENY_PREFIX);
    PrefixLookup(defs, DENY_PREFIX);
  }

  /** The text of a string value, trimmed, spells the word up to case; no other value does. */
  predicate Spells(v: Value, word: string) {
    v.Str? && EqualFold(TrimSpace(v.s), word)
  }

  predicate IsNegation(f: Filter, d: Deny) {
    f.field == d.field && EqualFold(f.op, "neq") && Spells(f.value, d.value)
  }

  predicate HasStateNegation(filters: seq<Filter>, d: Deny) {
    exists f :: f in filters && IsNegation(f, d)
  }

  /** Some filter of the field is an inequality, in any case, with the denied word up to case and blanks. */
  ghost predicate Negated(filters: seq<Filter>, field: string, word: string) {
    exists f :: f in filters && f.field == field && ToLower(f.op) == "neq"
                && f.value.Str? && ToLower(TrimSpace(f.value.s)) == ToLower(word)
  }

  lemma HasNegationIs(filters: seq<Filter>, d: Deny)
    ensures HasStateNegation(filters, d) <==> Negated(filters, d.field, d.value)
  {
    assert ToLower("neq") == "neq";
  }

  /** Appends the missing negations, one deny entry at a time. */
  function ApplyNotShipped(filters: seq<Filter>, deny: seq<Deny>): seq<Filter> {
    if deny == [] then filters
    else
      var d := deny[|deny| - 1];
      var before := ApplyNotShipped(filters, deny[..|deny| - 1]);
      if HasStateNegation(before, d) then before else before + [Filter(d.field, "neq", Str(d.value))]
  }

  /** A positive filter on one of the three shipped states. */
  predicate AsksForShipped(reg: Registry, f: Filter) {
    && NormalizeField(reg, "order", f.field) == STATE
    && EqualFold(f.op, "eq")
    && (Spells(f.value, SHIPPED) || Spells(f.value, DELIVERED) || Spells(f.value, READY))
  }

  function Canonical(reg: Registry, f: Filter): Filter {
    f.(field := NormalizeField(reg, "order", f.field))
  }

  /** What the first loop leaves: no positive shipped filters, canonical field names. */
  function Survivors(reg: Registry, filters: seq<Filter>): seq<Filter> {
    if filters == [] then []
    else
      var f := filters[|filters| - 1];
      Survivors(reg, filters[..|filters| - 1]) + if AsksForShipped(reg, f) then [] else [Canonical(reg, f)]
  }

  /**
    A filter is dropped when it is an equality, in any case, on a name for the
    shipment state, with a text that is one of three words up to case and blanks.
    */
  ghost predicate Dropped(reg: Registry, f: Filter) {
    && NormalizeField(reg, "order", f.field) == "shipment.state"
    && ToLower(f.op) == "eq"
    && f.value.Str? && ToLower(TrimSpace(f.value.s)) in {"shipped", "delivered", "ready"}
  }

  lemma StateWords()
    ensures ToLower(SHIPPED) == "shipped" && ToLower(DELIVERED) == "delivered" && ToLower(READY) == "ready"
    ensures ToLower("eq") == "eq"
  {
  }

  lemma AsksIsDropped(reg: Registry, f: Filter)
    ensures AsksForShipped(reg, f) <==> Dropped(reg, f)
  {
    StateWords();
  }

  /** The filters under their canonical names, nothing else changed. */
  function Renamed(reg: Registry, filters: seq<Filter>): seq<Filter> {
    seq(|filters|, i requires 0 <= i < |filters| =>
      Filter(NormalizeField(reg, "order", filters[i].field), filters[i].op, filters[i].value))
  }

  lemma {:induction false} SurvivorsAre(reg: Registry, filters: seq<Filter>)
    ensures Survivors(reg, filters) == Renamed(reg, Select(filters, f => !Dropped(reg, f)))
  {
    if filters != [] {
      var n := |filters| - 1;
      SurvivorsAre(reg, filters[..n]);
      AsksIsDropped(reg, filters[n]);
    }
  }

  function Guarded(reg: Registry, filters: seq<Filter>): seq<Filter> {
    ApplyNotShipped(Survivors(reg, filters), DenyList(reg))
  }

  // ----- the guardrail on a mutable result -----

  class Draft {
    var filters: seq<Filter>
    var resourceType: string
    var intentCategory: string
    var evidence: seq<string>
    var notes: seq<string>

    method RemoveShipped(reg: Registry)
      modifies this`filters
      ensures filters == Survivors(reg, old(filters))
      ensures filters == Renamed(reg, Select(old(filters), f => !Dropped(reg, f)))
    {
      SurvivorsAre(reg, filters);
      var all := filters;
      var kept: seq<Filter> := [];
      for i := 0 to |all|
        invariant kept == Survivors(reg, all[..i])
        invariant filters == all
      {
        assert all[..i + 1][..i] == all[..i];
        if AsksForShipped(reg, all[i]) {
          continue;
        }
        kept := kept + [Canonical(reg, all[i])];
      }
      assert all[..|all|] == all;
      filters := kept;
    }

    method ApplyNotShippedFilters(deny: seq<Deny>)
      modifies this`filters
      ensures filters == ApplyNotShipped(old(filters), deny)
    {
      for i := 0 to |deny|
        invariant filters == ApplyNotShipped(old(filters), deny[..i])
      {
        assert deny[..i + 1][..i] == deny[..i];
        if !HasStateNegation(filters, deny[i]) {
          filters := filters + [Filter(deny[i].field, "neq", Str(deny[i].value))];
        }
      }
      assert deny[..|deny|] == deny;
    }

    /** `cue` says whether the message, once trimmed, is non-blank and asks for unshipped orders. */
    method ApplyMessageGuardrails(reg: Registry, cue: bool)
      modifies this
      ensures var fires := old(resourceType) == "order" && old(intentCategory) == INTENT_WISMO && cue;
              && filters == (if fires then Guarded(reg, old(filters)) else old(filters))
              && evidence == (if fires then Unique(old(evidence) + [EVIDENCE]) else old(evidence))
              && notes == (if fires then Unique(old(notes) + [NOTE]) else old(notes))
      ensures unchanged(`resourceType) && unchanged(`intentCategory)
    {
      if resourceType != "order" || intentCategory != INTENT_WISMO || !cue {
        return;
      }
      RemoveShipped(reg);
      ApplyNotShippedFilters(DenyList(reg));
      evidence := AppendUnique(evidence, [EVIDENCE]);
      notes := AppendUnique(notes, [NOTE]);
    }
  }

  lemma NegationAlone(filters: seq<Filter>, d: Deny, e: Deny)
    requires d in DEFAULT_DENY && e in DEFAULT_DENY && d != e
    ensures HasStateNegation(filters + [NegationOf(d)], e) <==> HasStateNegation(filters, e)
  {
    NegationOfAppended(filters, NegationOf(d), e);
    if IsNegation(NegationOf(d), e) {
      DenyWordsDiffer(e, d);
    }
  }

  /** The negation of one state, if the filters do not negate it already. */
  ghost function Missing(filters: seq<Filter>, word: string): seq<Filter> {
    if Negated(filters, "shipment.state", word) then [] else [Filter("shipment.state", "neq", Str(word))]
  }

  /** With the built-in states, exactly the negations that are missing follow the filters, in their order. */
  lemma MissingNegationsFollow(filters: seq<Filter>)
    ensures ApplyNotShipped(filters, DEFAULT_DENY)
            == filters + Missing(filters, "Shipped") + Missing(filters, "Delivered") + Missing(filters, "Ready")
  {
    var a, b, c := DEFAULT_DENY[0], DEFAULT_DENY[1], DEFAULT_DENY[2];
    HasNegationIs(filters, a);
    HasNegationIs(filters, b);
    HasNegationIs(filters, c);
    NegationAlone(filters, a, b);
    NegationAlone(filters, a, c);
    var f1 := filters + Missing(filters, "Shipped");
    NegationAlone(f1, b, c);
    assert DEFAULT_DENY[..2] == [a, b] && [a, b][..1] == [a] && [a][..0] == [];
    assert ApplyNotShipped(filters, []) == filters;
    assert ApplyNotShipped(filters, [a]) == f1;
    assert ApplyNotShipped(filters, [a, b]) == f1 + Missing(filters, "Delivered");
  }

  // ----- idempotence -----

  lemma LastSurvives(reg: Registry, filters: seq<Filter>)
    requires var n := |filters| - 1;
             n >= 0 && !AsksForShipped(reg, filters[n]) && Canonical(reg, filters[n]) == filters[n]
    ensures Survivors(reg, filters[..|filters| - 1]) == filters[..|filters| - 1] ==> Survivors(reg, filters) == filters
  {
    assert filters == filters[..|filters| - 1] + [filters[|filters| - 1]];
  }

  lemma {:induction false} SurvivorsKept(reg: Registry, filters: seq<Filter>)
    requires forall f | f in filters :: !AsksForShipped(reg, f) && Canonical(reg, f) == f
    ensures Survivors(reg, filters) == filters
  {
    if filters != [] {
      var n := |filters| - 1;
      assert forall i | 0 <= i < n :: filters[..n][i] == filters[i] && filters[i] in filters;
      SurvivorsKept(reg, filters[..n]);
      LastSurvives(reg, filters);
    }
  }

  lemma {:induction false} SurvivorsClean(reg: Registry, filters: seq<Filter>)
    requires StableAliases(reg, "order") && LowerAliasKeys(reg, "order")
    ensures forall f | f in Survivors(reg, filters) :: !AsksForShipped(reg, f) && Canonical(reg, f) == f
  {
    if filters != [] {
      SurvivorsClean(reg, filters[..|filters| - 1]);
      NormalizeIdempotentIff(reg, "order");
    }
  }

  lemma FoldIdentity(s: string)
    requires IsTrimmed(s)
    ensures EqualFold(TrimSpace(s), s)
  {
    TrimSpaceTrims(s);
  }

  lemma {:induction false} AppliedAdds(filters: seq<Filter>, deny: seq<Deny>)
    requires forall d | d in deny :: IsTrimmed(d.value)
    ensures forall d | d in deny :: HasStateNegation(ApplyNotShipped(filters, deny), d)
    ensures filters <= ApplyNotShipped(filters, deny)
    ensures forall f | f in ApplyNotShipped(filters, deny) ::
              f in filters || exists d :: d in deny && f == NegationOf(d)
  {
    if deny != [] {
      var n := |deny| - 1;
      AppliedAdds(filters, deny[..n]);
      assert deny == deny[..n] + [deny[n]];
      var before, after := ApplyNotShipped(filters, deny[..n]), ApplyNotShipped(filters, deny);
      FoldIdentity(deny[n].value);
      assert forall f | f in before :: f in after;
      assert forall f | f in after :: f in before || f == NegationOf(deny[n]);
      assert forall d | d in deny[..n] :: d in deny;
      if !HasStateNegation(before, deny[n]) {
        assert after[|before|] in after && IsNegation(after[|before|], deny[n]);
      }
    }
  }

  lemma {:induction false} NothingToApply(filters: seq<Filter>, deny: seq<Deny>)
    requires forall d | d in deny :: HasStateNegation(filters, d)
    ensures ApplyNotShipped(filters, deny) == filters
  {
    if deny != [] {
      NothingToApply(filters, deny[..|deny| - 1]);
    }
  }

  /** The registry's deny list is in its built-in form and `shipment.state` is canonical. */
  ghost predicate GuardReady(reg: Registry) {
    && LowerAliasKeys(reg, "order") && StableAliases(reg, "order")
    && DenyList(reg) == DEFAULT_DENY
    && NormalizeField(reg, "order", STATE) == STATE
  }

  lemma DenyWordsTrimmed()
    ensures forall d | d in DEFAULT_DENY :: IsTrimmed(d.value) && d.field == STATE
  {
  }

  function NegationOf(d: Deny): Filter {
    Filter(d.field, "neq", Str(d.value))
  }

  lemma AppendedIsClean(reg: Registry, d: Deny)
    requires GuardReady(reg) && d.field == STATE
    ensures !AsksForShipped(reg, NegationOf(d)) && Canonical(reg, NegationOf(d)) == NegationOf(d)
  {
    assert |ToLower("neq")| != |ToLower("eq")|;
  }

  /** Marking a marked list changes nothing. */
  lemma MarkIsIdempotent(list: seq<string>, mark: string)
    ensures var once := Unique(list + [mark]); Unique(once + [mark]) == once
  {
    var all := list + [mark];
    var once := KeepFirst(all, Same);
    KeepFirstKeys(all, Same);
    assert mark in all && Same(mark) in Keys(all, Same);
    TakeOneMore(once + [mark], |once|, Same);
    assert (once + [mark])[..|once|] == once && (once + [mark])[..|once| + 1] == once + [mark];
    KeepFirstIdentity(once, Same);
  }

  /** Guarding a guarded query changes nothing. */
  lemma GuardIsIdempotent(reg: Registry, filters: seq<Filter>)
    requires GuardReady(reg)
    ensures Guarded(reg, Guarded(reg, filters)) == Guarded(reg, filters)
  {
    var kept, g := Survivors(reg, filters), Guarded(reg, filters);
    DenyWordsTrimmed();
    SurvivorsClean(reg, filters);
    AppliedAdds(kept, DEFAULT_DENY);
    forall f | f in g
      ensures !AsksForShipped(reg, f) && Canonical(reg, f) == f
    {
      if f !in kept {
        var d :| d in DEFAULT_DENY && f == NegationOf(d);
        AppendedIsClean(reg, d);
      }
    }
    SurvivorsKept(reg, g);
    NothingToApply(g, DEFAULT_DENY);
  }

  /**
    The guardrail runs after validation. A query whose fields were all open
    keeps that property exactly when the shipment state itself is open to the
    intent, because the guarded query always names it.
    */
  lemma GuardKeepsValidIff(reg: Registry, filters: seq<Filter>)
    requires GuardReady(reg)
    requires forall f | f in filters :: ValidateField(reg, "order", V2, INTENT_WISMO, f.field).None?
    ensures (forall f | f in Guarded(reg, filters) :: ValidateField(reg, "order", V2, INTENT_WISMO, f.field).None?)
            <==> ValidateField(reg, "order", V2, INTENT_WISMO, STATE).None?
  {
    var kept, g := Survivors(reg, filters), Guarded(reg, filters);
    DenyWordsTrimmed();
    AppliedAdds(kept, DEFAULT_DENY);
    SurvivorsStayValid(reg, filters);
    assert DEFAULT_DENY[0] in DEFAULT_DENY;
    var named :| named in g && IsNegation(named, DEFAULT_DENY[0]);
    assert named.field == STATE;
  }

  lemma {:induction false} SurvivorsStayValid(reg: Registry, filters: seq<Filter>)
    requires StableAliases(reg, "order") && LowerAliasKeys(reg, "order")
    requires forall f | f in filters :: ValidateField(reg, "order", V2, INTENT_WISMO, f.field).None?
    ensures forall f | f in Survivors(reg, filters) :: ValidateField(reg, "order", V2, INTENT_WISMO, f.field).None?
  {
    if filters != [] {
      var n := |filters| - 1;
      assert forall i | 0 <= i < n :: filters[..n][i] == filters[i] && filters[i] in filters;
      SurvivorsStayValid(reg, filters[..n]);
      assert filters[n] in filters;
      ValidateSeesThroughNormalize(reg, "order", INTENT_WISMO, filters[n].field);
    }
  }

  // ----- what the guarded query accepts -----

  /** A negation of the state spelled exactly as the data spells it. */
  ghost predicate HasExactNegation(filters: seq<Filter>, d: Deny) {
    exists f :: f in filters && f.field == d.field && EqualFold(f.op, "neq") && f.value == Str(d.value)
  }

  /** Any negation already present for a denied state is an exact one. */
  ghost predicate NegationsExact(filters: seq<Filter>, deny: seq<Deny>) {
    forall d | d in deny && HasStateNegation(filters, d) :: HasExactNegation(filters, d)
  }

  /** Case analysis on one deny entry after another. */
  lemma {:induction false} AppliedExact(filters: seq<Filter>, deny: seq<Deny>, d: Deny)
    requires IsTrimmed(d.value)
    requires forall e | e in deny && IsNegation(Filter(e.field, "neq", Str(e.value)), d) :: e == d
    ensures var g := ApplyNotShipped(filters, deny);
            && (HasStateNegation(g, d) <==> HasStateNegation(filters, d) || d in deny)
            && (HasExactNegation(g, d) <==> HasExactNegation(filters, d) || (d in deny && !HasStateNegation(filters, d)))
  {
    if deny != [] {
      var n := |deny| - 1;
      assert deny == deny[..n] + [deny[n]];
      AppliedExact(filters, deny[..n], d);
      var before := ApplyNotShipped(filters, deny[..n]);
      var e := deny[n];
      var f := Filter(e.field, "neq", Str(e.value));
      FoldIdentity(d.value);
      NegationOfAppended(before, f, d);
    }
  }

  lemma NegationOfAppended(before: seq<Filter>, f: Filter, d: Deny)
    ensures HasStateNegation(before + [f], d) <==> HasStateNegation(before, d) || IsNegation(f, d)
    ensures HasExactNegation(before + [f], d)
            <==> HasExactNegation(before, d) || (f.field == d.field && EqualFold(f.op, "neq") && f.value == Str(d.value))
  {
    var after := before + [f];
    assert after[|before|] == f;
    assert f in after;
    assert forall x | x in before :: x in after;
  }

  lemma DenyWordsDiffer(d: Deny, e: Deny)
    requires d in DEFAULT_DENY && e in DEFAULT_DENY && IsNegation(NegationOf(e), d)
    ensures e == d
  {
    TrimSpaceTrims(e.value);
    assert |ToLower(e.value)| == |ToLower(d.value)|;
    assert |SHIPPED| == 7 && |DELIVERED| == 9 && |READY| == 5;
  }

  /**
    The guarded query carries an exact negation of each of the three states
    exactly when no surviving negation of one of them is spelled another way.
    */
  lemma GuardCompleteIff(reg: Registry, filters: seq<Filter>)
    requires GuardReady(reg)
    ensures (forall d | d in DEFAULT_DENY :: HasExactNegation(Guarded(reg, filters), d))
            <==> NegationsExact(Survivors(reg, filters), DEFAULT_DENY)
  {
    DenyWordsTrimmed();
    forall d | d in DEFAULT_DENY
      ensures HasExactNegation(Guarded(reg, filters), d)
              <==> (HasStateNegation(Survivors(reg, filters), d) ==> HasExactNegation(Survivors(reg, filters), d))
    {
      forall e | e in DEFAULT_DENY && IsNegation(NegationOf(e), d)
        ensures e == d
      {
        DenyWordsDiffer(d, e);
      }
      ExactIsNegation(Survivors(reg, filters), d);
      AppliedExact(Survivors(reg, filters), DEFAULT_DENY, d);
    }
  }

  lemma ExactIsNegation(filters: seq<Filter>, d: Deny)
    requires IsTrimmed(d.value)
    ensures HasExactNegation(filters, d) ==> HasStateNegation(filters, d)
  {
    FoldIdentity(d.value);
    if HasExactNegation(filters, d) {
      var f :| f in filters && f.field == d.field && EqualFold(f.op, "neq") && f.value == Str(d.value);
      assert IsNegation(f, d);
    }
  }

  /** The row has a shipment state, and it is none of the three. */
  ghost predicate NotShipped(c: Collation, cell: Cell) {
    cell != NullCell && forall d | d in DEFAULT_DENY :: !c.eq(cell, TextCell(d.value))
  }

  lemma NegationMeaning(c: Collation, reg: Registry, f: Filter, d: Deny, col: string, row: Row)
    requires f.field == STATE && EqualFold(f.op, "neq") && f.value == Str(d.value)
    requires reg.GetNativeColumn("order", STATE) == Some(col)
    ensures FilterHolds(c, reg, "order", f, row)
            <==> CellOf(row, col) != NullCell && !c.eq(CellOf(row, col), TextCell(d.value))
  {
    assert ToLower("neq") == "neq";
  }

  /**
    With exact negations, a guarded order query accepts exactly the rows that
    satisfy its surviving filters and whose shipment state is present and none
    of the three shipped states.
    */
  lemma GuardedMeaning(c: Collation, reg: Registry, filters: seq<Filter>, col: string, row: Row)
    requires GuardReady(reg) && reg.GetNativeColumn("order", STATE) == Some(col)
    requires NegationsExact(Survivors(reg, filters), DEFAULT_DENY)
    ensures AllHold(c, reg, "order", Guarded(reg, filters), row)
            <==> AllHold(c, reg, "order", Survivors(reg, filters), row) && NotShipped(c, CellOf(row, col))
  {
    var kept, g := Survivors(reg, filters), Guarded(reg, filters);
    DenyWordsTrimmed();
    AppliedAdds(kept, DEFAULT_DENY);
    GuardCompleteIff(reg, filters);
    if AllHold(c, reg, "order", g, row) {
      assert forall f | f in kept :: f in g;
      forall d | d in DEFAULT_DENY
        ensures CellOf(row, col) != NullCell && !c.eq(CellOf(row, col), TextCell(d.value))
      {
        assert HasExactNegation(g, d);
        var f :| f in g && f.field == d.field && EqualFold(f.op, "neq") && f.value == Str(d.value);
        NegationMeaning(c, reg, f, d, col, row);
      }
      assert DEFAULT_DENY[0] in DEFAULT_DENY;
    }
    if AllHold(c, reg, "order", kept, row) && NotShipped(c, CellOf(row, col)) {
      forall f | f in g
        ensures FilterHolds(c, reg, "order", f, row)
      {
        if f !in kept {
          var d :| d in DEFAULT_DENY && f == NegationOf(d);
          NegationMeaning(c, reg, f, d, col, row);
        }
      }
    }
  }

  /** Nothing but string negations of the shipment state. */
  ghost predicate OnlyNegations(filters: seq<Filter>) {
    forall f | f in filters :: f.field == STATE && EqualFold(f.op, "neq") && f.value.Str?
  }

  /** Text cells are equal only when they are the same text. */
  ghost predicate ExactText(c: Collation) {
    forall s, t :: c.eq(TextCell(s), TextCell(t)) <==> s == t
  }

  /** A negation spelled otherwise satisfies the guard but not the store: the denied state slips through. */
  lemma MisspelledNegationLeaks(c: Collation, reg: Registry, filters: seq<Filter>, col: string, d: Deny) returns (row: Row)
    requires GuardReady(reg) && reg.GetNativeColumn("order", STATE) == Some(col) && ExactText(c)
    requires d in DEFAULT_DENY && OnlyNegations(Survivors(reg, filters))
    requires HasStateNegation(Survivors(reg, filters), d) && !HasExactNegation(Survivors(reg, filters), d)
    ensures AllHold(c, reg, "order", Guarded(reg, filters), row)
    ensures AllHold(c, reg, "order", Survivors(reg, filters), row)
    ensures !NotShipped(c, CellOf(row, col))
  {
    var kept, g := Survivors(reg, filters), Guarded(reg, filters);
    row := Row("leak", map[col := TextCell(d.value)], map[]);
    DenyWordsTrimmed();
    forall e | e in DEFAULT_DENY && IsNegation(NegationOf(e), d)
      ensures e == d
    {
      DenyWordsDiffer(d, e);
    }
    AppliedExact(kept, DEFAULT_DENY, d);
    GuardAddsNegations(reg, filters);
    UnnamedStatePasses(c, reg, g, col, d, row);
  }

  /** The guard adds to the survivors, and only negations. */
  lemma GuardAddsNegations(reg: Registry, filters: seq<Filter>)
    requires GuardReady(reg)
    ensures forall f | f in Survivors(reg, filters) :: f in Guarded(reg, filters)
    ensures OnlyNegations(Survivors(reg, filters)) ==> OnlyNegations(Guarded(reg, filters))
  {
    var kept, g := Survivors(reg, filters), Guarded(reg, filters);
    DenyWordsTrimmed();
    AppliedAdds(kept, DEFAULT_DENY);
    assert kept <= g;
    forall f | f in g && f !in kept
      ensures f.field == STATE && EqualFold(f.op, "neq") && f.value.Str?
    {
      var e :| e in DEFAULT_DENY && f == NegationOf(e);
    }
  }

  /** A row in a state that no filter negates by its exact name passes every negation. */
  lemma UnnamedStatePasses(c: Collation, reg: Registry, filters: seq<Filter>, col: string, d: Deny, row: Row)
    requires reg.GetNativeColumn("order", STATE) == Some(col) && ExactText(c)
    requires OnlyNegations(filters) && d.field == STATE && !HasExactNegation(filters, d)
    requires CellOf(row, col) == TextCell(d.value)
    ensures AllHold(c, reg, "order", filters, row)
  {
    forall f | f in filters
      ensures FilterHolds(c, reg, "order", f, row)
    {
      assert f.value != Str(d.value);
      NegationMeaning(c, reg, f, Deny(STATE, f.value.s), col, row);
    }
  }

  /** The guarded query means what it should, on every row. */
  ghost predicate GuardHolds(c: Collation, reg: Registry, filters: seq<Filter>, col: string) {
    forall row :: AllHold(c, reg, "order", Guarded(reg, filters), row)
                  <==> AllHold(c, reg, "order", Survivors(reg, filters), row) && NotShipped(c, CellOf(row, col))
  }

  /** Over queries that only negate states, the guard holds exactly when those negations are exact. */
  lemma GuardHoldsIff(c: Collation, reg: Registry, filters: seq<Filter>, col: string)
    requires GuardReady(reg) && reg.GetNativeColumn("order", STATE) == Some(col) && ExactText(c)
    requires OnlyNegations(Survivors(reg, filters))
    ensures GuardHolds(c, reg, filters, col) <==> NegationsExact(Survivors(reg, filters), DEFAULT_DENY)
  {
    if NegationsExact(Survivors(reg, filters), DEFAULT_DENY) {
      forall row
        ensures AllHold(c, reg, "order", Guarded(reg, filters), row)
                <==> AllHold(c, reg, "order", Survivors(reg, filters), row) && NotShipped(c, CellOf(row, col))
      {
        GuardedMeaning(c, reg, filters, col, row);
      }
    } else {
      var d :| d in DEFAULT_DENY && HasStateNegation(Survivors(reg, filters), d) && !HasExactNegation(Survivors(reg, filters), d);
      var row := MisspelledNegationLeaks(c, reg, filters, col, d);
    }
  }
}
