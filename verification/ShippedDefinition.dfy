/**
  The shipped schema definition: every field, alias, enum role and legacy name
  of orders and customers, in lists by topic. Its registry is well formed.
  */
module ShippedDefinition {
  import opened Text
  import opened Schema
  import opened Contracts

  const ALL_INTENTS := ["default", "wismo", "crm_profile", "returns_refunds"]

  const TRACKING := "shipment.tracking_id"
  const CUSTOMER_SORT := "customer.created_at"

  // ----- orders -----

  const ORDER_CORE_FIELDS: seq<Field> := [
    Field("order.id", "id", ALL_INTENTS, true, true),
    Field("order.number", "order_number", ALL_INTENTS, true, true),
    Field("order.customer_id", "customer_id", ["default", "wismo", "crm_profile"], true, true),
    Field("order.customer_email", "customer_email", ["default", "wismo", "crm_profile"], true, true),
    Field("order.state", "order_state", ["default", "wismo", "crm_profile"], true, true)]

  const ORDER_TERMS_FIELDS: seq<Field> := [
    Field("order.created_at", "created_at", ALL_INTENTS, true, true),
    Field("order.completed_at", "completed_at", ["default", "wismo", "crm_profile", "returns_refunds"], true, true),
    Field("order.total_cent_amount", "total_cent_amount", ["default", "crm_profile"], true, true),
    Field("order.currency_code", "currency_code", ["default"], false, true)]

  const ORDER_PROGRESS_FIELDS: seq<Field> := [
    Field("shipment.state", "shipment_state", ["wismo"], true, true),
    Field("shipment.tracking_id", "tracking_id", ["wismo"], true, true),
    Field("payment.state", "payment_state", ["default", "wismo", "crm_profile"], false, true),
    Field("payment.reference", "payment_reference", ["default", "wismo", "returns_refunds"], true, true)]

  const ORDER_RETURNS_FIELDS: seq<Field> := [
    Field("return.eligible", "return_eligible", ["returns_refunds"], false, true),
    Field("return.status", "return_status", ["returns_refunds"], false, true),
    Field("refund.status", "refund_status", ["returns_refunds"], false, true)]

  const ORDER_LEGACY_FIELDS: seq<Field> := [
    Field("order.legacy_status", "status", ["default"], false, true),
    Field("order.legacy_total_amount", "total_amount", ["default"], false, true),
    Field("order.region", "region", ["default"], false, true)]

  const ORDER_FIELDS :=
    ORDER_CORE_FIELDS + ORDER_TERMS_FIELDS + ORDER_PROGRESS_FIELDS + ORDER_RETURNS_FIELDS + ORDER_LEGACY_FIELDS

  const ORDER_CORE_ALIASES: seq<Alias> := [
    Alias("order.id", "order.id"),
    Alias("id", "order.id"),
    Alias("order.number", "order.number"),
    Alias("order_number", "order.number"),
    Alias("order.customer_id", "order.customer_id"),
    Alias("customer_id", "order.customer_id"),
    Alias("order.customer_email", "order.customer_email"),
    Alias("customer_email", "order.customer_email"),
    Alias("order.state", "order.state"),
    Alias("order_state", "order.state")]

  const ORDER_STATES_ALIASES: seq<Alias> := [
    Alias("shipment.state", "shipment.state"),
    Alias("shipment_state", "shipment.state"),
    Alias("payment.state", "payment.state"),
    Alias("payment_state", "payment.state")]

  const ORDER_TIMES_ALIASES: seq<Alias> := [
    Alias("order.created_at", "order.created_at"),
    Alias("created_at", "order.created_at"),
    Alias("order.completed_at", "order.completed_at"),
    Alias("completed_at", "order.completed_at")]

  const ORDER_REFERENCES_ALIASES: seq<Alias> := [
    Alias("shipment.tracking_id", "shipment.tracking_id"),
    Alias("tracking_id", "shipment.tracking_id"),
    Alias("payment.reference", "payment.reference"),
    Alias("payment_reference", "payment.reference")]

  const ORDER_AMOUNTS_ALIASES: seq<Alias> := [
    Alias("order.total_cent_amount", "order.total_cent_amount"),
    Alias("total_cent_amount", "order.total_cent_amount"),
    Alias("order.currency_code", "order.currency_code"),
    Alias("currency_code", "order.currency_code")]

  const ORDER_RETURNS_ALIASES: seq<Alias> := [
    Alias("return.eligible", "return.eligible"),
    Alias("return_eligible", "return.eligible"),
    Alias("return.status", "return.status"),
    Alias("return_status", "return.status"),
    Alias("refund.status", "refund.status"),
    Alias("refund_status", "refund.status")]

  const ORDER_LEGACY_ALIASES: seq<Alias> := [
    Alias("order.legacy_status", "order.legacy_status"),
    Alias("status", "order.legacy_status"),
    Alias("order.legacy_total_amount", "order.legacy_total_amount"),
    Alias("total_amount", "order.legacy_total_amount"),
    Alias("order.region", "order.region"),
    Alias("region", "order.region")]

  const ORDER_ALIASES :=
    ORDER_CORE_ALIASES + ORDER_STATES_ALIASES + ORDER_TIMES_ALIASES + ORDER_REFERENCES_ALIASES
    + ORDER_AMOUNTS_ALIASES + ORDER_RETURNS_ALIASES + ORDER_LEGACY_ALIASES

  const ORDER_ROLES: seq<EnumRole> := [
    EnumRole("order.open_state", "order.state", "Open"),
    EnumRole("order.confirmed_state", "order.state", "Confirmed"),
    EnumRole("order.complete_state", "order.state", "Complete"),
    EnumRole("order.cancelled_state", "order.state", "Cancelled"),
    EnumRole("shipment.pending_state", "shipment.state", "Pending"),
    EnumRole("shipment.shipped_state", "shipment.state", "Shipped"),
    EnumRole("shipment.delivered_state", "shipment.state", "Delivered"),
    EnumRole("shipment.delayed_state", "shipment.state", "Delayed"),
    EnumRole("shipment.ready_state", "shipment.state", "Ready"),
    EnumRole("shipment.not_shipped_deny.shipped", "shipment.state", "Shipped"),
    EnumRole("shipment.not_shipped_deny.delivered", "shipment.state", "Delivered"),
    EnumRole("shipment.not_shipped_deny.ready", "shipment.state", "Ready"),
    EnumRole("payment.pending_state", "payment.state", "Pending"),
    EnumRole("payment.paid_state", "payment.state", "Paid"),
    EnumRole("payment.failed_state", "payment.state", "Failed"),
    EnumRole("payment.refunded_state", "payment.state", "Refunded"),
    EnumRole("return.not_requested_state", "return.status", "NotRequested"),
    EnumRole("return.requested_state", "return.status", "Requested"),
    EnumRole("return.approved_state", "return.status", "Approved"),
    EnumRole("return.completed_state", "return.status", "Completed"),
    EnumRole("refund.not_initiated_state", "refund.status", "NotInitiated"),
    EnumRole("refund.pending_state", "refund.status", "Pending"),
    EnumRole("refund.processed_state", "refund.status", "Processed"),
    EnumRole("refund.failed_state", "refund.status", "Failed"),
    EnumRole("return.eligible_true", "return.eligible", "true")]

  const ORDER_V1_FIELDS: seq<string> := ["id", "status", "created_at", "total_amount", "customer_id"]

  // ----- customers -----

  const CUSTOMER_CORE_FIELDS: seq<Field> := [
    Field("customer.id", "id", ALL_INTENTS, true, true),
    Field("customer.number", "customer_number", ALL_INTENTS, true, true),
    Field("customer.email", "email", ALL_INTENTS, true, true),
    Field("customer.first_name", "first_name", ALL_INTENTS, true, true),
    Field("customer.last_name", "last_name", ALL_INTENTS, true, true)]

  const CUSTOMER_PROFILE_FIELDS: seq<Field> := [
    Field("customer.is_email_verified", "is_email_verified", ["crm_profile"], false, true),
    Field("customer.created_at", "created_at", ["crm_profile"], true, true),
    Field("customer.group", "customer_group", ["default", "crm_profile"], true, true),
    Field("customer.vip_tier", "vip_tier", ["crm_profile"], true, true)]

  const CUSTOMER_LEGACY_FIELDS: seq<Field> := [
    Field("customer.legacy_name", "name", ["default"], true, true),
    Field("customer.legacy_tier", "tier", ["default"], true, true),
    Field("customer.region", "region", ["default"], true, true)]

  const CUSTOMER_FIELDS := CUSTOMER_CORE_FIELDS + CUSTOMER_PROFILE_FIELDS + CUSTOMER_LEGACY_FIELDS

  const CUSTOMER_CORE_ALIASES: seq<Alias> := [
    Alias("customer.id", "customer.id"),
    Alias("id", "customer.id"),
    Alias("customer.number", "customer.number"),
    Alias("customer_number", "customer.number"),
    Alias("customer.email", "customer.email"),
    Alias("email", "customer.email"),
    Alias("customer.first_name", "customer.first_name"),
    Alias("first_name", "customer.first_name"),
    Alias("customer.last_name", "customer.last_name"),
    Alias("last_name", "customer.last_name")]

  const CUSTOMER_PROFILE_ALIASES: seq<Alias> := [
    Alias("customer.is_email_verified", "customer.is_email_verified"),
    Alias("is_email_verified", "customer.is_email_verified"),
    Alias("customer.created_at", "customer.created_at"),
    Alias("created_at", "customer.created_at"),
    Alias("customer.group", "customer.group"),
    Alias("customer_group", "customer.group"),
    Alias("customer.vip_tier", "customer.vip_tier"),
    Alias("vip_tier", "customer.vip_tier")]

  const CUSTOMER_LEGACY_ALIASES: seq<Alias> := [
    Alias("customer.legacy_name", "customer.legacy_name"),
    Alias("name", "customer.legacy_name"),
    Alias("customer.legacy_tier", "customer.legacy_tier"),
    Alias("tier", "customer.legacy_tier"),
    Alias("customer.region", "customer.region"),
    Alias("region", "customer.region")]

  const CUSTOMER_ALIASES := CUSTOMER_CORE_ALIASES + CUSTOMER_PROFILE_ALIASES + CUSTOMER_LEGACY_ALIASES

  const CUSTOMER_ROLES: seq<EnumRole> := [
    EnumRole("customer.vip_base_tier", "customer.vip_tier", "silver"),
    EnumRole("customer.vip_gold_tier", "customer.vip_tier", "gold"),
    EnumRole("customer.vip_platinum_tier", "customer.vip_tier", "platinum"),
    EnumRole("customer.vip_diamond_tier", "customer.vip_tier", "diamond")]

  const CUSTOMER_V1_FIELDS: seq<string> := ["id", "name", "tier", "region", "created_at"]

  const ORDER := Resource("order", "orders_docs", "order.created_at", ORDER_FIELDS, ORDER_ALIASES, ORDER_ROLES, ORDER_V1_FIELDS)

  const CUSTOMER := Resource("customer", "customers_docs", "customer.created_at",
                             CUSTOMER_FIELDS, CUSTOMER_ALIASES, CUSTOMER_ROLES, CUSTOMER_V1_FIELDS)

  const DEFINITION := [ORDER, CUSTOMER]

  // ----- spelling -----

  predicate NameChar(c: char) {
    'a' <= c <= 'z' || c == '.' || c == '_'
  }

  /** Lower-case words joined by dots and underscores. */
  predicate Spelled(s: string) {
    s != "" && forall i | 0 <= i < |s| :: NameChar(s[i])
  }

  lemma SpelledIsStable(s: string)
    requires Spelled(s)
    ensures ToLower(s) == s && TrimSpace(s) == s
  {
    TrimSpaceTrims(s);
  }

  /** A dot ends the first word, which has five to eight letters. */
  predicate Dotted(s: string) {
    (|s| > 5 && s[5] == '.') || (|s| > 6 && s[6] == '.') || (|s| > 7 && s[7] == '.') || (|s| > 8 && s[8] == '.')
  }

  predicate ServiceableField(f: Field) {
    f.filterable && |f.intentScopes| > 0 && |f.nativeColumn| > 0 && Dotted(f.name)
  }

  /** Tells a tracking number's field from every other order field. */
  predicate LikeTracking(s: string) {
    |s| == 20 && s[0] == 's'
  }

  /** Tells a customer's creation time from every other customer field. */
  predicate LikeCreated(s: string) {
    |s| == 19 && s[9] == 'c'
  }

  predicate OrderField(f: Field) {
    ServiceableField(f) && f.name[0] != 'c' && (LikeTracking(f.name) ==> f.intentScopes == ["wismo"])
  }

  predicate CustomerField(f: Field) {
    ServiceableField(f) && f.name[0] == 'c' && (LikeCreated(f.name) ==> f.intentScopes == ["crm_profile"])
  }

  predicate OwnOrUndotted(a: Alias) {
    a.input == a.resolves || !Dotted(a.input)
  }

  predicate OwnOrSpelled(a: Alias) {
    a.input == a.resolves || Spelled(a.input)
  }

  predicate CustomerAlias(a: Alias) {
    OwnOrUndotted(a) && (|a.input| == 10 && LowerChar(a.input[1]) == 'r' ==> a.resolves == CUSTOMER_SORT)
  }

  lemma OrderCoreNames()
    ensures forall i | 0 <= i < |ORDER_CORE_FIELDS| :: Spelled(ORDER_CORE_FIELDS[i].name)
  {
  }

  lemma OrderCoreFields()
    ensures forall i | 0 <= i < |ORDER_CORE_FIELDS| :: OrderField(ORDER_CORE_FIELDS[i])
  {
  }

  lemma OrderTermsNames()
    ensures forall i | 0 <= i < |ORDER_TERMS_FIELDS| :: Spelled(ORDER_TERMS_FIELDS[i].name)
  {
  }

  lemma OrderTermsFields()
    ensures forall i | 0 <= i < |ORDER_TERMS_FIELDS| :: OrderField(ORDER_TERMS_FIELDS[i])
  {
  }

  lemma OrderProgressNames()
    ensures forall i | 0 <= i < |ORDER_PROGRESS_FIELDS| :: Spelled(ORDER_PROGRESS_FIELDS[i].name)
  {
  }

  lemma OrderProgressFields()
    ensures forall i | 0 <= i < |ORDER_PROGRESS_FIELDS| :: OrderField(ORDER_PROGRESS_FIELDS[i])
  {
  }

  lemma OrderReturnsNames()
    ensures forall i | 0 <= i < |ORDER_RETURNS_FIELDS| :: Spelled(ORDER_RETURNS_FIELDS[i].name)
  {
  }

  lemma OrderReturnsFields()
    ensures forall i | 0 <= i < |ORDER_RETURNS_FIELDS| :: OrderField(ORDER_RETURNS_FIELDS[i])
  {
  }

  lemma OrderLegacyNames()
    ensures forall i | 0 <= i < |ORDER_LEGACY_FIELDS| :: Spelled(ORDER_LEGACY_FIELDS[i].name)
  {
    assert Spelled("order.legacy_status");
    assert Spelled("order.legacy_total_amount");
    assert Spelled("order.region");
  }

  lemma OrderLegacyFields()
    ensures forall i | 0 <= i < |ORDER_LEGACY_FIELDS| :: OrderField(ORDER_LEGACY_FIELDS[i])
  {
  }

  lemma CustomerCoreNames()
    ensures forall i | 0 <= i < |CUSTOMER_CORE_FIELDS| :: Spelled(CUSTOMER_CORE_FIELDS[i].name)
  {
  }

  lemma CustomerCoreFields()
    ensures forall i | 0 <= i < |CUSTOMER_CORE_FIELDS| :: CustomerField(CUSTOMER_CORE_FIELDS[i])
  {
  }

  lemma CustomerProfileNames()
    ensures forall i | 0 <= i < |CUSTOMER_PROFILE_FIELDS| :: Spelled(CUSTOMER_PROFILE_FIELDS[i].name)
  {
    VerifiedSpelled();
    CreatedSpelled();
  }

  lemma VerifiedSpelled()
    ensures Spelled("customer.is_email_verified")
  {
  }

  lemma CreatedSpelled()
    ensures Spelled(CUSTOMER_SORT)
  {
  }

  lemma CustomerProfileFields()
    ensures forall i | 0 <= i < |CUSTOMER_PROFILE_FIELDS| :: CustomerField(CUSTOMER_PROFILE_FIELDS[i])
  {
  }

  lemma CustomerLegacyNames()
    ensures forall i | 0 <= i < |CUSTOMER_LEGACY_FIELDS| :: Spelled(CUSTOMER_LEGACY_FIELDS[i].name)
  {
  }

  lemma CustomerLegacyFields()
    ensures forall i | 0 <= i < |CUSTOMER_LEGACY_FIELDS| :: CustomerField(CUSTOMER_LEGACY_FIELDS[i])
  {
  }

  lemma OrderCoreAliases()
    ensures forall i | 0 <= i < |ORDER_CORE_ALIASES| :: OwnOrUndotted(ORDER_CORE_ALIASES[i])
  {
  }

  lemma OrderCoreResolve()
    ensures forall i | 0 <= i < |ORDER_CORE_ALIASES| :: ORDER_CORE_ALIASES[i].resolves == ORDER_CORE_FIELDS[i / 2].name
  {
  }

  lemma OrderStatesAliases()
    ensures forall i | 0 <= i < |ORDER_STATES_ALIASES| :: OwnOrUndotted(ORDER_STATES_ALIASES[i])
  {
  }

  lemma OrderStatesResolve()
    ensures forall i | 0 <= i < |ORDER_STATES_ALIASES| :: ORDER_STATES_ALIASES[i].resolves == ORDER_PROGRESS_FIELDS[i / 2 * 2].name
  {
  }

  lemma OrderTimesAliases()
    ensures forall i | 0 <= i < |ORDER_TIMES_ALIASES| :: OwnOrUndotted(ORDER_TIMES_ALIASES[i])
  {
  }

  lemma OrderTimesResolve()
    ensures forall i | 0 <= i < |ORDER_TIMES_ALIASES| :: ORDER_TIMES_ALIASES[i].resolves == ORDER_TERMS_FIELDS[i / 2].name
  {
  }

  lemma OrderReferencesAliases()
    ensures forall i | 0 <= i < |ORDER_REFERENCES_ALIASES| :: OwnOrUndotted(ORDER_REFERENCES_ALIASES[i])
  {
  }

  lemma OrderReferencesResolve()
    ensures forall i | 0 <= i < |ORDER_REFERENCES_ALIASES| :: ORDER_REFERENCES_ALIASES[i].resolves == ORDER_PROGRESS_FIELDS[i / 2 * 2 + 1].name
  {
  }

  lemma OrderAmountsAliases()
    ensures forall i | 0 <= i < |ORDER_AMOUNTS_ALIASES| :: OwnOrUndotted(ORDER_AMOUNTS_ALIASES[i])
  {
  }

  lemma OrderAmountsResolve()
    ensures forall i | 0 <= i < |ORDER_AMOUNTS_ALIASES| :: ORDER_AMOUNTS_ALIASES[i].resolves == ORDER_TERMS_FIELDS[i / 2 + 2].name
  {
  }

  lemma OrderReturnsAliases()
    ensures forall i | 0 <= i < |ORDER_RETURNS_ALIASES| :: OwnOrUndotted(ORDER_RETURNS_ALIASES[i])
  {
  }

  lemma OrderReturnsResolve()
    ensures forall i | 0 <= i < |ORDER_RETURNS_ALIASES| :: ORDER_RETURNS_ALIASES[i].resolves == ORDER_RETURNS_FIELDS[i / 2].name
  {
  }

  lemma OrderLegacyAliases()
    ensures forall i | 0 <= i < |ORDER_LEGACY_ALIASES| :: OwnOrUndotted(ORDER_LEGACY_ALIASES[i])
  {
  }

  lemma OrderLegacyResolve()
    ensures forall i | 0 <= i < |ORDER_LEGACY_ALIASES| :: ORDER_LEGACY_ALIASES[i].resolves == ORDER_LEGACY_FIELDS[i / 2].name
  {
  }

  lemma CustomerCoreAliases()
    ensures forall i | 0 <= i < |CUSTOMER_CORE_ALIASES| :: CustomerAlias(CUSTOMER_CORE_ALIASES[i])
  {
  }

  lemma CustomerCoreResolve()
    ensures forall i | 0 <= i < |CUSTOMER_CORE_ALIASES| :: CUSTOMER_CORE_ALIASES[i].resolves == CUSTOMER_CORE_FIELDS[i / 2].name
  {
  }

  lemma CustomerProfileAliases()
    ensures forall i | 0 <= i < |CUSTOMER_PROFILE_ALIASES| :: CustomerAlias(CUSTOMER_PROFILE_ALIASES[i])
  {
  }

  lemma CustomerProfileResolve()
    ensures forall i | 0 <= i < |CUSTOMER_PROFILE_ALIASES| :: CUSTOMER_PROFILE_ALIASES[i].resolves == CUSTOMER_PROFILE_FIELDS[i / 2].name
  {
  }

  lemma CustomerLegacyAliases()
    ensures forall i | 0 <= i < |CUSTOMER_LEGACY_ALIASES| :: CustomerAlias(CUSTOMER_LEGACY_ALIASES[i])
  {
  }

  lemma CustomerLegacyResolve()
    ensures forall i | 0 <= i < |CUSTOMER_LEGACY_ALIASES| :: CUSTOMER_LEGACY_ALIASES[i].resolves == CUSTOMER_LEGACY_FIELDS[i / 2].name
  {
  }

  lemma OrderCoreInputs()
    ensures forall i | 0 <= i < |ORDER_CORE_ALIASES| :: OwnOrSpelled(ORDER_CORE_ALIASES[i])
  {
  }

  lemma OrderStatesInputs()
    ensures forall i | 0 <= i < |ORDER_STATES_ALIASES| :: OwnOrSpelled(ORDER_STATES_ALIASES[i])
  {
  }

  lemma OrderTimesInputs()
    ensures forall i | 0 <= i < |ORDER_TIMES_ALIASES| :: OwnOrSpelled(ORDER_TIMES_ALIASES[i])
  {
  }

  lemma OrderReferencesInputs()
    ensures forall i | 0 <= i < |ORDER_REFERENCES_ALIASES| :: OwnOrSpelled(ORDER_REFERENCES_ALIASES[i])
  {
  }

  lemma OrderAmountsInputs()
    ensures forall i | 0 <= i < |ORDER_AMOUNTS_ALIASES| :: OwnOrSpelled(ORDER_AMOUNTS_ALIASES[i])
  {
  }

  lemma OrderReturnsInputs()
    ensures forall i | 0 <= i < |ORDER_RETURNS_ALIASES| :: OwnOrSpelled(ORDER_RETURNS_ALIASES[i])
  {
  }

  lemma OrderLegacyInputs()
    ensures forall i | 0 <= i < |ORDER_LEGACY_ALIASES| :: OwnOrSpelled(ORDER_LEGACY_ALIASES[i])
  {
  }

  lemma CustomerCoreInputs()
    ensures forall i | 0 <= i < |CUSTOMER_CORE_ALIASES| :: OwnOrSpelled(CUSTOMER_CORE_ALIASES[i])
  {
  }

  lemma CustomerProfileInputs()
    ensures forall i | 0 <= i < |CUSTOMER_PROFILE_ALIASES| :: OwnOrSpelled(CUSTOMER_PROFILE_ALIASES[i])
  {
  }

  lemma CustomerLegacyInputs()
    ensures forall i | 0 <= i < |CUSTOMER_LEGACY_ALIASES| :: OwnOrSpelled(CUSTOMER_LEGACY_ALIASES[i])
  {
  }

  // ----- from the parts to the whole -----

  lemma FromFive<T>(a: seq<T>, b: seq<T>, c: seq<T>, d: seq<T>, e: seq<T>, p: T -> bool)
    requires (forall i | 0 <= i < |a| :: p(a[i])) && (forall i | 0 <= i < |b| :: p(b[i])) && (forall i | 0 <= i < |c| :: p(c[i]))
    requires (forall i | 0 <= i < |d| :: p(d[i])) && (forall i | 0 <= i < |e| :: p(e[i]))
    ensures forall x | x in a + b + c + d + e :: p(x)
  {
  }

  lemma FromThree<T>(a: seq<T>, b: seq<T>, c: seq<T>, p: T -> bool)
    requires (forall i | 0 <= i < |a| :: p(a[i])) && (forall i | 0 <= i < |b| :: p(b[i])) && (forall i | 0 <= i < |c| :: p(c[i]))
    ensures forall x | x in a + b + c :: p(x)
  {
  }

  lemma OrderNames()
    ensures forall f | f in ORDER_FIELDS :: Spelled(f.name)
  {
    OrderCoreNames();
    OrderTermsNames();
    OrderProgressNames();
    OrderReturnsNames();
    OrderLegacyNames();
    FromFive(ORDER_CORE_FIELDS, ORDER_TERMS_FIELDS, ORDER_PROGRESS_FIELDS, ORDER_RETURNS_FIELDS, ORDER_LEGACY_FIELDS,
             (f: Field) => Spelled(f.name));
  }

  lemma OrderFields()
    ensures forall f | f in ORDER_FIELDS :: OrderField(f)
  {
    OrderCoreFields();
    OrderTermsFields();
    OrderProgressFields();
    OrderReturnsFields();
    OrderLegacyFields();
    FromFive(ORDER_CORE_FIELDS, ORDER_TERMS_FIELDS, ORDER_PROGRESS_FIELDS, ORDER_RETURNS_FIELDS, ORDER_LEGACY_FIELDS, OrderField);
  }

  lemma CustomerNames()
    ensures forall f | f in CUSTOMER_FIELDS :: Spelled(f.name)
  {
    CustomerCoreNames();
    CustomerProfileNames();
    CustomerLegacyNames();
    FromThree(CUSTOMER_CORE_FIELDS, CUSTOMER_PROFILE_FIELDS, CUSTOMER_LEGACY_FIELDS, (f: Field) => Spelled(f.name));
  }

  lemma CustomerFields()
    ensures forall f | f in CUSTOMER_FIELDS :: CustomerField(f)
  {
    CustomerCoreFields();
    CustomerProfileFields();
    CustomerLegacyFields();
    FromThree(CUSTOMER_CORE_FIELDS, CUSTOMER_PROFILE_FIELDS, CUSTOMER_LEGACY_FIELDS, CustomerField);
  }

  ghost predicate HasName(fields: seq<Field>, name: string) {
    exists f :: f in fields && f.name == name
  }

  /** Aliases that resolve within one part of the fields resolve within the whole. */
  lemma ResolveWithin(aliases: seq<Alias>, part: seq<Field>, all: seq<Field>, at: int -> int)
    requires forall i | 0 <= i < |aliases| :: 0 <= at(i) < |part| && aliases[i].resolves == part[at(i)].name
    requires forall f | f in part :: f in all
    ensures forall i | 0 <= i < |aliases| :: HasName(all, aliases[i].resolves)
  {
    forall i | 0 <= i < |aliases|
      ensures HasName(all, aliases[i].resolves)
    {
      assert part[at(i)] in all;
    }
  }

  lemma FivePartsOf<T>(a: seq<T>, b: seq<T>, c: seq<T>, d: seq<T>, e: seq<T>)
    ensures forall x | x in a || x in b || x in c || x in d || x in e :: x in a + b + c + d + e
  {
  }

  ghost predicate OrderAlias(a: Alias) {
    OwnOrUndotted(a) && HasName(ORDER_FIELDS, a.resolves)
  }

  lemma OrderParts()
    ensures forall f | f in ORDER_CORE_FIELDS || f in ORDER_TERMS_FIELDS || f in ORDER_PROGRESS_FIELDS
                       || f in ORDER_RETURNS_FIELDS || f in ORDER_LEGACY_FIELDS :: f in ORDER_FIELDS
  {
    FivePartsOf(ORDER_CORE_FIELDS, ORDER_TERMS_FIELDS, ORDER_PROGRESS_FIELDS, ORDER_RETURNS_FIELDS, ORDER_LEGACY_FIELDS);
  }

  lemma OrderCoreTargets()
    ensures forall i | 0 <= i < |ORDER_CORE_ALIASES| :: HasName(ORDER_FIELDS, ORDER_CORE_ALIASES[i].resolves)
  {
    OrderParts();
    OrderCoreResolve();
    ResolveWithin(ORDER_CORE_ALIASES, ORDER_CORE_FIELDS, ORDER_FIELDS, i => i / 2);
  }

  lemma OrderStatesTargets()
    ensures forall i | 0 <= i < |ORDER_STATES_ALIASES| :: HasName(ORDER_FIELDS, ORDER_STATES_ALIASES[i].resolves)
  {
    OrderParts();
    OrderStatesResolve();
    ResolveWithin(ORDER_STATES_ALIASES, ORDER_PROGRESS_FIELDS, ORDER_FIELDS, i => i / 2 * 2);
  }

  lemma OrderTimesTargets()
    ensures forall i | 0 <= i < |ORDER_TIMES_ALIASES| :: HasName(ORDER_FIELDS, ORDER_TIMES_ALIASES[i].resolves)
  {
    OrderParts();
    OrderTimesResolve();
    ResolveWithin(ORDER_TIMES_ALIASES, ORDER_TERMS_FIELDS, ORDER_FIELDS, i => i / 2);
  }

  lemma OrderReferencesTargets()
    ensures forall i | 0 <= i < |ORDER_REFERENCES_ALIASES| :: HasName(ORDER_FIELDS, ORDER_REFERENCES_ALIASES[i].resolves)
  {
    OrderParts();
    OrderReferencesResolve();
    ResolveWithin(ORDER_REFERENCES_ALIASES, ORDER_PROGRESS_FIELDS, ORDER_FIELDS, i => i / 2 * 2 + 1);
  }

  lemma OrderAmountsTargets()
    ensures forall i | 0 <= i < |ORDER_AMOUNTS_ALIASES| :: HasName(ORDER_FIELDS, ORDER_AMOUNTS_ALIASES[i].resolves)
  {
    OrderParts();
    OrderAmountsResolve();
    ResolveWithin(ORDER_AMOUNTS_ALIASES, ORDER_TERMS_FIELDS, ORDER_FIELDS, i => i / 2 + 2);
  }

  lemma OrderReturnsTargets()
    ensures forall i | 0 <= i < |ORDER_RETURNS_ALIASES| :: HasName(ORDER_FIELDS, ORDER_RETURNS_ALIASES[i].resolves)
  {
    OrderParts();
    OrderReturnsResolve();
    ResolveWithin(ORDER_RETURNS_ALIASES, ORDER_RETURNS_FIELDS, ORDER_FIELDS, i => i / 2);
  }

  lemma OrderLegacyTargets()
    ensures forall i | 0 <= i < |ORDER_LEGACY_ALIASES| :: HasName(ORDER_FIELDS, ORDER_LEGACY_ALIASES[i].resolves)
  {
    OrderParts();
    OrderLegacyResolve();
    ResolveWithin(ORDER_LEGACY_ALIASES, ORDER_LEGACY_FIELDS, ORDER_FIELDS, i => i / 2);
  }

  lemma OrderAliases()
    ensures forall a | a in ORDER_ALIASES :: OrderAlias(a)
  {
    OrderCoreTargets();
    OrderStatesTargets();
    OrderTimesTargets();
    OrderReferencesTargets();
    OrderAmountsTargets();
    OrderReturnsTargets();
    OrderLegacyTargets();
    OrderCoreAliases();
    OrderStatesAliases();
    OrderTimesAliases();
    OrderReferencesAliases();
    OrderAmountsAliases();
    OrderReturnsAliases();
    OrderLegacyAliases();
    FromFive(ORDER_CORE_ALIASES, ORDER_STATES_ALIASES, ORDER_TIMES_ALIASES, ORDER_REFERENCES_ALIASES, [], OrderAlias);
    FromThree(ORDER_AMOUNTS_ALIASES, ORDER_RETURNS_ALIASES, ORDER_LEGACY_ALIASES, OrderAlias);
  }

  lemma CustomerTargets()
    ensures forall i | 0 <= i < |CUSTOMER_CORE_ALIASES| :: HasName(CUSTOMER_FIELDS, CUSTOMER_CORE_ALIASES[i].resolves)
    ensures forall i | 0 <= i < |CUSTOMER_PROFILE_ALIASES| :: HasName(CUSTOMER_FIELDS, CUSTOMER_PROFILE_ALIASES[i].resolves)
    ensures forall i | 0 <= i < |CUSTOMER_LEGACY_ALIASES| :: HasName(CUSTOMER_FIELDS, CUSTOMER_LEGACY_ALIASES[i].resolves)
  {
    CustomerCoreResolve();
    ResolveWithin(CUSTOMER_CORE_ALIASES, CUSTOMER_CORE_FIELDS, CUSTOMER_FIELDS, i => i / 2);
    CustomerProfileResolve();
    ResolveWithin(CUSTOMER_PROFILE_ALIASES, CUSTOMER_PROFILE_FIELDS, CUSTOMER_FIELDS, i => i / 2);
    CustomerLegacyResolve();
    ResolveWithin(CUSTOMER_LEGACY_ALIASES, CUSTOMER_LEGACY_FIELDS, CUSTOMER_FIELDS, i => i / 2);
  }

  lemma CustomerAliases()
    ensures forall a | a in CUSTOMER_ALIASES :: CustomerAlias(a) && HasName(CUSTOMER_FIELDS, a.resolves)
  {
    CustomerTargets();
    CustomerCoreAliases();
    CustomerProfileAliases();
    CustomerLegacyAliases();
    FromThree(CUSTOMER_CORE_ALIASES, CUSTOMER_PROFILE_ALIASES, CUSTOMER_LEGACY_ALIASES, CustomerAlias);
    FromThree(CUSTOMER_CORE_ALIASES, CUSTOMER_PROFILE_ALIASES, CUSTOMER_LEGACY_ALIASES,
              (a: Alias) => HasName(CUSTOMER_FIELDS, a.resolves));
  }

  /** All inputs are spelled like names. */
  lemma InputsSpelled(d: Resource)
    requires forall f | f in d.fields :: Spelled(f.name)
    requires forall a | a in d.aliases :: OwnOrSpelled(a) && HasName(d.fields, a.resolves)
    ensures forall a | a in d.aliases :: Spelled(a.input)
  {
  }

  lemma OrderInputs()
    ensures forall a | a in ORDER_ALIASES :: Spelled(a.input)
  {
    OrderCoreInputs();
    OrderStatesInputs();
    OrderTimesInputs();
    OrderReferencesInputs();
    OrderAmountsInputs();
    OrderReturnsInputs();
    OrderLegacyInputs();
    FromFive(ORDER_CORE_ALIASES, ORDER_STATES_ALIASES, ORDER_TIMES_ALIASES, ORDER_REFERENCES_ALIASES, [], OwnOrSpelled);
    FromThree(ORDER_AMOUNTS_ALIASES, ORDER_RETURNS_ALIASES, ORDER_LEGACY_ALIASES, OwnOrSpelled);
    OrderNames();
    OrderAliases();
    InputsSpelled(ORDER);
  }

  lemma CustomerInputs()
    ensures forall a | a in CUSTOMER_ALIASES :: Spelled(a.input)
  {
    CustomerCoreInputs();
    CustomerProfileInputs();
    CustomerLegacyInputs();
    FromThree(CUSTOMER_CORE_ALIASES, CUSTOMER_PROFILE_ALIASES, CUSTOMER_LEGACY_ALIASES, OwnOrSpelled);
    CustomerNames();
    CustomerAliases();
    InputsSpelled(CUSTOMER);
  }

  // ----- the definition is well formed -----

  lemma DotsSurviveLower(s: string)
    ensures Dotted(ToLower(s)) <==> Dotted(s)
  {
  }

  /** Spelled, dotted names and aliases that are their own or undotted make a disciplined resource. */
  lemma NamesAreCanonical(d: Resource)
    requires forall f | f in d.fields :: Spelled(f.name) && Dotted(f.name)
    requires forall a | a in d.aliases :: OwnOrUndotted(a) && HasName(d.fields, a.resolves)
    ensures CanonicalNames(d)
  {
    forall f | f in d.fields
      ensures ToLower(f.name) == f.name && TrimSpace(f.name) == f.name
    {
      SpelledIsStable(f.name);
    }
    forall a, f | a in d.aliases && f in d.fields && ToLower(a.input) == f.name
      ensures a.resolves == f.name
    {
      DotsSurviveLower(a.input);
      var g :| g in d.fields && g.name == a.resolves;
      SpelledIsStable(g.name);
    }
  }

  lemma OrderWellFormed()
    ensures CanonicalNames(ORDER) && ServiceableFields(ORDER)
  {
    OrderNames();
    OrderFields();
    OrderAliases();
    NamesAreCanonical(ORDER);
    FivePartsOf(ORDER_CORE_FIELDS, ORDER_TERMS_FIELDS, ORDER_PROGRESS_FIELDS, ORDER_RETURNS_FIELDS, ORDER_LEGACY_FIELDS);
    assert ORDER_TERMS_FIELDS[0] in ORDER_TERMS_FIELDS && ORDER_TERMS_FIELDS[0].name == ORDER.defaultSort;
  }

  lemma CustomerWellFormed()
    ensures CanonicalNames(CUSTOMER) && ServiceableFields(CUSTOMER)
  {
    CustomerNames();
    CustomerFields();
    CustomerAliases();
    NamesAreCanonical(CUSTOMER);
    CustomerSortDeclared();
  }

  lemma CustomerSortDeclared()
    ensures HasName(CUSTOMER_FIELDS, CUSTOMER_SORT)
  {
    assert CUSTOMER_PROFILE_FIELDS[1] in CUSTOMER_FIELDS && CUSTOMER_PROFILE_FIELDS[1].name == CUSTOMER_SORT;
  }

  /** The shipped definition keeps the discipline every other module asks of a definition. */
  lemma DefinitionIsWellFormed()
    ensures WellFormed(DEFINITION)
  {
    OrderWellFormed();
    CustomerWellFormed();
    PairWellFormed(ORDER, CUSTOMER);
  }

  lemma PairWellFormed(a: Resource, b: Resource)
    requires CanonicalNames(a) && ServiceableFields(a) && CanonicalNames(b) && ServiceableFields(b)
    ensures WellFormed([a, b])
  {
  }
}
