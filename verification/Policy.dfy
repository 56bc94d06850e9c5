/**
  The policy engine. Direct grants and attribute rules are consulted along two
  separate paths; one declarative decision specifies both, with deny winning.
  */
module Policy {
  import opened Store

  datatype Subject = Subject(
    tenantID: string,
    userID: string,
    roles: seq<string>,
    attributes: map<string, string>)

  datatype Decision = Decision(allowed: bool, reason: string)

  datatype Rule = Rule(effect: string, subjectAttr: string, resourceAttr: string, op: string, value: string)

  const MATCH_RESOURCE := "__MATCH_RESOURCE__"

  /** A missing subject attribute reads as the empty string. */
  function SubjectAttr(s: Subject, name: string): string {
    if name in s.attributes then s.attributes[name] else ""
  }

  /** A resource attribute that is missing or not a string reads as the empty string. */
  function ResourceAttr(doc: Doc, name: string): string {
    if name in doc && doc[name].Str? then doc[name].s else ""
  }

  predicate MatchRule(rule: Rule, subject: Subject, doc: Doc) {
    var sVal := SubjectAttr(subject, rule.subjectAttr);
    var rVal := ResourceAttr(doc, rule.resourceAttr);
    match rule.op
    case "equals" =>
      if rule.value == MATCH_RESOURCE then sVal != "" && sVal == rVal else sVal == rule.value
    case "not_equals" =>
      if rule.value == MATCH_RESOURCE then sVal != rVal else sVal != rule.value
    case _ => false
  }

  // ----- what a rule says -----

  /** The value an attribute list gives a name, absent names being empty. */
  ghost predicate Carries(s: Subject, name: string, value: string) {
    (name in s.attributes && s.attributes[name] == value) || (name !in s.attributes && value == "")
  }

  /** The text a document gives a name, anything else being empty. */
  ghost predicate Reads(doc: Doc, name: string, value: string) {
    (name in doc && doc[name] == Str(value)) || (value == "" && (name !in doc || !doc[name].Str?))
  }

  /**
    A rule applies in one of four ways: its subject attribute is the named value
    or is another; or, set against the document, it is a non-empty value the
    document shares, or differs from the document's.
    */
  ghost predicate Applies(rule: Rule, s: Subject, doc: Doc) {
    || (rule.op == "equals" && rule.value != MATCH_RESOURCE && Carries(s, rule.subjectAttr, rule.value))
    || (rule.op == "not_equals" && rule.value != MATCH_RESOURCE && !Carries(s, rule.subjectAttr, rule.value))
    || (rule.op == "equals" && rule.value == MATCH_RESOURCE
        && exists v :: v != "" && Carries(s, rule.subjectAttr, v) && Reads(doc, rule.resourceAttr, v))
    || (rule.op == "not_equals" && rule.value == MATCH_RESOURCE
        && !exists v :: Carries(s, rule.subjectAttr, v) && Reads(doc, rule.resourceAttr, v))
  }

  lemma MatchIsApplies(rule: Rule, s: Subject, doc: Doc)
    ensures MatchRule(rule, s, doc) <==> Applies(rule, s, doc)
  {
    var sVal, rVal := SubjectAttr(s, rule.subjectAttr), ResourceAttr(doc, rule.resourceAttr);
    assert forall v :: Carries(s, rule.subjectAttr, v) <==> v == sVal;
    assert forall v :: Reads(doc, rule.resourceAttr, v) <==> v == rVal;
    assert Carries(s, rule.subjectAttr, sVal) && Reads(doc, rule.resourceAttr, rVal);
  }

  /** Some rule of the effect applies. */
  ghost predicate SomeApplies(effect: string, rules: seq<Rule>, s: Subject, doc: Doc) {
    exists r :: r in rules && r.effect == effect && Applies(r, s, doc)
  }

  /** Access as the rules and grants say it, without reference to how they are evaluated. */
  ghost predicate Permitted(s: Subject, doc: Doc, grants: set<string>, rules: seq<Rule>) {
    && (Reads(doc, "tenant_id", "") || Reads(doc, "tenant_id", s.tenantID))
    && !SomeApplies("deny", rules, s, doc)
    && ("*" in grants || (exists id :: id in grants && Reads(doc, "id", id)) || SomeApplies("allow", rules, s, doc))
  }

  lemma DecideIsPermitted(s: Subject, doc: Doc, grants: set<string>, rules: seq<Rule>)
    ensures Decide(s, doc, grants, rules).allowed <==> Permitted(s, doc, grants, rules)
  {
    forall r
      ensures MatchRule(r, s, doc) <==> Applies(r, s, doc)
    {
      MatchIsApplies(r, s, doc);
    }
    var id := ResourceAttr(doc, "id");
    assert forall v :: Reads(doc, "id", v) <==> v == id;
    assert forall v :: Reads(doc, "tenant_id", v) <==> v == ResourceAttr(doc, "tenant_id");
  }

  /** Each reason states what holds, the earlier ones first. */
  lemma ReasonsAre(s: Subject, doc: Doc, grants: set<string>, rules: seq<Rule>)
    ensures var reason, same := Decide(s, doc, grants, rules).reason,
                                Reads(doc, "tenant_id", "") || Reads(doc, "tenant_id", s.tenantID);
            var denied, allowed := SomeApplies("deny", rules, s, doc), SomeApplies("allow", rules, s, doc);
            var granted := "*" in grants || exists id :: id in grants && Reads(doc, "id", id);
            && (reason == "tenant_mismatch" <==> !same)
            && (reason == "abac_deny" <==> same && denied)
            && (reason == "acl_grant" <==> same && !denied && granted)
            && (reason == "abac_allow" <==> same && !denied && !granted && allowed)
            && (reason == "no_grant" <==> same && !denied && !granted && !allowed)
  {
    forall r
      ensures MatchRule(r, s, doc) <==> Applies(r, s, doc)
    {
      MatchIsApplies(r, s, doc);
    }
    assert forall v :: Reads(doc, "id", v) <==> v == ResourceAttr(doc, "id");
    assert forall v :: Reads(doc, "tenant_id", v) <==> v == ResourceAttr(doc, "tenant_id");
  }

  /**
    What one deny rule does to a subject who otherwise has every grant on a
    document of its own tenant, operator by operator.
    */
  lemma OneDenyRule(s: Subject, doc: Doc, attr: string, other: string, op: string, value: string)
    requires Reads(doc, "tenant_id", s.tenantID)
    ensures var d := Decide(s, doc, {"*"}, [Rule("deny", attr, other, op, value)]);
            && (op == "equals" && value != MATCH_RESOURCE ==> (d.allowed <==> !Carries(s, attr, value)))
            && (op == "not_equals" && value != MATCH_RESOURCE ==> (d.allowed <==> Carries(s, attr, value)))
            && (op == "equals" && value == MATCH_RESOURCE ==>
                  (d.allowed <==> !exists v :: v != "" && Carries(s, attr, v) && Reads(doc, other, v)))
            && (op == "not_equals" && value == MATCH_RESOURCE ==>
                  (d.allowed <==> exists v :: Carries(s, attr, v) && Reads(doc, other, v)))
            && (op != "equals" && op != "not_equals" ==> d.allowed)
  {
    var rule := Rule("deny", attr, other, op, value);
    DecideIsPermitted(s, doc, {"*"}, [rule]);
    assert rule in [rule];
  }

  /** What one allow rule does for a subject without grants, operator by operator. */
  lemma OneAllowRule(s: Subject, doc: Doc, attr: string, other: string, op: string, value: string)
    requires Reads(doc, "tenant_id", s.tenantID)
    ensures var d := Decide(s, doc, {}, [Rule("allow", attr, other, op, value)]);
            && (op == "equals" && value != MATCH_RESOURCE ==> (d.allowed <==> Carries(s, attr, value)))
            && (op == "not_equals" && value != MATCH_RESOURCE ==> (d.allowed <==> !Carries(s, attr, value)))
            && (op == "equals" && value == MATCH_RESOURCE ==>
                  (d.allowed <==> exists v :: v != "" && Carries(s, attr, v) && Reads(doc, other, v)))
            && (op == "not_equals" && value == MATCH_RESOURCE ==>
                  (d.allowed <==> !exists v :: Carries(s, attr, v) && Reads(doc, other, v)))
            && (op != "equals" && op != "not_equals" ==> !d.allowed)
  {
    var rule := Rule("allow", attr, other, op, value);
    DecideIsPermitted(s, doc, {}, [rule]);
    assert rule in [rule];
  }

  // ----- the decision, declaratively -----

  predicate SomeRule(effect: string, rules: seq<Rule>, subject: Subject, doc: Doc) {
    exists r :: r in rules && r.effect == effect && MatchRule(r, subject, doc)
  }

  predicate TenantMismatch(subject: Subject, doc: Doc) {
    var t := ResourceAttr(doc, "tenant_id");
    t != "" && t != subject.tenantID
  }

  predicate Granted(grants: set<string>, doc: Doc) {
    "*" in grants || ResourceAttr(doc, "id") in grants
  }

  /** Tenant first, then deny, then any ground to allow. */
  function Decide(subject: Subject, doc: Doc, grants: set<string>, rules: seq<Rule>): Decision {
    if TenantMismatch(subject, doc) then Decision(false, "tenant_mismatch")
    else if SomeRule("deny", rules, subject, doc) then Decision(false, "abac_deny")
    else if Granted(grants, doc) then Decision(true, "acl_grant")
    else if SomeRule("allow", rules, subject, doc) then Decision(true, "abac_allow")
    else Decision(false, "no_grant")
  }

  // ----- the two code paths -----

  /** Without a grant: scan the rules, stop at the first matching deny. */
  method EvalABAC(subject: Subject, doc: Doc, rules: seq<Rule>) returns (allowed: bool, reason: string)
    ensures allowed <==> !SomeRule("deny", rules, subject, doc) && SomeRule("allow", rules, subject, doc)
    ensures reason == if SomeRule("deny", rules, subject, doc) then "abac_deny"
                      else if allowed then "abac_allow" else "no_grant"
  {
    allowed := false;
    for i := 0 to |rules|
      invariant !SomeRule("deny", rules[..i], subject, doc)
      invariant allowed <==> SomeRule("allow", rules[..i], subject, doc)
    {
      assert rules[..i + 1] == rules[..i] + [rules[i]];
      assert rules[i] in rules && rules[i] in rules[..i + 1];
      if !MatchRule(rules[i], subject, doc) {
        continue;
      }
      if rules[i].effect == "deny" {
        return false, "abac_deny";
      }
      if rules[i].effect == "allow" {
        allowed := true;
      }
    }
    assert rules[..|rules|] == rules;
    reason := if allowed then "abac_allow" else "no_grant";
  }

  /** With a grant: look for a matching deny only. */
  method HasDenyRule(subject: Subject, doc: Doc, rules: seq<Rule>) returns (deny: bool)
    ensures deny <==> SomeRule("deny", rules, subject, doc)
  {
    for i := 0 to |rules|
      invariant !SomeRule("deny", rules[..i], subject, doc)
    {
      assert rules[..i + 1] == rules[..i] + [rules[i]];
      if rules[i].effect == "deny" && MatchRule(rules[i], subject, doc) {
        assert rules[i] in rules;
        return true;
      }
    }
    assert rules[..|rules|] == rules;
    deny := false;
  }

  /**
    The engine's entry point, on loaded grants and rules; either load may fail.
    Both paths implement the one decision, and a tenant mismatch needs neither load.
    */
  method Evaluate(subject: Subject, doc: Doc, grants: Result<set<string>>, rules: Result<seq<Rule>>)
    returns (r: Result<Decision>)
    ensures r == if TenantMismatch(subject, doc) then Ok(Decision(false, "tenant_mismatch"))
                 else if grants.Err? then Err(grants.error)
                 else if rules.Err? then Err(rules.error)
                 else Ok(Decide(subject, doc, grants.value, rules.value))
    ensures grants.Ok? && rules.Ok? ==> (r.value.allowed <==> Permitted(subject, doc, grants.value, rules.value))
    ensures grants.Ok? && rules.Ok? && r.value.reason == "abac_deny" ==> SomeApplies("deny", rules.value, subject, doc)
  {
    if grants.Ok? && rules.Ok? {
      DecideIsPermitted(subject, doc, grants.value, rules.value);
      ReasonsAre(subject, doc, grants.value, rules.value);
    }
    var tenant := ResourceAttr(doc, "tenant_id");
    if tenant != "" && tenant != subject.tenantID {
      return Ok(Decision(false, "tenant_mismatch"));
    }
    var id := ResourceAttr(doc, "id");
    if grants.Err? {
      return Err(grants.error);
    }
    if "*" !in grants.value {
      if id !in grants.value {
        if rules.Err? {
          return Err(rules.error);
        }
        var allow, reason := EvalABAC(subject, doc, rules.value);
        if !allow {
          return Ok(Decision(false, reason));
        }
        return Ok(Decision(true, "abac_allow"));
      }
    }
    if rules.Err? {
      return Err(rules.error);
    }
    var deny := HasDenyRule(subject, doc, rules.value);
    if deny {
      return Ok(Decision(false, "abac_deny"));
    }
    return Ok(Decision(true, "acl_grant"));
  }

  // ----- laws of the decision -----

  /** Adding rules that only deny never opens access. */
  lemma DenyRulesOnlyClose(subject: Subject, doc: Doc, grants: set<string>, rules: seq<Rule>, extra: seq<Rule>)
    requires forall r | r in extra :: r.effect == "deny"
    requires Decide(subject, doc, grants, rules + extra).allowed
    ensures Decide(subject, doc, grants, rules) == Decide(subject, doc, grants, rules + extra)
  {
  }

  ghost predicate OnlyDenialsAdded(rules: seq<Rule>, rules': seq<Rule>) {
    rules <= rules' && forall r | r in rules'[|rules|..] :: r.effect == "deny"
  }

  /**
    Two evaluations of one document, before and after a change of grants and
    rules. Whichever code path each of them takes: storing the same rules
    otherwise changes nothing, deny rules added never open access nor alter a
    decision that stays open, and grants added never close it.
    */
  method EvaluateAcrossChange(subject: Subject, doc: Doc, grants: set<string>, rules: seq<Rule>,
                              grants': set<string>, rules': seq<Rule>)
    returns (before: Result<Decision>, after: Result<Decision>)
    ensures before.Ok? && after.Ok?
    ensures grants == grants' && (forall r :: r in rules <==> r in rules') ==> before == after
    ensures grants == grants' && OnlyDenialsAdded(rules, rules') && after.value.allowed ==> before == after
    ensures grants <= grants' && rules == rules' && before.value.allowed ==> after.value.allowed
  {
    before := Evaluate(subject, doc, Ok(grants), Ok(rules));
    after := Evaluate(subject, doc, Ok(grants'), Ok(rules'));
    if !TenantMismatch(subject, doc) {
      ghost var denials := OnlyDenialsAdded(rules, rules');
      if denials {
        DenyRulesAppended(subject, doc, grants, rules, rules');
      }
    }
  }

  lemma DenyRulesAppended(subject: Subject, doc: Doc, grants: set<string>, rules: seq<Rule>, rules': seq<Rule>)
    requires OnlyDenialsAdded(rules, rules')
    ensures Decide(subject, doc, grants, rules').allowed ==> Decide(subject, doc, grants, rules) == Decide(subject, doc, grants, rules')
  {
    var extra := rules'[|rules|..];
    assert rules' == rules + extra;
    if Decide(subject, doc, grants, rules').allowed {
      DenyRulesOnlyClose(subject, doc, grants, rules, extra);
    }
  }
}
