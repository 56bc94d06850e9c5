/**
  The schema registry: a read-only index built once from a definition, through
  which every field name on the request path is normalised, checked and mapped
  to a column.
  */
module Schema {
  import opened Text
  import opened Store

  datatype Field = Field(
    name: string,
    nativeColumn: string,
    intentScopes: seq<string>,
    sortable: bool,
    filterable: bool)

  datatype Alias = Alias(input: string, resolves: string)

  datatype EnumRole = EnumRole(role: string, field: string, value: string)

  datatype Resource = Resource(
    name: string,
    tableName: string,
    defaultSort: string,
    fields: seq<Field>,
    aliases: seq<Alias>,
    enumRoles: seq<EnumRole>,
    v1Fields: seq<string>)

  type FieldMap = map<string, Field>

  datatype Registry = Registry(
    resourceOrder: seq<string>,
    resources: map<string, Resource>,
    fieldIndex: map<string, FieldMap>,
    aliasIndex: map<string, map<string, string>>,
    roleIndex: map<string, EnumRole>,
    rolesByPrefix: map<string, seq<EnumRole>>)
  {
    function GetTableName(resource: string): Result<string> {
      if resource in resources then Ok(resources[resource].tableName) else Err(UnknownResource(resource))
    }

    function GetDefaultSortField(resource: string): Option<string> {
      if resource in resources then Some(resources[resource].defaultSort) else None
    }

    /** The field record of a resource, if the resource has such a field. */
    function FieldOf(resource: string, field: string): Option<Field> {
      if resource in fieldIndex && field in fieldIndex[resource]
      then Some(fieldIndex[resource][field]) else None
    }

    function GetNativeColumn(resource: string, field: string): Option<string> {
      match FieldOf(resource, field)
      case Some(f) => Some(f.nativeColumn)
      case None => None
    }

    function FirstColumn(order: seq<string>, field: string): Option<string> {
      if order == [] then None
      else
        match GetNativeColumn(order[0], field)
        case Some(c) => Some(c)
        case None => FirstColumn(order[1..], field)
    }

    /** Field lookup when the resource is not known: first owner in definition order. */
    function NativeColumnForField(field: string): Option<string> {
      FirstColumn(resourceOrder, field)
    }

    /** Canonical name of an input, or `None` when the input is not known. */
    function NormalizeField(resource: string, input: string): Option<string> {
      var key := ToLower(TrimSpace(input));
      if resource in aliasIndex && key in aliasIndex[resource] then Some(aliasIndex[resource][key])
      else if FieldOf(resource, input).Some? then Some(input)
      else None
    }

    function Filterable(resource: string): set<string> {
      if resource in fieldIndex
      then set n | n in fieldIndex[resource] && fieldIndex[resource][n].filterable
      else {}
    }

    function Sortable(resource: string): set<string> {
      if resource in fieldIndex
      then set n | n in fieldIndex[resource] && fieldIndex[resource][n].sortable
      else {}
    }

    /** A field is open to an intent when it lists that intent or the scope `default`. */
    predicate IsFieldAllowed(resource: string, intent: string, field: string) {
      match FieldOf(resource, field)
      case Some(f) => intent in f.intentScopes || "default" in f.intentScopes
      case None => false
    }

    function GetEnumRole(role: string): Option<EnumRole> {
      if role in roleIndex then Some(roleIndex[role]) else None
    }

    function GetEnumRolesByPrefix(prefix: string): seq<EnumRole> {
      if prefix in rolesByPrefix then rolesByPrefix[prefix] else []
    }

    function GetV1SearchableFields(resource: string): set<string> {
      if resource in resources then set f | f in resources[resource].v1Fields else {}
    }

    /** The three per-resource maps cover the same names, all listed in order. */
    ghost predicate Consistent() {
      && resources.Keys == fieldIndex.Keys == aliasIndex.Keys
      && (forall r | r in resources :: r in resourceOrder)
    }
  }

  // ----- the index a definition gives rise to -----

  function IndexFields(fields: seq<Field>): FieldMap {
    if fields == [] then map[]
    else
      var f := fields[|fields| - 1];
      IndexFields(fields[..|fields| - 1])[f.name := f]
  }

  function IndexAliases(aliases: seq<Alias>): map<string, string> {
    if aliases == [] then map[]
    else
      var a := aliases[|aliases| - 1];
      IndexAliases(aliases[..|aliases| - 1])[ToLower(a.input) := a.resolves]
  }

  /** Position of the last dot, or -1. */
  function LastDot(s: string): (i: int)
    ensures -1 <= i < |s|
    ensures i >= 0 ==> s[i] == '.'
    ensures forall j | i < j < |s| :: s[j] != '.'
  {
    if s == "" then -1
    else if s[|s| - 1] == '.' then |s| - 1
    else LastDot(s[..|s| - 1])
  }

  function IndexRoleNames(m: map<string, EnumRole>, roles: seq<EnumRole>): map<string, EnumRole> {
    if roles == [] then m
    else
      var e := roles[|roles| - 1];
      IndexRoleNames(m, roles[..|roles| - 1])[e.role := e]
  }

  function IndexRoles(m: map<string, seq<EnumRole>>, roles: seq<EnumRole>): map<string, seq<EnumRole>> {
    if roles == [] then m
    else
      var e := roles[|roles| - 1];
      var before := IndexRoles(m, roles[..|roles| - 1]);
      var dot := LastDot(e.role);
      if dot > 0 then
        var p := e.role[..dot];
        before[p := (if p in before then before[p] else []) + [e]]
      else before
  }

  function Index(defs: seq<Resource>): Registry {
    if defs == [] then Registry([], map[], map[], map[], map[], map[])
    else
      var r := Index(defs[..|defs| - 1]);
      var d := defs[|defs| - 1];
      Registry(
        r.resourceOrder + [d.name],
        r.resources[d.name := d],
        r.fieldIndex[d.name := IndexFields(d.fields)],
        r.aliasIndex[d.name := IndexAliases(d.aliases)],
        IndexRoleNames(r.roleIndex, d.enumRoles),
        IndexRoles(r.rolesByPrefix, d.enumRoles))
  }

  /** The constructor: one pass over the resources, filling the order and five maps. */
  method New(defs: seq<Resource>) returns (r: Registry)
    ensures r == Index(defs)
  {
    var order: seq<string> := [];
    var resources: map<string, Resource> := map[];
    var fieldIndex: map<string, FieldMap> := map[];
    var aliasIndex: map<string, map<string, string>> := map[];
    var roleNames: map<string, EnumRole> := map[];
    var roles: map<string, seq<EnumRole>> := map[];
    for i := 0 to |defs|
      invariant Registry(order, resources, fieldIndex, aliasIndex, roleNames, roles) == Index(defs[..i])
    {
      assert defs[..i + 1][..i] == defs[..i];
      var d := defs[i];
      resources := resources[d.name := d];
      order := order + [d.name];
      var fm := FillFields(d.fields);
      fieldIndex := fieldIndex[d.name := fm];
      var am := FillAliases(d.aliases);
      aliasIndex := aliasIndex[d.name := am];
      roleNames, roles := FillRoles(roleNames, roles, d.enumRoles);
    }
    assert defs[..|defs|] == defs;
    r := Registry(order, resources, fieldIndex, aliasIndex, roleNames, roles);
  }

  method FillFields(fields: seq<Field>) returns (m: FieldMap)
    ensures m == IndexFields(fields)
  {
    m := map[];
    for j := 0 to |fields|
      invariant m == IndexFields(fields[..j])
    {
      assert fields[..j + 1][..j] == fields[..j];
      m := m[fields[j].name := fields[j]];
    }
    assert fields[..|fields|] == fields;
  }

  method FillAliases(aliases: seq<Alias>) returns (m: map<string, string>)
    ensures m == IndexAliases(aliases)
  {
    m := map[];
    for j := 0 to |aliases|
      invariant m == IndexAliases(aliases[..j])
    {
      assert aliases[..j + 1][..j] == aliases[..j];
      m := m[ToLower(aliases[j].input) := aliases[j].resolves];
    }
    assert aliases[..|aliases|] == aliases;
  }

  method FillRoles(names0: map<string, EnumRole>, start: map<string, seq<EnumRole>>, roles: seq<EnumRole>)
    returns (names: map<string, EnumRole>, m: map<string, seq<EnumRole>>)
    ensures names == IndexRoleNames(names0, roles)
    ensures m == IndexRoles(start, roles)
  {
    names, m := names0, start;
    for j := 0 to |roles|
      invariant names == IndexRoleNames(names0, roles[..j])
      invariant m == IndexRoles(start, roles[..j])
    {
      assert roles[..j + 1][..j] == roles[..j];
      names := names[roles[j].role := roles[j]];
      var dot := LastDot(roles[j].role);
      if dot > 0 {
        var p := roles[j].role[..dot];
        m := m[p := (if p in m then m[p] else []) + [roles[j]]];
      }
    }
    assert roles[..|roles|] == roles;
  }

  /** The set of names usable in WHERE clauses, gathered field by field. */
  method FilterableFields(reg: Registry, resource: string) returns (out: set<string>)
    ensures out == reg.Filterable(resource)
  {
    out := {};
    if resource in reg.fieldIndex {
      var fields := reg.fieldIndex[resource];
      var todo := fields.Keys;
      while todo != {}
        invariant todo <= fields.Keys
        invariant out == set n | n in fields.Keys - todo && fields[n].filterable
      {
        var name :| name in todo;
        if fields[name].filterable {
          out := out + {name};
        }
        todo := todo - {name};
      }
    }
  }

  /** The set of names usable in ORDER BY, gathered field by field. */
  method SortableFields(reg: Registry, resource: string) returns (out: set<string>)
    ensures out == reg.Sortable(resource)
  {
    out := {};
    if resource in reg.fieldIndex {
      var fields := reg.fieldIndex[resource];
      var todo := fields.Keys;
      while todo != {}
        invariant todo <= fields.Keys
        invariant out == set n | n in fields.Keys - todo && fields[n].sortable
      {
        var name :| name in todo;
        if fields[name].sortable {
          out := out + {name};
        }
        todo := todo - {name};
      }
    }
  }

  // ----- what the index says about its definition -----

  /** The field index holds exactly the declared names, each under its own record. */
  lemma {:induction false} FieldsIndexed(fields: seq<Field>)
    ensures forall f | f in fields :: f.name in IndexFields(fields)
    ensures forall n | n in IndexFields(fields) :: IndexFields(fields)[n].name == n && IndexFields(fields)[n] in fields
  {
    if fields != [] {
      var k := |fields| - 1;
      FieldsIndexed(fields[..k]);
      assert fields == fields[..k] + [fields[k]];
    }
  }

  /** Of fields with one name the last is kept, without complaint. */
  lemma {:induction false} LastFieldKept(fields: seq<Field>, i: nat)
    requires i < |fields| && forall j | i < j < |fields| :: fields[j].name != fields[i].name
    ensures fields[i].name in IndexFields(fields) && IndexFields(fields)[fields[i].name] == fields[i]
  {
    var k := |fields| - 1;
    if i < k {
      LastFieldKept(fields[..k], i);
    }
  }

  /** Alias keys are lower-cased inputs, and resolve as declared. */
  lemma {:induction false} AliasesIndexed(aliases: seq<Alias>)
    ensures forall a | a in aliases :: ToLower(a.input) in IndexAliases(aliases)
    ensures forall k | k in IndexAliases(aliases) ::
              exists a :: a in aliases && ToLower(a.input) == k && a.resolves == IndexAliases(aliases)[k]
  {
    if aliases != [] {
      var n := |aliases| - 1;
      var p, m := IndexAliases(aliases[..n]), IndexAliases(aliases);
      AliasesIndexed(aliases[..n]);
      assert aliases == aliases[..n] + [aliases[n]];
      forall k | k in m
        ensures exists a :: a in aliases && ToLower(a.input) == k && a.resolves == m[k]
      {
        if k == ToLower(aliases[n].input) {
          assert aliases[n] in aliases;
        } else {
          var a :| a in aliases[..n] && ToLower(a.input) == k && a.resolves == p[k];
          assert a in aliases;
        }
      }
    }
  }

  /** Resource `n` of the registry is indexed from definition `d`. */
  ghost predicate IndexedFrom(r: Registry, n: string, d: Resource) {
    && n in r.resources && n in r.fieldIndex && n in r.aliasIndex
    && d.name == n && r.resources[n] == d
    && r.fieldIndex[n] == IndexFields(d.fields)
    && r.aliasIndex[n] == IndexAliases(d.aliases)
  }

  /** Every registry that `New` builds is consistent and reflects its definition. */
  lemma {:induction false} IndexConsistent(defs: seq<Resource>)
    ensures Index(defs).Consistent()
    ensures forall n | n in Index(defs).resources :: exists d :: d in defs && IndexedFrom(Index(defs), n, d)
  {
    if defs != [] {
      var k := |defs| - 1;
      IndexConsistent(defs[..k]);
      var r, p := Index(defs), Index(defs[..k]);
      assert r.resourceOrder[|p.resourceOrder|] == defs[k].name;
      assert forall n | n in p.resourceOrder :: n in r.resourceOrder;
      forall n | n in r.resources
        ensures exists d :: d in defs && IndexedFrom(r, n, d)
      {
        if n == defs[k].name {
          assert IndexedFrom(r, n, defs[k]);
        } else {
          var d :| d in defs[..k] && IndexedFrom(p, n, d);
          assert d in defs && IndexedFrom(r, n, d);
        }
      }
    }
  }

  // ----- which column a filter reaches -----

  /** Resources listed before `resource` do not define `field` with another column. */
  ghost predicate NoEarlierOwner(reg: Registry, resource: string, field: string) {
    exists k ::
      && 0 <= k < |reg.resourceOrder|
      && reg.GetNativeColumn(reg.resourceOrder[k], field) == reg.GetNativeColumn(resource, field)
      && forall j | 0 <= j < k :: reg.GetNativeColumn(reg.resourceOrder[j], field).None?
  }

  lemma {:induction false} FirstColumnIs(reg: Registry, order: seq<string>, field: string, k: nat)
    requires k < |order| && reg.GetNativeColumn(order[k], field).Some?
    requires forall j | 0 <= j < k :: reg.GetNativeColumn(order[j], field).None?
    ensures reg.FirstColumn(order, field) == reg.GetNativeColumn(order[k], field)
  {
    if k > 0 {
      FirstColumnIs(reg, order[1..], field, k - 1);
    }
  }

  lemma {:induction false} FirstColumnFound(reg: Registry, order: seq<string>, field: string) returns (k: nat)
    requires exists r :: r in order && reg.GetNativeColumn(r, field).Some?
    ensures k < |order| && reg.GetNativeColumn(order[k], field).Some?
    ensures forall j | 0 <= j < k :: reg.GetNativeColumn(order[j], field).None?
    ensures reg.FirstColumn(order, field) == reg.GetNativeColumn(order[k], field)
  {
    if reg.GetNativeColumn(order[0], field).Some? {
      k := 0;
    } else {
      var r :| r in order && reg.GetNativeColumn(r, field).Some?;
      assert order == [order[0]] + order[1..];
      assert r in order[1..];
      var i := FirstColumnFound(reg, order[1..], field);
      k := i + 1;
    }
  }

  /**
    A filter on a field of the searched resource is always mapped to a column,
    and to that resource's own column exactly when the first owner of the name,
    in definition order, agrees on the column.
    */
  lemma FilterColumnIsOwn(reg: Registry, resource: string, field: string)
    requires reg.Consistent() && reg.FieldOf(resource, field).Some?
    ensures reg.NativeColumnForField(field).Some?
    ensures reg.NativeColumnForField(field) == reg.GetNativeColumn(resource, field)
            <==> NoEarlierOwner(reg, resource, field)
  {
    assert resource in reg.resourceOrder;
    assert reg.GetNativeColumn(resource, field).Some?;
    var k := FirstColumnFound(reg, reg.resourceOrder, field);
    if NoEarlierOwner(reg, resource, field) {
      var m :| 0 <= m < |reg.resourceOrder|
               && reg.GetNativeColumn(reg.resourceOrder[m], field) == reg.GetNativeColumn(resource, field)
               && forall j | 0 <= j < m :: reg.GetNativeColumn(reg.resourceOrder[j], field).None?;
      FirstColumnIs(reg, reg.resourceOrder, field, m);
    }
  }

  /** No field name belongs to two resources. */
  ghost predicate DisjointFields(reg: Registry) {
    forall r, s, f :: reg.FieldOf(r, f).Some? && reg.FieldOf(s, f).Some? ==> r == s
  }

  /** With disjoint field names every filter reaches the searched resource's column. */
  lemma DisjointFieldsOwnColumns(reg: Registry, resource: string, field: string)
    requires reg.Consistent() && DisjointFields(reg) && reg.FieldOf(resource, field).Some?
    ensures reg.NativeColumnForField(field) == reg.GetNativeColumn(resource, field)
  {
    assert resource in reg.resourceOrder;
    assert reg.GetNativeColumn(resource, field).Some?;
    var k := FirstColumnFound(reg, reg.resourceOrder, field);
    assert reg.FieldOf(reg.resourceOrder[k], field).Some?;
  }

  // ----- enum roles -----

  /** Looking up a role by its full name finds exactly the declared roles, each under its own name. */
  lemma RolesIndexed(defs: seq<Resource>)
    ensures forall d, e | d in defs && e in d.enumRoles :: Index(defs).GetEnumRole(e.role).Some?
    ensures forall n | Index(defs).GetEnumRole(n).Some? ::
              var e := Index(defs).GetEnumRole(n).value; e.role == n && exists d :: d in defs && e in d.enumRoles
  {
    RoleIndexHolds(defs);
  }

  lemma {:induction false} RoleIndexHolds(defs: seq<Resource>)
    ensures forall d, e | d in defs && e in d.enumRoles :: e.role in Index(defs).roleIndex
    ensures forall n | n in Index(defs).roleIndex ::
              Index(defs).roleIndex[n].role == n && exists d :: d in defs && Index(defs).roleIndex[n] in d.enumRoles
  {
    if defs != [] {
      var k := |defs| - 1;
      var before, d := Index(defs[..k]).roleIndex, defs[k];
      RoleIndexHolds(defs[..k]);
      RoleNamesIndexed(before, d.enumRoles);
      assert defs == defs[..k] + [d];
      forall n | n in Index(defs).roleIndex
        ensures Index(defs).roleIndex[n].role == n && exists x :: x in defs && Index(defs).roleIndex[n] in x.enumRoles
      {
        if Index(defs).roleIndex[n] in d.enumRoles {
          assert d in defs;
        } else {
          var x :| x in defs[..k] && before[n] in x.enumRoles;
          assert x in defs;
        }
      }
    }
  }

  lemma {:induction false} RoleNamesIndexed(m: map<string, EnumRole>, roles: seq<EnumRole>)
    ensures forall e | e in roles :: e.role in IndexRoleNames(m, roles)
    ensures forall n | n in m :: n in IndexRoleNames(m, roles)
    ensures forall n | n in IndexRoleNames(m, roles) ::
              var e := IndexRoleNames(m, roles)[n];
              (e in roles && e.role == n) || (n in m && e == m[n])
  {
    if roles != [] {
      var k := |roles| - 1;
      RoleNamesIndexed(m, roles[..k]);
      assert roles == roles[..k] + [roles[k]];
    }
  }

  /** The role is the prefix, a dot, and one more segment. */
  predicate FiledUnder(role: string, prefix: string) {
    prefix != "" && prefix + "." <= role && '.' !in role[|prefix| + 1..]
  }

  lemma FiledUnderIff(role: string, prefix: string)
    ensures FiledUnder(role, prefix) <==> LastDot(role) > 0 && role[..LastDot(role)] == prefix
  {
    var i := LastDot(role);
    if FiledUnder(role, prefix) {
      assert role[|prefix|] == (prefix + ".")[|prefix|] == '.';
      assert forall j | |prefix| < j < |role| :: role[j] == role[|prefix| + 1..][j - |prefix| - 1];
      assert role[..|prefix|] == prefix;
    }
    if i > 0 && role[..i] == prefix {
      assert role[..i + 1] == prefix + ".";
      var tail := role[i + 1..];
      assert forall j | 0 <= j < |tail| :: tail[j] == role[i + 1 + j] && tail[j] != '.';
    }
  }

  /** The roles of all resources filed under a prefix, in definition order. */
  function AllFiled(defs: seq<Resource>, prefix: string): seq<EnumRole> {
    if defs == [] then []
    else
      var n := |defs| - 1;
      AllFiled(defs[..n], prefix) + Select(defs[n].enumRoles, (e: EnumRole) => FiledUnder(e.role, prefix))
  }

  function FiledAt(m: map<string, seq<EnumRole>>, prefix: string): seq<EnumRole> {
    if prefix in m then m[prefix] else []
  }

  lemma {:induction false} RolesFiled(m: map<string, seq<EnumRole>>, roles: seq<EnumRole>, prefix: string)
    ensures FiledAt(IndexRoles(m, roles), prefix)
            == FiledAt(m, prefix) + Select(roles, (e: EnumRole) => FiledUnder(e.role, prefix))
  {
    if roles == [] {
      assert FiledAt(m, prefix) + [] == FiledAt(m, prefix);
    } else {
      var n := |roles| - 1;
      RolesFiled(m, roles[..n], prefix);
      FiledUnderIff(roles[n].role, prefix);
      var kept := Select(roles[..n], (e: EnumRole) => FiledUnder(e.role, prefix));
      assert FiledAt(m, prefix) + (kept + [roles[n]]) == FiledAt(m, prefix) + kept + [roles[n]];
    }
  }

  /** Looking up a prefix gives exactly the roles one segment below it, in definition order. */
  lemma {:induction false} PrefixLookup(defs: seq<Resource>, prefix: string)
    ensures Index(defs).GetEnumRolesByPrefix(prefix) == AllFiled(defs, prefix)
  {
    if defs != [] {
      var n := |defs| - 1;
      PrefixLookup(defs[..n], prefix);
      RolesFiled(Index(defs[..n]).rolesByPrefix, defs[n].enumRoles, prefix);
    }
  }

  /** A prefix finds nothing exactly when no declared role is the prefix, a dot, and one more segment. */
  lemma {:induction false} PrefixFindsNothingIff(defs: seq<Resource>, prefix: string)
    ensures Index(defs).GetEnumRolesByPrefix(prefix) == []
            <==> forall d, e | d in defs && e in d.enumRoles :: !FiledUnder(e.role, prefix)
  {
    PrefixLookup(defs, prefix);
    NothingFiledIff(defs, prefix);
  }

  lemma {:induction false} NothingFiledIff(defs: seq<Resource>, prefix: string)
    ensures AllFiled(defs, prefix) == [] <==> forall d, e | d in defs && e in d.enumRoles :: !FiledUnder(e.role, prefix)
  {
    if defs != [] {
      var n := |defs| - 1;
      var filed := (e: EnumRole) => FiledUnder(e.role, prefix);
      NothingFiledIff(defs[..n], prefix);
      SelectMembers(defs[n].enumRoles, filed);
      assert defs == defs[..n] + [defs[n]];
      if Select(defs[n].enumRoles, filed) == [] {
        assert forall e | e in defs[n].enumRoles :: !filed(e);
      } else {
        var e := Select(defs[n].enumRoles, filed)[0];
        assert e in Select(defs[n].enumRoles, filed);
        assert defs[n] in defs;
      }
    }
  }
}
