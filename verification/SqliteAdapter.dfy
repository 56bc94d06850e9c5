/**
  The SQLite adapter: compiles filters to a WHERE fragment with positional
  arguments, clamps the candidate window, and hands out an offset cursor.
  */
module SqliteAdapter {
  import opened Text
  import opened Store
  import opened Schema
  import opened Sql

  // ----- the filter compiler -----

  datatype Clause = Clause(tokens: seq<Token>, args: seq<Value>)

  datatype Compiled = Compiled(clauses: seq<seq<Token>>, args: seq<Value>)

  function ComparisonOf(op: string): Option<Cmp> {
    match op
    case "eq" => Some(Eq)
    case "neq" => Some(Ne)
    case "gt" => Some(Gt)
    case "gte" => Some(Ge)
    case "lt" => Some(Lt)
    case "lte" => Some(Le)
    case _ => None
  }

  function Repeat(n: nat): seq<Token> {
    if n == 0 then [] else [Mark, Comma] + Repeat(n - 1)
  }

  function TrimRightCommas(ts: seq<Token>): seq<Token> {
    if ts != [] && ts[|ts| - 1] == Comma then TrimRightCommas(ts[..|ts| - 1]) else ts
  }

  function CompileFilter(reg: Registry, allowed: set<string>, f: Filter): Result<Clause> {
    if f.field !in allowed then Err(UnsupportedField(f.field))
    else
      match reg.NativeColumnForField(f.field)
      case None => Err(UnsupportedField(f.field))
      case Some(col) =>
        var op := ToLower(f.op);
        if ComparisonOf(op).Some? then Ok(Clause([Col(col), Op(ComparisonOf(op).value), Mark], [f.value]))
        else if op == "like" then Ok(Clause([Col(col), Like, Mark], [f.value]))
        else if op == "in" then
          if !f.value.List? || f.value.items == [] then Err(InvalidInValue(f.field))
          else
            var marks := TrimRightCommas(Repeat(|f.value.items|));
            Ok(Clause([Col(col), In, LParen] + marks + [RParen], f.value.items))
        else Err(UnsupportedOperator(f.op))
  }

  function Compile(reg: Registry, allowed: set<string>, filters: seq<Filter>): Result<Compiled> {
    if filters == [] then Ok(Compiled([], []))
    else
      match CompileFilter(reg, allowed, filters[0])
      case Err(e) => Err(e)
      case Ok(head) => Extend([head.tokens], head.args, Compile(reg, allowed, filters[1..]))
  }

  /** Clauses and arguments already written, in front of what is still to come. */
  function Extend(clauses: seq<seq<Token>>, args: seq<Value>, tail: Result<Compiled>): Result<Compiled> {
    match tail
    case Ok(t) => Ok(Compiled(clauses + t.clauses, args + t.args))
    case Err(e) => Err(e)
  }

  /** Clauses joined by AND. */
  function Join(clauses: seq<seq<Token>>): seq<Token> {
    if clauses == [] then []
    else if |clauses| == 1 then clauses[0]
    else clauses[0] + [And] + Join(clauses[1..])
  }

  /** The text appended after `WHERE tenant_id = ?`. */
  function WhereText(clauses: seq<seq<Token>>): seq<Token> {
    if clauses == [] then [] else [And] + Join(clauses)
  }

  /** The compile loop: stops at the first filter it cannot express. */
  method BuildWhere(reg: Registry, allowed: set<string>, filters: seq<Filter>)
    returns (r: Result<(seq<Token>, seq<Value>)>)
    ensures r == match Compile(reg, allowed, filters)
                 case Ok(c) => Ok((WhereText(c.clauses), c.args))
                 case Err(e) => Err(e)
  {
    if |filters| == 0 {
      return Ok(([], []));
    }
    var clauses: seq<seq<Token>> := [];
    var args: seq<Value> := [];
    assert filters[0..] == filters;
    ExtendNothing(Compile(reg, allowed, filters));
    for i := 0 to |filters|
      invariant |clauses| == i
      invariant Compile(reg, allowed, filters) == Extend(clauses, args, Compile(reg, allowed, filters[i..]))
    {
      assert filters[i..][1..] == filters[i + 1..];
      var c := CompileFilter(reg, allowed, filters[i]);
      if c.Err? {
        return Err(c.error);
      }
      ExtendTwice(clauses, args, c.value, Compile(reg, allowed, filters[i + 1..]));
      clauses := clauses + [c.value.tokens];
      args := args + c.value.args;
    }
    assert filters[|filters|..] == [];
    assert clauses + [] == clauses && args + [] == args;
    return Ok(([And] + Join(clauses), args));
  }

  lemma ExtendTwice(clauses: seq<seq<Token>>, args: seq<Value>, c: Clause, tail: Result<Compiled>)
    ensures Extend(clauses, args, Extend([c.tokens], c.args, tail)) == Extend(clauses + [c.tokens], args + c.args, tail)
  {
    if tail.Ok? {
      assert clauses + ([c.tokens] + tail.value.clauses) == (clauses + [c.tokens]) + tail.value.clauses;
      assert args + (c.args + tail.value.args) == (args + c.args) + tail.value.args;
    }
  }

  lemma ExtendNothing(r: Result<Compiled>)
    ensures Extend([], [], r) == r
  {
    if r.Ok? {
      assert [] + r.value.clauses == r.value.clauses;
      assert [] + r.value.args == r.value.args;
    }
  }

  // ----- compiler correctness -----

  /** A filter is satisfied by a row when its resource's own column says so. */
  ghost predicate FilterHolds(c: Collation, reg: Registry, resource: string, f: Filter, row: Row) {
    match reg.GetNativeColumn(resource, f.field)
    case Some(col) => OpHolds(c, ToLower(f.op), CellOf(row, col), f.value)
    case None => false
  }

  ghost predicate AllHold(c: Collation, reg: Registry, resource: string, filters: seq<Filter>, row: Row) {
    forall f | f in filters :: FilterHolds(c, reg, resource, f, row)
  }

  /** Every filter field reaches the column of the searched resource. */
  ghost predicate OwnColumns(reg: Registry, resource: string, filters: seq<Filter>) {
    forall f | f in filters :: reg.NativeColumnForField(f.field) == reg.GetNativeColumn(resource, f.field)
  }

  lemma {:induction false} PlaceholderShape(n: nat)
    requires n > 0
    ensures TrimRightCommas(Repeat(n)) ==
            if n == 1 then [Mark] else [Mark, Comma] + TrimRightCommas(Repeat(n - 1))
    ensures TrimRightCommas(Repeat(n)) != []
  {
    var r := Repeat(n);
    if n == 1 {
      assert r[..1] == [Mark];
      assert r == [Mark, Comma];
    } else {
      PlaceholderShape(n - 1);
      TrimAfterMark(Repeat(n - 1));
    }
  }

  lemma {:induction false} TrimAfterMark(ts: seq<Token>)
    requires TrimRightCommas(ts) != []
    ensures TrimRightCommas([Mark, Comma] + ts) == [Mark, Comma] + TrimRightCommas(ts)
  {
    var u := [Mark, Comma] + ts;
    assert u[|u| - 1] == ts[|ts| - 1];
    if ts[|ts| - 1] == Comma {
      assert u[..|u| - 1] == [Mark, Comma] + ts[..|ts| - 1];
      TrimAfterMark(ts[..|ts| - 1]);
    }
  }

  /** An IN list takes exactly its own arguments and decides membership. */
  lemma {:induction false} ListEvaluates(c: Collation, cell: Cell, items: seq<Value>, rest: seq<Token>, more: seq<Cell>)
    requires items != [] && BindAll(items).Some?
    ensures var r := EvalList(c, cell, TrimRightCommas(Repeat(|items|)) + [RParen] + rest, BindAll(items).value + more);
            && r.Some? && r.value.tokens == rest && r.value.args == more
            && (r.value.truth == True <==> exists i :: 0 <= i < |items| && Equals(c, cell, items[i]))
  {
    var n := |items|;
    PlaceholderShape(n);
    FirstBound(items, more);
    FirstCompares(c, cell, items[0]);
    EqualsSplits(c, cell, items);
    if n == 1 {
      LastMark(c, cell, Bind(items[0]).value, rest, more);
      assert [Mark] + [RParen] + rest == [Mark, RParen] + rest;
      assert items[1..] == [];
    } else {
      var marks := TrimRightCommas(Repeat(n - 1));
      var tail := marks + [RParen] + rest;
      NextMark(c, cell, Bind(items[0]).value, tail, BindAll(items[1..]).value + more);
      Regroup([Mark, Comma], marks, [RParen]);
      Regroup([Mark, Comma], marks + [RParen], rest);
      assert TrimRightCommas(Repeat(n)) + [RParen] + rest == [Mark, Comma] + tail;
      ListEvaluates(c, cell, items[1..], rest, more);
    }
  }

  lemma FirstBound(items: seq<Value>, more: seq<Cell>)
    requires items != [] && BindAll(items).Some?
    ensures BindAll(items[1..]).Some? && Bind(items[0]).Some?
    ensures BindAll(items).value + more == [Bind(items[0]).value] + (BindAll(items[1..]).value + more)
    ensures |items| == 1 ==> BindAll(items[1..]).value + more == more
  {
    var x, xs := Bind(items[0]).value, BindAll(items[1..]).value;
    assert BindAll(items).value == [x] + xs;
    Regroup([x], xs, more);
    if |items| == 1 {
      assert xs == [];
    }
  }

  lemma Regroup<T>(a: seq<T>, b: seq<T>, c: seq<T>)
    ensures a + b + c == a + (b + c)
  {
  }

  lemma FirstCompares(c: Collation, cell: Cell, v: Value)
    requires Bind(v).Some?
    ensures Compare(c, Eq, cell, Bind(v).value) == True <==> Equals(c, cell, v)
  {
  }

  lemma LastMark(c: Collation, cell: Cell, x: Cell, rest: seq<Token>, more: seq<Cell>)
    ensures EvalList(c, cell, [Mark, RParen] + rest, [x] + more) == Some(Step(Compare(c, Eq, cell, x), rest, more))
  {
    assert ([Mark, RParen] + rest)[2..] == rest && ([x] + more)[1..] == more;
  }

  lemma NextMark(c: Collation, cell: Cell, x: Cell, tail: seq<Token>, more: seq<Cell>)
    ensures EvalList(c, cell, [Mark, Comma] + tail, [x] + more)
            == match EvalList(c, cell, tail, more)
               case Some(s) => Some(Step(Or3(Compare(c, Eq, cell, x), s.truth), s.tokens, s.args))
               case None => None
  {
    assert ([Mark, Comma] + tail)[2..] == tail && ([x] + more)[1..] == more;
  }

  lemma EqualsSplits(c: Collation, cell: Cell, items: seq<Value>)
    requires items != []
    ensures (exists i :: 0 <= i < |items| && Equals(c, cell, items[i]))
            <==> Equals(c, cell, items[0]) || exists i :: 0 <= i < |items[1..]| && Equals(c, cell, items[1..][i])
  {
    if exists i :: 0 <= i < |items| && Equals(c, cell, items[i]) {
      var i :| 0 <= i < |items| && Equals(c, cell, items[i]);
      assert i > 0 ==> items[1..][i - 1] == items[i];
    }
    if exists i :: 0 <= i < |items[1..]| && Equals(c, cell, items[1..][i]) {
      var i :| 0 <= i < |items[1..]| && Equals(c, cell, items[1..][i]);
      assert items[1..][i] == items[i + 1];
    }
  }

  /** A compiled single-argument clause means what its operator says. */
  lemma ComparisonEvaluates(c: Collation, op: string, col: string, v: Value, t: Token, row: Row,
                            rest: seq<Token>, more: seq<Cell>)
    requires op != "in" && Bind(v).Some?
    requires match ComparisonOf(op) case Some(cmp) => t == Op(cmp) case None => op == "like" && t == Like
    ensures var r := EvalClause(c, row, [Col(col), t, Mark] + rest, [Bind(v).value] + more);
            && r.Some? && r.value.tokens == rest && r.value.args == more
            && (r.value.truth == True <==> OpHolds(c, op, CellOf(row, col), v))
  {
    var ts, args := [Col(col), t, Mark] + rest, [Bind(v).value] + more;
    assert ts[3..] == rest && args[1..] == more;
  }

  /** One compiled clause, followed by anything, means what its filter means. */
  lemma ClauseEvaluates(c: Collation, reg: Registry, allowed: set<string>, f: Filter, row: Row,
                        rest: seq<Token>, more: seq<Cell>)
    requires CompileFilter(reg, allowed, f).Ok?
    requires BindAll(CompileFilter(reg, allowed, f).value.args).Some?
    ensures var k := CompileFilter(reg, allowed, f).value;
            var r := EvalClause(c, row, k.tokens + rest, BindAll(k.args).value + more);
            && r.Some? && r.value.tokens == rest && r.value.args == more
            && (r.value.truth == True <==>
                  OpHolds(c, ToLower(f.op), CellOf(row, reg.NativeColumnForField(f.field).value), f.value))
  {
    var k := CompileFilter(reg, allowed, f).value;
    var op := ToLower(f.op);
    var col := reg.NativeColumnForField(f.field).value;
    if op == "in" {
      var marks := TrimRightCommas(Repeat(|f.value.items|));
      assert k.tokens + rest == [Col(col), In, LParen] + (marks + [RParen] + rest);
      InClauseEvaluates(c, col, f.value.items, row, rest, more);
    } else {
      assert k.args == [f.value] && k.args[1..] == [];
      assert BindAll(k.args).value == [Bind(f.value).value];
      ComparisonEvaluates(c, op, col, f.value, k.tokens[1], row, rest, more);
    }
  }

  lemma InHeader(c: Collation, row: Row, col: string, body: seq<Token>, args: seq<Cell>)
    ensures EvalClause(c, row, [Col(col), In, LParen] + body, args) ==
            if body == [] then EvalClause(c, row, [Col(col), In, LParen], args)
            else EvalList(c, CellOf(row, col), body, args)
  {
    var ts := [Col(col), In, LParen] + body;
    assert ts[3..] == body;
  }

  lemma InClauseEvaluates(c: Collation, col: string, items: seq<Value>, row: Row, rest: seq<Token>, more: seq<Cell>)
    requires items != [] && BindAll(items).Some?
    ensures var body := TrimRightCommas(Repeat(|items|)) + [RParen] + rest;
            var r := EvalClause(c, row, [Col(col), In, LParen] + body, BindAll(items).value + more);
            && r.Some? && r.value.tokens == rest && r.value.args == more
            && (r.value.truth == True <==> OpHolds(c, "in", CellOf(row, col), List(items)))
  {
    var body := TrimRightCommas(Repeat(|items|)) + [RParen] + rest;
    InHeader(c, row, col, body, BindAll(items).value + more);
    ListEvaluates(c, CellOf(row, col), items, rest, more);
    MembershipHolds(c, CellOf(row, col), items);
  }

  lemma MembershipHolds(c: Collation, cell: Cell, items: seq<Value>)
    ensures OpHolds(c, "in", cell, List(items)) <==> exists i :: 0 <= i < |items| && Equals(c, cell, items[i])
  {
  }

  /**
    The compiled conjunction, whatever arguments follow, consumes exactly its
    own arguments from left to right and is true on exactly the rows that
    satisfy every filter.
    */
  lemma {:induction false} ConjunctionEvaluates(c: Collation, reg: Registry, resource: string, allowed: set<string>,
                                                filters: seq<Filter>, row: Row, more: seq<Cell>)
    requires filters != [] && Compile(reg, allowed, filters).Ok? && OwnColumns(reg, resource, filters)
    requires BindAll(Compile(reg, allowed, filters).value.args).Some?
    ensures var k := Compile(reg, allowed, filters).value;
            var r := EvalWhere(c, row, Join(k.clauses), BindAll(k.args).value + more);
            && k.clauses != []
            && r.Some? && r.value.1 == more
            && (r.value.0 == True <==> AllHold(c, reg, resource, filters, row))
  {
    var f, fs := filters[0], filters[1..];
    var head := CompileFilter(reg, allowed, f).value;
    var tail := Compile(reg, allowed, fs).value;
    BindAllConcat(head.args, tail.args);
    var hs, ts := BindAll(head.args).value, BindAll(tail.args).value;
    var rest := WhereText(tail.clauses);
    assert hs + ts + more == hs + (ts + more);
    ClauseEvaluates(c, reg, allowed, f, row, rest, ts + more);
    assert OwnColumns(reg, resource, [f] + fs) by {
      assert filters == [f] + fs;
    }
    if fs != [] {
      ConjunctionEvaluates(c, reg, resource, allowed, fs, row, more);
    } else {
      assert ts + more == more;
    }
    JoinEvaluates(c, row, head.tokens, hs, tail.clauses, ts + more);
    AllHoldSplits(c, reg, resource, filters, row);
  }

  /** Evaluating a joined clause list: the first clause, then AND, then the others. */
  lemma JoinEvaluates(c: Collation, row: Row, head: seq<Token>, hs: seq<Cell>, clauses: seq<seq<Token>>, more: seq<Cell>)
    requires var r := EvalClause(c, row, head + WhereText(clauses), hs + more);
             r.Some? && r.value.tokens == WhereText(clauses) && r.value.args == more
    ensures Join([head] + clauses) == head + WhereText(clauses)
    ensures var r := EvalClause(c, row, head + WhereText(clauses), hs + more);
            EvalWhere(c, row, Join([head] + clauses), hs + more)
            == if clauses == [] then Some((r.value.truth, more))
               else match EvalWhere(c, row, Join(clauses), more)
                    case None => None
                    case Some((t, left)) => Some((And3(r.value.truth, t), left))
  {
    JoinIs(head, clauses);
    assert clauses != [] ==> WhereText(clauses)[0] == And && WhereText(clauses)[1..] == Join(clauses);
  }

  lemma JoinIs(head: seq<Token>, clauses: seq<seq<Token>>)
    ensures Join([head] + clauses) == head + WhereText(clauses)
  {
    assert ([head] + clauses)[1..] == clauses;
  }

  lemma AllHoldSplits(c: Collation, reg: Registry, resource: string, filters: seq<Filter>, row: Row)
    requires filters != []
    ensures AllHold(c, reg, resource, filters, row)
            <==> FilterHolds(c, reg, resource, filters[0], row) && AllHold(c, reg, resource, filters[1..], row)
  {
    assert filters == [filters[0]] + filters[1..];
  }

  const TENANT_CLAUSE: seq<Token> := [Col("tenant_id"), Op(Eq), Mark]

  /** The row belongs to the tenant. */
  ghost predicate OfTenant(c: Collation, tenant: string, row: Row) {
    var cell := CellOf(row, "tenant_id");
    cell != NullCell && c.eq(cell, TextCell(tenant))
  }

  /**
    The whole WHERE clause, tenant test included, parses, uses up exactly the
    tenant argument and the filter arguments, and accepts exactly the tenant's
    rows that satisfy every filter.
    */
  lemma WhereMeansFilters(c: Collation, reg: Registry, resource: string, allowed: set<string>,
                          tenant: string, filters: seq<Filter>, row: Row)
    requires Compile(reg, allowed, filters).Ok? && OwnColumns(reg, resource, filters)
    requires BindAll(Compile(reg, allowed, filters).value.args).Some?
    ensures var k := Compile(reg, allowed, filters).value;
            var ts := TENANT_CLAUSE + WhereText(k.clauses);
            var cells := BindAll([Str(tenant)] + k.args);
            && cells.Some?
            && EvalWhere(c, row, ts, cells.value).Some? && EvalWhere(c, row, ts, cells.value).value.1 == []
            && (Accepts(c, row, ts, cells.value)
                <==> OfTenant(c, tenant, row) && AllHold(c, reg, resource, filters, row))
  {
    var k := Compile(reg, allowed, filters).value;
    var tail := WhereText(k.clauses);
    TenantBinds(tenant, k.args);
    var own := BindAll(k.args).value;
    TenantEvaluates(c, tenant, row, tail, own);
    JoinEvaluates(c, row, TENANT_CLAUSE, [TextCell(tenant)], k.clauses, own);
    if filters != [] {
      ConjunctionEvaluates(c, reg, resource, allowed, filters, row, []);
      assert own + [] == own;
    }
  }

  lemma TenantBinds(tenant: string, args: seq<Value>)
    requires BindAll(args).Some?
    ensures BindAll([Str(tenant)] + args) == Some([TextCell(tenant)] + BindAll(args).value)
  {
    assert ([Str(tenant)] + args)[1..] == args;
  }

  lemma TenantEvaluates(c: Collation, tenant: string, row: Row, rest: seq<Token>, more: seq<Cell>)
    ensures var r := EvalClause(c, row, TENANT_CLAUSE + rest, [TextCell(tenant)] + more);
            && r.Some? && r.value.tokens == rest && r.value.args == more
            && (r.value.truth == True <==> OfTenant(c, tenant, row))
  {
    assert (TENANT_CLAUSE + rest)[3..] == rest && ([TextCell(tenant)] + more)[1..] == more;
  }

  // ----- when compilation fails -----

  /** The reasons a filter cannot be expressed, in the order they are tested. */
  ghost predicate Inexpressible(reg: Registry, allowed: set<string>, f: Filter, e: Error) {
    if f.field !in allowed || reg.NativeColumnForField(f.field).None? then e == UnsupportedField(f.field)
    else if ToLower(f.op) == "in" then (!f.value.List? || f.value.items == []) && e == InvalidInValue(f.field)
    else ComparisonOf(ToLower(f.op)).None? && ToLower(f.op) != "like" && e == UnsupportedOperator(f.op)
  }

  /** Compilation fails exactly when some filter is inexpressible, and reports the first one. */
  lemma {:induction false} CompileFailsIff(reg: Registry, allowed: set<string>, filters: seq<Filter>)
    ensures Compile(reg, allowed, filters).Err? <==> exists f, e :: f in filters && Inexpressible(reg, allowed, f, e)
    ensures Compile(reg, allowed, filters).Err? ==>
              exists i :: 0 <= i < |filters|
                          && Inexpressible(reg, allowed, filters[i], Compile(reg, allowed, filters).error)
                          && forall j, e | 0 <= j < i :: !Inexpressible(reg, allowed, filters[j], e)
  {
    if filters != [] {
      var f, fs := filters[0], filters[1..];
      assert filters == [f] + fs;
      CompileFailsIff(reg, allowed, fs);
      var c := CompileFilter(reg, allowed, f);
      assert c.Err? ==> Inexpressible(reg, allowed, f, c.error);
      assert c.Ok? ==> forall e :: !Inexpressible(reg, allowed, f, e);
      if c.Err? {
        assert Inexpressible(reg, allowed, filters[0], Compile(reg, allowed, filters).error);
      } else if Compile(reg, allowed, fs).Err? {
        var i :| 0 <= i < |fs| && Inexpressible(reg, allowed, fs[i], Compile(reg, allowed, fs).error)
                 && forall j, e | 0 <= j < i :: !Inexpressible(reg, allowed, fs[j], e);
        assert Inexpressible(reg, allowed, filters[i + 1], Compile(reg, allowed, filters).error);
        forall j, e | 0 <= j < i + 1
          ensures !Inexpressible(reg, allowed, filters[j], e)
        {
          if j > 0 {
            assert filters[j] == fs[j - 1];
          }
        }
      }
    }
  }

  // ----- searching -----

  /** Two's-complement truncation to 64 bits. */
  function Wrap64(n: int): int {
    (n + 0x8000_0000_0000_0000) % 0x1_0000_0000_0000_0000 - 0x8000_0000_0000_0000
  }

  function ClampPage(limit: int, maxCandidates: int): int {
    if limit <= 0 || limit > maxCandidates then Min(20, maxCandidates) else limit
  }

  /** How many candidates one call fetches: five pages' worth, up to the cap. */
  function WindowSize(limit: int, maxCandidates: int): int {
    var l := ClampPage(limit, maxCandidates);
    Min(maxCandidates, Max(Wrap64(l * 5), l))
  }

  /** With a positive cap the window is never empty and never above the cap. */
  lemma WindowSizeBounds(limit: int, maxCandidates: int)
    requires maxCandidates >= 1
    ensures 1 <= ClampPage(limit, maxCandidates) <= WindowSize(limit, maxCandidates) <= maxCandidates
  {
  }

  /** A limit between one and the cap fetches five times as many, up to the cap; any other fetches a hundred, up to the cap. */
  lemma WindowSizeIs(limit: int, maxCandidates: int)
    requires 1 <= maxCandidates && maxCandidates * 5 <= MAX_INT
    ensures 1 <= limit <= maxCandidates ==> WindowSize(limit, maxCandidates) == Min(maxCandidates, 5 * limit)
    ensures limit < 1 || limit > maxCandidates ==> WindowSize(limit, maxCandidates) == Min(maxCandidates, 100)
  {
  }

  /** Where five times the limit wraps below zero, the limit itself is the window. */
  lemma LargeLimitsWrap()
    ensures WindowSize(0x2000_0000_0000_0000, MAX_INT) == 0x2000_0000_0000_0000
  {
  }

  function DefaultSortField(reg: Registry, resource: string): string {
    match reg.GetDefaultSortField(resource)
    case Some(f) => f
    case None =>
      match reg.GetDefaultSortField("order")
      case Some(f) => f
      case None => ""
  }

  /** A resource's own default, or for an unknown one that of orders. */
  lemma DefaultSortIs(reg: Registry, resource: string)
    ensures resource in reg.resources ==> DefaultSortField(reg, resource) == reg.resources[resource].defaultSort
    ensures resource !in reg.resources && "order" in reg.resources ==>
              DefaultSortField(reg, resource) == reg.resources["order"].defaultSort
  {
  }

  /** Column the rows are ordered by: the asked field if sortable, else the default. */
  function SortColumn(reg: Registry, resource: string, field: string): string {
    var wanted := if field == "" then DefaultSortField(reg, resource) else field;
    var chosen := if wanted in reg.Sortable(resource) then wanted else DefaultSortField(reg, resource);
    match reg.GetNativeColumn(resource, chosen)
    case Some(c) => c
    case None =>
      match reg.GetNativeColumn(resource, DefaultSortField(reg, resource))
      case Some(c) => c
      case None => ""
  }

  function SortDir(dir: string): string {
    if EqualFold(dir, "asc") then "ASC" else "DESC"
  }

  /** The direction is ASC for the three letters in any case, and DESC for anything else. */
  ghost predicate Ascending(dir: string) {
    && |dir| == 3
    && dir[0] in {'a', 'A'} && dir[1] in {'s', 'S'} && dir[2] in {'c', 'C'}
  }

  lemma SortDirIs(dir: string)
    ensures SortDir(dir) == if Ascending(dir) then "ASC" else "DESC"
  {
    if |dir| == 3 {
      assert ToLower(dir) == [LowerChar(dir[0]), LowerChar(dir[1]), LowerChar(dir[2])];
      assert ToLower("asc") == "asc";
    }
  }

  /** Rows are ordered by the field asked for if the resource can sort by it, and by its default otherwise. */
  lemma SortColumnIs(reg: Registry, resource: string, field: string)
    requires reg.Consistent() && resource in reg.resources
    ensures field != "" && reg.FieldOf(resource, field).Some? && reg.FieldOf(resource, field).value.sortable ==>
              SortColumn(reg, resource, field) == reg.FieldOf(resource, field).value.nativeColumn
    ensures (field == "" || reg.FieldOf(resource, field).None? || !reg.FieldOf(resource, field).value.sortable)
            && reg.FieldOf(resource, reg.resources[resource].defaultSort).Some? ==>
              SortColumn(reg, resource, field) == reg.FieldOf(resource, reg.resources[resource].defaultSort).value.nativeColumn
  {
  }

  function OffsetOf(cursor: string): int {
    if cursor != "" then Atoi(cursor) else 0
  }

  function NextCursor(next: int, total: int): string {
    if next < total then Itoa(next) else ""
  }

  function Candidates(rows: seq<Row>): seq<Candidate> {
    seq(|rows|, i requires 0 <= i < |rows| => Candidate(rows[i].id, rows[i].doc))
  }

  /** What one adapter search returns, statement by statement. */
  function SearchOutcome(db: Database, reg: Registry, tenant: string, resource: string,
                         q: QueryDSL, maxCandidates: int): Result<SearchResult>
  {
    match reg.GetTableName(resource)
    case Err(e) => Err(e)
    case Ok(table) =>
      match Compile(reg, reg.Filterable(resource), q.filters)
      case Err(e) => Err(e)
      case Ok(k) =>
        var ts, args := TENANT_CLAUSE + WhereText(k.clauses), [Str(tenant)] + k.args;
        FetchOutcome(db, table, ts, args, SortColumn(reg, resource, q.sort.field), SortDir(q.sort.dir),
                     WindowSize(q.page.limit, maxCandidates), OffsetOf(q.page.cursor))
  }

  /** The two statements, the page they give, and the cursor behind it. */
  function FetchOutcome(db: Database, table: string, ts: seq<Token>, args: seq<Value>, column: string, dir: string,
                        limit: int, offset: int): Result<SearchResult>
  {
    match RunCount(db, table, ts, args)
    case Err(e) => Err(e)
    case Ok(total) =>
      match RunSelect(db, table, ts, column, dir, args + [Num(limit as real), Num(offset as real)])
      case Err(e) => Err(e)
      case Ok(rows) => Ok(SearchResult(Candidates(rows), total, NextCursor(offset + |rows|, total)))
  }

  /** The sort column, resolved step by step. */
  method ResolveSort(reg: Registry, resource: string, field: string) returns (column: string)
    ensures column == SortColumn(reg, resource, field)
  {
    var sortable := SortableFields(reg, resource);
    var sortField := field;
    if sortField == "" {
      sortField := DefaultSortField(reg, resource);
    }
    if sortField !in sortable {
      sortField := DefaultSortField(reg, resource);
    }
    var native := reg.GetNativeColumn(resource, sortField);
    if native.None? {
      native := reg.GetNativeColumn(resource, DefaultSortField(reg, resource));
    }
    column := if native.Some? then native.value else "";
  }

  /** The row loop: copies identifier and document out of each row. */
  method ReadRows(rows: seq<Row>) returns (candidates: seq<Candidate>)
    ensures candidates == Candidates(rows)
  {
    candidates := [];
    for i := 0 to |rows|
      invariant candidates == Candidates(rows[..i])
    {
      candidates := candidates + [Candidate(rows[i].id, rows[i].doc)];
    }
    assert rows[..|rows|] == rows;
  }

  /** The adapter's entry point. */
  method Search(db: Database, reg: Registry, tenant: string, resource: string, q: QueryDSL, maxCandidates: int)
    returns (r: Result<SearchResult>)
    ensures r == SearchOutcome(db, reg, tenant, resource, q, maxCandidates)
  {
    var table := reg.GetTableName(resource);
    if table.Err? {
      return Err(table.error);
    }
    var limit := WindowSize(q.page.limit, maxCandidates);
    var offset := OffsetOf(q.page.cursor);
    var allowed := FilterableFields(reg, resource);
    var compiled := BuildWhere(reg, allowed, q.filters);
    if compiled.Err? {
      return Err(compiled.error);
    }
    var ts, args := TENANT_CLAUSE + compiled.value.0, [Str(tenant)] + compiled.value.1;
    var column := ResolveSort(reg, resource, q.sort.field);
    r := Fetch(db, table.value, ts, args, column, SortDir(q.sort.dir), limit, offset);
  }

  method Fetch(db: Database, table: string, ts: seq<Token>, args: seq<Value>, column: string, dir: string,
               limit: int, offset: int)
    returns (r: Result<SearchResult>)
    ensures r == FetchOutcome(db, table, ts, args, column, dir, limit, offset)
  {
    var count := RunCount(db, table, ts, args);
    if count.Err? {
      return Err(count.error);
    }
    var fetched := RunSelect(db, table, ts, column, dir, args + [Num(limit as real), Num(offset as real)]);
    if fetched.Err? {
      return Err(fetched.error);
    }
    var candidates := ReadRows(fetched.value);
    r := Ok(SearchResult(candidates, count.value, NextCursor(offset + |candidates|, count.value)));
  }

  // ----- what a search means -----

  /** The rows a query is about: those of the tenant that satisfy every filter. */
  ghost function Wanted(c: Collation, reg: Registry, tenant: string, resource: string, filters: seq<Filter>): Row -> bool {
    row => OfTenant(c, tenant, row) && AllHold(c, reg, resource, filters, row)
  }

  /** The wanted rows, in the order the query asks for. */
  ghost function Matching(db: Database, reg: Registry, tenant: string, resource: string, q: QueryDSL): seq<Row>
    requires resource in reg.resources && reg.resources[resource].tableName in db.tables
  {
    var t := db.tables[reg.resources[resource].tableName];
    Select(t.listing(SortColumn(reg, resource, q.sort.field), SortDir(q.sort.dir)),
           Wanted(db.collation, reg, tenant, resource, q.filters))
  }

  /** The query compiles, its arguments bind, and its table and sort column exist. */
  ghost predicate Servable(db: Database, reg: Registry, resource: string, q: QueryDSL) {
    && resource in reg.resources
    && reg.resources[resource].tableName in db.tables
    && db.tables[reg.resources[resource].tableName].Fixed()
    && OwnColumns(reg, resource, q.filters)
    && SortColumn(reg, resource, q.sort.field) != ""
    && Compile(reg, reg.Filterable(resource), q.filters).Ok?
    && BindAll(Compile(reg, reg.Filterable(resource), q.filters).value.args).Some?
  }

  /** Running the compiled text keeps exactly the wanted rows. */
  lemma CompiledSelects(db: Database, reg: Registry, tenant: string, resource: string, q: QueryDSL, list: seq<Row>)
    requires Servable(db, reg, resource, q)
    ensures var k := Compile(reg, reg.Filterable(resource), q.filters).value;
            var ts, cells := TENANT_CLAUSE + WhereText(k.clauses), BindAll([Str(tenant)] + k.args);
            && cells.Some? && Prepares(db.collation, ts, cells.value)
            && Select(list, row => Accepts(db.collation, row, ts, cells.value))
               == Select(list, Wanted(db.collation, reg, tenant, resource, q.filters))
  {
    var c, allowed := db.collation, reg.Filterable(resource);
    var k := Compile(reg, allowed, q.filters).value;
    WhereMeansFilters(c, reg, resource, allowed, tenant, q.filters, BLANK_ROW);
    var ts, cells := TENANT_CLAUSE + WhereText(k.clauses), BindAll([Str(tenant)] + k.args).value;
    var accepts := row => Accepts(c, row, ts, cells);
    forall row | row in list
      ensures accepts(row) == Wanted(c, reg, tenant, resource, q.filters)(row)
    {
      WhereMeansFilters(c, reg, resource, allowed, tenant, q.filters, row);
    }
    SelectSame(list, accepts, Wanted(c, reg, tenant, resource, q.filters));
  }

  /** Both statements of a search, with any limit and offset appended. */
  lemma StatementsRun(db: Database, reg: Registry, tenant: string, resource: string, q: QueryDSL, limit: int, offset: int)
    requires Servable(db, reg, resource, q)
    ensures var m := Matching(db, reg, tenant, resource, q);
            var k := Compile(reg, reg.Filterable(resource), q.filters).value;
            var table := reg.resources[resource].tableName;
            var ts, args := TENANT_CLAUSE + WhereText(k.clauses), [Str(tenant)] + k.args;
            && RunCount(db, table, ts, args) == Ok(|m|)
            && RunSelect(db, table, ts, SortColumn(reg, resource, q.sort.field), SortDir(q.sort.dir),
                         args + [Num(limit as real), Num(offset as real)]) == Ok(Window(m, limit, offset))
  {
    var t := db.tables[reg.resources[resource].tableName];
    var list := t.listing(SortColumn(reg, resource, q.sort.field), SortDir(q.sort.dir));
    CompiledSelects(db, reg, tenant, resource, q, list);
    CompiledSelects(db, reg, tenant, resource, q, t.rows);
    SelectPermutation(list, t.rows, Wanted(db.collation, reg, tenant, resource, q.filters));
    var args := [Str(tenant)] + Compile(reg, reg.Filterable(resource), q.filters).value.args;
    var all := args + [Num(limit as real), Num(offset as real)];
    assert all[..|all| - 2] == args;
  }

  /**
    A servable search returns the offset window of the matching rows, counts
    all of them, and points its cursor at the first row not yet returned.
    */
  lemma SearchIsWindow(db: Database, reg: Registry, tenant: string, resource: string, q: QueryDSL, maxCandidates: int)
    requires Servable(db, reg, resource, q)
    ensures var m := Matching(db, reg, tenant, resource, q);
            var offset := OffsetOf(q.page.cursor);
            var rows := Window(m, WindowSize(q.page.limit, maxCandidates), offset);
            SearchOutcome(db, reg, tenant, resource, q, maxCandidates)
            == Ok(SearchResult(Candidates(rows), |m|, NextCursor(offset + |rows|, |m|)))
  {
    StatementsRun(db, reg, tenant, resource, q, WindowSize(q.page.limit, maxCandidates), OffsetOf(q.page.cursor));
  }

  /**
    Which rows a servable search delivers, and in which order: the tenant's rows
    that satisfy the filters, in the table's ascending listing of the sort column
    when that was asked for and in its descending one otherwise, from the cursor's
    offset on.
    */
  lemma SearchDelivers(db: Database, reg: Registry, tenant: string, resource: string, q: QueryDSL, maxCandidates: int)
    requires Servable(db, reg, resource, q)
    ensures var t := db.tables[reg.resources[resource].tableName];
            var listing := t.listing(SortColumn(reg, resource, q.sort.field), if Ascending(q.sort.dir) then "ASC" else "DESC");
            var wanted := Select(listing, Wanted(db.collation, reg, tenant, resource, q.filters));
            var r := SearchOutcome(db, reg, tenant, resource, q, maxCandidates);
            var rows := Window(wanted, WindowSize(q.page.limit, maxCandidates), OffsetOf(q.page.cursor));
            && r.Ok? && r.value.total == |wanted| && |r.value.candidates| == |rows|
            && forall i | 0 <= i < |rows| :: r.value.candidates[i].id == rows[i].id && r.value.candidates[i].doc == rows[i].doc
  {
    SortDirIs(q.sort.dir);
    SearchIsWindow(db, reg, tenant, resource, q, maxCandidates);
  }

  /** What is refused before the store is asked: an unknown resource, then whatever the compiler refuses. */
  lemma SearchRefusals(db: Database, reg: Registry, tenant: string, resource: string, q: QueryDSL, maxCandidates: int)
    ensures var r := SearchOutcome(db, reg, tenant, resource, q, maxCandidates);
            && (resource !in reg.resources ==> r == Err(UnknownResource(resource)))
            && (resource in reg.resources && Compile(reg, reg.Filterable(resource), q.filters).Err? ==>
                  r == Err(Compile(reg, reg.Filterable(resource), q.filters).error))
  {
  }

  /** The matching rows are, up to order, the same under every sort the query may ask for. */
  lemma MatchingIsComplete(db: Database, reg: Registry, tenant: string, resource: string, q: QueryDSL)
    requires Servable(db, reg, resource, q)
    ensures multiset(Matching(db, reg, tenant, resource, q)) ==
            multiset(Select(db.tables[reg.resources[resource].tableName].rows,
                            Wanted(db.collation, reg, tenant, resource, q.filters)))
  {
    var t := db.tables[reg.resources[resource].tableName];
    SelectPermutation(t.listing(SortColumn(reg, resource, q.sort.field), SortDir(q.sort.dir)), t.rows,
                      Wanted(db.collation, reg, tenant, resource, q.filters));
  }
}
