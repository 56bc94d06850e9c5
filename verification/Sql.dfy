/**
  The fragment of SQL the adapter emits, as token lists evaluated against rows.
  Every `?` takes the next bound argument from the left; NULL follows the
  three-valued rules; how two non-NULL cells compare is left to the database.
  */
module Sql {
  import opened Store

  datatype Cell = NullCell | Number(n: real) | TextCell(s: string)

  datatype Row = Row(id: string, cells: map<string, Cell>, doc: Doc)

  /** A column a row has no value for reads as NULL. */
  function CellOf(row: Row, col: string): Cell {
    if col in row.cells then row.cells[col] else NullCell
  }

  datatype Cmp = Eq | Ne | Gt | Ge | Lt | Le

  datatype Token =
    | Col(name: string)
    | Op(cmp: Cmp)
    | Mark
    | And
    | Like
    | In
    | LParen
    | RParen
    | Comma

  /** Comparison of non-NULL cells: affinity, collation and pattern matching. */
  datatype Collation = Collation(eq: (Cell, Cell) -> bool, less: (Cell, Cell) -> bool, like: (Cell, Cell) -> bool)

  datatype Truth = True | False | Unknown

  function Decide(b: bool): Truth { if b then True else False }

  function And3(a: Truth, b: Truth): Truth {
    if a == False || b == False then False
    else if a == True && b == True then True
    else Unknown
  }

  function Or3(a: Truth, b: Truth): Truth {
    if a == True || b == True then True
    else if a == False && b == False then False
    else Unknown
  }

  function Compare(c: Collation, op: Cmp, a: Cell, b: Cell): Truth {
    if a == NullCell || b == NullCell then Unknown
    else
      match op
      case Eq => Decide(c.eq(a, b))
      case Ne => Decide(!c.eq(a, b))
      case Gt => Decide(c.less(b, a))
      case Ge => Decide(!c.less(a, b))
      case Lt => Decide(c.less(a, b))
      case Le => Decide(!c.less(b, a))
  }

  function Matches(c: Collation, a: Cell, b: Cell): Truth {
    if a == NullCell || b == NullCell then Unknown else Decide(c.like(a, b))
  }

  // ----- evaluation of a WHERE expression -----

  datatype Step = Step(truth: Truth, tokens: seq<Token>, args: seq<Cell>)

  /** `?, ?, ... )` : membership of `cell` in the listed arguments. */
  function EvalList(c: Collation, cell: Cell, ts: seq<Token>, args: seq<Cell>): (r: Option<Step>)
    ensures r.Some? ==> |r.value.tokens| < |ts|
  {
    if |ts| < 2 || ts[0] != Mark || args == [] then None
    else
      var t := Compare(c, Eq, cell, args[0]);
      if ts[1] == RParen then Some(Step(t, ts[2..], args[1..]))
      else if ts[1] == Comma then
        match EvalList(c, cell, ts[2..], args[1..])
        case Some(s) => Some(Step(Or3(t, s.truth), s.tokens, s.args))
        case None => None
      else None
  }

  /** One comparison, reading its operands off the front of both streams. */
  function EvalClause(c: Collation, row: Row, ts: seq<Token>, args: seq<Cell>): (r: Option<Step>)
    ensures r.Some? ==> |r.value.tokens| < |ts|
  {
    if |ts| < 3 || !ts[0].Col? then None
    else
      var cell := CellOf(row, ts[0].name);
      if ts[1].Op? && ts[2] == Mark && args != [] then
        Some(Step(Compare(c, ts[1].cmp, cell, args[0]), ts[3..], args[1..]))
      else if ts[1] == Like && ts[2] == Mark && args != [] then
        Some(Step(Matches(c, cell, args[0]), ts[3..], args[1..]))
      else if ts[1] == In && ts[2] == LParen then
        EvalList(c, cell, ts[3..], args)
      else None
  }

  /** Clauses joined by AND, with whatever arguments are left over. */
  function EvalWhere(c: Collation, row: Row, ts: seq<Token>, args: seq<Cell>): Option<(Truth, seq<Cell>)>
    decreases |ts|
  {
    match EvalClause(c, row, ts, args)
    case None => None
    case Some(s) =>
      if s.tokens == [] then Some((s.truth, s.args))
      else if s.tokens[0] != And then None
      else
        match EvalWhere(c, row, s.tokens[1..], s.args)
        case None => None
        case Some((t, left)) => Some((And3(s.truth, t), left))
  }

  // ----- binding and running statements -----

  /** What the driver makes of an argument; it refuses lists. */
  function Bind(v: Value): Option<Cell> {
    match v
    case Null => Some(NullCell)
    case Bool(b) => Some(Number(if b then 1.0 else 0.0))
    case Num(n) => Some(Number(n))
    case Str(s) => Some(TextCell(s))
    case List(_) => None
  }

  function BindAll(vs: seq<Value>): (r: Option<seq<Cell>>)
    ensures r.Some? ==> |r.value| == |vs|
  {
    if vs == [] then Some([])
    else
      match (Bind(vs[0]), BindAll(vs[1..]))
      case (Some(x), Some(xs)) => Some([x] + xs)
      case (_, _) => None
  }

  /** A table answers every (column, direction) with its rows in one fixed order. */
  datatype Table = Table(rows: seq<Row>, listing: (string, string) -> seq<Row>)
  {
    ghost predicate Fixed() {
      forall col, dir :: multiset(listing(col, dir)) == multiset(rows)
    }
  }

  datatype Database = Database(tables: map<string, Table>, collation: Collation)

  const BLANK_ROW := Row("", map[], map[])

  /** A statement prepares when its text parses and uses up exactly its arguments. */
  predicate Prepares(c: Collation, ts: seq<Token>, args: seq<Cell>) {
    match EvalWhere(c, BLANK_ROW, ts, args)
    case Some((_, left)) => left == []
    case None => false
  }

  predicate Accepts(c: Collation, row: Row, ts: seq<Token>, args: seq<Cell>) {
    EvalWhere(c, row, ts, args) == Some((True, []))
  }

  /** `SELECT COUNT(1) FROM table WHERE ts` */
  function RunCount(db: Database, table: string, ts: seq<Token>, args: seq<Value>): Result<nat> {
    match BindAll(args)
    case None => Err(DriverError)
    case Some(cells) =>
      if table !in db.tables || !Prepares(db.collation, ts, cells) then Err(DriverError)
      else Ok(|Select(db.tables[table].rows, row => Accepts(db.collation, row, ts, cells))|)
  }

  /** LIMIT and OFFSET: a negative limit means no limit, a negative offset zero. */
  function Window<T>(rows: seq<T>, limit: int, offset: int): seq<T> {
    var from := Min(|rows|, Max(0, offset));
    rows[from..if limit < 0 then |rows| else Min(|rows|, from + limit)]
  }

  /** `SELECT id, doc_json FROM table WHERE ts ORDER BY col dir LIMIT ? OFFSET ?` */
  function RunSelect(db: Database, table: string, ts: seq<Token>, col: string, dir: string, args: seq<Value>): Result<seq<Row>> {
    if |args| < 2 || !args[|args| - 2].Num? || !args[|args| - 1].Num? then Err(DriverError)
    else
      match BindAll(args[..|args| - 2])
      case None => Err(DriverError)
      case Some(cells) =>
        if table !in db.tables || col == "" || !Prepares(db.collation, ts, cells) then Err(DriverError)
        else
          var hits := Select(db.tables[table].listing(col, dir), row => Accepts(db.collation, row, ts, cells));
          Ok(Window(hits, args[|args| - 2].n.Floor, args[|args| - 1].n.Floor))
  }

  // ----- what one filter means -----

  /** Both cells are present and stand in the relation the operator names. */
  ghost predicate OpHolds(c: Collation, op: string, cell: Cell, v: Value) {
    cell != NullCell &&
    if op == "in" then
      v.List? && exists i :: 0 <= i < |v.items| && Equals(c, cell, v.items[i])
    else
      match Bind(v)
      case None => false
      case Some(x) =>
        x != NullCell &&
        if op == "eq" then c.eq(cell, x)
        else if op == "neq" then !c.eq(cell, x)
        else if op == "gt" then c.less(x, cell)
        else if op == "gte" then !c.less(cell, x)
        else if op == "lt" then c.less(cell, x)
        else if op == "lte" then !c.less(x, cell)
        else op == "like" && c.like(cell, x)
  }

  ghost predicate Equals(c: Collation, cell: Cell, v: Value) {
    cell != NullCell &&
    match Bind(v)
    case Some(x) => x != NullCell && c.eq(cell, x)
    case None => false
  }

  /** Where numbers compare by value, a flag asks for a stored 1 or 0; nothing satisfies a null. */
  lemma FlagsAndNulls(c: Collation, op: string, cell: Cell, x: real, b: bool)
    requires forall y: real, z: real :: c.eq(Number(y), Number(z)) <==> y == z
    ensures OpHolds(c, "eq", Number(x), Bool(b)) <==> x == (if b then 1.0 else 0.0)
    ensures OpHolds(c, "neq", Number(x), Bool(b)) <==> x != (if b then 1.0 else 0.0)
    ensures !OpHolds(c, op, cell, Null)
  {
  }

  // ----- facts about selection and binding -----

  lemma {:induction false} BindAllConcat(a: seq<Value>, b: seq<Value>)
    ensures BindAll(a + b) ==
            (match (BindAll(a), BindAll(b))
             case (Some(x), Some(y)) => Some(x + y)
             case (_, _) => None)
  {
    if a == [] {
      assert a + b == b;
      if BindAll(b).Some? {
        assert [] + BindAll(b).value == BindAll(b).value;
      }
    } else {
      assert (a + b)[1..] == a[1..] + b;
      BindAllConcat(a[1..], b);
      if Bind(a[0]).Some? && BindAll(a[1..]).Some? && BindAll(b).Some? {
        var x, xs, y := Bind(a[0]).value, BindAll(a[1..]).value, BindAll(b).value;
        assert [x] + (xs + y) == ([x] + xs) + y;
      }
    }
  }

  lemma {:induction false} SelectCounts<T>(s: seq<T>, p: T -> bool, x: T)
    ensures multiset(Select(s, p))[x] == if p(x) then multiset(s)[x] else 0
  {
    if s != [] {
      var n := |s| - 1;
      assert s == s[..n] + [s[n]];
      SelectCounts(s[..n], p, x);
    }
  }

  /** Selection commutes with reordering. */
  lemma SelectPermutation<T(!new)>(a: seq<T>, b: seq<T>, p: T -> bool)
    requires multiset(a) == multiset(b)
    ensures multiset(Select(a, p)) == multiset(Select(b, p))
    ensures |Select(a, p)| == |Select(b, p)|
  {
    forall x
      ensures multiset(Select(a, p))[x] == multiset(Select(b, p))[x]
    {
      SelectCounts(a, p, x);
      SelectCounts(b, p, x);
    }
    assert multiset(Select(a, p)) == multiset(Select(b, p));
    assert |multiset(Select(a, p))| == |multiset(Select(b, p))|;
  }
}
