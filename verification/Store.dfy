/** The store-independent query language and the values it carries. */
module Store {

  datatype Option<+T> = None | Some(value: T)

  datatype Result<+T> = Ok(value: T) | Err(error: Error)

  /** A decoded JSON value, as found in filters and in stored documents. */
  datatype Value =
    | Null
    | Bool(b: bool)
    | Num(n: real)
    | Str(s: string)
    | List(items: seq<Value>)

  datatype Filter = Filter(field: string, op: string, value: Value)

  datatype Sort = Sort(field: string, dir: string)

  datatype Page = Page(limit: int, cursor: string)

  datatype QueryDSL = QueryDSL(
    contractVersion: string,
    intentCategory: string,
    filters: seq<Filter>,
    sort: Sort,
    page: Page)

  type Doc = map<string, Value>

  datatype Candidate = Candidate(id: string, doc: Doc)

  datatype SearchResult = SearchResult(candidates: seq<Candidate>, total: nat, nextCursor: string)

  /** Every way a search can fail, each with the text its caller sees. */
  datatype Error =
    | UnknownResource(name: string)
    | FieldNotAllowed(name: string)
    | UnsupportedVersion(name: string)
    | UnsupportedField(name: string)
    | UnsupportedOperator(name: string)
    | InvalidInValue(name: string)
    | DriverError
    | PolicyError
  {
    function Message(): string {
      match this
      case UnknownResource(n) => "unknown resource type: " + n
      case FieldNotAllowed(n) => "FIELD_NOT_ALLOWED: " + n
      case UnsupportedVersion(n) => "unsupported contract version: " + n
      case UnsupportedField(n) => "unsupported filter field: " + n
      case UnsupportedOperator(n) => "unsupported operator: " + n
      case InvalidInValue(n) => "invalid in operator value for field " + n
      case DriverError => "driver error"
      case PolicyError => "policy error"
    }
  }

  function Min(a: int, b: int): int { if a < b then a else b }

  function Max(a: int, b: int): int { if a > b then a else b }

  /** The elements that satisfy a test, in order. */
  function Select<T>(s: seq<T>, p: T -> bool): (r: seq<T>)
    ensures |r| <= |s|
  {
    if s == [] then []
    else Select(s[..|s| - 1], p) + if p(s[|s| - 1]) then [s[|s| - 1]] else []
  }

  lemma {:induction false} SelectConcat<T>(a: seq<T>, b: seq<T>, p: T -> bool)
    ensures Select(a + b, p) == Select(a, p) + Select(b, p)
  {
    if b == [] {
      assert a + b == a;
    } else {
      var n := |b| - 1;
      assert (a + b)[..|a + b| - 1] == a + b[..n];
      SelectConcat(a, b[..n], p);
    }
  }

  lemma {:induction false} SelectMembers<T>(s: seq<T>, p: T -> bool)
    ensures forall x :: x in Select(s, p) <==> x in s && p(x)
  {
    if s != [] {
      SelectMembers(s[..|s| - 1], p);
      assert s == s[..|s| - 1] + [s[|s| - 1]];
    }
  }

  /** A test that always holds selects everything, and one that never does nothing. */
  lemma {:induction false} SelectExtremes<T>(s: seq<T>, p: T -> bool)
    ensures (forall x | x in s :: p(x)) ==> Select(s, p) == s
    ensures (forall x | x in s :: !p(x)) ==> Select(s, p) == []
  {
    if s != [] {
      SelectExtremes(s[..|s| - 1], p);
      assert s == s[..|s| - 1] + [s[|s| - 1]];
    }
  }

  /** Selecting on the two sides of a test splits the sequence. */
  lemma {:induction false} SelectComplement<T>(s: seq<T>, p: T -> bool, q: T -> bool)
    requires forall x | x in s :: p(x) != q(x)
    ensures |Select(s, p)| + |Select(s, q)| == |s|
  {
    if s != [] {
      SelectComplement(s[..|s| - 1], p, q);
      assert s == s[..|s| - 1] + [s[|s| - 1]];
    }
  }

  lemma {:induction false} SelectSame<T>(s: seq<T>, p: T -> bool, q: T -> bool)
    requires forall x | x in s :: p(x) == q(x)
    ensures Select(s, p) == Select(s, q)
  {
    if s != [] {
      SelectSame(s[..|s| - 1], p, q);
      assert s == s[..|s| - 1] + [s[|s| - 1]];
    }
  }
}
