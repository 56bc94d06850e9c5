/**
  The hashed bag-of-words embedding: a wrapping 64-bit hash picks two cells per
  token, the vector is scaled to length one, and texts are compared by their
  dot product. Reals are exact; the square root is a parameter.
  */
module Embedding {
  import opened Sums
  import opened Store

  type Token = seq<bv8>

  const TWO63 := 0x8000_0000_0000_0000
  const MAX_INT64 := 0x7FFF_FFFF_FFFF_FFFF

  // ----- hashing to a cell -----

  /** One byte folded into the hash: exclusive or, then a multiplication that wraps. */
  function HashStep(h: bv64, b: bv8): bv64 {
    (h ^ (b as bv64)) * 16777619
  }

  /** The 64 hash bits, byte by byte. */
  function HashBits(s: Token): bv64 {
    if s == [] then 2166136261 else HashStep(HashBits(s[..|s| - 1]), s[|s| - 1])
  }

  /** Known hashes: of the empty text, and of two short words. */
  lemma HashVectors()
    ensures HashBits([]) == 2166136261
    ensures HashBits([97]) == 36342608335481132
    ensures HashBits([97, 98]) == 3757506531665708490
  {
    assert [97 as bv8][..0] == [];
    assert [97 as bv8, 98][..1] == [97 as bv8];
    assert HashBits([97]) == HashStep(2166136261, 97);
    assert HashBits([97, 98]) == HashStep(36342608335481132, 98);
  }

  /** Two's-complement reading of 64 bits. */
  function Signed(x: bv64): (r: int)
    ensures -TWO63 <= r < TWO63
  {
    if x as int < TWO63 then x as int else x as int - 2 * TWO63
  }

  /** Negation on 64 bits: the least integer is its own negative. */
  function Negate64(h: int): int {
    if h == -TWO63 then -TWO63 else -h
  }

  function Magnitude(h: int): int {
    if h < 0 then Negate64(h) else h
  }

  function HashOf(s: Token): int {
    Magnitude(Signed(HashBits(s)))
  }

  /** A hash whose 64 bits read as a negative number is negated. */
  lemma NegativeHashVector()
    ensures HashBits([104, 97, 97]) == 9895922330993883609
    ensures HashOf([104, 97, 97]) == 8550821742715668007
    ensures HashOf([97, 98]) == 3757506531665708490
  {
    HashVectors();
    var s: Token := [104, 97, 97];
    assert s[..2] == [104, 97] && s[..2][..1] == [104] && [104 as bv8][..0] == [];
    assert HashBits([104]) == HashStep(2166136261, 104);
    assert HashBits([104, 97]) == HashStep(HashBits([104]), 97);
    assert HashBits(s) == HashStep(HashBits([104, 97]), 97);
  }

  method HashLoop(s: Token) returns (bits: bv64)
    ensures bits == HashBits(s)
  {
    bits := 2166136261;
    for i := 0 to |s|
      invariant bits == HashBits(s[..i])
    {
      assert s[..i + 1][..i] == s[..i];
      bits := HashStep(bits, s[i]);
    }
    assert s[..|s|] == s;
  }

  method HashString(s: Token) returns (h: int)
    ensures h == HashOf(s)
  {
    var bits := HashLoop(s);
    h := Signed(bits);
    if h < 0 {
      return Negate64(h);
    }
  }

  /** Remainder that truncates toward zero, so it takes the sign of the dividend. */
  function Rem(a: int, b: int): int
    requires b > 0
  {
    if a >= 0 then a % b else -((-a) % b)
  }

  /** What is left after taking away a multiple, smaller than the divisor and on the dividend's side of zero. */
  lemma RemIs(a: int, b: int)
    requires b > 0
    ensures exists q: int :: a == b * q + Rem(a, b)
    ensures -b < Rem(a, b) < b && (a >= 0 ==> Rem(a, b) >= 0) && (a <= 0 ==> Rem(a, b) <= 0)
  {
    if a >= 0 {
      assert a == b * (a / b) + Rem(a, b);
    } else {
      var q := (-a) / b;
      assert -a == b * q + (-a) % b;
      assert b * (-q) == -(b * q);
      assert a == b * (-q) + Rem(a, b);
    }
  }

  /**
    The remainder of a hash is a cell for every 64-bit hash, the least integer
    included, exactly when the number of cells divides 2^63.
    */
  lemma CellInRangeIff(dims: int)
    requires 1 <= dims <= MAX_INT64
    ensures (forall h | -TWO63 <= h < TWO63 :: 0 <= Rem(Magnitude(h), dims) < dims) <==> TWO63 % dims == 0
  {
    if TWO63 % dims != 0 {
      assert Rem(Magnitude(-TWO63), dims) == -(TWO63 % dims);
    }
  }

  function Pow2(k: nat): int {
    if k == 0 then 1 else 2 * Pow2(k - 1)
  }

  lemma {:induction false} Pow2Splits(a: nat, b: nat)
    ensures Pow2(a + b) == Pow2(a) * Pow2(b)
    ensures Pow2(a) > 0
    decreases a
  {
    if a > 0 {
      Pow2Splits(a - 1, b);
      assert Pow2(a + b) == 2 * Pow2(a - 1 + b);
    } else {
      assert Pow2(b) == 1 * Pow2(b);
    }
  }

  lemma Pow2Of63()
    ensures Pow2(63) == TWO63
  {
    assert Pow2(8) == 256;
    Pow2Splits(8, 8);
    Pow2Splits(16, 16);
    Pow2Splits(32, 31);
    Pow2Splits(31, 1);
  }

  /** Powers of two up to 2^62 divide 2^63. */
  lemma PowersAreSafe(k: nat)
    requires k <= 62
    ensures 1 <= Pow2(k) && TWO63 % Pow2(k) == 0
  {
    Pow2Of63();
    Pow2Splits(k, 63 - k);
    MultipleHasNoRest(Pow2(k), Pow2(63 - k));
  }

  lemma MulSign(a: int, t: int)
    requires a > 0
    ensures t >= 1 ==> a * t >= a
    ensures t <= -1 ==> a * t <= -a
  {
  }

  lemma MultipleHasNoRest(a: int, b: int)
    requires a > 0
    ensures (a * b) % a == 0
  {
    var q := a * b / a;
    assert a * b == a * q + (a * b) % a;
    assert a * (b - q) == (a * b) % a;
    MulSign(a, b - q);
  }

  /** Cell counts for which every hash lands in range. */
  predicate SafeDims(dims: nat) {
    dims > 0 && dims <= MAX_INT64 && TWO63 % dims == 0
  }

  // ----- reversing a token -----

  function Reversed(s: Token): (r: Token)
    ensures |r| == |s|
  {
    seq(|s|, i requires 0 <= i < |s| => s[|s| - 1 - i])
  }

  /** Reversing turns a concatenation around. */
  lemma ReversedConcat(a: Token, b: Token)
    ensures Reversed(a + b) == Reversed(b) + Reversed(a)
    ensures |a| <= 1 ==> Reversed(a) == a
  {
  }

  /** Swaps bytes from both ends inward. */
  method Reverse(s: Token) returns (r: Token)
    ensures r == Reversed(s)
  {
    var buf := new bv8[|s|](i requires 0 <= i < |s| => s[i]);
    var i, j := 0, buf.Length - 1;
    while i < j
      invariant 0 <= i && i + j == |s| - 1 && i <= j + 1 + (if |s| == 0 then 1 else 0)
      invariant forall k | 0 <= k < |s| && (k < i || k > j) :: buf[k] == s[|s| - 1 - k]
      invariant forall k | i <= k <= j :: buf[k] == s[k]
    {
      buf[i], buf[j] := buf[j], buf[i];
      i, j := i + 1, j - 1;
    }
    r := buf[..];
  }

  // ----- the raw vector -----

  function CellOf(t: Token, dims: nat): (i: nat)
    requires SafeDims(dims)
    ensures i < dims
  {
    CellInRangeIff(dims);
    Rem(HashOf(t), dims)
  }

  function Forward(dims: nat, i: nat): Token -> int
    requires SafeDims(dims)
  {
    t => if CellOf(t, dims) == i then 1 else 0
  }

  function Backward(dims: nat, i: nat): Token -> int
    requires SafeDims(dims)
  {
    t => if CellOf(Reversed(t), dims) == i then 1 else 0
  }

  /** Cell `i`: one per token hashed there, a half per reversed token hashed there. */
  function RawAt(tokens: seq<Token>, dims: nat, i: nat): real
    requires SafeDims(dims)
  {
    Sum(tokens, Forward(dims, i)) as real + 0.5 * (Sum(tokens, Backward(dims, i)) as real)
  }

  function Raw(tokens: seq<Token>, dims: nat): (v: seq<real>)
    requires SafeDims(dims)
    ensures |v| == dims
  {
    seq(dims, i requires 0 <= i < dims => RawAt(tokens, dims, i))
  }

  /** A cell holds one for every token hashed there and a half for every token whose reversal is. */
  lemma RawAtCounts(tokens: seq<Token>, dims: nat, i: nat)
    requires SafeDims(dims)
    ensures RawAt(tokens, dims, i)
            == |Select(tokens, (t: Token) => Rem(HashOf(t), dims) == i)| as real
               + |Select(tokens, (t: Token) => Rem(HashOf(Reversed(t)), dims) == i)| as real / 2.0
  {
    CountIs(tokens, Forward(dims, i), (t: Token) => Rem(HashOf(t), dims) == i);
    CountIs(tokens, Backward(dims, i), (t: Token) => Rem(HashOf(Reversed(t)), dims) == i);
  }

  lemma {:induction false} CountIs(tokens: seq<Token>, f: Token -> int, p: Token -> bool)
    requires forall t | t in tokens :: f(t) == if p(t) then 1 else 0
    ensures Sum(tokens, f) == |Select(tokens, p)|
  {
    if tokens != [] {
      var n := |tokens| - 1;
      assert tokens == tokens[..n] + [tokens[n]];
      CountIs(tokens[..n], f, p);
    }
  }

  /** What one token adds to cell `i`. */
  function TokenAt(t: Token, dims: nat, i: nat): real
    requires SafeDims(dims)
  {
    Forward(dims, i)(t) as real + 0.5 * (Backward(dims, i)(t) as real)
  }

  lemma OneTokenMore(tokens: seq<Token>, k: nat, dims: nat, i: nat)
    requires SafeDims(dims) && k < |tokens|
    ensures RawAt(tokens[..k + 1], dims, i) == RawAt(tokens[..k], dims, i) + TokenAt(tokens[k], dims, i)
  {
    assert tokens[..k + 1][..k] == tokens[..k];
    assert Sum(tokens[..k + 1], Forward(dims, i)) == Sum(tokens[..k], Forward(dims, i)) + Forward(dims, i)(tokens[k]);
    assert Sum(tokens[..k + 1], Backward(dims, i)) == Sum(tokens[..k], Backward(dims, i)) + Backward(dims, i)(tokens[k]);
  }

  /** One turn of the loop: hashes the token both ways and bumps two cells. */
  method AddToken(t: Token, out: array<real>)
    requires SafeDims(out.Length)
    modifies out
    ensures forall i | 0 <= i < out.Length :: out[i] == old(out[i]) + TokenAt(t, out.Length, i)
  {
    var dims := out.Length;
    CellInRangeIff(dims);
    var h1 := HashString(t);
    var r := Reverse(t);
    var h2 := HashString(r);
    var i1, i2 := Rem(h1, dims), Rem(h2, dims);
    out[i1] := out[i1] + 1.0;
    out[i2] := out[i2] + 0.5;
  }

  /** The accumulation loop over the tokens. */
  method Accumulate(tokens: seq<Token>, out: array<real>)
    requires SafeDims(out.Length)
    requires forall i | 0 <= i < out.Length :: out[i] == 0.0
    modifies out
    ensures out[..] == Raw(tokens, out.Length)
  {
    var dims := out.Length;
    for k := 0 to |tokens|
      invariant forall i | 0 <= i < dims :: out[i] == RawAt(tokens[..k], dims, i)
    {
      AddToken(tokens[k], out);
      forall i | 0 <= i < dims
        ensures out[i] == RawAt(tokens[..k + 1], dims, i)
      {
        OneTokenMore(tokens, k, dims, i);
      }
    }
    assert tokens[..|tokens|] == tokens;
  }

  // ----- length and scaling -----

  /** A product under a name of its own, so that proofs can speak of it as one thing. */
  function Times(x: real, y: real): real {
    x * y
  }

  function Dot(a: seq<real>, b: seq<real>): real
    requires |a| == |b|
  {
    if a == [] then 0.0
    else Dot(a[..|a| - 1], b[..|b| - 1]) + Times(a[|a| - 1], b[|b| - 1])
  }

  function Scale(v: seq<real>, length: real): (r: seq<real>)
    requires length != 0.0
    ensures |r| == |v|
  {
    seq(|v|, i requires 0 <= i < |v| => v[i] / length)
  }

  /** A function that takes square roots of positive reals. */
  ghost predicate IsRoot(sqrt: real -> real) {
    forall x: real :: x > 0.0 ==> sqrt(x) > 0.0 && Times(sqrt(x), sqrt(x)) == x
  }

  function Embed(tokens: seq<Token>, dims: nat, sqrt: real -> real): (v: seq<real>)
    requires SafeDims(dims)
    ensures |v| == dims
  {
    var raw := Raw(tokens, dims);
    var norm := Dot(raw, raw);
    if norm == 0.0 || sqrt(norm) == 0.0 then raw else Scale(raw, sqrt(norm))
  }

  method SquareLength(v: array<real>) returns (norm: real)
    ensures norm == Dot(v[..], v[..])
  {
    norm := 0.0;
    for i := 0 to v.Length
      invariant norm == Dot(v[..i], v[..i])
    {
      assert v[..i + 1][..i] == v[..i];
      norm := norm + Times(v[i], v[i]);
    }
    assert v[..v.Length] == v[..];
  }

  /** The embedding of a token list, computed in place in one array. */
  method EmbedTokens(tokens: seq<Token>, dims: nat, sqrt: real -> real) returns (out: array<real>)
    requires SafeDims(dims) && IsRoot(sqrt)
    ensures fresh(out) && out[..] == Embed(tokens, dims, sqrt)
  {
    out := new real[dims](i => 0.0);
    Accumulate(tokens, out);
    ghost var raw := out[..];
    var norm := SquareLength(out);
    if norm == 0.0 {
      return;
    }
    DotSelfPositive(raw);
    DivideAll(out, sqrt(norm));
  }

  method DivideAll(out: array<real>, norm: real)
    requires norm != 0.0
    modifies out
    ensures forall k | 0 <= k < out.Length :: out[k] == old(out[k]) / norm
  {
    for i := 0 to out.Length
      invariant forall k | 0 <= k < i :: out[k] == old(out[k]) / norm
      invariant forall k | i <= k < out.Length :: out[k] == old(out[k])
    {
      out[i] := out[i] / norm;
    }
  }

  method Cosine(a: array<real>, b: array<real>) returns (sum: real)
    ensures sum == if a.Length == b.Length then Dot(a[..], b[..]) else 0.0
  {
    if a.Length == 0 || a.Length != b.Length {
      return 0.0;
    }
    sum := 0.0;
    for i := 0 to a.Length
      invariant sum == Dot(a[..i], b[..i])
    {
      assert a[..i + 1][..i] == a[..i] && b[..i + 1][..i] == b[..i];
      sum := sum + Times(a[i], b[i]);
    }
    assert a[..a.Length] == a[..] && b[..b.Length] == b[..];
  }

  // ----- laws of the dot product -----

  ghost predicate NonNegative(v: seq<real>) {
    forall i | 0 <= i < |v| :: v[i] >= 0.0
  }

  ghost predicate IsZero(v: seq<real>) {
    forall i | 0 <= i < |v| :: v[i] == 0.0
  }

  lemma SameSign(x: real, y: real)
    requires (x > 0.0 && y > 0.0) || (x < 0.0 && y < 0.0)
    ensures Times(x, y) > 0.0
  {
    assert x * y > 0.0;
  }

  lemma Square(x: real)
    ensures if x == 0.0 then Times(x, x) == 0.0 else Times(x, x) > 0.0
  {
    if x != 0.0 {
      SameSign(x, x);
    }
  }

  lemma SquareOfDifference(x: real, y: real)
    ensures Times(x - y, x - y) == Times(x, x) + Times(y, y) - 2.0 * Times(x, y)
  {
  }

  lemma ProductSign(x: real, y: real)
    ensures x >= 0.0 && y >= 0.0 ==> Times(x, y) >= 0.0
    ensures x == 0.0 || y == 0.0 ==> Times(x, y) == 0.0
  {
  }

  /** A vector's dot product with itself is zero for the zero vector and positive for any other. */
  lemma {:induction false} DotSelfPositive(v: seq<real>)
    ensures if IsZero(v) then Dot(v, v) == 0.0 else Dot(v, v) > 0.0
  {
    if v != [] {
      var n := |v| - 1;
      DotSelfPositive(v[..n]);
      Square(v[n]);
      assert IsZero(v) <==> IsZero(v[..n]) && v[n] == 0.0;
    }
  }

  lemma {:induction false} DotZero(a: seq<real>, b: seq<real>)
    requires |a| == |b| && IsZero(a)
    ensures Dot(a, b) == 0.0 && Dot(b, a) == 0.0
  {
    if a != [] {
      DotZero(a[..|a| - 1], b[..|b| - 1]);
      ProductSign(a[|a| - 1], b[|b| - 1]);
      ProductSign(b[|b| - 1], a[|a| - 1]);
    }
  }

  function Minus(a: seq<real>, b: seq<real>): (r: seq<real>)
    requires |a| == |b|
    ensures |r| == |a|
  {
    seq(|a|, i requires 0 <= i < |a| => a[i] - b[i])
  }

  /** |a - b|^2 = |a|^2 + |b|^2 - 2 a.b */
  lemma {:induction false} DistanceExpands(a: seq<real>, b: seq<real>)
    requires |a| == |b|
    ensures Dot(Minus(a, b), Minus(a, b)) == Dot(a, a) + Dot(b, b) - 2.0 * Dot(a, b)
  {
    if a != [] {
      var n := |a| - 1;
      DistanceExpands(a[..n], b[..n]);
      var d := Minus(a, b);
      assert d[..n] == Minus(a[..n], b[..n]);
      SquareOfDifference(a[n], b[n]);
    }
  }

  lemma {:induction false} DotNonNegative(a: seq<real>, b: seq<real>)
    requires |a| == |b| && NonNegative(a) && NonNegative(b)
    ensures Dot(a, b) >= 0.0
  {
    if a != [] {
      DotNonNegative(a[..|a| - 1], b[..|b| - 1]);
      ProductSign(a[|a| - 1], b[|b| - 1]);
    }
  }

  /** Zero, or of length one, and without negative cells. */
  ghost predicate UnitOrZero(v: seq<real>) {
    NonNegative(v) && (Dot(v, v) == 1.0 || IsZero(v))
  }

  /**
    Cauchy-Schwarz for embeddings: the cosine lies between 0 and 1, and is 1
    exactly when the two vectors are the same unit vector.
    */
  lemma CosineBounds(a: seq<real>, b: seq<real>)
    requires |a| == |b| && UnitOrZero(a) && UnitOrZero(b)
    ensures 0.0 <= Dot(a, b) <= 1.0
    ensures Dot(a, b) == 1.0 <==> a == b && !IsZero(a)
  {
    DotNonNegative(a, b);
    DotSelfPositive(a);
    DotSelfPositive(b);
    if IsZero(a) {
      DotZero(a, b);
    } else if IsZero(b) {
      DotZero(b, a);
    } else {
      DistanceExpands(a, b);
      DotSelfPositive(Minus(a, b));
      assert IsZero(Minus(a, b)) <==> a == b by {
        if IsZero(Minus(a, b)) {
          assert forall i | 0 <= i < |a| :: Minus(a, b)[i] == a[i] - b[i];
        }
      }
    }
  }

  lemma CancelFactor(d: real, n: real)
    requires n != 0.0 && Times(d, n) == n
    ensures d == 1.0
  {
    assert (d - 1.0) * n == 0.0;
  }

  lemma SquareOfQuotient(x: real, s: real)
    requires s > 0.0
    ensures Times(Times(x / s, x / s), Times(s, s)) == Times(x, x)
  {
    var y := x / s;
    assert y * s == x;
    assert (y * y) * (s * s) == (y * s) * (y * s);
  }

  lemma Distributes(a: real, b: real, n: real)
    ensures Times(a + b, n) == Times(a, n) + Times(b, n)
  {
  }

  /** Dividing a vector by `s` divides its squared length by `s*s`. */
  lemma {:induction false} ScaledLength(v: seq<real>, s: real)
    requires s > 0.0
    ensures Times(Dot(Scale(v, s), Scale(v, s)), Times(s, s)) == Dot(v, v)
  {
    var u := Scale(v, s);
    if v == [] {
      ProductSign(0.0, Times(s, s));
    } else {
      var k := |v| - 1;
      ScaledLength(v[..k], s);
      assert u[..k] == Scale(v[..k], s);
      SquareOfQuotient(v[k], s);
      Distributes(Dot(u[..k], u[..k]), Times(u[k], u[k]), Times(s, s));
    }
  }

  // ----- laws of the embedding -----

  lemma RawNonNegative(tokens: seq<Token>, dims: nat)
    requires SafeDims(dims)
    ensures NonNegative(Raw(tokens, dims))
    ensures tokens != [] ==> !IsZero(Raw(tokens, dims))
    ensures tokens == [] ==> IsZero(Raw(tokens, dims))
  {
    forall i | 0 <= i < dims
      ensures Raw(tokens, dims)[i] >= 0.0
    {
      SumNonNegative(tokens, Forward(dims, i));
      SumNonNegative(tokens, Backward(dims, i));
    }
    if tokens != [] {
      var i := CellOf(tokens[0], dims);
      SumNonNegative(tokens, Forward(dims, i));
      SumNonNegative(tokens, Backward(dims, i));
      assert Forward(dims, i)(tokens[0]) == 1;
      assert Raw(tokens, dims)[i] >= 1.0;
    }
  }

  lemma ScaledNonNegative(raw: seq<real>, s: real)
    requires NonNegative(raw) && s > 0.0
    ensures NonNegative(Scale(raw, s))
  {
    forall i | 0 <= i < |raw|
      ensures Scale(raw, s)[i] >= 0.0
    {
      QuotientNonNegative(raw[i], s);
    }
  }

  /** Scaling a non-zero vector by the root of its squared length makes it a unit vector. */
  lemma ScaledToUnit(raw: seq<real>, s: real)
    requires NonNegative(raw) && Dot(raw, raw) > 0.0 && s > 0.0 && Times(s, s) == Dot(raw, raw)
    ensures UnitOrZero(Scale(raw, s)) && !IsZero(Scale(raw, s))
  {
    ScaledNonNegative(raw, s);
    ScaledLength(raw, s);
    CancelFactor(Dot(Scale(raw, s), Scale(raw, s)), Dot(raw, raw));
    DotSelfPositive(Scale(raw, s));
  }

  /** An embedding is the zero vector for the empty text, and otherwise non-negative of length one. */
  lemma EmbedIsUnit(tokens: seq<Token>, dims: nat, sqrt: real -> real)
    requires SafeDims(dims) && IsRoot(sqrt)
    ensures UnitOrZero(Embed(tokens, dims, sqrt))
    ensures IsZero(Embed(tokens, dims, sqrt)) <==> tokens == []
  {
    var raw := Raw(tokens, dims);
    RawNonNegative(tokens, dims);
    DotSelfPositive(raw);
    if tokens != [] {
      ScaledToUnit(raw, sqrt(Dot(raw, raw)));
    }
  }

  lemma QuotientNonNegative(x: real, s: real)
    requires x >= 0.0 && s > 0.0
    ensures x / s >= 0.0
  {
  }

  /** Word order does not matter: the embedding depends on the multiset of tokens only. */
  lemma EmbedIgnoresOrder(a: seq<Token>, b: seq<Token>, dims: nat, sqrt: real -> real)
    requires SafeDims(dims) && multiset(a) == multiset(b)
    ensures Embed(a, dims, sqrt) == Embed(b, dims, sqrt)
  {
    forall i | 0 <= i < dims
      ensures Raw(a, dims)[i] == Raw(b, dims)[i]
    {
      SumPermutation(a, b, Forward(dims, i));
      SumPermutation(a, b, Backward(dims, i));
    }
    assert Raw(a, dims) == Raw(b, dims);
  }

  /** Any two texts compare within [0, 1]; non-empty reorderings of one another compare to exactly 1. */
  lemma TextSimilarity(a: seq<Token>, b: seq<Token>, dims: nat, sqrt: real -> real)
    requires SafeDims(dims) && IsRoot(sqrt)
    ensures 0.0 <= Dot(Embed(a, dims, sqrt), Embed(b, dims, sqrt)) <= 1.0
    ensures a != [] && multiset(a) == multiset(b) ==> Dot(Embed(a, dims, sqrt), Embed(b, dims, sqrt)) == 1.0
  {
    EmbedIsUnit(a, dims, sqrt);
    EmbedIsUnit(b, dims, sqrt);
    CosineBounds(Embed(a, dims, sqrt), Embed(b, dims, sqrt));
    if a != [] && multiset(a) == multiset(b) {
      EmbedIgnoresOrder(a, b, dims, sqrt);
    }
  }
}
