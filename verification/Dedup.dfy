/**
  Order-preserving removal of duplicates. Identifier lists, provider chains,
  evidence, notes and filters all go through some copy of the same `seen` loop.
  */
module Dedup {
  import opened Text

  ghost function Keys<T, K>(s: seq<T>, key: T -> K): set<K> {
    set x | x in s :: key(x)
  }

  /** The elements whose key has not been met earlier in the sequence. */
  ghost function KeepFirst<T, K>(s: seq<T>, key: T -> K): (r: seq<T>)
    ensures |r| <= |s|
  {
    if s == [] then []
    else
      var n := |s| - 1;
      var r := KeepFirst(s[..n], key);
      if key(s[n]) in Keys(s[..n], key) then r else r + [s[n]]
  }

  ghost predicate DistinctKeys<T, K>(s: seq<T>, key: T -> K) {
    forall i, j | 0 <= i < j < |s| :: key(s[i]) != key(s[j])
  }

  /** Position of the first element that carries key `k`. */
  ghost function FirstAt<T, K>(s: seq<T>, key: T -> K, k: K): (i: nat)
    requires k in Keys(s, key)
    ensures i < |s| && key(s[i]) == k
    ensures forall j | 0 <= j < i :: key(s[j]) != k
  {
    if key(s[0]) == k then 0
    else
      assert s == [s[0]] + s[1..];
      1 + FirstAt(s[1..], key, k)
  }

  lemma KeysSplit<T, K>(s: seq<T>, key: T -> K)
    requires s != []
    ensures Keys(s, key) == Keys(s[..|s| - 1], key) + {key(s[|s| - 1])}
  {
    var n := |s| - 1;
    assert s == s[..n] + [s[n]];
  }

  /** How one more element changes the keys met and the elements kept. */
  lemma TakeOneMore<T, K>(s: seq<T>, i: nat, key: T -> K)
    requires i < |s|
    ensures Keys(s[..i + 1], key) == Keys(s[..i], key) + {key(s[i])}
    ensures KeepFirst(s[..i + 1], key)
            == if key(s[i]) in Keys(s[..i], key) then KeepFirst(s[..i], key) else KeepFirst(s[..i], key) + [s[i]]
  {
    assert s[..i + 1][..i] == s[..i];
    KeysSplit(s[..i + 1], key);
  }

  /** Nothing is lost but repeated keys, and nothing foreign appears. */
  lemma {:induction false} KeepFirstKeys<T, K>(s: seq<T>, key: T -> K)
    ensures DistinctKeys(KeepFirst(s, key), key)
    ensures Keys(KeepFirst(s, key), key) == Keys(s, key)
    ensures forall x | x in KeepFirst(s, key) :: x in s
  {
    if s != [] {
      var n := |s| - 1;
      KeepFirstKeys(s[..n], key);
      KeysSplit(s, key);
      var r := KeepFirst(s[..n], key);
      if key(s[n]) !in Keys(s[..n], key) {
        assert forall i | 0 <= i < |r| :: key(r[i]) in Keys(r, key);
        KeysSplit(r + [s[n]], key);
        assert (r + [s[n]])[..|r|] == r;
      }
    }
  }

  /** Kept elements are the first of their key, in the order of first appearance. */
  lemma {:induction false} KeepFirstOrder<T, K>(s: seq<T>, key: T -> K)
    ensures var r := KeepFirst(s, key);
            && Keys(r, key) == Keys(s, key)
            && (forall i | 0 <= i < |r| :: key(r[i]) in Keys(s, key) && s[FirstAt(s, key, key(r[i]))] == r[i])
            && (forall i, j | 0 <= i < j < |r| :: FirstAt(s, key, key(r[i])) < FirstAt(s, key, key(r[j])))
  {
    KeepFirstKeys(s, key);
    if s != [] {
      var n := |s| - 1;
      KeepFirstOrder(s[..n], key);
      KeysSplit(s, key);
      var r := KeepFirst(s, key);
      var p := KeepFirst(s[..n], key);
      assert forall i | 0 <= i < |r| :: key(r[i]) in Keys(r, key);
      forall i | 0 <= i < |p|
        ensures key(p[i]) in Keys(s[..n], key)
        ensures FirstAt(s, key, key(p[i])) == FirstAt(s[..n], key, key(p[i]))
      {
        assert key(p[i]) in Keys(p, key);
        FirstAtPrefix(s, n, key, key(p[i]));
      }
      if r != p {
        FirstAtLast(s, key);
      }
    }
  }

  lemma FirstAtLast<T, K>(s: seq<T>, key: T -> K)
    requires s != [] && key(s[|s| - 1]) !in Keys(s[..|s| - 1], key)
    ensures key(s[|s| - 1]) in Keys(s, key) && FirstAt(s, key, key(s[|s| - 1])) == |s| - 1
  {
    var n := |s| - 1;
    assert s[n] in s;
    assert forall i | 0 <= i < n :: s[i] == s[..n][i] && key(s[i]) in Keys(s[..n], key);
  }

  lemma FirstAtPrefix<T, K>(s: seq<T>, n: nat, key: T -> K, k: K)
    requires n <= |s| && k in Keys(s[..n], key)
    ensures k in Keys(s, key) && FirstAt(s, key, k) == FirstAt(s[..n], key, k)
  {
    var i := FirstAt(s[..n], key, k);
    assert forall j | 0 <= j < n :: s[..n][j] == s[j];
    assert s[i] in s && key(s[i]) == k;
    var m := FirstAt(s, key, k);
    assert m <= i;
    assert key(s[..n][m]) == k;
  }

  /** What more elements add comes behind what was kept of the first. */
  lemma {:induction false} KeepFirstGrows<T, K>(a: seq<T>, b: seq<T>, key: T -> K)
    ensures KeepFirst(a, key) <= KeepFirst(a + b, key)
  {
    if b == [] {
      assert a + b == a;
    } else {
      var n := |b| - 1;
      KeepFirstGrows(a, b[..n], key);
      assert (a + b)[..|a + b| - 1] == a + b[..n];
    }
  }

  /** A sequence without repeated keys passes through unchanged. */
  lemma {:induction false} KeepFirstIdentity<T, K>(s: seq<T>, key: T -> K)
    requires DistinctKeys(s, key)
    ensures KeepFirst(s, key) == s
  {
    if s != [] {
      var n := |s| - 1;
      KeepFirstIdentity(s[..n], key);
      assert s == s[..n] + [s[n]];
    }
  }

  /** Deduplicating a second time changes nothing. */
  lemma KeepFirstIdempotent<T, K>(s: seq<T>, key: T -> K)
    ensures KeepFirst(KeepFirst(s, key), key) == KeepFirst(s, key)
  {
    KeepFirstKeys(s, key);
    KeepFirstIdentity(KeepFirst(s, key), key);
  }

  /** The entries of a list, each once, in order of first appearance. */
  ghost function Unique(s: seq<string>): seq<string> {
    KeepFirst(s, Same)
  }

  ghost function Met(s: seq<string>): set<string> {
    Keys(s, Same)
  }

  lemma MeetOneMore(s: seq<string>, x: string)
    ensures Met(s + [x]) == Met(s) + {x}
    ensures Unique(s + [x]) == if x in Met(s) then Unique(s) else Unique(s) + [x]
  {
    assert (s + [x])[..|s|] == s;
    KeysSplit(s + [x], Same);
  }

  /** The second list after the first, each entry once; repeats inside the first go too. */
  method AppendUnique(base: seq<string>, extra: seq<string>) returns (out: seq<string>)
    ensures out == Unique(base + extra)
  {
    var seen: set<string> := {};
    seen, out := TakeNew([], base, seen, []);
    assert [] + base == base;
    seen, out := TakeNew(base, extra, seen, out);
  }

  lemma OneFurther(before: seq<string>, list: seq<string>, i: nat)
    requires i < |list|
    ensures before + list[..i] + [list[i]] == before + list[..i + 1]
  {
  }

  /** One of the two loops: takes what has not been seen. */
  method TakeNew(ghost before: seq<string>, list: seq<string>, seen0: set<string>, out0: seq<string>)
    returns (seen: set<string>, out: seq<string>)
    requires seen0 == Met(before) && out0 == Unique(before)
    ensures seen == Met(before + list) && out == Unique(before + list)
  {
    seen, out := seen0, out0;
    ghost var met := before;
    for i := 0 to |list|
      invariant met == before + list[..i]
      invariant seen == Met(met) && out == Unique(met)
    {
      var v := list[i];
      MeetOneMore(met, v);
      OneFurther(before, list, i);
      met := met + [v];
      if v in seen {
        continue;
      }
      seen := seen + {v};
      out := out + [v];
    }
    assert list[..|list|] == list;
  }

  // ----- the string instance: trim, drop blanks, drop repeats -----

  function Same<T>(x: T): T { x }

  /** The non-blank entries, trimmed, in order. */
  function Cleaned(s: seq<string>): seq<string> {
    if s == [] then []
    else
      var n := |s| - 1;
      var c := TrimSpace(s[n]);
      Cleaned(s[..n]) + if c == "" then [] else [c]
  }

  ghost function DedupeTrimmed(s: seq<string>): seq<string> {
    KeepFirst(Cleaned(s), Same)
  }

  ghost predicate Distinct<T>(s: seq<T>) {
    forall i, j | 0 <= i < j < |s| :: s[i] != s[j]
  }

  /** The shared loop: one pass with a set of entries already seen. */
  method DedupeStrings(input: seq<string>) returns (out: seq<string>)
    ensures out == DedupeTrimmed(input)
  {
    out := [];
    var seen: set<string> := {};
    for i := 0 to |input|
      invariant seen == Keys(Cleaned(input[..i]), Same)
      invariant out == DedupeTrimmed(input[..i])
    {
      assert input[..i + 1][..i] == input[..i];
      var v := TrimSpace(input[i]);
      ghost var before, after := Cleaned(input[..i]), Cleaned(input[..i + 1]);
      if v == "" {
        assert after == before;
        continue;
      }
      assert after == before + [v] && after[..|before|] == before;
      KeysSplit(after, Same);
      if v in seen {
        continue;
      }
      seen := seen + {v};
      out := out + [v];
    }
    assert input[..|input|] == input;
  }

  lemma {:induction false} CleanedEntries(s: seq<string>)
    ensures forall x | x in Cleaned(s) :: x != "" && IsTrimmed(x)
    ensures forall x | x in s && TrimSpace(x) != "" :: TrimSpace(x) in Cleaned(s)
    ensures forall x | x in Cleaned(s) :: exists y :: y in s && TrimSpace(y) == x
  {
    if s != [] {
      var n := |s| - 1;
      CleanedEntries(s[..n]);
      TrimSpaceTrims(s[n]);
      assert s == s[..n] + [s[n]];
    }
  }

  /** What a deduplicated list is: distinct, trimmed, non-blank, and complete. */
  lemma DedupeTrimmedProperties(s: seq<string>)
    ensures var r := DedupeTrimmed(s);
            && Distinct(r)
            && (forall x | x in r :: x != "" && IsTrimmed(x))
            && (forall x | x in s && TrimSpace(x) != "" :: TrimSpace(x) in r)
            && (forall x | x in r :: exists y :: y in s && TrimSpace(y) == x)
  {
    CleanedEntries(s);
    var c := Cleaned(s);
    KeepFirstKeys(c, Same);
    var r := KeepFirst(c, Same);
    assert forall i | 0 <= i < |r| :: Same(r[i]) == r[i];
    forall x | x in c
      ensures x in r
    {
      assert Same(x) in Keys(c, Same);
      assert Same(x) in Keys(r, Same);
    }
  }

  ghost predicate IsClean(x: string) {
    x != "" && IsTrimmed(x)
  }

  lemma {:induction false} CleanedIdentity(s: seq<string>)
    requires forall i | 0 <= i < |s| :: IsClean(s[i])
    ensures Cleaned(s) == s
  {
    if s != [] {
      var n := |s| - 1;
      CleanedIdentity(s[..n]);
      CleanStays(s[n]);
      assert Cleaned(s) == Cleaned(s[..n]) + [s[n]];
      assert s == s[..n] + [s[n]];
    }
  }

  lemma CleanStays(x: string)
    requires IsClean(x)
    ensures TrimSpace(x) == x
  {
    TrimSpaceTrims(x);
  }

  /** Lists that are already distinct, trimmed and non-blank are fixed points. */
  lemma DedupeTrimmedIdentity(s: seq<string>)
    requires Distinct(s) && forall x | x in s :: x != "" && IsTrimmed(x)
    ensures DedupeTrimmed(s) == s
  {
    forall i | 0 <= i < |s|
      ensures IsClean(s[i])
    {
      assert s[i] in s;
    }
    CleanedIdentity(s);
    KeepFirstIdentity(s, Same);
  }
}
