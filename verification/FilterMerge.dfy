/**
  Merging the filters of two rewrite stages, and telling for each merged filter
  which stage it came from. Filters are compared by a key built from field,
  operator and encoded value; the value encoding is a parameter.
  */
module FilterMerge {
  import opened Dedup
  import opened Store
  import opened Schema
  import opened Sql
  import opened SqliteAdapter

  type Encoding = Value -> string

  function FilterKey(enc: Encoding, f: Filter): string {
    f.field + ("|" + (f.op + ("|" + enc(f.value))))
  }

  ghost function KeyOf(enc: Encoding): Filter -> string {
    f => FilterKey(enc, f)
  }

  /** The filters of both lists, each key once, in order of first appearance. */
  ghost function Merged(enc: Encoding, a: seq<Filter>, b: seq<Filter>): seq<Filter> {
    KeepFirst(a + b, KeyOf(enc))
  }

  method MergeFilters(enc: Encoding, a: seq<Filter>, b: seq<Filter>) returns (out: seq<Filter>)
    ensures out == Merged(enc, a, b)
  {
    out := [];
    var all := a + b;
    var seen: set<string> := {};
    for i := 0 to |all|
      invariant seen == Keys(all[..i], KeyOf(enc))
      invariant out == KeepFirst(all[..i], KeyOf(enc))
    {
      TakeOneMore(all, i, KeyOf(enc));
      var key := FilterKey(enc, all[i]);
      if key in seen {
        continue;
      }
      seen := seen + {key};
      out := out + [all[i]];
    }
    assert all[..|all|] == all;
  }

  // ----- what merging keeps -----

  /** Filters with equal keys are equal filters. */
  ghost predicate KeysSeparate(enc: Encoding, fs: seq<Filter>) {
    forall f, g | f in fs && g in fs && FilterKey(enc, f) == FilterKey(enc, g) :: f == g
  }

  /** Merging drops nothing but exact repeats exactly when keys tell the filters apart. */
  lemma MergeKeepsAllIff(enc: Encoding, a: seq<Filter>, b: seq<Filter>)
    ensures (forall f | f in a + b :: f in Merged(enc, a, b)) <==> KeysSeparate(enc, a + b)
    ensures forall f | f in Merged(enc, a, b) :: f in a + b
  {
    var all, m := a + b, Merged(enc, a, b);
    KeepFirstKeys(all, KeyOf(enc));
    if KeysSeparate(enc, all) {
      forall f | f in all
        ensures f in m
      {
        assert KeyOf(enc)(f) in Keys(m, KeyOf(enc));
        var g :| g in m && KeyOf(enc)(g) == KeyOf(enc)(f);
      }
    } else if forall f | f in all :: f in m {
      var f, g :| f in all && g in all && FilterKey(enc, f) == FilterKey(enc, g) && f != g;
      KeptOnce(enc, a, b, f, g);
      assert false;
    }
  }

  /** Kept filters with one key are one filter. */
  lemma KeptOnce(enc: Encoding, a: seq<Filter>, b: seq<Filter>, f: Filter, g: Filter)
    requires f in Merged(enc, a, b) && g in Merged(enc, a, b) && FilterKey(enc, f) == FilterKey(enc, g)
    ensures f == g
  {
    var m := Merged(enc, a, b);
    KeepFirstKeys(a + b, KeyOf(enc));
    var i :| 0 <= i < |m| && m[i] == f;
    var j :| 0 <= j < |m| && m[j] == g;
    assert KeyOf(enc)(m[i]) == KeyOf(enc)(m[j]);
  }

  /** The first stage's filters lead, in their order. */
  lemma FirstStageLeads(enc: Encoding, a: seq<Filter>, b: seq<Filter>)
    ensures KeepFirst(a, KeyOf(enc)) <= Merged(enc, a, b)
  {
    KeepFirstGrows(a, b, KeyOf(enc));
  }

  /** The merged conjunction means both conjunctions together, on every row. */
  lemma MergeMeansBoth(enc: Encoding, a: seq<Filter>, b: seq<Filter>, c: Collation, reg: Registry, resource: string, row: Row)
    requires KeysSeparate(enc, a + b)
    ensures AllHold(c, reg, resource, Merged(enc, a, b), row)
            <==> AllHold(c, reg, resource, a, row) && AllHold(c, reg, resource, b, row)
  {
    MergeKeepsAllIff(enc, a, b);
    assert forall f :: f in Merged(enc, a, b) <==> f in a || f in b;
  }

  lemma SplitAtBar(a: string, b: string, x: string, y: string)
    requires a + ("|" + b) == x + ("|" + y) && '|' !in a && '|' !in x
    ensures a == x && b == y
  {
    var s := a + ("|" + b);
    assert a == s[..|a|] && x == s[..|x|];
    assert forall i | 0 <= i < |a| :: s[i] in a;
    assert forall i | 0 <= i < |x| :: s[i] in x;
    assert s[|a|] == '|' && s[|x|] == '|';
    assert b == s[|a| + 1..] && y == s[|x| + 1..];
  }

  ghost predicate BarFree(f: Filter) {
    '|' !in f.field && '|' !in f.op
  }

  ghost predicate Injective(enc: Encoding) {
    forall v, w :: enc(v) == enc(w) ==> v == w
  }

  /** Bar-free names and an injective value encoding make keys tell filters apart. */
  lemma BarFreeKeysSeparate(enc: Encoding, fs: seq<Filter>)
    requires Injective(enc) && forall f | f in fs :: BarFree(f)
    ensures KeysSeparate(enc, fs)
  {
    forall f, g | f in fs && g in fs && FilterKey(enc, f) == FilterKey(enc, g)
      ensures f == g
    {
      SplitAtBar(f.field, f.op + ("|" + enc(f.value)), g.field, g.op + ("|" + enc(g.value)));
      SplitAtBar(f.op, enc(f.value), g.op, enc(g.value));
    }
  }

  /** With a bar inside a name, two different filters can share a key and one is dropped. */
  lemma BarsCollide(enc: Encoding, v: Value)
    ensures var f, g := Filter("a|b", "c", v), Filter("a", "b|c", v);
            FilterKey(enc, f) == FilterKey(enc, g) && f != g && g !in Merged(enc, [f], [g])
  {
    var f, g := Filter("a|b", "c", v), Filter("a", "b|c", v);
    assert FilterKey(enc, f) == "a|b|c|" + enc(v);
    assert FilterKey(enc, g) == "a|b|c|" + enc(v);
    var all := [f] + [g];
    assert all == [f, g] && all[..1] == [f] && [f][..0] == [];
    assert f in [f] && KeyOf(enc)(g) in Keys([f], KeyOf(enc));
    assert Keys([], KeyOf(enc)) == {};
    assert KeepFirst([f], KeyOf(enc)) == [f];
  }

  // ----- provenance -----

  datatype FilterSource = FilterSource(filter: Filter, source: string)

  function SourceForFilters(fs: seq<Filter>, source: string): seq<FilterSource> {
    seq(|fs|, i requires 0 <= i < |fs| => FilterSource(fs[i], source))
  }

  /** The one source that claims a key, or `both` when claims differ. */
  function Claimed(enc: Encoding, entries: seq<FilterSource>, key: string): Option<string> {
    if entries == [] then None
    else
      var e := entries[|entries| - 1];
      var prior := Claimed(enc, entries[..|entries| - 1], key);
      if FilterKey(enc, e.filter) != key then prior
      else
        match prior
        case None => Some(e.source)
        case Some(s) => Some(if s == e.source then s else "both")
  }

  /** The label a merged filter receives. */
  function Label(enc: Encoding, entries: seq<FilterSource>, f: Filter): string {
    match Claimed(enc, entries, FilterKey(enc, f))
    case Some(s) => if s == "" then "unknown" else s
    case None => "unknown"
  }

  function Labelled(enc: Encoding, merged: seq<Filter>, entries: seq<FilterSource>): seq<FilterSource> {
    seq(|merged|, i requires 0 <= i < |merged| => FilterSource(merged[i], Label(enc, entries, merged[i])))
  }

  /** Records every claim in a map, then labels the merged filters from it. */
  method MergeFilterSources(enc: Encoding, merged: seq<Filter>, first: seq<FilterSource>, second: seq<FilterSource>)
    returns (out: seq<FilterSource>)
    ensures out == Labelled(enc, merged, first + second)
  {
    var entries := first + second;
    var sourceMap: map<string, string> := map[];
    for i := 0 to |entries|
      invariant forall k :: k in sourceMap <==> Claimed(enc, entries[..i], k).Some?
      invariant forall k | k in sourceMap :: Claimed(enc, entries[..i], k) == Some(sourceMap[k])
    {
      assert entries[..i + 1][..i] == entries[..i];
      var key := FilterKey(enc, entries[i].filter);
      if key in sourceMap {
        if sourceMap[key] != entries[i].source {
          sourceMap := sourceMap[key := "both"];
        }
        continue;
      }
      sourceMap := sourceMap[key := entries[i].source];
    }
    assert entries[..|entries|] == entries;
    out := [];
    for i := 0 to |merged|
      invariant out == Labelled(enc, merged[..i], entries)
    {
      var key := FilterKey(enc, merged[i]);
      var source := if key in sourceMap then sourceMap[key] else "";
      if source == "" {
        source := "unknown";
      }
      out := out + [FilterSource(merged[i], source)];
    }
    assert merged[..|merged|] == merged;
  }

  const SLM := "slm-local"
  const SUPERLINKED := "superlinked"

  ghost predicate HasKey(enc: Encoding, fs: seq<Filter>, key: string) {
    exists f :: f in fs && FilterKey(enc, f) == key
  }

  lemma {:induction false} ClaimsOfOneSource(enc: Encoding, fs: seq<Filter>, source: string, key: string)
    ensures Claimed(enc, SourceForFilters(fs, source), key) == if HasKey(enc, fs, key) then Some(source) else None
  {
    if fs != [] {
      var n := |fs| - 1;
      ClaimsOfOneSource(enc, fs[..n], source, key);
      assert SourceForFilters(fs, source)[..n] == SourceForFilters(fs[..n], source);
      assert fs == fs[..n] + [fs[n]];
      assert HasKey(enc, fs, key) <==> HasKey(enc, fs[..n], key) || FilterKey(enc, fs[n]) == key;
    }
  }

  lemma {:induction false} ClaimsConcat(enc: Encoding, entries: seq<FilterSource>, fs: seq<Filter>, source: string, key: string)
    ensures Claimed(enc, entries + SourceForFilters(fs, source), key) ==
            if !HasKey(enc, fs, key) then Claimed(enc, entries, key)
            else match Claimed(enc, entries, key)
                 case None => Some(source)
                 case Some(s) => Some(if s == source then s else "both")
  {
    var tail := SourceForFilters(fs, source);
    if fs == [] {
      assert entries + tail == entries;
    } else {
      var n := |fs| - 1;
      ClaimsConcat(enc, entries, fs[..n], source, key);
      assert (entries + tail)[..|entries + tail| - 1] == entries + SourceForFilters(fs[..n], source);
      assert fs == fs[..n] + [fs[n]];
      assert HasKey(enc, fs, key) <==> HasKey(enc, fs[..n], key) || FilterKey(enc, fs[n]) == key;
    }
  }

  /**
    Each merged filter is labelled with the one stage that produced it, or with
    `both` exactly when both did; no merged filter is of unknown origin.
    */
  lemma ProvenanceIsExact(enc: Encoding, a: seq<Filter>, b: seq<Filter>, f: Filter)
    requires f in Merged(enc, a, b)
    ensures var tag := Label(enc, SourceForFilters(a, SLM) + SourceForFilters(b, SUPERLINKED), f);
            var inA, inB := HasKey(enc, a, FilterKey(enc, f)), HasKey(enc, b, FilterKey(enc, f));
            && (tag == "both" <==> inA && inB)
            && (tag == SLM <==> inA && !inB)
            && (tag == SUPERLINKED <==> !inA && inB)
            && tag != "unknown"
  {
    var key := FilterKey(enc, f);
    MergeKeepsAllIff(enc, a, b);
    assert f in a || f in b;
    ClaimsOfOneSource(enc, a, SLM, key);
    ClaimsConcat(enc, SourceForFilters(a, SLM), b, SUPERLINKED, key);
  }
}
