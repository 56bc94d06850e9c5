/**
  Following the cursor. A client that keeps passing back `NextCursor` over an
  unchanged table sees every matching row once, in order, and then stops.
  */
module CursorWalk {
  import opened Text
  import opened Store
  import opened Schema
  import opened Sql
  import opened SqliteAdapter

  /** A pager answers a cursor with a page. */
  type Pager = string -> Result<SearchResult>

  /** The page of `items` a cursor selects, `w` items wide. */
  function PageOf(items: seq<Candidate>, w: nat, cursor: string): SearchResult {
    var page := Window(items, w, OffsetOf(cursor));
    SearchResult(page, |items|, NextCursor(OffsetOf(cursor) + |page|, |items|))
  }

  ghost predicate PagesOver(pager: Pager, items: seq<Candidate>, w: nat) {
    && 1 <= w && |items| <= MAX_INT
    && forall cursor :: pager(cursor) == Ok(PageOf(items, w, cursor))
  }

  /** A completed run: each page is asked for with the cursor of the one before, the last has none. */
  ghost predicate IsWalk(pager: Pager, cursor: string, pages: seq<SearchResult>)
    decreases |pages|
  {
    && pages != []
    && pager(cursor) == Ok(pages[0])
    && if pages[0].nextCursor == "" then |pages| == 1
       else IsWalk(pager, pages[0].nextCursor, pages[1..])
  }

  function Collected(pages: seq<SearchResult>): seq<Candidate> {
    if pages == [] then [] else pages[0].candidates + Collected(pages[1..])
  }

  lemma OffsetFits(cursor: string)
    ensures MIN_INT <= OffsetOf(cursor) <= MAX_INT
  {
  }

  /** From a cursor that is not negative, a page either ends the run or moves on by its width. */
  lemma PageAdvances(items: seq<Candidate>, w: nat, cursor: string)
    requires 1 <= w && |items| <= MAX_INT && OffsetOf(cursor) >= 0
    ensures var page := PageOf(items, w, cursor);
            var from := Min(|items|, OffsetOf(cursor));
            && page.candidates == items[from..Min(|items|, from + w)]
            && (page.nextCursor == "" <==> |items| <= from + w)
            && (page.nextCursor != "" ==> OffsetOf(page.nextCursor) == from + w)
  {
    if OffsetOf(cursor) + w < |items| {
      AtoiUndoesItoa(OffsetOf(cursor) + w);
    }
  }

  /** From a negative cursor, a page starts at the first row and never ends the run. */
  lemma NegativePage(items: seq<Candidate>, w: nat, cursor: string)
    requires 1 <= w && |items| <= MAX_INT && OffsetOf(cursor) < 0
    ensures var page := PageOf(items, w, cursor);
            && page.candidates == items[..Min(|items|, w)]
            && page.nextCursor != ""
            && OffsetOf(page.nextCursor) == OffsetOf(cursor) + Min(|items|, w)
  {
    OffsetFits(cursor);
    AtoiUndoesItoa(OffsetOf(cursor) + Min(|items|, w));
  }

  /**
    Every completed run delivers the items from its cursor on, each once and in
    order; all pages but the last are full, and every page reports the count.
    */
  lemma WalkCovers(pager: Pager, items: seq<Candidate>, w: nat, cursor: string, pages: seq<SearchResult>)
    requires PagesOver(pager, items, w) && OffsetOf(cursor) >= 0 && IsWalk(pager, cursor, pages)
    ensures Collected(pages) == items[Min(|items|, OffsetOf(cursor))..]
    ensures forall p | p in pages :: |p.candidates| <= w && p.total == |items|
    ensures forall i | 0 <= i < |pages| - 1 :: |pages[i].candidates| == w
  {
    WalkCollects(pager, items, w, cursor, pages);
    forall i | 0 <= i < |pages|
      ensures |pages[i].candidates| <= w && pages[i].total == |items|
      ensures i < |pages| - 1 ==> |pages[i].candidates| == w
    {
      PageWidth(pager, items, w, cursor, pages, i);
    }
  }

  lemma SliceJoins(items: seq<Candidate>, i: nat, j: nat)
    requires i <= j <= |items|
    ensures items[i..j] + items[j..] == items[i..]
  {
  }

  lemma CollectedOne(pages: seq<SearchResult>)
    requires |pages| == 1
    ensures Collected(pages) == pages[0].candidates
  {
    assert pages[1..] == [];
    assert Collected([]) == [];
    assert pages[0].candidates + [] == pages[0].candidates;
  }

  lemma CollectedMore(pages: seq<SearchResult>)
    requires pages != []
    ensures Collected(pages) == pages[0].candidates + Collected(pages[1..])
  {
  }

  lemma {:induction false} WalkCollects(pager: Pager, items: seq<Candidate>, w: nat, cursor: string, pages: seq<SearchResult>)
    requires PagesOver(pager, items, w) && OffsetOf(cursor) >= 0 && IsWalk(pager, cursor, pages)
    ensures Collected(pages) == items[Min(|items|, OffsetOf(cursor))..]
    decreases |pages|
  {
    var from := Min(|items|, OffsetOf(cursor));
    assert pages[0] == PageOf(items, w, cursor);
    PageAdvances(items, w, cursor);
    if pages[0].nextCursor == "" {
      CollectedOne(pages);
    } else {
      WalkCollects(pager, items, w, pages[0].nextCursor, pages[1..]);
      CollectedMore(pages);
      SliceJoins(items, from, from + w);
    }
  }

  lemma {:induction false} PageWidth(pager: Pager, items: seq<Candidate>, w: nat, cursor: string, pages: seq<SearchResult>, i: nat)
    requires PagesOver(pager, items, w) && OffsetOf(cursor) >= 0 && IsWalk(pager, cursor, pages) && i < |pages|
    ensures |pages[i].candidates| <= w && pages[i].total == |items|
    ensures i < |pages| - 1 ==> |pages[i].candidates| == w
    decreases i
  {
    assert pages[0] == PageOf(items, w, cursor);
    PageAdvances(items, w, cursor);
    if i > 0 {
      assert pages[i] == pages[1..][i - 1];
      PageWidth(pager, items, w, pages[0].nextCursor, pages[1..], i - 1);
    }
  }

  lemma {:induction false} WalkExists(pager: Pager, items: seq<Candidate>, w: nat, cursor: string) returns (pages: seq<SearchResult>)
    requires PagesOver(pager, items, w) && (OffsetOf(cursor) >= 0 || items != [])
    ensures IsWalk(pager, cursor, pages)
    decreases Max(0, |items| - OffsetOf(cursor))
  {
    var page := PageOf(items, w, cursor);
    assert pager(cursor) == Ok(page);
    if OffsetOf(cursor) >= 0 {
      PageAdvances(items, w, cursor);
    } else {
      NegativePage(items, w, cursor);
    }
    pages := [page];
    if page.nextCursor != "" {
      var rest := WalkExists(pager, items, w, page.nextCursor);
      pages := [page] + rest;
      assert pages[1..] == rest;
    }
  }

  // ----- from a negative cursor -----

  /** How many pages start over at the first row before the offset is no longer negative. */
  function Restarts(offset: int, step: nat): nat
    requires step >= 1
    decreases Max(0, -offset)
  {
    if offset >= 0 then 0 else 1 + Restarts(offset + step, step)
  }

  /** The first offset reached that is not negative. */
  function Landing(offset: int, step: nat): (r: nat)
    requires step >= 1
    ensures offset < 0 ==> r < step
    decreases Max(0, -offset)
  {
    if offset >= 0 then offset else Landing(offset + step, step)
  }

  function Times<T>(s: seq<T>, k: nat): (r: seq<T>)
    ensures k > 0 ==> |r| >= |s|
  {
    if k == 0 then [] else s + Times(s, k - 1)
  }

  /**
    From a negative cursor over some rows, a run delivers the first page once for
    every step it takes to get past zero, and then the rows from where it lands.
    */
  lemma {:induction false} NegativeWalkRepeats(pager: Pager, items: seq<Candidate>, w: nat, cursor: string, pages: seq<SearchResult>)
    requires PagesOver(pager, items, w) && items != [] && OffsetOf(cursor) < 0 && IsWalk(pager, cursor, pages)
    ensures var v := Min(|items|, w);
            && Landing(OffsetOf(cursor), v) < v
            && Collected(pages) == Times(items[..v], Restarts(OffsetOf(cursor), v)) + items[Landing(OffsetOf(cursor), v)..]
    decreases |pages|
  {
    var v := Min(|items|, w);
    assert pages[0] == PageOf(items, w, cursor);
    NegativePage(items, w, cursor);
    CollectedMore(pages);
    var next := pages[0].nextCursor;
    var head, k, tail := items[..v], Restarts(OffsetOf(next), v), items[Landing(OffsetOf(cursor), v)..];
    if OffsetOf(next) < 0 {
      NegativeWalkRepeats(pager, items, w, next, pages[1..]);
    } else {
      assert Landing(OffsetOf(cursor), v) == OffsetOf(next) < |items|;
      WalkFromRow(pager, items, w, next, pages[1..]);
      NoneThenRest(head, tail);
    }
    OneMoreThenRest(head, k, tail, Collected(pages[1..]));
  }

  lemma WalkFromRow(pager: Pager, items: seq<Candidate>, w: nat, cursor: string, pages: seq<SearchResult>)
    requires PagesOver(pager, items, w) && 0 <= OffsetOf(cursor) <= |items| && IsWalk(pager, cursor, pages)
    ensures Collected(pages) == items[OffsetOf(cursor)..]
  {
    WalkCollects(pager, items, w, cursor, pages);
  }

  lemma NoneThenRest(head: seq<Candidate>, tail: seq<Candidate>)
    ensures Times(head, 0) + tail == tail
  {
  }

  lemma OneMoreThenRest(head: seq<Candidate>, k: nat, tail: seq<Candidate>, rest: seq<Candidate>)
    requires rest == Times(head, k) + tail
    ensures head + rest == Times(head, k + 1) + tail
  {
    assert Times(head, k + 1) == head + Times(head, k);
  }

  /** A completed run delivers the rows from its cursor on, each once, exactly when the cursor is not negative. */
  lemma ExactlyOnceIff(pager: Pager, items: seq<Candidate>, w: nat, cursor: string, pages: seq<SearchResult>)
    requires PagesOver(pager, items, w) && IsWalk(pager, cursor, pages)
    ensures Collected(pages) == items[Min(|items|, Max(0, OffsetOf(cursor)))..] <==> OffsetOf(cursor) >= 0
  {
    if OffsetOf(cursor) >= 0 {
      WalkCollects(pager, items, w, cursor, pages);
    } else if items == [] {
      StalledWalk(pager, w, cursor, pages);
    } else {
      var v := Min(|items|, w);
      NegativeWalkRepeats(pager, items, w, cursor, pages);
      assert Restarts(OffsetOf(cursor), v) > 0;
      assert |Collected(pages)| > |items|;
    }
  }

  lemma {:induction false} StalledWalk(pager: Pager, w: nat, cursor: string, pages: seq<SearchResult>)
    requires PagesOver(pager, [], w) && OffsetOf(cursor) < 0
    ensures !IsWalk(pager, cursor, pages)
    decreases |pages|
  {
    if pages != [] {
      assert pager(cursor) == Ok(PageOf([], w, cursor));
      NegativePage([], w, cursor);
      StalledWalk(pager, w, PageOf([], w, cursor).nextCursor, pages[1..]);
    }
  }

  /**
    A run comes to an end from every cursor, except from a negative one when
    nothing matches: then each page hands the same cursor back for ever.
    */
  lemma WalkEndsIff(pager: Pager, items: seq<Candidate>, w: nat, cursor: string)
    requires PagesOver(pager, items, w)
    ensures CanEnd(pager, cursor) <==> OffsetOf(cursor) >= 0 || items != []
  {
    if OffsetOf(cursor) >= 0 || items != [] {
      var run := WalkExists(pager, items, w, cursor);
    } else {
      forall pages
        ensures !IsWalk(pager, cursor, pages)
      {
        StalledWalk(pager, w, cursor, pages);
      }
    }
  }

  ghost predicate CanEnd(pager: Pager, cursor: string) {
    exists pages :: IsWalk(pager, cursor, pages)
  }

  // ----- the adapter as a pager -----

  function At(q: QueryDSL, cursor: string): QueryDSL {
    q.(page := q.page.(cursor := cursor))
  }

  ghost function AdapterPager(db: Database, reg: Registry, tenant: string, resource: string,
                              q: QueryDSL, maxCandidates: int): Pager
  {
    cursor => SearchOutcome(db, reg, tenant, resource, At(q, cursor), maxCandidates)
  }

  /** A servable query under a positive cap, whose count fits a machine integer. */
  ghost predicate Walkable(db: Database, reg: Registry, tenant: string, resource: string, q: QueryDSL, maxCandidates: int) {
    && Servable(db, reg, resource, q)
    && maxCandidates >= 1
    && |Matching(db, reg, tenant, resource, q)| <= MAX_INT
  }

  lemma WindowOfCandidates(rows: seq<Row>, limit: int, offset: int)
    ensures Window(Candidates(rows), limit, offset) == Candidates(Window(rows, limit, offset))
  {
  }

  /** The adapter pages over the matching rows, in windows of the clamped size. */
  lemma AdapterPages(db: Database, reg: Registry, tenant: string, resource: string, q: QueryDSL, maxCandidates: int)
    requires Walkable(db, reg, tenant, resource, q, maxCandidates)
    ensures PagesOver(AdapterPager(db, reg, tenant, resource, q, maxCandidates),
                      Candidates(Matching(db, reg, tenant, resource, q)), WindowSize(q.page.limit, maxCandidates))
  {
    var m := Matching(db, reg, tenant, resource, q);
    var w := WindowSize(q.page.limit, maxCandidates);
    WindowSizeBounds(q.page.limit, maxCandidates);
    forall cursor
      ensures SearchOutcome(db, reg, tenant, resource, At(q, cursor), maxCandidates) == Ok(PageOf(Candidates(m), w, cursor))
    {
      SearchIsWindow(db, reg, tenant, resource, At(q, cursor), maxCandidates);
      WindowOfCandidates(m, w, OffsetOf(cursor));
    }
  }

  /**
    Exactly-once coverage. Following the cursor from the start, over a table in
    a fixed order, ends; every completed run lists the matching rows in order,
    each once, in windows no larger than the cap.
    */
  lemma CursorWalkCoversTable(db: Database, reg: Registry, tenant: string, resource: string, q: QueryDSL, maxCandidates: int)
    requires Walkable(db, reg, tenant, resource, q, maxCandidates)
    ensures var pager := AdapterPager(db, reg, tenant, resource, q, maxCandidates);
            var m := Matching(db, reg, tenant, resource, q);
            && (exists pages :: IsWalk(pager, "", pages))
            && (forall pages: seq<SearchResult> | IsWalk(pager, "", pages) ::
                  && Collected(pages) == Candidates(m)
                  && (forall p | p in pages :: |p.candidates| <= maxCandidates && p.total == |m|))
            && multiset(m) == multiset(Select(db.tables[reg.resources[resource].tableName].rows,
                                              Wanted(db.collation, reg, tenant, resource, q.filters)))
  {
    var pager := AdapterPager(db, reg, tenant, resource, q, maxCandidates);
    var items := Candidates(Matching(db, reg, tenant, resource, q));
    var w := WindowSize(q.page.limit, maxCandidates);
    AdapterPages(db, reg, tenant, resource, q, maxCandidates);
    MatchingIsComplete(db, reg, tenant, resource, q);
    WindowSizeBounds(q.page.limit, maxCandidates);
    var run := WalkExists(pager, items, w, "");
    forall pages: seq<SearchResult> | IsWalk(pager, "", pages)
      ensures Collected(pages) == items
      ensures forall p | p in pages :: |p.candidates| <= maxCandidates && p.total == |items|
    {
      WalkCovers(pager, items, w, "", pages);
      assert items[0..] == items;
    }
  }
}
