/**
  The in-memory grants cache. Identifier sets are mutable objects, as in the
  original, so both directions of the boundary copy them.
  */
module GrantsCache {
  import opened Store

  /** A mutable set of identifiers, shared by reference. */
  class IdSet {
    var ids: set<string>

    constructor (ids: set<string>)
      ensures this.ids == ids
    {
      this.ids := ids;
    }

    /** Element-by-element copy into a new object. */
    method Copy() returns (c: IdSet)
      ensures fresh(c) && c.ids == ids
    {
      c := new IdSet({});
      var todo := ids;
      while todo != {}
        invariant todo <= ids
        invariant c.ids == ids - todo
      {
        var k :| k in todo;
        c.ids := c.ids + {k};
        todo := todo - {k};
      }
    }
  }

  // ----- the cache as a value -----

  datatype Stored = Stored(ids: set<string>, expiresAt: int)

  type Snapshot = map<string, Stored>

  predicate HasPrefix(key: string, prefix: string) {
    prefix <= key
  }

  lemma PrefixIsStart(prefix: string)
    ensures forall rest :: HasPrefix(prefix + rest, prefix)
    ensures forall k | HasPrefix(k, prefix) :: exists rest :: k == prefix + rest
  {
    forall k | HasPrefix(k, prefix)
      ensures exists rest :: k == prefix + rest
    {
      assert k == prefix + k[|prefix|..];
    }
  }

  /** An entry is served up to and including its expiry instant. */
  predicate Live(e: Stored, now: int) {
    now <= e.expiresAt
  }

  /** What a lookup at `now` answers. */
  function Lookup(m: Snapshot, key: string, now: int): Option<set<string>> {
    if key in m && Live(m[key], now) then Some(m[key].ids) else None
  }

  /** What a lookup leaves behind: an entry found expired is dropped. */
  function AfterLookup(m: Snapshot, key: string, now: int): Snapshot {
    if Lookup(m, key, now).Some? then m else m - {key}
  }

  function AfterSet(m: Snapshot, key: string, ids: set<string>, now: int, ttl: int): Snapshot {
    m[key := Stored(ids, now + ttl)]
  }

  function AfterInvalidate(m: Snapshot, prefix: string): Snapshot {
    map k | k in m && !HasPrefix(k, prefix) :: m[k]
  }

  // ----- the cache as an object -----

  datatype Entry = Entry(ids: IdSet, expiresAt: int)

  class Cache {
    const ttl: int
    var items: map<string, Entry>

    /** The sets the cache owns. */
    ghost function Owned(): set<IdSet>
      reads this
    {
      set k | k in items :: items[k].ids
    }

    ghost function Contents(): Snapshot
      reads this, Owned()
    {
      map k | k in items :: Stored(items[k].ids.ids, items[k].expiresAt)
    }

    constructor (ttl: int)
      ensures this.ttl == ttl && items == map[] && Contents() == map[]
    {
      this.ttl := ttl;
      items := map[];
    }

    /** On a hit the caller gets a set of its own; on a miss the key is gone. */
    method Get(key: string, now: int) returns (ids: IdSet?)
      modifies this
      ensures Contents() == AfterLookup(old(Contents()), key, now)
      ensures ids == null <==> Lookup(old(Contents()), key, now).None?
      ensures ids != null ==> fresh(ids) && Some(ids.ids) == Lookup(old(Contents()), key, now)
      ensures Owned() <= old(Owned())
    {
      if key !in items || now > items[key].expiresAt {
        if key in items {
          items := items - {key};
        }
        return null;
      }
      ids := items[key].ids.Copy();
    }

    /** The cache keeps a copy, so the caller's set stays the caller's. */
    method Set(key: string, ids: IdSet, now: int)
      modifies this
      ensures Contents() == AfterSet(old(Contents()), key, ids.ids, now, ttl)
      ensures fresh(Owned() - old(Owned()))
    {
      var copy := ids.Copy();
      items := items[key := Entry(copy, now + ttl)];
    }

    /** Deletes, key by key, every entry whose key starts with the prefix. */
    method InvalidatePrefix(prefix: string)
      modifies this
      ensures Contents() == AfterInvalidate(old(Contents()), prefix)
      ensures forall rest :: prefix + rest !in items
      ensures forall k | k in old(items) && (forall rest :: k != prefix + rest) :: k in items && items[k] == old(items)[k]
      ensures Owned() <= old(Owned())
    {
      PrefixIsStart(prefix);
      var todo := items.Keys;
      while todo != {}
        invariant todo <= items.Keys
        invariant items.Keys == todo + (set k | k in old(items) && k !in todo && !HasPrefix(k, prefix))
        invariant forall k | k in items :: k in old(items) && items[k] == old(items)[k]
        decreases todo
      {
        var key :| key in todo;
        todo := todo - {key};
        if HasPrefix(key, prefix) {
          items := items - {key};
        }
      }
    }
  }

  /**
    Callers cannot reach into the cache: neither changing the set that was
    stored nor changing the set that was returned affects a later lookup.
    */
  method CallersMayMutate(c: Cache, key: string, mine: IdSet, junk: set<string>, now: int, later: int)
    returns (again: IdSet?)
    requires mine !in c.Owned()
    modifies c, mine
    ensures c.Contents() == AfterLookup(AfterSet(old(c.Contents()), key, old(mine.ids), now, c.ttl), key, later)
    ensures later <= now + c.ttl ==> again != null && again.ids == old(mine.ids)
    ensures later > now + c.ttl ==> again == null
  {
    c.Set(key, mine, now);
    ghost var stored := c.Contents();
    assert mine !in c.Owned();
    mine.ids := junk;
    assert c.Contents() == stored;
    var got := c.Get(key, later);
    ghost var looked := c.Contents();
    if got != null {
      assert got !in c.Owned();
      got.ids := junk;
      assert c.Contents() == looked;
    }
    again := c.Get(key, later);
    assert AfterLookup(AfterLookup(stored, key, later), key, later) == AfterLookup(stored, key, later);
  }
}
