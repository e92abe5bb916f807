/**
 * The store behind the queue: the `Storage` interface with the map semantics of
 * store/memStore.go, reached through the `setData`, `getData` and `delData` of the queue.
 * A write or delete may fail, leaving the store as it was, unless the store is reliable.
 */
module Store {
  import opened Base
  import opened StoreKeys

  class Storage {
    const reliable: bool
    var db: map<Bytes, Bytes>
    ghost var recs: Records   // the same contents seen through the keys of the queue

    ghost predicate Valid()
      reads this
    {
      forall mark: bool {:trigger Opened(mark)} :: Opened(mark) ==> recs == View(db)
    }

    constructor (reliable: bool)
      ensures Valid() && db == map[] && this.reliable == reliable
    {
      this.reliable := reliable;
      db := map[];
      recs := View(map[]);
    }

    method Set(key: Bytes, data: Bytes) returns (ok: bool)
      modifies this`db
      ensures db == if ok then old(db)[key := data] else old(db)
      ensures reliable ==> ok
    {
      ok := *;
      ok := ok || reliable;
      if ok {
        db := db[key := data];
      }
    }

    method Get(key: Bytes) returns (r: Option<Bytes>)
      ensures r == if key in db then Some(db[key]) else None
    {
      return if key in db then Some(db[key]) else None;
    }

    /** Deleting an absent key fails in one store and succeeds in another; either way nothing changes. */
    method Del(key: Bytes) returns (ok: bool)
      modifies this`db
      ensures db == if ok then old(db) - {key} else old(db)
      ensures reliable && key in old(db) ==> ok
    {
      ok := *;
      ok := ok || (reliable && key in db);
      if ok {
        db := db - {key};
      }
    }

    // ----- As the queue uses it, by key -----

    method SetData(key: Bytes, data: Bytes) returns (ok: bool)
      modifies this
      ensures Valid() && db == if ok then old(db)[key := data] else old(db)
      ensures reliable ==> ok
    {
      ok := Set(key, data);
      recs := View(db);
    }

    method GetData(key: Bytes) returns (r: Option<Bytes>)
      ensures r == if key in db then Some(db[key]) else None
    {
      r := Get(key);
    }

    method DelData(key: Bytes) returns (ok: bool)
      modifies this
      ensures Valid() && db == if ok then old(db) - {key} else old(db)
      ensures reliable && key in old(db) ==> ok
    {
      ok := Del(key);
      recs := View(db);
    }

    // ----- The same, by record -----

    method SetRecord(k: Key, data: Bytes) returns (ok: bool)
      requires Valid() && Own(k)
      modifies this
      ensures Valid() && recs == if ok then old(recs)[k := data] else old(recs)
      ensures reliable ==> ok
    {
      assert Opened(true);
      ViewSet(db, k, data);
      ok := SetData(Render(k), data);
    }

    method GetRecord(k: Key) returns (r: Option<Bytes>)
      requires Valid() && Own(k)
      ensures r == if k in recs then Some(recs[k]) else None
    {
      assert Opened(true);
      ViewAt(db, k);
      r := GetData(Render(k));
    }

    method DelRecord(k: Key) returns (ok: bool)
      requires Valid() && Own(k)
      modifies this
      ensures Valid() && recs == if ok then old(recs) - {k} else old(recs)
      ensures reliable ==> recs == old(recs) - {k}
    {
      assert Opened(true);
      ViewDel(db, k);
      ViewAt(db, k);
      ok := DelData(Render(k));
    }
  }
}
