/** The in-memory item store of the class-based viewset example: a dict of
    items keyed by integer id, with the history of replaced and deleted
    items per id. `T` stands for the stored item. */
module ItemStore {
  import opened Wrappers

  /** The `HTTPException` the item lookup raises. */
  datatype HttpError = HttpError(statusCode: int, itemId: int)

  const NotFoundStatus := 404

  /** The largest of a non-empty list of ids. */
  function Max(ids: seq<int>): (m: int)
    requires ids != []
    ensures m in ids
    ensures forall k :: k in ids ==> k <= m
  {
    if |ids| == 1 then ids[0]
    else
      var rest := Max(ids[1..]);
      assert forall k :: k in ids ==> k == ids[0] || k in ids[1..];
      if ids[0] >= rest then ids[0] else rest
  }

  /** The values stored under `keys`, in key order. */
  function ValuesAt<T>(db: map<int, T>, keys: seq<int>): (r: seq<T>)
    requires forall i :: 0 <= i < |keys| ==> keys[i] in db
    ensures |r| == |keys|
    ensures forall i :: 0 <= i < |keys| ==> r[i] == db[keys[i]]
  {
    if keys == [] then [] else [db[keys[0]]] + ValuesAt(db, keys[1..])
  }

  /** The keys without `id`, in order. */
  function Without(keys: seq<int>, id: int): (r: seq<int>)
    ensures forall k :: k in r <==> k in keys && k != id
    ensures |r| <= |keys|
  {
    if keys == [] then []
    else (if keys[0] == id then [] else [keys[0]]) + Without(keys[1..], id)
  }

  predicate Distinct(keys: seq<int>)
  {
    forall i, j :: 0 <= i < j < |keys| ==> keys[i] != keys[j]
  }

  lemma {:induction false} WithoutDistinct(keys: seq<int>, id: int)
    requires Distinct(keys)
    ensures Distinct(Without(keys, id))
    decreases |keys|
  {
    if keys != [] {
      WithoutDistinct(keys[1..], id);
      assert keys[0] !in keys[1..];
      assert keys[0] !in Without(keys[1..], id);
    }
  }

  class Store<T(!new)> {
    /** The ids in insertion order, which is the order of `_db.values()`. */
    var keys: seq<int>
    var db: map<int, T>
    var deleted: map<int, seq<T>>
    var replaced: map<int, seq<T>>

    ghost predicate Valid()
      reads this
    {
      && Distinct(keys)
      && (forall i :: 0 <= i < |keys| ==> keys[i] in db)
      && (forall k :: k in db ==> k in keys)
    }

    constructor ()
      ensures Valid() && db == map[] && keys == [] && deleted == map[] && replaced == map[]
    {
      keys := [];
      db := map[];
      deleted := map[];
      replaced := map[];
    }

    /** The id a new item gets: the largest id plus one, or 1 when empty. */
    function NextId(): (id: int)
      reads this
      requires Valid()
      ensures id !in db
      ensures forall k :: k in db ==> k < id
      ensures db == map[] ==> id == 1
      ensures db != map[] ==> id - 1 in db
    {
      if keys == [] then
        assert forall k :: k !in db;
        1
      else
        assert keys[0] in db;
        Max(keys) + 1
    }

    /** `list_items`: the stored items, in insertion order. */
    function ListItems(): (r: seq<T>)
      reads this
      requires Valid()
      ensures |r| == |db| && |r| == |keys|
      ensures forall i :: 0 <= i < |r| ==> r[i] == db[keys[i]]
      ensures forall x :: x in r <==> exists k :: k in db && db[k] == x
    {
      var r := ValuesAt(db, keys);
      assert forall k :: k in db.Keys <==> k in (set k | k in keys);
      assert db.Keys == set k | k in keys;
      DistinctCardinality(keys);
      forall x | x in r ensures exists k :: k in db && db[k] == x {
        var i :| 0 <= i < |r| && r[i] == x;
        assert db[keys[i]] == x;
      }
      forall x | exists k :: k in db && db[k] == x ensures x in r {
        var k :| k in db && db[k] == x;
        var i :| 0 <= i < |keys| && keys[i] == k;
        assert r[i] == x;
      }
      r
    }

    /** The `item` dependency: the stored item or a 404. */
    function Item(id: int): (r: Result<T, HttpError>)
      reads this
      ensures r.Success? <==> id in db
      ensures r.Success? ==> r.value == db[id]
      ensures r.Failure? ==> r.error == HttpError(NotFoundStatus, id)
    {
      if id in db then Success(db[id]) else Failure(HttpError(NotFoundStatus, id))
    }

    /** `create_item`: the item is stored under the next id and returned. */
    method Create(item: T) returns (r: T, id: int)
      requires Valid()
      modifies this
      ensures Valid()
      ensures r == item
      ensures id == old(NextId())
      ensures db == old(db)[id := item] && keys == old(keys) + [id]
      ensures deleted == old(deleted) && replaced == old(replaced)
      ensures ListItems() == old(ListItems()) + [item]
      ensures Item(id) == Success(item)
    {
      id := NextId();
      ghost var before := ValuesAt(db, keys);
      db := db[id := item];
      keys := keys + [id];
      assert ValuesAt(db, keys) == before + [item];
      r := item;
    }

    /** `update_item`: the current item is pushed onto its replaced history
        and the new one stored in its place. */
    method Update(id: int, item: T) returns (r: Result<T, HttpError>)
      requires Valid()
      modifies this
      ensures Valid()
      ensures r == (if id in old(db) then Success(item) else Failure(HttpError(NotFoundStatus, id)))
      ensures id !in old(db) ==> db == old(db) && keys == old(keys)
                                 && replaced == old(replaced) && deleted == old(deleted)
      ensures id in old(db) ==>
                && db == old(db)[id := item] && keys == old(keys) && deleted == old(deleted)
                && replaced == old(replaced)[id := (if id in old(replaced) then old(replaced)[id] else []) + [old(db)[id]]]
    {
      var current := Item(id);
      if current.Failure? {
        return Failure(current.error);
      }
      if id !in replaced || replaced[id] == [] {
        replaced := replaced[id := []];
      }
      replaced := replaced[id := replaced[id] + [current.value]];
      db := db[id := item];
      r := Success(item);
    }

    /** `delete_item`: the item is pushed onto its deleted history and its
        id removed. */
    method Delete(id: int) returns (r: Result<(), HttpError>)
      requires Valid()
      modifies this
      ensures Valid()
      ensures r == (if id in old(db) then Success(()) else Failure(HttpError(NotFoundStatus, id)))
      ensures id !in old(db) ==> db == old(db) && keys == old(keys)
                                 && replaced == old(replaced) && deleted == old(deleted)
      ensures id in old(db) ==>
                && db == old(db) - {id} && keys == Without(old(keys), id) && replaced == old(replaced)
                && deleted == old(deleted)[id := (if id in old(deleted) then old(deleted)[id] else []) + [old(db)[id]]]
                && Item(id).Failure?
    {
      var current := Item(id);
      if current.Failure? {
        return Failure(current.error);
      }
      if id !in deleted || deleted[id] == [] {
        deleted := deleted[id := []];
      }
      deleted := deleted[id := deleted[id] + [current.value]];
      var remaining := Without(keys, id);
      WithoutDistinct(keys, id);
      assert forall i :: 0 <= i < |remaining| ==> remaining[i] in remaining;
      db := db - {id};
      keys := remaining;
      r := Success(());
    }
  }

  /** Distinct ids count as many as their set. */
  lemma {:induction false} DistinctCardinality(keys: seq<int>)
    requires Distinct(keys)
    ensures |set k | k in keys| == |keys|
    decreases |keys|
  {
    if keys != [] {
      DistinctCardinality(keys[1..]);
      assert (set k | k in keys) == (set k | k in keys[1..]) + {keys[0]};
      assert keys[0] !in keys[1..];
    }
  }

  /** The next id depends only on which ids are stored: one more than the
      largest, or 1. */
  lemma NextIdDetermined<T(!new)>(s: Store<T>, t: Store<T>)
    requires s.Valid() && t.Valid()
    requires s.db.Keys == t.db.Keys
    ensures s.NextId() == t.NextId()
  {
    if s.db != map[] {
      assert s.NextId() - 1 in t.db && t.NextId() - 1 in s.db;
    } else {
      assert t.db == map[] by {
        assert forall k :: k !in t.db.Keys;
      }
    }
  }
}
