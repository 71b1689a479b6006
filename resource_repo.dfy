/** Cauldron's CRUD repository over an in-memory resource table and access
    table: specialisation by resource type, creation with owner access,
    access-checked reads, field updates, soft deletion, and the access
    rows of a resource. */
module ResourceRepository {
  import opened Wrappers
  import opened ResourceModels

  type ResourceId = int
  type UserId = int
  /** A timestamp, supplied by the caller in place of the clock. */
  type Time = int

  /** A row of the resource table: its polymorphic type, its fields and
      its deletion timestamp. */
  datatype ResourceRow<V> = ResourceRow(kind: string, fields: map<string, V>, deleted: Option<Time>)

  datatype RepoError = NotFound | Forbidden | IntegrityError

  datatype NotImplementedError = NotImplementedError(className: string)

  /** A `ResourceAccessItem`. */
  datatype AccessItem = AccessItem(userId: UserId, access: AccessLevel)

  /** A repository class: its name and, once specialised, its resource type. */
  datatype RepoClass = RepoClass(name: string, dbModel: Option<string>)

  /** `CrudRepository[M]`: a subclass under the same name with `db_model = M`. */
  function ClassGetItem(cls: RepoClass, resourceType: string): (r: RepoClass)
    ensures r.name == cls.name && r.dbModel == Some(resourceType)
  {
    RepoClass(cls.name, Some(resourceType))
  }

  /** Whether the stored access level satisfies the requested one: a
      reader request needs any row, a contributor request an owner or
      contributor, an owner request an owner. */
  predicate Permits(requested: AccessLevel, held: AccessLevel)
  {
    if requested == Reader then true
    else if requested == Contributor then held == Owner || held == Contributor
    else held == Owner
  }

  /** The check follows the hierarchy of access levels. */
  lemma PermitsHierarchy(requested: AccessLevel, held: AccessLevel)
    ensures Permits(requested, held)
            <==> (requested.IsOwner() ==> held.IsOwner()) && (requested.IsContributor() ==> held.IsContributor())
    ensures Permits(requested, Owner)
    ensures Permits(Reader, held)
  {
  }

  /** The updates `setattr` applies, in order: later keys win. */
  function ApplyUpdates<V>(fields: map<string, V>, items: seq<(string, V)>): (r: map<string, V>)
    ensures forall k :: k in r <==> k in fields || exists i :: 0 <= i < |items| && items[i].0 == k
  {
    if items == [] then fields
    else
      var prev := ApplyUpdates(fields, items[..|items| - 1]);
      var last := items[|items| - 1];
      assert forall i :: 0 <= i < |items| - 1 ==> items[..|items| - 1][i] == items[i];
      prev[last.0 := last.1]
  }

  /** A key is set to the value of its last update; other keys keep theirs. */
  lemma {:induction false} ApplyUpdatesValues<V>(fields: map<string, V>, items: seq<(string, V)>, k: string)
    ensures (forall i :: 0 <= i < |items| ==> items[i].0 != k) && k in fields
            ==> ApplyUpdates(fields, items)[k] == fields[k]
    ensures forall i :: 0 <= i < |items| && items[i].0 == k
                        && (forall j :: i < j < |items| ==> items[j].0 != k)
                        ==> ApplyUpdates(fields, items)[k] == items[i].1
    decreases |items|
  {
    if items != [] {
      var init := items[..|items| - 1];
      ApplyUpdatesValues(fields, init, k);
      assert forall i :: 0 <= i < |init| ==> init[i] == items[i];
    }
  }

  /** The access table after the loop of `set_access`: each item sets its
      user's level for the resource, in order. */
  function SetAccessResult(initial: map<(ResourceId, UserId), AccessLevel>, resourceId: ResourceId,
                           items: seq<AccessItem>): map<(ResourceId, UserId), AccessLevel>
  {
    if items == [] then initial
    else
      var item := items[|items| - 1];
      SetAccessResult(initial, resourceId, items[..|items| - 1])[(resourceId, item.userId) := item.access]
  }

  /** The users given in `items` that have no row for the resource. */
  function AddedUsers(initial: map<(ResourceId, UserId), AccessLevel>, resourceId: ResourceId,
                      items: seq<AccessItem>): set<UserId>
  {
    set i | 0 <= i < |items| && (resourceId, items[i].userId) !in initial :: items[i].userId
  }

  /** Some user without a row is given twice. */
  predicate DuplicateNewUser(initial: map<(ResourceId, UserId), AccessLevel>, resourceId: ResourceId,
                             items: seq<AccessItem>)
  {
    exists i, j :: 0 <= i < j < |items| && items[i].userId == items[j].userId
                   && (resourceId, items[i].userId) !in initial
  }

  /** What `set_access` does to the table: a user given in `items` ends at
      the level of its last item; every other row is unchanged. */
  lemma {:induction false} SetAccessEffect(initial: map<(ResourceId, UserId), AccessLevel>, resourceId: ResourceId,
                                           items: seq<AccessItem>, key: (ResourceId, UserId))
    ensures key in SetAccessResult(initial, resourceId, items)
            <==> key in initial || (key.0 == resourceId && exists i :: 0 <= i < |items| && items[i].userId == key.1)
    ensures (key.0 != resourceId || forall i :: 0 <= i < |items| ==> items[i].userId != key.1) && key in initial
            ==> SetAccessResult(initial, resourceId, items)[key] == initial[key]
    ensures key.0 == resourceId ==>
              forall i :: 0 <= i < |items| && items[i].userId == key.1
                          && (forall j :: i < j < |items| ==> items[j].userId != key.1)
                          ==> SetAccessResult(initial, resourceId, items)[key] == items[i].access
    decreases |items|
  {
    if items != [] {
      var init := items[..|items| - 1];
      SetAccessEffect(initial, resourceId, init, key);
      assert forall i :: 0 <= i < |init| ==> init[i] == items[i];
    }
  }

  /** The database: the resource table and the access table, keyed by
      resource and user. */
  class Database<V> {
    var resources: map<ResourceId, ResourceRow<V>>
    var access: map<(ResourceId, UserId), AccessLevel>

    constructor ()
      ensures resources == map[] && access == map[]
    {
      resources := map[];
      access := map[];
    }
  }

  /** A repository bound to one resource type and one user. */
  class Repository<V> {
    const db: Database<V>
    const user: UserId
    const model: string

    constructor (db: Database<V>, user: UserId, model: string)
      ensures this.db == db && this.user == user && this.model == model
    {
      this.db := db;
      this.user := user;
      this.model := model;
    }

    /** The base query finds the resource: a row of this type, not
        deleted, with an access row for this user. */
    predicate Visible(id: ResourceId)
      reads db
    {
      && id in db.resources
      && db.resources[id].kind == model
      && db.resources[id].deleted.None?
      && (id, user) in db.access
    }

    /** `get(resource_id, access_level)`. */
    function Get(id: ResourceId, level: AccessLevel): (r: Result<ResourceRow<V>, RepoError>)
      reads db
      ensures r.Success? <==> Visible(id) && Permits(level, db.access[(id, user)])
      ensures r.Success? ==> r.value == db.resources[id]
      ensures r.Failure? ==> (r.error == NotFound <==> !Visible(id)) && r.error != IntegrityError
    {
      if !Visible(id) then Failure(NotFound)
      else if level == Reader then Success(db.resources[id])
      else
        var held := db.access[(id, user)];
        var allowed := if level == Contributor then held == Owner || held == Contributor else held == Owner;
        if allowed then Success(db.resources[id]) else Failure(Forbidden)
    }

    /** `create`: a new row under a fresh id, owned by this user. */
    method Create(fields: map<string, V>, newId: ResourceId) returns (created: ResourceRow<V>)
      requires newId !in db.resources
      requires forall key :: key in db.access ==> key.0 != newId
      modifies db
      ensures created == ResourceRow(model, fields, None)
      ensures db.resources == old(db.resources)[newId := created]
      ensures db.access == old(db.access)[(newId, user) := Owner]
      ensures Get(newId, Owner) == Success(created)
      ensures GetAccess(newId) == map[user := Owner]
    {
      created := ResourceRow(model, fields, None);
      db.resources := db.resources[newId := created];
      db.access := db.access[(newId, user) := Owner];
      assert UsersOf(newId) == {user};
    }

    /** `update`: a contributor-level read, then every field of the update
        assigned in turn. */
    method Update(id: ResourceId, items: seq<(string, V)>) returns (r: Result<ResourceRow<V>, RepoError>)
      modifies db
      ensures old(Get(id, Contributor)).Failure? ==>
                r == Failure(old(Get(id, Contributor)).error)
                && db.resources == old(db.resources) && db.access == old(db.access)
      ensures old(Get(id, Contributor)).Success? ==>
                var before := old(db.resources[id]);
                && r == Success(before.(fields := ApplyUpdates(before.fields, items)))
                && db.resources == old(db.resources)[id := r.value]
                && db.access == old(db.access)
    {
      var found := Get(id, Contributor);
      if found.Failure? {
        return Failure(found.error);
      }
      var row := found.value;
      var fields := row.fields;
      var i := 0;
      while i < |items|
        invariant 0 <= i <= |items|
        invariant fields == ApplyUpdates(row.fields, items[..i])
      {
        assert items[..i + 1][..i] == items[..i];
        fields := fields[items[i].0 := items[i].1];
        i := i + 1;
      }
      assert items[..i] == items;
      row := row.(fields := fields);
      db.resources := db.resources[id := row];
      r := Success(row);
    }

    /** `delete`: a reader-level read, then the deletion timestamp is set;
        the row stays in the table. */
    method Delete(id: ResourceId, now: Time) returns (r: Result<(), RepoError>)
      modifies db
      ensures old(Get(id, Reader)).Failure? ==>
                r == Failure(old(Get(id, Reader)).error)
                && db.resources == old(db.resources) && db.access == old(db.access)
      ensures old(Get(id, Reader)).Success? ==>
                && r == Success(())
                && db.resources == old(db.resources)[id := old(db.resources[id]).(deleted := Some(now))]
                && db.access == old(db.access)
                && Get(id, Reader) == Failure(NotFound)
    {
      var found := Get(id, Reader);
      if found.Failure? {
        return Failure(found.error);
      }
      db.resources := db.resources[id := found.value.(deleted := Some(now))];
      r := Success(());
    }

    /** The users with an access row for the resource. */
    function UsersOf(resourceId: ResourceId): (r: set<UserId>)
      reads db
      ensures forall u :: u in r <==> (resourceId, u) in db.access
    {
      set key | key in db.access && key.0 == resourceId :: key.1
    }

    /** `get_access`: every access row of the resource, whatever the
        resource's state and the caller's own access. */
    function GetAccess(resourceId: ResourceId): (r: map<UserId, AccessLevel>)
      reads db
      ensures forall u :: u in r <==> (resourceId, u) in db.access
      ensures forall u :: u in r ==> r[u] == db.access[(resourceId, u)]
    {
      map u | u in UsersOf(resourceId) :: db.access[(resourceId, u)]
    }

    /** `get_access_one`. */
    function GetAccessOne(resourceId: ResourceId, userId: UserId): (r: Result<AccessItem, RepoError>)
      reads db
      ensures r.Failure? <==> (resourceId, userId) !in db.access
      ensures r.Failure? ==> r.error == NotFound
      ensures r.Success? ==> r.value == AccessItem(userId, db.access[(resourceId, userId)])
    {
      if (resourceId, userId) in db.access then Success(AccessItem(userId, db.access[(resourceId, userId)]))
      else Failure(NotFound)
    }

    /** `set_access`: existing rows of the given users take the new levels,
        new users get rows, and the resource's rows are returned. */
    method SetAccess(resourceId: ResourceId, items: seq<AccessItem>) returns (r: Result<map<UserId, AccessLevel>, RepoError>)
      modifies db
      ensures db.resources == old(db.resources)
      ensures DuplicateNewUser(old(db.access), resourceId, items) ==>
                r == Failure(IntegrityError) && db.access == old(db.access)
      ensures !DuplicateNewUser(old(db.access), resourceId, items) ==>
                db.access == SetAccessResult(old(db.access), resourceId, items)
                && r == Success(GetAccess(resourceId))
    {
      var initial := db.access;
      var updated := initial;
      var added: set<UserId> := {};
      var conflict := false;
      var i := 0;
      while i < |items|
        invariant 0 <= i <= |items|
        invariant updated == SetAccessResult(initial, resourceId, items[..i])
        invariant added == AddedUsers(initial, resourceId, items[..i])
        invariant conflict <==> DuplicateNewUser(initial, resourceId, items[..i])
      {
        var item := items[i];
        assert items[..i + 1][..i] == items[..i];
        assert items[..i + 1][i] == item;
        ghost var before := items[..i];
        ghost var after := items[..i + 1];
        if (resourceId, item.userId) in initial {
          updated := updated[(resourceId, item.userId) := item.access];
          assert AddedUsers(initial, resourceId, after) == added by {
            assert forall j :: 0 <= j < i ==> after[j] == before[j];
          }
          assert DuplicateNewUser(initial, resourceId, after) <==> DuplicateNewUser(initial, resourceId, before) by {
            assert forall j :: 0 <= j < i ==> after[j] == before[j];
          }
        } else {
          conflict := conflict || item.userId in added;
          updated := updated[(resourceId, item.userId) := item.access];
          assert AddedUsers(initial, resourceId, after) == added + {item.userId} by {
            assert forall j :: 0 <= j < i ==> after[j] == before[j];
          }
          assert DuplicateNewUser(initial, resourceId, after)
                 <==> DuplicateNewUser(initial, resourceId, before) || item.userId in added by {
            assert forall j :: 0 <= j < i ==> after[j] == before[j];
            if item.userId in added {
              var j :| 0 <= j < i && (resourceId, before[j].userId) !in initial && before[j].userId == item.userId;
              assert after[j].userId == after[i].userId;
            }
          }
          added := added + {item.userId};
        }
        i := i + 1;
      }
      assert items[..i] == items;
      if conflict {
        return Failure(IntegrityError);
      }
      db.access := updated;
      r := Success(GetAccess(resourceId));
    }
  }

  /** `CrudRepository(session, user)`: an unspecialised class raises. */
  method NewRepository<V>(cls: RepoClass, db: Database<V>, user: UserId)
    returns (r: Result<Repository<V>, NotImplementedError>)
    ensures cls.dbModel.None? <==> r.Failure?
    ensures r.Failure? ==> r.error == NotImplementedError(cls.name)
    ensures r.Success? ==> fresh(r.value) && r.value.db == db && r.value.user == user
                           && r.value.model == cls.dbModel.value
  {
    if cls.dbModel.None? {
      return Failure(NotImplementedError(cls.name));
    }
    var repo := new Repository(db, user, cls.dbModel.value);
    r := Success(repo);
  }
}
