/** The registry of testing database classes: every subclass of
    `TestingDatabase` names the database type it serves and is recorded in a
    single map held by the base class, at most one class per type. */
module TestingRegistry {
  import opened Wrappers

  datatype DatabaseType = Sqlite | Postgresql | Mysql | Mariadb

  /** A subclass of `TestingDatabase`: its name and the `db_type` class
      attribute, which is unset until the class is registered. */
  class TestingClass {
    const name: string
    var dbType: Option<DatabaseType>

    constructor (name: string)
      ensures this.name == name && dbType == None
    {
      this.name := name;
      dbType := None;
    }
  }

  /** The `RuntimeError` for a second class of the same type, naming the
      type and the class already registered for it. */
  datatype RuntimeError = AlreadyRegistered(dbType: DatabaseType, implementation: string)

  /** `TestingDatabase.implementations`, the one map all subclasses share. */
  class Registry {
    var implementations: map<DatabaseType, TestingClass>

    /** Every registered class serves the type it is registered under. */
    ghost predicate Valid()
      reads this, implementations.Values
    {
      forall t :: t in implementations ==> implementations[t].dbType == Some(t)
    }

    constructor ()
      ensures implementations == map[] && Valid()
    {
      implementations := map[];
    }

    /** `__init_subclass__(cls, db_type)`: the type is set on the class
        first; a type already taken raises and keeps the class registered
        before, otherwise the class is recorded under its type. */
    method Register(cls: TestingClass, dbType: DatabaseType) returns (r: Result<(), RuntimeError>)
      requires Valid()
      requires cls !in implementations.Values
      modifies this, cls
      ensures cls.dbType == Some(dbType)
      ensures dbType in old(implementations) ==>
                && r == Failure(AlreadyRegistered(dbType, old(implementations[dbType].name)))
                && implementations == old(implementations)
      ensures dbType !in old(implementations) ==>
                r.Success? && implementations == old(implementations)[dbType := cls]
      ensures Valid()
    {
      cls.dbType := Some(dbType);
      if dbType in implementations {
        var implementation := implementations[dbType];
        return Failure(AlreadyRegistered(dbType, implementation.name));
      }
      implementations := implementations[dbType := cls];
      r := Success(());
    }
  }

  /** The four classes the module defines, one per database type, in the
      order they are declared: each registration succeeds, and afterwards
      every type has exactly its own class. */
  method RegisterBuiltins(registry: Registry)
    returns (sqlite: TestingClass, postgresql: TestingClass, mysql: TestingClass, mariadb: TestingClass)
    requires registry.implementations == map[]
    modifies registry
    ensures registry.Valid()
    ensures registry.implementations
            == map[Sqlite := sqlite, Postgresql := postgresql, Mysql := mysql, Mariadb := mariadb]
    ensures sqlite.name == "TestingSQLite" && postgresql.name == "TestingPostgresql"
    ensures mysql.name == "TestingMySQL" && mariadb.name == "TestingMariaDB"
    ensures forall t: DatabaseType :: t in registry.implementations
  {
    var ok;
    sqlite := new TestingClass("TestingSQLite");
    ok := registry.Register(sqlite, Sqlite);
    postgresql := new TestingClass("TestingPostgresql");
    ok := registry.Register(postgresql, Postgresql);
    mysql := new TestingClass("TestingMySQL");
    ok := registry.Register(mysql, Mysql);
    mariadb := new TestingClass("TestingMariaDB");
    ok := registry.Register(mariadb, Mariadb);
    forall t: DatabaseType ensures t in registry.implementations {
      match t
      case Sqlite => assert Sqlite in registry.implementations;
      case Postgresql => assert Postgresql in registry.implementations;
      case Mysql => assert Mysql in registry.implementations;
      case Mariadb => assert Mariadb in registry.implementations;
    }
  }

  /** Once the built-in classes are registered, declaring another class for
      any type raises and leaves the registry as it was. */
  method RegisterAnother(registry: Registry, name: string, dbType: DatabaseType)
    returns (cls: TestingClass, r: Result<(), RuntimeError>)
    requires registry.Valid()
    requires forall t: DatabaseType :: t in registry.implementations
    modifies registry
    ensures r.Failure? && r.error.dbType == dbType
    ensures registry.implementations == old(registry.implementations)
    ensures cls.dbType == Some(dbType)
  {
    cls := new TestingClass(name);
    r := registry.Register(cls, dbType);
  }
}
