/** The top-level application object of the brewing framework: the
    application options made current by a `with` block, the application
    that merges its components with the database and registers each of
    them, the loading of packaging entry points, the lookup of the current
    project and the assembly of the main command line. `C` stands for the
    component objects (the database is one of them) and `T` for the Typer
    applications the entry points provide. */
module BrewingMain {
  import opened Wrappers
  import Strings

  // ---------------------------------------------------------------------
  // BrewingOptions and the current-options context variable
  // ---------------------------------------------------------------------

  /** `BrewingOptions.current_options`, the class-level context variable:
      the options currently set, if any. */
  class OptionsVar<C> {
    var value: Option<BrewingOptions<C>>

    constructor ()
      ensures value == None
    {
      value := None;
    }
  }

  /** The token `ContextVar.set` returns: the value it replaced, and whether
      it has already been used to reset the variable. */
  class Token<C> {
    const previous: Option<BrewingOptions<C>>
    var used: bool

    constructor (previous: Option<BrewingOptions<C>>)
      ensures this.previous == previous && !used
    {
      this.previous := previous;
      used := false;
    }
  }

  /** The `LookupError` raised by `current()` when no options are set. */
  datatype NoCurrentOptions = NoCurrentOptions

  /** The `RuntimeError` of resetting the variable with a token twice. */
  datatype TokenUsed = TokenUsed

  /** `BrewingOptions`: the application name, its database and the token
      of the last `__enter__`. */
  class BrewingOptions<C> {
    const name: string
    const database: C
    const currentOptions: OptionsVar<C>
    var token: Option<Token<C>>

    constructor (name: string, database: C, currentOptions: OptionsVar<C>)
      ensures this.name == name && this.database == database
      ensures this.currentOptions == currentOptions && token == None
    {
      this.name := name;
      this.database := database;
      this.currentOptions := currentOptions;
      token := None;
    }

    /** `__enter__`: these options become the current ones; the token
        remembers the ones they replace. */
    method Enter() returns (r: BrewingOptions<C>)
      modifies this, currentOptions
      ensures r == this
      ensures currentOptions.value == Some(this)
      ensures token.Some? && fresh(token.value)
      ensures token.value.previous == old(currentOptions.value) && !token.value.used
    {
      var t := new Token(currentOptions.value);
      currentOptions.value := Some(this);
      token := Some(t);
      r := this;
    }

    /** `__exit__`: with a token, the variable is reset to the options the
        token replaced; resetting twice with the same token raises. Without
        a token nothing happens. */
    method Exit() returns (r: Result<(), TokenUsed>)
      modifies currentOptions, if token.Some? then {token.value} else {}
      ensures token.None? ==> r.Success? && currentOptions.value == old(currentOptions.value)
      ensures token.Some? && old(token.value.used) ==>
                r == Failure(TokenUsed) && currentOptions.value == old(currentOptions.value)
      ensures token.Some? && !old(token.value.used) ==>
                && r.Success? && currentOptions.value == token.value.previous && token.value.used
    {
      if token.Some? {
        var t := token.value;
        if t.used {
          return Failure(TokenUsed);
        }
        currentOptions.value := t.previous;
        t.used := true;
      }
      r := Success(());
    }
  }

  /** `BrewingOptions.current()`: the current options, or NoCurrentOptions. */
  function Current<C>(currentOptions: OptionsVar<C>): (r: Result<BrewingOptions<C>, NoCurrentOptions>)
    reads currentOptions
    ensures r.Success? <==> currentOptions.value.Some?
    ensures r.Success? ==> Some(r.value) == currentOptions.value
  {
    if currentOptions.value.Some? then Success(currentOptions.value.value) else Failure(NoCurrentOptions)
  }

  /** A `with options:` block entered with no options current: inside it
      `current()` returns these options, after it `current()` raises
      again. */
  method WithOptions<C>(options: BrewingOptions<C>)
    returns (inside: Result<BrewingOptions<C>, NoCurrentOptions>, after: Result<BrewingOptions<C>, NoCurrentOptions>)
    requires options.currentOptions.value == None
    modifies options, options.currentOptions
    ensures inside == Success(options)
    ensures after == Failure(NoCurrentOptions)
  {
    var entered := options.Enter();
    inside := Current(options.currentOptions);
    var exited := options.Exit();
    after := Current(options.currentOptions);
  }

  /** Two nested blocks: leaving the inner one makes the outer options
      current again. */
  method NestedOptions<C>(outer: BrewingOptions<C>, inner: BrewingOptions<C>)
    returns (during: Result<BrewingOptions<C>, NoCurrentOptions>, between: Result<BrewingOptions<C>, NoCurrentOptions>)
    requires outer != inner && outer.currentOptions == inner.currentOptions
    modifies outer, inner, outer.currentOptions
    ensures during == Success(inner)
    ensures between == Success(outer)
  {
    var o := outer.Enter();
    var i := inner.Enter();
    during := Current(inner.currentOptions);
    var exited := inner.Exit();
    between := Current(outer.currentOptions);
  }

  // ---------------------------------------------------------------------
  // Brewing: components
  // ---------------------------------------------------------------------

  /** The value of the first item with key `k`, as a dict lookup. */
  function Lookup<C>(items: seq<(string, C)>, k: string): (r: Option<C>)
    ensures r.None? <==> forall i :: 0 <= i < |items| ==> items[i].0 != k
    ensures r.Some? ==> exists i :: 0 <= i < |items| && items[i] == (k, r.value)
                                    && forall j :: 0 <= j < i ==> items[j].0 != k
    decreases |items|
  {
    if items == [] then None
    else if items[0].0 == k then
      assert items[0] == (k, items[0].1);
      Some(items[0].1)
    else
      var rest := Lookup(items[1..], k);
      assert forall i :: 1 <= i < |items| ==> items[i] == items[1..][i - 1];
      assert rest.Some? ==> exists i :: 0 <= i < |items| && items[i] == (k, rest.value)
                                        && forall j :: 0 <= j < i ==> items[j].0 != k by {
        if rest.Some? {
          var i :| 0 <= i < |items[1..]| && items[1..][i] == (k, rest.value)
                   && forall j :: 0 <= j < i ==> items[1..][j].0 != k;
          assert items[i + 1] == (k, rest.value);
          forall j | 0 <= j < i + 1 ensures items[j].0 != k {
            if j > 0 {
              assert items[j] == items[1..][j - 1];
            }
          }
        }
      }
      rest
  }

  /** No key appears twice, as in any dict. */
  predicate DistinctKeys<C>(items: seq<(string, C)>)
  {
    forall i, j :: 0 <= i < j < |items| ==> items[i].0 != items[j].0
  }

  /** `components | {"db": database}`: the keys keep their order, "db"
      holds the database, in its old place or appended. */
  function WithDatabase<C>(components: seq<(string, C)>, database: C): (r: seq<(string, C)>)
    ensures Lookup(r, "db") == Some(database)
    ensures forall k :: k != "db" ==> Lookup(r, k) == Lookup(components, k)
    ensures |r| == |components| + (if Lookup(components, "db").Some? then 0 else 1)
    ensures forall i :: 0 <= i < |components| ==> r[i].0 == components[i].0
    decreases |components|
  {
    if components == [] then [("db", database)]
    else if components[0].0 == "db" then [("db", database)] + components[1..]
    else [components[0]] + WithDatabase(components[1..], database)
  }

  lemma {:induction false} WithDatabaseDistinct<C>(components: seq<(string, C)>, database: C)
    requires DistinctKeys(components)
    ensures DistinctKeys(WithDatabase(components, database))
    decreases |components|
  {
    var r := WithDatabase(components, database);
    if components != [] && components[0].0 != "db" {
      var rest := components[1..];
      assert DistinctKeys(rest) by {
        forall i, j | 0 <= i < j < |rest| ensures rest[i].0 != rest[j].0 {
          assert rest[i] == components[i + 1] && rest[j] == components[j + 1];
        }
      }
      WithDatabaseDistinct(rest, database);
      assert Lookup(rest, components[0].0).None? by {
        forall i | 0 <= i < |rest| ensures rest[i].0 != components[0].0 {
          assert rest[i] == components[i + 1];
        }
      }
      assert Lookup(r[1..], components[0].0).None?;
      forall i, j | 0 <= i < j < |r| ensures r[i].0 != r[j].0 {
        if i == 0 {
          assert r[1..][j - 1] == r[j];
        } else {
          assert r[1..][i - 1] == r[i] && r[1..][j - 1] == r[j];
        }
      }
    } else if components != [] {
      forall i, j | 0 <= i < j < |r| ensures r[i].0 != r[j].0 {
        assert r[i].0 == components[i].0 && r[j].0 == components[j].0;
      }
    }
  }

  /** The `AttributeError` of `__getattr__` for an unknown name. */
  datatype AttributeError = AttributeError(name: string)

  /** `Brewing.__getattr__`, reached for any name that is not one of the
      instance's own attributes: the component of that name, or
      AttributeError. */
  function GetAttr<C>(components: seq<(string, C)>, name: string): (r: Result<C, AttributeError>)
    ensures r.Success? <==> Lookup(components, name).Some?
    ensures r.Success? ==> Some(r.value) == Lookup(components, name)
    ensures r.Failure? ==> r.error == AttributeError(name)
  {
    match Lookup(components, name)
    case Some(c) => Success(c)
    case None => Failure(AttributeError(name))
  }

  /** `Brewing`: the current options, their database, and the components. */
  class Brewing<C> {
    const options: BrewingOptions<C>
    const database: C
    const components: seq<(string, C)>

    constructor (options: BrewingOptions<C>, components: seq<(string, C)>)
      ensures this.options == options && this.database == options.database
      ensures this.components == components
    {
      this.options := options;
      this.database := options.database;
      this.components := components;
    }
  }

  /** Why `Brewing(**components)` raises: no options are current, or a
      component's `register` raised. */
  datatype BrewingError<E> = OptionsMissing | RegisterRaised(error: E)

  /** The registration loop over `items`: the `register(name, brewing)`
      calls made, in order, and the exception that stopped it, if any. */
  function Registration<C, E>(items: seq<(string, C)>, register: (string, C) -> Result<(), E>)
    : (r: (seq<(string, C)>, Option<E>))
  {
    if items == [] then ([], None)
    else
      var prev := Registration(items[..|items| - 1], register);
      var last := items[|items| - 1];
      if prev.1.Some? then prev
      else
        var outcome := register(last.0, last.1);
        (prev.0 + [last], if outcome.Failure? then Some(outcome.error) else None)
  }

  /** Once a `register` call has raised, the later components are not
      registered. */
  lemma {:induction false} RegistrationStops<C, E>(items: seq<(string, C)>, n: nat,
                                                  register: (string, C) -> Result<(), E>)
    requires n <= |items|
    requires Registration(items[..n], register).1.Some?
    ensures Registration(items, register) == Registration(items[..n], register)
    decreases |items| - n
  {
    if n < |items| {
      assert items[..n + 1][..n] == items[..n];
      RegistrationStops(items, n + 1, register);
    } else {
      assert items[..n] == items;
    }
  }

  /** The registration loop calls `register` on every component in turn
      when none raises; otherwise it calls it on the components up to the
      first one that raises, and that exception is the outcome. */
  lemma {:induction false} RegistrationOutcome<C, E>(items: seq<(string, C)>, register: (string, C) -> Result<(), E>)
    ensures var (calls, error) := Registration(items, register);
            && (error.None? <==> forall i :: 0 <= i < |items| ==> register(items[i].0, items[i].1).Success?)
            && (error.None? ==> calls == items)
            && (error.Some? ==>
                  exists k :: 0 <= k < |items| && calls == items[..k + 1]
                    && register(items[k].0, items[k].1) == Failure(error.value)
                    && forall j :: 0 <= j < k ==> register(items[j].0, items[j].1).Success?)
    decreases |items|
  {
    if items != [] {
      var init := items[..|items| - 1];
      var last := |items| - 1;
      RegistrationOutcome(init, register);
      assert forall i :: 0 <= i < |init| ==> init[i] == items[i];
      var prev := Registration(init, register);
      if prev.1.Some? {
        var k :| 0 <= k < |init| && prev.0 == init[..k + 1]
                 && register(init[k].0, init[k].1) == Failure(prev.1.value)
                 && forall j :: 0 <= j < k ==> register(init[j].0, init[j].1).Success?;
        assert init[..k + 1] == items[..k + 1];
      } else {
        assert init + [items[last]] == items;
        if register(items[last].0, items[last].1).Failure? {
          assert items[..last + 1] == items;
        }
      }
    }
  }

  /** `Brewing(**components)`: raises NoCurrentOptions outside a `with`
      block; otherwise the components merged with the database are
      registered under their names, in order, and the first `register` call
      that raises aborts the construction. `registered` lists the
      `register(name, brewing)` calls made. */
  method NewBrewing<C, E>(currentOptions: OptionsVar<C>, components: seq<(string, C)>,
                          register: (string, C) -> Result<(), E>)
    returns (r: Result<Brewing<C>, BrewingError<E>>, registered: seq<(string, C)>)
    requires DistinctKeys(components)
    ensures r == Failure(OptionsMissing) <==> currentOptions.value.None?
    ensures currentOptions.value.None? ==> registered == []
    ensures currentOptions.value.Some? ==>
              var merged := WithDatabase(components, currentOptions.value.value.database);
              var (calls, error) := Registration(merged, register);
              && registered == calls
              && (error.Some? ==> r == Failure(RegisterRaised(error.value)))
              && (error.None? ==>
                    && r.Success?
                    && r.value.options == currentOptions.value.value
                    && r.value.components == merged
                    && DistinctKeys(r.value.components))
  {
    registered := [];
    var current := Current(currentOptions);
    if current.Failure? {
      return Failure(OptionsMissing), registered;
    }
    var options := current.value;
    var merged := WithDatabase(components, options.database);
    WithDatabaseDistinct(components, options.database);
    var brewing := new Brewing(options, merged);
    var i := 0;
    while i < |merged|
      invariant 0 <= i <= |merged|
      invariant Registration(merged[..i], register) == (registered, None)
    {
      assert merged[..i + 1][..i] == merged[..i];
      assert merged[..i + 1][i] == merged[i];
      registered := registered + [merged[i]];
      var outcome := register(merged[i].0, merged[i].1);
      if outcome.Failure? {
        RegistrationStops(merged, i + 1, register);
        return Failure(RegisterRaised(outcome.error)), registered;
      }
      i := i + 1;
    }
    assert merged[..i] == merged;
    r := Success(brewing);
  }

  // ---------------------------------------------------------------------
  // load_entrypoint
  // ---------------------------------------------------------------------

  /** What an entry point loads to: a CLI, a Brewing instance (each with
      its Typer application), a callable with the object a call returns,
      or anything else. */
  datatype PyObject<T> =
    | CliObject(typer: T)
    | BrewingObject(typer: T)
    | CallableObject(produces: PyObject<T>)
    | OtherObject

  /** The `TypeError` for an unsuitable entry point; it shows the object
      as loaded, before any call. */
  datatype TypeError<T> = Unsuitable(obj: PyObject<T>)

  /** `load_entrypoint` on the loaded object: a CLI or a Brewing instance
      is taken as it is; a callable is called once and only a CLI result
      is taken; everything else raises. `calls` counts the calls made. */
  function LoadEntrypoint<T>(obj: PyObject<T>): (r: (Result<PyObject<T>, TypeError<T>>, nat))
    ensures var (result, calls) := r;
            && (result.Success? <==>
                  obj.CliObject? || obj.BrewingObject? || (obj.CallableObject? && obj.produces.CliObject?))
            && (result.Success? ==> result.value.CliObject? || result.value.BrewingObject?)
            && (result.Success? ==> result.value == if obj.CallableObject? then obj.produces else obj)
            && (result.Failure? ==> result.error == Unsuitable(obj))
            && calls <= 1 && (calls == 1 <==> obj.CallableObject?)
  {
    match obj
    case CliObject(_) => (Success(obj), 0)
    case BrewingObject(_) => (Success(obj), 0)
    case OtherObject => (Failure(Unsuitable(obj)), 0)
    case CallableObject(produces) =>
      if produces.CliObject? then (Success(produces), 1) else (Failure(Unsuitable(obj)), 1)
  }

  /** A callable returning a Brewing instance is refused, although a
      Brewing instance itself is accepted and the TypeError's own text
      allows "a callable returning such". */
  lemma CallableBrewingRefused<T>(typer: T)
    ensures LoadEntrypoint(BrewingObject(typer)).0.Success?
    ensures LoadEntrypoint(CallableObject(BrewingObject(typer))).0.Failure?
  {
  }

  /** `load_entrypoint` as its TypeError describes it: a callable may also
      return a Brewing instance. */
  function LoadEntrypointAsDocumented<T>(obj: PyObject<T>): (r: (Result<PyObject<T>, TypeError<T>>, nat))
    ensures var (result, calls) := r;
            && (result.Success? <==>
                  || obj.CliObject? || obj.BrewingObject?
                  || (obj.CallableObject? && (obj.produces.CliObject? || obj.produces.BrewingObject?)))
            && (result.Success? ==> result.value.CliObject? || result.value.BrewingObject?)
            && (result.Success? ==> result.value == if obj.CallableObject? then obj.produces else obj)
            && (result.Failure? ==> result.error == Unsuitable(obj))
            && calls <= 1 && (calls == 1 <==> obj.CallableObject?)
  {
    match obj
    case CliObject(_) => (Success(obj), 0)
    case BrewingObject(_) => (Success(obj), 0)
    case OtherObject => (Failure(Unsuitable(obj)), 0)
    case CallableObject(produces) =>
      if produces.CliObject? || produces.BrewingObject? then (Success(produces), 1)
      else (Failure(Unsuitable(obj)), 1)
  }

  /** The documented loader takes a callable returning a Brewing instance,
      and agrees with the loader as written on everything else. */
  lemma CallableBrewingAccepted<T>(typer: T, obj: PyObject<T>)
    ensures LoadEntrypointAsDocumented(CallableObject(BrewingObject(typer))).0 == Success(BrewingObject(typer))
    ensures !(obj.CallableObject? && obj.produces.BrewingObject?) ==>
              LoadEntrypointAsDocumented(obj) == LoadEntrypoint(obj)
  {
  }

  // ---------------------------------------------------------------------
  // current_project
  // ---------------------------------------------------------------------

  /** An absolute path as its components; the root is `[]`. */
  type Path = seq<string>

  /** What reading and parsing `pyproject.toml` in a directory gives: no
      such file, a document that is not TOML, or a document with or without
      `project.name`. */
  datatype PyprojectFile = Absent | Unparsable | Document(projectName: Option<string>)

  /** The file in directory `dir`; directories not in the map have none. */
  function FileAt(files: map<Path, PyprojectFile>, dir: Path): PyprojectFile
  {
    if dir in files then files[dir] else Absent
  }

  /** How `current_project` fails: no `project.name` in a file (the
      `ValueError`), or a file that does not parse (the TOML decode error,
      which is not caught). Each names the file. */
  datatype ProjectError = NoProjectName(file: Path) | DecodeError(file: Path)

  /** `[search_dir] + list(search_dir.parents)`: the directory, then each
      of its ancestors up to the root. */
  function Ancestors(dir: Path): (r: seq<Path>)
    ensures |r| == |dir| + 1
    ensures forall i :: 0 <= i < |r| ==> r[i] == dir[..|dir| - i]
    decreases |dir|
  {
    if dir == [] then [[]] else [dir] + Ancestors(dir[..|dir| - 1])
  }

  /** What the first existing file gives. */
  function Outcome(dir: Path, file: PyprojectFile): Result<Option<string>, ProjectError>
    requires !file.Absent?
  {
    match file
    case Unparsable => Failure(DecodeError(dir + ["pyproject.toml"]))
    case Document(None) => Failure(NoProjectName(dir + ["pyproject.toml"]))
    case Document(Some(name)) => Success(Some(name))
  }

  /** The loop over candidate directories: directories without the file
      are skipped; the first file decides. */
  function Scan(dirs: seq<Path>, files: map<Path, PyprojectFile>): (r: Result<Option<string>, ProjectError>)
    ensures r == Success(None) <==> forall j :: 0 <= j < |dirs| ==> FileAt(files, dirs[j]).Absent?
    ensures r != Success(None) ==>
              exists i :: 0 <= i < |dirs| && !FileAt(files, dirs[i]).Absent?
                && (forall j :: 0 <= j < i ==> FileAt(files, dirs[j]).Absent?)
                && r == Outcome(dirs[i], FileAt(files, dirs[i]))
    decreases |dirs|
  {
    if dirs == [] then Success(None)
    else if FileAt(files, dirs[0]).Absent? then
      var rest := Scan(dirs[1..], files);
      ScanStep(dirs, files, rest);
      rest
    else Outcome(dirs[0], FileAt(files, dirs[0]))
  }

  /** Skipping a first directory without the file keeps Scan's contract. */
  lemma ScanStep(dirs: seq<Path>, files: map<Path, PyprojectFile>, rest: Result<Option<string>, ProjectError>)
    requires dirs != [] && FileAt(files, dirs[0]).Absent?
    requires rest == Success(None) <==> forall j :: 0 <= j < |dirs[1..]| ==> FileAt(files, dirs[1..][j]).Absent?
    requires rest != Success(None) ==>
               exists i :: 0 <= i < |dirs[1..]| && !FileAt(files, dirs[1..][i]).Absent?
                 && (forall j :: 0 <= j < i ==> FileAt(files, dirs[1..][j]).Absent?)
                 && rest == Outcome(dirs[1..][i], FileAt(files, dirs[1..][i]))
    ensures rest == Success(None) <==> forall j :: 0 <= j < |dirs| ==> FileAt(files, dirs[j]).Absent?
    ensures rest != Success(None) ==>
              exists i :: 0 <= i < |dirs| && !FileAt(files, dirs[i]).Absent?
                && (forall j :: 0 <= j < i ==> FileAt(files, dirs[j]).Absent?)
                && rest == Outcome(dirs[i], FileAt(files, dirs[i]))
  {
    assert forall j :: 1 <= j < |dirs| ==> dirs[j] == dirs[1..][j - 1];
    if rest != Success(None) {
      var i :| 0 <= i < |dirs[1..]| && !FileAt(files, dirs[1..][i]).Absent?
                 && (forall j :: 0 <= j < i ==> FileAt(files, dirs[1..][j]).Absent?)
                 && rest == Outcome(dirs[1..][i], FileAt(files, dirs[1..][i]));
      assert dirs[i + 1] == dirs[1..][i];
      forall j | 0 <= j < i + 1 ensures FileAt(files, dirs[j]).Absent? {
        if j > 0 {
          assert dirs[j] == dirs[1..][j - 1];
        }
      }
    }
  }

  /** `current_project(search_dir)`: starting at the search directory, or
      the working directory when none is given, the nearest directory
      upwards holding a `pyproject.toml` decides; none found gives None. */
  function CurrentProject(searchDir: Option<Path>, cwd: Path, files: map<Path, PyprojectFile>)
    : (r: Result<Option<string>, ProjectError>)
    ensures var dir := if searchDir.Some? then searchDir.value else cwd;
            && (r == Success(None) <==> forall n :: 0 <= n <= |dir| ==> FileAt(files, dir[..n]).Absent?)
            && (r != Success(None) ==>
                  exists n :: 0 <= n <= |dir| && !FileAt(files, dir[..n]).Absent?
                    && (forall m :: n < m <= |dir| ==> FileAt(files, dir[..m]).Absent?)
                    && r == Outcome(dir[..n], FileAt(files, dir[..n])))
  {
    var dir := if searchDir.Some? then searchDir.value else cwd;
    var dirs := Ancestors(dir);
    var r := Scan(dirs, files);
    AncestorsScan(dir, dirs, files, r);
    r
  }

  /** Scan's contract over the ancestors, stated with prefix lengths. */
  lemma AncestorsScan(dir: Path, dirs: seq<Path>, files: map<Path, PyprojectFile>, r: Result<Option<string>, ProjectError>)
    requires dirs == Ancestors(dir) && r == Scan(dirs, files)
    ensures r == Success(None) <==> forall n :: 0 <= n <= |dir| ==> FileAt(files, dir[..n]).Absent?
    ensures r != Success(None) ==>
              exists n :: 0 <= n <= |dir| && !FileAt(files, dir[..n]).Absent?
                && (forall m :: n < m <= |dir| ==> FileAt(files, dir[..m]).Absent?)
                && r == Outcome(dir[..n], FileAt(files, dir[..n]))
  {
    if forall n :: 0 <= n <= |dir| ==> FileAt(files, dir[..n]).Absent? {
      AncestorsAbsent(dir, dirs, files);
    } else {
      var n0 :| 0 <= n0 <= |dir| && !FileAt(files, dir[..n0]).Absent?;
      assert dirs[|dir| - n0] == dir[..n0];
      AncestorsFound(dir, dirs, files, r);
    }
  }

  lemma AncestorsAbsent(dir: Path, dirs: seq<Path>, files: map<Path, PyprojectFile>)
    requires dirs == Ancestors(dir)
    requires forall n :: 0 <= n <= |dir| ==> FileAt(files, dir[..n]).Absent?
    ensures forall j :: 0 <= j < |dirs| ==> FileAt(files, dirs[j]).Absent?
  {
    forall j | 0 <= j < |dirs| ensures FileAt(files, dirs[j]).Absent? {
      assert dirs[j] == dir[..|dir| - j];
    }
  }

  lemma AncestorsFound(dir: Path, dirs: seq<Path>, files: map<Path, PyprojectFile>, r: Result<Option<string>, ProjectError>)
    requires dirs == Ancestors(dir)
    requires r != Success(None)
    requires exists i :: 0 <= i < |dirs| && !FileAt(files, dirs[i]).Absent?
               && (forall j :: 0 <= j < i ==> FileAt(files, dirs[j]).Absent?)
               && r == Outcome(dirs[i], FileAt(files, dirs[i]))
    ensures exists n :: 0 <= n <= |dir| && !FileAt(files, dir[..n]).Absent?
              && (forall m :: n < m <= |dir| ==> FileAt(files, dir[..m]).Absent?)
              && r == Outcome(dir[..n], FileAt(files, dir[..n]))
  {
    var i :| 0 <= i < |dirs| && !FileAt(files, dirs[i]).Absent?
              && (forall j :: 0 <= j < i ==> FileAt(files, dirs[j]).Absent?)
              && r == Outcome(dirs[i], FileAt(files, dirs[i]));
    var n := |dir| - i;
    assert dirs[i] == dir[..n];
    forall m | n < m <= |dir| ensures FileAt(files, dir[..m]).Absent? {
      assert dirs[|dir| - m] == dir[..m];
    }
  }

  // ---------------------------------------------------------------------
  // main_cli
  // ---------------------------------------------------------------------

  /** A packaging entry point: its name, group and module path. */
  datatype EntryPoint = EntryPoint(name: string, group: string, modulePath: string)

  /** The command line `main_cli` returns: its name and the Typer
      applications added to it, with the name each is added under (None
      merges it into the top level). */
  datatype Cli<T> = Cli(name: string, subcommands: seq<(Option<string>, T)>)

  /** The entry points of the "brewing" group, in order. */
  function BrewingGroup(entrypoints: seq<EntryPoint>): (r: seq<EntryPoint>)
    ensures forall e :: e in r <==> e in entrypoints && e.group == "brewing"
    ensures |r| <= |entrypoints|
  {
    if entrypoints == [] then []
    else (if entrypoints[0].group == "brewing" then [entrypoints[0]] else [])
         + BrewingGroup(entrypoints[1..])
  }

  /** The comprehension filters in order: on a concatenation it keeps the
      selection from each part, one after the other, with a single entry
      point kept exactly when it is of the "brewing" group. */
  lemma {:induction false} BrewingGroupConcat(a: seq<EntryPoint>, b: seq<EntryPoint>)
    ensures BrewingGroup(a + b) == BrewingGroup(a) + BrewingGroup(b)
    decreases |a|
  {
    if a == [] {
      assert a + b == b;
    } else {
      assert (a + b)[0] == a[0];
      assert (a + b)[1..] == a[1..] + b;
      BrewingGroupConcat(a[1..], b);
    }
  }

  /** A single entry point is kept exactly when it is of the "brewing"
      group; with BrewingGroupConcat this fixes the selection, order and
      repetitions included. */
  lemma BrewingGroupSingle(e: EntryPoint)
    ensures BrewingGroup([e]) == if e.group == "brewing" then [e] else []
  {
    assert [e][1..] == [];
  }

  /** The distribution name an entry point's module suggests: its top-level
      package, the part before the first '.', with every '_' written '-'. */
  function ModuleProject(modulePath: string): (r: string)
    ensures var top := Strings.Split(modulePath, '.')[0];
            && top <= modulePath && '.' !in top
            && (|top| < |modulePath| ==> modulePath[|top|] == '.')
            && |r| == |top|
            && forall i :: 0 <= i < |r| ==> r[i] == (if top[i] == '_' then '-' else top[i])
    ensures '_' !in r
  {
    var parts := Strings.Split(modulePath, '.');
    var top := parts[0];
    assert |parts| > 1 ==> modulePath == top + ['.'] + Strings.Join(parts[1..], '.');
    var r := Strings.ReplaceChar(top, '_', '-');
    assert forall i :: 0 <= i < |r| ==> r[i] != '_';
    r
  }

  /** The Typer applications the loop adds for `entrypoints`, in order: for
      each, the project provider is asked; when the module's project is the
      current one the loaded application is added unnamed; then it is added
      under the entry point's name. The first exception stops the loop. */
  function Subcommands<T, E>(entrypoints: seq<EntryPoint>, loader: EntryPoint -> Result<T, E>,
                             project: Result<Option<string>, E>): Result<seq<(Option<string>, T)>, E>
  {
    if entrypoints == [] then Success([])
    else
      var prev :- Subcommands(entrypoints[..|entrypoints| - 1], loader, project);
      Step(prev, entrypoints[|entrypoints| - 1], loader, project)
  }

  /** One iteration of the loop, after the additions `prev`. */
  function Step<T, E>(prev: seq<(Option<string>, T)>, e: EntryPoint, loader: EntryPoint -> Result<T, E>,
                      project: Result<Option<string>, E>): Result<seq<(Option<string>, T)>, E>
  {
    var current :- project;
    var unnamed :- if current == Some(ModuleProject(e.modulePath))
                   then (var t :- loader(e); Success([(None, t)]))
                   else Success([]);
    var named :- loader(e);
    Success(prev + unnamed + [(Some(e.name), named)])
  }

  /** Once the loop has raised, the later entry points change nothing. */
  lemma {:induction false} SubcommandsStop<T, E>(entrypoints: seq<EntryPoint>, n: nat, loader: EntryPoint -> Result<T, E>,
                                               project: Result<Option<string>, E>)
    requires n <= |entrypoints|
    requires Subcommands(entrypoints[..n], loader, project).Failure?
    ensures Subcommands(entrypoints, loader, project) == Subcommands(entrypoints[..n], loader, project)
    decreases |entrypoints| - n
  {
    if n < |entrypoints| {
      assert entrypoints[..n + 1][..n] == entrypoints[..n];
      SubcommandsStop(entrypoints, n + 1, loader, project);
    } else {
      assert entrypoints[..n] == entrypoints;
    }
  }

  /** The loop succeeds exactly when every entry point loads and, if there
      is any entry point, the project provider answers. */
  lemma {:induction false} SubcommandsSucceed<T, E>(entrypoints: seq<EntryPoint>, loader: EntryPoint -> Result<T, E>,
                                                  project: Result<Option<string>, E>)
    ensures Subcommands(entrypoints, loader, project).Success?
            <==> (entrypoints == [] || project.Success?)
                 && forall i :: 0 <= i < |entrypoints| ==> loader(entrypoints[i]).Success?
    decreases |entrypoints|
  {
    if entrypoints != [] {
      var init := entrypoints[..|entrypoints| - 1];
      SubcommandsSucceed(init, loader, project);
      assert forall i :: 0 <= i < |init| ==> init[i] == entrypoints[i];
    }
  }

  /** A pass of the loop that succeeds asked the provider, loaded the entry
      point, and added it unnamed exactly when it is the current project. */
  lemma StepShape<T, E>(prev: seq<(Option<string>, T)>, e: EntryPoint, loader: EntryPoint -> Result<T, E>,
                        project: Result<Option<string>, E>)
    requires Step(prev, e, loader, project).Success?
    ensures project.Success? && loader(e).Success?
    ensures Step(prev, e, loader, project).value
            == prev + (if project.value == Some(ModuleProject(e.modulePath)) then [(None, loader(e).value)] else [])
               + [(Some(e.name), loader(e).value)]
  {
  }

  /** On success every entry point is added under its own name with the
      application it loads. */
  lemma {:induction false} SubcommandsAllNamed<T, E>(entrypoints: seq<EntryPoint>, loader: EntryPoint -> Result<T, E>,
                                                   project: Result<Option<string>, E>)
    requires Subcommands(entrypoints, loader, project).Success?
    ensures forall i :: 0 <= i < |entrypoints| ==>
              loader(entrypoints[i]).Success?
              && (Some(entrypoints[i].name), loader(entrypoints[i]).value) in Subcommands(entrypoints, loader, project).value
    decreases |entrypoints|
  {
    if entrypoints != [] {
      var init := entrypoints[..|entrypoints| - 1];
      var e := entrypoints[|entrypoints| - 1];
      SubcommandsAllNamed(init, loader, project);
      var prev := Subcommands(init, loader, project).value;
      SubcommandsLast(entrypoints, loader, project);
      StepShape(prev, e, loader, project);
      var subs := Subcommands(entrypoints, loader, project).value;
      assert prev <= subs;
      forall i | 0 <= i < |entrypoints|
        ensures loader(entrypoints[i]).Success?
                && (Some(entrypoints[i].name), loader(entrypoints[i]).value) in subs
      {
        if i < |init| {
          assert init[i] == entrypoints[i];
        } else {
          assert subs[|subs| - 1] == (Some(e.name), loader(e).value);
        }
      }
    }
  }

  /** Nothing but those additions is made under a name. */
  lemma {:induction false} SubcommandsOnlyNamed<T, E>(entrypoints: seq<EntryPoint>, loader: EntryPoint -> Result<T, E>,
                                                    project: Result<Option<string>, E>)
    requires Subcommands(entrypoints, loader, project).Success?
    ensures var subs := Subcommands(entrypoints, loader, project).value;
            forall k :: 0 <= k < |subs| && subs[k].0.Some? ==>
              exists i :: 0 <= i < |entrypoints| && loader(entrypoints[i]).Success?
                && subs[k] == (Some(entrypoints[i].name), loader(entrypoints[i]).value)
    decreases |entrypoints|
  {
    if entrypoints != [] {
      var init := entrypoints[..|entrypoints| - 1];
      var e := entrypoints[|entrypoints| - 1];
      var last := |entrypoints| - 1;
      SubcommandsOnlyNamed(init, loader, project);
      var prev := Subcommands(init, loader, project).value;
      SubcommandsLast(entrypoints, loader, project);
      StepShape(prev, e, loader, project);
      var subs := Subcommands(entrypoints, loader, project).value;
      var unnamed := if project.value == Some(ModuleProject(e.modulePath)) then [(None, loader(e).value)] else [];
      assert subs == prev + unnamed + [(Some(e.name), loader(e).value)];
      forall k | 0 <= k < |subs| && subs[k].0.Some?
        ensures exists i :: 0 <= i < |entrypoints| && loader(entrypoints[i]).Success?
                  && subs[k] == (Some(entrypoints[i].name), loader(entrypoints[i]).value)
      {
        if k < |prev| {
          assert subs[k] == prev[k];
          var i :| 0 <= i < |init| && loader(init[i]).Success?
                   && prev[k] == (Some(init[i].name), loader(init[i]).value);
          assert init[i] == entrypoints[i];
        } else {
          assert k == |subs| - 1;
          assert entrypoints[last] == e;
        }
      }
    }
  }

  /** An unnamed addition comes from an entry point of the current project. */
  lemma {:induction false} SubcommandsUnnamed<T, E>(entrypoints: seq<EntryPoint>, loader: EntryPoint -> Result<T, E>,
                                                  project: Result<Option<string>, E>)
    requires Subcommands(entrypoints, loader, project).Success?
    ensures var subs := Subcommands(entrypoints, loader, project).value;
            forall k :: 0 <= k < |subs| && subs[k].0.None? ==>
              exists i :: 0 <= i < |entrypoints| && loader(entrypoints[i]).Success?
                && project == Success(Some(ModuleProject(entrypoints[i].modulePath)))
                && subs[k].1 == loader(entrypoints[i]).value
    decreases |entrypoints|
  {
    if entrypoints != [] {
      var init := entrypoints[..|entrypoints| - 1];
      var e := entrypoints[|entrypoints| - 1];
      var last := |entrypoints| - 1;
      SubcommandsUnnamed(init, loader, project);
      var prev := Subcommands(init, loader, project).value;
      SubcommandsLast(entrypoints, loader, project);
      StepShape(prev, e, loader, project);
      var subs := Subcommands(entrypoints, loader, project).value;
      var unnamed := if project.value == Some(ModuleProject(e.modulePath)) then [(None, loader(e).value)] else [];
      assert subs == prev + unnamed + [(Some(e.name), loader(e).value)];
      forall k | 0 <= k < |subs| && subs[k].0.None?
        ensures exists i :: 0 <= i < |entrypoints| && loader(entrypoints[i]).Success?
                  && project == Success(Some(ModuleProject(entrypoints[i].modulePath)))
                  && subs[k].1 == loader(entrypoints[i]).value
      {
        if k < |prev| {
          assert subs[k] == prev[k];
          var i :| 0 <= i < |init| && loader(init[i]).Success?
                   && project == Success(Some(ModuleProject(init[i].modulePath)))
                   && prev[k].1 == loader(init[i]).value;
          assert init[i] == entrypoints[i];
        } else {
          assert k - |prev| < |unnamed|;
          assert entrypoints[last] == e;
        }
      }
    }
  }

  /** On success every entry point is added under its own name with the
      application it loads, nothing else is added under a name, and an
      unnamed addition comes from an entry point of the current project. */
  lemma SubcommandsNamed<T, E>(entrypoints: seq<EntryPoint>, loader: EntryPoint -> Result<T, E>,
                               project: Result<Option<string>, E>)
    requires Subcommands(entrypoints, loader, project).Success?
    ensures var subs := Subcommands(entrypoints, loader, project).value;
            && (forall i :: 0 <= i < |entrypoints| ==>
                  loader(entrypoints[i]).Success?
                  && (Some(entrypoints[i].name), loader(entrypoints[i]).value) in subs)
            && (forall k :: 0 <= k < |subs| && subs[k].0.Some? ==>
                  exists i :: 0 <= i < |entrypoints| && loader(entrypoints[i]).Success?
                    && subs[k] == (Some(entrypoints[i].name), loader(entrypoints[i]).value))
            && (forall k :: 0 <= k < |subs| && subs[k].0.None? ==>
                  exists i :: 0 <= i < |entrypoints| && loader(entrypoints[i]).Success?
                    && project == Success(Some(ModuleProject(entrypoints[i].modulePath)))
                    && subs[k].1 == loader(entrypoints[i]).value)
  {
    SubcommandsAllNamed(entrypoints, loader, project);
    SubcommandsOnlyNamed(entrypoints, loader, project);
    SubcommandsUnnamed(entrypoints, loader, project);
  }

  /** When the current project is not identifiable, nothing is merged into
      the top level. */
  lemma NoProjectNothingUnnamed<T, E>(entrypoints: seq<EntryPoint>, loader: EntryPoint -> Result<T, E>)
    requires Subcommands(entrypoints, loader, Success(None)).Success?
    ensures forall k :: 0 <= k < |Subcommands(entrypoints, loader, Success(None)).value| ==>
              Subcommands(entrypoints, loader, Success(None)).value[k].0.Some?
  {
    SubcommandsNamed(entrypoints, loader, Success(None));
  }

  /** The loop over a non-empty list is the loop over all but its last
      entry point, then one more pass. */
  lemma SubcommandsLast<T, E>(entrypoints: seq<EntryPoint>, loader: EntryPoint -> Result<T, E>,
                              project: Result<Option<string>, E>)
    requires entrypoints != []
    requires Subcommands(entrypoints[..|entrypoints| - 1], loader, project).Success?
    ensures Subcommands(entrypoints, loader, project)
            == Step(Subcommands(entrypoints[..|entrypoints| - 1], loader, project).value,
                    entrypoints[|entrypoints| - 1], loader, project)
  {
  }

  /** One pass of the `main_cli` loop: the project provider is asked, the
      entry point is merged unnamed when its module is the current project,
      and then added under its own name. */
  method AddEntrypoint<T, E>(prev: seq<(Option<string>, T)>, e: EntryPoint, loader: EntryPoint -> Result<T, E>,
                             project: Result<Option<string>, E>)
    returns (r: Result<seq<(Option<string>, T)>, E>)
    ensures r == Step(prev, e, loader, project)
  {
    if project.Failure? {
      return Failure(project.error);
    }
    var unnamed: seq<(Option<string>, T)> := [];
    if project.value == Some(ModuleProject(e.modulePath)) {
      var merged := loader(e);
      if merged.Failure? {
        return Failure(merged.error);
      }
      unnamed := [(None, merged.value)];
    }
    var named := loader(e);
    if named.Failure? {
      return Failure(named.error);
    }
    r := Success(prev + unnamed + [(Some(e.name), named.value)]);
  }

  /** `main_cli`: the command line is named by the given options, or
      "brewing"; the entry points are the given ones, or the installed ones
      when none or an empty list is given; of these only the "brewing"
      group is kept and added in order. */
  method MainCli<T, E>(optionsName: Option<string>, entrypoints: Option<seq<EntryPoint>>,
                       installed: seq<EntryPoint>, loader: EntryPoint -> Result<T, E>,
                       project: Result<Option<string>, E>)
    returns (r: Result<Cli<T>, E>)
    ensures var source := if entrypoints.None? || entrypoints.value == [] then installed else entrypoints.value;
            var expected := Subcommands(BrewingGroup(source), loader, project);
            && (r.Success? <==> expected.Success?)
            && (r.Success? ==> r.value == Cli(if optionsName.Some? then optionsName.value else "brewing", expected.value))
            && (r.Failure? ==> r.error == expected.error)
  {
    var name := if optionsName.Some? then optionsName.value else "brewing";
    var source := if entrypoints.None? || entrypoints.value == [] then installed else entrypoints.value;
    var selected := BrewingGroup(source);
    var subcommands: seq<(Option<string>, T)> := [];
    var i := 0;
    while i < |selected|
      invariant 0 <= i <= |selected|
      invariant Subcommands(selected[..i], loader, project) == Success(subcommands)
    {
      var e := selected[i];
      assert selected[..i + 1][..i] == selected[..i];
      assert selected[..i + 1][i] == e;
      var next := AddEntrypoint(subcommands, e, loader, project);
      SubcommandsLast(selected[..i + 1], loader, project);
      if next.Failure? {
        SubcommandsStop(selected, i + 1, loader, project);
        return Failure(next.error);
      }
      subcommands := next.value;
      i := i + 1;
    }
    assert selected[..i] == selected;
    r := Success(Cli(name, subcommands));
  }
}
