# Brewing and Cauldron core, modelled in Dafny

This project models the core of the brewing web framework and its
predecessor Cauldron. Both are Python code built on FastAPI, Typer,
pydantic and SQLAlchemy. The model covers these parts:

- **HTTP paths** (`HttpPath`): path components validated against the
  allowed-value pattern, paths built from a string or from a tuple of
  components, the trailing-slash policy, rendering with `str()`, and child
  paths.
- **Viewset endpoint declarations** (`Endpoints`): the path segment classes
  `APIPathComponent`, `APIPathConstant` and `APIPathParam`, the
  `EndpointDecoratorMaker` with `collection`, `path_parameter` and
  `action`, and the endpoint parameters recorded on a decorated function.
- **Dependency propagation** (`DependencyPropagation`): `DEPENDS`
  registrations applied to every route of a router whose path starts with
  the declaring path, and the `apply` that the native endpoint decorator
  triggers.
- **The class-based viewset example's store** (`ItemStore`): the item dict
  with its next-id rule, 404 lookup, and histories of replaced and deleted
  items.
- **Resource models and their repository** (`ResourceModels`,
  `ResourceRepository`):
  - access levels and their hierarchy;
  - schema generation (`create_new_model`, `schemas`);
  - the required class attributes of a resource subclass;
  - the CRUD repository over an in-memory resource table and access table,
    with access-checked reads, field updates, soft deletion, and
    `get_access`/`set_access`.
- **Database testing helpers** (`DbTesting`, `TestingRegistry`): the `env`
  overlay of a string mapping and its restore, `persistent_volume`, the
  SQLite database location, and the registry of testing database classes
  keyed by database type.
- **The application entry point** (`BrewingMain`):
  - the `BrewingOptions` context variable with its tokens;
  - `Brewing` with its components and attribute lookup;
  - `load_entrypoint`;
  - `current_project`, which scans upwards for `pyproject.toml`;
  - `main_cli`, which assembles subcommands from entry points.
- **Smaller utilities**:
  - `BaseConfiguration` instantiation (`Configuration`);
  - the `runtime_generic` decorator (`RuntimeGeneric`);
  - the pyproject pydantic models (`PyprojectModel`);
  - `ExcludeCachedProperty.__getstate__` (`Serialization`).

Code that only computes values is modelled as functions. Code that changes
state in place is modelled as classes with `modifies` clauses. This covers
routes, the registry, the options context variable, the environment
mapping, the item store, the repository's tables and class attributes.
Loops in the source that update state are `while` loops proved against
specification functions; loops and comprehensions that only compute or
check a value are recursive functions.

`Strings` holds the string helpers shared by the modules: `str.split`,
`"/".join`, `str.replace` of one character, `sorted(set(...))` as a strict
sort, and the filter that drops empty strings. `Wrappers` holds `Option`
and `Result`. Exceptions are `Failure` values of a `Result` that names the
exception and what its message carries.

## Model

| member | source | states |
|---|---|---|
| Strings.Split | framework/src/brewing/http/path.py:100 | `str.split(sep)`: at least one piece, no piece contains the separator, and joining the pieces with it gives back the string |
| Strings.SplitJoin | framework/src/brewing/http/path.py:100 | splitting the join of separator-free pieces gives back exactly those pieces |
| Strings.SplitAround | framework/src/brewing/http/path.py:100 | splitting `a + sep + b` gives the pieces of `a` followed by the pieces of `b` |
| Strings.ReplaceChar | framework/src/brewing/main.py:153 | one-character `str.replace`: same length, every occurrence replaced, every other character kept |
| Strings.SortedDistinct | packages/cauldron/src/cauldron/configuration.py:35 | `sorted(set(xs))`: strictly increasing in code-point order, with exactly the members of `xs` |
| Strings.SortedUnique | packages/cauldron/src/cauldron/configuration.py:35 | two strictly sorted lists with the same members are equal, so the sorted message is determined by the set of names |
| Strings.NonEmpty | framework/src/brewing/http/path.py:122 | the `if part.value` filter keeps only non-empty values, each from the input |
| Strings.NonEmptyFacts | packages/cauldron/src/cauldron/http/viewset/endpoints.py:50 | a value is kept exactly when it is in the input and non-empty; an input with no empty value is unchanged |
| HttpPath.AllowedValueFacts | framework/src/brewing/http/path.py:38-39 | an allowed value never contains '/', and it matches the constant pattern exactly when it has no braces |
| HttpPath.NewComponent | framework/src/brewing/http/path.py:44-51 | a component is created exactly when the whole value is allowed; otherwise PathValidationError names the value; `is_constant` holds exactly when the value has no braces; the trailing slash is stored as given |
| HttpPath.NewComponentAsWritten | framework/src/brewing/http/path.py:38-45 | as written, with `$` also matching before one final newline: the value is accepted when it, or it without a final newline, is allowed, and it agrees with NewComponent on allowed values |
| HttpPath.TrailingNewlineAccepted | framework/src/brewing/http/path.py:38-45 | `"items\n"` passes the as-written check as a constant, but the intended check rejects it |
| HttpPath.NewlinePieceRefused | framework/src/brewing/http/path.py:100-112 | `"items\n"` is a single piece that the as-written check accepts, yet the corrected Parse refuses it as a path and the corrected Child refuses it as a child value |
| HttpPath.DefaultPolicyDecision | framework/src/brewing/http/path.py:71-80 | the default policy asks for a trailing slash exactly on constant components, that is, values without braces |
| HttpPath.FirstInvalid | framework/src/brewing/http/path.py:105-112 | the index of the first piece that fails validation: every earlier piece is allowed, and the one there is not |
| HttpPath.Parse | framework/src/brewing/http/path.py:94-112 | with the corrected component check (see Findings), a path string parses exactly when every `/`-piece is allowed, and the error names the first piece that is not. On success the component values are the pieces and join back to the string; all but the last component defer the slash; the last has a slash exactly when the string is empty or ends in '/' |
| HttpPath.BuildFromText | framework/src/brewing/http/path.py:94-112 | the constructor's loop, with the corrected component check (see Findings), which appends one validated component per piece and raises at the first invalid one, yields exactly Parse's result |
| HttpPath.ParseWellFormed | framework/src/brewing/http/path.py:94-112 | every path parsed from a string is well formed: it has parts, and each is a valid component |
| HttpPath.RenderAsWritten | framework/src/brewing/http/path.py:119-131 | `__str__` as written raises IndexError exactly when the path is not the empty string and all its component values are empty (as for "/") |
| HttpPath.BodyEdges | framework/src/brewing/http/path.py:122 | a non-empty join of the non-empty values of a well-formed path neither starts nor ends with '/' |
| HttpPath.Render | framework/src/brewing/http/path.py:119-131 | the corrected rendering always starts with '/'. It ends with '/' exactly when the last component asks for a slash (explicitly or by the policy) or there is no non-empty value. It equals `__str__` whenever `__str__` does not raise |
| HttpPath.RootSlashRendering | framework/src/brewing/http/path.py:122-123 | `HTTPPath("/")` parses, its as-written rendering raises IndexError, and the corrected one renders "/" |
| HttpPath.Child | framework/src/brewing/http/path.py:133-142 | with the corrected component check (see Findings), a child exists exactly when the value is allowed; otherwise the error names it. A child keeps the parent's components as a prefix, adds one component with the given value and slash, keeps the policy, and is well formed when the parent is |
| HttpPath.SurroundedBody | framework/src/brewing/http/path.py:100-122 | a canonical path body with optional leading and trailing slashes parses, and its non-empty values join back to the body |
| HttpPath.RenderParse | framework/src/brewing/http/path.py:94-131 | round trip: parsing a canonical body `s`, with or without a leading and a trailing '/', and rendering it gives `"/" + s`, plus '/' exactly when the string had the trailing one |
| HttpPath.ChildRendering | framework/src/brewing/http/path.py:119-142 | a child renders as the parent's body, '/' and the new value, with a trailing slash exactly when it is explicitly requested, or deferred and the policy wants one for the new component |
| HttpPath.ChildNotPrefixOfParent | framework/src/brewing/http/path.py:133-142 | a child's rendering is never a prefix of its parent's rendering |
| Endpoints.PathComponent | packages/cauldron/src/cauldron/http/viewset/endpoints.py:142-149 | `APIPathComponent(value)` returns the value exactly when every character is a letter, digit, '-', '_' or a brace; the ValueError names the value and exactly its invalid characters, and there is at least one |
| Endpoints.PathConstant | packages/cauldron/src/cauldron/http/viewset/endpoints.py:158-163 | a value with a brace is refused first; any other is checked as a component; an accepted constant is allowed and brace-free |
| Endpoints.PathParam | packages/cauldron/src/cauldron/http/viewset/endpoints.py:172-173 | a parameter is the name in braces, accepted exactly when the name's characters are allowed; the error names the braced value |
| Endpoints.ParamNeverConstant | packages/cauldron/src/cauldron/http/viewset/endpoints.py:158-173 | no accepted path parameter is accepted as a path constant |
| Endpoints.NewMaker | packages/cauldron/src/cauldron/http/viewset/endpoints.py:48-50 | the maker keeps exactly the non-empty segments and the given trailing slash; a path with no empty segment is kept as is |
| Endpoints.Collection | packages/cauldron/src/cauldron/http/viewset/endpoints.py:130 | `collection` has no segments and a trailing slash |
| Endpoints.PathParameter | packages/cauldron/src/cauldron/http/viewset/endpoints.py:119-122 | `path_parameter(name)` appends "{name}" and drops the trailing slash, or raises the parameter's ValueError |
| Endpoints.Action | packages/cauldron/src/cauldron/http/viewset/endpoints.py:124-127 | `action(name)` appends the name (an empty name is dropped) and drops the trailing slash, or raises the component's ValueError |
| Endpoints.RecordedPath | packages/cauldron/src/cauldron/http/viewset/endpoints.py:105-107 | the recorded path is absolute. It is "/" when the maker has a trailing slash (`path / "/"` resets it) or no segments. Otherwise splitting it after the root gives back the segments |
| Endpoints.Decorate | packages/cauldron/src/cauldron/http/viewset/endpoints.py:105-117 | the decorator returns the function itself, with endpoint parameters recording the maker's slash, its path, the HTTP method and the arguments |
| Endpoints.NestedDeclaration | packages/cauldron/src/cauldron/http/viewset/endpoints.py:119-130 | `collection.path_parameter("id").action("done")` records "/{id}/done" |
| DependencyPropagation.Missing | framework/src/brewing/http/endpoint_decorator.py:53-61 | the declared functions not among the route's dependencies as `apply` began |
| DependencyPropagation.AddMissing | framework/src/brewing/http/endpoint_decorator.py:53-61 | the route keeps its dependencies as a prefix and gains only declared functions it lacked; afterwards it holds exactly the union |
| DependencyPropagation.MissingNone | framework/src/brewing/http/endpoint_decorator.py:53-61 | a route that already has every declared function gains nothing |
| DependencyPropagation.AddMissingIdempotent | framework/src/brewing/http/endpoint_decorator.py:48-61 | applying the same declarations twice adds nothing the second time |
| DependencyPropagation.AppliedIdempotent | framework/src/brewing/http/endpoint_decorator.py:48-61 | `apply` is idempotent on every route, whether or not its path matches |
| DependencyPropagation.MissingDistinct | framework/src/brewing/http/endpoint_decorator.py:53-61 | distinct declarations add distinct dependencies |
| DependencyPropagation.AddMissingDistinct | framework/src/brewing/http/endpoint_decorator.py:53-61 | a route with distinct dependencies keeps them distinct under distinct declarations |
| DependencyPropagation.DuplicateDeclarationAppendedTwice | framework/src/brewing/http/endpoint_decorator.py:52-61 | the dependency list read before the loop is not updated by it, so one function declared twice is appended twice |
| DependencyPropagation.DeclarationOrderIrrelevant | framework/src/brewing/http/endpoint_decorator.py:71-74 | applying after each declaration gives the same route dependencies as applying once after all of them |
| DependencyPropagation.ChildDependencyMissesParent | framework/src/brewing/http/endpoint_decorator.py:58 | a dependency declared on a child path never reaches a route of the parent path |
| DependencyPropagation.DependencyDecorator.ApplyTo | framework/src/brewing/http/endpoint_decorator.py:51-61 | one route gains the declared functions it lacks when its path starts with the declaring path |
| DependencyPropagation.DependencyDecorator.Apply | framework/src/brewing/http/endpoint_decorator.py:48-61 | every route of the router is updated this way, each through its own object |
| DependencyPropagation.DependencyDecorator.Depends | framework/src/brewing/http/endpoint_decorator.py:71-74 | the decorator returns the function, appends it to the declarations and applies all of them to every route |
| DependencyPropagation.RegisterEndpointAsWritten | framework/src/brewing/http/endpoint_decorator.py:92-98 | as written, `apply` runs before FastAPI adds the route, so the new route has only its own dependencies |
| DependencyPropagation.DeclaredBeforeEndpointMissed | framework/src/brewing/http/endpoint_decorator.py:92-98 | a DEPENDS declared before the only endpoint of "/items/" does not reach it |
| DependencyPropagation.RegisterEndpoint | framework/src/brewing/http/endpoint_decorator.py:92-98 | corrected: the route is added and then `apply` runs, so the new route gains every declared dependency it lacks |
| DependencyPropagation.DeclaredBeforeEndpointReached | framework/src/brewing/http/endpoint_decorator.py:92-98 | with the correction, a DEPENDS declared before the endpoint reaches it |
| ItemStore.Max | framework/src/brewing/http/tests/test_classbased.py:34 | `sorted(keys)[-1]` is the largest id: it is one of the ids and no id exceeds it |
| ItemStore.ValuesAt | framework/src/brewing/http/tests/test_classbased.py:28 | the values stored under the given keys, position by position |
| ItemStore.Without | framework/src/brewing/http/tests/test_classbased.py:75 | `del` keeps every other id in order and no longer holds the deleted one |
| ItemStore.WithoutDistinct | framework/src/brewing/http/tests/test_classbased.py:75 | ids stay distinct after a deletion |
| ItemStore.Store.NextId | framework/src/brewing/http/tests/test_classbased.py:33-36 | the next id is 1 in an empty store, otherwise one more than the largest id; it is never in use |
| ItemStore.Store.ListItems | framework/src/brewing/http/tests/test_classbased.py:25-28 | the listing has one entry per stored id, in insertion order: entry i is the item stored under the i-th id, so it holds exactly the stored items with their repetitions |
| ItemStore.Store.Item | framework/src/brewing/http/tests/test_classbased.py:43-51 | the stored item when the id is present, otherwise HTTPException 404 for that id |
| ItemStore.Store.Create | framework/src/brewing/http/tests/test_classbased.py:30-39 | the item is stored under the next id, appended to the listing, and returned; histories are unchanged |
| ItemStore.Store.Update | framework/src/brewing/http/tests/test_classbased.py:57-68 | a missing id gives 404 and no change. Otherwise the old item is appended to that id's replaced history, a history created if absent or empty, and the new item is stored |
| ItemStore.Store.Delete | framework/src/brewing/http/tests/test_classbased.py:70-75 | a missing id gives 404 and no change. Otherwise the item is appended to that id's deleted history and the id is removed, so a later lookup gives 404 |
| ItemStore.NextIdDetermined | framework/src/brewing/http/tests/test_classbased.py:33-36 | the next id depends only on the set of stored ids |
| ResourceModels.AccessHierarchy | packages/cauldron/src/cauldron/resources/models.py:56-63 | `is_owner` only for owner, `is_contributor` for owner and contributor, `is_reader` for all; each level implies the next |
| ResourceModels.FieldFromAttribute | packages/cauldron/src/cauldron/resources/models.py:93-101 | an attribute without a column raises KeyError. Otherwise the field has its name and Python type; a nullable column gives an optional type with default None, any other a required field |
| ResourceModels.Select | packages/cauldron/src/cauldron/resources/models.py:116-120 | the dataclass fields that are included and not excluded, in dataclass order |
| ResourceModels.FieldsFor | packages/cauldron/src/cauldron/resources/models.py:116-120 | one field per name in order; the result is a failure exactly when some name has no column, and the KeyError names the first name without one, every earlier name having a column |
| ResourceModels.CreateNewModel | packages/cauldron/src/cauldron/resources/models.py:103-121 | the model is forbid-extra and named as asked, and its field names are exactly the selected names. An absent or empty `included` means every annotation; an absent `excluded` excludes nothing. It fails exactly when a selected name has no column, and the KeyError names the first such selected name |
| ResourceModels.Schemas | packages/cauldron/src/cauldron/resources/models.py:123-160 | read from the summary and read-only fields, summary from the summary fields, create and update from everything but the read-only fields. It succeeds exactly when no field those select lacks a column; otherwise the KeyError is the read schema's, else the summary's, else the create schema's, in the order they are built |
| ResourceModels.SchemaFields | packages/cauldron/src/cauldron/resources/models.py:123-160 | read shows a dataclass field exactly when it is a summary or read-only field; summary exactly when it is a summary field; create exactly when annotated and not read-only; update equals create |
| ResourceModels.ReadOnlyNotWritable | packages/cauldron/src/cauldron/resources/models.py:141-154 | no read-only field appears in the create or update schema |
| ResourceModels.EmptySummaryShowsAnnotated | packages/cauldron/src/cauldron/resources/models.py:111 | an empty `summary_fields` makes the summary schema show every annotated field, since `included or annotations` treats the empty list as missing |
| ResourceModels.CheckAttributes | packages/cauldron/src/cauldron/resources/models.py:173-176 | the check passes exactly when the class has all the names; the TypeError names the first missing one |
| ResourceModels.InitSubclass | packages/cauldron/src/cauldron/resources/models.py:171-176 | a resource subclass needs `plural_name` and then `singular_name`; the error names the first of them it lacks |
| ResourceRepository.ClassGetItem | cauldron/src/cauldron/resources/repo.py:31-32 | `CrudRepository[M]` keeps the class name and sets `db_model` to M |
| ResourceRepository.PermitsHierarchy | cauldron/src/cauldron/resources/repo.py:75-88 | the level check in `get` is the access hierarchy: a request is met exactly by a held level at least as high; owner meets every request and every row meets a reader request |
| ResourceRepository.ApplyUpdates | cauldron/src/cauldron/resources/repo.py:98-99 | the `setattr` loop gives exactly the old fields plus the updated keys |
| ResourceRepository.ApplyUpdatesValues | cauldron/src/cauldron/resources/repo.py:98-99 | an updated key holds the value of its last update; every other field keeps its value |
| ResourceRepository.SetAccessEffect | cauldron/src/cauldron/resources/repo.py:161-172 | after the `set_access` loop a given user has the level of their last item; every other row is unchanged, and rows are added only for the given users of that resource |
| ResourceRepository.Repository.Get | cauldron/src/cauldron/resources/repo.py:68-90 | NotFound exactly when no undeleted row of this type has an access row for the user. Otherwise the row is returned when the held level meets the requested one, else Forbidden |
| ResourceRepository.Repository.Create | cauldron/src/cauldron/resources/repo.py:49-60 | a new undeleted row of this type under the new id, and an owner access row for the user, so the creator can read it at owner level and is its only user |
| ResourceRepository.Repository.Update | cauldron/src/cauldron/resources/repo.py:92-103 | without contributor access the error of `get` and no change; otherwise the row's fields are the ApplyUpdates result and nothing else changes |
| ResourceRepository.Repository.Delete | cauldron/src/cauldron/resources/repo.py:105-108 | without read access the error of `get` and no change; otherwise the row stays with its deletion time set, and a later `get` says NotFound |
| ResourceRepository.Repository.UsersOf | cauldron/src/cauldron/resources/repo.py:113-118 | the users with an access row for the resource |
| ResourceRepository.Repository.GetAccess | cauldron/src/cauldron/resources/repo.py:120-130 | exactly the access rows of the resource, user to level, whatever the resource's state |
| ResourceRepository.Repository.GetAccessOne | cauldron/src/cauldron/resources/repo.py:132-147 | the user's row for the resource, or NotFound exactly when there is none |
| ResourceRepository.Repository.SetAccess | cauldron/src/cauldron/resources/repo.py:149-174 | a user without a row given twice fails the commit with IntegrityError and nothing changes. Otherwise the table is the SetAccessResult of the items and the resource's rows are returned |
| ResourceRepository.NewRepository | cauldron/src/cauldron/resources/repo.py:34-47 | an unspecialised class raises NotImplementedError naming it; a specialised one gives a repository of its model for the session and user |
| DbTesting.Keys | framework/src/brewing/db/testing.py:58 | the keys of the items in order |
| DbTesting.Overlay | framework/src/brewing/db/testing.py:58-60 | after the assignments the mapping has the old keys and the new ones, and keys not assigned keep their values |
| DbTesting.OverlayAt | framework/src/brewing/db/testing.py:58-60 | with distinct keys each new key holds its new value |
| DbTesting.Saved | framework/src/brewing/db/testing.py:57-59 | `orig` holds, for each new key in order, its previous value or None |
| DbTesting.Enter | framework/src/brewing/db/testing.py:57-60 | entering saves exactly the Saved values and leaves the mapping as the Overlay |
| DbTesting.EnterStep | framework/src/brewing/db/testing.py:58-60 | one step of the loop saves the key's value from before any assignment and then assigns it |
| DbTesting.Exit | framework/src/brewing/db/testing.py:64-68 | the restore loop gives the Restore result, and KeyError exactly when Restore meets a key that had no value and is gone |
| DbTesting.RestoreStops | framework/src/brewing/db/testing.py:64-68 | after the raising item nothing else is restored |
| DbTesting.EnterExitRoundTrip | framework/src/brewing/db/testing.py:53-68 | entering and leaving with an untouched body gives back the mapping exactly, without error |
| DbTesting.RestoreAfterBody | framework/src/brewing/db/testing.py:57-68 | whatever the body did, leaving restores each new key's old value or removes it and leaves every other key as the body left it. It raises exactly when the body removed a new key that had no old value |
| DbTesting.WithEnv | framework/src/brewing/db/testing.py:53-68 | a raising body propagates its error and leaves the mapping as the body left it, new values included (no `finally`); otherwise the mapping is restored from what the body left, and the `with` raises the restore's KeyError exactly when the restore loop meets a key that is gone (the one it names) |
| DbTesting.PersistentVolume | framework/src/brewing/db/testing.py:43-49 | no volume when the name is missing or empty; otherwise the base path's child of that name |
| DbTesting.CwdFile | framework/src/brewing/db/testing.py:103 | `str(Path.cwd() / name)` starts with the directory and ends with '/' followed by the name, with exactly one '/' between them unless the directory already ends in one, so the whole string is fixed |
| DbTesting.SqliteDatabase | framework/src/brewing/db/testing.py:101-105 | a persisted database is the file db.sqlite in the working directory, otherwise ":memory:" |
| TestingRegistry.Registry.Register | libs/db/src/brewinglib/db/testing.py:16-23 | the class gets its db_type, even when registration then fails. A type already registered raises RuntimeError naming the registered class and leaves the registry unchanged; otherwise the class is added under the type |
| TestingRegistry.RegisterBuiltins | libs/db/src/brewinglib/db/testing.py:43-56 | the four built-in classes fill the registry, one per database type, under their own names, and every type is covered |
| TestingRegistry.RegisterAnother | libs/db/src/brewinglib/db/testing.py:16-22 | once the built-ins are registered, any further testing class raises and leaves the registry unchanged |
| BrewingMain.BrewingOptions.Enter | framework/src/brewing/main.py:41-43 | entering sets the context variable to these options and keeps a fresh, unused token holding the previous value |
| BrewingMain.BrewingOptions.Exit | framework/src/brewing/main.py:45-47 | leaving resets the variable to the token's previous value and uses up the token. A used token raises RuntimeError and changes nothing; with no token nothing happens |
| BrewingMain.Current | framework/src/brewing/main.py:49-59 | the current options exactly when some are set, otherwise NoCurrentOptions |
| BrewingMain.WithOptions | framework/src/brewing/main.py:41-59 | inside `with options:` the current options are those options; afterwards there are none again |
| BrewingMain.NestedOptions | framework/src/brewing/main.py:41-59 | inside a nested block the inner options are current; after it, the outer ones again |
| BrewingMain.Lookup | framework/src/brewing/main.py:95 | nothing is found exactly when no key is the name; otherwise the value is that of the first item with the name |
| BrewingMain.WithDatabase | framework/src/brewing/main.py:87-89 | merging `{"db": database}` into the components: "db" finds the database and every other name finds what it did before. An existing "db" is replaced in place, otherwise "db" is appended last; the key order is kept |
| BrewingMain.WithDatabaseDistinct | framework/src/brewing/main.py:87-89 | the merged components still have distinct names |
| BrewingMain.GetAttr | framework/src/brewing/main.py:93-97 | attribute access finds exactly the registered components and otherwise raises AttributeError naming the attribute |
| BrewingMain.Registration | framework/src/brewing/main.py:90-91 | the `register` calls the loop makes and the exception that stopped it (a specification function; see RegistrationOutcome) |
| BrewingMain.RegistrationStops | framework/src/brewing/main.py:90-91 | after a `register` call raises, no later component is registered |
| BrewingMain.RegistrationOutcome | framework/src/brewing/main.py:90-91 | no exception exactly when every component's `register` returns, and then every component is registered in order; otherwise the calls are the components up to the first one that raises, whose exception is the outcome |
| BrewingMain.NewBrewing | framework/src/brewing/main.py:82-91 | without current options NoCurrentOptions and nothing registered; otherwise the merged components, the database under "db", are registered in order as Registration says; the first `register` that raises aborts the construction with its exception, else the instance holds the merged components with distinct keys |
| BrewingMain.LoadEntrypoint | framework/src/brewing/main.py:100-115 | an entry point loads exactly when it is a CLI, a Brewing, or a callable returning a CLI, which is then called exactly once. The result is the CLI or Brewing, and the TypeError names the original object |
| BrewingMain.CallableBrewingRefused | framework/src/brewing/main.py:105-115 | a Brewing is accepted directly, but a callable returning one is refused, although the TypeError's text allows it |
| BrewingMain.LoadEntrypointAsDocumented | framework/src/brewing/main.py:105-115 | the loader the TypeError describes: like LoadEntrypoint, but a callable may also return a Brewing |
| BrewingMain.CallableBrewingAccepted | framework/src/brewing/main.py:105-115 | the documented loader takes a callable returning a Brewing and agrees with the code on every other object |
| BrewingMain.Ancestors | framework/src/brewing/main.py:122 | `[search_dir] + parents`: the directory and every ancestor up to the root, nearest first |
| BrewingMain.Scan | framework/src/brewing/main.py:121-130 | no project exactly when no directory has the file. Otherwise the first directory with a file decides: its project name, ValueError when it lacks one, or its decode error |
| BrewingMain.CurrentProject | framework/src/brewing/main.py:118-130 | the same over the search directory, or the working directory when none is given, and its ancestors: the nearest file upwards decides |
| BrewingMain.AncestorsScan | framework/src/brewing/main.py:121-130 | scanning the ancestors in order is the same as taking the deepest directory prefix that has a file |
| BrewingMain.BrewingGroup | framework/src/brewing/main.py:147-151 | keeps exactly the entry points of group "brewing", and no more of them than were given |
| BrewingMain.BrewingGroupConcat | framework/src/brewing/main.py:147-151 | the filter works in order: on a concatenation it is the filter of each part, one after the other |
| BrewingMain.BrewingGroupSingle | framework/src/brewing/main.py:147-151 | one entry point is kept exactly when it is of group "brewing"; with BrewingGroupConcat this fixes order and repetitions |
| BrewingMain.ModuleProject | framework/src/brewing/main.py:153 | the top-level package (the longest prefix of the module path that has no '.', followed by '.' or the end) with each '_' written '-' and every other character kept |
| BrewingMain.AddEntrypoint | framework/src/brewing/main.py:152-158 | one pass of the loop asks the provider, merges the entry point unnamed when its module is the current project and then adds it under its name, stopping at the first exception, as the specification pass Step does |
| BrewingMain.SubcommandsStop | framework/src/brewing/main.py:152-158 | once loading an entry point or asking for the project has raised, later entry points change nothing |
| BrewingMain.SubcommandsSucceed | framework/src/brewing/main.py:152-158 | the subcommands are built exactly when every entry point loads and, if there is any, the project provider answers |
| BrewingMain.SubcommandsNamed | framework/src/brewing/main.py:152-158 | every entry point is added under its own name. The only unnamed subcommands come from entry points whose package is the current project |
| BrewingMain.NoProjectNothingUnnamed | framework/src/brewing/main.py:153-157 | without a current project every subcommand is named |
| BrewingMain.MainCli | framework/src/brewing/main.py:133-159 | the CLI is named after the options or "brewing". A missing or empty entry point list falls back to the installed ones. Its subcommands are those of the "brewing" group, and any loader or provider error is propagated |
| Configuration.TypeHints | packages/cauldron/src/cauldron/configuration.py:31 | the type hints are the annotations of the class and every base |
| Configuration.Unassigned | packages/cauldron/src/cauldron/configuration.py:31-33 | the hints that are not attributes in the class's own `__dict__` |
| Configuration.New | packages/cauldron/src/cauldron/configuration.py:30-37 | instantiation succeeds exactly when every type hint is assigned in the class's own `__dict__`. The TypeError lists exactly the missing names, non-empty and sorted |
| Configuration.SortedBaseNamesSorted | packages/cauldron/src/cauldron/configuration.py:35 | the four base names in message order are strictly sorted |
| Configuration.BaseAlwaysFails | packages/cauldron/src/cauldron/configuration.py:25-37 | `BaseConfiguration()` raises, listing cli_provider, description, title and version in that order |
| Configuration.CompleteSubclassInstantiates | packages/cauldron/src/cauldron/configuration.py:25-37 | a direct subclass assigning the four attributes instantiates, whatever else it assigns |
| Configuration.OnlyOwnDictCounts | packages/cauldron/src/cauldron/configuration.py:31-33 | attributes inherited from a complete subclass do not count: its own subclass raises, listing every base attribute |
| RuntimeGeneric.FindClassGetItem | packages/cauldron/src/cauldron/runtime_generic.py:28 | `getattr(cls, "__class_getitem__")` finds the first definition along the class and its bases, or none |
| RuntimeGeneric.Decorate | packages/cauldron/src/cauldron/runtime_generic.py:28-41 | a class that already has the factory, its own or inherited, raises RuntimeError unchanged. Any other class gets a fresh cached factory for the attribute and is returned |
| RuntimeGeneric.Subscript | packages/cauldron/src/cauldron/runtime_generic.py:14-26 | `Cls[T]` on a class with no `__class_getitem__` is not subscriptable; with another implementation, that implementation is called. With the factory the result is the subclass named "Cls[T]" with Cls as base and the attribute bound to T: the cached one for (Cls, T), else a fresh one that is then cached |
| RuntimeGeneric.GetClassAttribute | packages/cauldron/src/cauldron/runtime_generic.py:25 | nothing is found exactly when no class along the bases sets the attribute; otherwise the value is the first one's |
| RuntimeGeneric.SpecialisedAttribute | packages/cauldron/src/cauldron/runtime_generic.py:22-26 | reading the attribute on `Cls[T]` gives T |
| RuntimeGeneric.DecorateTwice | packages/cauldron/src/cauldron/runtime_generic.py:28-35 | decorating a class with no factory, even one with another `__class_getitem__`, succeeds once. A second decoration raises, and so does decorating a specialisation |
| RuntimeGeneric.SubscriptTwice | packages/cauldron/src/cauldron/runtime_generic.py:39 | `Cls[T]` twice gives the identical class |
| PyprojectModel.AtLeastOneDefined | framework/src/brewing/project/pyproject_model.py:11-15 | an author is valid exactly when the name or the email is non-empty, and is returned unchanged; otherwise ValueError |
| PyprojectModel.ValidName | framework/src/brewing/project/pyproject_model.py:39-42 | every '-' becomes '_' and nothing else changes, so no '-' remains |
| PyprojectModel.ProjectName | framework/src/brewing/project/pyproject_model.py:21-42 | a missing name stays None without validation; an explicit None fails in the validator; a given name comes back as ValidName of it |
| PyprojectModel.ValidNameIdempotent | framework/src/brewing/project/pyproject_model.py:39-42 | normalising twice is normalising once |
| PyprojectModel.ValidNameKeeps | framework/src/brewing/project/pyproject_model.py:39-42 | a name without '-' is kept as is |
| PyprojectModel.AliasesHyphenate | framework/src/brewing/project/pyproject_model.py:18-55 | in all three models every field serialises under its own name with '_' replaced by '-', which is the pyproject.toml key |
| PyprojectModel.ProjectKeys | framework/src/brewing/project/pyproject_model.py:18-37 | the same for every field of the project table |
| PyprojectModel.BuildSystemKeys | framework/src/brewing/project/pyproject_model.py:45-49 | the same for the build-system table |
| PyprojectModel.PyprojectTomlDataKeys | framework/src/brewing/project/pyproject_model.py:52-55 | the same for the top-level table |
| Serialization.BaseState | src/brewing/serialization.py:17-22 | `super().__getstate__() or self.__dict__`: a missing or empty dict state falls back to the instance dict, a non-empty one is kept, and any other state stays a non-dict |
| Serialization.Without | src/brewing/serialization.py:24-29 | popping the names keeps exactly the other keys with their values |
| Serialization.GetState | src/brewing/serialization.py:16-30 | a non-dict state raises TypeError. Otherwise a copy of the state comes back without every name the class defines as a cached_property; the instance is not changed |

## Left out

- I/O is not modelled. File reads, TOML parsing, `os.environ`,
  `Path.cwd()`, the clock, the database session and FastAPI's request
  handling become parameters or in-memory values. A decode error of
  `pyproject.toml` is one opaque error value.
- FastAPI's router is reduced to a list of routes with a path and a list
  of dependency functions. `Depends` wrapping and route matching are left
  out. The route objects are assumed distinct (`Router.Valid`).
- `EndpointDecorator.__call__` and `endpoint_function_wrapper` adapt
  annotations and wrap the function. Only the effect on the route's
  dependencies is modelled; annotation adaptation is not part of this
  model.
- SQLAlchemy is not modelled: queries, flush, identity-map caching,
  foreign keys, the polymorphic mapper arguments, `primary_foreign_key_to`
  and the `before_update` listener that stamps `updated`. The
  repository's tables are maps, ids are supplied by the caller, and the
  resource's field values are an opaque type.
- ResourceRepository.Repository.GetAccess: returns the rows as a map from
  user to level, so the order of the list is not modelled.
- ResourceRepository.Repository.SetAccess: the only commit failure
  modelled is a new user given twice.
- `schemas()` being cached per class is left out. The model recomputes
  the schemas, which gives the same value.
- pydantic's model creation, validation and `model_dump`/`model_validate`
  are not modelled. A schema is its name, the forbid-extra flag and its
  fields; a field is its name, its type name and its default.
- `get_type_hints` is modelled on the annotations of a single inheritance
  chain. Forward references and `ClassVar` filtering are not modelled.
- RuntimeGeneric.FindClassGetItem: the class's method resolution order is
  given as a sequence, so multiple inheritance and C3 linearisation are
  not computed. A `__class_getitem__` that is not the factory is only
  known to exist.
- RuntimeGeneric.Subscript: when the `__class_getitem__` found is another
  implementation (such as `typing.Generic`'s), the model records that it
  is called; what it returns is not part of this model.
- `ExcludeCachedProperty` is given the class's `dir()` as a sequence of
  pairs (name, is a cached_property). The order of the state dict is not
  modelled.
- Serialization.BaseState: a non-dict state is assumed to be truthy.
- The options context variable is one shared object with single-threaded
  tokens. Per-task copies of contextvars are not modelled.
- BrewingMain.NewBrewing: `register` is a function of the component's
  name and object; the Brewing instance it also receives, and anything
  the callback does with it, are not modelled.
- BrewingMain.MainCli: the entry point loader is a function, so loading
  the same entry point twice gives the same result. The project provider
  is one value given to every entry point, so the model calls it once
  rather than once per entry point. The Typer application is the list of
  (name, subcommand) pairs added to it.
- Only `FileNotFoundError` counts as a missing `pyproject.toml`. Other
  read errors, and a `project` table that is not a table, are not part of
  this model.
- TestingRegistry.Registry.Register: requires that the class is not
  already registered, because Python runs `__init_subclass__` once per
  new class.
- Endpoints.RecordedPath: a segment containing '/' (not possible through
  `path_parameter` or `action`) would be re-rooted by pathlib; its
  contract then states only that the path is absolute.
- Parse: uses the corrected component check, so a piece ending in a
  newline, which the constructor as written accepts, is refused (see
  Findings and HttpPath.NewlinePieceRefused).
- BuildFromText: the same corrected check as Parse; a piece ending in a
  newline raises where the source lets it through.
- Child: the same corrected check; `path("items\n")` is refused where
  the source returns a child path.
- DbTesting.CwdFile: pathlib's normalisation of the working directory is
  not modelled. The directory is taken to be absolute and normalised.
- The abstract `__init__`, `__enter__` and `__exit__` of the testing
  database classes, the container start-up helpers (`_compose`,
  `_postgresql`, `_mysql`, ...), and the Click/Typer command wiring of
  the CLI are outside the modelled core.

## Findings

| source | as written | input that shows it | evidently intended | confidence | as-written member | corrected member |
|---|---|---|---|---|---|---|
| framework/src/brewing/http/path.py:38-45 | `re.match` with a `$` anchor also matches just before one final newline | `HTTPPathComponent("items\n")` is accepted and marked constant | only letters, digits, '-', '_' (optionally in braces) form a component, so the value is refused | high; not executed | HttpPath.NewComponentAsWritten, HttpPath.TrailingNewlineAccepted, HttpPath.NewlinePieceRefused | HttpPath.NewComponent, HttpPath.Parse, HttpPath.BuildFromText, HttpPath.Child |
| framework/src/brewing/http/path.py:122-123 | `retval[0]` is read after joining only non-empty values, which can be empty | `str(HTTPPath("/", trailing_slash_policy=TrailingSlashPolicy.default()))` raises IndexError | the root path renders as "/" | high; not executed | HttpPath.RenderAsWritten, HttpPath.RootSlashRendering | HttpPath.Render |
| framework/src/brewing/http/endpoint_decorator.py:92-98 | `apply()` runs after `router.get(path)` returns FastAPI's decorator but before that decorator adds the route | a DEPENDS on "/items" followed by the only GET on it leaves the GET without the dependency | a dependency declared earlier on the path reaches the new endpoint | medium (FastAPI adds the route when its decorator is applied); not executed | DependencyPropagation.RegisterEndpointAsWritten, DependencyPropagation.DeclaredBeforeEndpointMissed | DependencyPropagation.RegisterEndpoint, DependencyPropagation.DeclaredBeforeEndpointReached |
| framework/src/brewing/main.py:105-115 | a callable entry point is accepted only when its call returns a CLI | an entry point loading to a function that returns a Brewing instance raises TypeError | the TypeError's own text allows "a callable returning such", that is a CLI or a Brewing | low (the message may be the part that is wrong); not executed | BrewingMain.LoadEntrypoint, BrewingMain.CallableBrewingRefused | BrewingMain.LoadEntrypointAsDocumented, BrewingMain.CallableBrewingAccepted |
