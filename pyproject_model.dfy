/** The validators and serialisation aliases of the brewing model of
    `pyproject.toml`. */
module PyprojectModel {
  import opened Wrappers
  import Strings

  /** `ProjectAuthor`: an optional name and an optional email. */
  datatype ProjectAuthor = ProjectAuthor(name: Option<string>, email: Option<string>)

  datatype ValueError = NoNameOrEmail

  /** A string field is truthy when it is given and not empty. */
  predicate Truthy(s: Option<string>)
  {
    s.Some? && s.value != ""
  }

  /** `at_least_one_defined`: an author with neither a name nor an email
      (missing or empty) raises; any other author is kept as it is. */
  function AtLeastOneDefined(author: ProjectAuthor): (r: Result<ProjectAuthor, ValueError>)
    ensures r.Success? <==> Truthy(author.name) || Truthy(author.email)
    ensures r.Success? ==> r.value == author
    ensures r.Failure? ==> r.error == NoNameOrEmail
  {
    if !Truthy(author.name) && !Truthy(author.email) then Failure(NoNameOrEmail) else Success(author)
  }

  /** The project name field as given to the model: left out, in which
      case the default None is not validated, or given, possibly as None. */
  datatype NameInput = NameMissing | NameGiven(value: Option<string>)

  /** The `AttributeError` of `None.replace`, when None is given explicitly. */
  datatype AttributeError = NoReplaceOnNone

  /** `Project.valid_name`, the after-validator of `name`: every '-'
      becomes '_'. */
  function ValidName(value: string): (r: string)
    ensures |r| == |value| && '-' !in r
    ensures forall i :: 0 <= i < |value| ==> r[i] == (if value[i] == '-' then '_' else value[i])
  {
    var r := Strings.ReplaceChar(value, '-', '_');
    assert forall i :: 0 <= i < |r| ==> r[i] != '-';
    r
  }

  /** The validated `name` of a Project. */
  function ProjectName(input: NameInput): (r: Result<Option<string>, AttributeError>)
    ensures input.NameMissing? ==> r == Success(None)
    ensures input.NameGiven? && input.value.None? ==> r == Failure(NoReplaceOnNone)
    ensures input.NameGiven? && input.value.Some? ==>
              r == Success(Some(ValidName(input.value.value)))
  {
    match input
    case NameMissing => Success(None)
    case NameGiven(None) => Failure(NoReplaceOnNone)
    case NameGiven(Some(s)) => Success(Some(ValidName(s)))
  }

  /** Normalising a normalised name changes nothing. */
  lemma ValidNameIdempotent(value: string)
    ensures ValidName(ValidName(value)) == ValidName(value)
  {
    var once := ValidName(value);
    assert forall i :: 0 <= i < |once| ==> once[i] != '-';
  }

  /** A name without '-' is kept as it is. */
  lemma ValidNameKeeps(value: string)
    requires '-' !in value
    ensures ValidName(value) == value
  {
    assert forall i :: 0 <= i < |value| ==> value[i] != '-';
  }

  /** The models with their field names in declaration order. */
  datatype ModelName = ProjectModel | BuildSystemModel | PyprojectTomlDataModel

  function Fields(model: ModelName): seq<string>
  {
    match model
    case ProjectModel =>
      ["name", "description", "readme", "version", "dependencies", "requires_python", "authors",
       "license", "keywords", "classifiers", "urls", "entry_points", "scripts"]
    case BuildSystemModel => ["requires", "build_backend"]
    case PyprojectTomlDataModel => ["project", "build_system", "tool"]
  }

  /** The key each field is written under when the model is serialised by
      alias: the declared `serialization_alias`, else the field name. */
  function SerializationKey(model: ModelName, field: string): string
  {
    match (model, field)
    case (ProjectModel, "requires_python") => "requires-python"
    case (ProjectModel, "entry_points") => "entry-points"
    case (BuildSystemModel, "build_backend") => "build-backend"
    case (PyprojectTomlDataModel, "build_system") => "build-system"
    case _ => field
  }

  /** Every field of every model is serialised under its name with each
      '_' written '-', which is the key `pyproject.toml` uses. */
  lemma AliasesHyphenate(model: ModelName, f: string)
    requires f in Fields(model)
    ensures SerializationKey(model, f) == Strings.ReplaceChar(f, '_', '-')
  {
    match model
    case ProjectModel => ProjectKeys(f);
    case BuildSystemModel => BuildSystemKeys(f);
    case PyprojectTomlDataModel => PyprojectTomlDataKeys(f);
  }

  lemma ProjectKeys(f: string)
    requires f in Fields(ProjectModel)
    ensures SerializationKey(ProjectModel, f) == Strings.ReplaceChar(f, '_', '-')
  {
    if f == "requires_python" {
      Hyphenated("requires_python", "requires-python");
    } else if f == "entry_points" {
      Hyphenated("entry_points", "entry-points");
    } else {
      ProjectPlain(f);
      Hyphenated(f, f);
    }
  }

  lemma BuildSystemKeys(f: string)
    requires f in Fields(BuildSystemModel)
    ensures SerializationKey(BuildSystemModel, f) == Strings.ReplaceChar(f, '_', '-')
  {
    if f == "build_backend" {
      Hyphenated("build_backend", "build-backend");
    } else {
      BuildSystemPlain(f);
      Hyphenated(f, f);
    }
  }

  lemma PyprojectTomlDataKeys(f: string)
    requires f in Fields(PyprojectTomlDataModel)
    ensures SerializationKey(PyprojectTomlDataModel, f) == Strings.ReplaceChar(f, '_', '-')
  {
    if f == "build_system" {
      Hyphenated("build_system", "build-system");
    } else {
      PyprojectTomlDataPlain(f);
      Hyphenated(f, f);
    }
  }

  /** The fields other than the aliased ones have no '_'. */
  lemma ProjectPlain(f: string)
    requires f in Fields(ProjectModel) && f != "requires_python" && f != "entry_points"
    ensures '_' !in f
    ensures SerializationKey(ProjectModel, f) == f
  {
  }

  lemma BuildSystemPlain(f: string)
    requires f in Fields(BuildSystemModel) && f != "build_backend"
    ensures '_' !in f
    ensures SerializationKey(BuildSystemModel, f) == f
  {
  }

  lemma PyprojectTomlDataPlain(f: string)
    requires f in Fields(PyprojectTomlDataModel) && f != "build_system"
    ensures '_' !in f
    ensures SerializationKey(PyprojectTomlDataModel, f) == f
  {
  }

  lemma Hyphenated(f: string, key: string)
    requires |f| == |key|
    requires forall j :: 0 <= j < |f| ==> key[j] == if f[j] == '_' then '-' else f[j]
    ensures Strings.ReplaceChar(f, '_', '-') == key
  {
  }
}
