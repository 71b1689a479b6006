/** Cauldron's resource models: the access-level hierarchy, the selection
    of fields for the generated pydantic schemas, and the check that a
    resource subclass names itself. A resource class is described by the
    parts of it these operations read: its annotations, its dataclass
    fields, its columns and the class attributes it has. */
module ResourceModels {
  import opened Wrappers

  /** `AccessLevel`, from most to least privileged. */
  datatype AccessLevel = Owner | Contributor | Reader
  {
    predicate IsOwner()
    {
      this == Owner
    }

    predicate IsContributor()
    {
      IsOwner() || this == Contributor
    }

    predicate IsReader()
    {
      IsContributor() || this == Reader
    }
  }

  /** The hierarchy: only an owner is an owner, owners and contributors are
      contributors, and every level reads. */
  lemma AccessHierarchy(a: AccessLevel)
    ensures a.IsOwner() <==> a == Owner
    ensures a.IsContributor() <==> a == Owner || a == Contributor
    ensures a.IsReader()
    ensures a.IsOwner() ==> a.IsContributor()
    ensures a.IsContributor() ==> a.IsReader()
  {
  }

  /** A mapped column: its Python type and whether it is nullable. */
  datatype Column = Column(pythonType: string, nullable: bool)

  /** The type of a schema field: the column's type, or that type `| None`. */
  datatype FieldType = Plain(typeName: string) | OrNone(typeName: string)

  /** A field's default: required (`...`) or `None`. */
  datatype FieldDefault = Required | DefaultNone

  datatype Field = Field(name: string, fieldType: FieldType, default: FieldDefault)

  /** A generated pydantic model, which forbids extra keys. */
  datatype Schema = Schema(name: string, forbidExtra: bool, fields: seq<Field>)

  /** The `KeyError` of a field with no column in the class's own dictionary. */
  datatype KeyError = KeyError(key: string)

  /** What the schema generation reads of a resource class. */
  datatype ResourceClass = ResourceClass(
    name: string,
    annotations: seq<string>,
    dataclassFields: seq<string>,
    columns: map<string, Column>,
    attributes: set<string>,
    readOnlyFields: seq<string>,
    summaryFields: seq<string>)

  /** The defaults of `ResourceAttributes`. */
  function DefaultReadOnlyFields(): seq<string>
  {
    ["id", "created", "updated", "type"]
  }

  function DefaultSummaryFields(): seq<string>
  {
    ["id", "type"]
  }

  /** The pydantic field for one class attribute: a nullable column becomes
      optional with default `None`; any other column is required. */
  function FieldFromAttribute(cls: ResourceClass, attr: string): (r: Result<Field, KeyError>)
    ensures r.Failure? <==> attr !in cls.columns
    ensures r.Failure? ==> r.error == KeyError(attr)
    ensures r.Success? ==> r.value.name == attr
                           && r.value.fieldType.typeName == cls.columns[attr].pythonType
                           && (cls.columns[attr].nullable <==> r.value.fieldType.OrNone?)
                           && (cls.columns[attr].nullable <==> r.value.default == DefaultNone)
  {
    if attr !in cls.columns then Failure(KeyError(attr))
    else
      var column := cls.columns[attr];
      if column.nullable then Success(Field(attr, OrNone(column.pythonType), DefaultNone))
      else Success(Field(attr, Plain(column.pythonType), Required))
  }

  /** `a` is `b` with some elements left out, the rest in order. */
  predicate Subsequence(a: seq<string>, b: seq<string>)
    decreases |b|
  {
    if a == [] then true
    else if b == [] then false
    else if a[0] == b[0] then Subsequence(a[1..], b[1..])
    else Subsequence(a, b[1..])
  }

  /** The dataclass fields, in order, that are included and not excluded. */
  function Select(fields: seq<string>, included: seq<string>, excluded: seq<string>): (r: seq<string>)
    ensures forall x :: x in r <==> x in fields && x in included && x !in excluded
    ensures Subsequence(r, fields)
  {
    if fields == [] then []
    else
      var rest := Select(fields[1..], included, excluded);
      if fields[0] in included && fields[0] !in excluded then
        assert [fields[0]] + rest != [] && ([fields[0]] + rest)[1..] == rest;
        [fields[0]] + rest
      else
        SubsequenceDrop(rest, fields);
        rest
  }

  /** Dropping the first element of the longer sequence keeps a subsequence. */
  lemma {:induction false} SubsequenceDrop(a: seq<string>, b: seq<string>)
    requires b != [] && Subsequence(a, b[1..])
    ensures Subsequence(a, b)
    decreases |b|, |a|
  {
    if a != [] && a[0] == b[0] {
      if |b| > 1 {
        SubsequenceTail(a, b[1..]);
      }
    }
  }

  lemma {:induction false} SubsequenceTail(a: seq<string>, b: seq<string>)
    requires a != [] && Subsequence(a, b)
    ensures Subsequence(a[1..], b)
    decreases |b|, |a|
  {
    if a[0] == b[0] {
      if b[1..] != [] {
        SubsequenceDrop(a[1..], b);
      } else {
        assert a[1..] == [];
      }
    } else {
      SubsequenceTail(a, b[1..]);
      SubsequenceDrop(a[1..], b);
    }
  }

  /** One pydantic field per selected name, in order; the first name with
      no column raises. */
  function FieldsFor(cls: ResourceClass, names: seq<string>): (r: Result<seq<Field>, KeyError>)
    ensures r.Success? <==> forall k :: 0 <= k < |names| ==> names[k] in cls.columns
    ensures r.Success? ==> |r.value| == |names|
                           && forall k :: 0 <= k < |names| ==> Success(r.value[k]) == FieldFromAttribute(cls, names[k])
    ensures r.Failure? ==> exists k :: 0 <= k < |names| && names[k] !in cls.columns && r.error == KeyError(names[k])
                                       && forall j :: 0 <= j < k ==> names[j] in cls.columns
  {
    if names == [] then Success([])
    else
      var first :- FieldFromAttribute(cls, names[0]);
      var rest := FieldsFor(cls, names[1..]);
      if rest.Failure? then
        var k :| 0 <= k < |names[1..]| && names[1..][k] !in cls.columns && rest.error == KeyError(names[1..][k])
                 && forall j :: 0 <= j < k ==> names[1..][j] in cls.columns;
        assert names[k + 1] == names[1..][k];
        assert forall j :: 1 <= j < k + 1 ==> names[j] == names[1..][j - 1];
        Failure(rest.error)
      else
        Success([first] + rest.value)
  }

  /** The names a schema is built from: an absent or empty `included` means
      every annotated name; an absent `excluded` excludes nothing. */
  function SelectedNames(cls: ResourceClass, excluded: Option<seq<string>>, included: Option<seq<string>>): seq<string>
  {
    var inc := if included.None? || included.value == [] then cls.annotations else included.value;
    var exc := if excluded.None? then [] else excluded.value;
    Select(cls.dataclassFields, inc, exc)
  }

  /** `create_new_model`: a model that forbids extra keys, with one field
      per selected dataclass field. */
  function CreateNewModel(cls: ResourceClass, name: string, excluded: Option<seq<string>>,
                          included: Option<seq<string>>): (r: Result<Schema, KeyError>)
    ensures r.Success? <==> forall x :: x in SelectedNames(cls, excluded, included) ==> x in cls.columns
    ensures r.Success? ==> r.value.name == name && r.value.forbidExtra
                           && FieldNames(r.value.fields) == SelectedNames(cls, excluded, included)
    ensures r.Failure? ==> var names := SelectedNames(cls, excluded, included);
                           exists k :: 0 <= k < |names| && names[k] == r.error.key && r.error.key !in cls.columns
                                       && forall j :: 0 <= j < k ==> names[j] in cls.columns
  {
    var names := SelectedNames(cls, excluded, included);
    var fields :- FieldsFor(cls, names);
    assert FieldNames(fields) == names by {
      FieldNamesOf(cls, names, fields);
    }
    Success(Schema(name, true, fields))
  }

  function FieldNames(fields: seq<Field>): (r: seq<string>)
    ensures |r| == |fields|
    ensures forall k :: 0 <= k < |fields| ==> r[k] == fields[k].name
  {
    if fields == [] then [] else [fields[0].name] + FieldNames(fields[1..])
  }

  lemma FieldNamesOf(cls: ResourceClass, names: seq<string>, fields: seq<Field>)
    requires |fields| == |names|
    requires forall k :: 0 <= k < |names| ==> Success(fields[k]) == FieldFromAttribute(cls, names[k])
    ensures FieldNames(fields) == names
  {
    forall k | 0 <= k < |names| ensures FieldNames(fields)[k] == names[k] {
      assert FieldFromAttribute(cls, names[k]).value == fields[k];
    }
  }

  /** `ResourceSchemas`. */
  datatype ResourceSchemas = ResourceSchemas(create: Schema, summary: Schema, read: Schema, update: Schema)

  /** `schemas()`: read shows the summary and read-only fields, summary the
      summary fields, and create and update everything but the read-only
      fields. */
  function Schemas(cls: ResourceClass): (r: Result<ResourceSchemas, KeyError>)
    ensures r.Success? ==>
              && CreateNewModel(cls, "Read" + cls.name, None, Some(cls.summaryFields + cls.readOnlyFields)).Success?
              && CreateNewModel(cls, "Summary" + cls.name, None, Some(cls.summaryFields)).Success?
              && CreateNewModel(cls, "Create" + cls.name, Some(cls.readOnlyFields), None).Success?
              && CreateNewModel(cls, "Update" + cls.name, Some(cls.readOnlyFields), None).Success?
              && r.value.read == CreateNewModel(cls, "Read" + cls.name, None, Some(cls.summaryFields + cls.readOnlyFields)).value
              && r.value.summary == CreateNewModel(cls, "Summary" + cls.name, None, Some(cls.summaryFields)).value
              && r.value.create == CreateNewModel(cls, "Create" + cls.name, Some(cls.readOnlyFields), None).value
              && r.value.update == CreateNewModel(cls, "Update" + cls.name, Some(cls.readOnlyFields), None).value
    ensures r.Success? <==> forall x :: x in cls.dataclassFields && x !in cls.columns ==>
                              x !in SelectedNames(cls, None, Some(cls.summaryFields + cls.readOnlyFields))
                              && x !in SelectedNames(cls, None, Some(cls.summaryFields))
                              && x !in SelectedNames(cls, Some(cls.readOnlyFields), None)
    ensures r.Failure? ==>
              var read := CreateNewModel(cls, "Read" + cls.name, None, Some(cls.summaryFields + cls.readOnlyFields));
              var summary := CreateNewModel(cls, "Summary" + cls.name, None, Some(cls.summaryFields));
              var create := CreateNewModel(cls, "Create" + cls.name, Some(cls.readOnlyFields), None);
              r.error == if read.Failure? then read.error else if summary.Failure? then summary.error else create.error
  {
    var read :- CreateNewModel(cls, "Read" + cls.name, None, Some(cls.summaryFields + cls.readOnlyFields));
    var summary :- CreateNewModel(cls, "Summary" + cls.name, None, Some(cls.summaryFields));
    var create :- CreateNewModel(cls, "Create" + cls.name, Some(cls.readOnlyFields), None);
    // The update schema selects the same fields as the create schema, so it
    // cannot fail once that one has succeeded.
    var update := CreateNewModel(cls, "Update" + cls.name, Some(cls.readOnlyFields), None).value;
    Success(ResourceSchemas(create, summary, read, update))
  }

  /** Which fields each schema has, when generation succeeds. */
  lemma SchemaFields(cls: ResourceClass, x: string)
    requires Schemas(cls).Success?
    requires cls.summaryFields != []
    ensures x in FieldNames(Schemas(cls).value.read.fields)
            <==> x in cls.dataclassFields && (x in cls.summaryFields || x in cls.readOnlyFields)
    ensures x in FieldNames(Schemas(cls).value.summary.fields)
            <==> x in cls.dataclassFields && x in cls.summaryFields
    ensures x in FieldNames(Schemas(cls).value.create.fields)
            <==> x in cls.dataclassFields && x in cls.annotations && x !in cls.readOnlyFields
    ensures Schemas(cls).value.create.fields == Schemas(cls).value.update.fields
  {
    assert cls.summaryFields + cls.readOnlyFields != [] by {
      assert |cls.summaryFields + cls.readOnlyFields| >= |cls.summaryFields|;
    }
  }

  /** Read-only fields never appear in the create and update schemas. */
  lemma ReadOnlyNotWritable(cls: ResourceClass, x: string)
    requires Schemas(cls).Success?
    requires x in cls.readOnlyFields
    ensures x !in FieldNames(Schemas(cls).value.create.fields)
    ensures x !in FieldNames(Schemas(cls).value.update.fields)
  {
  }

  /** An empty `summary_fields` makes the summary schema show every
      annotated field, as `included or annotations` treats an empty list
      like a missing one. */
  lemma EmptySummaryShowsAnnotated(cls: ResourceClass)
    requires cls.summaryFields == []
    requires Schemas(cls).Success?
    ensures FieldNames(Schemas(cls).value.summary.fields) == Select(cls.dataclassFields, cls.annotations, [])
  {
  }

  /** The TypeError of a resource subclass without a required name. */
  datatype TypeError = MissingClassAttribute(className: string, attribute: string)

  function RequiredAttributes(): seq<string>
  {
    ["plural_name", "singular_name"]
  }

  /** The first of `names` the class lacks, checked in order. */
  function CheckAttributes(cls: ResourceClass, names: seq<string>): (r: Result<(), TypeError>)
    ensures r.Success? <==> forall x :: x in names ==> x in cls.attributes
    ensures r.Failure? ==> exists k :: 0 <= k < |names|
                             && r.error == MissingClassAttribute(cls.name, names[k])
                             && names[k] !in cls.attributes
                             && forall j :: 0 <= j < k ==> names[j] in cls.attributes
  {
    if names == [] then Success(())
    else if names[0] !in cls.attributes then Failure(MissingClassAttribute(cls.name, names[0]))
    else
      var r := CheckAttributes(cls, names[1..]);
      assert forall x :: x in names ==> x == names[0] || x in names[1..];
      if r.Failure? then
        var k :| 0 <= k < |names[1..]| && r.error == MissingClassAttribute(cls.name, names[1..][k])
                 && names[1..][k] !in cls.attributes
                 && forall j :: 0 <= j < k ==> names[1..][j] in cls.attributes;
        assert names[k + 1] == names[1..][k];
        r
      else r
  }

  /** `Resource.__init_subclass__`: a subclass must define `plural_name`,
      then `singular_name`. */
  function InitSubclass(cls: ResourceClass): (r: Result<(), TypeError>)
    ensures r.Success? <==> "plural_name" in cls.attributes && "singular_name" in cls.attributes
    ensures "plural_name" !in cls.attributes ==> r == Failure(MissingClassAttribute(cls.name, "plural_name"))
    ensures "plural_name" in cls.attributes && "singular_name" !in cls.attributes
            ==> r == Failure(MissingClassAttribute(cls.name, "singular_name"))
  {
    var names := RequiredAttributes();
    assert names[0] == "plural_name" && names[1] == "singular_name";
    assert forall x :: x in names <==> x == "plural_name" || x == "singular_name";
    CheckAttributes(cls, names)
  }
}
