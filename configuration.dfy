/** The configuration holder of cauldron: a `BaseConfiguration` subclass
    can be instantiated only when the class itself assigns every attribute
    annotated anywhere in its hierarchy. */
module Configuration {
  import opened Wrappers
  import Strings

  /** One class statement: the names it annotates and the names it assigns
      in its own body (its `__dict__`). */
  datatype ClassBody = ClassBody(annotations: seq<string>, attributes: seq<string>)

  /** `BaseConfiguration` itself: four annotations, nothing assigned. */
  const BaseBody := ClassBody(["description", "title", "version", "cli_provider"], [])

  /** The `TypeError` of instantiation, listing the missing names. */
  datatype TypeError = MissingAttributes(names: seq<string>)

  /** `get_type_hints(cls)`: the annotations of the class and of all its
      bases. */
  function TypeHints(leaf: ClassBody, bases: seq<ClassBody>): (r: seq<string>)
    ensures forall a :: a in r <==> a in leaf.annotations || exists i :: 0 <= i < |bases| && a in bases[i].annotations
    decreases |bases|
  {
    if bases == [] then leaf.annotations
    else
      var rest := TypeHints(leaf, bases[..|bases| - 1]);
      assert forall i :: 0 <= i < |bases| - 1 ==> bases[..|bases| - 1][i] == bases[i];
      rest + bases[|bases| - 1].annotations
  }

  /** The hinted names the class body does not assign. */
  function Unassigned(hints: seq<string>, attributes: seq<string>): (r: seq<string>)
    ensures forall a :: a in r <==> a in hints && a !in attributes
  {
    if hints == [] then []
    else (if hints[0] in attributes then [] else [hints[0]]) + Unassigned(hints[1..], attributes)
  }

  /** `BaseConfiguration.__new__` for the class `leaf` with bases `bases`:
      a TypeError listing, sorted and without repeats, every hinted name
      the class's own body does not assign; otherwise the instance. */
  function New(leaf: ClassBody, bases: seq<ClassBody>): (r: Result<(), TypeError>)
    ensures r.Success? <==> forall a :: a in TypeHints(leaf, bases) ==> a in leaf.attributes
    ensures r.Failure? ==>
              && r.error.names != []
              && Strings.StrictlySorted(r.error.names)
              && forall a :: a in r.error.names <==> a in TypeHints(leaf, bases) && a !in leaf.attributes
  {
    var missing := Unassigned(TypeHints(leaf, bases), leaf.attributes);
    if missing != [] then
      assert missing[0] in Strings.SortedDistinct(missing);
      Failure(MissingAttributes(Strings.SortedDistinct(missing)))
    else
      Success(())
  }

  /** The four names in sorted order. */
  const SortedBaseNames := ["cli_provider", "description", "title", "version"]

  lemma SortedBaseNamesSorted()
    ensures Strings.StrictlySorted(SortedBaseNames)
  {
    var e := SortedBaseNames;
    assert Strings.Less(e[0], e[1]) && Strings.Less(e[1], e[2]) && Strings.Less(e[2], e[3]);
    Strings.LessTransitive(e[0], e[1], e[2]);
    Strings.LessTransitive(e[1], e[2], e[3]);
    Strings.LessTransitive(e[0], e[2], e[3]);
  }

  /** `BaseConfiguration()` raises, naming the four attributes in sorted
      order. */
  lemma BaseAlwaysFails()
    ensures New(BaseBody, []) == Failure(MissingAttributes(SortedBaseNames))
  {
    var r := New(BaseBody, []);
    assert "description" in TypeHints(BaseBody, []);
    assert r.Failure?;
    SortedBaseNamesSorted();
    assert forall a :: a in r.error.names <==> a in BaseBody.annotations;
    Strings.SortedUnique(r.error.names, SortedBaseNames);
  }

  /** A subclass that assigns the four attributes can be instantiated. */
  lemma CompleteSubclassInstantiates(extra: seq<string>)
    ensures New(ClassBody([], ["description", "title", "version", "cli_provider"] + extra), [BaseBody]).Success?
  {
    var leaf := ClassBody([], ["description", "title", "version", "cli_provider"] + extra);
    forall a | a in TypeHints(leaf, [BaseBody]) ensures a in leaf.attributes {
      assert a in BaseBody.annotations;
    }
  }

  /** Only the class's own body counts: a subclass that inherits every
      attribute from a complete configuration, but assigns none itself,
      still raises for all of them. */
  lemma OnlyOwnDictCounts(attributes: seq<string>)
    requires forall a :: a in BaseBody.annotations ==> a in attributes
    ensures New(ClassBody([], attributes), [BaseBody]).Success?
    ensures New(ClassBody([], []), [ClassBody([], attributes), BaseBody]).Failure?
    ensures forall a :: a in BaseBody.annotations ==>
              a in New(ClassBody([], []), [ClassBody([], attributes), BaseBody]).error.names
  {
    var complete := ClassBody([], attributes);
    var leaf := ClassBody([], []);
    assert forall a :: a in TypeHints(complete, [BaseBody]) ==> a in BaseBody.annotations;
    assert "description" in TypeHints(leaf, [complete, BaseBody]) by {
      assert "description" in [complete, BaseBody][1].annotations;
    }
    forall a | a in BaseBody.annotations ensures a in TypeHints(leaf, [complete, BaseBody]) {
      assert a in [complete, BaseBody][1].annotations;
    }
  }
}
