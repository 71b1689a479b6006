/** The `runtime_generic(attribute)` class decorator of cauldron: it gives a
    class a cached `__class_getitem__` that turns `Cls[T]` into a generated
    subclass of `Cls` whose class attribute `attribute` is `T`. */
module RuntimeGeneric {
  import opened Wrappers

  /** A class's own `__class_getitem__`: the cached subclass factory one
      decoration installed, or some other implementation (such as the one
      `typing.Generic` provides). */
  datatype ClassGetItem = FactoryGetter(factory: Factory) | OtherGetter

  /** One decoration's `cache(concrete_subclass_factory)`: the attribute it
      fills, and the classes made so far, keyed by the class subscripted
      and the type argument. */
  class Factory {
    const attribute: string
    var cache: map<(PyClass, PyClass), PyClass>

    /** Every cached class is the specialisation of its key. */
    ghost predicate Valid()
      reads this
    {
      forall key :: key in cache ==> Specialises(cache[key], key.0, key.1, attribute)
    }

    constructor (attribute: string)
      ensures this.attribute == attribute && cache == map[] && Valid()
    {
      this.attribute := attribute;
      cache := map[];
    }
  }

  /** A class object: its name, its method resolution order after itself,
      its own class attributes, and its own `__class_getitem__`, if any. */
  class PyClass {
    const name: string
    const mro: seq<PyClass>
    const attributes: map<string, PyClass>
    var classGetItem: Option<ClassGetItem>

    constructor (name: string, mro: seq<PyClass>, attributes: map<string, PyClass>)
      ensures this.name == name && this.mro == mro && this.attributes == attributes
      ensures classGetItem == None
    {
      this.name := name;
      this.mro := mro;
      this.attributes := attributes;
      classGetItem := None;
    }
  }

  /** `sub` is `cls[t]` as the factory builds it: named "Cls[T]", a direct
      subclass of `cls`, with `t` as its only own attribute. */
  ghost predicate Specialises(sub: PyClass, cls: PyClass, t: PyClass, attribute: string)
  {
    && sub.name == cls.name + "[" + t.name + "]"
    && sub.mro == [cls] + cls.mro
    && sub.attributes == map[attribute := t]
  }

  /** `getattr(cls, "__class_getitem__", None)`: the first class along the
      resolution order that defines one. */
  function FindClassGetItem(classes: seq<PyClass>): (r: Option<ClassGetItem>)
    reads set i | 0 <= i < |classes| :: classes[i]
    ensures r.None? <==> forall i :: 0 <= i < |classes| ==> classes[i].classGetItem.None?
    ensures r.Some? ==> exists i :: 0 <= i < |classes| && classes[i].classGetItem == r
                                   && forall j :: 0 <= j < i ==> classes[j].classGetItem.None?
  {
    if classes == [] then None
    else if classes[0].classGetItem.Some? then classes[0].classGetItem
    else
      var rest := FindClassGetItem(classes[1..]);
      assert forall i :: 1 <= i < |classes| ==> classes[1..][i - 1] == classes[i];
      assert rest.Some? ==> exists i :: 0 <= i < |classes| && classes[i].classGetItem == rest
                                       && forall j :: 0 <= j < i ==> classes[j].classGetItem.None? by {
        if rest.Some? {
          var i :| 0 <= i < |classes[1..]| && classes[1..][i].classGetItem == rest
                   && forall j :: 0 <= j < i ==> classes[1..][j].classGetItem.None?;
          assert classes[i + 1].classGetItem == rest;
          forall j | 0 <= j < i + 1 ensures classes[j].classGetItem.None? {
            if j > 0 {
              assert classes[j] == classes[1..][j - 1];
            }
          }
        }
      }
      rest
  }

  /** The `RuntimeError` of decorating a class that already has (or
      inherits) the factory. */
  datatype RuntimeError = AlreadyDecorated(className: string)

  /** `runtime_generic(attribute)(cls)`: when the `__class_getitem__` found
      on the class is an earlier decoration's factory, it raises and changes
      nothing; otherwise the class gets a fresh cached factory as its own
      `__class_getitem__` and is returned itself. */
  method Decorate(cls: PyClass, attribute: string) returns (r: Result<PyClass, RuntimeError>)
    modifies cls
    ensures var found := old(FindClassGetItem([cls] + cls.mro));
            && (found.Some? && found.value.FactoryGetter? ==>
                  r == Failure(AlreadyDecorated(cls.name)) && cls.classGetItem == old(cls.classGetItem))
            && (!(found.Some? && found.value.FactoryGetter?) ==>
                  && r == Success(cls)
                  && cls.classGetItem.Some? && cls.classGetItem.value.FactoryGetter?
                  && fresh(cls.classGetItem.value.factory)
                  && cls.classGetItem.value.factory.attribute == attribute
                  && cls.classGetItem.value.factory.cache == map[]
                  && cls.classGetItem.value.factory.Valid())
  {
    var found := FindClassGetItem([cls] + cls.mro);
    if found.Some? && found.value.FactoryGetter? {
      return Failure(AlreadyDecorated(cls.name));
    }
    var factory := new Factory(attribute);
    cls.classGetItem := Some(FactoryGetter(factory));
    r := Success(cls);
  }

  /** What `cls[t]` gives: the class the factory returns; the `TypeError`
      of a class with no `__class_getitem__` at all; or a call of another
      `__class_getitem__` implementation, whose result is not part of this
      model. */
  datatype Subscription =
    | Specialised(value: PyClass)
    | NotSubscriptable(className: string)
    | OtherImplementation(className: string)

  /** `cls[t]` through the `__class_getitem__` found on `cls`: with the
      factory, the cached class for this pair when there is one, else a new
      specialisation of `cls`, which the cache then keeps. */
  method Subscript(cls: PyClass, t: PyClass) returns (r: Subscription)
    requires var found := FindClassGetItem([cls] + cls.mro);
             found.Some? && found.value.FactoryGetter? ==> found.value.factory.Valid()
    modifies if FindClassGetItem([cls] + cls.mro).Some? && FindClassGetItem([cls] + cls.mro).value.FactoryGetter?
             then {FindClassGetItem([cls] + cls.mro).value.factory} else {}
    ensures var found := old(FindClassGetItem([cls] + cls.mro));
            && (found.None? ==> r == NotSubscriptable(cls.name))
            && (found.Some? && found.value.OtherGetter? ==> r == OtherImplementation(cls.name))
            && (found.Some? && found.value.FactoryGetter? ==>
                  var factory := found.value.factory;
                  && r.Specialised?
                  && Specialises(r.value, cls, t, factory.attribute)
                  && ((cls, t) in old(factory.cache) ==> r.value == old(factory.cache)[(cls, t)])
                  && ((cls, t) !in old(factory.cache) ==> fresh(r.value) && r.value.classGetItem.None?)
                  && factory.cache == old(factory.cache)[(cls, t) := r.value]
                  && factory.Valid())
  {
    var found := FindClassGetItem([cls] + cls.mro);
    if found.None? {
      return NotSubscriptable(cls.name);
    }
    if found.value.OtherGetter? {
      return OtherImplementation(cls.name);
    }
    var factory := found.value.factory;
    if (cls, t) in factory.cache {
      r := Specialised(factory.cache[(cls, t)]);
      return;
    }
    var sub := new PyClass(cls.name + "[" + t.name + "]", [cls] + cls.mro, map[factory.attribute := t]);
    factory.cache := factory.cache[(cls, t) := sub];
    r := Specialised(sub);
  }

  /** The attribute lookup `getattr(sub, attribute)` on a class's own
      attributes and then along its resolution order. */
  function GetClassAttribute(classes: seq<PyClass>, attribute: string): (r: Option<PyClass>)
    ensures r.None? <==> forall i :: 0 <= i < |classes| ==> attribute !in classes[i].attributes
    ensures r.Some? ==> exists i :: 0 <= i < |classes| && attribute in classes[i].attributes
                                   && r.value == classes[i].attributes[attribute]
                                   && forall j :: 0 <= j < i ==> attribute !in classes[j].attributes
  {
    if classes == [] then None
    else if attribute in classes[0].attributes then Some(classes[0].attributes[attribute])
    else
      var rest := GetClassAttribute(classes[1..], attribute);
      assert forall i :: 1 <= i < |classes| ==> classes[1..][i - 1] == classes[i];
      assert rest.Some? ==> exists i :: 0 <= i < |classes| && attribute in classes[i].attributes
                                       && rest.value == classes[i].attributes[attribute]
                                       && forall j :: 0 <= j < i ==> attribute !in classes[j].attributes by {
        if rest.Some? {
          var i :| 0 <= i < |classes[1..]| && attribute in classes[1..][i].attributes
                   && rest.value == classes[1..][i].attributes[attribute]
                   && forall j :: 0 <= j < i ==> attribute !in classes[1..][j].attributes;
          assert classes[i + 1] == classes[1..][i];
          forall j | 0 <= j < i + 1 ensures attribute !in classes[j].attributes {
            if j > 0 {
              assert classes[j] == classes[1..][j - 1];
            }
          }
        }
      }
      rest
  }

  /** The specialised class carries the type argument under the decorated
      attribute, whatever its bases define. */
  lemma SpecialisedAttribute(sub: PyClass, cls: PyClass, t: PyClass, attribute: string)
    requires Specialises(sub, cls, t, attribute)
    ensures GetClassAttribute([sub] + sub.mro, attribute) == Some(t)
  {
    assert ([sub] + sub.mro)[0] == sub;
  }

  /** Decorating a class that has no factory yet (it may have another
      `__class_getitem__`, as every PEP 695 generic class does), then
      decorating again, raises the second time; a class specialised from a
      decorated one cannot be decorated either, since it inherits the
      factory. */
  method DecorateTwice(cls: PyClass, attribute: string, t: PyClass)
    returns (first: Result<PyClass, RuntimeError>, second: Result<PyClass, RuntimeError>,
             sub: Subscription, third: Result<PyClass, RuntimeError>)
    requires var found := FindClassGetItem([cls] + cls.mro);
             found.None? || found.value.OtherGetter?
    modifies cls
    ensures first == Success(cls)
    ensures second == Failure(AlreadyDecorated(cls.name))
    ensures sub.Specialised? && Specialises(sub.value, cls, t, attribute)
    ensures third == Failure(AlreadyDecorated(sub.value.name))
  {
    first := Decorate(cls, attribute);
    assert ([cls] + cls.mro)[0] == cls;
    second := Decorate(cls, attribute);
    sub := Subscript(cls, t);
    assert ([sub.value] + sub.value.mro)[1] == cls;
    third := Decorate(sub.value, attribute);
  }

  /** `Cls[T]` twice gives the identical class. */
  method SubscriptTwice(cls: PyClass, t: PyClass)
    returns (a: Subscription, b: Subscription)
    requires var found := FindClassGetItem([cls] + cls.mro);
             found.Some? && found.value.FactoryGetter? && found.value.factory.Valid()
    modifies FindClassGetItem([cls] + cls.mro).value.factory
    ensures a.Specialised? && a == b
  {
    a := Subscript(cls, t);
    b := Subscript(cls, t);
  }
}
