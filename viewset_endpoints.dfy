/** Cauldron's class-based endpoint declarations: validated path segments
    (`APIPathComponent`, `APIPathConstant`, `APIPathParam`), the
    `EndpointDecoratorMaker` that accumulates segments, and the decorator
    that records an endpoint's parameters on the decorated function. */
module Endpoints {
  import opened Wrappers
  import opened Strings

  datatype HTTPMethod = GET | POST | PUT | PATCH | DELETE | HEAD | OPTIONS

  /** The two `ValueError`s a segment constructor raises. */
  datatype SegmentError =
    | InvalidCharacters(value: string, invalid: set<char>)
    | BraceInConstant(value: string)

  /** ASCII letters, digits, '-', '_', '{' and '}'. */
  predicate IsAllowedChar(c: char)
  {
    ('a' <= c <= 'z') || ('A' <= c <= 'Z') || ('0' <= c <= '9')
    || c == '-' || c == '_' || c == '{' || c == '}'
  }

  predicate AllowedChars(value: string)
  {
    forall i :: 0 <= i < |value| ==> IsAllowedChar(value[i])
  }

  /** The characters of `value` outside the allowed set, as the error reports them. */
  function InvalidChars(value: string): set<char>
  {
    set c | c in value && !IsAllowedChar(c)
  }

  /** `APIPathComponent(value)`: the plain string when every character is
      allowed, otherwise a `ValueError` naming the offending characters. */
  function PathComponent(value: string): (r: Result<string, SegmentError>)
    ensures r.Success? <==> AllowedChars(value)
    ensures r.Success? ==> r.value == value
    ensures r.Failure? ==> r.error.InvalidCharacters? && r.error.value == value
    ensures r.Failure? ==> r.error.invalid != {}
                           && forall c :: c in r.error.invalid <==> c in value && !IsAllowedChar(c)
  {
    if AllowedChars(value) then Success(value)
    else
      var i :| 0 <= i < |value| && !IsAllowedChar(value[i]);
      assert value[i] in InvalidChars(value);
      Failure(InvalidCharacters(value, InvalidChars(value)))
  }

  predicate HasBrace(value: string)
  {
    '{' in value || '}' in value
  }

  /** `APIPathConstant(value)`: braces are rejected first, then the
      component check applies. */
  function PathConstant(value: string): (r: Result<string, SegmentError>)
    ensures HasBrace(value) ==> r == Failure(BraceInConstant(value))
    ensures !HasBrace(value) ==> r == PathComponent(value)
    ensures r.Success? ==> r.value == value && AllowedChars(value) && !HasBrace(value)
  {
    if HasBrace(value) then Failure(BraceInConstant(value)) else PathComponent(value)
  }

  /** `APIPathParam(name)`: the name wrapped in braces, checked as a component. */
  function PathParam(name: string): (r: Result<string, SegmentError>)
    ensures r.Success? <==> AllowedChars(name)
    ensures r.Success? ==> r.value == "{" + name + "}"
    ensures r.Failure? ==> r.error == InvalidCharacters("{" + name + "}", InvalidChars(name))
  {
    var wrapped := "{" + name + "}";
    assert forall i :: 0 <= i < |name| ==> wrapped[i + 1] == name[i];
    assert wrapped[0] == '{' && wrapped[|wrapped| - 1] == '}';
    assert AllowedChars(wrapped) ==> AllowedChars(name) by {
      if AllowedChars(wrapped) {
        forall i | 0 <= i < |name| ensures IsAllowedChar(name[i]) {
          assert IsAllowedChar(wrapped[i + 1]);
        }
      }
    }
    assert AllowedChars(name) ==> AllowedChars(wrapped) by {
      if AllowedChars(name) {
        forall i | 0 <= i < |wrapped| ensures IsAllowedChar(wrapped[i]) {
          if 0 < i < |wrapped| - 1 {
            assert wrapped[i] == name[i - 1];
          }
        }
      }
    }
    assert InvalidChars(wrapped) == InvalidChars(name) by {
      assert forall c :: c in wrapped <==> c == '{' || c == '}' || c in name;
    }
    PathComponent(wrapped)
  }

  /** A path parameter is never accepted as a constant segment. */
  lemma ParamNeverConstant(name: string)
    requires PathParam(name).Success?
    ensures PathConstant(PathParam(name).value).Failure?
  {
    assert PathParam(name).value[0] == '{';
  }

  /** The recorded parameters of one endpoint. `Arg` stands for the
      positional and keyword arguments passed on to the router. */
  datatype EndpointParameters<Arg> = EndpointParameters(
    trailingSlash: bool,
    path: string,
    httpMethod: HTTPMethod,
    args: seq<Arg>,
    kwargs: map<string, Arg>)

  /** An `EndpointDecoratorMaker`: its segments and whether its endpoints
      get a trailing slash. */
  datatype Maker = Maker(segments: seq<string>, trailingSlash: bool)

  /** A maker as its constructor leaves it: no empty segment. */
  predicate ValidMaker(m: Maker)
  {
    forall k :: 0 <= k < |m.segments| ==> m.segments[k] != ""
  }

  /** The constructor: empty segments are dropped, the rest keep their order. */
  function NewMaker(path: seq<string>, trailingSlash: bool): (m: Maker)
    ensures ValidMaker(m)
    ensures m.trailingSlash == trailingSlash
    ensures forall x :: x in m.segments <==> x in path && x != ""
    ensures (forall k :: 0 <= k < |path| ==> path[k] != "") ==> m.segments == path
  {
    NonEmptyFacts(path);
    Maker(NonEmpty(path), trailingSlash)
  }

  /** `collection`: the maker for endpoints on the collection itself. */
  function Collection(): (m: Maker)
    ensures m.segments == [] && m.trailingSlash
  {
    NewMaker([], true)
  }

  /** `maker.path_parameter(name)`: a new maker with one more, variable,
      segment and no trailing slash. */
  function PathParameter(m: Maker, name: string): (r: Result<Maker, SegmentError>)
    requires ValidMaker(m)
    ensures r.Success? <==> AllowedChars(name)
    ensures r.Success? ==> r.value.segments == m.segments + ["{" + name + "}"]
                           && !r.value.trailingSlash && ValidMaker(r.value)
    ensures r.Failure? ==> r == Failure(InvalidCharacters("{" + name + "}", InvalidChars(name)))
  {
    var segment :- PathParam(name);
    var segments := m.segments + [segment];
    assert segments[|segments| - 1] == segment;
    Success(NewMaker(segments, false))
  }

  /** `maker.action(name)`: a new maker with one more, constant-form,
      segment and no trailing slash. An empty name passes the check and is
      then dropped as an empty segment. */
  function Action(m: Maker, name: string): (r: Result<Maker, SegmentError>)
    requires ValidMaker(m)
    ensures r.Success? <==> AllowedChars(name)
    ensures r.Success? ==> r.value.segments == m.segments + (if name == "" then [] else [name])
                           && !r.value.trailingSlash && ValidMaker(r.value)
    ensures r.Failure? ==> r.error == PathComponent(name).error
  {
    var segment :- PathComponent(name);
    var segments := m.segments + [segment];
    var r := NewMaker(segments, false);
    if name == "" then
      NonEmptyConcat(m.segments, [segment]);
      NonEmptyAll(m.segments);
      assert NonEmpty([segment]) == [];
      assert m.segments + [] == m.segments;
      Success(r)
    else
      Success(r)
  }

  /** The path recorded for an endpoint: `Path("/", *segments)`, and on a
      trailing slash `path / "/"`, which pathlib resolves to the root. */
  function RecordedPath(m: Maker): (r: string)
    ensures |r| > 0 && r[0] == '/'
    ensures m.trailingSlash || m.segments == [] ==> r == "/"
    ensures !m.trailingSlash && m.segments != [] && (forall k :: 0 <= k < |m.segments| ==> '/' !in m.segments[k])
            ==> Split(r[1..], '/') == m.segments
  {
    if m.trailingSlash || m.segments == [] then "/"
    else
      var body := Join(m.segments, '/');
      var r := "/" + body;
      assert r[1..] == body;
      if forall k :: 0 <= k < |m.segments| ==> '/' !in m.segments[k] then
        SplitJoin(m.segments, '/');
        r
      else
        r
  }

  /** A function object whose attribute dictionary may carry endpoint parameters. */
  class EndpointFunction<Arg> {
    const name: string
    var endpointParams: Option<EndpointParameters<Arg>>

    constructor (name: string)
      ensures this.name == name && endpointParams == None
    {
      this.name := name;
      endpointParams := None;
    }
  }

  /** `maker.GET(*args, **kwargs)(func)` and its siblings: the function gets
      the parameters attached and is returned itself. */
  method Decorate<Arg>(m: Maker, httpMethod: HTTPMethod, args: seq<Arg>, kwargs: map<string, Arg>,
                       func: EndpointFunction<Arg>)
    returns (result: EndpointFunction<Arg>)
    modifies func
    ensures result == func
    ensures func.endpointParams == Some(EndpointParameters(m.trailingSlash, RecordedPath(m), httpMethod, args, kwargs))
  {
    var path := RecordedPath(m);
    func.endpointParams := Some(EndpointParameters(m.trailingSlash, path, httpMethod, args, kwargs));
    result := func;
  }

  /** A nested declaration `collection.path_parameter("id").action("done")`
      records the path "/{id}/done" without a trailing slash. */
  lemma NestedDeclaration()
    ensures PathParameter(Collection(), "id").Success?
    ensures Action(PathParameter(Collection(), "id").value, "done").Success?
    ensures RecordedPath(Action(PathParameter(Collection(), "id").value, "done").value) == "/{id}/done"
  {
    assert AllowedChars("id") by {
      assert "id"[0] == 'i' && "id"[1] == 'd';
    }
    assert AllowedChars("done") by {
      assert "done"[0] == 'd' && "done"[1] == 'o' && "done"[2] == 'n' && "done"[3] == 'e';
    }
    var param := PathParameter(Collection(), "id");
    assert "{" + "id" + "}" == "{id}";
    assert param.value.segments == [] + ["{id}"];
    var done := Action(param.value, "done");
    var segments := ["{id}"] + ["done"];
    assert done.value.segments == segments;
    assert !done.value.trailingSlash;
    assert segments[1..] == ["done"];
    assert Join(segments, '/') == "{id}" + ['/'] + "done";
    assert "/" + ("{id}" + ['/'] + "done") == "/{id}/done";
  }
}
