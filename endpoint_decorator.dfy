/** Route dependencies of the brewing framework: a `DependencyDecorator`
    holds the dependencies declared for one path and adds them to every
    route of the router whose path starts with that path's string, never
    adding a dependency a route already has. `F` stands for the dependency
    callables, compared by identity. */
module DependencyPropagation {
  import HttpPath

  /** The dependencies among `funcs` that are not in `current`, in order;
      a dependency listed twice in `funcs` is kept twice. */
  function Missing<F(==,!new)>(current: seq<F>, funcs: seq<F>): (r: seq<F>)
    ensures forall f :: f in r <==> f in funcs && f !in current
    ensures |r| <= |funcs|
  {
    if funcs == [] then []
    else
      var f := funcs[|funcs| - 1];
      Missing(current, funcs[..|funcs| - 1]) + (if f in current then [] else [f])
  }

  /** The dependencies of a route after the new ones are appended. */
  function AddMissing<F(==,!new)>(current: seq<F>, funcs: seq<F>): (r: seq<F>)
    ensures current <= r
    ensures forall f :: f in r <==> f in current || f in funcs
    ensures forall k :: |current| <= k < |r| ==> r[k] in funcs && r[k] !in current
  {
    current + Missing(current, funcs)
  }

  /** What one route's dependency list becomes on `apply`: new ones are
      added only when the route's path starts with the decorator's path. */
  function Applied<F(==,!new)>(routePath: string, current: seq<F>, prefix: string, funcs: seq<F>): seq<F>
  {
    if prefix <= routePath then AddMissing(current, funcs) else current
  }

  /** Nothing is missing from a list that already holds every dependency. */
  lemma {:induction false} MissingNone<F(!new)>(current: seq<F>, funcs: seq<F>)
    requires forall f :: f in funcs ==> f in current
    ensures Missing(current, funcs) == []
    decreases |funcs|
  {
    if funcs != [] {
      assert funcs[|funcs| - 1] in funcs;
      MissingNone(current, funcs[..|funcs| - 1]);
    }
  }

  /** Applying the same dependencies twice changes nothing the second time. */
  lemma AddMissingIdempotent<F(!new)>(current: seq<F>, funcs: seq<F>)
    ensures AddMissing(AddMissing(current, funcs), funcs) == AddMissing(current, funcs)
  {
    MissingNone(AddMissing(current, funcs), funcs);
  }

  lemma AppliedIdempotent<F(!new)>(routePath: string, current: seq<F>, prefix: string, funcs: seq<F>)
    ensures Applied(routePath, Applied(routePath, current, prefix, funcs), prefix, funcs)
            == Applied(routePath, current, prefix, funcs)
  {
    if prefix <= routePath {
      AddMissingIdempotent(current, funcs);
    }
  }

  /** With no duplicates among the route's dependencies and none among the
      declared ones, the result has none either. */
  predicate Distinct<F(==,!new)>(s: seq<F>)
  {
    forall i, j :: 0 <= i < j < |s| ==> s[i] != s[j]
  }

  lemma {:induction false} MissingDistinct<F(!new)>(current: seq<F>, funcs: seq<F>)
    requires Distinct(funcs)
    ensures Distinct(Missing(current, funcs))
    decreases |funcs|
  {
    if funcs != [] {
      var init := funcs[..|funcs| - 1];
      var f := funcs[|funcs| - 1];
      assert Distinct(init);
      MissingDistinct(current, init);
      assert f !in init;
      assert f !in Missing(current, init);
    }
  }

  lemma AddMissingDistinct<F(!new)>(current: seq<F>, funcs: seq<F>)
    requires Distinct(current) && Distinct(funcs)
    ensures Distinct(AddMissing(current, funcs))
  {
    MissingDistinct(current, funcs);
    var r := AddMissing(current, funcs);
    var m := Missing(current, funcs);
    forall i, j | 0 <= i < j < |r| ensures r[i] != r[j] {
      if j >= |current| {
        assert r[j] == m[j - |current|];
        if i < |current| {
          assert r[i] in current;
        } else {
          assert r[i] == m[i - |current|];
        }
      }
    }
  }

  /** A dependency found twice in the declared list, and on no route yet,
      is appended twice: the snapshot taken before the inner loop does not
      see the first append. */
  lemma DuplicateDeclarationAppendedTwice<F(!new)>(f: F)
    ensures AddMissing([], [f, f]) == [f, f]
  {
    assert [f, f][..1] == [f];
    assert [f][..0] == [];
  }

  /** A dependency declared after a route was registered ends up where it
      would have been had it been declared before. */
  lemma DeclarationOrderIrrelevant<F(!new)>(initial: seq<F>, declared: seq<F>, f: F)
    requires f !in declared
    ensures AddMissing(AddMissing(initial, declared), declared + [f]) == AddMissing(initial, declared + [f])
  {
    var first := AddMissing(initial, declared);
    MissingNone(first, declared);
    assert (declared + [f])[..|declared|] == declared;
    assert Missing(first, declared + [f]) == (if f in first then [] else [f]);
    assert Missing(initial, declared + [f]) == Missing(initial, declared) + (if f in initial then [] else [f]);
    assert f in first <==> f in initial;
  }

  /** A dependency declared on a child path never reaches the parent's
      route, whatever the parent's trailing slash: the child's string is
      longer than the parent's. */
  lemma ChildDependencyMissesParent<F(!new)>(parent: HttpPath.HTTPPath, value: string,
                                            trailingSlash: HttpPath.TrailingSlash,
                                            current: seq<F>, funcs: seq<F>)
    requires HttpPath.WellFormed(parent)
    requires value != "" && HttpPath.IsAllowedValue(value)
    ensures HttpPath.Child(parent, value, trailingSlash).Success?
    ensures Applied(HttpPath.Render(parent), current,
                    HttpPath.Render(HttpPath.Child(parent, value, trailingSlash).value), funcs) == current
  {
    HttpPath.ChildNotPrefixOfParent(parent, value, trailingSlash);
  }

  /** A route of the router: its path string and its dependency list. */
  class Route<F(==,!new)> {
    const path: string
    var dependencies: seq<F>

    constructor (path: string, dependencies: seq<F>)
      ensures this.path == path && this.dependencies == dependencies
    {
      this.path := path;
      this.dependencies := dependencies;
    }
  }

  /** The router: its routes, each a distinct route object. */
  class Router<F(==,!new)> {
    var routes: seq<Route<F>>

    ghost predicate Valid()
      reads this
    {
      forall i, j :: 0 <= i < j < |routes| ==> routes[i] != routes[j]
    }

    /** The route objects, as a frame. */
    ghost function RouteSet(): set<Route<F>>
      reads this
    {
      set i | 0 <= i < |routes| :: routes[i]
    }

    constructor ()
      ensures routes == [] && Valid()
    {
      routes := [];
    }
  }

  /** `DependencyDecorator`: the dependencies declared for one path. */
  class DependencyDecorator<F(==,!new)> {
    const router: Router<F>
    const path: string
    var dependencies: seq<F>

    constructor (router: Router<F>, path: string)
      ensures this.router == router && this.path == path && dependencies == []
    {
      this.router := router;
      this.path := path;
      dependencies := [];
    }

    /** One route's share of `apply()`: the declared dependencies missing
        from the route's list as it stood when the route was reached are
        appended, when the route's path starts with this path. */
    method ApplyTo(route: Route<F>)
      modifies route
      ensures route.dependencies == Applied(route.path, old(route.dependencies), path, dependencies)
    {
      var current := route.dependencies;
      var j := 0;
      while j < |dependencies|
        invariant 0 <= j <= |dependencies|
        invariant route.dependencies
                  == if path <= route.path then current + Missing(current, dependencies[..j]) else current
      {
        var func := dependencies[j];
        assert dependencies[..j + 1][..j] == dependencies[..j];
        if func !in current && path <= route.path {
          route.dependencies := route.dependencies + [func];
        }
        j := j + 1;
      }
      assert dependencies[..j] == dependencies;
    }

    /** `apply()`: every route gets the declared dependencies it lacks when
        its path starts with this path; the others are unchanged. */
    method Apply()
      requires router.Valid()
      modifies router.RouteSet()
      ensures forall i :: 0 <= i < |router.routes| ==>
                router.routes[i].dependencies
                == Applied(router.routes[i].path, old(router.routes[i].dependencies), path, dependencies)
    {
      var routes := router.routes;
      var i := 0;
      while i < |routes|
        invariant 0 <= i <= |routes|
        invariant forall k :: 0 <= k < i ==>
                    routes[k].dependencies == Applied(routes[k].path, old(routes[k].dependencies), path, dependencies)
        invariant forall k :: i <= k < |routes| ==> routes[k].dependencies == old(routes[k].dependencies)
      {
        assert forall k :: 0 <= k < |routes| && k != i ==> routes[k] != routes[i];
        ApplyTo(routes[i]);
        i := i + 1;
      }
    }

    /** `DEPENDS()(func)`: the function is declared, applied to the routes,
        and returned unchanged. */
    method Depends(func: F) returns (result: F)
      requires router.Valid()
      modifies this, router.RouteSet()
      ensures result == func
      ensures dependencies == old(dependencies) + [func]
      ensures forall i :: 0 <= i < |router.routes| ==>
                router.routes[i].dependencies
                == Applied(router.routes[i].path, old(router.routes[i].dependencies), path, dependencies)
    {
      dependencies := dependencies + [func];
      Apply();
      result := func;
    }
  }

  /** `EndpointDecorator.__call__` as written, followed by the decoration
      it returns: the call only obtains the router's route decorator, so the
      path's declared dependencies are applied to the routes that exist
      already, and the route itself is registered afterwards, when the
      returned decorator is applied to the endpoint function, with just the
      dependencies given to the router. */
  method RegisterEndpointAsWritten<F(==,!new)>(depends: DependencyDecorator<F>, initial: seq<F>)
    returns (route: Route<F>)
    requires depends.router.Valid()
    modifies depends.router, depends.router.RouteSet()
    ensures fresh(route)
    ensures depends.router.routes == old(depends.router.routes) + [route]
    ensures depends.router.Valid()
    ensures route.path == depends.path
    ensures route.dependencies == initial
    ensures forall i :: 0 <= i < |old(depends.router.routes)| ==>
              depends.router.routes[i].dependencies
              == Applied(depends.router.routes[i].path, old(depends.router.routes[i].dependencies),
                         depends.path, depends.dependencies)
  {
    depends.Apply();
    route := new Route(depends.path, initial);
    depends.router.routes := depends.router.routes + [route];
    assert depends.router.routes[|depends.router.routes| - 1] == route;
  }

  /** A dependency declared for a path before its only endpoint does not
      reach that endpoint's route when the endpoint is registered as
      written. */
  method DeclaredBeforeEndpointMissed<F(==,!new)>(f: F) returns (route: Route<F>)
    ensures route.path == "/items/"
    ensures route.dependencies == []
  {
    var router := new Router<F>();
    var depends := new DependencyDecorator(router, "/items/");
    var declared := depends.Depends(f);
    route := RegisterEndpointAsWritten(depends, []);
  }

  /** Registering the route first and then applying the path's declared
      dependencies gives the new route those declared before it. */
  method RegisterEndpoint<F(==,!new)>(depends: DependencyDecorator<F>, initial: seq<F>)
    returns (route: Route<F>)
    requires depends.router.Valid()
    modifies depends.router, depends.router.RouteSet()
    ensures fresh(route)
    ensures depends.router.routes == old(depends.router.routes) + [route]
    ensures depends.router.Valid()
    ensures route.path == depends.path
    ensures route.dependencies == AddMissing(initial, depends.dependencies)
    ensures forall i :: 0 <= i < |old(depends.router.routes)| ==>
              depends.router.routes[i].dependencies
              == Applied(depends.router.routes[i].path, old(depends.router.routes[i].dependencies),
                         depends.path, depends.dependencies)
  {
    route := new Route(depends.path, initial);
    depends.router.routes := depends.router.routes + [route];
    assert depends.router.routes[|depends.router.routes| - 1] == route;
    depends.Apply();
  }

  /** With the route registered first, a dependency declared before the
      endpoint reaches it. */
  method DeclaredBeforeEndpointReached<F(==,!new)>(f: F) returns (route: Route<F>)
    ensures route.path == "/items/"
    ensures route.dependencies == [f]
  {
    var router := new Router<F>();
    var depends := new DependencyDecorator(router, "/items/");
    var declared := depends.Depends(f);
    route := RegisterEndpoint(depends, []);
    assert [f][..0] == [];
  }
}
