/** The two route registries, the merged list that requests are matched against, and the lookup that
    the list stands for. */
module RouteTable {
  import opened Options

  /** A route configuration: for each match its exact model name (empty if it is not an exact match),
      or none when the match has no model, and the clusters it can send to. */
  datatype Route = Route(name: string, matches: seq<Option<string>>, targets: seq<string>)

  predicate MatchesModel(r: Route, model: string) {
    r.targets != [] && exists m | m in r.matches :: m.Some? && m.value != "" && m.value == model
  }

  method Match(r: Route, model: string) returns (ok: bool)
    ensures ok <==> MatchesModel(r, model)
  {
    if |r.matches| == 0 {
      return false;
    }
    for i := 0 to |r.matches|
      invariant r.targets == [] || forall k | 0 <= k < i :: r.matches[k].None? || r.matches[k].value == "" || r.matches[k].value != model
    {
      var m := r.matches[i];
      if m.None? {
        continue;
      }
      if m.value == "" {
        continue;
      }
      if model != m.value {
        continue;
      }
      if |r.targets| == 0 {
        continue;
      }
      assert m in r.matches;
      return true;
    }
    return false;
  }

  /** The route that a backend registers for its own model. */
  function InitDirectModelRoute(modelName: string): (r: Route)
    ensures Direct(r, modelName) && forall m :: MatchesModel(r, m) <==> m == modelName && m != ""
  {
    var r := Route(modelName, [Some(modelName)], [modelName]);
    assert forall m :: m in r.matches <==> m == Some(modelName);
    r
  }

  /** A route with several matches matches what they match one by one, whatever their order; a route
      with one matches exactly its own non-empty model, and only if it has a target. */
  lemma MatchesOneByOne(r: Route, model: string)
    ensures MatchesModel(r, model) <==> exists i :: 0 <= i < |r.matches| && MatchesModel(r.(matches := [r.matches[i]]), model)
    ensures forall x :: MatchesModel(r.(matches := [Some(x)]), model) <==> x == model && model != "" && r.targets != []
    ensures !MatchesModel(r.(matches := [None]), model)
  {
    if MatchesModel(r, model) {
      var m :| m in r.matches && m.Some? && m.value != "" && m.value == model;
      var i :| 0 <= i < |r.matches| && r.matches[i] == m;
      assert m in r.(matches := [r.matches[i]]).matches;
    }
    forall x ensures MatchesModel(r.(matches := [Some(x)]), model) <==> x == model && model != "" && r.targets != [] {
      if x == model && model != "" && r.targets != [] { assert Some(x) in r.(matches := [Some(x)]).matches; }
    }
  }

  /** A route named by its only match, as both reconcilers build them. */
  predicate Direct(r: Route, name: string) { r.name == name && r.matches == [Some(name)] }

  /** `rs` lists the values of `m` in the order of the keys `ks`. */
  ghost predicate Lists(ks: seq<string>, rs: seq<Route>, m: map<string, Route>) {
    && |ks| == |rs|
    && (forall i, j | 0 <= i < j < |ks| :: ks[i] != ks[j])
    && (forall k :: k in ks <==> k in m)
    && (forall i | 0 <= i < |ks| :: rs[i] == m[ks[i]])
  }

  class RouteManager {
    var matchRouteRegistry: map<string, Route>
    var routeRegistry: map<string, Route>
    var routes: seq<Route>
    ghost var order: seq<string>

    /** What the list stands for: the base registry overridden by the match registry. */
    ghost function Table(): map<string, Route>
      reads this
    {
      routeRegistry + matchRouteRegistry
    }

    ghost predicate Valid()
      reads this
    {
      Lists(order, routes, Table())
    }

    constructor ()
      ensures Valid() && matchRouteRegistry == map[] && routeRegistry == map[]
    {
      matchRouteRegistry, routeRegistry, routes, order := map[], map[], [], [];
    }

    /** The values of both registries, match routes first come, in whatever order the maps give. */
    method MergeRoutes() returns (merged: seq<Route>, ghost ks: seq<string>)
      ensures Lists(ks, merged, Table())
    {
      var unique: map<string, Route> := map[];
      var rest := matchRouteRegistry.Keys;
      while rest != {}
        invariant rest <= matchRouteRegistry.Keys
        invariant unique.Keys == matchRouteRegistry.Keys - rest
        invariant forall k | k in unique :: unique[k] == matchRouteRegistry[k]
      {
        var k :| k in rest;
        unique := unique[k := matchRouteRegistry[k]];
        rest := rest - {k};
      }
      assert unique == matchRouteRegistry;
      rest := routeRegistry.Keys;
      while rest != {}
        invariant rest <= routeRegistry.Keys
        invariant unique.Keys == matchRouteRegistry.Keys + (routeRegistry.Keys - rest)
        invariant forall k | k in unique :: unique[k] == Table()[k]
      {
        var k :| k in rest;
        if k !in unique {
          unique := unique[k := routeRegistry[k]];
        }
        rest := rest - {k};
      }
      assert unique == Table();
      merged, ks := Values(unique);
    }

    method RegisterMatchRoute(cfg: Route, built: bool) returns (ok: bool)
      requires Valid()
      modifies this
      ensures Valid() && ok == built && routeRegistry == old(routeRegistry)
      ensures matchRouteRegistry == if built then old(matchRouteRegistry)[cfg.name := cfg] else old(matchRouteRegistry)
    {
      if !built {
        return false;
      }
      matchRouteRegistry := matchRouteRegistry[cfg.name := cfg];
      routes, order := MergeRoutes();
      return true;
    }

    method RemoveMatchRoute(name: string)
      requires Valid()
      modifies this
      ensures Valid() && routeRegistry == old(routeRegistry) && matchRouteRegistry == old(matchRouteRegistry) - {name}
    {
      matchRouteRegistry := matchRouteRegistry - {name};
      routes, order := MergeRoutes();
    }

    /** A base route that a match route hides is recorded without rebuilding the list. */
    method RegisterBaseRoute(cfg: Route, built: bool) returns (ok: bool)
      requires Valid()
      modifies this
      ensures Valid() && ok == built && matchRouteRegistry == old(matchRouteRegistry)
      ensures routeRegistry == if built then old(routeRegistry)[cfg.name := cfg] else old(routeRegistry)
    {
      if !built {
        return false;
      }
      ghost var before := Table();
      routeRegistry := routeRegistry[cfg.name := cfg];
      if cfg.name in matchRouteRegistry {
        assert Table() == before;
        return true;
      }
      routes, order := MergeRoutes();
      return true;
    }

    method RemoveBaseRoute(name: string)
      requires Valid()
      modifies this
      ensures Valid() && matchRouteRegistry == old(matchRouteRegistry) && routeRegistry == old(routeRegistry) - {name}
    {
      routeRegistry := routeRegistry - {name};
      routes, order := MergeRoutes();
    }

    method MatchRoute(model: string) returns (r: Option<Route>)
      ensures r == FirstMatch(routes, model)
    {
      for i := 0 to |routes|
        invariant FirstMatch(routes, model) == FirstMatch(routes[i..], model)
      {
        var ok := Match(routes[i], model);
        assert routes[i..][1..] == routes[i + 1..];
        if ok {
          return Some(routes[i]);
        }
      }
      return None;
    }
  }

  method Values(m: map<string, Route>) returns (rs: seq<Route>, ghost ks: seq<string>)
    ensures Lists(ks, rs, m)
  {
    rs, ks := [], [];
    var rest := m.Keys;
    while rest != {}
      invariant rest <= m.Keys && |ks| == |rs|
      invariant forall i, j | 0 <= i < j < |ks| :: ks[i] != ks[j]
      invariant forall k :: k in ks <==> k in m.Keys - rest
      invariant forall i | 0 <= i < |ks| :: ks[i] in m && rs[i] == m[ks[i]]
    {
      var k :| k in rest;
      assert k !in ks by { assert k !in m.Keys - rest; }
      forall i | 0 <= i < |ks| ensures ks[i] != k { assert ks[i] in ks; }
      rs := rs + [m[k]];
      ks := ks + [k];
      rest := rest - {k};
    }
  }

  // ----- The list refines a lookup

  function FirstMatch(rs: seq<Route>, model: string): Option<Route> {
    if rs == [] then None else if MatchesModel(rs[0], model) then Some(rs[0]) else FirstMatch(rs[1..], model)
  }

  lemma {:induction false} FirstMatchIs(rs: seq<Route>, model: string)
    ensures FirstMatch(rs, model).Some? ==> FirstMatch(rs, model).value in rs && MatchesModel(FirstMatch(rs, model).value, model)
    ensures FirstMatch(rs, model).None? ==> forall r | r in rs :: !MatchesModel(r, model)
  {
    if rs != [] { FirstMatchIs(rs[1..], model); }
  }

  function Lookup(m: map<string, Route>, model: string): Option<Route> {
    if model != "" && model in m && m[model].targets != [] then Some(m[model]) else None
  }

  /** When every route is named by its only match, the answer is a lookup in the table, whatever
      order the list has; a winning route without targets answers none. */
  lemma MatchIsLookup(ks: seq<string>, rs: seq<Route>, m: map<string, Route>, model: string)
    requires Lists(ks, rs, m) && forall k | k in m :: Direct(m[k], k)
    ensures FirstMatch(rs, model) == Lookup(m, model)
  {
    FirstMatchIs(rs, model);
    forall k | k in m ensures MatchesModel(m[k], model) <==> k == model && k != "" && m[k].targets != [] {
      assert forall x :: x in m[k].matches <==> x == Some(k);
    }
    assert forall r | r in rs :: exists i :: 0 <= i < |ks| && r == m[ks[i]] && ks[i] in ks;
    if Lookup(m, model).Some? {
      var i :| 0 <= i < |ks| && ks[i] == model;
      assert rs[i] in rs;
    }
  }

  /** All routes of the table that match a model are the same route. */
  ghost predicate Unambiguous(m: map<string, Route>, model: string) {
    forall j, k | j in m && k in m && MatchesModel(m[j], model) && MatchesModel(m[k], model) :: m[j] == m[k]
  }

  /** The answer depends on the order. */
  ghost predicate Ambivalent(m: map<string, Route>, model: string) {
    exists ks1, rs1, ks2, rs2 :: Lists(ks1, rs1, m) && Lists(ks2, rs2, m) && FirstMatch(rs1, model) != FirstMatch(rs2, model)
  }

  /** For any registered routes: the answer is independent of the map order exactly when no two
      different routes match. */
  lemma OrderIndependent(m: map<string, Route>, model: string)
    ensures !Ambivalent(m, model) <==> Unambiguous(m, model)
  {
    if Unambiguous(m, model) {
      forall ks1, rs1, ks2, rs2 | Lists(ks1, rs1, m) && Lists(ks2, rs2, m)
        ensures FirstMatch(rs1, model) == FirstMatch(rs2, model)
      {
        SameAnswer(ks1, rs1, ks2, rs2, m, model);
      }
    } else {
      var j, k :| j in m && k in m && MatchesModel(m[j], model) && MatchesModel(m[k], model) && m[j] != m[k];
      var ks1, rs1 := ListFrom(m, j);
      var ks2, rs2 := ListFrom(m, k);
      assert FirstMatch(rs1, model) == Some(m[j]) && FirstMatch(rs2, model) == Some(m[k]);
    }
  }

  lemma SameAnswer(ks1: seq<string>, rs1: seq<Route>, ks2: seq<string>, rs2: seq<Route>, m: map<string, Route>, model: string)
    requires Lists(ks1, rs1, m) && Lists(ks2, rs2, m) && Unambiguous(m, model)
    ensures FirstMatch(rs1, model) == FirstMatch(rs2, model)
  {
    FirstMatchIs(rs1, model);
    FirstMatchIs(rs2, model);
    SameValues(ks1, rs1, m);
    SameValues(ks2, rs2, m);
  }

  lemma SameValues(ks: seq<string>, rs: seq<Route>, m: map<string, Route>)
    requires Lists(ks, rs, m)
    ensures forall r :: r in rs <==> exists k :: k in m && m[k] == r
  {
  }

  /** The table listed from a chosen key on. */
  lemma ListFrom(m: map<string, Route>, first: string) returns (ks: seq<string>, rs: seq<Route>)
    requires first in m
    ensures Lists(ks, rs, m) && rs != [] && rs[0] == m[first]
  {
    var ks1, rs1 := ListAll(m - {first});
    ks, rs := [first] + ks1, [m[first]] + rs1;
    ListCons(ks1, rs1, m, first);
  }

  lemma ListCons(ks: seq<string>, rs: seq<Route>, m: map<string, Route>, k: string)
    requires k in m && Lists(ks, rs, m - {k})
    ensures Lists([k] + ks, [m[k]] + rs, m)
  {
    assert forall i | 0 <= i < |ks| :: ks[i] in ks && ks[i] != k;
  }

  lemma ListAll(m: map<string, Route>) returns (ks: seq<string>, rs: seq<Route>)
    ensures Lists(ks, rs, m)
    decreases |m|
  {
    ks, rs := [], [];
    if m != map[] {
      var k :| k in m;
      var small := m - {k};
      assert small.Keys == m.Keys - {k};
      ks, rs := ListAll(small);
      ListCons(ks, rs, m, k);
      ks, rs := [k] + ks, [m[k]] + rs;
    }
  }
}
