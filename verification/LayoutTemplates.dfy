/** The templates of all routes, loaded once at startup, and their way into the entries of a request. */
module LayoutTemplates {
  import opened Text
  import opened Sequences
  import opened EnvExpand
  import opened CacheKeys
  import opened Markers
  import opened EntryParams
  import opened ExpandLaws

  datatype Route = Route(queryParams: seq<string>, layoutPages: seq<PageRef>)

  type Routes = map<string, Route>

  /** The layoutPages of a second load, by route; a route it does not have has none. */
  type Loaded = map<string, seq<PageRef>>

  const LABEL := "_LABEL"

  function PagesOf(loaded: Loaded, path: string): seq<PageRef> {
    if path in loaded then loaded[path] else []
  }

  // ------------------------------------------------------- the loader's result

  ghost predicate HasParams(routes: Routes) {
    exists path :: path in routes && RouteHasParams(routes[path])
  }

  /** The names markers stand for: each query param of each route, and its label. */
  ghost predicate IsQueryName(routes: Routes, name: string) {
    exists path :: path in routes && NameOfRoute(routes[path], name)
  }

  ghost predicate AreQueryNames(routes: Routes, names: seq<string>) {
    forall n :: n in names <==> IsQueryName(routes, n)
  }

  /** They are the query params of the routes, and each with "_LABEL" behind it. */
  lemma QueryNamesExactly(routes: Routes, n: string)
    ensures IsQueryName(routes, n) <==>
              exists path, p :: path in routes && p in routes[path].queryParams && (n == p || n == p + "_LABEL")
  {
    if path, p :| path in routes && p in routes[path].queryParams && (n == p || n == p + "_LABEL") {
      assert IsNameOf(p, n) && NameOfRoute(routes[path], n);
    }
    if path :| path in routes && NameOfRoute(routes[path], n) {
      var p :| p in routes[path].queryParams && IsNameOf(p, n);
      assert path in routes && p in routes[path].queryParams && (n == p || n == p + "_LABEL");
    }
  }

  ghost predicate SameLengths(routes: Routes, loaded: Loaded) {
    forall path | path in routes :: |PagesOf(loaded, path)| == |routes[path].layoutPages|
  }

  function RestoreRef(ref: PageRef, names: seq<string>): PageRef {
    PageRef(ref.page, map k | k in ref.params :: Restore(ref.params[k], names))
  }

  function RestoreRefs(refs: seq<PageRef>, names: seq<string>): (r: seq<PageRef>)
    ensures |r| == |refs| && forall i | 0 <= i < |r| :: r[i] == RestoreRef(refs[i], names)
  {
    seq(|refs|, i requires 0 <= i < |refs| => RestoreRef(refs[i], names))
  }

  /** The templates of every route, or none at all. */
  ghost predicate AreTemplates(routes: Routes, load: Lookup -> Option<Loaded>, env: Lookup, names: seq<string>,
                               templates: Option<Loaded>) {
    var loaded := load(LoadLookup(names, env));
    && AreQueryNames(routes, names)
    && (templates.Some? <==> HasParams(routes) && loaded.Some? && SameLengths(routes, loaded.value))
    && (templates.Some? ==>
          && templates.value.Keys == routes.Keys
          && forall path | path in routes :: templates.value[path] == RestoreRefs(PagesOf(loaded.value, path), names))
  }

  // -------------------------------------------------------------- the loader

  /** The names of the query params, route by route in any order, and whether an entry has params. */
  method CollectNames(routes: Routes) returns (names: seq<string>, hasParams: bool)
    ensures AreQueryNames(routes, names) && (hasParams <==> HasParams(routes))
  {
    names, hasParams := [], false;
    var todo := routes.Keys;
    while todo != {}
      invariant todo <= routes.Keys
      invariant forall n :: n in names <==>
                  exists path :: path in routes && path !in todo && NameOfRoute(routes[path], n)
      invariant hasParams <==> exists path :: path in routes && path !in todo && RouteHasParams(routes[path])
    {
      var path :| path in todo;
      var more := NamesOfRoute(routes[path]);
      var has := AnyParams(routes[path].layoutPages);
      names, hasParams := names + more, hasParams || has;
      todo := todo - {path};
    }
  }

  ghost predicate NameOfRoute(route: Route, name: string) {
    exists p :: p in route.queryParams && IsNameOf(p, name)
  }

  ghost predicate RouteHasParams(route: Route) {
    exists ref :: ref in route.layoutPages && ref.params != map[]
  }

  method NamesOfRoute(route: Route) returns (names: seq<string>)
    ensures forall n :: n in names <==> NameOfRoute(route, n)
  {
    names := [];
    for i := 0 to |route.queryParams|
      invariant forall n :: n in names <==> exists j :: 0 <= j < i && IsNameOf(route.queryParams[j], n)
    {
      names := names + [route.queryParams[i], route.queryParams[i] + LABEL];
    }
    forall n ensures n in names <==> NameOfRoute(route, n) {
      if p :| p in route.queryParams && IsNameOf(p, n) {
        var j :| 0 <= j < |route.queryParams| && route.queryParams[j] == p;
        assert IsNameOf(route.queryParams[j], n);
      }
      if j :| 0 <= j < |route.queryParams| && IsNameOf(route.queryParams[j], n) {
        assert route.queryParams[j] in route.queryParams;
      }
    }
  }

  predicate IsNameOf(p: string, name: string) {
    name == p || name == p + LABEL
  }

  method AnyParams(refs: seq<PageRef>) returns (has: bool)
    ensures has <==> exists ref :: ref in refs && ref.params != map[]
  {
    has := false;
    for i := 0 to |refs|
      invariant has <==> exists j :: 0 <= j < i && refs[j].params != map[]
    {
      has := has || refs[i].params.Keys != {};
    }
  }

  /** The second load, with a marker for every query param. Its templates are used for all routes or for none. */
  method LoadTemplates(routes: Routes, load: Lookup -> Option<Loaded>, env: Lookup)
    returns (templates: Option<Loaded>, names: seq<string>)
    ensures AreTemplates(routes, load, env, names, templates)
  {
    var hasParams;
    names, hasParams := CollectNames(routes);
    if !hasParams { return None, names; }
    var loaded := load(LoadLookup(names, env));
    if loaded.None? { return None, names; }
    var restored: Loaded := map[];
    var todo := routes.Keys;
    while todo != {}
      invariant todo <= routes.Keys && restored.Keys == routes.Keys - todo
      invariant forall path | path in restored ::
                  |PagesOf(loaded.value, path)| == |routes[path].layoutPages|
                  && restored[path] == RestoreRefs(PagesOf(loaded.value, path), names)
    {
      var path :| path in todo;
      if |PagesOf(loaded.value, path)| != |routes[path].layoutPages| { return None, names; }
      restored := restored[path := RestoreRefs(PagesOf(loaded.value, path), names)];
      todo := todo - {path};
    }
    templates := Some(restored);
  }

  // --------------------------------------------------------- one request

  /** Every value that the resolution wrote is left as it is by any further expansion. */
  ghost predicate WrittenIsInert(template: PageRef, r: PageRef) {
    template.params != map[] ==> forall name | name in r.params :: Fixed(r.params[name])
  }

  ghost predicate Fixed(value: string) {
    forall lookup: Lookup :: ExpandVars(value, lookup) == (value, [])
  }

  lemma EntryIsInert(page: PageRef, template: PageRef, noTemplates: bool, lookup: Lookup, r: PageRef)
    requires EntryResolved(page, template, noTemplates, lookup, r)
    ensures WrittenIsInert(template, r)
  {
    if template.params != map[] {
      forall name | name in r.params ensures Fixed(r.params[name]) {
        ResolvedIsInert(template.params[name], Startup(page, name), noTemplates, lookup);
      }
    }
  }

  /** The template of an entry: that of the loader, or the startup entry itself. */
  function TemplateFor(routes: Routes, templates: Option<Loaded>, path: string, i: nat): PageRef
    requires path in routes && i < |routes[path].layoutPages|
    requires templates.Some? ==> path in templates.value && |templates.value[path]| == |routes[path].layoutPages|
  {
    if templates.Some? then templates.value[path][i] else routes[path].layoutPages[i]
  }

  /** From startup to the entries of one request. The loader's length check puts every index into the templates in
      range; page names, count and order are the startup list's, and every value written is a fixed point. */
  method RequestEntries(routes: Routes, load: Lookup -> Option<Loaded>, env: Lookup, path: string,
                        queryParams: map<string, string>) returns (refs: seq<PageRef>, templates: Option<Loaded>)
    requires path in routes
    ensures exists names :: AreTemplates(routes, load, env, names, templates)
    ensures templates.Some? ==> path in templates.value && |templates.value[path]| == |routes[path].layoutPages|
    ensures |refs| == |routes[path].layoutPages|
    ensures forall i | 0 <= i < |refs| :: refs[i].page == routes[path].layoutPages[i].page
    ensures forall i | 0 <= i < |refs| ::
              EntryResolved(routes[path].layoutPages[i], TemplateFor(routes, templates, path, i), templates.None?,
                            Chain(queryParams, env), refs[i])
    ensures forall i | 0 <= i < |refs| :: WrittenIsInert(TemplateFor(routes, templates, path, i), refs[i])
    ensures forall i, key, n | 0 <= i < |refs| && IsName(n)
              && HasReference(TemplateFor(routes, templates, path, i), key, n) ::
              Fills(key, n, routes[path].layoutPages[i], queryParams, env, templates.None?, refs[i])
  {
    var names;
    templates, names := LoadTemplates(routes, load, env);
    var of := if templates.Some? then Some(templates.value[path]) else None;
    refs := ResolveLayoutPageParams(routes[path].layoutPages, of, queryParams, env);
    forall i | 0 <= i < |refs| ensures WrittenIsInert(TemplateFor(routes, templates, path, i), refs[i]) {
      EntryIsInert(routes[path].layoutPages[i], TemplateFor(routes, templates, path, i), templates.None?,
                   Chain(queryParams, env), refs[i]);
    }
    forall i, key, n | 0 <= i < |refs| && IsName(n) && HasReference(TemplateFor(routes, templates, path, i), key, n)
      ensures Fills(key, n, routes[path].layoutPages[i], queryParams, env, templates.None?, refs[i])
    {
      EntryFills(routes[path].layoutPages[i], TemplateFor(routes, templates, path, i), templates.None?, queryParams,
                 env, refs[i], key, n);
    }
  }

  /** The template of this param is one reference. */
  predicate HasReference(template: PageRef, key: string, n: string) {
    key in template.params && template.params[key] == "${" + n + "}"
  }

  // ------------------------------------------------- the order of the names

  /** The map of routes is visited in any order; the replacer does not depend on it. */
  lemma {:induction false} RestoreIgnoresOrder(s: string, a: seq<string>, b: seq<string>)
    requires Names(a) && Names(b) && forall n :: n in a <==> n in b
    ensures Restore(s, a) == Restore(s, b)
  {
    if s != "" {
      var i, j := FirstAt(s, a), FirstAt(s, b);
      SameFirst(s, a, b);
      SameFirst(s, b, a);
      if i < |a| {
        RestoreIgnoresOrder(s[|Marker(a[i])|..], a, b);
      } else {
        RestoreIgnoresOrder(s[1..], a, b);
      }
    }
  }

  lemma SameFirst(s: string, a: seq<string>, b: seq<string>)
    requires Names(a) && Names(b) && forall n :: n in a <==> n in b
    ensures FirstAt(s, a) < |a| ==> FirstAt(s, b) < |b| && b[FirstAt(s, b)] == a[FirstAt(s, a)]
  {
    var i, j := FirstAt(s, a), FirstAt(s, b);
    if i < |a| {
      assert a[i] in b;
      var k :| 0 <= k < |b| && b[k] == a[i];
      assert MatchAt(s, 0, Marker(b[k]));
      assert j <= k && b[j] in b && a[i] in a;
      var n := a[i];
      assert s == Marker(n) + s[|Marker(n)|..];
      MarkersPrefixFree(b[j], n, s[|Marker(n)|..]);
    }
  }
}
