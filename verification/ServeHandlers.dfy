/** The serve handlers: with the cache they answer every request as they would without it. */
module ServeHandlers {
  import opened Text
  import opened QueryEscape
  import opened CacheKeys
  import opened RenderCache

  datatype Route = ArtefactRoute(name: string) | LayoutRoute(refs: seq<PageRef>)

  datatype Validation = Validation(params: Params, valid: bool)

  /** A live report: its routes, and the deterministic work behind a request. `load` reloads the project with the
      params as variables; rendering sees the params only through what it loads, or, on a layout route, next to it. */
  datatype Site<!Docs> = Site(
    routes: map<string, Route>,
    base: Docs,
    load: Params -> Option<Docs>,
    validate: (string, string) -> Validation,
    renderArtefact: (string, Docs) -> Option<Page>,
    renderLayout: (string, Docs, Params) -> Option<Page>,
    wantsOptions: string -> bool,
    options: (string, Docs) -> string,
    html: (string, string, string, string, string) -> string,
    missing: (string, string, string) -> string)
  {
    /** The documents of a request. */
    function Reload(params: Params): Option<Docs> {
      if params == map[] then Some(base) else load(params)
    }

    /** The documents the select options of a route are read from. */
    function OptionDocs(path: string, params: Params): Option<Docs> {
      if wantsOptions(path) then Reload(params) else Some(base)
    }

    /** The select options; documents are looked at only when the route has a dataset-backed select. */
    function Options(path: string, docs: Docs): string {
      if wantsOptions(path) then options(path, docs) else ""
    }

    function Html(page: Page, path: string, query: string, docs: Docs): Response {
      Content(html(page.frame, page.context, path, query, Options(path, docs)))
    }

    function MissingParams(path: string, query: string, params: Params): Response {
      var docs := OptionDocs(path, params);
      if docs.None? then Failed else Content(missing(path, query, Options(path, docs.value)))
    }

    /** The page of a route for a parameter set, rendered from nothing. */
    function Render(path: string, params: Params): Option<Page> {
      if path !in routes then None
      else
        var docs := Reload(params);
        if docs.None? then None
        else match routes[path]
          case ArtefactRoute(name) => renderArtefact(name, docs.value)
          case LayoutRoute(_) => renderLayout(path, docs.value, params)
    }

    /** The answer without a cache. */
    function Uncached(path: string, query: string): Response {
      if path !in routes then NotFound
      else
        var v := validate(path, query);
        if !v.valid then MissingParams(path, query, v.params)
        else
          var docs, page := Reload(v.params), Render(path, v.params);
          if docs.None? || page.None? then Failed else Html(page.value, path, query, docs.value)
    }

    ghost function Key(path: string, params: Params): string
      requires path in routes
    {
      match routes[path]
      case ArtefactRoute(name) => ArtefactKey(name, params)
      case LayoutRoute(refs) => LayoutKey(path, PagesText(refs), params)
    }

    /** What the configuration guarantees: route paths start with "/", artefact names do not, and no name can imitate a
        separator of a key. */
    ghost predicate Configured() {
      && (forall path | path in routes :: path != "" && path[0] == '/' && !Contains(path, PAGES_TAG)
            && (routes[path].ArtefactRoute? ==>
                  var name := routes[path].name; '?' !in name && (name == "" || name[0] != '/')))
      && (forall path, query :: PlainNames(validate(path, query).params))
    }
  }

  datatype Response = Content(body: string) | Failed | NotFound | DataBody(data: Option<string>)

  /** The answer to a page request, told case by case: no such route, missing params, a load or a render that fails,
      and the page. Without params the startup documents are used, and with params those of a reload. */
  ghost predicate Answers<Docs>(site: Site<Docs>, path: string, query: string, resp: Response) {
    if path !in site.routes then resp == NotFound
    else
      var params := site.validate(path, query).params;
      var docs := if params == map[] then Some(site.base) else site.load(params);
      if !site.validate(path, query).valid then
        if !site.wantsOptions(path) then resp == Content(site.missing(path, query, ""))
        else if docs == None then resp == Failed
        else resp == Content(site.missing(path, query, site.options(path, docs.value)))
      else if docs == None then resp == Failed
      else
        var page := match site.routes[path] {
                      case ArtefactRoute(name) => site.renderArtefact(name, docs.value)
                      case LayoutRoute(_) => site.renderLayout(path, docs.value, params) };
        if page == None then resp == Failed
        else resp == Content(site.html(page.value.frame, page.value.context, path, query,
                                       if site.wantsOptions(path) then site.options(path, docs.value) else ""))
  }

  lemma UncachedAnswers<Docs>(site: Site<Docs>, path: string, query: string, resp: Response)
    ensures Answers(site, path, query, resp) <==> resp == site.Uncached(path, query)
  {
  }

  /** Two requests that share a key have the same page. */
  lemma SameKeySamePage<Docs>(site: Site<Docs>, p: string, m: Params, q: string, n: Params)
    requires site.Configured() && p in site.routes && q in site.routes && PlainNames(m) && PlainNames(n)
    requires site.Key(p, m) == site.Key(q, n)
    ensures site.Render(p, m) == site.Render(q, n)
  {
    match (site.routes[p], site.routes[q])
    case (ArtefactRoute(a), ArtefactRoute(b)) => ArtefactKeyInjective(a, m, b, n);
    case (LayoutRoute(r), LayoutRoute(s)) => LayoutKeyInjective(p, PagesText(r), m, q, PagesText(s), n);
    case (ArtefactRoute(a), LayoutRoute(s)) => KindsApart(a, m, q, PagesText(s), n);
    case (LayoutRoute(r), ArtefactRoute(b)) => KindsApart(b, n, p, PagesText(r), m);
  }

  /** Every resident page is what rendering gives for each request of its key. */
  ghost predicate Sound<Docs>(site: Site<Docs>, c: Recency) {
    forall i | 0 <= i < |c| :: SoundAt(site, c[i].0, c[i].1)
  }

  ghost predicate SoundAt<Docs>(site: Site<Docs>, key: string, page: Page) {
    forall path, params | path in site.routes && PlainNames(params) && site.Key(path, params) == key ::
      site.Render(path, params) == Some(page)
  }

  lemma GetStaysSound<Docs>(site: Site<Docs>, c: Recency, key: string)
    requires Sound(site, c)
    ensures Sound(site, AfterGet(c, key))
    ensures Hit(c, key).Some? ==> SoundAt(site, key, Hit(c, key).value)
  {
    var t := AfterGet(c, key);
    assert forall i | 0 <= i < |t| :: t[i] in c;
  }

  lemma SetStaysSound<Docs>(site: Site<Docs>, c: Recency, path: string, params: Params, page: Page)
    requires Sound(site, c) && site.Configured() && path in site.routes && PlainNames(params)
    requires site.Render(path, params) == Some(page)
    ensures Sound(site, AfterSet(c, site.Key(path, params), page))
  {
    var key := site.Key(path, params);
    assert SoundAt(site, key, page) by {
      forall q, n | q in site.routes && PlainNames(n) && site.Key(q, n) == key ensures site.Render(q, n) == Some(page) {
        SameKeySamePage(site, path, params, q, n);
      }
    }
    var t := AfterSet(c, key, page);
    assert forall i | 0 <= i < |t| :: t[i] == (key, page) || t[i] in c;
  }

  /** What a lookup finds is the page of every request with that key. */
  method LookUp<Docs>(cache: Cache, site: Site<Docs>, key: string) returns (page: Option<Page>)
    requires cache.Valid() && Sound(site, cache.Contents())
    modifies cache.Repr
    ensures cache.Valid() && fresh(cache.Repr - old(cache.Repr)) && Sound(site, cache.Contents())
    ensures page.Some? ==> SoundAt(site, key, page.value)
  {
    GetStaysSound(site, cache.Contents(), key);
    page := cache.Get(key);
  }

  method ServeArtefact<Docs>(cache: Cache, site: Site<Docs>, path: string, query: string) returns (resp: Response)
    requires cache.Valid() && Sound(site, cache.Contents()) && site.Configured()
    requires path in site.routes && site.routes[path].ArtefactRoute?
    modifies cache.Repr
    ensures cache.Valid() && fresh(cache.Repr - old(cache.Repr)) && Sound(site, cache.Contents())
    ensures resp == site.Uncached(path, query)
  {
    var v := site.validate(path, query);
    if !v.valid { return site.MissingParams(path, query, v.params); }
    var key := BuildCacheKey(site.routes[path].name, v.params);
    var page := LookUp(cache, site, key);
    if page.Some? {
      assert site.Key(path, v.params) == key;
      CachedIsUncached(site, path, query, page.value);
      var docs := site.OptionDocs(path, v.params);
      if docs.None? { return Failed; }
      return site.Html(page.value, path, query, docs.value);
    }
    resp := RenderArtefact(cache, site, path, query, key);
  }

  /** A page that is cached for a request is completed to the answer without a cache. */
  lemma CachedIsUncached<Docs>(site: Site<Docs>, path: string, query: string, page: Page)
    requires path in site.routes && site.validate(path, query).valid
    requires site.Render(path, site.validate(path, query).params) == Some(page)
    ensures var docs := site.OptionDocs(path, site.validate(path, query).params);
            docs.Some? && site.Uncached(path, query) == site.Html(page, path, query, docs.value)
  {
  }

  /** A miss: reload, render, and keep the page. */
  method RenderArtefact<Docs>(cache: Cache, site: Site<Docs>, path: string, query: string, key: string)
    returns (resp: Response)
    requires cache.Valid() && Sound(site, cache.Contents()) && site.Configured()
    requires path in site.routes && site.routes[path].ArtefactRoute? && site.validate(path, query).valid
    requires key == site.Key(path, site.validate(path, query).params)
    modifies cache.Repr
    ensures cache.Valid() && fresh(cache.Repr - old(cache.Repr)) && Sound(site, cache.Contents())
    ensures resp == site.Uncached(path, query)
  {
    var params := site.validate(path, query).params;
    var docs := site.Reload(params);
    if docs.None? { return Failed; }
    var page := site.renderArtefact(site.routes[path].name, docs.value);
    if page.None? { return Failed; }
    SetStaysSound(site, cache.Contents(), path, params, page.value);
    cache.Set(key, page.value);
    resp := site.Html(page.value, path, query, docs.value);
  }

  method ServeLayout<Docs>(cache: Cache, site: Site<Docs>, path: string, query: string) returns (resp: Response)
    requires cache.Valid() && Sound(site, cache.Contents()) && site.Configured()
    requires path in site.routes && site.routes[path].LayoutRoute?
    modifies cache.Repr
    ensures cache.Valid() && fresh(cache.Repr - old(cache.Repr)) && Sound(site, cache.Contents())
    ensures resp == site.Uncached(path, query)
  {
    var v := site.validate(path, query);
    if !v.valid { return site.MissingParams(path, query, v.params); }
    var docs := site.Reload(v.params);
    if docs.None? { return Failed; }
    var key := BuildLayoutPagesCacheKey(path, site.routes[path].refs, v.params);
    var page := LookUp(cache, site, key);
    if page.Some? {
      assert site.Key(path, v.params) == key;
      return site.Html(page.value, path, query, docs.value);
    }
    page := site.renderLayout(path, docs.value, v.params);
    if page.None? { return Failed; }
    SetStaysSound(site, cache.Contents(), path, v.params, page.value);
    cache.Set(key, page.value);
    resp := site.Html(page.value, path, query, docs.value);
  }

  datatype Request = PageRequest(path: string, query: string) | DataRequest(kind: string, name: string, hash: string)

  /** A whole run of a server: whatever is cached or evicted on the way, every page is the page without a cache. */
  method ServeAll<Docs>(site: Site<Docs>, requests: seq<Request>) returns (responses: seq<Response>)
    requires site.Configured()
    ensures |responses| == |requests|
    ensures forall i | 0 <= i < |requests| && requests[i].PageRequest? ::
              Answers(site, requests[i].path, requests[i].query, responses[i])
  {
    var cache := new Cache();
    responses := [];
    for i := 0 to |requests|
      invariant cache.Valid() && fresh(cache.Repr) && Sound(site, cache.Contents())
      invariant |responses| == i
      invariant forall j | 0 <= j < i && requests[j].PageRequest? ::
                  Answers(site, requests[j].path, requests[j].query, responses[j])
    {
      var response;
      match requests[i] {
        case DataRequest(kind, name, hash) =>
          var body := cache.Data(kind, name, hash);
          response := DataBody(body);
        case PageRequest(path, query) =>
          if path !in site.routes {
            response := NotFound;
          } else if site.routes[path].ArtefactRoute? {
            response := ServeArtefact(cache, site, path, query);
          } else {
            response := ServeLayout(cache, site, path, query);
          }
          UncachedAnswers(site, path, query, response);
      }
      responses := responses + [response];
    }
  }
}
