/** The params of layoutPages entries for one request: filled from the templates, and never open to another expansion.
    */
module EntryParams {
  import opened Text
  import opened EnvExpand
  import opened CacheKeys

  /** Request params first, then the environment. */
  function Chain(queryParams: map<string, string>, env: Lookup): Lookup {
    (name: string) => if name in queryParams then Some(queryParams[name]) else env(name)
  }

  /** Some reference of the text has a value. */
  predicate FindsAny(ts: seq<Token>, lookup: Lookup) {
    exists t | t in ts :: t.Ref? && lookup(t.name).Some?
  }

  /** The value of one entry param, or None when the page default applies. */
  function Resolve(template: string, startup: Option<string>, noTemplates: bool, lookup: Lookup): Option<string> {
    var (value, missing) := ExpandVars(template, lookup);
    var found := FindsAny(Lex(Escaped(template)), lookup);
    var resolved := (missing == [] || found) && ExpandsToItself(value);
    var chosen := if resolved then value else if startup.Some? then startup.value else "";
    if (!resolved || noTemplates) && (chosen == "" || !ExpandsToItself(chosen)) then None else Some(chosen)
  }

  /** No environment and no request value changes a written value when the page selector expands it again. */
  lemma ResolvedIsInert(template: string, startup: Option<string>, noTemplates: bool, lookup: Lookup)
    requires Resolve(template, startup, noTemplates, lookup).Some?
    ensures var v := Resolve(template, startup, noTemplates, lookup).value;
            forall other: Lookup :: ExpandVars(v, other) == (v, [])
  {
    ProbeDecides(Resolve(template, startup, noTemplates, lookup).value);
  }

  function Startup(ref: PageRef, name: string): Option<string> {
    if name in ref.params then Some(ref.params[name]) else None
  }

  /** One entry after resolution: the page of the startup list, and for an entry with template params exactly the
      params that have a value. */
  ghost predicate EntryResolved(page: PageRef, template: PageRef, noTemplates: bool, lookup: Lookup, r: PageRef) {
    && r.page == page.page
    && if template.params == map[] then r.params == page.params
       else forall name ::
              (name in r.params <==>
                 (name in template.params
                  && Resolve(template.params[name], Startup(page, name), noTemplates, lookup).Some?))
              && (name in r.params ==>
                    r.params[name] == Resolve(template.params[name], Startup(page, name), noTemplates, lookup).value)
  }

  method ResolveEntry(page: PageRef, template: PageRef, noTemplates: bool, lookup: Lookup) returns (r: PageRef)
    ensures EntryResolved(page, template, noTemplates, lookup, r)
  {
    if template.params.Keys == {} { return page; }
    var params: map<string, string> := map[];
    var todo := template.params.Keys;
    while todo != {}
      invariant todo <= template.params.Keys
      invariant forall name ::
        (name in params <==>
           (name in template.params && name !in todo
            && Resolve(template.params[name], Startup(page, name), noTemplates, lookup).Some?))
        && (name in params ==>
              params[name] == Resolve(template.params[name], Startup(page, name), noTemplates, lookup).value)
    {
      var name :| name in todo;
      var value := Resolve(template.params[name], Startup(page, name), noTemplates, lookup);
      if value.Some? {
        params := params[name := value.value];
      }
      todo := todo - {name};
    }
    r := PageRef(page.page, params);
  }

  /** Page names, count and order are the startup list's. The loader hands out templates only when every route has as
      many as the startup list, so each entry has its template. */
  method ResolveLayoutPageParams(layoutPages: seq<PageRef>, templates: Option<seq<PageRef>>,
                                 queryParams: map<string, string>, env: Lookup) returns (refs: seq<PageRef>)
    requires templates.Some? ==> |templates.value| == |layoutPages|
    ensures |refs| == |layoutPages|
    ensures forall i | 0 <= i < |refs| ::
              EntryResolved(layoutPages[i], if templates.Some? then templates.value[i] else layoutPages[i],
                            templates.None?, Chain(queryParams, env), refs[i])
  {
    var from := if templates.Some? then templates.value else layoutPages;
    var lookup := Chain(queryParams, env);
    refs := layoutPages;
    for i := 0 to |layoutPages|
      invariant |refs| == |layoutPages|
      invariant forall j | i <= j < |refs| :: refs[j] == layoutPages[j]
      invariant forall j | 0 <= j < i :: EntryResolved(layoutPages[j], from[j], templates.None?, lookup, refs[j])
    {
      var r := ResolveEntry(refs[i], from[i], templates.None?, lookup);
      refs := refs[i := r];
    }
  }
}
