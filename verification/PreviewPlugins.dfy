/** Plugin reloads against refreshes in the preview: what is rendered, and when the browser loads the page again. */
module PreviewPlugins {
  import opened Text
  import opened Sequences

  datatype Event =
    | Refreshing
    | ReloadFailed
    | Reloaded
    | Rendered(full: bool, ok: bool)
    | ShownError
    | Done
    | PageReload

  /** What the surroundings do in one refresh: cancellation, what changed, how the reload and the render end. */
  datatype Input = Input(cancelled: bool, changed: bool, reloadError: Option<string>, files: Option<seq<string>>,
                         runError: Option<string>, cancelledMeanwhile: bool)

  class Server {
    var events: seq<Event>

    constructor ()
      ensures events == []
    {
      events := [];
    }

    method Broadcast(e: Event)
      modifies this
      ensures events == old(events) + [e]
    {
      events := events + [e];
    }
  }

  class Plugins {
    /** The last failed reload. */
    var err: Option<string>
    /** Set by a reload, cleared by the next refresh that succeeds. */
    var stale: bool

    constructor ()
      ensures err == None && !stale
    {
      err, stale := None, false;
    }

    method ReloadIfChanged(server: Server, changed: bool, reloadError: Option<string>)
      returns (full: bool, e: Option<string>)
      modifies this, server
      ensures !changed ==> full == old(stale) && e == old(err) && err == old(err) && stale == old(stale)
                           && server.events == old(server.events)
      ensures changed && reloadError.Some? ==>
                e == reloadError && err == reloadError && stale == old(stale)
                    && server.events == old(server.events) + [ReloadFailed]
      ensures changed && reloadError.None? ==>
                full && e == None && err == None && stale && server.events == old(server.events) + [Reloaded]
    {
      if !changed { return stale, err; }
      if reloadError.Some? {
        server.Broadcast(ReloadFailed);
        err := reloadError;
        return false, err;
      }
      server.Broadcast(Reloaded);
      err := None;
      stale := true;
      return true, None;
    }

    method Refreshed(server: Server)
      modifies this, server
      ensures err == old(err) && !stale
      ensures server.events == old(server.events) + if old(stale) then [PageReload] else []
    {
      if !stale { return; }
      stale := false;
      server.Broadcast(PageReload);
    }
  }

  // ------------------------------------------------- one refresh as a value

  /** The plugin state; a preview without plugins has none. */
  datatype State = NoPlugins | State(failed: bool, stale: bool)

  function AfterReload(st: State, i: Input): State {
    if st.NoPlugins? || !i.changed then st
    else if i.reloadError.Some? then st.(failed := true)
    else State(false, true)
  }

  function ReloadEvents(st: State, i: Input): seq<Event> {
    if st.NoPlugins? || !i.changed then [] else if i.reloadError.Some? then [ReloadFailed] else [Reloaded]
  }

  function Error(e: bool, i: Input): seq<Event> {
    if e && !i.cancelledMeanwhile then [ShownError] else []
  }

  function Cycle(st: State, i: Input): (State, seq<Event>) {
    if i.cancelled then (st, [])
    else
      var mid := AfterReload(st, i);
      var head := [Refreshing] + ReloadEvents(st, i);
      if mid.State? && mid.failed then (mid, head + (Error(true, i) + [Done]))
      else
        var (st', events) := Render(mid, i);
        (st', head + events)
  }

  /** Rendering, and what a successful one does to stale plugins. */
  function Render(mid: State, i: Input): (State, seq<Event>) {
    var full, ok := (mid.State? && mid.stale) || i.files.None?, i.runError.None?;
    var ran := [Rendered(full, ok)] + (Error(!ok, i) + [Done]);
    if ok && mid.State? && mid.stale then (mid.(stale := false), ran + [PageReload]) else (mid, ran)
  }

  ghost function StateOf(p: Plugins?): State
    reads p
  {
    if p == null then NoPlugins else State(p.err.Some?, p.stale)
  }

  predicate FailedPlugins(st: State) {
    st.State? && st.failed
  }

  /** One refresh in order: nothing when it is cancelled; else the announcement, the outcome of a reload if the plugins
      changed, a render unless the plugins have failed, the error unless the refresh was cancelled meanwhile, the end,
      and the page again if a render succeeds while the plugins are stale. */
  lemma RefreshInOrder(st: State, i: Input)
    ensures var reloads := st.State? && i.changed;
            var fails := if reloads then i.reloadError.Some? else FailedPlugins(st);
            var awaited := if reloads then i.reloadError.None? || st.stale else st.State? && st.stale;
            var ok := !fails && i.runError.None?;
            && (i.cancelled ==> Cycle(st, i) == (st, []))
            && (!i.cancelled ==>
                  Cycle(st, i).1 ==
                    [Refreshing]
                    + (if reloads then [if fails then ReloadFailed else Reloaded] else [])
                    + (if fails then [] else [Rendered(awaited || i.files.None?, ok)])
                    + (if !ok && !i.cancelledMeanwhile then [ShownError] else [])
                    + [Done]
                    + (if ok && awaited then [PageReload] else []))
            && (!i.cancelled ==> Cycle(st, i).0 == if st.NoPlugins? then st else State(fails, awaited && !ok))
  {
    Regroup([Refreshing] + ReloadEvents(st, i), Error(true, i), [Done]);
  }

  /** The refresh that the initial load, the watcher and the plugin poll all go through. */
  method DoRefresh(plugins: Plugins?, server: Server, i: Input) returns (failed: bool)
    modifies plugins, server
    ensures StateOf(plugins) == Cycle(old(StateOf(plugins)), i).0
    ensures server.events == old(server.events) + Cycle(old(StateOf(plugins)), i).1
    ensures failed <==> i.cancelled || FailedPlugins(StateOf(plugins)) || i.runError.Some?
  {
    if i.cancelled { return true; }
    ghost var ev, st := server.events, StateOf(plugins);
    server.Broadcast(Refreshing);
    var full, e := Reload(plugins, server, i);
    ghost var head := [Refreshing] + ReloadEvents(st, i);
    assert server.events == ev + head;
    if e.Some? {
      Finish(server, true, i);
      Regroup(ev, head, Error(true, i) + [Done]);
      return true;
    }
    var files := if full then None else i.files;
    var ok := i.runError.None?;
    server.Broadcast(Rendered(files.None?, ok));
    Finish(server, !ok, i);
    ghost var ran := [Rendered(files.None?, ok)] + (Error(!ok, i) + [Done]);
    Regroup(ev + head, [Rendered(files.None?, ok)], Error(!ok, i) + [Done]);
    Regroup(ev, head, ran);
    Regroup(head, ran, [PageReload]);
    Regroup(ev, head + ran, [PageReload]);
    if !ok { return true; }
    if plugins != null {
      plugins.Refreshed(server);
    }
    failed := false;
  }

  method Reload(plugins: Plugins?, server: Server, i: Input) returns (full: bool, e: Option<string>)
    modifies plugins, server
    ensures StateOf(plugins) == AfterReload(old(StateOf(plugins)), i)
    ensures server.events == old(server.events) + ReloadEvents(old(StateOf(plugins)), i)
    ensures e.Some? <==> StateOf(plugins).State? && StateOf(plugins).failed
    ensures e.None? ==> (full <==> StateOf(plugins).State? && StateOf(plugins).stale)
  {
    if plugins == null { return false, None; }
    full, e := plugins.ReloadIfChanged(server, i.changed, i.reloadError);
  }

  method Finish(server: Server, e: bool, i: Input)
    modifies server
    ensures server.events == old(server.events) + (Error(e, i) + [Done])
  {
    ghost var ev := server.events;
    if e && !i.cancelledMeanwhile { server.Broadcast(ShownError); }
    server.Broadcast(Done);
    assert server.events == ev + (Error(e, i) + [Done]);
  }

  // ---------------------------------------------------------- over all runs

  function Run(st: State, inputs: seq<Input>): (State, seq<Event>) {
    if inputs == [] then (st, [])
    else
      var (s, tr) := Run(st, inputs[..|inputs| - 1]);
      var (s', more) := Cycle(s, inputs[|inputs| - 1]);
      (s', tr + more)
  }

  lemma RunNext(st: State, inputs: seq<Input>, n: nat, ev: seq<Event>)
    requires n < |inputs|
    ensures var (s, tr) := Run(st, inputs[..n]);
            && Run(st, inputs[..n + 1]).0 == Cycle(s, inputs[n]).0
            && ev + Run(st, inputs[..n + 1]).1 == ev + tr + Cycle(s, inputs[n]).1
  {
    TakeNext(inputs, n);
    var (s, tr) := Run(st, inputs[..n]);
    Regroup(ev, tr, Cycle(s, inputs[n]).1);
  }

  method RunPreview(plugins: Plugins?, server: Server, inputs: seq<Input>)
    modifies plugins, server
    ensures StateOf(plugins) == Run(old(StateOf(plugins)), inputs).0
    ensures server.events == old(server.events) + Run(old(StateOf(plugins)), inputs).1
  {
    ghost var st, ev := StateOf(plugins), server.events;
    for n := 0 to |inputs|
      invariant StateOf(plugins) == Run(st, inputs[..n]).0
      invariant server.events == ev + Run(st, inputs[..n]).1
    {
      RunNext(st, inputs, n, ev);
      var _ := DoRefresh(plugins, server, inputs[n]);
    }
    assert inputs[..|inputs|] == inputs;
  }

  /** The last reload of the trace failed. */
  function LastReloadFailed(tr: seq<Event>): bool {
    if tr == [] then false
    else match tr[|tr| - 1]
      case ReloadFailed => true
      case Reloaded => false
      case _ => LastReloadFailed(tr[..|tr| - 1])
  }

  /** A reload succeeded and no render has succeeded since. */
  function AwaitsRender(tr: seq<Event>): bool {
    if tr == [] then false
    else match tr[|tr| - 1]
      case Reloaded => true
      case Rendered(_, true) => false
      case _ => AwaitsRender(tr[..|tr| - 1])
  }

  /** A render never runs after a failed reload; one that is awaited is full; and the page is loaded again after
      exactly the awaited renders that succeed. */
  ghost predicate Conforms(tr: seq<Event>) {
    forall j | 0 <= j < |tr| :: ConformsAt(tr, j)
  }

  ghost predicate ConformsAt(tr: seq<Event>, j: nat)
    requires j < |tr|
  {
    && (tr[j].Rendered? ==>
          && !LastReloadFailed(tr[..j])
          && (AwaitsRender(tr[..j]) ==> tr[j].full)
          && (tr[j].ok && AwaitsRender(tr[..j]) ==> j + 2 < |tr| && tr[j + 2] == PageReload))
    && (tr[j] == PageReload ==>
          j >= 2 && tr[j - 2].Rendered? && tr[j - 2].ok && AwaitsRender(tr[..j - 2]))
  }

  function Count(tr: seq<Event>, e: Event): nat {
    if tr == [] then 0 else Count(tr[..|tr| - 1], e) + if tr[|tr| - 1] == e then 1 else 0
  }

  lemma Snoc(tr: seq<Event>, e: Event)
    ensures LastReloadFailed(tr + [e]) ==
            if e == ReloadFailed then true else if e == Reloaded then false else LastReloadFailed(tr)
    ensures AwaitsRender(tr + [e]) ==
            if e == Reloaded then true else if e.Rendered? && e.ok then false else AwaitsRender(tr)
    ensures forall x :: Count(tr + [e], x) == Count(tr, x) + if e == x then 1 else 0
  {
    assert (tr + [e])[..|tr|] == tr;
  }

  lemma KeepsConforming(tr: seq<Event>, more: seq<Event>)
    requires Conforms(tr)
    requires forall j | |tr| <= j < |tr + more| :: ConformsAt(tr + more, j)
    ensures Conforms(tr + more)
  {
    var t := tr + more;
    forall j | 0 <= j < |t| ensures ConformsAt(t, j) {
      if j < |tr| {
        assert ConformsAt(tr, j);
        assert t[..j] == tr[..j] && t[j] == tr[j];
        assert j + 2 < |tr| ==> t[j + 2] == tr[j + 2];
        if j >= 2 {
          assert t[..j - 2] == tr[..j - 2] && t[j - 2] == tr[j - 2];
        }
      }
    }
  }

  lemma AppendPlain(tr: seq<Event>, e: Event)
    requires Conforms(tr) && !e.Rendered? && e != PageReload
    ensures Conforms(tr + [e])
  {
    assert ConformsAt(tr + [e], |tr|);
    KeepsConforming(tr, [e]);
  }

  lemma AppendRender(tr: seq<Event>, full: bool, ok: bool)
    requires Conforms(tr) && !LastReloadFailed(tr) && (AwaitsRender(tr) ==> full && !ok)
    ensures Conforms(tr + [Rendered(full, ok)])
  {
    var t := tr + [Rendered(full, ok)];
    assert t[..|tr|] == tr;
    assert ConformsAt(t, |tr|);
    KeepsConforming(tr, [Rendered(full, ok)]);
  }

  lemma AppendAwaited(tr: seq<Event>)
    requires Conforms(tr) && !LastReloadFailed(tr) && AwaitsRender(tr)
    ensures Conforms(tr + [Rendered(true, true), Done, PageReload])
  {
    var more := [Rendered(true, true), Done, PageReload];
    var t := tr + more;
    assert t[..|tr|] == tr;
    assert ConformsAt(t, |tr|) && ConformsAt(t, |tr| + 1);
    assert t[..|tr| + 2 - 2] == tr;
    assert ConformsAt(t, |tr| + 2);
    KeepsConforming(tr, more);
  }

  /** Whether the plugins are broken, and whether they wait for a render. */
  function Flags(st: State): (bool, bool) {
    if st.NoPlugins? then (false, false) else (st.failed, st.stale)
  }

  /** What holds of the state and the trace between two refreshes. */
  ghost predicate Good(st: State, tr: seq<Event>) {
    && Conforms(tr)
    && Flags(st) == (LastReloadFailed(tr), AwaitsRender(tr))
    && Count(tr, PageReload) + (if AwaitsRender(tr) then 1 else 0) <= Count(tr, Reloaded)
  }

  lemma PlainStep(st: State, tr: seq<Event>, e: Event)
    requires Good(st, tr) && (e == Refreshing || e == ShownError || e == Done)
    ensures Good(st, tr + [e])
  {
    AppendPlain(tr, e);
    Snoc(tr, e);
  }

  lemma ReloadStep(st: State, tr: seq<Event>, i: Input)
    requires Good(st, tr)
    ensures Good(AfterReload(st, i), tr + ReloadEvents(st, i))
  {
    var r := ReloadEvents(st, i);
    if r == [] {
      assert tr + r == tr;
    } else {
      AppendPlain(tr, r[0]);
      Snoc(tr, r[0]);
      assert r == [r[0]];
    }
  }

  lemma HeadStep(st: State, tr: seq<Event>, i: Input)
    requires Good(st, tr)
    ensures Good(AfterReload(st, i), tr + ([Refreshing] + ReloadEvents(st, i)))
  {
    PlainStep(st, tr, Refreshing);
    ReloadStep(st, tr + [Refreshing], i);
    Regroup(tr, [Refreshing], ReloadEvents(st, i));
  }

  lemma TailStep(st: State, tr: seq<Event>, e: bool, i: Input)
    requires Good(st, tr)
    ensures Good(st, tr + (Error(e, i) + [Done]))
  {
    var t := tr + Error(e, i);
    if Error(e, i) != [] {
      PlainStep(st, tr, ShownError);
    } else {
      assert t == tr;
    }
    PlainStep(st, t, Done);
    Regroup(tr, Error(e, i), [Done]);
  }

  lemma RenderStep(st: State, tr: seq<Event>, i: Input)
    requires Good(st, tr) && !Flags(st).0
    ensures Good(Render(st, i).0, tr + Render(st, i).1)
  {
    var full, ok := (st.State? && st.stale) || i.files.None?, i.runError.None?;
    if ok && st.State? && st.stale {
      AppendAwaited(tr);
      var t := tr + [Rendered(true, true)];
      Snoc(tr, Rendered(true, true));
      Snoc(t, Done);
      Snoc(t + [Done], PageReload);
      assert t + [Done] + [PageReload] == tr + [Rendered(true, true), Done, PageReload];
      assert Render(st, i).1 == [Rendered(true, true), Done, PageReload];
    } else {
      AppendRender(tr, full, ok);
      Snoc(tr, Rendered(full, ok));
      TailStep(st, tr + [Rendered(full, ok)], !ok, i);
      Regroup(tr, [Rendered(full, ok)], Error(!ok, i) + [Done]);
    }
  }

  lemma CycleStep(st: State, tr: seq<Event>, i: Input)
    requires Good(st, tr)
    ensures Good(Cycle(st, i).0, tr + Cycle(st, i).1)
  {
    if i.cancelled {
      assert tr + [] == tr;
    } else {
      HeadStep(st, tr, i);
      var mid, head := AfterReload(st, i), [Refreshing] + ReloadEvents(st, i);
      if mid.State? && mid.failed {
        TailStep(mid, tr + head, true, i);
        Regroup(tr, head, Error(true, i) + [Done]);
      } else {
        RenderStep(mid, tr + head, i);
        Regroup(tr, head, Render(mid, i).1);
      }
    }
  }

  /** Over every run of a preview, with plugins or without: nothing renders on failed plugins, the first renders after a
      reload are full until one succeeds, and the page is loaded again exactly then, at most once a reload. */
  lemma {:induction false} EveryRunConforms(st: State, inputs: seq<Input>)
    requires st == NoPlugins || st == State(false, false)
    ensures Conforms(Run(st, inputs).1)
    ensures Count(Run(st, inputs).1, PageReload) <= Count(Run(st, inputs).1, Reloaded)
  {
    RunIsGood(st, inputs);
  }

  lemma {:induction false} RunIsGood(st: State, inputs: seq<Input>)
    requires st == NoPlugins || st == State(false, false)
    ensures Good(Run(st, inputs).0, Run(st, inputs).1)
  {
    if inputs != [] {
      var n := |inputs| - 1;
      RunIsGood(st, inputs[..n]);
      CycleStep(Run(st, inputs[..n]).0, Run(st, inputs[..n]).1, inputs[n]);
    }
  }
}
