/** Runs of incremental reloads, and the layers a reload can miss. */
module ReloadRuns {
  import opened Values
  import opened FileTracker
  import opened Load
  import opened Selection
  import opened Incremental
  import Compose
  import Merge

  /** Every load returns data that composes, and the files of the cached layers
      are still there. */
  ghost predicate Steady(o: Options, s: Sources, w: World) {
    && Cached(s)
    && (forall i :: 0 <= i < |s.loaders| ==> Clean(o, s.loaders[i], w))
    && forall i, f :: 0 <= i < |s.loaders| && !NonFile(s.loaders[i].source) && f in PathsOf(s.loaders[i], s.parts[i])
         ==> f in w.disk
  }

  /** The files of every layer with a local source are tracked. */
  ghost predicate Covered(s: Sources) {
    && Cached(s)
    && forall i, f :: 0 <= i < |s.loaders| && !NonFile(s.loaders[i].source) && f in PathsOf(s.loaders[i], s.parts[i])
         ==> f in s.tracking.files
  }

  /** Include paths are made absolute, so none looks like a remote source. */
  ghost predicate FilePaths(o: Options) {
    forall q :: o.host.canonical(q).Some? ==> !NonFile(o.host.canonical(q).value)
  }

  /** The layers were all clean where they were built, the tracker knows that
      content, and it tracks every file. */
  ghost predicate Good(o: Options, s: Sources, was: seq<World>) {
    && Sensible(o, s.loaders) && FilePaths(o)
    && Faithful(o, s, was) && Consistent(o, s) && Covered(s)
    && forall i :: 0 <= i < |was| ==> Clean(o, s.loaders[i], was[i])
  }

  lemma SteadyNotStale(o: Options, s: Sources, was: seq<World>, w: World)
    requires Good(o, s, was) && Steady(o, s, w)
    ensures NoneStale(o, s, w)
  {
    hide Compose.ComposeTop, Compose.Free, Consistent, Sensible, FilePaths;
    forall i | 0 <= i < |s.loaders| ensures !Stale(o, s, w, i) {
      var l, p := s.loaders[i], s.parts[i];
      assert BuiltFrom(o, l, p, s.tracking, was[i]) && Clean(o, l, was[i]);
      ComposedIffFree(o, l, was[i], p);
      if PassedOver(o, s, w, i) {
        assert !NonFile(l.source);
        assert l.source in PathsOf(l, p) && forall f :: f in p.deps ==> f in PathsOf(l, p);
      }
    }
  }

  lemma CleanHasData(o: Options, l: Loader, w: World)
    requires Clean(o, l, w)
    ensures HasData(l, w)
  {
  }

  lemma PassCovers(o: Options, s: Sources, w: World, sel: Option<set<string>>)
    requires Cached(s) && Sensible(o, s.loaders) && FilePaths(o) && Apart(s.tracking)
    requires forall i :: 0 <= i < |s.loaders| ==> Clean(o, s.loaders[i], w)
    requires forall i :: 0 <= i < |s.loaders| && !Chosen(s.loaders[i], sel) ==>
               forall f :: f in PathsOf(s.loaders[i], s.parts[i]) ==> f in s.tracking.files
    requires LoadSelected(o, s, w, sel).Ok?
    ensures Covered(LoadSelected(o, s, w, sel).value)
  {
    hide Build, Clean, BuildAll, TrackAll, Assemble, RecordAll, Chosen, Apart, Current;
    BuildAllSize(o, s.loaders, w, sel, s.parts);
    var s' := LoadSelected(o, s, w, sel).value;
    forall i, f | 0 <= i < |s.loaders| && !NonFile(s.loaders[i].source) && f in PathsOf(s.loaders[i], s'.parts[i])
      ensures f in s'.tracking.files
    {
      BuildAllAt(o, s.loaders, w, sel, s.parts, i);
      TrackAllFacts(o, s.loaders, w, sel, s'.parts, s.tracking, i, f);
      if Chosen(s.loaders[i], sel) {
        CleanHasData(o, s.loaders[i], w);
        DataHasLayer(o, s.loaders[i], w, s'.parts[i]);
        DataReads(o, s.loaders[i], w, s'.parts[i], f);
      }
    }
  }

  /** A full load of clean sources leaves a good state, whatever came before. */
  lemma CleanLoadIsGood(o: Options, s: Sources, w: World)
    requires Cached(s) && Sensible(o, s.loaders) && FilePaths(o) && Apart(s.tracking)
    requires forall i :: 0 <= i < |s.loaders| ==> Clean(o, s.loaders[i], w)
    requires Reload(o, s, w, false).Ok?
    ensures Good(o, Reload(o, s, w, false).value, Everywhere(w, |s.loaders|))
  {
    hide LoadSelected, Faithful, Consistent, Covered, Sensible, Clean, FilePaths, Apart;
    FullLoadIsFaithful(o, s, w);
    PassCovers(o, s, w, None);
    LoadKeepsLoaders(o, s, w, None);
  }

  lemma KeptCovered(o: Options, s: Sources, w: World, i: nat)
    requires Cached(s) && Covered(s) && Steady(o, s, w) && Apart(s.tracking) && i < |s.loaders|
    requires s.loaders[i].source !in Select(o, s, w).selected
    ensures forall f :: f in PathsOf(s.loaders[i], s.parts[i]) ==> f in Select(o, s, w).tracking.files
  {
    hide Select, Clean, Apart, Quiet;
    SelectFacts(o, s, w, i, "");
  }

  /** One steady incremental reload: it shows what a full one shows, and leaves
      a good state. */
  lemma SteadyReload(o: Options, s: Sources, was: seq<World>, w: World)
    requires Good(o, s, was) && Steady(o, s, w)
    ensures Shown(Reload(o, s, w, true)) == Shown(Reload(o, s, w, false))
    ensures Reload(o, s, w, true).Ok? ==>
              Good(o, Reload(o, s, w, true).value, if Select(o, s, w).selected == {} then was else Everywhere(w, |was|))
  {
    hide Select, LoadSelected, Clean, Sensible, BuiltFrom, Stale, Consistent, Covered, FilePaths;
    SteadyNotStale(o, s, was, w);
    IncrementalIsFull(o, s, was, w);
    if Reload(o, s, w, true).Ok? {
      IncrementalKeepsFaithful(o, s, was, w);
      var p := Select(o, s, w);
      if p.selected != {} {
        SelectFacts(o, s, w, 0, "");
        forall i | 0 <= i < |s.loaders| && !Chosen(s.loaders[i], Some(p.selected))
          ensures forall f :: f in PathsOf(s.loaders[i], s.parts[i]) ==> f in p.tracking.files
        {
          KeptCovered(o, s, w, i);
        }
        PassCovers(o, s.(tracking := p.tracking), w, Some(p.selected));
        LoadKeepsLoaders(o, s.(tracking := p.tracking), w, Some(p.selected));
      }
    }
  }

  lemma LoadKeepsLoaders(o: Options, s: Sources, w: World, sel: Option<set<string>>)
    requires LoadSelected(o, s, w, sel).Ok?
    ensures LoadSelected(o, s, w, sel).value.loaders == s.loaders
  {
  }

  function ReloadRun(o: Options, s: Sources, ws: seq<World>): Result<Sources, Error>
    requires Cached(s)
    decreases |ws|
  {
    if ws == [] then Ok(s)
    else match Reload(o, s, ws[0], true)
      case Err(e) => Err(e)
      case Ok(s') =>
        ReloadSize(o, s, ws[0], true);
        ReloadRun(o, s', ws[1..])
  }

  lemma ReloadSize(o: Options, s: Sources, w: World, incremental: bool)
    requires Cached(s) && Reload(o, s, w, incremental).Ok?
    ensures Cached(Reload(o, s, w, incremental).value)
  {
    hide BuildAll, Select, Assemble, RecordAll, TrackAll;
    BuildAllSize(o, s.loaders, w, None, s.parts);
    BuildAllSize(o, s.loaders, w, Some(Select(o, s, w).selected), s.parts);
  }

  ghost predicate SteadyRun(o: Options, s: Sources, ws: seq<World>)
    decreases |ws|
  {
    ws == [] || (Steady(o, s, ws[0]) && (Reload(o, s, ws[0], true).Ok? ==>
        SteadyRun(o, Reload(o, s, ws[0], true).value, ws[1..])))
  }

  lemma {:induction false} RunKeepsGood(o: Options, s: Sources, was: seq<World>,
      ws: seq<World>) returns (was': seq<World>)
    requires Good(o, s, was) && SteadyRun(o, s, ws) && ReloadRun(o, s, ws).Ok?
    ensures Good(o, ReloadRun(o, s, ws).value, was')
    decreases |ws|
  {
    hide Good, Reload, Steady;
    assert Cached(s) by { GoodIsCached(o, s, was); }
    if ws == [] {
      was' := was;
    } else {
      SteadyReload(o, s, was, ws[0]);
      ReloadSize(o, s, ws[0], true);
      was' := RunKeepsGood(o, Reload(o, s, ws[0], true).value,
                           if Select(o, s, ws[0]).selected == {} then was else Everywhere(ws[0], |was|), ws[1..]);
    }
  }

  lemma GoodIsCached(o: Options, s: Sources, was: seq<World>)
    requires Good(o, s, was)
    ensures Cached(s)
  {
  }

  lemma SteadyRunPrefix(o: Options, s: Sources, ws: seq<World>)
    requires Cached(s) && ws != [] && SteadyRun(o, s, ws)
    ensures SteadyRun(o, s, ws[..|ws| - 1])
    ensures ReloadRun(o, s, ws).Ok? ==>
              var s' := ReloadRun(o, s, ws[..|ws| - 1]);
              s'.Ok? && Cached(s'.value) && Steady(o, s'.value, ws[|ws| - 1]) &&
              Reload(o, s'.value, ws[|ws| - 1], true) == ReloadRun(o, s, ws)
    decreases |ws|
  {
    hide Reload, Steady;
    var n := |ws| - 1;
    if n > 0 {
      if Reload(o, s, ws[0], true).Ok? {
        ReloadSize(o, s, ws[0], true);
        SteadyRunPrefix(o, Reload(o, s, ws[0], true).value, ws[1..]);
        assert ws[1..][..n - 1] == ws[..n][1..];
      }
    } else {
      assert ws[..0] == [];
    }
  }

  /** After any number of incremental reloads, over any sequence of edits in
      which every load returned data and no file disappeared, the layers, both
      maps and the plan are those of one full load of the last world. */
  lemma RunIsFullLoad(o: Options, s: Sources, was: seq<World>, ws: seq<World>)
    requires Good(o, s, was) && SteadyRun(o, s, ws) && ws != [] && ReloadRun(o, s, ws).Ok?
    ensures Cached(ReloadRun(o, s, ws).value)
    ensures Shown(ReloadRun(o, s, ws)) == Shown(Reload(o, ReloadRun(o, s, ws).value, ws[|ws| - 1], false))
  {
    hide *;
    GoodIsCached(o, s, was);
    var w := ws[|ws| - 1];
    SteadyRunPrefix(o, s, ws);
    var s' := ReloadRun(o, s, ws[..|ws| - 1]).value;
    var was' := RunKeepsGood(o, s, was, ws[..|ws| - 1]);
    SteadyReload(o, s', was', w);
    ReloadSize(o, s', w, true);
    ReloadKeepsLoaders(o, s', w);
    FullIgnoresCache(o, s', ReloadRun(o, s, ws).value, w);
  }

  /** From the first load on: a full load of clean sources over an empty tracker,
      then steady incremental reloads. */
  lemma LoadedRunIsFullLoad(o: Options, s0: Sources, w: World, s: Sources, ws: seq<World>)
    requires Cached(s0) && Sensible(o, s0.loaders) && FilePaths(o) && s0.tracking == Tracking(map[], {})
    requires forall i :: 0 <= i < |s0.loaders| ==> Clean(o, s0.loaders[i], w)
    requires Reload(o, s0, w, false) == Ok(s) && Cached(s)
    requires SteadyRun(o, s, ws) && ReloadRun(o, s, ws).Ok? && ws != []
    ensures Shown(ReloadRun(o, s, ws)) == Shown(Reload(o, s0, ws[|ws| - 1], false))
  {
    EmptyApart(s0.tracking);
    hide *;
    CleanLoadIsGood(o, s0, w);
    RunIsFullLoad(o, s, Everywhere(w, |s0.loaders|), ws);
    LoadKeeps(o, s0, w, s);
    RunKeepsLoaders(o, s, ws);
    RunSize(o, s, ws);
    FullIgnoresCache(o, s0, ReloadRun(o, s, ws).value, ws[|ws| - 1]);
  }

  lemma LoadKeeps(o: Options, s0: Sources, w: World, s: Sources)
    requires Cached(s0) && Reload(o, s0, w, false) == Ok(s)
    ensures s.loaders == s0.loaders
  {
    LoadKeepsLoaders(o, s0, w, None);
    hide LoadSelected;
  }

  lemma EmptyApart(t: Tracking)
    requires t == Tracking(map[], {})
    ensures Apart(t)
  {
  }

  lemma {:induction false} RunSize(o: Options, s: Sources, ws: seq<World>)
    requires Cached(s) && ReloadRun(o, s, ws).Ok?
    ensures Cached(ReloadRun(o, s, ws).value)
    decreases |ws|
  {
    hide Reload;
    if ws != [] {
      ReloadSize(o, s, ws[0], true);
      RunSize(o, Reload(o, s, ws[0], true).value, ws[1..]);
    }
  }

  lemma {:induction false} RunKeepsLoaders(o: Options, s: Sources, ws: seq<World>)
    requires Cached(s) && ReloadRun(o, s, ws).Ok?
    ensures ReloadRun(o, s, ws).value.loaders == s.loaders
    decreases |ws|
  {
    hide Reload;
    if ws != [] {
      ReloadSize(o, s, ws[0], true);
      ReloadKeepsLoaders(o, s, ws[0]);
      RunKeepsLoaders(o, Reload(o, s, ws[0], true).value, ws[1..]);
    }
  }

  lemma ReloadKeepsLoaders(o: Options, s: Sources, w: World)
    requires Cached(s) && Reload(o, s, w, true).Ok?
    ensures Reload(o, s, w, true).value.loaders == s.loaders
  {
    hide Select, BuildAll, Assemble, RecordAll, TrackAll;
  }

  /** A full load does not look at what was cached. */
  lemma FullIgnoresCache(o: Options, s: Sources, s': Sources, w: World)
    requires Cached(s) && Cached(s') && s.loaders == s'.loaders
    ensures Shown(Reload(o, s, w, false)) == Shown(Reload(o, s', w, false))
  {
    hide BuildAll, Build, Assemble, RecordAll, TrackAll;
    BuildAllAgree(o, s.loaders, w, None, s.parts, None, s'.parts);
  }

  /** Under the raise policy, while the files of the layers that hold data stay
      readable, an incremental reload misses a layer exactly when a source that
      had been dropped for lack of data has data again and is passed over. */
  lemma DroppedIff(o: Options, s: Sources, was: seq<World>, w: World)
    requires Sensible(o, s.loaders) && Faithful(o, s, was) && o.policy == Raise
    requires forall i :: 0 <= i < |s.parts| && s.parts[i].layer.Some? ==>
              Watched(s.tracking, w, s.loaders[i], s.parts[i])
    requires FullLayers(o, s, w).Ok?
    ensures PartialLayers(o, s, w) == FullLayers(o, s, w) <==>
            forall i :: 0 <= i < |s.parts| && s.parts[i].layer.None? && PassedOver(o, s, w, i) ==>
              !s.loaders[i].fetch(Content(s.loaders[i], w)).Data?
  {
    hide PassedOver, Outdated, Build, BuildAll, Sensible, BuiltFrom, Watched, PartialLayers;
    IncrementalIff(o, s, was, w);
    forall i | 0 <= i < |s.parts|
      ensures Stale(o, s, w, i) <==>
              s.parts[i].layer.None? && PassedOver(o, s, w, i) && s.loaders[i].fetch(Content(s.loaders[i], w)).Data?
    {
      BuildAllAt(o, s.loaders, w, None, s.parts, i);
      WatchedOutdated(o, s, was[i], w, i);
    }
    hide Stale;
  }

  lemma WatchedOutdated(o: Options, s: Sources, was: World, w: World, i: nat)
    requires Cached(s) && i < |s.loaders| && o.policy == Raise && Build(o, s.loaders[i], w).Ok?
    requires BuiltFrom(o, s.loaders[i], s.parts[i], s.tracking, was)
    requires s.parts[i].layer.Some? ==> Watched(s.tracking, w, s.loaders[i], s.parts[i])
    ensures Outdated(o, s, w, i) <==>
            s.parts[i].layer.None? && s.loaders[i].fetch(Content(s.loaders[i], w)).Data?
  {
    hide Compose.ComposeTop, Compose.Free;
    var l, p := s.loaders[i], s.parts[i];
    if p.layer.Some? {
      SomeLayer(o, l, p, was, s.tracking);
      ComposedIffFree(o, l, was, p);
      assert l.source in PathsOf(l, p) && forall f :: f in p.deps ==> f in PathsOf(l, p);
    }
  }
}
