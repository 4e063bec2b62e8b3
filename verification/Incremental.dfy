/** Reloading only what changed agrees with loading everything. */
module Incremental {
  import opened Values
  import opened FileTracker
  import opened Load
  import opened Selection
  import Compose
  import Merge
  import EnvHandler

  /** A loader that reads no local file says so in its source's prefix, and a
      missing local file yields no data. */
  ghost predicate Honest(l: Loader) {
    (l.local || NonFile(l.source)) && (l.local ==> !l.fetch(None).Data?)
  }

  /** The source loads with data and composes. */
  ghost predicate Clean(o: Options, l: Loader, w: World) {
    l.fetch(Content(l, w)).Data? && Compose.ComposeTop(HostAt(o, w), l.fetch(Content(l, w)).t, l.source).result.Ok?
  }

  /** The source loads with data. */
  ghost predicate HasData(l: Loader, w: World) { l.fetch(Content(l, w)).Data? }

  /** Layer i was built in the world was[i], and every hash the tracker holds for
      one of its files is that of the content it was built from. */
  ghost predicate BuiltFrom(o: Options, l: Loader, p: Part, t: Tracking, was: World) {
    && Build(o, l, was) == Ok(p)
    && (HasData(l, was) ==>
          forall f :: f in PathsOf(l, p) && f in t.files ==> f in was.disk && t.files[f] == o.hash(was.disk[f]))
  }

  ghost predicate Faithful(o: Options, s: Sources, was: seq<World>) {
    && |was| == |s.loaders| == |s.parts| && Apart(s.tracking)
    && forall i :: 0 <= i < |was| ==> BuiltFrom(o, s.loaders[i], s.parts[i], s.tracking, was[i])
  }

  /** Every file of the layer is tracked and still there. */
  ghost predicate Watched(t: Tracking, w: World, l: Loader, p: Part) {
    forall f :: f in PathsOf(l, p) ==> f in t.files && f in w.disk
  }

  /** A clean layer whose files are all tracked and unchanged would be built again. */
  lemma UnchangedRebuilds(o: Options, l: Loader, p: Part, t: Tracking, was: World, w: World)
    requires CollisionFree(o.hash) && l.local && BuiltFrom(o, l, p, t, was) && Clean(o, l, was)
    requires Watched(t, w, l, p) && forall f :: f in PathsOf(l, p) ==> o.hash(w.disk[f]) == t.files[f]
    ensures Build(o, l, w) == Ok(p) && Clean(o, l, w)
  {
    hide Compose.ComposeTop;
    forall f | f in PathsOf(l, p) ensures f in was.disk && was.disk[f] == w.disk[f] {
      assert o.hash(was.disk[f]) == o.hash(w.disk[f]);
    }
    assert l.source in PathsOf(l, p) && forall f :: f in p.deps ==> f in PathsOf(l, p);
    assert Content(l, w) == Content(l, was);
    Compose.DependenciesComplete(HostAt(o, was), HostAt(o, w), l.fetch(Content(l, w)).t, l.source);
  }

  ghost predicate Sensible(o: Options, loaders: seq<Loader>) {
    CollisionFree(o.hash) && forall i :: 0 <= i < |loaders| ==> Honest(loaders[i])
  }

  /** An include that is there, though the tracker has no hash of it. */
  ghost predicate Unhashed(t: Tracking, w: World, deps: seq<string>) {
    exists f :: f in deps && f in w.disk && f !in t.files
  }

  ghost predicate Gone(w: World, deps: seq<string>) { exists f :: f in deps && f !in w.disk }

  /** A cached layer that a load would not give any more, for a source that is
      passed over: a layer dropped for lack of data whose source has data again,
      or cannot be read under the raise policy; a layer whose file is gone; a
      layer used uncomposed, its directives still in it, that composes by now;
      a composed layer one of whose includes is gone. Only an include that was
      gone at an earlier look and is back has no hash to compare: there the
      source has to be composed again. */
  ghost predicate Outdated(o: Options, s: Sources, w: World, i: nat)
    requires Cached(s) && i < |s.loaders|
  {
    var l, p := s.loaders[i], s.parts[i];
    var now := l.fetch(Content(l, w));
    match p.layer
    case None => now.Data? || (now.Failed? && o.policy == Raise)
    case Some(layer) =>
      if l.source !in w.disk then true
      else if !Compose.Free(layer) then Compose.ComposeTop(HostAt(o, w), layer, l.source).result.Ok?
      else if !Unhashed(s.tracking, w, p.deps) then Gone(w, p.deps)
      else now.Data? ==> !Recomposes(o, w, now.t, l.source, p)
  }

  ghost predicate Recomposes(o: Options, w: World, data: Tree, source: string, p: Part) {
    var c := Compose.ComposeTop(HostAt(o, w), data, source);
    c.result.Ok? && p.layer == Some(c.result.value) && p.deps == c.trace.deps
  }

  lemma DroppedOutdated(o: Options, l: Loader, w: World, p: Part)
    requires p == DROPPED
    ensures Build(o, l, w) != Ok(p) <==>
            var now := l.fetch(Content(l, w)); now.Data? || (now.Failed? && o.policy == Raise)
  {
  }

  /** What became of the data of a source: a composed layer is free of
      directives, and one used uncomposed is not. */
  lemma ComposedIffFree(o: Options, l: Loader, w: World, p: Part)
    requires HasData(l, w) && Build(o, l, w) == Ok(p)
    ensures p.layer.Some?
    ensures Compose.Free(p.layer.value) <==> Clean(o, l, w)
    ensures Clean(o, l, w) ==> Recomposes(o, w, l.fetch(Content(l, w)).t, l.source, p)
    ensures !Clean(o, l, w) ==> o.policy != Raise && p == Part(Some(l.fetch(Content(l, w)).t), [])
  {
    var h, t := HostAt(o, w), l.fetch(Content(l, w)).t;
    hide Compose.ComposeTop, Compose.Free;
    Compose.MergersKeepKeys(h, o.merger);
    if Clean(o, l, w) {
      ComposedIsFree(h, t, l.source);
    } else if Compose.Free(t) {
      Compose.FreeComposes(h, t, l.source);
    }
  }

  lemma ComposedIsFree(h: Compose.Host, t: Tree, source: string)
    requires Compose.KeepsKeys(h) && Compose.ComposeTop(h, t, source).result.Ok?
    ensures Compose.Free(Compose.ComposeTop(h, t, source).result.value)
  {
    Compose.NoDirectives(h, t, source, 0, Compose.START);
  }

  lemma UncomposedOutdated(o: Options, l: Loader, w: World, p: Part, t: Tree)
    requires l.fetch(Content(l, w)) == Data(t) && p == Part(Some(t), []) && !Compose.Free(t) && o.policy != Raise
    ensures Build(o, l, w) != Ok(p) <==> Compose.ComposeTop(HostAt(o, w), t, l.source).result.Ok?
  {
    hide Compose.ComposeTop, Compose.Free;
    if Build(o, l, w) == Ok(p) && Clean(o, l, w) {
      ComposedIffFree(o, l, w, p);
    }
  }

  lemma ComposedOutdated(o: Options, l: Loader, w: World, p: Part, t: Tree)
    requires l.fetch(Content(l, w)) == Data(t) && p.layer.Some? && Compose.Free(p.layer.value)
    ensures Build(o, l, w) != Ok(p) <==> !Recomposes(o, w, t, l.source, p)
  {
    hide Compose.ComposeTop, Compose.Free;
    if Build(o, l, w) == Ok(p) {
      ComposedIffFree(o, l, w, p);
    }
  }

  /** With the hash of every include at hand, a composed layer is outdated
      exactly when one of them is gone. */
  lemma GoneOutdated(o: Options, l: Loader, p: Part, data: Tree, was: World, w: World)
    requires Recomposes(o, was, data, l.source, p)
    requires forall f :: f in p.deps && f in w.disk ==> f in was.disk && was.disk[f] == w.disk[f]
    ensures Recomposes(o, w, data, l.source, p) <==> !Gone(w, p.deps)
  {
    var a, b := HostAt(o, was), HostAt(o, w);
    Compose.DependenciesOpened(a, data, l.source);
    if Gone(w, p.deps) {
      var f :| f in p.deps && f !in w.disk;
      Compose.LostIncludeFails(a, b, data, l.source, f);
    } else {
      Compose.DependenciesComplete(a, b, data, l.source);
    }
  }

  /** A file that was looked at and not reported still holds what it held when
      the layer was built, if its hash is known. */
  lemma KnownIsSame(o: Options, l: Loader, p: Part, t: Tracking, was: World, w: World, f: string)
    requires CollisionFree(o.hash) && BuiltFrom(o, l, p, t, was) && HasData(l, was)
    requires f in PathsOf(l, p) && f in t.files && f in w.disk && o.hash(w.disk[f]) == t.files[f]
    ensures f in was.disk && was.disk[f] == w.disk[f]
  {
    hide Build;
    assert o.hash(was.disk[f]) == o.hash(w.disk[f]);
  }

  lemma NoLayer(o: Options, l: Loader, p: Part, was: World, t: Tracking)
    requires BuiltFrom(o, l, p, t, was) && p.layer.None?
    ensures p == DROPPED
  {
  }

  lemma SomeLayer(o: Options, l: Loader, p: Part, was: World, t: Tracking)
    requires BuiltFrom(o, l, p, t, was) && p.layer.Some?
    ensures HasData(l, was) && Build(o, l, was) == Ok(p)
  {
  }

  /** A local source without its file gives no layer. */
  lemma MissingBuilds(o: Options, l: Loader, w: World, p: Part)
    requires Honest(l) && l.local && l.source !in w.disk && p.layer.Some?
    ensures Build(o, l, w) != Ok(p)
  {
  }

  /** The exact condition for one layer: a source that is passed over would give
      something else if and only if its layer is outdated. */
  lemma OutdatedIff(o: Options, s: Sources, was: seq<World>, w: World, i: nat)
    requires Sensible(o, s.loaders) && Faithful(o, s, was) && i < |was| && PassedOver(o, s, w, i)
    ensures Outdated(o, s, w, i) <==> Build(o, s.loaders[i], w) != Ok(s.parts[i])
  {
    var l, p, t := s.loaders[i], s.parts[i], s.tracking;
    SelectedIff(o, s, w, i);
    SelectFacts(o, s, w, i, l.source);
    hide Select, Build, Compose.ComposeTop, Compose.Free, BuiltFrom, IncludeChanged, NamedTwice, Clean, Later;
    hide Recomposes, Unhashed, Gone, HasData, Sensible;
    assert BuiltFrom(o, l, p, t, was[i]);
    if p.layer.None? {
      NoLayer(o, l, p, was[i], t);
      DroppedOutdated(o, l, w, p);
    } else {
      SomeLayer(o, l, p, was[i], t);
      ComposedIffFree(o, l, was[i], p);
      if l.source !in w.disk {
        MissingBuilds(o, l, w, p);
      } else {
        KnownIsSame(o, l, p, t, was[i], w, l.source);
        var data := l.fetch(Content(l, w)).t;
        assert l.fetch(Content(l, w)) == Data(data) == l.fetch(Content(l, was[i]));
        if !Compose.Free(p.layer.value) {
          UncomposedOutdated(o, l, w, p, data);
        } else {
          ComposedOutdated(o, l, w, p, data);
          if !Unhashed(t, w, p.deps) {
            forall f | f in p.deps && f in w.disk ensures f in was[i].disk && was[i].disk[f] == w.disk[f] {
              SelectFacts(o, s, w, i, f);
              KnownIsSame(o, l, p, t, was[i], w, f);
            }
            GoneOutdated(o, l, p, data, was[i], w);
          }
        }
      }
    }
  }

  /** A layer that is passed over although a load would not give it any more. */
  ghost predicate Stale(o: Options, s: Sources, w: World, i: nat)
    requires Cached(s) && i < |s.loaders|
  {
    PassedOver(o, s, w, i) && Outdated(o, s, w, i)
  }

  ghost predicate NoneStale(o: Options, s: Sources, w: World)
    requires Cached(s)
  {
    forall i :: 0 <= i < |s.loaders| ==> !Stale(o, s, w, i)
  }

  lemma StaleIff(o: Options, s: Sources, was: seq<World>, w: World, i: nat)
    requires Sensible(o, s.loaders) && Faithful(o, s, was) && i < |was|
    ensures Stale(o, s, w, i) <==>
            s.loaders[i].source !in Select(o, s, w).selected && Build(o, s.loaders[i], w) != Ok(s.parts[i])
  {
    hide Select, Build, Outdated, PassedOver, Sensible;
    SelectedIff(o, s, w, i);
    if PassedOver(o, s, w, i) {
      OutdatedIff(o, s, was, w, i);
    }
  }

  /** What a pass does with loader i. */
  function Step(o: Options, l: Loader, w: World, selected: Option<set<string>>, cached: Part): Result<Part, Error> {
    if Chosen(l, selected) then Build(o, l, w) else Ok(cached)
  }

  lemma {:induction false} BuildAllAgree(o: Options, loaders: seq<Loader>, w: World, a: Option<set<string>>,
      ps: seq<Part>,
                                         b: Option<set<string>>, qs: seq<Part>)
    requires |ps| == |qs| == |loaders|
    requires forall i :: 0 <= i < |loaders| ==> Step(o, loaders[i], w, a, ps[i]) == Step(o, loaders[i], w, b, qs[i])
    ensures BuildAll(o, loaders, w, a, ps) == BuildAll(o, loaders, w, b, qs)
    decreases |loaders|
  {
    hide Build, Chosen;
    if loaders != [] {
      forall i | 0 <= i < |loaders[1..]|
        ensures Step(o, loaders[1..][i], w, a, ps[1..][i]) == Step(o, loaders[1..][i], w, b, qs[1..][i])
      {
        assert loaders[1..][i] == loaders[i + 1] && ps[1..][i] == ps[i + 1] && qs[1..][i] == qs[i + 1];
      }
      BuildAllAgree(o, loaders[1..], w, a, ps[1..], b, qs[1..]);
      assert Step(o, loaders[0], w, a, ps[0]) == Step(o, loaders[0], w, b, qs[0]);
    }
  }

  lemma {:induction false} BuildAllAt(o: Options, loaders: seq<Loader>, w: World, a: Option<set<string>>,
      ps: seq<Part>, i: nat)
    requires |ps| == |loaders| && i < |loaders| && BuildAll(o, loaders, w, a, ps).Ok?
    ensures |BuildAll(o, loaders, w, a, ps).value| == |loaders|
    ensures Step(o, loaders[i], w, a, ps[i]) == Ok(BuildAll(o, loaders, w, a, ps).value[i])
    decreases |loaders|
  {
    hide Build, Chosen;
    BuildAllSize(o, loaders, w, a, ps);
    if i > 0 {
      BuildAllAt(o, loaders[1..], w, a, ps[1..], i - 1);
    }
  }

  /** The layers an incremental reload ends up with, and those of a full load. */
  function PartialLayers(o: Options, s: Sources, w: World): Result<seq<Part>, Error>
    requires Cached(s)
  {
    BuildAll(o, s.loaders, w, Some(Select(o, s, w).selected), s.parts)
  }

  function FullLayers(o: Options, s: Sources, w: World): Result<seq<Part>, Error>
    requires Cached(s)
  {
    BuildAll(o, s.loaders, w, None, s.parts)
  }

  /** The exact condition: whenever the full load succeeds, the incremental one
      ends with the same layers if and only if no layer is stale. */
  lemma IncrementalIff(o: Options, s: Sources, was: seq<World>, w: World)
    requires Sensible(o, s.loaders) && Faithful(o, s, was)
    ensures NoneStale(o, s, w) ==> PartialLayers(o, s, w) == FullLayers(o, s, w)
    ensures FullLayers(o, s, w).Ok? ==> (PartialLayers(o, s, w) == FullLayers(o, s, w) <==> NoneStale(o, s, w))
  {
    hide Select, Build, BuildAll, BuiltFrom, Stale, Sensible;
    var sel := Some(Select(o, s, w).selected);
    if NoneStale(o, s, w) {
      forall i | 0 <= i < |s.loaders|
        ensures Step(o, s.loaders[i], w, sel, s.parts[i]) == Step(o, s.loaders[i], w, None, s.parts[i])
      {
        if !Chosen(s.loaders[i], sel) {
          StaleIff(o, s, was, w, i);
        }
      }
      BuildAllAgree(o, s.loaders, w, sel, s.parts, None, s.parts);
    } else if FullLayers(o, s, w).Ok? {
      var i :| 0 <= i < |s.loaders| && Stale(o, s, w, i);
      StaleIff(o, s, was, w, i);
      BuildAllAt(o, s.loaders, w, None, s.parts, i);
      if PartialLayers(o, s, w).Ok? {
        BuildAllAt(o, s.loaders, w, sel, s.parts, i);
      }
    }
  }

  /** The merged map, environment map and plan are those of the cached layers:
      true after every load, until something else changes them. */
  ghost predicate Consistent(o: Options, s: Sources) {
    Cached(s) && Assemble(o, RecordAll(o, s.loaders, s.parts)) == Ok(Assembled(s.merged, s.env, s.plan))
  }

  datatype View = View(parts: seq<Part>, merged: Tree, env: Tree, plan: Plan)

  /** What a reload shows to its callers: the layers, both maps and the plan. */
  function Shown(r: Result<Sources, Error>): Result<View, Error> {
    match r
    case Ok(s) => Ok(View(s.parts, s.merged, s.env, s.plan))
    case Err(e) => Err(e)
  }

  /** Without stale layers, an incremental reload shows exactly what a full one
      shows, failures included. */
  lemma IncrementalIsFull(o: Options, s: Sources, was: seq<World>, w: World)
    requires Sensible(o, s.loaders) && Faithful(o, s, was) && NoneStale(o, s, w) && Consistent(o, s)
    ensures Shown(Reload(o, s, w, true)) == Shown(Reload(o, s, w, false))
  {
    hide BuiltFrom, NoneStale, Sensible, Select, Assemble, RecordAll, TrackAll, BuildAll;
    IncrementalIff(o, s, was, w);
    BuildAllSize(o, s.loaders, w, None, s.parts);
    if Select(o, s, w).selected == {} {
      KeepAll(o, s.loaders, w, s.parts);
    }
  }

  lemma {:induction false} KeepAll(o: Options, loaders: seq<Loader>, w: World, parts: seq<Part>)
    requires |parts| == |loaders|
    ensures BuildAll(o, loaders, w, Some({}), parts) == Ok(parts)
    decreases |loaders|
  {
    if loaders != [] {
      KeepAll(o, loaders[1..], w, parts[1..]);
      assert [parts[0]] + parts[1..] == parts;
    }
  }

  /** Any recorded hash of f is that of its present content. */
  ghost predicate Current(t: Tracking, hash: string -> string, disk: Disk, f: string) {
    f in t.files ==> f in disk && t.files[f] == hash(disk[f])
  }

  /** The tracker after some files were tracked. */
  ghost predicate Tracked(t: Tracking, t': Tracking, hash: string -> string, disk: Disk) {
    && Apart(t')
    && (forall f :: Current(t, hash, disk, f) ==> Current(t', hash, disk, f))
    && (forall f :: f in t.files ==> f in t'.files)
  }

  lemma TrackFacts(t: Tracking, hash: string -> string, disk: Disk, f: string)
    requires Apart(t)
    ensures Tracked(t, t.Track(hash, disk, f), hash, disk)
    ensures f in disk || NonFile(f) ==> Current(t.Track(hash, disk, f), hash, disk, f)
    ensures f in disk && !NonFile(f) ==> f in t.Track(hash, disk, f).files
  {
  }

  lemma TrackedSpan(t: Tracking, t1: Tracking, t2: Tracking, hash: string -> string, disk: Disk)
    requires Tracked(t, t1, hash, disk) && Tracked(t1, t2, hash, disk)
    ensures Tracked(t, t2, hash, disk)
  {
    hide Current, Apart;
  }

  lemma {:induction false} TrackPathsFacts(hash: string -> string, disk: Disk, paths: seq<string>, t: Tracking,
      f: string)
    requires Apart(t)
    ensures var t' := TrackPaths(hash, disk, paths, t);
            && Tracked(t, t', hash, disk)
            && (f in paths && (f in disk || NonFile(f)) ==> Current(t', hash, disk, f))
            && (f in paths && f in disk && !NonFile(f) ==> f in t'.files)
    decreases |paths|
  {
    if paths != [] {
      var t1 := t.Track(hash, disk, paths[0]);
      TrackFacts(t, hash, disk, paths[0]);
      assert Apart(t1);
      TrackPathsFacts(hash, disk, paths[1..], t1, f);
      hide Current, Apart, TrackPaths;
      var t2 := TrackPaths(hash, disk, paths[1..], t1);
      TrackedSpan(t, t1, t2, hash, disk);
      assert f in paths ==> f == paths[0] || f in paths[1..];
    } else {
      hide Current;
    }
  }

  lemma {:induction false} TrackAllFacts(o: Options, loaders: seq<Loader>, w: World, sel: Option<set<string>>,
      built: seq<Part>,
                                         t: Tracking, i: nat, f: string)
    requires |built| == |loaders| && Apart(t)
    ensures var t' := TrackAll(o, loaders, w, sel, built, t);
            && Tracked(t, t', o.hash, w.disk)
            && (i < |loaders| && Chosen(loaders[i], sel) && built[i].layer.Some? &&
                f in PathsOf(loaders[i], built[i]) ==>
                  && (f in w.disk || NonFile(f) ==> Current(t', o.hash, w.disk, f))
                  && (f in w.disk && !NonFile(f) ==> f in t'.files))
    decreases |loaders|
  {
    hide Current, TrackPaths, Chosen;
    if loaders != [] {
      var t1 := if Chosen(loaders[0], sel) && built[0].layer.Some?
                then TrackPaths(o.hash, w.disk, PathsOf(loaders[0], built[0]), t) else t;
      TrackPathsFacts(o.hash, w.disk, PathsOf(loaders[0], built[0]), t, f);
      assert Apart(t1) && Tracked(t, t1, o.hash, w.disk);
      hide Apart;
      TrackAllFacts(o, loaders[1..], w, sel, built[1..], t1, if i > 0 then i - 1 else |loaders|, f);
      TrackedSpan(t, t1, TrackAll(o, loaders[1..], w, sel, built[1..], t1), o.hash, w.disk);
    }
  }

  /** The files a layer was built from could be read. */
  lemma DataReads(o: Options, l: Loader, w: World, p: Part, f: string)
    requires Honest(l) && HasData(l, w) && Build(o, l, w) == Ok(p) && f in PathsOf(l, p)
    ensures f in w.disk || (f == l.source && NonFile(f))
    ensures f in p.deps ==> f in w.disk && exists q :: o.host.canonical(q) == Some(f)
  {
    hide Compose.ComposeTop;
    if Clean(o, l, w) {
      Compose.DependenciesOpened(HostAt(o, w), l.fetch(Content(l, w)).t, l.source);
    }
  }

  function Everywhere(w: World, n: nat): seq<World> { seq(n, _ => w) }

  /** Layer i is what building it now gives, and its files are tracked as they are. */
  ghost predicate KeptCurrent(o: Options, s: Sources, w: World, i: nat)
    requires Cached(s) && i < |s.parts|
  {
    && Build(o, s.loaders[i], w) == Ok(s.parts[i])
    && forall f :: f in PathsOf(s.loaders[i], s.parts[i]) ==> Current(s.tracking, o.hash, w.disk, f)
  }

  /** A pass leaves the tracker faithful to the world it ran in, provided the
      layers it kept are current there. */
  lemma PassKeepsFaithful(o: Options, s: Sources, w: World, sel: Option<set<string>>)
    requires Cached(s) && Sensible(o, s.loaders) && Apart(s.tracking)
    requires forall i :: 0 <= i < |s.loaders| && !Chosen(s.loaders[i], sel) ==> KeptCurrent(o, s, w, i)
    requires LoadSelected(o, s, w, sel).Ok?
    ensures Faithful(o, LoadSelected(o, s, w, sel).value, Everywhere(w, |s.loaders|))
    ensures Consistent(o, LoadSelected(o, s, w, sel).value)
  {
    hide Build, HasData, Current, BuildAll, TrackAll, Assemble, RecordAll, Chosen;
    BuildAllSize(o, s.loaders, w, sel, s.parts);
    var s' := LoadSelected(o, s, w, sel).value;
    TrackAllFacts(o, s.loaders, w, sel, s'.parts, s.tracking, |s.loaders|, "");
    hide Apart;
    forall i | 0 <= i < |s.loaders| ensures BuiltFrom(o, s.loaders[i], s'.parts[i], s'.tracking, w) {
      BuildAllAt(o, s.loaders, w, sel, s.parts, i);
      forall f | HasData(s.loaders[i], w) && f in PathsOf(s.loaders[i], s'.parts[i])
        ensures Current(s'.tracking, o.hash, w.disk, f)
      {
        TrackAllFacts(o, s.loaders, w, sel, s'.parts, s.tracking, i, f);
        assert Step(o, s.loaders[i], w, sel, s.parts[i]) == Ok(s'.parts[i]);
        if Chosen(s.loaders[i], sel) {
          DataReads(o, s.loaders[i], w, s'.parts[i], f);
          DataHasLayer(o, s.loaders[i], w, s'.parts[i]);
        }
      }
      CurrentIsBuiltFrom(o, s.loaders[i], s'.parts[i], s'.tracking, w);
    }
  }

  lemma DataHasLayer(o: Options, l: Loader, w: World, p: Part)
    requires HasData(l, w) && Build(o, l, w) == Ok(p)
    ensures p.layer.Some?
  {
  }

  lemma CurrentIsBuiltFrom(o: Options, l: Loader, p: Part, t: Tracking, w: World)
    requires Build(o, l, w) == Ok(p)
    requires forall f :: HasData(l, w) && f in PathsOf(l, p) ==> Current(t, o.hash, w.disk, f)
    ensures BuiltFrom(o, l, p, t, w)
  {
    hide Build, HasData;
  }

  /** A full load establishes the relation, whatever was cached before. */
  lemma FullLoadIsFaithful(o: Options, s: Sources, w: World)
    requires Cached(s) && Sensible(o, s.loaders) && Apart(s.tracking) && Reload(o, s, w, false).Ok?
    ensures Faithful(o, Reload(o, s, w, false).value, Everywhere(w, |s.loaders|))
    ensures Consistent(o, Reload(o, s, w, false).value)
  {
    hide LoadSelected, Faithful, Consistent;
    PassKeepsFaithful(o, s, w, None);
  }

  lemma KeptIsCurrent(o: Options, s: Sources, was: seq<World>, w: World, i: nat)
    requires Sensible(o, s.loaders) && Faithful(o, s, was) && i < |was|
    requires !Stale(o, s, w, i) && s.loaders[i].source !in Select(o, s, w).selected
    ensures KeptCurrent(o, s.(tracking := Select(o, s, w).tracking), w, i)
  {
    hide Select, Stale, Sensible, Build;
    StaleIff(o, s, was, w, i);
    forall f | f in PathsOf(s.loaders[i], s.parts[i]) ensures Current(Select(o, s, w).tracking, o.hash, w.disk, f) {
      SelectFacts(o, s, w, i, f);
    }
  }

  /** An incremental reload that finds no stale layer preserves the relation. */
  lemma IncrementalKeepsFaithful(o: Options, s: Sources, was: seq<World>, w: World)
    requires Sensible(o, s.loaders) && Faithful(o, s, was) && NoneStale(o, s, w) && Consistent(o, s)
    requires Reload(o, s, w, true).Ok?
    ensures Consistent(o, Reload(o, s, w, true).value)
    ensures Faithful(o, Reload(o, s, w, true).value, if Select(o, s, w).selected == {} then was else Everywhere(w,
              |was|))
  {
    hide Select, LoadSelected, Stale, BuiltFrom, Clean, Current, Apart, Consistent, Sensible, Build, KeptCurrent;
    var p := Select(o, s, w);
    if p.selected != {} {
      SelectFacts(o, s, w, 0, "");
      var s1 := s.(tracking := p.tracking);
      forall i | 0 <= i < |s.loaders| && !Chosen(s.loaders[i], Some(p.selected)) ensures KeptCurrent(o, s1, w, i) {
        KeptIsCurrent(o, s, was, w, i);
      }
      PassKeepsFaithful(o, s1, w, Some(p.selected));
    }
  }
}
