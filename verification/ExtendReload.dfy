/** Extending the source list and then reloading it. */
module ExtendReload {
  import opened Values
  import opened FileTracker
  import opened Load
  import opened Selection
  import opened Incremental
  import Compose
  import Merge
  import EnvHandler

  lemma {:induction false} TrackPathsElsewhere(hash: string -> string, disk: Disk, paths: seq<string>, t: Tracking,
      f: string)
    requires f !in paths || f !in disk || NonFile(f)
    ensures var t' := TrackPaths(hash, disk, paths, t);
            (f in t'.files <==> f in t.files) && (f in t.files ==> t'.files[f] == t.files[f])
    decreases |paths|
  {
    if paths != [] {
      hide NonFile;
      TrackPathsElsewhere(hash, disk, paths[1..], t.Track(hash, disk, paths[0]), f);
    }
  }

  /** A file of the new source that an earlier layer was also built from. */
  ghost predicate SharedUnchanged(o: Options, l: Loader, p: Part, was: World, w: World, files: seq<string>) {
    HasData(l, was) ==>
      forall f :: f in PathsOf(l, p) && f in files && f in w.disk && !NonFile(f) ==>
        f in was.disk && was.disk[f] == w.disk[f]
  }

  lemma SharedIff(o: Options, l: Loader, p: Part, t: Tracking, was: World, w: World, files: seq<string>)
    requires CollisionFree(o.hash) && Apart(t) && BuiltFrom(o, l, p, t, was)
    ensures BuiltFrom(o, l, p, TrackPaths(o.hash, w.disk, files, t), was) <==> SharedUnchanged(o, l, p, was, w, files)
  {
    hide Build, HasData, NonFile, TrackPaths;
    var t' := TrackPaths(o.hash, w.disk, files, t);
    forall f
      ensures if f in files && f in w.disk && !NonFile(f) then f in t'.files && t'.files[f] == o.hash(w.disk[f])
              else (f in t'.files <==> f in t.files) && (f in t.files ==> t'.files[f] == t.files[f])
    {
      if f in files && f in w.disk && !NonFile(f) {
        TrackPathsFacts(o.hash, w.disk, files, t, f);
      } else {
        TrackPathsElsewhere(o.hash, w.disk, files, t, f);
      }
    }
  }

  /** Extend tracks the files of the new source. The tracker stays faithful to
      the earlier layers exactly when none of the files they share with the new
      source changed since they were built; otherwise later incremental reloads
      take the new content for the one those layers hold. */
  lemma ExtendFaithfulIff(o: Options, s: Sources, was: seq<World>, w: World, l: Loader)
    requires Sensible(o, s.loaders + [l]) && Faithful(o, s, was)
    requires Extend(o, s, w, l).Ok? && Extend(o, s, w, l).value.Some?
    ensures var p, s' := Build(o, l, w).value, Extend(o, s, w, l).value.value;
            Faithful(o, s', was + [w]) <==>
            forall i :: 0 <= i < |was| ==> SharedUnchanged(o, s.loaders[i], s.parts[i], was[i], w, PathsOf(l, p))
  {
    hide Build, HasData, TrackPaths, SharedUnchanged, Apart, Honest;
    var p, s' := Build(o, l, w).value, Extend(o, s, w, l).value.value;
    assert Honest((s.loaders + [l])[|was|]);
    TrackPathsFacts(o.hash, w.disk, PathsOf(l, p), s.tracking, "");
    assert Apart(s'.tracking);
    NewLayerBuilt(o, l, p, s.tracking, w);
    forall i | 0 <= i < |was|
      ensures BuiltFrom(o, s'.loaders[i], s'.parts[i], s'.tracking, (was + [w])[i]) <==>
              SharedUnchanged(o, s.loaders[i], s.parts[i], was[i], w, PathsOf(l, p))
    {
      SharedIff(o, s.loaders[i], s.parts[i], s.tracking, was[i], w, PathsOf(l, p));
    }
    hide BuiltFrom;
    assert forall i :: 0 <= i < |was| ==> (was + [w])[i] == was[i];
    assert BuiltFrom(o, s'.loaders[|was|], s'.parts[|was|], s'.tracking, (was + [w])[|was|]);
  }

  lemma NewLayerBuilt(o: Options, l: Loader, p: Part, t: Tracking, w: World)
    requires Honest(l) && Apart(t) && Build(o, l, w) == Ok(p)
    ensures BuiltFrom(o, l, p, TrackPaths(o.hash, w.disk, PathsOf(l, p), t), w)
  {
    hide Build, HasData, NonFile, TrackPaths, Apart;
    if HasData(l, w) {
      forall f | f in PathsOf(l, p) ensures Current(TrackPaths(o.hash, w.disk, PathsOf(l, p), t), o.hash, w.disk, f) {
        DataReads(o, l, w, p, f);
        TrackPathsFacts(o.hash, w.disk, PathsOf(l, p), t, f);
      }
    }
  }

  ghost predicate UsesFiles(loaders: seq<Loader>) { exists l :: l in loaders && l.envFile }

  lemma {:induction false} NotesFacts(o: Options, loaders: seq<Loader>, parts: seq<Part>)
    requires |parts| == |loaders|
    ensures var n := RecordAll(o, loaders, parts);
            && (n.usesFiles <==> UsesFiles(loaders))
            && (n.configs == [] <==> forall i :: 0 <= i < |parts| ==> parts[i].layer.None?)
            && |n.resolved| == |n.configs|
    decreases |loaders|
  {
    if loaders != [] {
      var k := |loaders| - 1;
      NotesFacts(o, loaders[..k], parts[..k]);
      assert loaders == loaders[..k] + [loaders[k]];
      assert parts == parts[..k] + [parts[k]];
    }
  }

  lemma MergeAllSnoc(m: Merge.Merger, layers: seq<Option<Tree>>, t: Tree)
    requires layers != []
    ensures Merge.MergeAll(m, layers + [Some(t)]) == Merge.MergeTrees(m, Merge.MergeAll(m, layers), t)
  {
    var all := layers + [Some(t)];
    assert all[1..][..|all[1..]| - 1] == layers[1..];
  }

  lemma {:induction false} UnchangedBuildAll(o: Options, loaders: seq<Loader>, w: World, parts: seq<Part>)
    requires |parts| == |loaders| && forall i :: 0 <= i < |loaders| ==> Build(o, loaders[i], w) == Ok(parts[i])
    ensures BuildAll(o, loaders, w, None, parts) == Ok(parts)
    decreases |loaders|
  {
    hide Build;
    if loaders != [] {
      UnchangedBuildAll(o, loaders[1..], w, parts[1..]);
      assert [parts[0]] + parts[1..] == parts;
    }
  }

  /** The contributions of the layers so far, merged: the environment's map on
      the named-files path. */
  function Contributions(o: Options, s: Sources): Tree
    requires Cached(s)
  {
    Merge.MergeAll(o.merger, RecordAll(o, s.loaders, s.parts).resolved)
  }

  /** With some layer loaded and nothing changed since, Extend published s' and a
      full reload of that published r. */
  ghost predicate ExtendedThenReloaded(o: Options, s: Sources, w: World, l: Loader, s': Sources, r: Sources) {
    && Consistent(o, s) && (exists i :: 0 <= i < |s.parts| && s.parts[i].layer.Some?)
    && (forall i :: 0 <= i < |s.loaders| ==> Build(o, s.loaders[i], w) == Ok(s.parts[i]))
    && Extend(o, s, w, l) == Ok(Some(s')) && Cached(s') && Reload(o, s', w, false) == Ok(r)
  }

  function LayerOf(o: Options, w: World, l: Loader): Tree {
    var b := Build(o, l, w);
    if b.Ok? then b.value.layer.GetOr(map[]) else map[]
  }

  /** When the two ways of resolving the environment agree under any merger. */
  ghost predicate SameResolution(o: Options, s: Sources, l: Loader, layer: Tree) {
    if UsesFiles(s.loaders) then !l.envFile || !EnvHandler.IsAware(layer, o.env)
    else
      && !l.envFile && !EnvHandler.IsAware(layer, o.env) && !EnvHandler.IsAware(s.merged, o.env)
      && !EnvHandler.IsAware(Merge.MergeTrees(o.merger, s.merged, layer), o.env)
  }

  /** Extend, then a full reload while nothing changed: the layers and the merged
      map are the same. Extend merges the resolved layer into the environment's
      map; the reload merges the contributions if an environment file is in use,
      and resolves the merged map otherwise. */
  lemma ExtendThenReload(o: Options, s: Sources, w: World, l: Loader, s': Sources, r: Sources)
    requires ExtendedThenReloaded(o, s, w, l, s', r)
    ensures var m, layer := o.merger, LayerOf(o, w, l);
            && r.parts == s'.parts && r.merged == s'.merged == Merge.MergeTrees(m, s.merged, layer)
            && s.env == (if UsesFiles(s.loaders) then Contributions(o, s) else EnvHandler.Resolve(s.merged, o.env))
            && s'.env == Merge.MergeTrees(m, s.env, EnvHandler.Resolve(layer, o.env))
            && r.env == (if UsesFiles(s.loaders) || l.envFile
                         then Merge.MergeTrees(m, Contributions(o, s), Resolved(o, l, layer))
                         else EnvHandler.Resolve(r.merged, o.env))
            && (SameResolution(o, s, l, layer) ==> r.env == s'.env)
  {
    var p := Build(o, l, w).value;
    ExtendParts(o, s, w, l, s');
    hide Build, Extend, Merge.MergeTrees, Merge.MergeAll, UsesFiles, Assemble, EnvHandler.IsAware, AddWriter;
    forall i | 0 <= i < |s'.loaders| ensures Build(o, s'.loaders[i], w) == Ok(s'.parts[i]) {
    }
    UnchangedReload(o, s', w, r);
    var n, n' := RecordAll(o, s.loaders, s.parts), RecordAll(o, s'.loaders, s'.parts);
    assert s'.loaders[..|s.loaders|] == s.loaders && s'.parts[..|s.parts|] == s.parts;
    assert n' == Record(o, l, p.layer, n);
    NotesFacts(o, s.loaders, s.parts);
    hide RecordAll, Reload;
    AssembledMaps(o, n, s.merged, s.env, s.plan);
    AssembledMaps(o, n', r.merged, r.env, r.plan);
    MergeAllSnoc(o.merger, n.configs, p.layer.value);
    MergeAllSnoc(o.merger, n.resolved, Resolved(o, l, p.layer.value));
  }

  lemma ExtendParts(o: Options, s: Sources, w: World, l: Loader, s': Sources)
    requires Extend(o, s, w, l) == Ok(Some(s'))
    ensures Build(o, l, w).Ok? && Build(o, l, w).value.layer.Some?
    ensures var p := Build(o, l, w).value;
            && s'.loaders == s.loaders + [l] && s'.parts == s.parts + [p]
            && s'.merged == Merge.MergeTrees(o.merger, s.merged, p.layer.value)
            && s'.env == Merge.MergeTrees(o.merger, s.env, EnvHandler.Resolve(p.layer.value, o.env))
  {
    hide Build, TrackPaths, Merge.MergeTrees;
  }

  lemma UnchangedReload(o: Options, s: Sources, w: World, r: Sources)
    requires Cached(s) && forall i :: 0 <= i < |s.loaders| ==> Build(o, s.loaders[i], w) == Ok(s.parts[i])
    requires Reload(o, s, w, false) == Ok(r)
    ensures r.parts == s.parts
    ensures Assemble(o, RecordAll(o, s.loaders, s.parts)) == Ok(Assembled(r.merged, r.env, r.plan))
  {
    UnchangedBuildAll(o, s.loaders, w, s.parts);
    hide Build, BuildAll, TrackAll, Assemble, RecordAll;
  }

  lemma AssembledMaps(o: Options, n: Notes, merged: Tree, env: Tree, plan: Plan)
    requires Assemble(o, n) == Ok(Assembled(merged, env, plan))
    ensures merged == Merge.MergeAll(o.merger, n.configs)
    ensures env == if n.usesFiles then Merge.MergeAll(o.merger, n.resolved) else EnvHandler.Resolve(merged, o.env)
  {
    hide Merge.MergeAll, EnvHandler.Resolve, Conflicts;
  }
}
