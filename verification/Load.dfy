/** Loading the ordered sources, reusing cached layers, and extending the list
    (config_load.go, config_reload.go, config_extend.go,
    config_environment_strategy.go). */
module Load {
  import opened Values
  import opened Paths
  import opened FileTracker
  import Merge
  import Compose
  import EnvHandler
  import Flatten

  /** What the outside holds at one moment: local files by canonical path, and
      what every other source would deliver. */
  datatype World = World(disk: Disk, remote: map<string, string>)

  datatype Fetch = Data(t: Tree) | Nothing | Failed

  /** A loader reads the content of its source and decodes it. envFile marks
      the file selected for the environment. */
  datatype Loader = Loader(source: string, envFile: bool, local: bool, role: string, fetch: Option<string> -> Fetch)

  datatype ErrorPolicy = Raise | Warn | Ignore

  datatype EnvStrategy = Auto | Sectioned | NamedFiles | Hybrid

  datatype ConflictPolicy = Reject | Report | LastWins

  datatype Options = Options(host: Compose.Host, merger: Merge.Merger, env: string, policy: ErrorPolicy,
                             strategy: EnvStrategy, conflicts: ConflictPolicy, hash: string -> string)

  datatype Error =
    | LoadFailed(source: string)
    | ComposeFailed(e: Compose.Error)
    | BadStrategy(reason: string)
    | Conflicting(keys: set<string>)

  /** One entry of the layer cache, with the files its composition included. */
  datatype Part = Part(layer: Option<Tree>, deps: seq<string>)

  const DROPPED := Part(None, [])

  function Content(l: Loader, w: World): Option<string> {
    if l.local then (if l.source in w.disk then Some(w.disk[l.source]) else None)
    else if l.source in w.remote then Some(w.remote[l.source]) else None
  }

  function MergeOf(m: Merge.Merger): (Tree, Tree) -> Tree { (a, b) => Merge.MergeTrees(m, a, b) }

  /** The composer folds with the configuration's own merger. */
  function HostAt(o: Options, w: World): Compose.Host { o.host.(disk := w.disk, merge := MergeOf(o.merger)) }

  /** Loading and composing one source under the error policy. */
  function Build(o: Options, l: Loader, w: World): Result<Part, Error> {
    match l.fetch(Content(l, w))
    case Failed => if o.policy == Raise then Err(LoadFailed(l.source)) else Ok(DROPPED)
    case Nothing => Ok(DROPPED)
    case Data(t) =>
      var c := Compose.ComposeTop(HostAt(o, w), t, l.source);
      match c.result
      case Ok(composed) => Ok(Part(Some(composed), c.trace.deps))
      case Err(e) => if o.policy == Raise then Err(ComposeFailed(e)) else Ok(Part(Some(t), []))
  }

  predicate Chosen(l: Loader, selected: Option<set<string>>) {
    selected.None? || l.source in selected.value
  }

  /** The layers after a pass over the loaders: chosen ones are built, the
      others kept from the cache. */
  function BuildAll(o: Options, loaders: seq<Loader>, w: World, selected: Option<set<string>>,
      parts: seq<Part>): Result<seq<Part>, Error>
    requires |parts| == |loaders|
    decreases |loaders|
  {
    if loaders == [] then Ok([])
    else
      match (if Chosen(loaders[0], selected) then Build(o, loaders[0], w) else Ok(parts[0]))
      case Err(e) => Err(e)
      case Ok(p) =>
        match BuildAll(o, loaders[1..], w, selected, parts[1..])
        case Err(e) => Err(e)
        case Ok(rest) => Ok([p] + rest)
  }

  function TrackPaths(hash: string -> string, disk: Disk, paths: seq<string>, t: Tracking): Tracking
    decreases |paths|
  {
    if paths == [] then t else TrackPaths(hash, disk, paths[1..], t.Track(hash, disk, paths[0]))
  }

  /** Every source that was loaded with data is tracked, and its includes. */
  function TrackAll(o: Options, loaders: seq<Loader>, w: World, selected: Option<set<string>>, built: seq<Part>,
      t: Tracking): Tracking
    requires |built| == |loaders|
    decreases |loaders|
  {
    if loaders == [] then t
    else
      var t' := if Chosen(loaders[0], selected) && built[0].layer.Some?
                then TrackPaths(o.hash, w.disk, [loaders[0].source] + built[0].deps, t) else t;
      TrackAll(o, loaders[1..], w, selected, built[1..], t')
  }

  datatype Family = ByFile | BySection

  datatype Writer = Writer(family: Family, source: string)

  datatype PlanLayer = PlanLayer(source: string, role: string, keys: set<string>)

  datatype Conflict = Conflict(sources: seq<string>, last: string)

  datatype Plan = Plan(strategy: EnvStrategy, layers: seq<PlanLayer>, conflicts: map<string, Conflict>)

  /** What the loop of a load has gathered so far. */
  datatype Notes = Notes(configs: seq<Option<Tree>>, resolved: seq<Option<Tree>>, usesFiles: bool,
                         sawNamed: bool, sawSectioned: bool, planError: Option<string>,
                         layers: seq<PlanLayer>, writers: map<string, seq<Writer>>)

  const NO_NOTES := Notes([], [], false, false, false, None, [], map[])

  predicate IsSection(o: Options, l: Loader, t: Tree) { !l.envFile && EnvHandler.IsAware(t, o.env) }

  /** The contribution of a layer: an environment file is used as it is. */
  function Resolved(o: Options, l: Loader, t: Tree): Tree {
    if l.envFile then t else EnvHandler.Resolve(t, o.env)
  }

  function AddWriter(ws: map<string, seq<Writer>>, keys: set<string>, w: Writer): map<string, seq<Writer>> {
    map k | k in ws.Keys + keys :: (if k in ws then ws[k] else []) + if k in keys then [w] else []
  }

  function Record(o: Options, l: Loader, layer: Option<Tree>, n: Notes): Notes {
    var usesFiles := n.usesFiles || l.envFile;
    match layer
    case None => n.(usesFiles := usesFiles, layers := n.layers + [PlanLayer(l.source, l.role, {})])
    case Some(t) =>
      var resolved := Resolved(o, l, t);
      var section := IsSection(o, l, t);
      var keys := Flatten.Names("", resolved);
      Notes(n.configs + [Some(t)], n.resolved + [Some(resolved)], usesFiles,
            n.sawNamed || l.envFile, n.sawSectioned || section,
            if section && o.strategy == NamedFiles && n.planError.None? then Some(l.source) else n.planError,
            n.layers + [PlanLayer(l.source, if section then "sectioned" else l.role, keys)],
            if l.envFile then AddWriter(n.writers, keys, Writer(ByFile, l.source))
            else if section then AddWriter(n.writers, keys, Writer(BySection, l.source))
            else n.writers)
  }

  function RecordAll(o: Options, loaders: seq<Loader>, parts: seq<Part>): Notes
    requires |parts| == |loaders|
    decreases |loaders|
  {
    var n := |loaders| - 1;
    if loaders == [] then NO_NOTES else Record(o, loaders[n], parts[n].layer, RecordAll(o, loaders[..n], parts[..n]))
  }

  function Distinct(sources: seq<string>): seq<string> {
    if sources == [] then []
    else
      var s, rest := sources[|sources| - 1], Distinct(sources[..|sources| - 1]);
      if s in rest then rest else rest + [s]
  }

  function SourcesOf(ws: seq<Writer>): seq<string> { seq(|ws|, i requires 0 <= i < |ws| => ws[i].source) }

  /** The keys that both environment models write. */
  function Conflicts(writers: map<string, seq<Writer>>): map<string, Conflict> {
    map k | k in writers && (exists w :: w in writers[k] && w.family == ByFile)
                         && (exists w :: w in writers[k] && w.family == BySection) ::
      Conflict(Distinct(SourcesOf(writers[k])), writers[k][|writers[k]| - 1].source)
  }

  datatype Assembled = Assembled(merged: Tree, env: Tree, plan: Plan)

  /** The merged map, the environment's map and the plan of a layer list. */
  function Assemble(o: Options, n: Notes): Result<Assembled, Error> {
    if n.planError.Some? then Err(BadStrategy(n.planError.value))
    else
      var merged := Merge.MergeAll(o.merger, n.configs);
      var env := if n.usesFiles then Merge.MergeAll(o.merger, n.resolved) else EnvHandler.Resolve(merged, o.env);
      var strategy := if o.strategy == Auto && n.sawSectioned then Sectioned else o.strategy;
      if o.strategy != Hybrid then Ok(Assembled(merged, env, Plan(strategy, n.layers, map[])))
      else if !n.sawNamed || !n.sawSectioned then Err(BadStrategy("hybrid"))
      else
        var conflicts := Conflicts(n.writers);
        if conflicts != map[] && o.conflicts == Reject then Err(Conflicting(conflicts.Keys))
        else Ok(Assembled(merged, env, Plan(strategy, n.layers, conflicts)))
  }

  /** The source-derived part of a configuration; env is the unresolved map. */
  datatype Sources = Sources(loaders: seq<Loader>, parts: seq<Part>, tracking: Tracking, merged: Tree, env: Tree,
      plan: Plan)

  ghost predicate Cached(s: Sources) { |s.parts| == |s.loaders| }

  /** loadSelected; None is a full load, and so is a cache of another length. */
  function LoadSelected(o: Options, s: Sources, w: World, selected: Option<set<string>>): Result<Sources, Error> {
    var fits := |s.parts| == |s.loaders|;
    var sel := if fits then selected else None;
    var cache := if fits then s.parts else seq(|s.loaders|, _ => DROPPED);
    match BuildAll(o, s.loaders, w, sel, cache)
    case Err(e) => Err(e)
    case Ok(parts) =>
      BuildAllSize(o, s.loaders, w, sel, cache);
      match Assemble(o, RecordAll(o, s.loaders, parts))
      case Err(e) => Err(e)
      case Ok(a) =>
        Ok(Sources(s.loaders, parts, TrackAll(o, s.loaders, w, sel, parts, s.tracking), a.merged, a.env, a.plan))
  }

  lemma {:induction false} BuildAllSize(o: Options, loaders: seq<Loader>, w: World, selected: Option<set<string>>,
      parts: seq<Part>)
    requires |parts| == |loaders|
    ensures BuildAll(o, loaders, w, selected, parts).Ok? ==>
              |BuildAll(o, loaders, w, selected, parts).value| == |loaders|
    decreases |loaders|
  {
    if loaders != [] {
      BuildAllSize(o, loaders[1..], w, selected, parts[1..]);
    }
  }

  /** The inputs of one pass over the loaders. */
  datatype Pass = Pass(loaders: seq<Loader>, w: World, selected: Option<set<string>>, cache: seq<Part>,
      tracking: Tracking)

  /** The state of that pass in front of loader i. */
  ghost predicate Midway(o: Options, p: Pass, i: nat, parts: seq<Part>, t: Tracking, notes: Notes) {
    && i <= |p.loaders| == |p.cache| == |parts|
    && parts[i..] == p.cache[i..]
    && notes == RecordAll(o, p.loaders[..i], parts[..i])
    && var all := BuildAll(o, p.loaders, p.w, p.selected, p.cache);
       match BuildAll(o, p.loaders[i..], p.w, p.selected, p.cache[i..])
       case Err(e) => all == Err(e)
       case Ok(rest) =>
         && all == Ok(parts[..i] + rest) && |rest| == |p.loaders| - i
         && TrackAll(o, p.loaders[i..], p.w, p.selected, rest, t) ==
            TrackAll(o, p.loaders, p.w, p.selected, parts[..i] + rest, p.tracking)
  }

  lemma MidwayStart(o: Options, p: Pass)
    requires |p.loaders| == |p.cache|
    ensures Midway(o, p, 0, p.cache, p.tracking, NO_NOTES)
  {
    hide Build, Record, TrackPaths;
    BuildAllSize(o, p.loaders, p.w, p.selected, p.cache);
    var all := BuildAll(o, p.loaders, p.w, p.selected, p.cache);
    assert p.loaders[0..] == p.loaders && p.cache[0..] == p.cache;
    assert all.Ok? ==> p.cache[..0] + all.value == all.value;
  }

  /** One loader: kept, or built and tracked. */
  lemma MidwayStep(o: Options, p: Pass, i: nat, parts: seq<Part>, t: Tracking, notes: Notes, parts': seq<Part>,
      t': Tracking)
    requires i < |p.loaders| && Midway(o, p, i, parts, t, notes)
    requires |parts'| == |parts| && parts' == parts[i := parts'[i]]
    requires var l := p.loaders[i];
             if Chosen(l, p.selected) then
               && Build(o, l, p.w) == Ok(parts'[i])
               && t' == if parts'[i].layer.Some? then TrackPaths(o.hash, p.w.disk, [l.source] + parts'[i].deps,
                   t) else t
             else parts' == parts && t' == t
    ensures Midway(o, p, i + 1, parts', t', Record(o, p.loaders[i], parts'[i].layer, notes))
  {
    hide Build, Record, TrackPaths, Chosen, RecordAll, BuildAll, TrackAll;
    var l, x := p.loaders[i], parts'[i];
    RecordNext(o, p.loaders, parts, parts', i);
    Shifted(p.loaders, i);
    Shifted(p.cache, i);
    Shifted(parts', i);
    assert p.cache[i] == parts[i] && p.cache[i + 1..] == parts'[i + 1..] by { Shifted(parts, i); }
    BuildNext(o, p.loaders[i..], p.w, p.selected, p.cache[i..], x);
    var tail := BuildAll(o, p.loaders[i + 1..], p.w, p.selected, p.cache[i + 1..]);
    if tail.Ok? {
      BuildAllSize(o, p.loaders[i + 1..], p.w, p.selected, p.cache[i + 1..]);
      TrackNext(o, p.loaders[i..], p.w, p.selected, x, tail.value, t, t');
      assert parts[..i] + ([x] + tail.value) == parts'[..i + 1] + tail.value;
    }
  }

  lemma Shifted<T>(s: seq<T>, i: nat)
    requires i < |s|
    ensures s[i..] == [s[i]] + s[i + 1..] && s[i..][0] == s[i] && s[i..][1..] == s[i + 1..]
  {
  }

  lemma BuildNext(o: Options, loaders: seq<Loader>, w: World, selected: Option<set<string>>, cache: seq<Part>, x: Part)
    requires loaders != [] && |cache| == |loaders|
    requires if Chosen(loaders[0], selected) then Build(o, loaders[0], w) == Ok(x) else x == cache[0]
    ensures BuildAll(o, loaders, w, selected, cache) ==
            match BuildAll(o, loaders[1..], w, selected, cache[1..])
            case Err(e) => Err(e)
            case Ok(rest) => Ok([x] + rest)
  {
    hide Build, Chosen;
  }

  lemma TrackNext(o: Options, loaders: seq<Loader>, w: World, selected: Option<set<string>>, x: Part, rest: seq<Part>,
      t: Tracking, t': Tracking)
    requires loaders != [] && |rest| == |loaders| - 1
    requires t' == if Chosen(loaders[0], selected) && x.layer.Some?
                   then TrackPaths(o.hash, w.disk, [loaders[0].source] + x.deps, t) else t
    ensures TrackAll(o, loaders, w, selected, [x] + rest, t) == TrackAll(o, loaders[1..], w, selected, rest, t')
  {
    hide TrackPaths, Chosen;
    assert ([x] + rest)[1..] == rest;
  }

  lemma RecordNext(o: Options, loaders: seq<Loader>, parts: seq<Part>, parts': seq<Part>, i: nat)
    requires i < |loaders| == |parts| == |parts'| && parts' == parts[i := parts'[i]]
    ensures RecordAll(o, loaders[..i + 1], parts'[..i + 1]) ==
            Record(o, loaders[i], parts'[i].layer, RecordAll(o, loaders[..i], parts[..i]))
  {
    hide Record;
    assert parts'[..i + 1][..i] == parts[..i] && loaders[..i + 1][..i] == loaders[..i];
  }

  lemma MidwayFail(o: Options, p: Pass, i: nat, parts: seq<Part>, t: Tracking, notes: Notes)
    requires i < |p.loaders| && Midway(o, p, i, parts, t, notes)
    requires Chosen(p.loaders[i], p.selected) && Build(o, p.loaders[i], p.w).Err?
    ensures BuildAll(o, p.loaders, p.w, p.selected, p.cache) == Err(Build(o, p.loaders[i], p.w).error)
  {
    hide Build, Record, TrackPaths, Chosen, RecordAll, TrackAll;
    assert p.loaders[i..][0] == p.loaders[i];
  }

  lemma MidwayEnd(o: Options, p: Pass, parts: seq<Part>, t: Tracking, notes: Notes)
    requires Midway(o, p, |p.loaders|, parts, t, notes)
    ensures BuildAll(o, p.loaders, p.w, p.selected, p.cache) == Ok(parts) && |parts| == |p.loaders|
    ensures t == TrackAll(o, p.loaders, p.w, p.selected, parts, p.tracking)
    ensures notes == RecordAll(o, p.loaders, parts)
  {
    hide Build, Record, TrackPaths, Chosen;
    var n := |p.loaders|;
    assert p.loaders[n..] == [] && parts[..n] == parts && p.loaders[..n] == p.loaders && parts + [] == parts;
  }

  datatype Pick = Pick(tracking: Tracking, selected: set<string>)

  /** The sources that have no fingerprint or changed. */
  function PickSources(o: Options, loaders: seq<Loader>, w: World, p: Pick): Pick
    decreases |loaders|
  {
    if loaders == [] then p
    else
      var s := loaders[0].source;
      PickSources(o, loaders[1..], w,
                  if !p.tracking.Trackable(s) then p.(selected := p.selected + {s})
                  else Pick(p.tracking.Looked(w.disk, s),
                            if p.tracking.Changed(o.hash, w.disk, s) then p.selected + {s} else p.selected))
  }

  datatype Look = Look(tracking: Tracking, changed: bool)

  /** Looks at the includes of a layer up to the first that changed. */
  function AnyChanged(o: Options, deps: seq<string>, w: World, t: Tracking): Look
    decreases |deps|
  {
    if deps == [] then Look(t, false)
    else if t.Changed(o.hash, w.disk, deps[0]) then Look(t.Looked(w.disk, deps[0]), true)
    else AnyChanged(o, deps[1..], w, t.Looked(w.disk, deps[0]))
  }

  function PickDeps(o: Options, loaders: seq<Loader>, parts: seq<Part>, w: World, p: Pick): Pick
    requires |parts| == |loaders|
    decreases |loaders|
  {
    if loaders == [] then p
    else
      var look := AnyChanged(o, parts[0].deps, w, p.tracking);
      PickDeps(o, loaders[1..], parts[1..], w,
               Pick(look.tracking, if look.changed then p.selected + {loaders[0].source} else p.selected))
  }

  function Select(o: Options, s: Sources, w: World): Pick
    requires Cached(s)
  {
    PickDeps(o, s.loaders, s.parts, w, PickSources(o, s.loaders, w, Pick(s.tracking, {})))
  }

  /** prepareReloadCandidate up to materialization: what a successful reload
      publishes. A reload that selects nothing publishes nothing. */
  function Reload(o: Options, s: Sources, w: World, incremental: bool): Result<Sources, Error>
    requires Cached(s)
  {
    if !incremental then LoadSelected(o, s, w, None)
    else
      var p := Select(o, s, w);
      if p.selected == {} then Ok(s) else LoadSelected(o, s.(tracking := p.tracking), w, Some(p.selected))
  }

  /** prepareExtendCandidate: None when there is nothing to publish. */
  function Extend(o: Options, s: Sources, w: World, l: Loader): Result<Option<Sources>, Error> {
    match Build(o, l, w)
    case Err(e) => Err(e)
    case Ok(p) =>
      if p.layer.None? then Ok(None)
      else
        Ok(Some(Sources(s.loaders + [l], s.parts + [p], TrackPaths(o.hash, w.disk, [l.source] + p.deps, s.tracking),
                        Merge.MergeTrees(o.merger, s.merged, p.layer.value),
                        Merge.MergeTrees(o.merger, s.env, EnvHandler.Resolve(p.layer.value, o.env)),
                        s.plan)))
  }

  /** The private candidate that Reload and Extend work on. */
  class Candidate {
    const o: Options
    const tracker: FileTracker
    var loaders: seq<Loader>
    /** loaderLayers and loaderDependencies, entry by entry */
    var parts: seq<Part>
    var merged: Tree
    var env: Tree
    var plan: Plan

    /** snapshotSourceCandidate */
    constructor (o: Options, s: Sources)
      ensures this.o == o && tracker.hash == o.hash && fresh(tracker)
      ensures State() == s
    {
      this.o := o;
      var t := new FileTracker(o.hash);
      tracker := t;
      loaders, parts, merged, env, plan := s.loaders, s.parts, s.merged, s.env, s.plan;
      new;
      tracker.Restore(s.tracking);
    }

    function State(): Sources
      reads this, tracker
    {
      Sources(loaders, parts, tracker.Snapshot(), merged, env, plan)
    }

    method TrackEach(paths: seq<string>, w: World)
      requires tracker.hash == o.hash
      modifies tracker
      ensures tracker.Snapshot() == TrackPaths(o.hash, w.disk, paths, old(tracker.Snapshot()))
    {
      for i := 0 to |paths|
        invariant TrackPaths(o.hash, w.disk, paths[i..], tracker.Snapshot()) == TrackPaths(o.hash, w.disk, paths,
                  old(tracker.Snapshot()))
      {
        assert paths[i..][1..] == paths[i + 1..];
        var _ := tracker.Track(w.disk, paths[i]);
      }
    }

    /** loadSelected. A failed candidate is thrown away. */
    method Load(w: World, selected: Option<set<string>>) returns (r: Result<(), Error>)
      requires tracker.hash == o.hash
      modifies this, tracker
      ensures match LoadSelected(o, old(State()), w, selected)
              case Err(e) => r == Err(e)
              case Ok(s) => r == Ok(()) && State() == s
    {
      hide Build, Record, RecordAll, Assemble, TrackPaths, TrackAll, BuildAll, Midway, Chosen;
      var sel := selected;
      if |parts| != |loaders| {
        parts := seq(|loaders|, _ => DROPPED);
        sel := None;
      }
      ghost var pass := Pass(loaders, w, sel, parts, tracker.Snapshot());
      var notes := NO_NOTES;
      MidwayStart(o, pass);
      for i := 0 to |loaders|
        invariant loaders == old(loaders) && |parts| == |loaders|
        invariant Midway(o, pass, i, parts, tracker.Snapshot(), notes)
      {
        var l := loaders[i];
        ghost var before, snapshot := parts, tracker.Snapshot();
        if Chosen(l, sel) {
          var p := Build(o, l, w);
          if p.Err? {
            MidwayFail(o, pass, i, parts, tracker.Snapshot(), notes);
            return Err(p.error);
          }
          if p.value.layer.Some? {
            TrackEach([l.source] + p.value.deps, w);
          }
          parts := parts[i := p.value];
        }
        MidwayStep(o, pass, i, before, snapshot, notes, parts, tracker.Snapshot());
        notes := Record(o, l, parts[i].layer, notes);
      }
      MidwayEnd(o, pass, parts, tracker.Snapshot(), notes);
      var a := Assemble(o, notes);
      if a.Err? {
        return Err(a.error);
      }
      merged, env, plan := a.value.merged, a.value.env, a.value.plan;
      return Ok(());
    }

    /** The incremental selection; it looks at files, so it updates the tracker. */
    method SelectSources(w: World) returns (selected: set<string>)
      requires tracker.hash == o.hash && |parts| == |loaders|
      modifies tracker
      ensures Pick(tracker.Snapshot(), selected) == Select(o, old(State()), w)
    {
      hide AnyChanged;
      selected := {};
      ghost var t0 := tracker.Snapshot();
      for i := 0 to |loaders|
        invariant PickSources(o, loaders[i..], w, Pick(tracker.Snapshot(), selected)) == PickSources(o, loaders, w,
                  Pick(t0, {}))
      {
        assert loaders[i..][1..] == loaders[i + 1..];
        var s := loaders[i].source;
        var trackable := tracker.IsTrackable(s);
        var changed := false;
        if trackable {
          changed := tracker.HasChanged(w.disk, s);
        }
        if !trackable || changed {
          selected := selected + {s};
        }
      }
      ghost var p := Pick(tracker.Snapshot(), selected);
      for i := 0 to |loaders|
        invariant PickDeps(o, loaders[i..], parts[i..], w, Pick(tracker.Snapshot(), selected)) == PickDeps(o, loaders,
                  parts, w, p)
      {
        assert loaders[i..][1..] == loaders[i + 1..] && parts[i..][1..] == parts[i + 1..];
        var changed := LookAt(parts[i].deps, w);
        if changed {
          selected := selected + {loaders[i].source};
        }
      }
    }

    method LookAt(deps: seq<string>, w: World) returns (changed: bool)
      requires tracker.hash == o.hash
      modifies tracker
      ensures Look(tracker.Snapshot(), changed) == AnyChanged(o, deps, w, old(tracker.Snapshot()))
    {
      for i := 0 to |deps|
        invariant AnyChanged(o, deps[i..], w, tracker.Snapshot()) == AnyChanged(o, deps, w, old(tracker.Snapshot()))
      {
        assert deps[i..][1..] == deps[i + 1..];
        var c := tracker.HasChanged(w.disk, deps[i]);
        if c {
          return true;
        }
      }
      return false;
    }

    /** The result says whether the candidate is to be published. */
    method PrepareReload(w: World, incremental: bool) returns (r: Result<bool, Error>)
      requires tracker.hash == o.hash && |parts| == |loaders|
      modifies this, tracker
      ensures match Reload(o, old(State()), w, incremental)
              case Err(e) => r == Err(e)
              case Ok(s) => r.Ok? && (if r.value then State() == s else s == old(State()))
    {
      hide LoadSelected;
      var selected := None;
      if incremental {
        var picked := SelectSources(w);
        if picked == {} {
          return Ok(false);
        }
        selected := Some(picked);
      }
      var loaded := Load(w, selected);
      if loaded.Err? {
        return Err(loaded.error);
      }
      return Ok(true);
    }

    method PrepareExtend(w: World, l: Loader) returns (r: Result<bool, Error>)
      requires tracker.hash == o.hash
      modifies this, tracker
      ensures match Extend(o, old(State()), w, l)
              case Err(e) => r == Err(e)
              case Ok(None) => r == Ok(false) && State() == old(State())
              case Ok(Some(s)) => r == Ok(true) && State() == s
    {
      hide Build, TrackPaths;
      var p := Build(o, l, w);
      if p.Err? {
        return Err(p.error);
      }
      if p.value.layer.None? {
        return Ok(false);
      }
      var composed := p.value.layer.value;
      merged := Merge.MergeTrees(o.merger, merged, composed);
      env := Merge.MergeTrees(o.merger, env, EnvHandler.Resolve(composed, o.env));
      loaders, parts := loaders + [l], parts + [p.value];
      TrackEach([l.source] + p.value.deps, w);
      return Ok(true);
    }
  }
}
