/** Runs in which an incremental reload differs from a full one. */
module ReloadExamples {
  import opened Values
  import opened FileTracker
  import opened Load
  import opened Selection
  import opened Incremental
  import opened ReloadRuns
  import opened ExtendReload
  import ExtendEnvironment
  import Compose
  import Merge
  import EnvHandler

  lemma {:induction false} AutoAssembles(o: Options, loaders: seq<Loader>, parts: seq<Part>)
    requires |parts| == |loaders| && o.strategy == Auto
    ensures RecordAll(o, loaders, parts).planError.None? && Assemble(o, RecordAll(o, loaders, parts)).Ok?
    decreases |loaders|
  {
    if loaders != [] {
      var n := |loaders| - 1;
      AutoAssembles(o, loaders[..n], parts[..n]);
    }
  }

  lemma SelectOne(o: Options, l: Loader, s: Sources, w: World)
    requires s.loaders == [l] && |s.parts| == 1 && s.parts[0].deps == [] && !NonFile(l.source)
    ensures Select(o, s, w) ==
            if !s.tracking.Trackable(l.source) || s.tracking.Changed(o.hash, w.disk, l.source) then Pick(s.tracking,
                {l.source})
            else Pick(s.tracking.Looked(w.disk, l.source), {})
  {
    assert s.loaders[1..] == [] && s.parts[1..] == [];
    var t, src := s.tracking, l.source;
    var reported := !t.Trackable(src) || t.Changed(o.hash, w.disk, src);
    var p := Pick(if t.Trackable(src) then t.Looked(w.disk, src) else t, if reported then {src} else {});
    assert {} + {src} == {src};
    assert PickSources(o, s.loaders, w, Pick(t, {})) == PickSources(o, [], w, p) == p;
    assert AnyChanged(o, [], w, p.tracking) == Look(p.tracking, false);
    assert PickDeps(o, s.loaders, s.parts, w, p) == PickDeps(o, [], [], w, p) == p;
  }

  lemma LoadOne(o: Options, l: Loader, s: Sources, w: World, sel: Option<set<string>>)
    requires s.loaders == [l] && |s.parts| == 1 && o.strategy == Auto && Chosen(l, sel)
    requires Build(o, l, w).Ok?
    ensures var p := Build(o, l, w).value;
            var r := LoadSelected(o, s, w, sel);
            && r.Ok? && r.value.loaders == [l] && r.value.parts == [p]
            && r.value.tracking ==
               if p.layer.Some? then TrackPaths(o.hash, w.disk, PathsOf(l, p), s.tracking) else s.tracking
  {
    hide Build, Assemble, RecordAll, TrackPaths;
    var p := Build(o, l, w).value;
    AutoAssembles(o, [l], [p]);
    assert [l][1..] == [] && s.parts[1..] == [] && [p][1..] == [] && [p] + [] == [p];
    assert BuildAll(o, [], w, sel, []) == Ok([]);
    assert BuildAll(o, s.loaders, w, sel, s.parts) == Ok([p]);
    var t, src := s.tracking, l.source;
    var t' := if p.layer.Some? then TrackPaths(o.hash, w.disk, [src] + p.deps, t) else t;
    assert TrackAll(o, [l], w, sel, [p], t) == TrackAll(o, [], w, sel, [], t') == t';
  }

  lemma TrackOne(hash: string -> string, disk: Disk, f: string, t: Tracking)
    ensures TrackPaths(hash, disk, [f] + [], t) == t.Track(hash, disk, f)
  {
    assert [f] + [] == [f] && [f][1..] == [];
    assert TrackPaths(hash, disk, [], t.Track(hash, disk, f)) == t.Track(hash, disk, f);
  }

  /** A reload of a single source without includes. */
  lemma ReloadOne(o: Options, l: Loader, s: Sources, w: World, incremental: bool)
    requires s.loaders == [l] && |s.parts| == 1 && s.parts[0].deps == [] && o.strategy == Auto && !NonFile(l.source)
    requires Build(o, l, w).Ok? && Build(o, l, w).value.deps == []
    ensures var t, p, r := s.tracking, Build(o, l, w).value, Reload(o, s, w, incremental);
            if incremental && t.Trackable(l.source) && !t.Changed(o.hash, w.disk, l.source) then r == Ok(s)
            else
              && r.Ok? && r.value.loaders == [l] && r.value.parts == [p]
              && r.value.tracking == if p.layer.Some? then t.Track(o.hash, w.disk, l.source) else t
  {
    TrackOne(o.hash, w.disk, l.source, s.tracking);
    hide Build, LoadSelected, NonFile, TrackPaths;
    if incremental {
      SelectOne(o, l, s, w);
      hide Select;
      if Select(o, s, w).selected != {} {
        LoadOne(o, l, s, w, Some({l.source}));
        assert s.(tracking := s.tracking) == s;
      }
    } else {
      LoadOne(o, l, s, w, None);
    }
  }

  /** A loader whose file holds "full" or something without data. */
  function Toggle(): Loader {
    Loader("a.yaml", false, true, "flat",
           (c: Option<string>) =>
             if c == Some("full") then Data(map["k" := Null]) else if c.Some? then Nothing else Failed)
  }

  function Plain(): Options {
    Options(Compose.Host(map[], (s, p) => p, p => Some(p), (p, c) => None, (a, b) => a),
            Merge.Merger(Merge.Deep, map[]), "", Raise, Auto, Reject, c => c)
  }

  function Holding(content: string): World { World(map["a.yaml" := content], map[]) }

  function Started(): Sources {
    Sources([Toggle()], [DROPPED], Tracking(map[], {}), map[], map[], Plan(Auto, [], map[]))
  }

  lemma ToggleBuilds(w: World)
    requires "a.yaml" in w.disk
    ensures Build(Plain(), Toggle(), w) ==
            Ok(if w.disk["a.yaml"] == "full" then Part(Some(map["k" := Null]), []) else DROPPED)
    ensures !NonFile("a.yaml")
  {
    var t: Tree := map["k" := Null];
    assert t - {"_merge_strategy"} == t;
    assert "a.yaml"[0] == 'a' && "a.yaml"[1] == '.';
    forall i | 0 <= i < |SCHEMES| ensures !StartsFolded(SCHEMES[i], "a.yaml") {
      assert |SCHEMES[i]| > 1 && SCHEMES[i][1] != '.';
    }
  }

  /** The dropped layer is not picked up again: the file is emptied, which drops
      its layer but leaves the old hash in place, and then gets its old content
      back. The incremental reload sees no change; a full one restores the layer. */
  lemma RevertedExample()
    ensures var o := Plain();
            var loaded := Reload(o, Started(), Holding("full"), false);
            && loaded.Ok? && |loaded.value.parts| == 1 == |loaded.value.loaders| && loaded.value.parts[0].layer.Some?
            && var emptied := Reload(o, loaded.value, Holding(""), true);
               && emptied.Ok? && emptied.value.parts == [DROPPED] && |emptied.value.loaders| == 1
               && Reload(o, emptied.value, Holding("full"), true) == emptied
               && Shown(Reload(o, emptied.value, Holding("full"), false)) == Shown(loaded)
  {
    hide Build, Reload, NonFile;
    var o, l := Plain(), Toggle();
    ToggleBuilds(Holding("full"));
    ToggleBuilds(Holding(""));
    ReloadOne(o, l, Started(), Holding("full"), false);
    var loaded := Reload(o, Started(), Holding("full"), false).value;
    ReloadOne(o, l, loaded, Holding(""), true);
    var emptied := Reload(o, loaded, Holding(""), true).value;
    ReloadOne(o, l, emptied, Holding("full"), true);
    FullIgnoresCache(o, Started(), emptied, Holding("full"));
  }
  /** Two sources that include the same file. */
  function Including(source: string): Loader {
    Loader(source, false, true, "flat",
           (c: Option<string>) => if c.Some? then Data(map["_include" := Text("c")]) else Failed)
  }

  function Sharing(): Options {
    Options(Compose.Host(map[], (s, p) => p, p => Some(p), (p, c) => Some(map["v" := Text(c)]), (a, b) => a),
            Merge.Merger(Merge.Deep, map[]), "", Raise, Auto, Reject, c => c)
  }

  function WithInclude(content: string): World { World(map["a" := "", "b" := "", "c" := content], map[]) }

  lemma IncludingBuilds(o: Options, source: string, content: string)
    requires o == Sharing() || o == Sharing().(policy := Warn)
    requires source == "a" || source == "b"
    ensures Build(o, Including(source), WithInclude(content)) == Ok(Part(Some(map["v" := Text(content)]), ["c"]))
  {
    var w := WithInclude(content);
    var h := HostAt(o, w);
    var v: Tree := map["v" := Text(content)];
    var local: Tree := map["_include" := Text("c")];
    var t1, t2 := Compose.Trace({"c"}, ["c"], []), Compose.Trace({"c"}, ["c"], ["c"]);
    assert {} + {"c"} == {"c"} && [] + ["c"] == ["c"];
    assert Compose.Compose(h, v, "c", 1, t2) == Compose.Outcome(Ok(v), t2) by {
      assert v - {"_merge_strategy"} == v;
    }
    assert Compose.LoadFile(h, "c", "c", 0, t1) == Compose.Outcome(Ok(v), t2);
    MergeSmall(v);
    assert ["c"][1..] == [];
    assert Compose.IncludeAll(h, [], v, source, 0, t2) == Compose.Outcome(Ok(v), t2);
    assert Compose.IncludeAll(h, ["c"], map[], source, 0, Compose.START) == Compose.Outcome(Ok(v), t2);
    assert Compose.ComposeTop(h, local, source) == Compose.Outcome(Ok(v), t2);
  }

  lemma MergeSmall(v: Tree)
    requires v.Keys == {"v"} && !v["v"].Map?
    ensures MergeOf(Merge.Merger(Merge.Deep, map[]))(map[], v) == v
    ensures MergeOf(Merge.Merger(Merge.Deep, map[]))(map["_include" := Text("c")], v)
              - {"_include"} - {"_merge_strategy"} == v
  {
    var m := Merge.Merger(Merge.Deep, map[]);
    Merge.AdvancedIsDeep(m, map[], v);
    Merge.AdvancedIsDeep(m, map["_include" := Text("c")], v);
  }

  /** Before any load: one source, an empty cache and tracker. */
  function Before(l: Loader): Sources {
    Sources([l], [DROPPED], Tracking(map[], {}), map[], map[], Plan(Auto, [], map[]))
  }

  lemma LoadIncluding(o: Options, content: string)
    requires o == Sharing() || o == Sharing().(policy := Warn)
    ensures var r := Reload(o, Before(Including("a")), WithInclude(content), false);
            && r.Ok? && r.value.loaders == [Including("a")]
            && r.value.parts == [Part(Some(map["v" := Text(content)]), ["c"])]
            && r.value.tracking == Tracking(map["a" := "", "c" := content], {})
  {
    IncludingBuilds(o, "a", content);
    TracksIncluding(content);
    hide Build, LoadSelected, TrackPaths, HostAt;
    LoadOne(o, Including("a"), Before(Including("a")), WithInclude(content), None);
  }

  lemma TracksIncluding(content: string)
    ensures TrackPaths(Sharing().hash, WithInclude(content).disk, ["a"] + ["c"], Tracking(map[], {})) ==
            Tracking(map["a" := "", "c" := content], {})
  {
    PlainNames("a");
    PlainNames("c");
    hide NonFile;
    var d, h := WithInclude(content).disk, Sharing().hash;
    assert ["a"] + ["c"] == ["a", "c"] && ["a", "c"][1..] == ["c"] && ["c"][1..] == [];
    var t := Tracking(map[], {}).Track(h, d, "a");
    assert TrackPaths(h, d, ["c"], t) == TrackPaths(h, d, [], t.Track(h, d, "c"));
  }

  /** Extend with a second source, and an incremental reload in the same world
      publishes nothing, although a full load gives another first layer. */
  ghost predicate KeptStale(o: Options, s: Sources, w: World, l: Loader, fresher: Part) {
    var r := Extend(o, s, w, l);
    && s.parts != [] && r.Ok? && r.value.Some? && Cached(r.value.value)
    && r.value.value.parts == s.parts + [Build(o, l, w).value]
    && Reload(o, r.value.value, w, true) == Ok(r.value.value)
    && var full := FullLayers(o, r.value.value, w);
       full.Ok? && full.value != [] && full.value[0] == fresher != s.parts[0]
  }

  /** The condition of ExtendFaithfulIff is needed: the shared include is edited
      between the load of the first source and the Extend with the second, and
      from then on an incremental reload keeps the first layer as it was before
      the edit. */
  lemma SharedIncludeExample()
    ensures var loaded := Reload(Sharing(), Before(Including("a")), WithInclude("1"), false);
            && loaded.Ok? && loaded.value.parts == [Part(Some(map["v" := Text("1")]), ["c"])]
            && KeptStale(Sharing(), loaded.value, WithInclude("2"), Including("b"),
                         Part(Some(map["v" := Text("2")]), ["c"]))
  {
    LoadIncluding(Sharing(), "1");
    hide Reload, Including, KeptStale, Sharing, WithInclude, Before;
    SharedKept(Reload(Sharing(), Before(Including("a")), WithInclude("1"), false).value);
  }

  lemma ExtendAdds(o: Options, s: Sources, w: World, l: Loader)
    requires Build(o, l, w).Ok? && Build(o, l, w).value.layer.Some?
    ensures var p, r := Build(o, l, w).value, Extend(o, s, w, l);
            && r.Ok? && r.value.Some?
            && r.value.value.loaders == s.loaders + [l] && r.value.value.parts == s.parts + [p]
            && r.value.value.tracking == TrackPaths(o.hash, w.disk, PathsOf(l, p), s.tracking)
  {
    hide Build, TrackPaths, Merge.MergeTrees;
  }

  lemma SharedKept(s: Sources)
    requires s.loaders == [Including("a")] && s.parts == [Part(Some(map["v" := Text("1")]), ["c"])]
    requires s.tracking == Tracking(map["a" := "", "c" := "1"], {})
    ensures KeptStale(Sharing(), s, WithInclude("2"), Including("b"), Part(Some(map["v" := Text("2")]), ["c"]))
  {
    var o, w := Sharing(), WithInclude("2");
    IncludingBuilds(o, "a", "2");
    IncludingBuilds(o, "b", "2");
    hide Build, Select, TrackPaths, LoadSelected, FullLayers, Extend, Sharing, WithInclude, Including;
    ExtendAdds(o, s, w, Including("b"));
    var r := Extend(o, s, w, Including("b")).value.value;
    SharedTracking(s.tracking);
    SharedSelect(r);
    SharedFull(r, w);
    assert map["v" := Text("1")]["v"] != map["v" := Text("2")]["v"];
  }

  lemma SharedFull(s: Sources, w: World)
    requires s.loaders == [Including("a"), Including("b")] && |s.parts| == 2
    requires Build(Sharing(), Including("a"), w).Ok? && Build(Sharing(), Including("b"), w).Ok?
    ensures FullLayers(Sharing(), s, w).Ok? && |FullLayers(Sharing(), s, w).value| == 2
    ensures FullLayers(Sharing(), s, w).value[0] == Build(Sharing(), Including("a"), w).value
  {
    hide Build, Sharing, Including;
    var o, ls := Sharing(), s.loaders;
    assert ls[1..] == [Including("b")] && ls[1..][1..] == [];
    assert BuildAll(o, [], w, None, s.parts[1..][1..]) == Ok([]);
    assert BuildAll(o, ls[1..], w, None, s.parts[1..]).Ok?;
  }

  const AFTER := Tracking(map["a" := "", "b" := "", "c" := "2"], {})

  lemma PlainNames(n: string)
    requires n == "a" || n == "b" || n == "c"
    ensures !NonFile(n)
  {
    assert forall i :: 0 <= i < |SCHEMES| ==> |SCHEMES[i]| > 1;
  }

  lemma SharedTracking(t: Tracking)
    requires t == Tracking(map["a" := "", "c" := "1"], {})
    ensures TrackPaths(Sharing().hash, WithInclude("2").disk, ["b"] + ["c"], t) == AFTER
  {
    PlainNames("b");
    PlainNames("c");
    var d, h := WithInclude("2").disk, Sharing().hash;
    hide NonFile;
    assert (["b"] + ["c"])[1..] == ["c"] && ["c"][1..] == [];
    var t1 := t.Track(h, d, "b");
    assert t1 == Tracking(map["a" := "", "b" := "", "c" := "1"], {});
    assert t1.Track(h, d, "c") == AFTER;
    assert TrackPaths(h, d, ["c"], t1) == TrackPaths(h, d, [], AFTER);
  }

  lemma SharedSelect(s: Sources)
    requires s.loaders == [Including("a"), Including("b")] && |s.parts| == 2
    requires s.parts[0].deps == ["c"] && s.parts[1].deps == ["c"] && s.tracking == AFTER
    ensures Select(Sharing(), s, WithInclude("2")) == Pick(AFTER, {})
  {
    var o, w := Sharing(), WithInclude("2");
    PlainNames("a");
    PlainNames("b");
    PlainNames("c");
    hide NonFile;
    var p := Pick(AFTER, {});
    var ls := s.loaders;
    assert ls[1..] == [Including("b")] && ls[1..][1..] == [];
    assert PickSources(o, ls[1..], w, p) == PickSources(o, [], w, p) == p;
    assert PickSources(o, ls, w, p) == p;
    assert ["c"][1..] == [];
    assert AnyChanged(o, ["c"], w, AFTER) == AnyChanged(o, [], w, AFTER) == Look(AFTER, false);
    assert PickDeps(o, ls[1..], s.parts[1..], w, p) == PickDeps(o, [], s.parts[1..][1..], w, p) == p;
  }

  function NoInclude(): World { World(map["a" := ""], map[]) }

  /** Without its include, the source does not compose. */
  lemma IncludeMissing(o: Options)
    requires o == Sharing() || o == Sharing().(policy := Warn)
    ensures Build(o, Including("a"), NoInclude()) ==
            if o.policy == Raise then Err(ComposeFailed(Compose.Unreadable("c")))
            else Ok(Part(Some(map["_include" := Text("c")]), []))
  {
    var h := HostAt(o, NoInclude());
    var t1 := Compose.Trace({"c"}, ["c"], []);
    assert {} + {"c"} == {"c"} && [] + ["c"] == ["c"];
    assert Compose.LoadFile(h, "c", "c", 0, t1).result == Err(Compose.Unreadable("c"));
    assert Compose.IncludeAll(h, ["c"], map[], "a", 0, Compose.START).result == Err(Compose.Unreadable("c"));
  }

  lemma OnlyOne(o: Options, s: Sources, w: World, deps: seq<string>)
    requires |s.loaders| == 1 == |s.parts| && s.parts[0].deps == deps && !NonFile(s.loaders[0].source)
    requires s.loaders[0].source !in s.tracking.untrackable && !s.tracking.Changed(o.hash, w.disk, s.loaders[0].source)
    requires forall f :: f in deps ==> !s.tracking.Changed(o.hash, w.disk, f)
    ensures Reload(o, s, w, true) == Ok(s)
  {
    hide LoadSelected, Select, NonFile;
    assert PassedOver(o, s, w, 0);
    NothingSelectedIff(o, s, w);
  }

  /** A layer used uncomposed: under the warn policy a source whose include is
      missing is kept as it is, and no include is tracked for it. The include
      appears; the incremental reload sees no change, a full one composes. */
  lemma RepairedIncludeExample()
    ensures var o := Sharing().(policy := Warn);
            var loaded := Reload(o, Before(Including("a")), NoInclude(), false);
            && loaded.Ok? && Cached(loaded.value)
            && loaded.value.parts == [Part(Some(map["_include" := Text("c")]), [])]
            && Reload(o, loaded.value, WithInclude("1"), true) == loaded
            && var full := Reload(o, loaded.value, WithInclude("1"), false);
               full.Ok? && full.value.parts == [Part(Some(map["v" := Text("1")]), ["c"])]
  {
    var o := Sharing().(policy := Warn);
    var l := Including("a");
    IncludeMissing(o);
    IncludingBuilds(o, "a", "1");
    PlainNames("a");
    hide Build, LoadSelected, NonFile, TrackPaths;
    LoadOne(o, l, Before(l), NoInclude(), None);
    TrackOne(o.hash, NoInclude().disk, "a", Before(l).tracking);
    var s := Reload(o, Before(l), NoInclude(), false).value;
    OnlyOne(o, s, WithInclude("1"), []);
    LoadOne(o, l, s, WithInclude("1"), None);
  }

  /** A tracked include that disappears: HasChanged answers no for it, so the
      incremental reload keeps the layer, where a full load fails. */
  lemma GoneIncludeExample()
    ensures var o := Sharing();
            var loaded := Reload(o, Before(Including("a")), WithInclude("1"), false);
            && loaded.Ok? && Cached(loaded.value)
            && Reload(o, loaded.value, NoInclude(), true) == loaded
            && Reload(o, loaded.value, NoInclude(), false) == Err(ComposeFailed(Compose.Unreadable("c")))
  {
    var o := Sharing();
    LoadIncluding(o, "1");
    IncludeMissing(o);
    PlainNames("a");
    PlainNames("c");
    hide Build, NonFile, RecordAll, Assemble, TrackAll, Select;
    var s := Reload(o, Before(Including("a")), WithInclude("1"), false).value;
    OnlyOne(o, s, NoInclude(), ["c"]);
  }

  /** A source whose file is read as t. */
  function Holds(source: string, t: Tree): Loader {
    Loader(source, false, true, "flat", (c: Option<string>) => if c.Some? then Data(t) else Failed)
  }

  function TwoSections(default: Tree, prod: Tree): Tree { map["default" := Map(default), "prod" := Map(prod)] }

  function InProd(): Options { Sharing().(env := "prod") }

  lemma HoldsBuilds(source: string, t: Tree, w: World)
    requires source in w.disk && Compose.Free(t)
    ensures Build(InProd(), Holds(source, t), w) == Ok(Part(Some(t), []))
  {
    assert t - {"_merge_strategy"} == t;
  }

  /** What an Extend shows, and what a full reload right after it shows. */
  ghost predicate ShowsThen(o: Options, s: Sources, w: World, l: Loader, extended: Tree, reloaded: Tree) {
    var x := Extend(o, s, w, l);
    && x.Ok? && x.value.Some? && x.value.value.env == extended && Cached(x.value.value)
    && var r := Reload(o, x.value.value, w, false);
       && r.Ok? && r.value.parts == x.value.value.parts && r.value.merged == x.value.value.merged
       && r.value.env == reloaded
  }

  /** Two sectioned layers: Extend lets the default section of the new layer hide
      the environment section of the earlier one; a full reload does not. */
  lemma SectionedExample()
    ensures var o, w := InProd(), WithInclude("");
            var base := TwoSections(map["a" := Number(1)], map["a" := Number(2)]);
            var layer := TwoSections(map["a" := Number(3)], map[]);
            var loaded := Reload(o, Before(Holds("a", base)), w, false);
            && loaded.Ok? && loaded.value.env == map["a" := Number(2)]
            && ShowsThen(o, loaded.value, w, Holds("b", layer), map["a" := Number(3)], map["a" := Number(2)])
  {
    ResolvedSections(Number(1), Number(2), Number(3));
    hide *;
    LoadAndExtend(WithInclude(""), TwoSections(map["a" := Number(1)], map["a" := Number(2)]),
                  TwoSections(map["a" := Number(3)], map[]));
  }

  /** A load of one source and an Extend with another, whatever their content. */
  lemma LoadAndExtend(w: World, base: Tree, layer: Tree)
    requires w == WithInclude("") && Compose.Free(base) && Compose.Free(layer)
    ensures var env := EnvHandler.Resolve(base, "prod");
            var loaded := Reload(InProd(), Before(Holds("a", base)), w, false);
            && loaded.Ok? && loaded.value.env == env
            && ShowsThen(InProd(), loaded.value, w, Holds("b", layer),
                         Merge.DeepMerge(env, EnvHandler.Resolve(layer, "prod")),
                         EnvHandler.Resolve(Merge.DeepMerge(base, layer), "prod"))
  {
    HoldsBuilds("a", base, w);
    HoldsBuilds("b", layer, w);
    LoadHeld(w, base);
    hide Reload, ShowsThen, EnvHandler.Resolve, Build, Merge.DeepMerge, Extend, WithInclude, Before, Consistent;
    ShownThen(InProd(), Reload(InProd(), Before(Holds("a", base)), w, false).value, w, Holds("b", layer), layer);
  }

  lemma LoadHeld(w: World, t: Tree)
    requires "a" in w.disk && Compose.Free(t)
    ensures var l := Holds("a", t);
            var r := Reload(InProd(), Before(l), w, false);
            && r.Ok? && r.value.loaders == [l] && r.value.parts == [Part(Some(t), [])] && Consistent(InProd(), r.value)
            && r.value.merged == t && r.value.env == EnvHandler.Resolve(t, "prod")
  {
    var o, l := InProd(), Holds("a", t);
    var s0 := Before(l);
    HoldsBuilds("a", t, w);
    assert Sensible(o, s0.loaders);
    hide Build, LoadSelected, Assemble, EnvHandler.Resolve, TrackPaths, Sensible;
    LoadOne(o, l, s0, w, None);
    FullLoadIsFaithful(o, s0, w);
    var s := Reload(o, s0, w, false).value;
    var n := RecordAll(o, [l], [Part(Some(t), [])]);
    assert RecordAll(o, [], []) == NO_NOTES;
    assert n == Record(o, l, Some(t), NO_NOTES);
    AssembledMaps(o, n, s.merged, s.env, s.plan);
    assert n.configs == [Some(t)] && [Some(t)][1..] == [];
  }

  /** Extend and reload of unchanged sources, none selected by environment. */
  lemma ShownThen(o: Options, s: Sources, w: World, l: Loader, layer: Tree)
    requires Consistent(o, s) && o.strategy == Auto && o.merger == Merge.Merger(Merge.Deep, map[])
    requires s.loaders != [] && !l.envFile && forall x :: x in s.loaders ==> !x.envFile
    requires forall i :: 0 <= i < |s.loaders| ==> s.parts[i].layer.Some? && Build(o, s.loaders[i], w) == Ok(s.parts[i])
    requires Build(o, l, w) == Ok(Part(Some(layer), []))
    ensures ShowsThen(o, s, w, l, Merge.DeepMerge(s.env, EnvHandler.Resolve(layer, o.env)),
                      EnvHandler.Resolve(Merge.DeepMerge(s.merged, layer), o.env))
  {
    ExtendAdds(o, s, w, l);
    var s' := Extend(o, s, w, l).value.value;
    hide Build, EnvHandler.Resolve, Merge.MergeTrees, Assemble, RecordAll, TrackAll, Extend;
    assert s.parts[0].layer.Some?;
    forall i | 0 <= i < |s'.loaders| ensures Build(o, s'.loaders[i], w) == Ok(s'.parts[i]) {
    }
    UnchangedBuildAll(o, s'.loaders, w, s'.parts);
    AutoAssembles(o, s'.loaders, s'.parts);
    hide BuildAll;
    var r := Reload(o, s', w, false).value;
    hide Reload;
    ExtendThenReload(o, s, w, l, s', r);
    Merge.AdvancedIsDeep(o.merger, s.merged, layer);
    Merge.AdvancedIsDeep(o.merger, s.env, EnvHandler.Resolve(layer, o.env));
  }

  lemma ResolvedSections(x: Value, y: Value, z: Value)
    requires !x.Map? && !y.Map? && !z.Map?
    ensures var base, layer := TwoSections(map["a" := x], map["a" := y]), TwoSections(map["a" := z], map[]);
            && Compose.Free(base) && Compose.Free(layer)
            && EnvHandler.Resolve(base, "prod") == map["a" := y]
            && Merge.DeepMerge(map["a" := y], EnvHandler.Resolve(layer, "prod")) == map["a" := z]
            && EnvHandler.Resolve(Merge.DeepMerge(base, layer), "prod") == map["a" := y]
  {
    var X, Y, Z: Tree := map["a" := x], map["a" := y], map["a" := z];
    OneKey(X, Y);
    OneKey(Y, Z);
    OneKey(X, Z);
    OneKey(Z, Y);
    hide Merge.DeepMerge, EnvHandler.Resolve, TwoSections;
    SectionsOf(X, Y, Z, map[]);
  }

  lemma SectionsOf(a: Tree, b: Tree, c: Tree, d: Tree)
    ensures var base, layer := TwoSections(a, b), TwoSections(c, d);
            && Compose.Free(base) && Compose.Free(layer)
            && EnvHandler.Resolve(base, "prod") == Merge.DeepMerge(a, b)
            && EnvHandler.Resolve(layer, "prod") == Merge.DeepMerge(c, d)
            && EnvHandler.Resolve(Merge.DeepMerge(base, layer), "prod") ==
               Merge.DeepMerge(Merge.DeepMerge(a, c), Merge.DeepMerge(b, d))
  {
    var base, layer := TwoSections(a, b), TwoSections(c, d);
    ExtendEnvironment.ResolveIs(base, "prod");
    ExtendEnvironment.ResolveIs(layer, "prod");
    ExtendEnvironment.AwareMerges(base, layer, "prod");
    ExtendEnvironment.ResolveIs(Merge.DeepMerge(base, layer), "prod");
    ExtendEnvironment.SectionMerges(base, layer, "prod");
    ExtendEnvironment.SectionMerges(base, layer, "default");
  }

  lemma OneKey(a: Tree, b: Tree)
    requires a.Keys == {"a"} == b.Keys && !a["a"].Map? && !b["a"].Map?
    ensures Merge.DeepMerge(a, b) == b && Merge.DeepMerge(a, map[]) == a
  {
  }
}
