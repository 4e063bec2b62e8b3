/** The two environment models of a source plan, and the keys they both write
    (config_environment_strategy.go, config_load.go). */
module Plans {
  import opened Values
  import opened Load
  import Flatten
  import Compose
  import EnvHandler
  import Merge

  /** What loader i contributes to a key: as the environment's own file, or as a
      layer with environment sections. */
  function WriterAt(o: Options, loaders: seq<Loader>, parts: seq<Part>, i: nat, k: string): Option<Writer>
    requires |parts| == |loaders| && i < |loaders|
  {
    var l := loaders[i];
    match parts[i].layer
    case None => None
    case Some(t) =>
      if k !in Flatten.Names("", Resolved(o, l, t)) then None
      else if l.envFile then Some(Writer(ByFile, l.source))
      else if EnvHandler.IsAware(t, o.env) then Some(Writer(BySection, l.source))
      else None
  }

  /** Loader i was loaded as one of the two. */
  predicate LoadedAs(o: Options, loaders: seq<Loader>, parts: seq<Part>, i: nat, family: Family)
    requires |parts| == |loaders| && i < |loaders|
  {
    parts[i].layer.Some? &&
    if family == ByFile then loaders[i].envFile
    else !loaders[i].envFile && EnvHandler.IsAware(parts[i].layer.value, o.env)
  }

  ghost predicate Writes(o: Options, loaders: seq<Loader>, parts: seq<Part>, i: int, k: string, family: Family)
    requires |parts| == |loaders|
  {
    0 <= i < |loaders| && WriterAt(o, loaders, parts, i, k) == Some(Writer(family, loaders[i].source))
  }

  /** Both an environment file and a section write the key. */
  ghost predicate Clashes(o: Options, loaders: seq<Loader>, parts: seq<Part>, k: string)
    requires |parts| == |loaders|
  {
    (exists i :: Writes(o, loaders, parts, i, k, ByFile)) && exists i :: Writes(o, loaders, parts, i, k, BySection)
  }

  function WritersOf(o: Options, loaders: seq<Loader>, parts: seq<Part>, k: string): seq<Writer>
    requires |parts| == |loaders|
    decreases |loaders|
  {
    if loaders == [] then []
    else
      var n := |loaders| - 1;
      var w := WriterAt(o, loaders, parts, n, k);
      WritersOf(o, loaders[..n], parts[..n], k) + if w.Some? then [w.value] else []
  }

  lemma {:induction false} WritersRecorded(o: Options, loaders: seq<Loader>, parts: seq<Part>, k: string)
    requires |parts| == |loaders|
    ensures var ws := RecordAll(o, loaders, parts).writers;
            (if k in ws then ws[k] else []) == WritersOf(o, loaders, parts, k)
    decreases |loaders|
  {
    hide Resolved, EnvHandler.IsAware;
    if loaders != [] {
      var n := |loaders| - 1;
      WritersRecorded(o, loaders[..n], parts[..n], k);
    }
  }

  lemma {:induction false} WritersAre(o: Options, loaders: seq<Loader>, parts: seq<Part>, k: string, w: Writer)
    requires |parts| == |loaders|
    ensures w in WritersOf(o, loaders, parts, k) <==>
            exists i :: 0 <= i < |loaders| && WriterAt(o, loaders, parts, i, k) == Some(w)
    decreases |loaders|
  {
    hide Resolved, EnvHandler.IsAware;
    if loaders != [] {
      var n := |loaders| - 1;
      WritersAre(o, loaders[..n], parts[..n], k, w);
      assert forall i :: 0 <= i < n ==>
          WriterAt(o, loaders[..n], parts[..n], i, k) == WriterAt(o, loaders, parts, i, k);
    }
  }

  lemma FamilyWrites(o: Options, loaders: seq<Loader>, parts: seq<Part>, k: string, family: Family)
    requires |parts| == |loaders|
    ensures (exists w :: w in WritersOf(o, loaders, parts, k) && w.family == family) <==>
            exists i :: Writes(o, loaders, parts, i, k, family)
  {
    hide WritersOf, Resolved, IsSection;
    if w :| w in WritersOf(o, loaders, parts, k) && w.family == family {
      WritersAre(o, loaders, parts, k, w);
      var i :| 0 <= i < |loaders| && WriterAt(o, loaders, parts, i, k) == Some(w);
      assert Writes(o, loaders, parts, i, k, family);
    }
    if i :| Writes(o, loaders, parts, i, k, family) {
      WritersAre(o, loaders, parts, k, Writer(family, loaders[i].source));
    }
  }

  /** Every name in d is met before those behind it. */
  ghost predicate FirstSeen(sources: seq<string>, d: seq<string>) {
    forall i, j :: 0 <= i < j < |d| ==> Before(sources, d[i], d[j])
  }

  ghost predicate Before(sources: seq<string>, x: string, y: string) {
    exists a :: 0 <= a < |sources| && sources[a] == x && y !in sources[..a + 1]
  }

  lemma BeforeStays(sources: seq<string>, n: nat, x: string, y: string)
    requires n <= |sources| && Before(sources[..n], x, y)
    ensures Before(sources, x, y)
  {
    var a :| 0 <= a < n && sources[..n][a] == x && y !in sources[..n][..a + 1];
    assert sources[..n][..a + 1] == sources[..a + 1] && sources[a] == x;
  }

  lemma BeforeNew(sources: seq<string>, x: string, y: string)
    requires x in sources && y !in sources
    ensures Before(sources, x, y)
  {
    var a :| 0 <= a < |sources| && sources[a] == x;
    assert y !in sources[..a + 1];
  }

  lemma {:induction false} DistinctHas(sources: seq<string>)
    ensures forall s :: s in Distinct(sources) <==> s in sources
    ensures forall i, j :: 0 <= i < j < |Distinct(sources)| ==> Distinct(sources)[i] != Distinct(sources)[j]
    ensures FirstSeen(sources, Distinct(sources))
    decreases |sources|
  {
    if sources != [] {
      var n := |sources| - 1;
      DistinctHas(sources[..n]);
      assert sources == sources[..n] + [sources[n]];
      var d, before := Distinct(sources), Distinct(sources[..n]);
      hide Before;
      forall i, j | 0 <= i < j < |d| ensures Before(sources, d[i], d[j]) {
        if j == |before| {
          BeforeNew(sources[..n], d[i], d[j]);
        }
        BeforeStays(sources, n, d[i], d[j]);
      }
    }
  }

  /** A conflict is a key that both models write; it names each loader that writes
      the key, once and in loading order, and the last of them. */
  lemma ConflictIff(o: Options, loaders: seq<Loader>, parts: seq<Part>, k: string)
    requires |parts| == |loaders|
    ensures var cs := Conflicts(RecordAll(o, loaders, parts).writers);
            && (k in cs <==> Clashes(o, loaders, parts, k))
            && (k in cs ==>
                  && (forall s :: s in cs[k].sources <==>
                        exists i, f :: Writes(o, loaders, parts, i, k, f) && loaders[i].source == s)
                  && (forall i, j :: 0 <= i < j < |cs[k].sources| ==> cs[k].sources[i] != cs[k].sources[j])
                  && FirstSeen(Load.SourcesOf(WritersOf(o, loaders, parts, k)), cs[k].sources)
                  && exists i, f :: Writes(o, loaders, parts, i, k, f) && cs[k].last == loaders[i].source &&
                                    forall j, g :: i < j ==> !Writes(o, loaders, parts, j, k, g))
  {
    hide RecordAll, WriterAt, WritersOf, Distinct, Writes, FirstSeen;
    var ws := WritersOf(o, loaders, parts, k);
    WritersRecorded(o, loaders, parts, k);
    FamilyWrites(o, loaders, parts, k, ByFile);
    FamilyWrites(o, loaders, parts, k, BySection);
    DistinctHas(Load.SourcesOf(ws));
    if ws != [] {
      SourcesWrite(o, loaders, parts, k);
      LastWrites(o, loaders, parts, k);
    }
  }

  lemma SourcesWrite(o: Options, loaders: seq<Loader>, parts: seq<Part>, k: string)
    requires |parts| == |loaders|
    ensures forall s :: s in Load.SourcesOf(WritersOf(o, loaders, parts, k)) <==>
                        exists i, f :: Writes(o, loaders, parts, i, k, f) && loaders[i].source == s
  {
    hide WritersOf, Resolved, IsSection;
    var ws := WritersOf(o, loaders, parts, k);
    forall s
      ensures s in Load.SourcesOf(ws) <==> exists i, f :: Writes(o, loaders, parts, i, k, f) && loaders[i].source == s
    {
      if s in Load.SourcesOf(ws) {
        var n :| 0 <= n < |ws| && Load.SourcesOf(ws)[n] == s;
        WritersAre(o, loaders, parts, k, ws[n]);
        var i :| 0 <= i < |loaders| && WriterAt(o, loaders, parts, i, k) == Some(ws[n]);
        assert Writes(o, loaders, parts, i, k, ws[n].family);
      }
      if i, f :| Writes(o, loaders, parts, i, k, f) && loaders[i].source == s {
        WritersAre(o, loaders, parts, k, Writer(f, s));
        var n :| 0 <= n < |ws| && ws[n] == Writer(f, s);
        assert Load.SourcesOf(ws)[n] == s;
      }
    }
  }

  lemma {:induction false} LastWrites(o: Options, loaders: seq<Loader>, parts: seq<Part>, k: string)
    requires |parts| == |loaders| && WritersOf(o, loaders, parts, k) != []
    ensures var ws := WritersOf(o, loaders, parts, k);
            exists i, f :: Writes(o, loaders, parts, i, k, f) && ws[|ws| - 1].source == loaders[i].source &&
                           forall j, g :: i < j ==> !Writes(o, loaders, parts, j, k, g)
    decreases |loaders|
  {
    hide Resolved, EnvHandler.IsAware;
    var n := |loaders| - 1;
    var w := WriterAt(o, loaders, parts, n, k);
    if w.Some? {
      assert Writes(o, loaders, parts, n, k, w.value.family);
    } else {
      LastWrites(o, loaders[..n], parts[..n], k);
      forall i, f | i < n
        ensures Writes(o, loaders, parts, i, k, f) <==> Writes(o, loaders[..n], parts[..n], i, k, f)
      {
      }
    }
  }

  lemma LoadedLast(o: Options, loaders: seq<Loader>, parts: seq<Part>, f: Family)
    requires |parts| == |loaders| && loaders != []
    ensures var n := |loaders| - 1;
            (exists i :: 0 <= i < |loaders| && LoadedAs(o, loaders, parts, i, f)) <==>
            (exists i :: 0 <= i < n && LoadedAs(o, loaders[..n], parts[..n], i, f)) || LoadedAs(o, loaders, parts, n, f)
  {
    var n := |loaders| - 1;
    assert forall i :: 0 <= i < n ==>
        (LoadedAs(o, loaders[..n], parts[..n], i, f) <==> LoadedAs(o, loaders, parts, i, f));
  }

  lemma {:induction false} NotesSay(o: Options, loaders: seq<Loader>, parts: seq<Part>)
    requires |parts| == |loaders|
    ensures var n := RecordAll(o, loaders, parts);
            && (n.sawNamed <==> exists i :: 0 <= i < |loaders| && LoadedAs(o, loaders, parts, i, ByFile))
            && (n.sawSectioned <==> exists i :: 0 <= i < |loaders| && LoadedAs(o, loaders, parts, i, BySection))
            && (n.planError.Some? <==> o.strategy == NamedFiles && n.sawSectioned)
    decreases |loaders|
  {
    hide Resolved, EnvHandler.IsAware;
    if loaders != [] {
      var n := |loaders| - 1;
      NotesSay(o, loaders[..n], parts[..n]);
      LoadedLast(o, loaders, parts, ByFile);
      LoadedLast(o, loaders, parts, BySection);
    }
  }

  /** When the layers of a load cannot be put together: sections under a strategy of
      named files; a hybrid one without both models; and, where conflicts are to be
      rejected, a hybrid one in which both write some key. */
  lemma AssembleFailsIff(o: Options, loaders: seq<Loader>, parts: seq<Part>)
    requires |parts| == |loaders|
    ensures Assemble(o, RecordAll(o, loaders, parts)).Err? <==>
            var named := exists i :: 0 <= i < |loaders| && LoadedAs(o, loaders, parts, i, ByFile);
            var sectioned := exists i :: 0 <= i < |loaders| && LoadedAs(o, loaders, parts, i, BySection);
            || (o.strategy == NamedFiles && sectioned)
            || (o.strategy == Hybrid &&
                (!named || !sectioned || (o.conflicts == Reject && exists k :: Clashes(o, loaders, parts, k))))
  {
    NotesSay(o, loaders, parts);
    hide RecordAll, LoadedAs, Clashes, Conflicts;
    var cs := Conflicts(RecordAll(o, loaders, parts).writers);
    forall k ensures k in cs <==> Clashes(o, loaders, parts, k) {
      ConflictIff(o, loaders, parts, k);
    }
    assert cs == map[] <==> forall k :: k !in cs;
  }

  /** And what a hybrid load that succeeds reports. */
  lemma HybridPlan(o: Options, loaders: seq<Loader>, parts: seq<Part>, k: string)
    requires |parts| == |loaders| && Assemble(o, RecordAll(o, loaders, parts)).Ok?
    ensures k in Assemble(o, RecordAll(o, loaders, parts)).value.plan.conflicts <==>
            o.strategy == Hybrid && Clashes(o, loaders, parts, k)
  {
    hide RecordAll, Clashes, Conflicts;
    ConflictIff(o, loaders, parts, k);
  }

  /** The plan lists every loader, in order, with its role and the leaf keys it
      contributes. */
  lemma {:induction false} PlanLayersAre(o: Options, loaders: seq<Loader>, parts: seq<Part>, i: nat)
    requires |parts| == |loaders| && i < |loaders|
    ensures var layers := RecordAll(o, loaders, parts).layers;
            && |layers| == |loaders| && layers[i].source == loaders[i].source
            && layers[i].role == (if LoadedAs(o, loaders, parts, i, BySection) then "sectioned" else loaders[i].role)
            && match parts[i].layer
               case None => layers[i].keys == {}
               case Some(t) => layers[i].keys == Flatten.Names("", Resolved(o, loaders[i], t))
    decreases |loaders|
  {
    hide Resolved, EnvHandler.IsAware;
    var n := |loaders| - 1;
    PlanSize(o, loaders[..n], parts[..n]);
    if i < n {
      PlanLayersAre(o, loaders[..n], parts[..n], i);
    }
  }

  lemma {:induction false} PlanSize(o: Options, loaders: seq<Loader>, parts: seq<Part>)
    requires |parts| == |loaders|
    ensures |RecordAll(o, loaders, parts).layers| == |loaders|
    decreases |loaders|
  {
    if loaders != [] {
      PlanSize(o, loaders[..|loaders| - 1], parts[..|loaders| - 1]);
    }
  }

  /** Unless errors are to be raised, no load fails for a source that cannot be read
      or composed: the one is left out, the other used as it was read. */
  lemma {:induction false} LoadTolerates(o: Options, loaders: seq<Loader>, w: World, cache: seq<Part>)
    requires |cache| == |loaders| && o.policy != Raise
    ensures var all := BuildAll(o, loaders, w, None, cache);
            all.Ok? && |all.value| == |loaders| && forall i :: 0 <= i < |loaders| ==>
              match loaders[i].fetch(Load.Content(loaders[i], w))
              case Data(t) =>
                var c := Compose.ComposeTop(HostAt(o, w), t, loaders[i].source);
                all.value[i] == if c.result.Ok? then Part(Some(c.result.value), c.trace.deps) else Part(Some(t), [])
              case _ => all.value[i] == DROPPED
    decreases |loaders|
  {
    hide Compose.ComposeTop;
    if loaders != [] {
      LoadTolerates(o, loaders[1..], w, cache[1..]);
    }
  }

  /** The layers that are present, in loading order. */
  function LayersOf(parts: seq<Part>): seq<Option<Tree>> {
    if parts == [] then []
    else LayersOf(parts[..|parts| - 1]) + if parts[|parts| - 1].layer.Some? then [parts[|parts| - 1].layer] else []
  }

  /** What each of them contributes to the environment: a file of the environment
      itself, any other its sections resolved. */
  function ShareOf(o: Options, loaders: seq<Loader>, parts: seq<Part>): seq<Option<Tree>>
    requires |parts| == |loaders|
    decreases |loaders|
  {
    if loaders == [] then []
    else
      var n := |loaders| - 1;
      ShareOf(o, loaders[..n], parts[..n]) +
      match parts[n].layer
      case None => []
      case Some(t) => [Some(if loaders[n].envFile then t else EnvHandler.Resolve(t, o.env))]
  }

  lemma {:induction false} NotesLayers(o: Options, loaders: seq<Loader>, parts: seq<Part>)
    requires |parts| == |loaders|
    ensures var n := RecordAll(o, loaders, parts);
            && n.configs == LayersOf(parts) && n.resolved == ShareOf(o, loaders, parts)
            && (n.usesFiles <==> exists i :: 0 <= i < |loaders| && loaders[i].envFile)
    decreases |loaders|
  {
    hide EnvHandler.Resolve, EnvHandler.IsAware;
    if loaders != [] {
      var n := |loaders| - 1;
      NotesLayers(o, loaders[..n], parts[..n]);
      assert forall i :: 0 <= i < n ==> loaders[..n][i] == loaders[i];
      assert LayersOf(parts[..n]) + [] == LayersOf(parts[..n]);
    }
  }

  /** What a load puts together: the layers merged in loading order; the
      environment's map from their shares when some loader is the environment's own
      file, and else from the merged map; and the strategy in use. */
  lemma AssembledFrom(o: Options, loaders: seq<Loader>, parts: seq<Part>)
    requires |parts| == |loaders| && Assemble(o, RecordAll(o, loaders, parts)).Ok?
    ensures var a := Assemble(o, RecordAll(o, loaders, parts)).value;
            && a.merged == Merge.MergeAll(o.merger, LayersOf(parts))
            && a.env == (if exists i :: 0 <= i < |loaders| && loaders[i].envFile
                         then Merge.MergeAll(o.merger, ShareOf(o, loaders, parts))
                         else EnvHandler.Resolve(a.merged, o.env))
            && a.plan.strategy == (if o.strategy == Auto &&
                                      exists i :: 0 <= i < |loaders| && LoadedAs(o, loaders, parts, i, BySection)
                                   then Sectioned else o.strategy)
  {
    NotesLayers(o, loaders, parts);
    NotesSay(o, loaders, parts);
    hide RecordAll, LoadedAs, Conflicts, Merge.MergeAll, EnvHandler.Resolve, LayersOf, ShareOf;
  }
}
