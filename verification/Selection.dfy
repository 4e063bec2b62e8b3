/** Which sources an incremental reload selects (config_reload.go,
    sourcetrack/filetracker.go). */
module Selection {
  import opened Values
  import opened FileTracker
  import opened Load

  function PathsOf(l: Loader, p: Part): seq<string> { [l.source] + p.deps }

  /** A tracked file is never also classified as untrackable. */
  ghost predicate Apart(t: Tracking) {
    forall p :: p in t.files ==> p !in t.untrackable && !NonFile(p)
  }

  /** The tracker after some looks at the disk: it only forgets missing files. */
  ghost predicate Later(t: Tracking, t': Tracking, disk: Disk) {
    && Apart(t')
    && (forall p :: p in t'.files ==> p in t.files && t'.files[p] == t.files[p])
    && (forall p :: p in t.files && p in disk ==> p in t'.files)
    && t.untrackable <= t'.untrackable
  }

  /** The path was looked at and not reported. */
  ghost predicate Quiet(hash: string -> string, disk: Disk, t: Tracking, t': Tracking, p: string) {
    && (p in t.files && p in disk ==> hash(disk[p]) == t.files[p])
    && (p in t'.files ==> p in disk)
  }

  lemma LookFacts(hash: string -> string, disk: Disk, t: Tracking, p: string)
    requires Apart(t)
    ensures Later(t, t.Looked(disk, p), disk)
    ensures !t.Changed(hash, disk, p) ==> Quiet(hash, disk, t, t.Looked(disk, p), p)
  {
  }

  /** What is known of a path after one look carries over to a span of looks. */
  lemma LaterSpan(hash: string -> string, disk: Disk, t: Tracking, t1: Tracking, t2: Tracking, p: string)
    requires Later(t, t1, disk) && Later(t1, t2, disk)
    ensures Later(t, t2, disk)
    ensures Quiet(hash, disk, t, t1, p) || Quiet(hash, disk, t1, t2, p) ==> Quiet(hash, disk, t, t2, p)
  {
  }

  lemma {:induction false} PickSourcesFacts(o: Options, loaders: seq<Loader>, w: World, p: Pick, i: nat)
    requires Apart(p.tracking)
    ensures var r := PickSources(o, loaders, w, p);
            && Later(p.tracking, r.tracking, w.disk) && p.selected <= r.selected
            && (i < |loaders| && loaders[i].source !in r.selected ==>
                 !NonFile(loaders[i].source) && Quiet(o.hash, w.disk, p.tracking, r.tracking, loaders[i].source))
    decreases |loaders|
  {
    if loaders != [] {
      var s, t := loaders[0].source, p.tracking;
      var p' := if !t.Trackable(s) then p.(selected := p.selected + {s})
                else Pick(t.Looked(w.disk, s), if t.Changed(o.hash, w.disk, s) then p.selected + {s} else p.selected);
      LookFacts(o.hash, w.disk, t, s);
      assert Later(t, p'.tracking, w.disk);
      PickSourcesFacts(o, loaders[1..], w, p', if i > 0 then i - 1 else |loaders|);
      var r := PickSources(o, loaders[1..], w, p');
      hide Later, Quiet;
      LaterSpan(o.hash, w.disk, t, p'.tracking, r.tracking, if i < |loaders| then loaders[i].source else "");
    }
  }

  lemma {:induction false} AnyChangedFacts(o: Options, deps: seq<string>, w: World, t: Tracking, f: string)
    requires Apart(t)
    ensures var r := AnyChanged(o, deps, w, t);
            && Later(t, r.tracking, w.disk)
            && (!r.changed && f in deps ==> Quiet(o.hash, w.disk, t, r.tracking, f))
    decreases |deps|
  {
    if deps != [] {
      LookFacts(o.hash, w.disk, t, deps[0]);
      if !t.Changed(o.hash, w.disk, deps[0]) {
        var t' := t.Looked(w.disk, deps[0]);
        AnyChangedFacts(o, deps[1..], w, t', f);
        hide Later, Quiet;
        LaterSpan(o.hash, w.disk, t, t', AnyChanged(o, deps[1..], w, t').tracking, f);
        assert f in deps ==> f == deps[0] || f in deps[1..];
      }
    }
  }

  lemma {:induction false} PickDepsFacts(o: Options, loaders: seq<Loader>, parts: seq<Part>, w: World, p: Pick,
      i: nat, f: string)
    requires |parts| == |loaders| && Apart(p.tracking)
    ensures var r := PickDeps(o, loaders, parts, w, p);
            && Later(p.tracking, r.tracking, w.disk) && p.selected <= r.selected
            && (i < |loaders| && loaders[i].source !in r.selected && f in parts[i].deps ==>
                 Quiet(o.hash, w.disk, p.tracking, r.tracking, f))
    decreases |loaders|
  {
    if loaders != [] {
      AnyChangedFacts(o, parts[0].deps, w, p.tracking, f);
      var look := AnyChanged(o, parts[0].deps, w, p.tracking);
      var p' := Pick(look.tracking, if look.changed then p.selected + {loaders[0].source} else p.selected);
      hide AnyChanged;
      PickDepsFacts(o, loaders[1..], parts[1..], w, p', if i > 0 then i - 1 else |loaders|, f);
      hide Later, Quiet;
      LaterSpan(o.hash, w.disk, p.tracking, p'.tracking, PickDeps(o, loaders[1..], parts[1..], w, p').tracking, f);
    }
  }

  /** A source is passed over only if none of its readable tracked files changed. */
  lemma SelectFacts(o: Options, s: Sources, w: World, i: nat, f: string)
    requires Cached(s) && Apart(s.tracking)
    ensures Later(s.tracking, Select(o, s, w).tracking, w.disk)
    ensures i < |s.loaders| && s.loaders[i].source !in Select(o, s, w).selected ==>
              && !NonFile(s.loaders[i].source)
              && (f in PathsOf(s.loaders[i], s.parts[i]) ==>
                   Quiet(o.hash, w.disk, s.tracking, Select(o, s, w).tracking, f))
  {
    PickSourcesFacts(o, s.loaders, w, Pick(s.tracking, {}), i);
    var p := PickSources(o, s.loaders, w, Pick(s.tracking, {}));
    PickDepsFacts(o, s.loaders, s.parts, w, p, i, f);
    var q := PickDeps(o, s.loaders, s.parts, w, p);
    hide PickSources, PickDeps, Quiet, Later;
    LaterSpan(o.hash, w.disk, s.tracking, p.tracking, q.tracking, f);
  }

  /** A file that was tracked and is gone: HasChanged answers no, once. */
  predicate Lost(t: Tracking, disk: Disk, f: string) { t.Trackable(f) && f in t.files && f !in disk }

  /** Looking at files changes no answer of HasChanged, and classifies exactly
      what is lost. */
  lemma LookedAnswers(hash: string -> string, disk: Disk, t: Tracking, q: string, f: string)
    ensures t.Looked(disk, q).Changed(hash, disk, f) == t.Changed(hash, disk, f)
    ensures t.Looked(disk, q).Trackable(f) <==> t.Trackable(f) && !(f == q && Lost(t, disk, f))
    ensures Lost(t.Looked(disk, q), disk, f) <==> Lost(t, disk, f) && f != q
  {
    hide NonFile;
  }

  /** Some loader names the source; some two do. */
  ghost predicate Named(loaders: seq<Loader>, f: string) { exists i :: 0 <= i < |loaders| && loaders[i].source == f }

  ghost predicate NamedTwice(loaders: seq<Loader>, f: string) {
    exists i, j :: 0 <= i < j < |loaders| && loaders[i].source == f && loaders[j].source == f
  }

  lemma NamedParts(loaders: seq<Loader>, f: string)
    requires loaders != []
    ensures Named(loaders, f) <==> loaders[0].source == f || Named(loaders[1..], f)
    ensures NamedTwice(loaders, f) <==>
            (loaders[0].source == f && Named(loaders[1..], f)) || NamedTwice(loaders[1..], f)
  {
    var rest := loaders[1..];
    assert forall i :: 0 <= i < |rest| ==> rest[i] == loaders[i + 1];
    if i :| 0 <= i < |loaders| && loaders[i].source == f && i > 0 {
      assert rest[i - 1].source == f;
    }
    if i, j :| 0 <= i < j < |loaders| && loaders[i].source == f && loaders[j].source == f {
      assert rest[j - 1].source == f;
      if i > 0 { assert rest[i - 1].source == f; }
    }
    if i, j :| 0 <= i < j < |rest| && rest[i].source == f && rest[j].source == f {
      assert loaders[i + 1].source == f && loaders[j + 1].source == f;
    }
    if i :| 0 <= i < |rest| && rest[i].source == f {
      assert loaders[i + 1].source == f;
    }
  }

  /** What the tracker answers for a source that is named. */
  ghost predicate Reported(hash: string -> string, disk: Disk, t: Tracking, loaders: seq<Loader>, f: string) {
    Named(loaders, f) && (!t.Trackable(f) || t.Changed(hash, disk, f) || (Lost(t, disk, f) && NamedTwice(loaders, f)))
  }

  lemma {:induction false} PickSourcesIff(o: Options, loaders: seq<Loader>, w: World, p: Pick, f: string)
    ensures var r := PickSources(o, loaders, w, p);
            && (f in r.selected <==> f in p.selected || Reported(o.hash, w.disk, p.tracking, loaders, f))
            && (forall g :: r.tracking.Changed(o.hash, w.disk, g) == p.tracking.Changed(o.hash, w.disk, g))
    decreases |loaders|
  {
    hide NonFile;
    if loaders != [] {
      var s, t := loaders[0].source, p.tracking;
      var p' := if !t.Trackable(s) then p.(selected := p.selected + {s})
                else Pick(t.Looked(w.disk, s), if t.Changed(o.hash, w.disk, s) then p.selected + {s} else p.selected);
      PickSourcesIff(o, loaders[1..], w, p', f);
      NamedParts(loaders, f);
      LookedAnswers(o.hash, w.disk, t, s, f);
      forall g ensures p'.tracking.Changed(o.hash, w.disk, g) == t.Changed(o.hash, w.disk, g) {
        LookedAnswers(o.hash, w.disk, t, s, g);
      }
      TwiceIsNamed(loaders[1..], f);
      hide Named, NamedTwice, Lost, PickSources;
    }
  }

  lemma TwiceIsNamed(loaders: seq<Loader>, f: string)
    ensures NamedTwice(loaders, f) ==> Named(loaders, f)
  {
  }

  lemma {:induction false} AnyChangedIff(o: Options, deps: seq<string>, w: World, t: Tracking)
    ensures var r := AnyChanged(o, deps, w, t);
            && (r.changed <==> exists f :: f in deps && t.Changed(o.hash, w.disk, f))
            && (forall g :: r.tracking.Changed(o.hash, w.disk, g) == t.Changed(o.hash, w.disk, g))
    decreases |deps|
  {
    if deps != [] {
      var t' := t.Looked(w.disk, deps[0]);
      forall g ensures t'.Changed(o.hash, w.disk, g) == t.Changed(o.hash, w.disk, g) {
        LookedAnswers(o.hash, w.disk, t, deps[0], g);
      }
      assert forall f :: f in deps <==> f == deps[0] || f in deps[1..];
      if !t.Changed(o.hash, w.disk, deps[0]) {
        AnyChangedIff(o, deps[1..], w, t');
      }
    }
  }

  /** Some loader with that source has an include that changed. */
  ghost predicate IncludeChanged(o: Options, loaders: seq<Loader>, parts: seq<Part>, w: World, t: Tracking, f: string)
    requires |parts| == |loaders|
  {
    exists i, g :: 0 <= i < |loaders| && loaders[i].source == f && g in parts[i].deps && t.Changed(o.hash, w.disk, g)
  }

  lemma {:induction false} PickDepsIff(o: Options, loaders: seq<Loader>, parts: seq<Part>, w: World, p: Pick, f: string)
    requires |parts| == |loaders|
    ensures f in PickDeps(o, loaders, parts, w, p).selected <==>
            f in p.selected || IncludeChanged(o, loaders, parts, w, p.tracking, f)
    decreases |loaders|
  {
    if loaders != [] {
      AnyChangedIff(o, parts[0].deps, w, p.tracking);
      var look := AnyChanged(o, parts[0].deps, w, p.tracking);
      var p' := Pick(look.tracking, if look.changed then p.selected + {loaders[0].source} else p.selected);
      hide AnyChanged;
      PickDepsIff(o, loaders[1..], parts[1..], w, p', f);
      IncludeParts(o, loaders, parts, w, p.tracking, look.tracking, f);
      hide IncludeChanged;
    }
  }

  lemma IncludeParts(o: Options, loaders: seq<Loader>, parts: seq<Part>, w: World, t: Tracking, t': Tracking, f: string)
    requires |parts| == |loaders| && loaders != []
    requires forall g :: t'.Changed(o.hash, w.disk, g) == t.Changed(o.hash, w.disk, g)
    ensures IncludeChanged(o, loaders, parts, w, t, f) <==>
            (loaders[0].source == f && exists g :: g in parts[0].deps && t.Changed(o.hash, w.disk, g)) ||
            IncludeChanged(o, loaders[1..], parts[1..], w, t', f)
  {
    hide NonFile;
    if i, g :| 0 < i < |loaders| && loaders[i].source == f && g in parts[i].deps && t.Changed(o.hash, w.disk, g) {
      assert loaders[1..][i - 1].source == f && g in parts[1..][i - 1].deps;
    }
    var ls, ps := loaders[1..], parts[1..];
    if i, g :| 0 <= i < |ls| && ls[i].source == f && g in ps[i].deps && t'.Changed(o.hash, w.disk, g) {
      assert loaders[i + 1].source == f && g in parts[i + 1].deps;
    }
  }

  /** Loader i is passed over: its source is tracked and not changed, and, if the
      file is gone, no other loader names it; and no loader with that source has
      an include that changed. */
  ghost predicate PassedOver(o: Options, s: Sources, w: World, i: nat)
    requires Cached(s) && i < |s.loaders|
  {
    var f, t := s.loaders[i].source, s.tracking;
    && t.Trackable(f) && !t.Changed(o.hash, w.disk, f)
    && (f !in w.disk ==> !NamedTwice(s.loaders, f))
    && !IncludeChanged(o, s.loaders, s.parts, w, t, f)
  }

  /** The selection, read off the tracker, the cache and the disk. */
  lemma SelectedIff(o: Options, s: Sources, w: World, i: nat)
    requires Cached(s) && i < |s.loaders|
    ensures s.loaders[i].source !in Select(o, s, w).selected <==> PassedOver(o, s, w, i)
  {
    var f, p0 := s.loaders[i].source, Pick(s.tracking, {});
    var p := PickSources(o, s.loaders, w, p0);
    PickSourcesIff(o, s.loaders, w, p0, f);
    PickDepsIff(o, s.loaders, s.parts, w, p, f);
    assert Named(s.loaders, f);
    assert IncludeChanged(o, s.loaders, s.parts, w, p.tracking, f) <==>
           IncludeChanged(o, s.loaders, s.parts, w, s.tracking, f);
    hide PickSources, PickDeps, Named, NamedTwice, IncludeChanged, NonFile;
  }

  /** An incremental reload has nothing to publish exactly when every source is
      passed over. */
  lemma NothingSelectedIff(o: Options, s: Sources, w: World)
    requires Cached(s)
    ensures Select(o, s, w).selected == {} <==> forall i :: 0 <= i < |s.loaders| ==> PassedOver(o, s, w, i)
  {
    hide PassedOver;
    forall i | 0 <= i < |s.loaders|
      ensures s.loaders[i].source !in Select(o, s, w).selected <==> PassedOver(o, s, w, i)
    {
      SelectedIff(o, s, w, i);
    }
    if Select(o, s, w).selected != {} {
      var f :| f in Select(o, s, w).selected;
      SelectedIsNamed(o, s, w, f);
    }
    hide Select;
  }

  lemma SelectedIsNamed(o: Options, s: Sources, w: World, f: string)
    requires Cached(s) && f in Select(o, s, w).selected
    ensures exists i :: 0 <= i < |s.loaders| && s.loaders[i].source == f
  {
    hide PickSources, PickDeps, NamedTwice, NonFile;
    var p := PickSources(o, s.loaders, w, Pick(s.tracking, {}));
    PickSourcesIff(o, s.loaders, w, Pick(s.tracking, {}), f);
    PickDepsIff(o, s.loaders, s.parts, w, p, f);
  }
}
