/** Reload, Extend and RefreshSecrets from end to end, as jobs of the lifecycle:
    sources are loaded, admitted, materialized, checked, and only then published
    (config_reload.go, config_extend.go, config_materialize.go). */
module Operations {
  import opened Values
  import opened Snapshots
  import opened Overrides
  import opened Lifecycle
  import opened Materialize
  import Admission
  import Redaction
  import Load
  import Incremental
  import ReloadRuns

  /** How the sources' keys are attributed; positions and timestamps are opaque. */
  type Attribute = (seq<Load.Loader>, seq<Load.Part>) -> Attribution

  /** The part of a snapshot that loading works on. */
  function SourcesOf(c: Content): Load.Sources {
    Load.Sources(c.sources.loaders, c.sources.parts, c.sources.tracking, c.merged, c.raw.GetOr(c.env), c.sources.plan)
  }

  /** materializeEffectiveConfig and validation of a loaded candidate. */
  ghost function Finish(o: Settings, s: Load.Sources, store: Store, attribute: Attribute): Prepared {
    if !Admission.AdmittedValue(Map(s.env)) || !Resolvable(Map(s.env), store) then Failed
    else
      var env := Filled(Map(s.env), store).entries;
      if !o.valid(env) then Failed
      else Publish(Content(env, Some(s.env), s.merged, attribute(s.loaders, s.parts), SensitiveAfter(o, s.env),
                           SourceState(s.loaders, s.parts, s.tracking, s.plan)))
  }

  ghost function ReloadCandidate(o: Settings, lo: Load.Options, w: Load.World, incremental: bool, store: Store,
                                 attribute: Attribute, c: Content): Prepared
  {
    var s := SourcesOf(c);
    if !Load.Cached(s) then
      (match Load.LoadSelected(lo, s, w, None) case Ok(s') => Finish(o, s', store, attribute) case Err(_) => Failed)
    else if incremental && Load.Select(lo, s, w).selected == {} then Unchanged
    else match Load.Reload(lo, s, w, incremental)
      case Ok(s') => Finish(o, s', store, attribute)
      case Err(_) => Failed
  }

  ghost function ReloadJob(o: Settings, lo: Load.Options, w: Load.World, incremental: bool, store: Store,
      attribute: Attribute): Job {
    SourceJob(c => ReloadCandidate(o, lo, w, incremental, store, attribute, c))
  }

  ghost function ExtendCandidate(o: Settings, lo: Load.Options, w: Load.World, l: Load.Loader, store: Store,
                                 attribute: Attribute, c: Content): Prepared
  {
    match Load.Extend(lo, SourcesOf(c), w, l)
    case Err(_) => Failed
    case Ok(None) => Unchanged
    case Ok(Some(s')) => Finish(o, s', store, attribute)
  }

  ghost function ExtendJob(o: Settings, lo: Load.Options, w: Load.World, l: Load.Loader, store: Store,
      attribute: Attribute): Job {
    SourceJob(c => ExtendCandidate(o, lo, w, l, store, attribute, c))
  }

  function SecretsJob(store: Store): Job {
    RefreshJob((raw: Tree) => if Resolvable(Map(raw), store) then Some(Filled(Map(raw), store).entries) else None)
  }

  /** The effective map is the unresolved one with every reference read from the
      store, and the sensitive paths are classified from it. */
  ghost predicate Materialized(o: Settings, c: Content, store: Store) {
    && c.raw.Some? && Resolvable(Map(c.raw.value), store)
    && Map(c.env) == Filled(Map(c.raw.value), store)
    && c.sensitive == SensitiveAfter(o, c.raw.value)
  }

  /** What a reload, an extension or a refresh publishes is materialized. */
  lemma PublishesMaterialized(o: Settings, lo: Load.Options, w: Load.World, incremental: bool, l: Load.Loader,
      store: Store,
                              attribute: Attribute, c: Content)
    ensures var r := Candidate(o, ReloadJob(o, lo, w, incremental, store, attribute), c); r.Publish? ==>
              Materialized(o, r.c, store)
    ensures var r := Candidate(o, ExtendJob(o, lo, w, l, store, attribute), c); r.Publish? ==>
              Materialized(o, r.c, store)
    ensures var r := Candidate(o, SecretsJob(store), c); r.Publish? ==> Materialized(o, r.c, store)
  {
    hide Load.LoadSelected, Load.Reload, Load.Select, Load.Extend, Filled, Resolvable, Admission.AdmittedValue;
  }

  /** What a reader of the redacted dump sees of a snapshot. */
  function Dump(c: Content): Value { Redaction.Redact("", Map(c.env), c.sensitive) }

  /** Two snapshots with the same unresolved map, materialized from any two
      stores, have the same redacted dump, unless a reference sits at an empty
      path; keys that are not empty rule that out. */
  lemma DumpsAgree(o: Settings, a: Content, x: Store, b: Content, y: Store)
    requires Materialized(o, a, x) && Materialized(o, b, y) && a.raw == b.raw
    requires "" !in a.raw.value
    ensures Dump(a) == Dump(b)
  {
    hide Filled, Resolvable, Redaction.Redact, Redaction.Exposed, Redaction.Classify;
    Redaction.RedactionIff(a.raw.value, o.declared);
    assert Redaction.NonInterfering(a.raw.value, o.declared);
  }

  /** An incremental reload publishes what a full one publishes; when it finds
      nothing to do, a full one would publish the maps that are already there,
      materialized again. */
  lemma ReloadsAgree(o: Settings, lo: Load.Options, w: Load.World, store: Store, attribute: Attribute, c: Content,
      was: seq<Load.World>)
    requires Incremental.Sensible(lo, c.sources.loaders) && Incremental.Faithful(lo, SourcesOf(c), was)
    requires Incremental.NoneStale(lo, SourcesOf(c), w) && Incremental.Consistent(lo, SourcesOf(c))
    ensures var part, full := ReloadCandidate(o, lo, w, true, store, attribute, c), ReloadCandidate(o, lo, w, false,
              store, attribute, c);
            match part
            case Publish(p) =>
              full.Publish? && full.c.(sources := p.sources) == p &&
              full.c.sources.(tracking := p.sources.tracking) == p.sources
            case Failed => full.Failed?
            case Unchanged =>
              full.Publish? ==>
                && full.c.raw == Some(c.raw.GetOr(c.env)) && full.c.merged == c.merged
                && full.c.sources.parts == c.sources.parts
  {
    hide Load.LoadSelected, Load.Select, Filled, Resolvable, Admission.AdmittedValue, Incremental.NoneStale,
         Incremental.Sensible, Incremental.BuiltFrom;
    var s := SourcesOf(c);
    Incremental.IncrementalIsFull(lo, s, was, w);
    ReloadLoaders(lo, s, w, true);
    ReloadLoaders(lo, s, w, false);
  }

  lemma ReloadLoaders(lo: Load.Options, s: Load.Sources, w: Load.World, incremental: bool)
    requires Load.Cached(s)
    ensures Load.Reload(lo, s, w, incremental).Ok? ==> Load.Reload(lo, s, w, incremental).value.loaders == s.loaders
  {
    hide Load.Select, Load.BuildAll, Load.Assemble, Load.RecordAll, Load.TrackAll;
  }
}
