/** What a configuration publishes, and how a private candidate is changed
    before publication (config_runtime_mutation.go, sourcetrack/tracker.go). */
module Snapshots {
  import opened Values
  import opened Paths
  import opened FileTracker
  import Load
  import Redaction

  datatype Entry = Entry(value: Value, source: string, loaderType: string)

  /** SourceInfo without line numbers and timestamps. */
  datatype Info = Info(value: Value, source: string, loaderType: string, environment: string, overrides: nat,
      history: seq<Entry>)

  type Attribution = map<string, Info>

  /** TrackValue: a write of the recorded value only moves its origin. */
  function TrackValue(t: Attribution, key: string, v: Value, source: string, environment: string,
      debug: bool): Attribution {
    if key !in t then t[key := Info(v, source, source, environment, 0, [])]
    else
      var i := t[key];
      t[key := if i.value == v then i.(source := source, loaderType := source)
               else Info(v, source, source, i.environment, i.overrides + 1,
                         if debug then i.history + [Entry(i.value, i.source, i.loaderType)] else i.history)]
  }

  /** The state that Set and Override change. */
  datatype Views = Views(env: Tree, raw: Tree, merged: Tree, tracker: Attribution)

  /** The state that only source loading changes. */
  datatype SourceState = SourceState(loaders: seq<Load.Loader>, parts: seq<Load.Part>, tracking: Tracking,
      plan: Load.Plan)

  /** A published snapshot. raw may be missing, and then env stands in for it. */
  datatype Content = Content(env: Tree, raw: Option<Tree>, merged: Tree, tracker: Attribution,
                             sensitive: set<string>, sources: SourceState)
  {
    function View(): Views { Views(env, raw.GetOr(env), merged, tracker) }

    function With(v: Views, sensitive: set<string>): Content {
      Content(v.env, Some(v.raw), v.merged, v.tracker, sensitive, sources)
    }
  }

  /** Options fixed at construction; valid stands for schema and struct checks. */
  datatype Settings = Settings(environment: string, declared: set<string>, debug: bool, valid: Tree -> bool)

  /** candidate.set: all three maps, or failure. */
  function SetKey(o: Settings, v: Views, key: string, raw: Value, effective: Value, source: string): Option<Views> {
    match Parse(key)
    case None => None
    case Some(p) =>
      match (SetPath(v.env, p, effective), SetPath(v.raw, p, raw), SetPath(v.merged, p, raw))
      case (Some(env), Some(r), Some(m)) => Some(Views(env, r, m, TrackValue(v.tracker, key, raw, source,
          o.environment, o.debug)))
      case _ => None
  }

  /** The value a frame has for a key in the effective map. */
  function EffectiveOf(payload: map<string, Value>, effective: map<string, Value>, k: string): Value
    requires k in payload
  {
    if k in effective then effective[k] else payload[k]
  }

  function SetKeys(o: Settings, v: Views, keys: seq<string>, payload: map<string, Value>, effective: map<string,
      Value>): Option<Views>
    requires forall k :: k in keys ==> k in payload
    decreases |keys|
  {
    if keys == [] then Some(v)
    else
      assert keys[0] in keys;
      match SetKey(o, v, keys[0], payload[keys[0]], EffectiveOf(payload, effective, keys[0]), "override")
      case None => None
      case Some(v') => SetKeys(o, v', keys[1..], payload, effective)
  }

  /** One key of a replay: each map in turn, skipping the rest of the key at the
      first that cannot take it. */
  function ReplayKey(o: Settings, v: Views, key: string, raw: Value, effective: Value): Views {
    match Parse(key)
    case None => v
    case Some(p) =>
      match SetPath(v.env, p, effective)
      case None => v
      case Some(env) =>
        match SetPath(v.raw, p, raw)
        case None => v.(env := env)
        case Some(r) =>
          match SetPath(v.merged, p, raw)
          case None => v.(env := env, raw := r)
          case Some(m) => Views(env, r, m, TrackValue(v.tracker, key, raw, "override", o.environment, o.debug))
  }

  function ReplayKeys(o: Settings, v: Views, keys: seq<string>, payload: map<string, Value>, effective: map<string,
      Value>): Views
    requires forall k :: k in keys ==> k in payload
    decreases |keys|
  {
    if keys == [] then v
    else
      assert keys[0] in keys;
      ReplayKeys(o, ReplayKey(o, v, keys[0], payload[keys[0]], EffectiveOf(payload, effective, keys[0])), keys[1..],
          payload, effective)
  }

  /** Where a candidate can be built, replaying the keys builds the same. */
  lemma {:induction false} SetKeysIsReplay(o: Settings, v: Views, keys: seq<string>, payload: map<string, Value>,
      effective: map<string, Value>)
    requires forall k :: k in keys ==> k in payload
    requires SetKeys(o, v, keys, payload, effective).Some?
    ensures ReplayKeys(o, v, keys, payload, effective) == SetKeys(o, v, keys, payload, effective).value
    decreases |keys|
  {
    if keys != [] {
      assert keys[0] in keys;
      hide SetPath, TrackValue;
      var v' := SetKey(o, v, keys[0], payload[keys[0]], EffectiveOf(payload, effective, keys[0]), "override").value;
      SetKeysIsReplay(o, v', keys[1..], payload, effective);
    }
  }

  function SensitiveAfter(o: Settings, raw: Tree): set<string> { Redaction.SensitivePaths(raw, o.declared) }
}
