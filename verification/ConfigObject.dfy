/** The configuration object: its fields, and the methods that change them
    under its lock. Each leaves the state that the lifecycle machine's step
    describes; what other calls do between two critical sections is the
    machine's business. */
module ConfigObject {
  import opened Values
  import opened Paths
  import opened Snapshots
  import opened Overrides
  import opened Lifecycle

  /** runtimeMutationCandidate: private copies that set changes in place. */
  class MutationCandidate {
    const o: Settings
    var env: Tree
    var raw: Tree
    var merged: Tree
    var tracker: Attribution
    var sensitive: set<string>

    constructor (o: Settings, c: Content)
      ensures this.o == o && View() == c.View() && sensitive == c.sensitive
    {
      this.o := o;
      env, raw, merged, tracker, sensitive := c.env, c.raw.GetOr(c.env), c.merged, c.tracker, c.sensitive;
    }

    function View(): Views reads this { Views(env, raw, merged, tracker) }

    /** A failure may leave some of the maps changed; the candidate is thrown away. */
    method Set(key: string, rawValue: Value, effectiveValue: Value, source: string) returns (ok: bool)
      modifies this
      ensures match SetKey(o, old(View()), key, rawValue, effectiveValue, source)
              case None => !ok
              case Some(v) => ok && View() == v && sensitive == SensitiveAfter(o, v.raw)
    {
      var p := Parse(key);
      if p.None? {
        return false;
      }
      var e := SetPath(env, p.value, effectiveValue);
      if e.None? {
        return false;
      }
      env := e.value;
      var r := SetPath(raw, p.value, rawValue);
      if r.None? {
        return false;
      }
      raw := r.value;
      var m := SetPath(merged, p.value, rawValue);
      if m.None? {
        return false;
      }
      merged := m.value;
      sensitive := SensitiveAfter(o, raw);
      tracker := TrackValue(tracker, key, rawValue, source, o.environment, o.debug);
      return true;
    }

    /** The keys of an Override in order, up to the first that fails. */
    method SetAll(payload: map<string, Value>, effective: map<string, Value>) returns (ok: bool)
      modifies this
      ensures match SetKeys(o, old(View()), SortedKeys(payload.Keys), payload, effective)
              case None => !ok
              case Some(v) =>
                ok && View() == v && sensitive == if payload == map[] then old(sensitive) else SensitiveAfter(o, v.raw)
    {
      hide SetKey;
      var keys := SortedKeys(payload.Keys);
      for i := 0 to |keys|
        invariant SetKeys(o, View(), keys[i..], payload, effective) == SetKeys(o, old(View()), keys, payload, effective)
        invariant sensitive == if i == 0 then old(sensitive) else SensitiveAfter(o, raw)
      {
        assert keys[i..][0] == keys[i] && keys[i..][1..] == keys[i + 1..] && keys[i] in keys;
        var set1 := Set(keys[i], payload[keys[i]], EffectiveOf(payload, effective, keys[i]), "override");
        if !set1 {
          return false;
        }
      }
      return true;
    }
  }

  /** What a call that meets no interference reports. */
  function ReportOf(o: Settings, s: Shared, job: Job): Outcome {
    if Blocked(s, job) then Rejected
    else match Candidate(o, job, s.content)
      case Publish(_) => Committed
      case Unchanged => NothingToDo
      case Failed => Failure
  }

  class Config {
    const o: Settings
    var env: Tree
    var raw: Option<Tree>
    var merged: Tree
    var tracker: Attribution
    var sensitive: set<string>
    var sources: SourceState
    var overrideStack: seq<Frame>
    var overrideBase: Option<Base>
    var idCounter: nat
    var frozen: bool
    var closed: bool
    var revision: nat

    constructor (o: Settings, c: Content)
      ensures this.o == o && State() == Shared(c, [], None, 0, false, false, 0) && Wellformed(State())
    {
      this.o := o;
      env, raw, merged, tracker, sensitive, sources := c.env, c.raw, c.merged, c.tracker, c.sensitive, c.sources;
      overrideStack, overrideBase, idCounter := [], None, 0;
      frozen, closed, revision := false, false, 0;
    }

    function Published(): Content reads this { Content(env, raw, merged, tracker, sensitive, sources) }

    function State(): Shared
      reads this
    {
      Shared(Published(), overrideStack, overrideBase, idCounter, frozen, closed, revision)
    }

    method Freeze()
      modifies this
      ensures State() == old(State()).(frozen := true)
    {
      frozen := true;
    }

    method Close()
      modifies this
      ensures State() == old(State()).(closed := true)
    {
      closed := true;
    }

    /** The read-locked beginning of an attempt. */
    method TakeSnapshot(job: Job) returns (r: Option<Content>, rev: nat)
      ensures rev == revision && r == if Blocked(State(), job) then None else Some(Published())
    {
      rev := revision;
      if closed || (frozen && !job.PushJob?) {
        return None, rev;
      }
      return Some(Published()), rev;
    }

    method Publish(c: Content)
      modifies this
      ensures State() == old(State()).(content := c, revision := old(revision) + 1)
    {
      env, raw, merged, tracker, sensitive, sources := c.env, c.raw, c.merged, c.tracker, c.sensitive, c.sources;
      revision := revision + 1;
    }

    /** The write-locked end of an attempt: None asks for another one. */
    method PublishAttempt(job: Job, rev: nat, c: Content) returns (r: Option<Outcome>)
      modifies this
      ensures if Blocked(old(State()), job) then r == Some(Rejected) && State() == old(State())
              else if !job.RollbackJob? && old(revision) != rev then r == None && State() == old(State())
              else r == Some(Committed) && State() == Commit(old(State()), job, c)
    {
      if closed || (frozen && !job.PushJob?) {
        return Some(Rejected);
      }
      if !job.RollbackJob? && revision != rev {
        return None;
      }
      if job.PushJob? {
        if |overrideStack| == 0 {
          overrideBase := Some(Base(Views(env, raw.GetOr(env), merged, tracker), sensitive, frozen));
        }
        idCounter := idCounter + 1;
        overrideStack := overrideStack + [Frame(idCounter, job.payload, job.effective)];
        frozen := false;
      }
      Publish(c);
      return Some(Committed);
    }

    /** Set, run without interference. */
    method Set(key: string, rawValue: Value, effectiveValue: Value, allowOverride: bool) returns (r: Outcome)
      requires Wellformed(State())
      modifies this
      ensures State() == Alone(o, old(State()), Did(SetJob(key, rawValue, effectiveValue, allowOverride)))
      ensures r == ReportOf(o, old(State()), SetJob(key, rawValue, effectiveValue, allowOverride))
      ensures r == Committed <==> revision == old(revision) + 1
    {
      hide SetKey, Wellformed;
      var job := SetJob(key, rawValue, effectiveValue, allowOverride);
      var snap, rev := TakeSnapshot(job);
      if snap.None? {
        return Rejected;
      }
      if !allowOverride && Has(env, key) {
        return Failure;
      }
      var candidate := new MutationCandidate(o, snap.value);
      var ok := candidate.Set(key, rawValue, effectiveValue, "runtime");
      if !ok || !o.valid(candidate.env) {
        return Failure;
      }
      var done := PublishAttempt(job, rev, snap.value.With(candidate.View(), candidate.sensitive));
      return done.value;
    }

    /** Override, run without interference; id names the frame for Restore. */
    method Override(payload: map<string, Value>, effective: map<string, Value>) returns (r: Outcome, id: nat)
      requires Wellformed(State())
      modifies this
      ensures State() == Alone(o, old(State()), Did(PushJob(payload, effective)))
      ensures r == ReportOf(o, old(State()), PushJob(payload, effective))
      ensures r == Committed ==> id == idCounter && !InStack(old(overrideStack), id) && InStack(overrideStack, id)
      ensures r == Committed <==> revision == old(revision) + 1
    {
      hide SetKeys, Replay;
      id := 0;
      var job := PushJob(payload, effective);
      var snap, rev := TakeSnapshot(job);
      if snap.None? {
        return Rejected, id;
      }
      var candidate := new MutationCandidate(o, snap.value);
      var ok := candidate.SetAll(payload, effective);
      if !ok || !o.valid(candidate.env) {
        return Failure, id;
      }
      var done := PublishAttempt(job, rev, snap.value.With(candidate.View(), candidate.sensitive));
      id := idCounter;
      assert overrideStack[|overrideStack| - 1].id == id;
      return done.value, id;
    }

    /** One frame of the replay loop. */
    method ReplayInto(f: Frame)
      requires raw.Some?
      modifies `env, `raw, `merged, `tracker
      ensures raw.Some? && Published().View() == ReplayFrame(o, old(Published().View()), f)
    {
      hide TrackValue, SetPath;
      var keys := SortedKeys(f.payload.Keys);
      for i := 0 to |keys|
        invariant raw.Some?
        invariant ReplayKeys(o, Published().View(), keys[i..], f.payload, f.effective) ==
                  ReplayKeys(o, old(Published().View()), keys, f.payload, f.effective)
      {
        assert keys[i..][0] == keys[i] && keys[i..][1..] == keys[i + 1..] && keys[i] in keys;
        var k := keys[i];
        ReplayOneKey(k, f.payload[k], EffectiveOf(f.payload, f.effective, k));
      }
    }

    /** One key: each of the three maps in turn, skipping the rest at a failure. */
    method ReplayOneKey(k: string, v: Value, effectiveValue: Value)
      requires raw.Some?
      modifies `env, `raw, `merged, `tracker
      ensures raw.Some? && Published().View() == ReplayKey(o, old(Published().View()), k, v, effectiveValue)
    {
      var p := Parse(k);
      if p.None? {
        return;
      }
      var e := SetPath(env, p.value, effectiveValue);
      if e.None? {
        return;
      }
      env := e.value;
      var r := SetPath(raw.value, p.value, v);
      if r.None? {
        return;
      }
      raw := Some(r.value);
      var m := SetPath(merged, p.value, v);
      if m.None? {
        return;
      }
      merged := m.value;
      tracker := TrackValue(tracker, k, v, "override", o.environment, o.debug);
    }

    /** Takes a frame out of the stack, wherever it is. */
    method Remove(id: nat)
      modifies `overrideStack
      ensures overrideStack == Without(old(overrideStack), id)
    {
      var rest := [];
      for i := 0 to |overrideStack|
        invariant rest == Without(overrideStack[..i], id) && overrideStack == old(overrideStack)
      {
        assert overrideStack[..i + 1][..i] == overrideStack[..i];
        if overrideStack[i].id != id {
          rest := rest + [overrideStack[i]];
        }
      }
      assert overrideStack[..|overrideStack|] == overrideStack;
      overrideStack := rest;
    }

    /** Replays the active frames on a fresh copy of the base. */
    method Rebuild(b: Views)
      modifies `env, `raw, `merged, `tracker
      ensures raw.Some? && Published().View() == Replay(o, b, overrideStack)
    {
      hide ReplayFrame;
      env, raw, merged, tracker := b.env, Some(b.raw), b.merged, b.tracker;
      var n := |overrideStack|;
      for i := 0 to n
        invariant raw.Some? && Published().View() == Replay(o, b, overrideStack[..i])
      {
        assert overrideStack[..i + 1][..i] == overrideStack[..i];
        ReplayInto(overrideStack[i]);
      }
      assert overrideStack[..n] == overrideStack;
    }

    /** The restore closure of frame id. */
    method Restore(id: nat)
      requires Wellformed(State())
      modifies this
      ensures State() == Overrides.Restore(o, old(State()), id)
      ensures Wellformed(State())
    {
      hide Replay, SensitiveAfter, Without, InStack;
      RestoreKeeps(o, State(), id);
      if closed || !InStack(overrideStack, id) {
        return;
      }
      assert overrideBase.Some? by { ActiveHasBase(State(), id); }
      Remove(id);
      var b := overrideBase.value;
      if |overrideStack| == 0 {
        env, raw, merged, tracker := b.views.env, Some(b.views.raw), b.views.merged, b.views.tracker;
        sensitive, frozen, overrideBase := b.sensitive, b.frozen, None;
      } else {
        Rebuild(b.views);
        sensitive := SensitiveAfter(o, raw.value);
        frozen := false;
      }
      revision := revision + 1;
    }

    /** RollbackToVersion. */
    method Rollback(version: Version) returns (r: Outcome)
      requires Wellformed(State())
      modifies this
      ensures State() == Alone(o, old(State()), Did(RollbackJob(version)))
      ensures r == ReportOf(o, old(State()), RollbackJob(version))
      ensures r == Committed <==> revision == old(revision) + 1
    {
      if frozen || closed {
        return Rejected;
      }
      if !o.valid(version.config) {
        return Failure;
      }
      env, raw, merged := version.config, Some(version.config), version.config;
      sensitive := version.sensitive - {""};
      tracker := version.tracker;
      revision := revision + 1;
      return Committed;
    }

    /** RefreshSecrets, run without interference: resolves the unresolved map anew. */
    method RefreshSecrets(resolve: Tree -> Option<Tree>) returns (r: Outcome)
      requires Wellformed(State())
      modifies this
      ensures State() == Alone(o, old(State()), Did(RefreshJob(resolve)))
      ensures r == ReportOf(o, old(State()), RefreshJob(resolve)) && (r == Committed <==> revision == old(revision) + 1)
    {
      if closed || frozen {
        return Rejected;
      }
      if raw.None? {
        return NothingToDo;
      }
      var unresolved := raw.value;
      var resolved := resolve(unresolved);
      if resolved.None? || !o.valid(resolved.value) {
        return Failure;
      }
      env := resolved.value;
      sensitive := SensitiveAfter(o, unresolved);
      revision := revision + 1;
      return Committed;
    }

    /** Reload or Extend, run without interference. */
    method RunSource(prepare: Content -> Prepared) returns (r: Outcome)
      requires Wellformed(State())
      modifies this
      ensures State() == Alone(o, old(State()), Did(SourceJob(prepare)))
      ensures r == ReportOf(o, old(State()), SourceJob(prepare)) && (r == Committed <==> revision == old(revision) + 1)
    {
      var job := SourceJob(prepare);
      var snap, rev := TakeSnapshot(job);
      if snap.None? {
        return Rejected;
      }
      match prepare(snap.value) {
        case Failed => return Failure;
        case Unchanged => return NothingToDo;
        case Publish(c) =>
          var done := PublishAttempt(job, rev, c);
          return done.value;
      }
    }
  }
}
