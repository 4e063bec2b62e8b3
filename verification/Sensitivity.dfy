/** Which paths a published snapshot treats as sensitive, over every run, and what
    the redacted dump makes of them (config_inspect.go, config_redacted.go,
    config_override.go). */
module Sensitivity {
  import opened Values
  import opened Paths
  import opened Positions
  import opened Snapshots
  import opened Overrides
  import opened Lifecycle
  import opened LifecycleRuns
  import Admission
  import Materialize
  import Redaction
  import Templates
  import Load
  import Operations

  /** A string of v at that dotted path holds a reference. */
  ghost predicate ReferenceAt(path: string, v: Value, p: string) {
    exists pos, s :: TextAt(v, pos, s) && Admission.Contains(s) && NameAt(path, pos) == p
  }

  lemma ReferenceInside(path: string, v: Value, step: Move, p: string)
    requires match v
             case Map(m) => step.Key? && step.key in m && ReferenceAt(ChildPath(path, step.key), m[step.key], p)
             case List(items) => step.Item? && step.index < |items| && ReferenceAt(path, items[step.index], p)
             case _ => false
    ensures ReferenceAt(path, v, p)
  {
    hide TextAt, Admission.Contains;
    var child, x := if v.Map? then ChildPath(path, step.key) else path,
                    if v.Map? then v.entries[step.key] else v.items[step.index];
    var pos: seq<Move>, s: string :| TextAt(x, pos, s) && Admission.Contains(s) && NameAt(child, pos) == p;
    TextOutside(v, step, pos, s);
    assert ([step] + pos)[1..] == pos;
  }

  lemma ReferenceStep(path: string, v: Value, p: string)
    requires ReferenceAt(path, v, p)
    ensures match v
            case Map(m) => exists k :: k in m && ReferenceAt(ChildPath(path, k), m[k], p)
            case List(items) => exists i :: 0 <= i < |items| && ReferenceAt(path, items[i], p)
            case Text(t) => Admission.Contains(t) && p == path
            case _ => false
  {
    hide TextAt, Admission.Contains;
    var pos: seq<Move>, s: string :| TextAt(v, pos, s) && Admission.Contains(s) && NameAt(path, pos) == p;
    TextInside(v, pos, s);
    match v {
      case Map(m) => assert ReferenceAt(ChildPath(path, pos[0].key), m[pos[0].key], p);
      case List(items) => assert ReferenceAt(path, items[pos[0].index], p);
      case _ =>
    }
  }

  lemma TextItself(path: string, t: string)
    requires Admission.Contains(t)
    ensures ReferenceAt(path, Text(t), path)
  {
    assert TextAt(Text(t), [], t);
  }

  /** The classification finds exactly the dotted paths of strings with references. */
  lemma {:induction false} ClassifyIff(path: string, v: Value, p: string)
    ensures p in Redaction.Classify(path, v) <==> p != "" && ReferenceAt(path, v, p)
    decreases v
  {
    hide ReferenceAt, ChildPath, Admission.Contains;
    if ReferenceAt(path, v, p) {
      ReferenceStep(path, v, p);
    }
    match v {
      case Map(m) =>
        forall k | k in m
          ensures p in Redaction.Classify(ChildPath(path, k), m[k]) <==>
                  p != "" && ReferenceAt(ChildPath(path, k), m[k], p)
          ensures ReferenceAt(ChildPath(path, k), m[k], p) ==> ReferenceAt(path, v, p)
        {
          ClassifyIff(ChildPath(path, k), m[k], p);
          if ReferenceAt(ChildPath(path, k), m[k], p) { ReferenceInside(path, v, Key(k), p); }
        }
      case List(items) =>
        forall i | 0 <= i < |items|
          ensures p in Redaction.Classify(path, items[i]) <==> p != "" && ReferenceAt(path, items[i], p)
          ensures ReferenceAt(path, items[i], p) ==> ReferenceAt(path, v, p)
        {
          ClassifyIff(path, items[i], p);
          if ReferenceAt(path, items[i], p) { ReferenceInside(path, v, Item(i), p); }
        }
      case Text(t) => if Admission.Contains(t) { TextItself(path, t); }
      case _ =>
    }
  }

  /** Sensitive are the declared paths and those of strings with references. */
  ghost predicate Sound(o: Settings, raw: Tree, sensitive: set<string>) {
    forall p :: p in sensitive <==> p in o.declared || (p != "" && ReferenceAt("", Map(raw), p))
  }

  ghost predicate Classified(o: Settings, c: Content) { Sound(o, c.View().raw, c.sensitive) }

  lemma AfterIsSound(o: Settings, raw: Tree)
    ensures Sound(o, raw, SensitiveAfter(o, raw))
  {
    hide ReferenceAt;
    forall p ensures p in Redaction.Classify("", Map(raw)) <==> p != "" && ReferenceAt("", Map(raw), p) {
      ClassifyIff("", Map(raw), p);
    }
  }

  /** The published snapshot is classified, and so is the captured base. */
  ghost predicate AllClassified(o: Settings, s: Shared) {
    && Classified(o, s.content)
    && (s.stack != [] ==> s.base.Some? && Sound(o, s.base.value.views.raw, s.base.value.sensitive))
  }

  /** No rollback, and a source job that publishes classified candidates. */
  ghost predicate Honest(o: Settings, d: Done) {
    d.Did? ==>
      && !d.job.RollbackJob?
      && (d.job.SourceJob? ==> forall c :: d.job.prepare(c).Publish? ==> Classified(o, d.job.prepare(c).c))
  }

  /** What loading and extending publish is classified. */
  lemma LoadingIsHonest(o: Settings, lo: Load.Options, w: Load.World, incremental: bool, l: Load.Loader,
      store: Materialize.Store, attribute: Operations.Attribute)
    ensures Honest(o, Did(Operations.ReloadJob(o, lo, w, incremental, store, attribute)))
    ensures Honest(o, Did(Operations.ExtendJob(o, lo, w, l, store, attribute)))
  {
    hide Sound, SensitiveAfter, Materialize.Filled, Materialize.Resolvable, Operations.ReloadCandidate,
      Operations.ExtendCandidate;
    forall c
      ensures var r := Operations.ReloadCandidate(o, lo, w, incremental, store, attribute, c);
              r.Publish? ==> Classified(o, r.c)
      ensures var r := Operations.ExtendCandidate(o, lo, w, l, store, attribute, c); r.Publish? ==> Classified(o, r.c)
    {
      Operations.PublishesMaterialized(o, lo, w, incremental, l, store, attribute, c);
      forall raw ensures Sound(o, raw, SensitiveAfter(o, raw)) { AfterIsSound(o, raw); }
    }
  }

  lemma CandidateClassified(o: Settings, job: Job, c: Content)
    requires Classified(o, c) && Honest(o, Did(job)) && Candidate(o, job, c).Publish?
    ensures Classified(o, Candidate(o, job, c).c)
  {
    hide Sound, SensitiveAfter, SetKey;
    forall raw ensures Sound(o, raw, SensitiveAfter(o, raw)) { AfterIsSound(o, raw); }
    if job.PushJob? && job.payload == map[] {
      assert SortedKeys(job.payload.Keys) == [];
    }
  }

  lemma AloneClassified(o: Settings, s: Shared, d: Done)
    requires Wellformed(s) && AllClassified(o, s) && Honest(o, d)
    ensures AllClassified(o, Alone(o, s, d))
  {
    hide Sound, SensitiveAfter, Candidate, Replay;
    match d {
      case Did(job) =>
        if Candidate(o, job, s.content).Publish? {
          CandidateClassified(o, job, s.content);
        }
      case Restored(id) =>
        if !s.closed && InStack(s.stack, id) && Without(s.stack, id) != [] {
          AfterIsSound(o, Replay(o, s.base.value.views, Without(s.stack, id)).raw);
        }
      case _ =>
    }
  }

  lemma {:induction false} SerialClassified(o: Settings, init: Shared, log: seq<Logged>)
    requires Wellformed(init) && AllClassified(o, init) && forall k :: 0 <= k < |log| ==> Honest(o, log[k].done)
    ensures AllClassified(o, Serial(o, init, log))
    decreases |log|
  {
    hide AllClassified, Honest, Alone, Wellformed;
    if log != [] {
      var n := |log| - 1;
      SerialClassified(o, init, log[..n]);
      AloneClassified(o, Serial(o, init, log[..n]), log[n].done);
    }
  }

  /** In every reachable state of a run without a rollback, the published sensitive
      paths are exactly the declared ones and those at which the unresolved map
      holds a string with a reference, by itself or in a list. */
  lemma RunClassified(o: Settings, init: State, events: seq<Event>, i: nat)
    requires IsRun(o, init, events) && i <= |events| && AllClassified(o, init.shared)
    requires forall k :: 0 <= k < |Before(init, events, i).log| ==> Honest(o, Before(init, events, i).log[k].done)
    ensures Classified(o, Before(init, events, i).shared.content)
  {
    Serializable(o, init, events, i);
    hide IsRun, Honest, Sound, Serial, Wellformed;
    assert Wellformed(init.shared) by { RunStarts(o, init, events); }
    SerialClassified(o, init.shared, Before(init, events, i).log);
  }

  lemma RunStarts(o: Settings, init: State, events: seq<Event>)
    requires IsRun(o, init, events)
    ensures Wellformed(init.shared)
  {
  }

  /** In terms of dotted paths: a declared path, a string with a reference and a
      list with such a string are sensitive. */
  lemma ClassifiedPaths(o: Settings, c: Content, keys: Path, x: Value)
    requires Classified(o, c) && GetPath(c.View().raw, keys) == Some(x) && PathOf("", keys) != ""
    ensures o.declared <= c.sensitive
    ensures x.Text? && Admission.Contains(x.text) ==> PathOf("", keys) in c.sensitive
    ensures x.List? && (exists i :: 0 <= i < |x.items| && x.items[i].Text? && Admission.Contains(x.items[i].text)) ==>
              PathOf("", keys) in c.sensitive
  {
    var raw := Map(c.View().raw);
    AtKeys(c.View().raw, keys, "");
    hide Admission.Contains, GetPath;
    if x.Text? && Admission.Contains(x.text) {
      assert TextAt(raw, Keys(keys), x.text);
    }
    if x.List? {
      if i :| 0 <= i < |x.items| && x.items[i].Text? && Admission.Contains(x.items[i].text) {
        AtThen(raw, Keys(keys), [Item(i)], "");
        assert TextAt(raw, Keys(keys) + [Item(i)], x.items[i].text);
        assert ReferenceAt("", raw, PathOf("", keys));
      }
    }
  }

  /** What the dump of a classified snapshot hides: at a path at or below a declared
      one, or one at which the unresolved map holds a reference, it stops at the
      marker. */
  lemma DumpHides(o: Settings, c: Content, keys: Path, d: string) returns (n: nat)
    requires Classified(o, c) && GetPath(c.env, keys).Some? && PathOf("", keys) != ""
    requires d in o.declared || (d != "" && ReferenceAt("", Map(c.View().raw), d))
    requires PathOf("", keys) == d || Below(d, PathOf("", keys))
    ensures Operations.Dump(c).Map? && 0 < n <= |keys|
    ensures GetPath(Operations.Dump(c).entries, keys[..n]) == Some(Text(Redaction.MARKER))
  {
    assert d in c.sensitive;
    assert Redaction.Sensitive(PathOf("", keys), c.sensitive);
    hide GetPath, Redaction.Redact, Redaction.Sensitive, ReferenceAt;
    n := Redaction.RedactHides("", c.env, keys, c.sensitive);
  }

  /** Valid, and every opener of the unresolved map starts one well-formed reference. */
  ghost predicate Checked(o: Settings, c: Content) {
    && o.valid(c.env) && c.raw.Some?
    && forall pos, s, i: nat :: TextAt(Map(c.raw.value), pos, s) && i < |s| && Admission.OpenerAt(s, i) ==>
         Admission.WellFormedAt(s, i)
  }

  lemma FinishChecked(o: Settings, s: Load.Sources, store: Materialize.Store, attribute: Operations.Attribute)
    ensures var r := Operations.Finish(o, s, store, attribute); r.Publish? ==> Checked(o, r.c)
  {
    hide Materialize.Filled, Materialize.Resolvable, Admission.AdmittedValue, TextAt, Admission.OpenerAt,
      Admission.WellFormedAt, SensitiveAfter;
    Templates.AdmittedIff(Map(s.env));
  }

  /** What a reload or an extension publishes has passed admission and validation. */
  lemma PublishesChecked(o: Settings, lo: Load.Options, w: Load.World, incremental: bool, l: Load.Loader,
      store: Materialize.Store, attribute: Operations.Attribute, c: Content)
    ensures var r := Candidate(o, Operations.ReloadJob(o, lo, w, incremental, store, attribute), c);
            r.Publish? ==> Checked(o, r.c)
    ensures var r := Candidate(o, Operations.ExtendJob(o, lo, w, l, store, attribute), c);
            r.Publish? ==> Checked(o, r.c)
  {
    hide Load.LoadSelected, Load.Reload, Load.Select, Load.Extend, Operations.Finish, Checked;
    forall s ensures var r := Operations.Finish(o, s, store, attribute); r.Publish? ==> Checked(o, r.c) {
      FinishChecked(o, s, store, attribute);
    }
  }
}
