/** The life of one configuration under concurrent use: optimistic operations
    snapshot it at a revision, work on a private candidate without the lock, and
    publish only if nothing was published meanwhile (config_mutation.go,
    config_override.go, config_source_transaction.go, config_materialize.go,
    config_observe.go, config_lifecycle.go). Every step is one critical section
    of the configuration lock, or one computation on private data. */
module Lifecycle {
  import opened Values
  import opened Paths
  import opened Snapshots
  import opened Overrides

  datatype Prepared = Failed | Unchanged | Publish(c: Content)

  /** A retained version: its materialized map, sensitive paths and attribution. */
  datatype Version = Version(config: Tree, sensitive: set<string>, tracker: Attribution)

  /** An operation with what it gets from outside: the materialized value of a
      Set or Override, what loaders and providers make of a snapshot. */
  datatype Job =
    | SetJob(key: string, rawValue: Value, effectiveValue: Value, allowOverride: bool)
    | PushJob(payload: map<string, Value>, effective: map<string, Value>)
    | SourceJob(prepare: Content -> Prepared)
    | RefreshJob(resolve: Tree -> Option<Tree>)
    | RollbackJob(version: Version)

  function Has(t: Tree, key: string): bool { Parse(key).Some? && GetPath(t, Parse(key).value).Some? }

  /** The private work of one attempt. */
  function Candidate(o: Settings, job: Job, c: Content): Prepared {
    match job
    case SetJob(k, raw, eff, allow) =>
      if !allow && Has(c.env, k) then Failed
      else
        var v := SetKey(o, c.View(), k, raw, eff, "runtime");
        if v.None? || !o.valid(v.value.env) then Failed else Publish(c.With(v.value, SensitiveAfter(o, v.value.raw)))
    case PushJob(p, e) =>
      var r := PushCandidate(o, c, p, e);
      if r.None? then Failed else Publish(r.value)
    case SourceJob(prepare) => prepare(c)
    case RefreshJob(resolve) =>
      if c.raw.None? then Unchanged
      else
        var r := resolve(c.raw.value);
        if r.None? || !o.valid(r.value) then Failed
        else Publish(c.(env := r.value, sensitive := SensitiveAfter(o, c.raw.value)))
    case RollbackJob(v) =>
      if !o.valid(v.config) then Failed
      else Publish(c.(env := v.config, raw := Some(v.config), merged := v.config, tracker := v.tracker,
                      sensitive := v.sensitive - {""}))
  }

  /** Only overrides are let through while frozen. */
  predicate Blocked(s: Shared, job: Job) { s.closed || (s.frozen && !job.PushJob?) }

  function Commit(s: Shared, job: Job, c: Content): Shared {
    match job
    case PushJob(p, e) => CommitPush(s, c, p, e)
    case _ => s.(content := c, revision := s.revision + 1)
  }

  datatype Done = Did(job: Job) | Restored(id: nat) | Froze | Closed

  /** The operation run alone, from start to end. */
  function Alone(o: Settings, s: Shared, d: Done): Shared
    requires Anchored(s)
  {
    match d
    case Did(job) =>
      if Blocked(s, job) then s
      else
        var r := Candidate(o, job, s.content);
        if r.Publish? then Commit(s, job, r.c) else s
    case Restored(id) => Restore(o, s, id)
    case Froze => s.(frozen := true)
    case Closed => s.(closed := true)
  }

  datatype Logged = Logged(thread: nat, done: Done)

  lemma AloneKeeps(o: Settings, s: Shared, d: Done)
    requires Wellformed(s)
    ensures Wellformed(Alone(o, s, d))
  {
    hide Candidate, Restore, Blocked;
    match d {
      case Restored(id) => RestoreKeeps(o, s, id);
      case Did(job) => CommitKeeps(s, job, if Candidate(o, job, s.content).Publish? then Candidate(o, job,
          s.content).c else s.content);
      case _ =>
    }
  }

  lemma CommitKeeps(s: Shared, job: Job, c: Content)
    requires Wellformed(s)
    ensures Wellformed(Commit(s, job, c))
  {
  }

  /** The operations of a log, one at a time. */
  function Serial(o: Settings, s: Shared, log: seq<Logged>): (r: Shared)
    requires Wellformed(s)
    ensures Wellformed(r)
    decreases |log|
  {
    if log == [] then s
    else
      var before := Serial(o, s, log[..|log| - 1]);
      AloneKeeps(o, before, log[|log| - 1].done);
      Alone(o, before, log[|log| - 1].done)
  }

  datatype Outcome = Committed | Rejected | NothingToDo | Failure | Cancelled

  /** Where a call is. at is the length of the log when the snapshot was taken. */
  datatype Pc =
    | Looping(job: Job)
    | Working(job: Job, rev: nat, snap: Content, at: nat)
    | Ready(job: Job, rev: nat, snap: Content, at: nat, c: Content)
    | Over(outcome: Outcome)

  datatype State = State(shared: Shared, calls: map<nat, Pc>, log: seq<Logged>) {
    function Move(t: nat, pc: Pc): State { this.(calls := calls[t := pc]) }

    function Commits(t: nat, s: Shared, d: Done): State { State(s, calls[t := Over(Committed)], log + [Logged(t, d)]) }
  }

  datatype Step =
    | Begin(t: nat, job: Job)
    | Snapshot(t: nat)
    | Prepare(t: nat, job: Job)
    | Publication(t: nat)
    | Cancel(t: nat)
    | DoRestore(t: nat, id: nat)
    | DoFreeze(t: nat)
    | DoClose(t: nat)

  /** A retry of a source transaction or refresh sees the outside afresh. */
  ghost predicate SameCall(a: Job, b: Job) {
    a == b || (a.SourceJob? && b.SourceJob?) || (a.RefreshJob? && b.RefreshJob?)
  }

  /** Failures that are reported only if the snapshot they describe is current. */
  predicate Rechecks(o: Settings, job: Job, c: Content) {
    job.PushJob? ||
    (job.SetJob? && (job.allowOverride || !Has(c.env, job.key)) &&
     SetKey(o, c.View(), job.key, job.rawValue, job.effectiveValue, "runtime").Some?)
  }

  function Failing(o: Settings, s: Shared, job: Job, rev: nat, snap: Content): Pc {
    if !Rechecks(o, job, snap) then Over(Failure)
    else if s.closed then Over(Rejected)
    else if s.revision != rev then Looping(job)
    else Over(Failure)
  }

  ghost predicate BeginStep(s: State, s': State, t: nat, job: Job) {
    t !in s.calls &&
    s' == s.Move(t,
      if !job.SourceJob? && Blocked(s.shared, job) then Over(Rejected)
      else if job.RollbackJob? then Working(job, s.shared.revision, s.shared.content, |s.log|)
      else Looping(job))
  }

  ghost predicate SnapshotStep(s: State, s': State, t: nat) {
    t in s.calls && s.calls[t].Looping? &&
    s' == s.Move(t, if Blocked(s.shared, s.calls[t].job) then Over(Rejected)
                    else Working(s.calls[t].job, s.shared.revision, s.shared.content, |s.log|))
  }

  ghost predicate PrepareStep(o: Settings, s: State, s': State, t: nat, job: Job) {
    t in s.calls && s.calls[t].Working? && SameCall(s.calls[t].job, job) &&
    var w := s.calls[t];
    s' == s.Move(t, match Candidate(o, job, w.snap)
                    case Publish(c) => Ready(job, w.rev, w.snap, w.at, c)
                    case Unchanged => Over(NothingToDo)
                    case Failed => Failing(o, s.shared, job, w.rev, w.snap))
  }

  ghost predicate PublicationStep(o: Settings, s: State, s': State, t: nat) {
    t in s.calls && s.calls[t].Ready? &&
    var r := s.calls[t];
    if Blocked(s.shared, r.job) then s' == s.Move(t, Over(Rejected))
    else if r.job.RollbackJob? then
      var p := Candidate(o, r.job, s.shared.content);
      p.Publish? && s' == s.Commits(t, Commit(s.shared, r.job, p.c), Did(r.job))
    else if s.shared.revision != r.rev then s' == s.Move(t, Looping(r.job))
    else s' == s.Commits(t, Commit(s.shared, r.job, r.c), Did(r.job))
  }

  ghost predicate Next(o: Settings, s: State, s': State, step: Step)
    requires Anchored(s.shared)
  {
    match step
    case Begin(t, job) => BeginStep(s, s', t, job)
    case Snapshot(t) => SnapshotStep(s, s', t)
    case Prepare(t, job) => PrepareStep(o, s, s', t, job)
    case Publication(t) => PublicationStep(o, s, s', t)
    case Cancel(t) => t in s.calls && !s.calls[t].Over? && s' == s.Move(t, Over(Cancelled))
    case DoRestore(t, id) =>
      t !in s.calls &&
      s' == if s.shared.closed || !InStack(s.shared.stack, id) then s.Move(t, Over(NothingToDo))
            else s.Commits(t, Restore(o, s.shared, id), Restored(id))
    case DoFreeze(t) => t !in s.calls && s' == s.Commits(t, s.shared.(frozen := true), Froze)
    case DoClose(t) =>
      t !in s.calls &&
      s' == if s.shared.closed then s.Move(t, Over(NothingToDo)) else s.Commits(t, s.shared.(closed := true), Closed)
  }

  /** Operations that publish; they are the ones that raise the revision. */
  predicate Publishes(d: Done) { d.Did? || d.Restored? }

  /** The entry took effect where it stands in the log. */
  ghost predicate Effective(o: Settings, s: Shared, d: Done) {
    match d
    case Did(job) => !Blocked(s, job) && Candidate(o, job, s.content).Publish?
    case Restored(id) => !s.closed && InStack(s.stack, id)
    case Froze => true
    case Closed => !s.closed
  }

  ghost predicate AllEffective(o: Settings, init: Shared, log: seq<Logged>)
    requires Wellformed(init)
  {
    forall k :: 0 <= k < |log| ==> Effective(o, Serial(o, init, log[..k]), log[k].done)
  }

  /** A call in progress: its snapshot is the state the log had reached then. */
  ghost predicate CallInv(o: Settings, init: Shared, log: seq<Logged>, pc: Pc)
    requires Wellformed(init)
  {
    (pc.Working? || pc.Ready? ==>
       && pc.at <= |log|
       && Serial(o, init, log[..pc.at]).revision == pc.rev && Serial(o, init, log[..pc.at]).content == pc.snap)
    && (pc.Ready? ==> Candidate(o, pc.job, pc.snap) == Publish(pc.c))
  }

  ghost predicate Inv(o: Settings, init: Shared, s: State) {
    && Wellformed(init)
    && s.shared == Serial(o, init, s.log)
    && AllEffective(o, init, s.log)
    && (forall t :: t in s.calls ==> CallInv(o, init, s.log, s.calls[t]))
    && (forall k :: 0 <= k < |s.log| ==> s.log[k].thread in s.calls && s.calls[s.log[k].thread].Over?)
  }

  lemma AloneRevision(o: Settings, s: Shared, d: Done)
    requires Wellformed(s) && Effective(o, s, d)
    ensures var s' := Alone(o, s, d);
            if Publishes(d) then s'.revision == s.revision + 1 else s'.revision == s.revision && s'.content == s.content
  {
    hide Candidate, Replay;
  }

  lemma EffectivePrefix(o: Settings, init: Shared, log: seq<Logged>, n: nat)
    requires Wellformed(init) && AllEffective(o, init, log) && n <= |log|
    ensures AllEffective(o, init, log[..n])
  {
    hide Serial, Effective, Wellformed;
    forall k | 0 <= k < n ensures Effective(o, Serial(o, init, log[..n][..k]), log[..n][k].done) {
      assert log[..n][..k] == log[..k];
    }
  }

  lemma EffectiveSnoc(o: Settings, init: Shared, log: seq<Logged>, e: Logged)
    requires Wellformed(init) && AllEffective(o, init, log) && Effective(o, Serial(o, init, log), e.done)
    ensures AllEffective(o, init, log + [e])
  {
    hide Serial, Effective, Wellformed;
    var log' := log + [e];
    forall k | 0 <= k < |log'| ensures Effective(o, Serial(o, init, log'[..k]), log'[k].done) {
      assert log'[..k] == if k < |log| then log[..k] else log;
    }
  }

  lemma SerialSnoc(o: Settings, init: Shared, log: seq<Logged>, e: Logged)
    requires Wellformed(init)
    ensures Wellformed(Serial(o, init, log)) && Serial(o, init, log + [e]) == Alone(o, Serial(o, init, log), e.done)
  {
    hide Alone, Wellformed;
    assert (log + [e])[..|log|] == log;
  }

  /** The revision counts publications, so an unchanged one means that nothing
      was published. */
  lemma {:induction false} RevisionCounts(o: Settings, init: Shared, log: seq<Logged>, i: nat)
    requires Wellformed(init) && i <= |log| && AllEffective(o, init, log)
    ensures var s, s' := Serial(o, init, log[..i]), Serial(o, init, log);
            && s.revision <= s'.revision
            && (s.revision == s'.revision ==> s.content == s'.content)
            && (s.revision == s'.revision <==> forall k :: i <= k < |log| ==> !Publishes(log[k].done))
    decreases |log|
  {
    hide Alone, Effective, Wellformed, Publishes, Serial;
    if i < |log| {
      var n := |log| - 1;
      EffectivePrefix(o, init, log, n);
      hide AllEffective;
      RevisionCounts(o, init, log[..n], i);
      assert log[..n][..i] == log[..i] && log[..n] + [log[n]] == log;
      SerialSnoc(o, init, log[..n], log[n]);
      LastEffective(o, init, log);
      AloneRevision(o, Serial(o, init, log[..n]), log[n].done);
      assert forall k :: i <= k < n ==> log[..n][k] == log[k];
    } else {
      assert log[..i] == log;
    }
  }

  lemma LastEffective(o: Settings, init: Shared, log: seq<Logged>)
    requires Wellformed(init) && AllEffective(o, init, log) && log != []
    ensures Effective(o, Serial(o, init, log[..|log| - 1]), log[|log| - 1].done)
  {
    hide Serial, Effective;
  }

  /** Equal revisions mean an unchanged snapshot. */
  lemma SnapshotUnchanged(o: Settings, init: Shared, s: State, t: nat)
    requires Inv(o, init, s) && t in s.calls && (s.calls[t].Working? || s.calls[t].Ready?)
    ensures s.calls[t].rev <= s.shared.revision
    ensures s.calls[t].rev == s.shared.revision ==> s.calls[t].snap == s.shared.content
  {
    hide Serial, Effective, Wellformed;
    RevisionCounts(o, init, s.log, s.calls[t].at);
  }

  lemma CallMoves(o: Settings, init: Shared, s: State, t: nat, pc: Pc)
    requires Inv(o, init, s) && (t in s.calls ==> !s.calls[t].Over?) && CallInv(o, init, s.log, pc)
    ensures Inv(o, init, s.Move(t, pc))
  {
    hide CallInv, Effective, Serial, Wellformed;
  }

  lemma CallSurvives(o: Settings, init: Shared, log: seq<Logged>, e: Logged, pc: Pc)
    requires Wellformed(init) && CallInv(o, init, log, pc)
    ensures CallInv(o, init, log + [e], pc)
  {
    hide Serial, Wellformed, Candidate;
    if pc.Working? || pc.Ready? {
      assert (log + [e])[..pc.at] == log[..pc.at];
    }
  }

  /** A commit appends an entry that takes effect. */
  lemma CommitMoves(o: Settings, init: Shared, s: State, t: nat, d: Done)
    requires Inv(o, init, s) && (t in s.calls ==> !s.calls[t].Over?)
    requires Wellformed(s.shared) && Effective(o, s.shared, d)
    ensures Inv(o, init, s.Commits(t, Alone(o, s.shared, d), d))
  {
    hide Effective, Wellformed, Alone, Candidate, AllEffective, CallInv, Serial;
    var e := Logged(t, d);
    EffectiveSnoc(o, init, s.log, e);
    SerialSnoc(o, init, s.log, e);
    forall u | u in s.calls && u != t ensures CallInv(o, init, s.log + [e], s.calls[u]) {
      CallSurvives(o, init, s.log, e, s.calls[u]);
    }
    OverIsFine(o, init, s.log + [e]);
  }

  lemma OverIsFine(o: Settings, init: Shared, log: seq<Logged>)
    requires Wellformed(init)
    ensures CallInv(o, init, log, Over(Committed))
  {
  }

  lemma PublicationInv(o: Settings, init: Shared, s: State, s': State, t: nat)
    requires Inv(o, init, s) && PublicationStep(o, s, s', t)
    ensures Inv(o, init, s')
  {
    hide Serial, Candidate, Wellformed, Commit;
    var r := s.calls[t];
    SnapshotUnchanged(o, init, s, t);
    if Blocked(s.shared, r.job) || (!r.job.RollbackJob? && s.shared.revision != r.rev) {
      CallMoves(o, init, s, t, s'.calls[t]);
    } else {
      assert Effective(o, s.shared, Did(r.job));
      CommitMoves(o, init, s, t, Did(r.job));
    }
  }

  lemma CallStepsInv(o: Settings, init: Shared, s: State, s': State, step: Step)
    requires Inv(o, init, s) && Anchored(s.shared) && Next(o, s, s', step)
    requires step.Begin? || step.Snapshot? || step.Prepare? || step.Cancel?
    ensures Inv(o, init, s')
  {
    hide Candidate, Effective, Wellformed, Blocked, Failing;
    assert s.log[..|s.log|] == s.log;
    assert FailingIsIdle(o) by { FailingIdle(o); }
    CallMoves(o, init, s, step.t, s'.calls[step.t]);
  }

  ghost predicate FailingIsIdle(o: Settings) {
    forall s, job, rev, snap :: var pc := Failing(o, s, job, rev, snap); pc.Over? || pc.Looping?
  }

  lemma FailingIdle(o: Settings)
    ensures FailingIsIdle(o)
  {
  }

  lemma AtomicStepsInv(o: Settings, init: Shared, s: State, s': State, step: Step)
    requires Inv(o, init, s) && Anchored(s.shared) && Next(o, s, s', step)
    requires step.DoRestore? || step.DoFreeze? || step.DoClose?
    ensures Inv(o, init, s')
  {
    hide Candidate, Wellformed, Serial, Restore;
    match step {
      case DoRestore(t, id) =>
        if s.shared.closed || !InStack(s.shared.stack, id) {
          CallMoves(o, init, s, t, Over(NothingToDo));
        } else {
          CommitMoves(o, init, s, t, Restored(id));
        }
      case DoFreeze(t) => CommitMoves(o, init, s, t, Froze);
      case DoClose(t) =>
        if s.shared.closed {
          CallMoves(o, init, s, t, Over(NothingToDo));
        } else {
          CommitMoves(o, init, s, t, Closed);
        }
    }
  }

  lemma NextInv(o: Settings, init: Shared, s: State, s': State, step: Step)
    requires Inv(o, init, s) && Anchored(s.shared) && Next(o, s, s', step)
    ensures Inv(o, init, s')
  {
    if step.Publication? {
      hide Inv, PublicationStep;
      PublicationInv(o, init, s, s', step.t);
    } else {
      hide *;
      if step.DoRestore? || step.DoFreeze? || step.DoClose? {
        AtomicStepsInv(o, init, s, s', step);
      } else {
        CallStepsInv(o, init, s, s', step);
      }
    }
  }
}
