/** Safety of the lifecycle over whole runs, for every interleaving. */
module LifecycleRuns {
  import opened Values
  import opened Snapshots
  import opened Overrides
  import opened Lifecycle

  datatype Event = Event(step: Step, after: State)

  function Before(init: State, events: seq<Event>, i: nat): State
    requires i <= |events|
  {
    if i == 0 then init else events[i - 1].after
  }

  ghost predicate Started(s: State) { Wellformed(s.shared) && s.calls == map[] && s.log == [] }

  /** A run: each event is a step from the state before it. */
  ghost predicate IsRun(o: Settings, init: State, events: seq<Event>) {
    Started(init) && forall i :: 0 <= i < |events| ==>
      Anchored(Before(init, events, i).shared) && Next(o, Before(init, events, i), events[i].after, events[i].step)
  }

  lemma StartedInv(o: Settings, s: State)
    requires Started(s)
    ensures Inv(o, s.shared, s)
  {
  }

  lemma RunStep(o: Settings, init: State, events: seq<Event>, i: nat)
    requires IsRun(o, init, events) && i < |events|
    ensures Anchored(Before(init, events, i).shared)
    ensures Next(o, Before(init, events, i), Before(init, events, i + 1), events[i].step)
  {
    hide Next, Anchored, Started;
  }

  lemma {:induction false} RunInv(o: Settings, init: State, events: seq<Event>, i: nat)
    requires IsRun(o, init, events) && i <= |events|
    ensures Inv(o, init.shared, Before(init, events, i))
  {
    hide Next, Inv, Started, Anchored;
    if i == 0 {
      StartedInv(o, init);
    } else {
      RunInv(o, init, events, i - 1);
      RunStep(o, init, events, i - 1);
      NextInv(o, init.shared, Before(init, events, i - 1), Before(init, events, i), events[i - 1].step);
    }
  }

  /** In every reachable state, what is published is the result of running the
      committed operations one at a time, in commit order. */
  lemma Serializable(o: Settings, init: State, events: seq<Event>, i: nat)
    requires IsRun(o, init, events) && i <= |events|
    ensures Before(init, events, i).shared == Serial(o, init.shared, Before(init, events, i).log)
  {
    RunInv(o, init, events, i);
  }

  /** A step commits at most one operation, at the end of the log. */
  lemma LogGrows(o: Settings, init: State, events: seq<Event>, i: nat)
    requires IsRun(o, init, events) && i < |events|
    ensures var log, log' := Before(init, events, i).log, Before(init, events, i + 1).log;
            log' == log || (|log'| == |log| + 1 && log <= log' && log'[|log|].thread == events[i].step.t)
  {
    hide Candidate, Restore, Failing, Started, Serial;
    RunStep(o, init, events, i);
  }

  /** A call that has to start over lost to a publication by another call since
      its snapshot. */
  lemma RetryMeansCommit(o: Settings, init: State, events: seq<Event>, i: nat)
    requires IsRun(o, init, events) && i < |events|
    ensures Retries(events[i]) ==>
              var s, t := Before(init, events, i), events[i].step.t;
              && t in s.calls && (s.calls[t].Working? || s.calls[t].Ready?)
              && exists k :: s.calls[t].at <= k < |s.log| && Publishes(s.log[k].done) && s.log[k].thread != t
  {
    if Retries(events[i]) {
      var s, t := Before(init, events, i), events[i].step.t;
      RunInv(o, init, events, i);
      RunStep(o, init, events, i);
      RetryChanged(o, s, events[i].after, events[i].step);
      hide Next, IsRun, Serial, Effective, Candidate, Wellformed;
      RevisionCounts(o, init.shared, s.log, s.calls[t].at);
    }
  }

  /** The call was at work and has to take a new snapshot. */
  predicate Retries(e: Event) {
    (e.step.Publication? || e.step.Prepare?) && e.step.t in e.after.calls && e.after.calls[e.step.t].Looping?
  }

  lemma RetryChanged(o: Settings, s: State, s': State, step: Step)
    requires Anchored(s.shared) && Next(o, s, s', step) && (step.Publication? || step.Prepare?)
    requires step.t in s'.calls && s'.calls[step.t].Looping?
    ensures step.t in s.calls && (s.calls[step.t].Working? || s.calls[step.t].Ready?)
    ensures s.shared.revision != s.calls[step.t].rev
  {
    hide Candidate, Commit, Blocked, Rechecks;
  }

  lemma EffectiveAt(o: Settings, init: Shared, log: seq<Logged>, k: nat)
    requires Wellformed(init) && AllEffective(o, init, log) && k < |log|
    ensures Effective(o, Serial(o, init, log[..k]), log[k].done)
    ensures Serial(o, init, log[..k + 1]) == Alone(o, Serial(o, init, log[..k]), log[k].done)
    ensures Wellformed(Serial(o, init, log[..k]))
  {
    hide Effective, Alone, Wellformed;
    assert log[..k + 1] == log[..k] + [log[k]];
    SerialSnoc(o, init, log[..k], log[k]);
  }

  lemma ClosedStep(o: Settings, s: Shared, d: Done)
    requires Wellformed(s) && s.closed && Effective(o, s, d)
    ensures Wellformed(Alone(o, s, d)) && Alone(o, s, d).closed
  {
    hide Candidate;
  }

  lemma {:induction false} ClosedStays(o: Settings, init: Shared, log: seq<Logged>, i: nat, j: nat)
    requires Wellformed(init) && AllEffective(o, init, log) && i <= j <= |log| && Serial(o, init, log[..i]).closed
    ensures Serial(o, init, log[..j]).closed
    decreases j
  {
    hide *;
    if i < j {
      ClosedStays(o, init, log, i, j - 1);
      EffectiveAt(o, init, log, j - 1);
      ClosedStep(o, Serial(o, init, log[..j - 1]), log[j - 1].done);
    }
  }

  /** Nothing commits once the configuration is closed; Freeze still sets its flag. */
  lemma NothingAfterClose(o: Settings, init: State, events: seq<Event>, n: nat, i: nat, j: nat)
    requires IsRun(o, init, events) && n <= |events| && i < j < |Before(init, events, n).log|
    requires Before(init, events, n).log[i].done == Closed
    ensures Before(init, events, n).log[j].done == Froze
  {
    var log := Before(init, events, n).log;
    RunInv(o, init, events, n);
    hide IsRun;
    EffectiveAt(o, init.shared, log, i);
    ClosedStays(o, init.shared, log, i + 1, j);
    EffectiveAt(o, init.shared, log, j);
  }

  /** Set, Reload, Extend, RefreshSecrets and RollbackToVersion commit only from
      states that are neither frozen nor closed, an Override only from one that
      is not closed. */
  lemma FrozenRespected(o: Settings, init: State, events: seq<Event>, n: nat, k: nat)
    requires IsRun(o, init, events) && n <= |events| && k < |Before(init, events, n).log|
    requires Before(init, events, n).log[k].done.Did?
    ensures var s := Serial(o, init.shared, Before(init, events, n).log[..k]);
            !s.closed && (!Before(init, events, n).log[k].done.job.PushJob? ==> !s.frozen)
  {
    RunInv(o, init, events, n);
    hide IsRun;
    EffectiveAt(o, init.shared, Before(init, events, n).log, k);
  }

  /** How one operation moves the override scope. */
  lemma ScopeStep(o: Settings, s: Shared, d: Done)
    requires Wellformed(s) && Effective(o, s, d)
    ensures var s' := Alone(o, s, d);
            && (s.stack == [] && s'.stack != [] ==> s'.base == Some(Base(s.content.View(), s.content.sensitive,
                s.frozen)))
            && (s.stack != [] && s'.stack != [] ==> s'.base == s.base && s.base.Some?)
            && (s.stack != [] && s'.stack == [] ==>
                  var b := s.base.value;
                  s'.content.View() == b.views && s'.content.sensitive == b.sensitive && s'.frozen == b.frozen)
            && (d.Restored? && s'.stack != [] ==>
                s.base.Some? && s'.content.View() == Replay(o, s.base.value.views, s'.stack))
  {
    hide Candidate, Replay;
  }

  /** The stack was empty in front of entry i and never since, up to j. */
  ghost predicate Scope(o: Settings, init: Shared, log: seq<Logged>, i: nat, j: nat)
    requires Wellformed(init) && i < j <= |log|
  {
    Serial(o, init, log[..i]).stack == [] && forall k :: i < k <= j ==> Serial(o, init, log[..k]).stack != []
  }

  lemma {:induction false} ScopeBase(o: Settings, init: Shared, log: seq<Logged>, i: nat, j: nat)
    requires Wellformed(init) && AllEffective(o, init, log) && i < j <= |log| && Scope(o, init, log, i, j)
    ensures var s := Serial(o, init, log[..i]);
            Serial(o, init, log[..j]).base == Some(Base(s.content.View(), s.content.sensitive, s.frozen))
    decreases j
  {
    hide Serial, Alone, Effective, AllEffective, Wellformed;
    EffectiveAt(o, init, log, j - 1);
    ScopeStep(o, Serial(o, init, log[..j - 1]), log[j - 1].done);
    if i < j - 1 {
      ScopeBase(o, init, log, i, j - 1);
    }
  }

  /** When the stack drains, the three maps, the attribution, the sensitive paths
      and the frozen flag are those in front of the push that opened the scope,
      whatever was committed inside it. */
  lemma DrainRestores(o: Settings, init: State, events: seq<Event>, n: nat, i: nat, j: nat)
    requires IsRun(o, init, events) && n <= |events|
    ensures var log := Before(init, events, n).log;
            i < j < |log| && Scope(o, init.shared, log, i, j) && Serial(o, init.shared, log[..j + 1]).stack == [] ==>
              var first, drained := Serial(o, init.shared, log[..i]), Serial(o, init.shared, log[..j + 1]);
              && drained.content.View() == first.content.View() && drained.content.sensitive == first.content.sensitive
              && drained.frozen == first.frozen
  {
    var log := Before(init, events, n).log;
    RunInv(o, init, events, n);
    hide IsRun, Serial, Alone, Effective;
    if i < j < |log| && Scope(o, init.shared, log, i, j) {
      ScopeBase(o, init.shared, log, i, j);
      EffectiveAt(o, init.shared, log, j);
      ScopeStep(o, Serial(o, init.shared, log[..j]), log[j].done);
    }
  }

  /** After any restore inside a scope, the three maps and the attribution are
      those in front of the push that opened it, with exactly the frames that are
      still active replayed; everything else committed inside is gone. */
  lemma RestoreRebuilds(o: Settings, init: State, events: seq<Event>, n: nat, i: nat, j: nat)
    requires IsRun(o, init, events) && n <= |events|
    ensures var log := Before(init, events, n).log;
            i < j < |log| && Scope(o, init.shared, log, i, j) && log[j].done.Restored? &&
            Serial(o, init.shared, log[..j + 1]).stack != [] ==>
              var first, after := Serial(o, init.shared, log[..i]), Serial(o, init.shared, log[..j + 1]);
              after.content.View() == Replay(o, first.content.View(), after.stack)
  {
    var log := Before(init, events, n).log;
    RunInv(o, init, events, n);
    hide IsRun, Serial, Alone, Effective, Replay;
    if i < j < |log| && Scope(o, init.shared, log, i, j) {
      ScopeBase(o, init.shared, log, i, j);
      EffectiveAt(o, init.shared, log, j);
      ScopeStep(o, Serial(o, init.shared, log[..j]), log[j].done);
    }
  }

  /** How a call can end: committed, with its entry in the log; refused by a flag;
      with a failure of its own work on a snapshot; with nothing to do; cancelled. */
  lemma OutcomeMeans(o: Settings, init: State, events: seq<Event>, i: nat)
    requires IsRun(o, init, events) && i < |events|
    ensures var s, s', step := Before(init, events, i), Before(init, events, i + 1), events[i].step;
            step.t in s'.calls && s'.calls[step.t].Over? ==>
              match s'.calls[step.t].outcome
              case Committed => |s'.log| == |s.log| + 1 && s'.log[|s.log|].thread == step.t
              case Rejected => s'.shared == s.shared && (s.shared.closed || s.shared.frozen)
              case Failure =>
                && s'.shared == s.shared && step.Prepare? && step.t in s.calls && s.calls[step.t].Working?
                && Candidate(o, step.job, s.calls[step.t].snap) == Failed
              case _ => s'.shared == s.shared
  {
    hide Candidate, Restore, Rechecks, Started, Serial, Commit, Blocked;
    RunStep(o, init, events, i);
    BlockedMeans(Before(init, events, i).shared);
  }

  lemma BlockedMeans(s: Shared)
    ensures forall job :: Blocked(s, job) ==> s.closed || s.frozen
  {
  }

  /** The work that failed depends on the state: any Override, and a Set of a path
      that the snapshot can take. */
  ghost predicate Depends(o: Settings, job: Job, c: Content) {
    || job.PushJob?
    || (job.SetJob? && (job.allowOverride || !Has(c.env, job.key)) &&
        SetKey(o, c.View(), job.key, job.rawValue, job.effectiveValue, "runtime").Some?)
  }

  /** Such a failure is reported only of the published state, never of an old one. */
  lemma FailureIsCurrent(o: Settings, init: State, events: seq<Event>, i: nat)
    requires IsRun(o, init, events) && i < |events|
    ensures var s, s', step := Before(init, events, i), Before(init, events, i + 1), events[i].step;
            step.t in s'.calls && s'.calls[step.t] == Over(Failure) && step.Prepare? && step.t in s.calls &&
            s.calls[step.t].Working? && Depends(o, step.job, s.calls[step.t].snap) ==>
              !s.shared.closed && s.calls[step.t].snap == s.shared.content
  {
    var s, step := Before(init, events, i), events[i].step;
    RunInv(o, init, events, i);
    RunStep(o, init, events, i);
    if step.Prepare? && step.t in s.calls && s.calls[step.t].Working? {
      SnapshotUnchanged(o, init.shared, s, step.t);
      hide Candidate, Inv, SetKey, IsRun, Started;
    }
  }

  /** No call waits for another: whatever the others do, a call in progress has a
      step of its own besides being cancelled. */
  lemma CallNotStuck(o: Settings, init: Shared, s: State, t: nat)
    requires Inv(o, init, s) && Anchored(s.shared) && t in s.calls && !s.calls[t].Over?
    ensures exists s': State, step: Step :: step.t == t && !step.Cancel? && Next(o, s, s', step)
  {
    hide Candidate, Failing, Wellformed, Serial, AllEffective, Anchored, Commit;
    match s.calls[t] {
      case Looping(job) =>
        var s' := s.Move(t, if Blocked(s.shared, job) then Over(Rejected)
                            else Working(job, s.shared.revision, s.shared.content, |s.log|));
        assert Next(o, s, s', Snapshot(t));
      case Working(job, rev, snap, at) =>
        var s' := s.Move(t, match Candidate(o, job, snap)
                            case Publish(c) => Ready(job, rev, snap, at, c)
                            case Unchanged => Over(NothingToDo)
                            case Failed => Failing(o, s.shared, job, rev, snap));
        assert Next(o, s, s', Prepare(t, job));
      case Ready(job, rev, snap, at, c) =>
        assert Candidate(o, job, snap) == Publish(c);
        RollbackAnywhere(o, job, snap, s.shared.content);
        var p := Candidate(o, job, s.shared.content);
        var s' := if Blocked(s.shared, job) then s.Move(t, Over(Rejected))
                  else if job.RollbackJob?
                  then s.Commits(t, Commit(s.shared, job, if p.Publish? then p.c else c), Did(job))
                  else if s.shared.revision != rev then s.Move(t, Looping(job))
                  else s.Commits(t, Commit(s.shared, job, c), Did(job));
        assert Next(o, s, s', Publication(t));
    }
  }

  lemma RollbackAnywhere(o: Settings, job: Job, a: Content, b: Content)
    ensures job.RollbackJob? && Candidate(o, job, a).Publish? ==> Candidate(o, job, b).Publish?
  {
  }
}
