/** Closing a resolver while resolutions run (secret/resolver_close.go and the
    entry path of secret/resolver.go), as a machine whose steps are the critical
    sections of any number of resolutions and any number of Close calls. */
module ResolverClose {
  import opened Values

  /** Where one resolveKey call is. */
  datatype Reader =
    | Rejected
    | Entered(key: string)
    | Reading(key: string)
    | Fetched(key: string, value: Value)
    | Leaving
    | Gone

  /** What the one caller that runs the body of closeOnce will do next. */
  datatype Stage = MarkClosing | CancelReads | AwaitReaders | DropCache | CloseStore | Finish

  datatype Once = Fresh | Running(owner: nat, stage: Stage) | Finished

  datatype State = State(
    closing: bool,
    cancelled: bool,
    inFlight: int,
    cache: map<string, Value>,
    once: Once,
    storeCloses: nat,
    closeErr: Option<string>,
    readers: map<nat, Reader>,
    returned: map<nat, Option<string>>)

  datatype Step =
    | Enter(t: nat, key: string)
    | Hit(t: nat)
    | StartRead(t: nat)
    | EndRead(t: nat, got: Option<Value>)
    | WriteCache(t: nat, keep: bool)
    | Leave(t: nat)
    | ClearCache
    | BeginClose(t: nat)
    | Advance(storeErr: Option<string>)
    | JoinClose(t: nat)

  ghost predicate Init(s: State) {
    s == State(false, false, 0, map[], Fresh, 0, None, map[], map[])
  }

  predicate InFlight(r: Reader) { r.Entered? || r.Reading? || r.Fetched? || r.Leaving? }

  function Active(s: State): set<nat> { set t | t in s.readers && InFlight(s.readers[t]) }

  predicate At(s: State, t: nat, r: Reader) { t in s.readers && s.readers[t] == r }

  function Move(s: State, t: nat, r: Reader): State { s.(readers := s.readers[t := r]) }

  /** One step of the body of Close. */
  predicate Closing(s: State, s': State, storeErr: Option<string>) {
    s.once.Running? &&
    var t := s.once.owner;
    match s.once.stage
    case MarkClosing => s' == s.(closing := true, once := Running(t, CancelReads))
    case CancelReads => s' == s.(cancelled := true, once := Running(t, AwaitReaders))
    case AwaitReaders => s.inFlight == 0 && s' == s.(once := Running(t, DropCache))
    case DropCache => s' == s.(cache := map[], once := Running(t, CloseStore))
    case CloseStore => s' == s.(storeCloses := s.storeCloses + 1, closeErr := storeErr, once := Running(t, Finish))
    case Finish => s' == s.(once := Finished, returned := s.returned[t := s.closeErr])
  }

  predicate Next(s: State, s': State, step: Step) {
    match step
    case Enter(t, key) =>
      // enter: the closing check and the registration are one step
      t !in s.readers &&
      s' == if s.closing then Move(s, t, Rejected)
            else Move(s, t, Entered(key)).(inFlight := s.inFlight + 1)
    case Hit(t) =>
      t in s.readers && s.readers[t].Entered? && s.readers[t].key in s.cache && s' == Move(s, t, Leaving)
    case StartRead(t) =>
      t in s.readers && s.readers[t].Entered? && s' == Move(s, t, Reading(s.readers[t].key))
    case EndRead(t, got) =>
      t in s.readers && s.readers[t].Reading? &&
      s' == Move(s, t, if got.Some? then Fetched(s.readers[t].key, got.value) else Leaving)
    case WriteCache(t, keep) =>
      t in s.readers && s.readers[t].Fetched? &&
      s' == Move(s, t, Leaving).(cache := if keep then s.cache[s.readers[t].key := s.readers[t].value] else s.cache)
    case Leave(t) =>
      At(s, t, Leaving) && s' == Move(s, t, Gone).(inFlight := s.inFlight - 1)
    case ClearCache => s' == s.(cache := map[])
    case BeginClose(t) =>
      t !in s.returned && s.once == Fresh && s' == s.(once := Running(t, MarkClosing))
    case Advance(storeErr) => Closing(s, s', storeErr)
    case JoinClose(t) =>
      // a later caller blocks in closeOnce.Do until the first one has finished
      t !in s.returned && s.once == Finished && s' == s.(returned := s.returned[t := s.closeErr])
  }

  predicate Past(once: Once, stage: Stage) {
    once.Finished? || (once.Running? && Rank(once.stage) > Rank(stage))
  }

  function Rank(stage: Stage): nat {
    match stage
    case MarkClosing => 0 case CancelReads => 1 case AwaitReaders => 2
    case DropCache => 3 case CloseStore => 4 case Finish => 5
  }

  ghost predicate Inv(s: State) {
    && s.inFlight == |Active(s)|
    && (Past(s.once, MarkClosing) <==> s.closing)
    && (Past(s.once, AwaitReaders) ==> Active(s) == {})
    && (Past(s.once, DropCache) ==> s.cache == map[])
    && s.storeCloses == (if Past(s.once, CloseStore) then 1 else 0)
    && (s.returned != map[] ==> s.once == Finished)
    && (forall t :: t in s.returned ==> s.returned[t] == s.closeErr)
  }

  lemma InitInv(s: State)
    requires Init(s)
    ensures Inv(s)
  {
    assert Active(s) == {};
  }

  lemma ActiveMove(s: State, s': State, t: nat, r: Reader)
    requires s'.readers == s.readers[t := r]
    ensures InFlight(r) ==> Active(s') == Active(s) + {t}
    ensures !InFlight(r) ==> Active(s') == Active(s) - {t}
    ensures t in Active(s) <==> t in s.readers && InFlight(s.readers[t])
  {
  }

  /** inFlight counts the resolutions between enter and leave. */
  lemma CountStep(s: State, s': State, step: Step)
    requires s.inFlight == |Active(s)| && Next(s, s', step)
    ensures s'.inFlight == |Active(s')|
    ensures Active(s') <= Active(s) || (step.Enter? && !s.closing)
  {
    hide Active, Closing;
    match step {
      case Enter(t, key) => ActiveMove(s, s', t, s'.readers[t]);
      case Hit(t) => Kept(s, s', t, Leaving);
      case StartRead(t) => Kept(s, s', t, Reading(s.readers[t].key));
      case EndRead(t, got) => Kept(s, s', t, s'.readers[t]);
      case WriteCache(t, keep) => Kept(s, s', t, Leaving);
      case Leave(t) => ActiveMove(s, s', t, Gone);
      case Advance(e) => AdvanceReaders(s, s', e);
      case _ => SameReaders(s, s');
    }
  }

  lemma Kept(s: State, s': State, t: nat, r: Reader)
    requires t in s.readers && InFlight(s.readers[t]) && InFlight(r) && s'.readers == s.readers[t := r]
    ensures Active(s') == Active(s)
  {
  }

  lemma AdvanceReaders(s: State, s': State, e: Option<string>)
    requires Closing(s, s', e)
    ensures s'.inFlight == s.inFlight && Active(s') == Active(s)
  {
    hide Active;
    SameReaders(s, s');
  }

  lemma SameReaders(s: State, s': State)
    requires s'.readers == s.readers
    ensures Active(s') == Active(s)
  {
  }

  lemma NextInv(s: State, s': State, step: Step)
    requires Inv(s) && Next(s, s', step)
    ensures Inv(s')
  {
    CountStep(s, s', step);
    hide Active, InFlight;
    if step.WriteCache? {
      assert step.t in Active(s) by { ReaderActive(s, step.t); }
    }
  }

  lemma ReaderActive(s: State, t: nat)
    requires t in s.readers && InFlight(s.readers[t])
    ensures t in Active(s)
  {
  }

  datatype Event = Event(step: Step, after: State)

  /** A run: each event is a step from the state before it. */
  ghost predicate Run(init: State, events: seq<Event>) {
    Init(init) && forall i :: 0 <= i < |events| ==> Next(Before(init, events, i), events[i].after, events[i].step)
  }

  function Before(init: State, events: seq<Event>, i: nat): State
    requires i <= |events|
  {
    if i == 0 then init else events[i - 1].after
  }

  lemma RunStep(init: State, events: seq<Event>, i: nat)
    requires Run(init, events) && i < |events|
    ensures Next(Before(init, events, i), Before(init, events, i + 1), events[i].step)
  {
    hide Next, Init;
  }

  lemma {:induction false} RunInv(init: State, events: seq<Event>, i: nat)
    requires Run(init, events) && i <= |events|
    ensures Inv(Before(init, events, i))
  {
    hide Next, Inv, Init;
    if i == 0 {
      assert Init(init);
      InitInv(init);
    } else {
      RunInv(init, events, i - 1);
      RunStep(init, events, i - 1);
      NextInv(Before(init, events, i - 1), Before(init, events, i), events[i - 1].step);
    }
  }

  lemma {:induction false} FinishedStays(init: State, events: seq<Event>, i: nat, j: nat)
    requires Run(init, events) && i <= j <= |events| && Before(init, events, i).once == Finished
    ensures Before(init, events, j).once == Finished
    ensures Before(init, events, j).closeErr == Before(init, events, i).closeErr
    decreases j - i
  {
    hide Next, Run;
    if i < j {
      RunStep(init, events, i);
      FinishedStep(Before(init, events, i), Before(init, events, i + 1), events[i].step);
      FinishedStays(init, events, i + 1, j);
    }
  }

  lemma FinishedStep(s: State, s': State, step: Step)
    requires Next(s, s', step) && s.once == Finished
    ensures s'.once == Finished && s'.closeErr == s.closeErr
  {
  }

  /** Once any Close has returned: from then on the cache is empty, no store
      read is running, none starts, no resolution enters, and every Close call
      returns the same result. */
  lemma ClosedForGood(init: State, events: seq<Event>, i: nat, j: nat)
    requires Run(init, events) && i <= j <= |events| && Before(init, events, i).returned != map[]
    ensures var s := Before(init, events, j);
            && s.cache == map[]
            && (forall t :: t in s.readers ==> !s.readers[t].Reading? && !InFlight(s.readers[t]))
            && (forall t :: t in s.returned ==> s.returned[t] == Before(init, events, i).closeErr)
    ensures j < |events| ==> !events[j].step.StartRead? && !events[j].step.Hit? && !events[j].step.WriteCache?
  {
    RunInv(init, events, i);
    FinishedStays(init, events, i, j);
    RunInv(init, events, j);
    var s := Before(init, events, j);
    forall t | t in s.readers ensures !InFlight(s.readers[t]) {
      assert t !in Active(s);
    }
    if j < |events| {
      RunStep(init, events, j);
    }
  }

  /** The store is closed at most once, and while it is being closed no read is
      in progress or will ever start. */
  lemma StoreClosedOnceAndIdle(init: State, events: seq<Event>, j: nat)
    requires Run(init, events) && j < |events|
    ensures events[j].after.storeCloses <= 1
    ensures events[j].after.storeCloses > Before(init, events, j).storeCloses ==>
              forall t :: t in Before(init, events, j).readers ==> !InFlight(Before(init, events, j).readers[t])
    ensures Before(init, events, j).storeCloses > 0 ==> !events[j].step.StartRead?
  {
    RunInv(init, events, j);
    RunInv(init, events, j + 1);
    var s := Before(init, events, j);
    RunStep(init, events, j);
    forall t | t in s.readers && InFlight(s.readers[t]) ensures t in Active(s) {
    }
  }

  /** Close is never stuck: while it waits, either it can go on or some
      resolution in flight can take a step of its own. */
  lemma CloseNotStuck(s: State)
    requires Inv(s) && s.once.Running?
    ensures exists s', step :: Next(s, s', step) && (step.Advance? || (!step.ClearCache? && step.t in Active(s)))
  {
    if s.once.stage.AwaitReaders? && s.inFlight != 0 {
      assert Active(s) != {};
      var t :| t in Active(s);
      match s.readers[t] {
        case Entered(key) => assert Next(s, Move(s, t, Reading(key)), StartRead(t));
        case Reading(key) => assert Next(s, Move(s, t, Leaving), EndRead(t, None));
        case Fetched(key, v) => assert Next(s, Move(s, t, Leaving), WriteCache(t, false));
        case Leaving => assert Next(s, Move(s, t, Gone).(inFlight := s.inFlight - 1), Leave(t));
      }
    } else {
      var t, err := s.once.owner, None;
      var s' := match s.once.stage
        case MarkClosing => s.(closing := true, once := Running(t, CancelReads))
        case CancelReads => s.(cancelled := true, once := Running(t, AwaitReaders))
        case AwaitReaders => s.(once := Running(t, DropCache))
        case DropCache => s.(cache := map[], once := Running(t, CloseStore))
        case CloseStore => s.(storeCloses := s.storeCloses + 1, closeErr := err, once := Running(t, Finish))
        case Finish => s.(once := Finished, returned := s.returned[t := s.closeErr]);
      assert Next(s, s', Advance(err));
    }
  }
}
