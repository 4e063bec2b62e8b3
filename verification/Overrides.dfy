/** The override stack (config_override.go) as a state that commits change one
    at a time, on values: frames keep the payload they were pushed with.
    OverrideHeapRuns says when the replay loop, which shares payload objects, does
    the same on the heap. */
module Overrides {
  import opened Values
  import opened Paths
  import opened Snapshots

  datatype Frame = Frame(id: nat, payload: map<string, Value>, effective: map<string, Value>)

  /** What the first push captures. */
  datatype Base = Base(views: Views, sensitive: set<string>, frozen: bool)

  datatype Shared = Shared(content: Content, stack: seq<Frame>, base: Option<Base>, lastId: nat,
                           frozen: bool, closed: bool, revision: nat)

  function PayloadKeys(f: Frame): seq<string> { SortedKeys(f.payload.Keys) }

  function ReplayFrame(o: Settings, v: Views, f: Frame): Views { ReplayKeys(o, v, PayloadKeys(f), f.payload,
      f.effective) }

  function Replay(o: Settings, v: Views, frames: seq<Frame>): Views
    decreases |frames|
  {
    if frames == [] then v else ReplayFrame(o, Replay(o, v, frames[..|frames| - 1]), frames[|frames| - 1])
  }

  /** The candidate an Override builds from a snapshot. */
  function PushCandidate(o: Settings, c: Content, payload: map<string, Value>, effective: map<string,
      Value>): Option<Content> {
    match SetKeys(o, c.View(), SortedKeys(payload.Keys), payload, effective)
    case None => None
    case Some(v) => if !o.valid(v.env) then None
      else Some(c.With(v, if payload == map[] then c.sensitive else SensitiveAfter(o, v.raw)))
  }

  /** The commit of an Override whose candidate was built from the content. */
  function CommitPush(s: Shared, c: Content, payload: map<string, Value>, effective: map<string, Value>): Shared {
    Shared(c, s.stack + [Frame(s.lastId + 1, payload, effective)],
           if s.stack == [] then Some(Base(s.content.View(), s.content.sensitive, s.frozen)) else s.base,
           s.lastId + 1, false, s.closed, s.revision + 1)
  }

  function Push(o: Settings, s: Shared, payload: map<string, Value>, effective: map<string, Value>): Option<Shared> {
    if s.closed then None
    else match PushCandidate(o, s.content, payload, effective)
      case None => None
      case Some(c) => Some(CommitPush(s, c, payload, effective))
  }

  function Without(stack: seq<Frame>, id: nat): seq<Frame> {
    if stack == [] then []
    else Without(stack[..|stack| - 1], id) + if stack[|stack| - 1].id == id then [] else [stack[|stack| - 1]]
  }

  predicate InStack(stack: seq<Frame>, id: nat) { exists f :: f in stack && f.id == id }

  /** While frames are active there is a captured base. */
  predicate Anchored(s: Shared) { s.stack != [] ==> s.base.Some? }

  /** Removing a frame: the base comes back when it was the last one, and
      otherwise the survivors are replayed on it. */
  function Restore(o: Settings, s: Shared, id: nat): Shared
    requires Anchored(s)
  {
    if s.closed || !InStack(s.stack, id) then s
    else
      var rest, b := Without(s.stack, id), s.base.value;
      if rest == [] then
        s.(content := s.content.With(b.views, b.sensitive), stack := [], base := None, frozen := b.frozen,
            revision := s.revision + 1)
      else
        var v := Replay(o, b.views, rest);
        s.(content := s.content.With(v, SensitiveAfter(o, v.raw)), stack := rest, frozen := false,
            revision := s.revision + 1)
  }

  /** Frames are in push order, with ids that were never used twice. */
  ghost predicate Ids(s: Shared) {
    && (forall i, j :: 0 <= i < j < |s.stack| ==> s.stack[i].id < s.stack[j].id)
    && (forall f :: f in s.stack ==> f.id <= s.lastId)
  }

  ghost predicate Wellformed(s: Shared) { Anchored(s) && Ids(s) }

  /** The live maps and attribution are the base with the active frames replayed. */
  ghost predicate Live(o: Settings, s: Shared) {
    s.stack != [] ==> s.base.Some? && s.content.View() == Replay(o, s.base.value.views, s.stack)
  }

  lemma {:induction false} WithoutFacts(stack: seq<Frame>, id: nat)
    requires forall i, j :: 0 <= i < j < |stack| ==> stack[i].id < stack[j].id
    ensures var r := Without(stack, id);
            && (forall i, j :: 0 <= i < j < |r| ==> r[i].id < r[j].id)
            && (forall f :: f in r <==> f in stack && f.id != id)
    decreases |stack|
  {
    if stack != [] {
      var n := |stack| - 1;
      WithoutFacts(stack[..n], id);
      var r := Without(stack[..n], id);
      assert stack == stack[..n] + [stack[n]];
      forall i | 0 <= i < |r| ensures r[i].id < stack[n].id {
        assert r[i] in stack[..n];
      }
    }
  }

  lemma {:induction false} WithoutMissing(stack: seq<Frame>, id: nat)
    requires !InStack(stack, id)
    ensures Without(stack, id) == stack
    decreases |stack|
  {
    if stack != [] {
      var n := |stack| - 1;
      assert stack == stack[..n] + [stack[n]] && stack[n] in stack;
      forall f | f in stack[..n] ensures f.id != id { assert f in stack; }
      WithoutMissing(stack[..n], id);
    }
  }

  lemma {:induction false} WithoutCommutes(stack: seq<Frame>, a: nat, b: nat)
    ensures Without(Without(stack, a), b) == Without(Without(stack, b), a)
    decreases |stack|
  {
    if stack != [] {
      var n := |stack| - 1;
      WithoutCommutes(stack[..n], a, b);
      WithoutSnoc(Without(stack[..n], a), stack[n], b);
      WithoutSnoc(Without(stack[..n], b), stack[n], a);
      assert Without(stack[..n], a) + [] == Without(stack[..n], a) &&
          Without(stack[..n], b) + [] == Without(stack[..n], b);
    }
  }

  lemma WithoutSnoc(stack: seq<Frame>, f: Frame, id: nat)
    ensures Without(stack + [f], id) == Without(stack, id) + if f.id == id then [] else [f]
  {
    assert (stack + [f])[..|stack|] == stack;
  }

  lemma PushLive(o: Settings, s: Shared, payload: map<string, Value>, effective: map<string, Value>)
    requires Anchored(s) && Live(o, s) && Push(o, s, payload, effective).Some?
    ensures Live(o, Push(o, s, payload, effective).value)
  {
    hide SetKeys, SensitiveAfter, ReplayKeys;
    var s' := Push(o, s, payload, effective).value;
    assert s'.stack[..|s.stack|] == s.stack;
    var f := s'.stack[|s.stack|];
    SetKeysIsReplay(o, s.content.View(), PayloadKeys(f), payload, effective);
    if s.stack == [] {
      assert Replay(o, s'.base.value.views, []) == s'.base.value.views;
    }
  }

  /** A push keeps the frames in order, gives the new one an id of its own, and
      leaves the maps equal to the base with all frames replayed. */
  lemma PushKeeps(o: Settings, s: Shared, payload: map<string, Value>, effective: map<string, Value>)
    requires Wellformed(s) && Push(o, s, payload, effective).Some?
    ensures var s' := Push(o, s, payload, effective).value;
            Wellformed(s') && !InStack(s.stack, s'.lastId) && (Live(o, s) ==> Live(o, s'))
  {
    hide Live, PushCandidate;
    if Live(o, s) {
      PushLive(o, s, payload, effective);
    }
  }

  lemma ActiveHasBase(s: Shared, id: nat)
    requires Anchored(s) && InStack(s.stack, id)
    ensures s.base.Some?
  {
  }

  lemma RestoreKeeps(o: Settings, s: Shared, id: nat)
    requires Wellformed(s)
    ensures Wellformed(Restore(o, s, id)) && (Live(o, s) ==> Live(o, Restore(o, s, id)))
  {
    WithoutFacts(s.stack, id);
  }

  /** A second restore of the same frame changes nothing. */
  lemma RestoreTwice(o: Settings, s: Shared, id: nat)
    requires Wellformed(s)
    ensures Anchored(Restore(o, s, id)) && Restore(o, Restore(o, s, id), id) == Restore(o, s, id)
  {
    WithoutFacts(s.stack, id);
  }

  /** Two frames can be restored in either order. */
  lemma RestoresCommute(o: Settings, s: Shared, a: nat, b: nat)
    requires Wellformed(s)
    ensures Anchored(Restore(o, s, a)) && Anchored(Restore(o, s, b))
    ensures Restore(o, Restore(o, s, a), b) == Restore(o, Restore(o, s, b), a)
  {
    hide Replay, SensitiveAfter, Without;
    RestoreKeeps(o, s, a);
    RestoreKeeps(o, s, b);
    WithoutCommutes(s.stack, a, b);
    WithoutFacts(s.stack, a);
    WithoutFacts(s.stack, b);
    if !InStack(s.stack, a) { WithoutMissing(s.stack, a); }
    if !InStack(s.stack, b) { WithoutMissing(s.stack, b); }
    if !s.closed && a != b && InStack(s.stack, a) && InStack(s.stack, b) {
      var f :| f in s.stack && f.id == a;
      var g :| g in s.stack && g.id == b;
      assert g in Without(s.stack, a) && f in Without(s.stack, b);
    }
  }

  /** What a restore leaves behind depends on the base and the frames only: every
      Set, reload, refresh or rollback made inside the scope is gone. */
  lemma RestoreForgets(o: Settings, s: Shared, s': Shared, id: nat)
    requires Anchored(s) && Anchored(s') && !s.closed && !s'.closed
    requires s.stack == s'.stack && s.base == s'.base && InStack(s.stack, id)
    ensures var r, r' := Restore(o, s, id), Restore(o, s', id);
            && r.content.View() == r'.content.View() && r.content.sensitive == r'.content.sensitive
            && r.frozen == r'.frozen && r.stack == r'.stack && r.base == r'.base
  {
    hide Replay;
  }

  datatype Act = PushAct(payload: map<string, Value>, effective: map<string, Value>) | RestoreAct(id: nat)

  function Apply(o: Settings, s: Shared, a: Act): Shared
    requires Anchored(s)
  {
    match a
    case PushAct(p, e) => Push(o, s, p, e).GetOr(s)
    case RestoreAct(id) => Restore(o, s, id)
  }

  lemma ApplyKeeps(o: Settings, s: Shared, a: Act)
    requires Wellformed(s)
    ensures Wellformed(Apply(o, s, a)) && (Live(o, s) ==> Live(o, Apply(o, s, a)))
  {
    hide Push, Restore, Live;
    match a {
      case PushAct(p, e) => if Push(o, s, p, e).Some? { PushKeeps(o, s, p, e); }
      case RestoreAct(id) => RestoreKeeps(o, s, id);
    }
  }

  /** A run of pushes and restores; a push that fails leaves no trace. */
  function Run(o: Settings, s: Shared, acts: seq<Act>): (r: Shared)
    requires Wellformed(s)
    ensures Wellformed(r)
    decreases |acts|
  {
    if acts == [] then s
    else
      var before := Run(o, s, acts[..|acts| - 1]);
      ApplyKeeps(o, before, acts[|acts| - 1]);
      Apply(o, before, acts[|acts| - 1])
  }

  /** Frame id was pushed by acts[i]. */
  ghost predicate PushedAt(o: Settings, s: Shared, acts: seq<Act>, i: nat, id: nat)
    requires Wellformed(s) && i < |acts|
  {
    var before, after := Run(o, s, acts[..i]), Run(o, s, acts[..i + 1]);
    acts[i].PushAct? && after.lastId == id == before.lastId + 1
  }

  lemma ActFacts(o: Settings, s: Shared, a: Act)
    requires Wellformed(s)
    ensures var s' := Apply(o, s, a);
            && s.lastId <= s'.lastId <= s.lastId + 1 && s'.closed == s.closed
            && (s'.lastId != s.lastId ==> a.PushAct?)
            && (forall id :: InStack(s'.stack, id) <==>
                  (InStack(s.stack, id) && (a == RestoreAct(id) ==> s.closed)) || (s'.lastId != s.lastId &&
                      id == s'.lastId))
            && (forall f :: f in s'.stack && f.id <= s.lastId ==> f in s.stack)
  {
    var s' := Apply(o, s, a);
    match a {
      case PushAct(p, e) =>
        if Push(o, s, p, e).Some? {
          var f := s'.stack[|s.stack|];
          assert s'.stack == s.stack + [f] && f in s'.stack && f.id == s'.lastId;
          forall id ensures InStack(s'.stack, id) <==> InStack(s.stack, id) || id == s'.lastId {
            if InStack(s.stack, id) {
              var g :| g in s.stack && g.id == id;
              assert g in s'.stack;
            }
          }
        }
      case RestoreAct(id) =>
        WithoutFacts(s.stack, id);
        forall j ensures InStack(s'.stack, j) <==> InStack(s.stack, j) && (j == id ==> s.closed) {
          if InStack(s.stack, j) && j != id {
            var g :| g in s.stack && g.id == j;
            assert g in Without(s.stack, id);
          }
        }
    }
  }

  /** Some push gave the id, and no later restore names it. */
  ghost predicate Survives(o: Settings, s: Shared, acts: seq<Act>, id: nat)
    requires Wellformed(s)
  {
    exists i :: 0 <= i < |acts| && PushedAt(o, s, acts, i, id) && forall j :: i < j < |acts| ==>
        acts[j] != RestoreAct(id)
  }

  lemma PushedPrefix(o: Settings, s: Shared, acts: seq<Act>, i: nat, id: nat)
    requires Wellformed(s) && i + 1 < |acts|
    ensures PushedAt(o, s, acts, i, id) <==> PushedAt(o, s, acts[..|acts| - 1], i, id)
  {
    hide Run, Wellformed;
    var n := |acts| - 1;
    assert acts[..n][..i] == acts[..i] && acts[..n][..i + 1] == acts[..i + 1];
  }

  lemma SurvivesStep(o: Settings, s: Shared, acts: seq<Act>, id: nat)
    requires Wellformed(s) && acts != []
    ensures var n := |acts| - 1;
            Survives(o, s, acts, id) <==>
            PushedAt(o, s, acts, n, id) || (Survives(o, s, acts[..n], id) && acts[n] != RestoreAct(id))
  {
    hide Run, Wellformed, PushedAt;
    var n := |acts| - 1;
    forall i | 0 <= i < n ensures PushedAt(o, s, acts, i, id) <==> PushedAt(o, s, acts[..n], i, id) {
      PushedPrefix(o, s, acts, i, id);
    }
    assert forall j :: 0 <= j < n ==> acts[..n][j] == acts[j];
    if Survives(o, s, acts[..n], id) && acts[n] != RestoreAct(id) {
      var i :| 0 <= i < n && PushedAt(o, s, acts[..n], i, id) && forall j :: i < j < n ==>
          acts[..n][j] != RestoreAct(id);
      assert PushedAt(o, s, acts, i, id);
    }
    if i :| 0 <= i < n && PushedAt(o, s, acts, i, id) && forall j :: i < j < |acts| ==> acts[j] != RestoreAct(id) {
      assert PushedAt(o, s, acts[..n], i, id);
    }
  }

  lemma PushedLast(o: Settings, s: Shared, acts: seq<Act>, id: nat)
    requires Wellformed(s) && acts != []
    ensures var n := |acts| - 1;
            var before, after := Run(o, s, acts[..n]), Run(o, s, acts);
            && after == Apply(o, before, acts[n])
            && (PushedAt(o, s, acts, n, id) <==> after.lastId != before.lastId && id == after.lastId)
  {
    hide Apply;
    var n := |acts| - 1;
    assert acts[..n + 1] == acts;
    ActFacts(o, Run(o, s, acts[..n]), acts[n]);
  }

  /** Exactly the frames that were pushed and not restored since are active. */
  lemma {:induction false} Survivors(o: Settings, s: Shared, acts: seq<Act>, id: nat)
    requires Wellformed(s) && s.stack == [] && !s.closed
    ensures !Run(o, s, acts).closed
    ensures InStack(Run(o, s, acts).stack, id) <==> Survives(o, s, acts, id)
    decreases |acts|
  {
    if acts != [] {
      var n := |acts| - 1;
      hide *;
      Survivors(o, s, acts[..n], id);
      SurvivesStep(o, s, acts, id);
      PushedLast(o, s, acts, id);
      ActFacts(o, Run(o, s, acts[..n]), acts[n]);
    }
  }

  lemma {:induction false} RunIsLive(o: Settings, s: Shared, acts: seq<Act>)
    requires Wellformed(s) && Live(o, s)
    ensures Live(o, Run(o, s, acts))
    decreases |acts|
  {
    hide Apply, Live;
    if acts != [] {
      var n := |acts| - 1;
      RunIsLive(o, s, acts[..n]);
      ApplyKeeps(o, Run(o, s, acts[..n]), acts[n]);
    }
  }

  /** While any frame is active the base is the one captured by the first push. */
  lemma {:induction false} BaseStays(o: Settings, s: Shared, acts: seq<Act>)
    requires Wellformed(s) && s.stack != []
    requires forall n :: 0 <= n <= |acts| ==> Run(o, s, acts[..n]).stack != []
    ensures Run(o, s, acts).base == s.base
    decreases |acts|
  {
    hide Apply, Wellformed;
    if acts != [] {
      var n := |acts| - 1;
      forall i | 0 <= i <= n ensures Run(o, s, acts[..n][..i]).stack != [] {
        assert acts[..n][..i] == acts[..i];
      }
      BaseStays(o, s, acts[..n]);
      assert acts[..n + 1] == acts;
      ApplyKeepsBase(o, Run(o, s, acts[..n]), acts[n]);
    }
  }

  lemma ApplyKeepsBase(o: Settings, s: Shared, a: Act)
    requires Wellformed(s) && s.stack != [] && Apply(o, s, a).stack != []
    ensures Apply(o, s, a).base == s.base
  {
    hide Replay, PushCandidate, Without;
  }

  /** The three maps and the attribution after any run of pushes and restores, in
      any order: the captured base with exactly the surviving frames replayed in
      push order. */
  lemma AnyOrder(o: Settings, s: Shared, acts: seq<Act>)
    requires Wellformed(s) && s.stack == [] && !s.closed
    ensures var r := Run(o, s, acts);
            r.stack != [] ==>
              && r.base.Some? && r.content.View() == Replay(o, r.base.value.views, r.stack)
              && (forall i, j :: 0 <= i < j < |r.stack| ==> r.stack[i].id < r.stack[j].id)
              && (forall id :: InStack(r.stack, id) <==> Survives(o, s, acts, id))
  {
    hide InStack, Apply, Survives;
    RunIsLive(o, s, acts);
    forall id ensures InStack(Run(o, s, acts).stack, id) <==> Survives(o, s, acts, id) {
      Survivors(o, s, acts, id);
    }
  }
}
