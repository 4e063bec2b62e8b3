/** Runs in which frames overlap: a replay of a key below a map-valued one is right
    the first time, and the restore after it is right exactly when the payloads it
    replays are as they were pushed. */
module OverlapRuns {
  import opened Values
  import opened Paths
  import opened Store
  import opened StoreTrees
  import opened SharedObjects
  import opened Snapshots
  import opened Overrides
  import opened OverrideHeap
  import opened OverrideHeapRuns
  import opened PayloadWear
  import opened RawWear
  import opened RestoreWear

  /** The frames have their payload to themselves, and apart from the base. */
  ghost predicate PrivateState(h: HeapStack, base: Trees) {
    && h.mem.Valid() && PrivateStack(h.mem, h.stack) && Ordered(h.stack)
    && (forall f :: f in h.stack ==> f.frame.id <= h.lastId)
    && (h.stack != [] ==> TreeRoots(h.mem, h.base, base))
    && (forall f :: f in h.stack ==> FrameApart(h.mem, f, h.base, base))
  }

  lemma FrameApartStays(mem: Mem, mem': Mem, f: HeapFrame, r: Roots, t: Trees)
    requires PrivateFrame(mem, f) && TreeRoots(mem, r, t) && Extends(mem, mem') && FrameApart(mem, f, r, t)
    ensures PrivateFrame(mem', f) && FrameFeet(mem', f) == FrameFeet(mem, f) && FrameApart(mem', f, r, t)
    ensures TreeRoots(mem', r, t)
  {
    PrivateFrameStays(mem, mem', f);
    TreesStay(mem, mem', r, t);
    hide PrivateFrame, FrameFeet, Foot, Owns;
    forall w: Which
      ensures Foot(mem'.nodes, Ref(r.At(w)), Map(t.At(w)), map[]) == Foot(mem.nodes, Ref(r.At(w)), Map(t.At(w)), map[])
    {
      FootAllocated(mem.nodes, Ref(r.At(w)), Map(t.At(w)), map[]);
      OwnsFrame(mem.nodes, mem'.nodes, Ref(r.At(w)), Map(t.At(w)), map[]);
    }
  }

  /** A frame made of new objects is apart from older trees. */
  lemma NewFrameApart(mem: Mem, mem': Mem, f: HeapFrame, r: Roots, t: Trees)
    requires FrameFeet(mem', f) !! mem.nodes.Keys && TreeRoots(mem, r, t) && Extends(mem, mem')
    ensures FrameApart(mem', f, r, t) && TreeRoots(mem', r, t)
  {
    TreesStay(mem, mem', r, t);
    hide FrameFeet, Foot, Owns;
    forall w: Which
      ensures Foot(mem'.nodes, Ref(r.At(w)), Map(t.At(w)), map[]) <= mem.nodes.Keys
    {
      FootAllocated(mem.nodes, Ref(r.At(w)), Map(t.At(w)), map[]);
      OwnsFrame(mem.nodes, mem'.nodes, Ref(r.At(w)), Map(t.At(w)), map[]);
    }
  }

  lemma PushedBase(h: HeapStack, now: Trees, after: Trees, f: HeapFrame, h': HeapStack)
    requires Pushed(h, now, after, f, h')
    ensures if h.stack == [] then TreeRoots(h'.mem, h'.base, now) && FrameApart(h'.mem, f, h'.base, now)
            else h'.base == h.base
    ensures h'.mem.Valid()
  {
    hide FreshFrame, FrameApart;
    FreshAreTrees(h.mem, h'.mem, h'.live, after);
    if h.stack == [] {
      FreshAreTrees(h.mem, h'.mem, h'.base, now);
    }
  }

  lemma PushParts(o: Settings, h: HeapStack, payload: map<string, Value>, effective: map<string, Value>,
      h': HeapStack) returns (now: Trees, after: Trees, f: HeapFrame)
    requires PushStep(o, h, payload, effective, h') && h' != h
    ensures ReadsRoots(h.mem, h.live, now) && Pushed(h, now, after, f, h')
  {
    hide ReadsRoots, SetKeys, Pushed;
    var v: Views :| ReadsRoots(h.mem, h.live, TreesOf(v)) &&
        match SetKeys(o, v, SortedKeys(payload.Keys), payload, effective)
        case None => h' == h
        case Some(v') =>
          if !o.valid(v'.env) then h' == h
          else h'.stack != [] && var f := h'.stack[|h'.stack| - 1];
               f.frame == Frame(h.lastId + 1, payload, effective) && Pushed(h, TreesOf(v), TreesOf(v'), f, h');
    now, after := TreesOf(v), TreesOf(SetKeys(o, v, SortedKeys(payload.Keys), payload, effective).value);
    f := h'.stack[|h'.stack| - 1];
  }

  lemma BaseApart(h: HeapStack, now: Trees, after: Trees, f: HeapFrame, h': HeapStack, base: Trees)
    requires PrivateState(h, base) && Pushed(h, now, after, f, h') && (h.stack == [] ==> now == base)
    ensures h'.mem.Valid() && TreeRoots(h'.mem, h'.base, base)
    ensures forall g :: g in h'.stack ==> FrameApart(h'.mem, g, h'.base, base)
  {
    hide Pushed, PrivateStack, Ordered, FrameApart, TreeRoots, PrivateFrame, Extends, FrameFeet;
    PushedFacts(h, now, after, f, h');
    PushedBase(h, now, after, f, h');
    if h.stack == [] {
      assert h'.stack == [f];
    } else {
      FreshIsPrivate(h.mem, h'.mem, f);
      NewFrameApart(h.mem, h'.mem, f, h.base, base);
      forall g | g in h.stack ensures FrameApart(h'.mem, g, h.base, base) {
        PrivateOne(h.mem, h.stack, g);
        FrameApartStays(h.mem, h'.mem, g, h.base, base);
      }
    }
  }

  /** A push keeps all that. */
  lemma PushPrivate(o: Settings, h: HeapStack, payload: map<string, Value>, effective: map<string, Value>,
      h': HeapStack, base: Trees)
    requires PrivateState(h, base) && PushStep(o, h, payload, effective, h')
    requires h.stack == [] ==> ReadsRoots(h.mem, h.live, base)
    ensures PrivateState(h', base)
  {
    if h' != h {
      var now, after, f := PushParts(o, h, payload, effective, h');
      if h.stack == [] {
        RootsUnique(h.mem, h.live, now, base);
      }
      BaseApart(h, now, after, f, h', base);
    }
    hide PushStep, PrivateStack, Ordered, FrameApart, TreeRoots, ReadsRoots;
    PushKeepsPrivate(o, h, payload, effective, h');
  }

  lemma PrivateOne(mem: Mem, stack: seq<HeapFrame>, f: HeapFrame)
    requires PrivateStack(mem, stack) && f in stack
    ensures PrivateFrame(mem, f)
  {
    hide PrivateFrame, FrameFeet;
  }

  /** A restore whose replay is apart changes no object that existed. */
  lemma ApartExtends(o: Settings, h: HeapStack, s: Overrides.Shared, id: nat, h': HeapStack)
    requires Shows(h, s) && Anchored(s) && RestoreStep(h, id, h') && InStack(s.stack, id)
    requires Remaining(h.stack, id) != [] && Unshadowed(Restore(o, s, id).stack)
    ensures Extends(h.mem, h'.mem) && h'.base == h.base && h'.stack == Remaining(h.stack, id) && h'.lastId == h.lastId
  {
    hide ReadsRoots, TreeRoots, Extends, FrameReads, Replayed, SensitiveAfter, StackKeys, Replay, Unshadowed;
    RemainingIs(h.stack, id);
    var rest := Remaining(h.stack, id);
    assert FramesOf(rest) != [] && s.stack != [];
    var base: Trees, mem: Mem :| Replayed(h, rest, base, mem, h');
    var v := s.base.value.views;
    ReplayedFacts(h, rest, base, mem, h');
    TreesRead(h.mem, h.base, TreesOf(v));
    RootsUnique(h.mem, h.base, base, TreesOf(v));
    ShowsReplay(o, h, rest, base, mem, v, h');
  }

  /** What survives a restore keeps what it had, if nothing that existed changed. */
  lemma RestPrivateState(h: HeapStack, h': HeapStack, id: nat, base: Trees)
    requires PrivateState(h, base) && Extends(h.mem, h'.mem) && h'.base == h.base
    requires h'.stack == Remaining(h.stack, id) != [] && h'.lastId == h.lastId
    ensures PrivateState(h', base)
  {
    RemainingIs(h.stack, id);
    RemainingOrdered(h.stack, id);
    RestPrivate(h.mem, h.stack, id);
    ExtendsValid(h.mem, h'.mem);
    assert h'.stack[0] in h.stack;
    hide Ordered, Extends, FrameApart, TreeRoots, PrivateFrame, FrameFeet, FramesOf, Remaining;
    forall f | f in h'.stack
      ensures PrivateFrame(h'.mem, f) && FrameFeet(h'.mem, f) == FrameFeet(h.mem, f)
      ensures FrameApart(h'.mem, f, h.base, base)
    {
      FrameApartStays(h.mem, h'.mem, f, h.base, base);
    }
    TreesStay(h.mem, h'.mem, h.base, base);
  }

  lemma RestorePrivate(o: Settings, h: HeapStack, s: Overrides.Shared, id: nat, h': HeapStack, base: Trees)
    requires Shows(h, s) && Anchored(s) && PrivateState(h, base) && RestoreStep(h, id, h')
    requires InStack(s.stack, id) ==> Unshadowed(Restore(o, s, id).stack)
    ensures PrivateState(h', base)
  {
    ShowsFrames(h, s);
    if InStack(FramesOf(h.stack), id) && Remaining(h.stack, id) != [] {
      hide Shows, PrivateState, RestoreStep, Unshadowed, Remaining, FramesOf;
      ApartExtends(o, h, s, id, h');
      RestPrivateState(h, h', id, base);
    }
  }

  lemma ShowsFrames(h: HeapStack, s: Overrides.Shared)
    requires Shows(h, s)
    ensures FramesOf(h.stack) == s.stack && (h.stack == [] <==> s.stack == []) && h.mem.Valid() && Whole(h.stack)
    ensures ReadsRoots(h.mem, h.live, TreesOf(s.content.View()))
    ensures s.stack != [] ==> s.base.Some? && TreeRoots(h.mem, h.base, TreesOf(s.base.value.views))
  {
    hide ReadsRoots, TreeRoots, FrameReads;
  }

  /** One step of such a run. */
  lemma PrivateStep(o: Settings, h: HeapStack, s: Overrides.Shared, a: Act, h': HeapStack, base: Trees)
    requires Shows(h, s) && Anchored(s) && PrivateState(h, base) && HeapStep(o, h, a, h')
    requires s.stack == [] ==> TreesOf(s.content.View()) == base
    requires a.RestoreAct? && InStack(s.stack, a.id) ==> Unshadowed(Restore(o, s, a.id).stack)
    ensures PrivateState(h', base)
  {
    ShowsFrames(h, s);
    hide Shows, PrivateState, Unshadowed, PushStep, RestoreStep, Restore;
    match a {
      case PushAct(payload, effective) => PushPrivate(o, h, payload, effective, h', base);
      case RestoreAct(id) => RestorePrivate(o, h, s, id, h', base);
    }
  }

  lemma StepOf(o: Settings, hs: seq<HeapStack>, acts: seq<Act>, n: nat)
    requires HeapRun(o, hs, acts) && n < |acts| && |hs| == |acts| + 1
    ensures HeapStep(o, hs[n], acts[n], hs[n + 1])
  {
    hide HeapStep;
  }

  lemma EmptyPrivate(h: HeapStack, s: Overrides.Shared)
    requires Shows(h, s) && s.stack == []
    ensures PrivateState(h, TreesOf(s.content.View()))
  {
    ShowsFrames(h, s);
    hide Shows;
  }

  lemma ApartAt(o: Settings, s: Overrides.Shared, acts: seq<Act>, n: nat)
    requires Wellformed(s) && ReplaysApart(o, s, acts) && n < |acts|
    ensures var before := Run(o, s, acts[..n]);
            Anchored(before) &&
            (acts[n].RestoreAct? && InStack(before.stack, acts[n].id) ==>
             Unshadowed(Restore(o, before, acts[n].id).stack))
  {
    RunPrefix(o, s, acts, n);
    hide Unshadowed, Restore, Run, Wellformed, Push;
  }

  /** As long as replays are apart, the payloads stay private, over the maps that
      were there before the run. */
  lemma {:induction false} PrivateRun(o: Settings, s: Overrides.Shared, acts: seq<Act>, hs: seq<HeapStack>, n: nat)
    requires Wellformed(s) && s.stack == [] && HeapRun(o, hs, acts) && Shows(hs[0], s)
    requires ReplaysApart(o, s, acts) && n <= |acts| && |hs| == |acts| + 1
    ensures PrivateState(hs[n], TreesOf(s.content.View()))
  {
    hide *;
    var base := TreesOf(s.content.View());
    if n == 0 {
      EmptyPrivate(hs[0], s);
    } else {
      StepOf(o, hs, acts, n - 1);
      PrivateRun(o, s, acts, hs, n - 1);
      HeapShowsRun(o, s, acts, hs, n - 1);
      ApartAt(o, s, acts, n - 1);
      EmptyIsBase(o, s, acts[..n - 1]);
      PrivateStep(o, hs[n - 1], Run(o, s, acts[..n - 1]), acts[n - 1], hs[n], base);
    }
  }

  /** A region that the replay of some keys cannot leave. */
  ghost predicate Closed(mem: Mem, r: Roots, ks: seq<KeyCells>, region: set<nat>) {
    && Enclosed(mem, region) && r.env in region && r.raw in region && r.merged in region
    && forall k :: k in ks ==> CellIn(k.effectiveCell, region) && CellIn(k.rawCell, region)
  }

  lemma ClosedLater(mem: Mem, mem': Mem, r: Roots, ks: seq<KeyCells>, region: set<nat>, region': set<nat>)
    requires Closed(mem, r, ks, region) && StaysInside(mem, mem', region, region')
    ensures Closed(mem', r, ks, region')
  {
    hide Enclosed;
  }

  lemma KeyInside(mem: Mem, r: Roots, ks: seq<KeyCells>, k: KeyCells, region: set<nat>) returns (region': set<nat>)
    requires mem.Valid() && AllMaps(mem, r) && Closed(mem, r, ks, region) && k in ks
    ensures StaysInside(mem, HeapKey(mem, r, k), region, region')
  {
    hide Enclosed, HeapSet, Parse;
    region' := region;
    if Parse(k.key).Some? {
      var p := Parse(k.key).value;
      region' := SetInsideRegion(mem, r.env, p, k.effectiveCell, region);
      var e := HeapSet(mem, r.env, p, k.effectiveCell);
      if e.Some? {
        ClosedLater(mem, e.value, r, ks, region, region');
        var region2 := SetInsideRegion(e.value, r.raw, p, k.rawCell, region');
        var u := HeapSet(e.value, r.raw, p, k.rawCell);
        InsideOn(mem, e.value, u.GetOr(e.value), region, region', region2);
        if u.Some? {
          ClosedLater(e.value, u.value, r, ks, region', region2);
          var region3 := SetInsideRegion(u.value, r.merged, p, k.rawCell, region2);
          InsideOn(mem, u.value, HeapSet(u.value, r.merged, p, k.rawCell).GetOr(u.value), region, region2, region3);
          region2 := region3;
        }
        region' := region2;
      }
    } else {
      NothingInside(mem, region);
    }
  }

  lemma NothingInside(mem: Mem, region: set<nat>)
    requires mem.Valid() && Enclosed(mem, region)
    ensures StaysInside(mem, mem, region, region)
  {
  }

  lemma {:induction false} KeysInside(mem: Mem, r: Roots, ks: seq<KeyCells>, n: nat, region: set<nat>)
    returns (region': set<nat>)
    requires mem.Valid() && AllMaps(mem, r) && Closed(mem, r, ks, region) && n <= |ks|
    ensures StaysInside(mem, HeapKeys(mem, r, ks[..n]), region, region')
    decreases n
  {
    if n == 0 {
      region' := region;
      NothingInside(mem, region);
    } else {
      hide Closed, HeapKey, StaysInside;
      var reg1 := KeysInside(mem, r, ks, n - 1, region);
      assert ks[..n][..n - 1] == ks[..n - 1];
      var before := HeapKeys(mem, r, ks[..n - 1]);
      ClosedLater(mem, before, r, ks, region, reg1);
      region' := KeyInside(before, r, ks, ks[n - 1], reg1);
      InsideOn(mem, before, HeapKey(before, r, ks[n - 1]), region, reg1, region');
    }
  }

  lemma EnclosedUnion(mem: Mem, a: set<nat>, b: set<nat>)
    requires Enclosed(mem, a) && Enclosed(mem, b)
    ensures Enclosed(mem, a + b)
  {
    hide PointsTo;
  }

  /** The effective side of a replay: its live map and its payloads. */
  ghost function EnvRegion(mem: Mem, r: Roots, t: Trees, ks: seq<KeyCells>): set<nat> {
    Foot(mem.nodes, Ref(r.env), Map(t.env), map[]) + set j, x | 0 <= j < |ks| && x in Feet(mem, ks, j) :: x
  }

  lemma EnvRegionStep(mem: Mem, r: Roots, t: Trees, ks: seq<KeyCells>, x: nat, y: nat)
    requires PrivatePayloads(mem, ks) && Owns(mem.nodes, Ref(r.env), Map(t.env), map[])
    requires x in EnvRegion(mem, r, t, ks)
    ensures x in mem.nodes && (PointsTo(mem.nodes[x], y) ==> y in EnvRegion(mem, r, t, ks))
  {
    hide Owns, Foot, PointsTo;
    if x in Foot(mem.nodes, Ref(r.env), Map(t.env), map[]) {
      FeetEnclosed(mem, Ref(r.env), Map(t.env), x, y);
    } else {
      var j :| 0 <= j < |ks| && x in Feet(mem, ks, j);
      FeetEnclosed(mem, ks[j].effectiveCell, ks[j].effective, x, y);
      assert PointsTo(mem.nodes[x], y) ==> y in Feet(mem, ks, j);
    }
  }

  lemma EnvRegionEnclosed(mem: Mem, r: Roots, t: Trees, ks: seq<KeyCells>)
    requires PrivatePayloads(mem, ks) && Owns(mem.nodes, Ref(r.env), Map(t.env), map[])
    ensures Enclosed(mem, EnvRegion(mem, r, t, ks))
  {
    hide PrivatePayloads, Owns, PointsTo, EnvRegion;
    forall x, y | x in EnvRegion(mem, r, t, ks)
      ensures x in mem.nodes && (PointsTo(mem.nodes[x], y) ==> y in EnvRegion(mem, r, t, ks))
    {
      EnvRegionStep(mem, r, t, ks, x, y);
    }
  }

  lemma EnvRegionMembers(mem: Mem, r: Roots, t: Trees, ks: seq<KeyCells>)
    requires PrivatePayloads(mem, ks) && Owns(mem.nodes, Ref(r.env), Map(t.env), map[])
    ensures r.env in EnvRegion(mem, r, t, ks)
    ensures forall k :: k in ks ==> CellIn(k.effectiveCell, EnvRegion(mem, r, t, ks))
  {
    hide Owns, Foot;
    CellInFeet(mem.nodes, Ref(r.env), Map(t.env));
    forall j | 0 <= j < |ks| ensures CellIn(ks[j].effectiveCell, EnvRegion(mem, r, t, ks)) {
      if ks[j].effectiveCell.Ref? {
        CellInFeet(mem.nodes, ks[j].effectiveCell, ks[j].effective);
        assert ks[j].effectiveCell.addr in Feet(mem, ks, j);
      }
    }
  }

  lemma ReplayClosed(mem: Mem, r: Roots, t: Trees, ks: seq<KeyCells>)
    requires PrivatePayloads(mem, ks) && TreeRoots(mem, r, t)
    ensures Closed(mem, r, ks, RawRegion(mem, r, t, ks) + EnvRegion(mem, r, t, ks))
  {
    OwnedRoots(mem, r, t);
    hide PrivatePayloads, Owns, RawRegion, EnvRegion, Enclosed, TreeRoots;
    RegionEnclosed(mem, r, t, ks);
    EnvRegionEnclosed(mem, r, t, ks);
    EnvRegionMembers(mem, r, t, ks);
    EnclosedUnion(mem, RawRegion(mem, r, t, ks), EnvRegion(mem, r, t, ks));
  }

  lemma OwnedRoots(mem: Mem, r: Roots, t: Trees)
    requires TreeRoots(mem, r, t)
    ensures Owns(mem.nodes, Ref(r.env), Map(t.env), map[]) && Owns(mem.nodes, Ref(r.raw), Map(t.raw), map[])
    ensures Owns(mem.nodes, Ref(r.merged), Map(t.merged), map[])
  {
    hide Owns;
    assert Owns(mem.nodes, Ref(r.At(Effective)), Map(t.At(Effective)), map[]);
    assert Owns(mem.nodes, Ref(r.At(Unresolved)), Map(t.At(Unresolved)), map[]);
    assert Owns(mem.nodes, Ref(r.At(Merged)), Map(t.At(Merged)), map[]);
  }

  /** The payloads of a stack's keys are apart from the base. */
  lemma KeyFeetApart(mem: Mem, stack: seq<HeapFrame>, j: nat, r: Roots, t: Trees, w: Which)
    requires PrivateStack(mem, stack) && Whole(stack) && (forall f :: f in stack ==> FrameApart(mem, f, r, t))
    requires j < |StackKeys(stack)|
    ensures Feet(mem, StackKeys(stack), j) !! Foot(mem.nodes, Ref(r.At(w)), Map(t.At(w)), map[])
    ensures RawFeet(mem, StackKeys(stack), j) !! Foot(mem.nodes, Ref(r.At(w)), Map(t.At(w)), map[])
  {
    OwnerFacts(stack, j);
    var f, k := stack[OwnerOf(stack, j)], StackKeys(stack)[j];
    assert f in stack;
    PrivateOne(mem, stack, f);
    hide StackKeys, OwnerOf, Foot, FrameFeet, PrivateFrame, PrivateStack, CellsOf, FootAll;
    CellFeet(mem, f, k.key);
    assert FrameApart(mem, f, r, t);
  }

  lemma BaseOutside(h: HeapStack, mem: Mem, live: Roots, base: Trees, stack: seq<HeapFrame>, w: Which)
    requires FreshRoots(h.mem, mem, live, base) && TreeRoots(h.mem, h.base, base)
    requires PrivateStack(h.mem, stack) && Ordered(stack) && Whole(stack)
    requires forall f :: f in stack ==> FrameApart(h.mem, f, h.base, base)
    ensures var ks := StackKeys(stack);
            Foot(mem.nodes, Ref(h.base.At(w)), Map(base.At(w)), map[]) !!
            RawRegion(mem, live, base, ks) + EnvRegion(mem, live, base, ks)
  {
    var ks, own := StackKeys(stack), Foot(h.mem.nodes, Ref(h.base.At(w)), Map(base.At(w)), map[]);
    assert Owns(h.mem.nodes, Ref(h.base.At(w)), Map(base.At(w)), map[]);
    hide Owns, Foot, StackKeys, PrivateStack, Ordered, FrameApart, PrivatePayloads, Feet, RawFeet, RawRegion, EnvRegion;
    StackPrivate(h.mem, stack);
    PayloadsStay(h.mem, mem, ks);
    FootAllocated(h.mem.nodes, Ref(h.base.At(w)), Map(base.At(w)), map[]);
    OwnsFrame(h.mem.nodes, mem.nodes, Ref(h.base.At(w)), Map(base.At(w)), map[]);
    forall j | 0 <= j < |ks| ensures Feet(mem, ks, j) !! own && RawFeet(mem, ks, j) !! own {
      KeyFeetApart(h.mem, stack, j, h.base, base, w);
    }
    LiveOutside(h.mem, mem, live, base, own);
    RegionsOutside(mem, live, base, ks, own);
  }

  lemma LiveOutside(mem0: Mem, mem: Mem, live: Roots, t: Trees, own: set<nat>)
    requires FreshRoots(mem0, mem, live, t) && own <= mem0.nodes.Keys
    ensures own !! Foot(mem.nodes, Ref(live.env), Map(t.env), map[])
    ensures own !! Foot(mem.nodes, Ref(live.raw), Map(t.raw), map[])
    ensures own !! Foot(mem.nodes, Ref(live.merged), Map(t.merged), map[])
  {
    assert live.At(Effective) == live.env && live.At(Unresolved) == live.raw && live.At(Merged) == live.merged;
    assert t.At(Effective) == t.env && t.At(Unresolved) == t.raw && t.At(Merged) == t.merged;
    hide Foot, Owns, Extends;
  }

  lemma RegionsOutside(mem: Mem, live: Roots, t: Trees, ks: seq<KeyCells>, own: set<nat>)
    requires own !! Foot(mem.nodes, Ref(live.env), Map(t.env), map[])
    requires own !! Foot(mem.nodes, Ref(live.raw), Map(t.raw), map[])
    requires own !! Foot(mem.nodes, Ref(live.merged), Map(t.merged), map[])
    requires forall j :: 0 <= j < |ks| ==> Feet(mem, ks, j) !! own && RawFeet(mem, ks, j) !! own
    ensures own !! RawRegion(mem, live, t, ks) + EnvRegion(mem, live, t, ks)
  {
    hide Foot, Feet, RawFeet;
  }

  /** However its keys overlap, a replay leaves the captured base alone. */
  lemma ReplayKeepsBase(h: HeapStack, mem: Mem, live: Roots, base: Trees, stack: seq<HeapFrame>)
    requires FreshRoots(h.mem, mem, live, base) && TreeRoots(h.mem, h.base, base) && mem.Valid() && AllMaps(mem, live)
    requires PrivateStack(h.mem, stack) && Ordered(stack) && Whole(stack)
    requires forall f :: f in stack ==> FrameApart(h.mem, f, h.base, base)
    ensures TreeRoots(HeapKeys(mem, live, StackKeys(stack)), h.base, base)
  {
    var ks := StackKeys(stack);
    hide *;
    StackPrivate(h.mem, stack);
    FreshAreTrees(h.mem, mem, live, base);
    PayloadsStay(h.mem, mem, ks);
    ReplayClosed(mem, live, base, ks);
    assert ks[..|ks|] == ks;
    var region := RawRegion(mem, live, base, ks) + EnvRegion(mem, live, base, ks);
    var region' := KeysInside(mem, live, ks, |ks|, region);
    TreesStay(h.mem, mem, h.base, base);
    var after := HeapKeys(mem, live, ks);
    forall w: Which ensures Owns(after.nodes, Ref(h.base.At(w)), Map(base.At(w)), map[]) {
      RootOwned(mem, h.base, base, w);
      BaseOutside(h, mem, live, base, stack, w);
      TreeFrame(mem, after, Ref(h.base.At(w)), Map(base.At(w)), region, region');
    }
    AreTrees(after, h.base, base);
  }

  lemma RootOwned(mem: Mem, r: Roots, t: Trees, w: Which)
    requires TreeRoots(mem, r, t)
    ensures Owns(mem.nodes, Ref(r.At(w)), Map(t.At(w)), map[])
  {
  }

  lemma OverlapKeepsBase(o: Settings, h: HeapStack, id: nat, h': HeapStack, base: Trees)
    requires PrivateState(h, base) && RestoreStep(h, id, h') && InStack(FramesOf(h.stack), id)
    requires Remaining(h.stack, id) != []
    ensures h'.base == h.base && h'.stack == Remaining(h.stack, id) && Whole(h'.stack) && h'.mem.Valid()
    ensures TreeRoots(h'.mem, h'.base, base)
  {
    RemainingIs(h.stack, id);
    RemainingOrdered(h.stack, id);
    RestPrivate(h.mem, h.stack, id);
    BaseOfRestore(h, id, h');
    hide *;
    var mem := CopiedBase(h, id, h', base);
    ReplayKeepsBase(h, mem, h'.live, base, h'.stack);
  }

  lemma BaseOfRestore(h: HeapStack, id: nat, h': HeapStack)
    requires RestoreStep(h, id, h') && InStack(FramesOf(h.stack), id) && Remaining(h.stack, id) != []
    ensures h.stack != [] && h'.base == h.base
  {
    hide ReadsRoots, FreshRoots, HeapKeys;
  }

  /** Every key of every frame is a path. */
  ghost predicate PathKeys(stack: seq<Frame>) { forall f, k :: f in stack && k in f.payload ==> Parse(k).Some? }

  lemma {:induction false} SetKeysParse(o: Settings, v: Views, keys: seq<string>, payload: map<string, Value>,
      effective: map<string, Value>, k: string)
    requires (forall j :: j in keys ==> j in payload) && SetKeys(o, v, keys, payload, effective).Some? && k in keys
    ensures Parse(k).Some?
    decreases |keys|
  {
    hide Parse, SetPath, TrackValue;
    assert keys[0] in keys;
    if k != keys[0] {
      var e := EffectiveOf(payload, effective, keys[0]);
      SetKeysParse(o, SetKey(o, v, keys[0], payload[keys[0]], e, "override").value, keys[1..], payload, effective, k);
    }
  }

  lemma ApplyPathKeys(o: Settings, s: Overrides.Shared, a: Act)
    requires Wellformed(s) && PathKeys(s.stack)
    ensures PathKeys(Apply(o, s, a).stack)
  {
    match a {
      case PushAct(p, e) =>
        if Push(o, s, p, e).Some? {
          hide SetKeys, Parse, SensitiveAfter;
          forall k | k in p ensures Parse(k).Some? {
            SetKeysParse(o, s.content.View(), SortedKeys(p.Keys), p, e, k);
          }
        }
      case RestoreAct(id) =>
        hide Parse, Replay, SensitiveAfter;
        WithoutFacts(s.stack, id);
    }
  }

  lemma {:induction false} RunPathKeys(o: Settings, s: Overrides.Shared, acts: seq<Act>)
    requires Wellformed(s) && s.stack == []
    ensures PathKeys(Run(o, s, acts).stack)
    decreases |acts|
  {
    if acts != [] {
      hide Apply, PathKeys, Wellformed;
      RunPathKeys(o, s, acts[..|acts| - 1]);
      ApplyPathKeys(o, Run(o, s, acts[..|acts| - 1]), acts[|acts| - 1]);
    }
  }

  /** A key with the values that its payload objects hold after a replay. */
  function WornKey(o: Settings, v: Views, ks: seq<KeyCells>, i: nat): KeyCells
    requires i < |ks|
  {
    var k := ks[i];
    match Parse(k.key)
    case None => k
    case Some(p) =>
      k.(raw := if k.raw.Map? && k.rawCell.Ref? then Map(RawWorn(o, v, ks, i, p).m) else k.raw,
         effective := if k.effective.Map? && k.effectiveCell.Ref? then Map(Worn(v.env, ks, i, p).m) else k.effective)
  }

  lemma CellStays(h: Nodes, h': Nodes, c: Cell, v: Value)
    requires Owns(h, c, v, map[]) && !c.Ref?
    ensures Reads(h', c, v)
  {
  }

  lemma RefIsMap(h: Nodes, c: Cell, v: Value)
    requires Owns(h, c, v, map[]) && c.Ref?
    ensures v.Map?
  {
  }

  /** After a replay, the cells hold the worn values. */
  lemma WornReads(o: Settings, h: HeapStack, id: nat, h': HeapStack, v: Views, i: nat)
    requires PrivateState(h, TreesOf(v)) && RestoreStep(h, id, h') && InStack(FramesOf(h.stack), id)
    requires Remaining(h.stack, id) != [] && Whole(h'.stack) && h'.stack == Remaining(h.stack, id)
    requires i < |StackKeys(h'.stack)| && Parse(StackKeys(h'.stack)[i].key).Some?
    ensures CellsRead(h'.mem, WornKey(o, v, StackKeys(h'.stack), i))
  {
    var ks := StackKeys(h'.stack);
    var k, p := ks[i], Parse(ks[i].key).value;
    RestPrivate(h.mem, h.stack, id);
    assert h.stack != [] by { BaseOfRestore(h, id, h'); }
    hide RestoreStep, StackKeys, Owns, Reads, Worn, RawWorn, Parse, TreeRoots, FramesOf, PrivateStack, Remaining;
    KeyOwned(h.mem, h'.stack, i);
    if k.rawCell.Ref? {
      RefIsMap(h.mem.nodes, k.rawCell, k.raw);
      RestoreWears(o, h, id, h', v, i, p, k.rawCell.addr);
      OwnsReads(h'.mem.nodes, k.rawCell, Map(RawWorn(o, v, ks, i, p).m), map[]);
    } else {
      CellStays(h.mem.nodes, h'.mem.nodes, k.rawCell, k.raw);
    }
    if k.effectiveCell.Ref? {
      RefIsMap(h.mem.nodes, k.effectiveCell, k.effective);
      RestoreWears(o, h, id, h', v, i, p, k.effectiveCell.addr);
      OwnsReads(h'.mem.nodes, k.effectiveCell, Map(Worn(v.env, ks, i, p).m), map[]);
    } else {
      CellStays(h.mem.nodes, h'.mem.nodes, k.effectiveCell, k.effective);
    }
  }

  /** The three maps take the key. */
  ghost predicate Takes(v: Views, k: KeyCells, p: Path) {
    && Parse(k.key) == Some(p)
    && SetPath(v.env, p, k.effective).Some? && SetPath(v.raw, p, k.raw).Some? && SetPath(v.merged, p, k.raw).Some?
  }

  /** The maps take every key, and no key contains or lies on another. */
  ghost predicate Separate(v: Views, ks: seq<KeyCells>) {
    && (forall j :: 0 <= j < |ks| ==> Parse(ks[j].key).Some? && Takes(v, ks[j], Parse(ks[j].key).value))
    && forall i, j :: 0 <= i < j < |ks| && Parse(ks[i].key).Some? && Parse(ks[j].key).Some? ==>
         !Comparable(Parse(ks[i].key).value, Parse(ks[j].key).value)
  }

  lemma SeparatePrefix(v: Views, ks: seq<KeyCells>, n: nat)
    requires Separate(v, ks) && n <= |ks|
    ensures Separate(v, ks[..n])
  {
    hide Takes;
  }

  /** A map before and after writes elsewhere. */
  ghost predicate SameThere(t: Tree, t': Tree, q: Path) {
    GetPath(t', q) == GetPath(t, q) && forall x: Value :: SetPath(t', q, x).Some? <==> SetPath(t, q, x).Some?
  }

  lemma WriteThere(t: Tree, p: Path, x: Value, q: Path)
    requires SetPath(t, p, x).Some? && !Comparable(p, q)
    ensures SameThere(t, SetPath(t, p, x).value, q)
  {
    SetFrame(t, p, x, q);
    forall y: Value ensures SetPath(SetPath(t, p, x).value, q, y).Some? <==> SetPath(t, q, y).Some? {
      SetElsewhereSucceeds(t, p, x, q, y);
    }
  }

  lemma ThereSpan(a: Tree, b: Tree, c: Tree, q: Path)
    requires SameThere(a, b, q) && SameThere(b, c, q)
    ensures SameThere(a, c, q)
  {
  }

  ghost predicate ViewsThere(v: Views, v': Views, q: Path) {
    SameThere(v.env, v'.env, q) && SameThere(v.raw, v'.raw, q) && SameThere(v.merged, v'.merged, q)
  }

  /** One key that every map takes. */
  lemma TakenKey(o: Settings, v: Views, k: KeyCells, p: Path)
    requires Takes(v, k, p)
    ensures var v' := ReplayKey(o, v, k.key, k.raw, k.effective);
            && v'.env == SetPath(v.env, p, k.effective).value && v'.raw == SetPath(v.raw, p, k.raw).value
            && v'.merged == SetPath(v.merged, p, k.raw).value
  {
    hide SetPath, Parse, TrackValue;
  }

  lemma TakesThere(v: Views, v': Views, k: KeyCells, p: Path)
    requires Takes(v, k, p) && ViewsThere(v, v', p)
    ensures Takes(v', k, p)
  {
    hide SetPath, Parse, GetPath;
  }

  /** Keys that are separate from q do not show there. */
  lemma {:induction false} SeparateElsewhere(o: Settings, v: Views, ks: seq<KeyCells>, q: Path)
    requires Separate(v, ks)
    requires forall j :: 0 <= j < |ks| ==> !Comparable(Parse(ks[j].key).value, q)
    ensures ViewsThere(v, ValueKeys(o, v, ks), q)
    decreases |ks|
  {
    hide SetPath, Parse, GetPath, ReplayKey, SameThere, Takes;
    if ks == [] {
      SameThereSelf(v, q);
    } else {
      var n := |ks| - 1;
      var p := Parse(ks[n].key).value;
      SeparatePrefix(v, ks, n);
      SeparateElsewhere(o, v, ks[..n], q);
      SeparateElsewhere(o, v, ks[..n], p);
      var before := ValueKeys(o, v, ks[..n]);
      TakesThere(v, before, ks[n], p);
      KeyThere(o, before, ks[n], p, q);
      var after := ValueKeys(o, v, ks);
      ThereSpan(v.env, before.env, after.env, q);
      ThereSpan(v.raw, before.raw, after.raw, q);
      ThereSpan(v.merged, before.merged, after.merged, q);
    }
  }

  lemma SameThereSelf(v: Views, q: Path)
    ensures ViewsThere(v, v, q)
  {
  }

  lemma KeyThere(o: Settings, v: Views, k: KeyCells, p: Path, q: Path)
    requires Takes(v, k, p) && !Comparable(p, q)
    ensures ViewsThere(v, ReplayKey(o, v, k.key, k.raw, k.effective), q)
  {
    TakenKey(o, v, k, p);
    hide SetPath, Parse, GetPath, ReplayKey, SameThere;
    WriteThere(v.env, p, k.effective, q);
    WriteThere(v.raw, p, k.raw, q);
    WriteThere(v.merged, p, k.raw, q);
  }

  /** Each separate key shows its values. */
  lemma {:induction false} SeparateShows(o: Settings, v: Views, ks: seq<KeyCells>, j: nat)
    requires Separate(v, ks) && j < |ks|
    ensures var v', p := ValueKeys(o, v, ks), Parse(ks[j].key).value;
            GetPath(v'.env, p) == Some(ks[j].effective) && GetPath(v'.raw, p) == Some(ks[j].raw)
    decreases |ks|
  {
    hide SetPath, Parse, GetPath, ReplayKey, SameThere, Takes;
    var n := |ks| - 1;
    var p := Parse(ks[n].key).value;
    SeparatePrefix(v, ks, n);
    SeparateElsewhere(o, v, ks[..n], p);
    var before := ValueKeys(o, v, ks[..n]);
    TakesThere(v, before, ks[n], p);
    if j == n {
      KeyShows(o, before, ks[n], p);
    } else {
      SeparateShows(o, v, ks[..n], j);
      var q := Parse(ks[j].key).value;
      OtherOrder(q, p);
      KeyThere(o, before, ks[n], p, q);
      ThereGets(before, ValueKeys(o, v, ks), q);
    }
  }

  lemma OtherOrder(p: Path, q: Path)
    requires !Comparable(p, q)
    ensures !Comparable(q, p)
  {
  }

  lemma ThereGets(v: Views, v': Views, q: Path)
    requires ViewsThere(v, v', q)
    ensures GetPath(v'.env, q) == GetPath(v.env, q) && GetPath(v'.raw, q) == GetPath(v.raw, q)
  {
  }

  lemma KeyShows(o: Settings, v: Views, k: KeyCells, p: Path)
    requires Takes(v, k, p)
    ensures var v' := ReplayKey(o, v, k.key, k.raw, k.effective);
            GetPath(v'.env, p) == Some(k.effective) && GetPath(v'.raw, p) == Some(k.raw)
  {
    TakenKey(o, v, k, p);
    hide SetPath, Parse, GetPath, ReplayKey;
    GetAfterSet(v.env, p, k.effective);
    GetAfterSet(v.raw, p, k.raw);
  }

  /** Where a key of a list stands in it. */
  ghost function IndexIn(ks: seq<KeyCells>, k: KeyCells): (i: nat)
    requires k in ks
    ensures i < |ks| && ks[i] == k
  {
    var i: nat :| i < |ks| && ks[i] == k;
    i
  }

  /** A key as its objects are after the keys ks were replayed. */
  ghost function NowKey(o: Settings, v: Views, ks: seq<KeyCells>, k: KeyCells): KeyCells {
    if k in ks then WornKey(o, v, ks, IndexIn(ks, k)) else k
  }

  ghost function NowKeys(o: Settings, v: Views, ks: seq<KeyCells>, ls: seq<KeyCells>): seq<KeyCells> {
    seq(|ls|, j requires 0 <= j < |ls| => NowKey(o, v, ks, ls[j]))
  }

  ghost predicate FrameNow(o: Settings, v: Views, ks: seq<KeyCells>, mem: Mem, f: HeapFrame) {
    Complete(f) && forall k :: k in f.frame.payload ==> CellsRead(mem, NowKey(o, v, ks, CellsOf(f, k)))
  }

  /** The heap after an overlapping replay of the keys ks, and after what apart
      restores and pushes add to it. */
  ghost predicate WornState(o: Settings, v: Views, ks: seq<KeyCells>, h: HeapStack) {
    && h.mem.Valid() && Whole(h.stack)
    && (forall k :: k in ks ==> CellsRead(h.mem, NowKey(o, v, ks, k)))
    && (forall f :: f in h.stack ==> FrameNow(o, v, ks, h.mem, f))
    && (if h.stack == [] then TreeRoots(h.mem, h.live, TreesOf(v)) else TreeRoots(h.mem, h.base, TreesOf(v)))
  }

  /** The restore replays some frames. */
  ghost predicate Replays(h: HeapStack, id: nat) { InStack(FramesOf(h.stack), id) && Remaining(h.stack, id) != [] }

  lemma NowShape(o: Settings, v: Views, ks: seq<KeyCells>, k: KeyCells)
    ensures Alike(k, NowKey(o, v, ks, k))
    ensures MapValued(NowKey(o, v, ks, k)) ==> MapValued(k)
    ensures !k.rawCell.Ref? && !k.effectiveCell.Ref? ==> NowKey(o, v, ks, k) == k
  {
    hide Parse, Worn, RawWorn;
  }

  /** The state that an overlapping restore leaves. */
  lemma OverlapWears(o: Settings, h: HeapStack, id: nat, h': HeapStack, v: Views)
    requires PrivateState(h, TreesOf(v)) && RestoreStep(h, id, h') && Replays(h, id) && PathKeys(FramesOf(h.stack))
    ensures Whole(h'.stack) && WornState(o, v, StackKeys(h'.stack), h')
  {
    OverlapKeepsBase(o, h, id, h', TreesOf(v));
    hide PrivateState, RestoreStep, TreeRoots, FramesOf, Remaining, StackKeys, NowKey, CellsRead, PathKeys;
    var ks := StackKeys(h'.stack);
    forall k | k in ks ensures CellsRead(h'.mem, NowKey(o, v, ks, k)) {
      OverlapKey(o, h, id, h', v, k);
    }
    forall f | f in h'.stack ensures FrameNow(o, v, ks, h'.mem, f) {
      forall k | k in f.frame.payload ensures CellsOf(f, k) in ks {
        FrameListed(h'.stack, f, k);
      }
    }
  }

  lemma OverlapKey(o: Settings, h: HeapStack, id: nat, h': HeapStack, v: Views, k: KeyCells)
    requires PrivateState(h, TreesOf(v)) && RestoreStep(h, id, h') && Replays(h, id) && PathKeys(FramesOf(h.stack))
    requires Whole(h'.stack) && h'.stack == Remaining(h.stack, id) && k in StackKeys(h'.stack)
    ensures CellsRead(h'.mem, NowKey(o, v, StackKeys(h'.stack), k))
  {
    RemainingIs(h.stack, id);
    hide PrivateState, RestoreStep, FramesOf, Remaining, StackKeys, WornKey, CellsRead, Parse, PathKeys;
    var i := IndexIn(StackKeys(h'.stack), k);
    KeyIsPath(h.stack, h'.stack, i);
    WornReads(o, h, id, h', v, i);
  }

  lemma KeyIsPath(stack: seq<HeapFrame>, rest: seq<HeapFrame>, i: nat)
    requires PathKeys(FramesOf(stack)) && (forall f :: f in rest ==> f in stack) && Whole(rest) && i < |StackKeys(rest)|
    ensures Parse(StackKeys(rest)[i].key).Some?
  {
    OwnerFacts(rest, i);
    var f := rest[OwnerOf(rest, i)];
    assert f in stack;
    var n :| 0 <= n < |stack| && stack[n] == f;
    assert FramesOf(stack)[n] == f.frame;
    hide StackKeys, OwnerOf, Parse, FramesOf;
    assert f.frame in FramesOf(stack);
  }

  lemma {:induction false} CellsInHas(f: HeapFrame, keys: seq<string>, k: string)
    requires Complete(f) && (forall l :: l in keys ==> l in f.frame.payload) && k in keys
    ensures CellsOf(f, k) in CellsIn(f, keys)
    decreases |keys|
  {
    var n := |keys| - 1;
    if k != keys[n] {
      CellsInHas(f, keys[..n], k);
    }
  }

  lemma KeyListed(f: HeapFrame, k: string)
    requires Complete(f) && k in f.frame.payload
    ensures CellsOf(f, k) in FrameKeys(f)
  {
    hide CellsOf, CellsIn;
    CellsInHas(f, PayloadKeys(f.frame), k);
  }

  /** The keys of every frame are among the keys of the stack. */
  lemma {:induction false} FrameListed(stack: seq<HeapFrame>, f: HeapFrame, k: string)
    requires Whole(stack) && f in stack && k in f.frame.payload
    ensures CellsOf(f, k) in StackKeys(stack)
    decreases |stack|
  {
    hide CellsOf, FrameKeys;
    var n := |stack| - 1;
    if f == stack[n] {
      KeyListed(f, k);
    } else {
      FrameListed(stack[..n], f, k);
    }
  }

  /** Two keys that the loop cannot tell apart. */
  predicate Alike(k: KeyCells, l: KeyCells) {
    k.key == l.key && k.rawCell == l.rawCell && k.effectiveCell == l.effectiveCell
  }

  lemma {:induction false} AlikeKeys(mem: Mem, r: Roots, ks: seq<KeyCells>, ls: seq<KeyCells>)
    requires mem.Valid() && AllMaps(mem, r) && |ks| == |ls| && forall j :: 0 <= j < |ks| ==> Alike(ks[j], ls[j])
    ensures HeapKeys(mem, r, ks) == HeapKeys(mem, r, ls)
    decreases |ks|
  {
    if ks != [] {
      var n := |ks| - 1;
      AlikeKeys(mem, r, ks[..n], ls[..n]);
      assert Alike(ks[n], ls[n]);
      hide HeapSet, Parse;
    }
  }

  lemma NowListed(o: Settings, v: Views, ks: seq<KeyCells>, h: HeapStack, rest: seq<HeapFrame>)
    requires WornState(o, v, ks, h) && Whole(rest) && forall f :: f in rest ==> f in h.stack
    ensures forall k :: k in NowKeys(o, v, ks, StackKeys(rest)) ==> CellsRead(h.mem, k)
  {
    hide StackKeys, NowKey, CellsRead, OwnerOf, TreeRoots, CellsOf;
    var ls := StackKeys(rest);
    forall j | 0 <= j < |ls| ensures CellsRead(h.mem, NowKeys(o, v, ks, ls)[j]) {
      OwnerFacts(rest, j);
      assert FrameNow(o, v, ks, h.mem, rest[OwnerOf(rest, j)]);
    }
  }

  lemma NowAlike(o: Settings, v: Views, ks: seq<KeyCells>, ls: seq<KeyCells>)
    ensures var ws := NowKeys(o, v, ks, ls);
            |ws| == |ls| && forall j :: 0 <= j < |ls| ==> Alike(ls[j], ws[j]) && (MapValued(ws[j]) ==> MapValued(ls[j]))
  {
    hide NowKey, MapValued;
    forall j | 0 <= j < |ls|
      ensures Alike(ls[j], NowKeys(o, v, ks, ls)[j])
      ensures MapValued(NowKeys(o, v, ks, ls)[j]) ==> MapValued(ls[j])
    {
      NowShape(o, v, ks, ls[j]);
    }
  }

  lemma NowApart(o: Settings, v: Views, ks: seq<KeyCells>, ls: seq<KeyCells>)
    requires Apart(ls)
    ensures Apart(NowKeys(o, v, ks, ls))
  {
    NowAlike(o, v, ks, ls);
    hide NowKeys, MapValued;
    forall j | 0 <= j < |ls| ensures NowKeys(o, v, ks, ls)[j].key == ls[j].key {
      assert Alike(ls[j], NowKeys(o, v, ks, ls)[j]);
    }
  }

  /** A later restore that is apart shows what the payload objects now hold. */
  lemma LaterRestore(o: Settings, v: Views, ks: seq<KeyCells>, h: HeapStack, id: nat, h': HeapStack)
    requires WornState(o, v, ks, h) && RestoreStep(h, id, h') && Replays(h, id)
    requires Whole(h'.stack) && Apart(StackKeys(h'.stack))
    ensures h'.stack == Remaining(h.stack, id) && h'.base == h.base && Extends(h.mem, h'.mem)
    ensures ReadsRoots(h'.mem, h'.live, TreesOf(ValueKeys(o, v, NowKeys(o, v, ks, StackKeys(h'.stack)))))
  {
    RemainingIs(h.stack, id);
    BaseOfRestore(h, id, h');
    assert h.mem.Valid();
    var mem := CopiedBase(h, id, h', TreesOf(v));
    hide *;
    var ls := StackKeys(h'.stack);
    var ws := NowKeys(o, v, ks, ls);
    NowListed(o, v, ks, h, h'.stack);
    NowAlike(o, v, ks, ls);
    NowApart(o, v, ks, ls);
    TableFacts(h.mem, ws);
    ReplayOnHeap(o, h.mem, mem, h'.live, v, ws, TableOf(ws));
    AlikeKeys(mem, h'.live, ls, ws);
  }

  lemma KeysStay(mem: Mem, mem': Mem, k: KeyCells)
    requires CellsRead(mem, k) && Extends(mem, mem')
    ensures CellsRead(mem', k)
  {
    hide Reads;
    ReadsStays(mem.nodes, mem'.nodes, k.rawCell, k.raw);
    ReadsStays(mem.nodes, mem'.nodes, k.effectiveCell, k.effective);
  }

  lemma FrameNowStays(o: Settings, v: Views, ks: seq<KeyCells>, mem: Mem, mem': Mem, f: HeapFrame)
    requires FrameNow(o, v, ks, mem, f) && Extends(mem, mem')
    ensures FrameNow(o, v, ks, mem', f)
  {
    hide CellsRead, NowKey, CellsOf, Extends;
    forall k | k in f.frame.payload ensures CellsRead(mem', NowKey(o, v, ks, CellsOf(f, k))) {
      KeysStay(mem, mem', NowKey(o, v, ks, CellsOf(f, k)));
    }
  }

  /** New objects, and what was worn before, do not concern one another. */
  lemma WornStays(o: Settings, v: Views, ks: seq<KeyCells>, h: HeapStack, h': HeapStack)
    requires WornState(o, v, ks, h) && Extends(h.mem, h'.mem)
    requires forall f :: f in h'.stack ==> f in h.stack || FrameNow(o, v, ks, h'.mem, f)
    requires if h'.stack == [] then TreeRoots(h'.mem, h'.live, TreesOf(v)) else TreeRoots(h'.mem, h'.base, TreesOf(v))
    ensures WornState(o, v, ks, h')
  {
    ExtendsValid(h.mem, h'.mem);
    hide CellsRead, NowKey, CellsOf, Extends, TreeRoots;
    forall k | k in ks ensures CellsRead(h'.mem, NowKey(o, v, ks, k)) {
      KeysStay(h.mem, h'.mem, NowKey(o, v, ks, k));
    }
    forall f | f in h'.stack ensures FrameNow(o, v, ks, h'.mem, f) {
      if f in h.stack {
        FrameNowStays(o, v, ks, h.mem, h'.mem, f);
      }
    }
  }

  /** A key made of new objects is none of the earlier ones. */
  lemma FreshKey(o: Settings, v: Views, ks: seq<KeyCells>, mem: Mem, mem': Mem, f: HeapFrame, k: string)
    requires FreshFrame(mem, mem', f) && k in f.frame.payload
    requires forall l :: l in ks ==> CellsRead(mem, NowKey(o, v, ks, l))
    ensures NowKey(o, v, ks, CellsOf(f, k)) == CellsOf(f, k)
  {
    var c := CellsOf(f, k);
    NowShape(o, v, ks, c);
    assert EffectiveValues(f.frame.payload, f.frame.effective)[k] == c.effective;
    FreshCell(mem, mem', f.raw, f.frame.payload, k);
    FreshCell(mem, mem', f.effective, EffectiveValues(f.frame.payload, f.frame.effective), k);
    hide WornKey, Foot, FootAll, Owns, OwnsAll;
    if c in ks {
      assert CellsRead(mem, NowKey(o, v, ks, c));
    }
  }

  lemma FreshCell(mem: Mem, mem': Mem, m: map<string, Cell>, t: Tree, k: string)
    requires k in m && k in t && OwnsAll(mem'.nodes, m, t, map[]) && FootAll(mem'.nodes, m, t, map[]) !! mem.nodes.Keys
    ensures m[k].Ref? ==> m[k].addr !in mem.nodes
  {
    if m[k].Ref? {
      assert m[k].addr in Foot(mem'.nodes, m[k], t[k], map[]);
    }
  }

  lemma FreshFrameNow(o: Settings, v: Views, ks: seq<KeyCells>, mem: Mem, mem': Mem, f: HeapFrame)
    requires FreshFrame(mem, mem', f) && forall l :: l in ks ==> CellsRead(mem, NowKey(o, v, ks, l))
    ensures FrameNow(o, v, ks, mem', f)
  {
    FreshFrameReads(mem, mem', f);
    hide CellsRead, NowKey, CellsOf, FreshFrame;
    forall k | k in f.frame.payload ensures CellsRead(mem', NowKey(o, v, ks, CellsOf(f, k))) {
      FreshKey(o, v, ks, mem, mem', f, k);
    }
  }

  lemma WornPush(o: Settings, v: Views, ks: seq<KeyCells>, h: HeapStack, payload: map<string, Value>,
      effective: map<string, Value>, h': HeapStack)
    requires WornState(o, v, ks, h) && PushStep(o, h, payload, effective, h')
    ensures WornState(o, v, ks, h')
  {
    if h' != h {
      var now, after, f := PushParts(o, h, payload, effective, h');
      hide PushStep, ReadsRoots, FreshFrame;
      WornBase(o, v, ks, h, now);
      PushedBase(h, now, after, f, h');
      PushedFacts(h, now, after, f, h');
      hide Pushed, TreeRoots, CellsRead, NowKey, CellsOf, Extends, FrameNow;
      FreshFrameNow(o, v, ks, h.mem, h'.mem, f);
      if h.stack != [] {
        TreesStay(h.mem, h'.mem, h.base, TreesOf(v));
      }
      WornStays(o, v, ks, h, h');
    }
  }

  lemma WornBase(o: Settings, v: Views, ks: seq<KeyCells>, h: HeapStack, now: Trees)
    requires WornState(o, v, ks, h) && ReadsRoots(h.mem, h.live, now)
    ensures h.stack == [] ==> now == TreesOf(v)
  {
    if h.stack == [] {
      TreesRead(h.mem, h.live, TreesOf(v));
      RootsUnique(h.mem, h.live, now, TreesOf(v));
    }
  }

  lemma WornRestore(o: Settings, v: Views, ks: seq<KeyCells>, h: HeapStack, id: nat, h': HeapStack)
    requires WornState(o, v, ks, h) && RestoreStep(h, id, h') && (Replays(h, id) ==> Unshadowed(FramesOf(h'.stack)))
    ensures WornState(o, v, ks, h')
  {
    if Replays(h, id) {
      var _ := CopiedBase(h, id, h', TreesOf(v));
      UnshadowedApart(h'.stack);
      LaterRestore(o, v, ks, h, id, h');
      RemainingIs(h.stack, id);
      BaseOfRestore(h, id, h');
      hide RestoreStep, TreeRoots, ReadsRoots, CellsRead, NowKey, CellsOf, Extends, FrameNow, Remaining, FramesOf,
        NowKeys, Unshadowed;
      TreesStay(h.mem, h'.mem, h.base, TreesOf(v));
      WornStays(o, v, ks, h, h');
    } else if InStack(FramesOf(h.stack), id) {
      assert h.stack != [];
      hide TreeRoots, CellsRead, NowKey, FrameNow, Replayed;
    }
  }

  /** If the act replays frames, none of their keys lies below a map-valued one. */
  ghost predicate ApartStep(h: HeapStack, a: Act, h': HeapStack) {
    a.RestoreAct? && Replays(h, a.id) ==> Unshadowed(FramesOf(h'.stack))
  }

  lemma WornStep(o: Settings, v: Views, ks: seq<KeyCells>, h: HeapStack, a: Act, h': HeapStack)
    requires WornState(o, v, ks, h) && HeapStep(o, h, a, h') && ApartStep(h, a, h')
    ensures WornState(o, v, ks, h')
  {
    hide WornState, PushStep, RestoreStep, Unshadowed;
    match a {
      case PushAct(payload, effective) => WornPush(o, v, ks, h, payload, effective, h');
      case RestoreAct(id) => WornRestore(o, v, ks, h, id, h');
    }
  }

  /** The steps from m to n are such. */
  ghost predicate ApartSteps(hs: seq<HeapStack>, acts: seq<Act>, m: nat, n: nat) {
    |hs| == |acts| + 1 && n <= |acts| && forall j :: m <= j < n ==> ApartStep(hs[j], acts[j], hs[j + 1])
  }

  lemma LastStep(o: Settings, hs: seq<HeapStack>, acts: seq<Act>, m: nat, n: nat)
    requires HeapRun(o, hs, acts) && ApartSteps(hs, acts, m, n) && m < n
    ensures ApartSteps(hs, acts, m, n - 1) && ApartStep(hs[n - 1], acts[n - 1], hs[n])
    ensures HeapStep(o, hs[n - 1], acts[n - 1], hs[n])
  {
    hide HeapStep, ApartStep;
  }

  lemma StepsPrefix(hs: seq<HeapStack>, acts: seq<Act>, m: nat, n: nat)
    requires ApartSteps(hs, acts, m, |acts|) && m <= n < |acts|
    ensures ApartSteps(hs, acts, m, n) && ApartStep(hs[n], acts[n], hs[n + 1])
  {
    hide ApartStep;
  }

  lemma {:induction false} WornRun(o: Settings, v: Views, ks: seq<KeyCells>, acts: seq<Act>, hs: seq<HeapStack>,
      m: nat, n: nat)
    requires HeapRun(o, hs, acts) && ApartSteps(hs, acts, m, n) && m <= n <= |acts| && |hs| == |acts| + 1
    requires WornState(o, v, ks, hs[m])
    ensures WornState(o, v, ks, hs[n])
    decreases n
  {
    hide *;
    if m < n {
      LastStep(o, hs, acts, m, n);
      WornRun(o, v, ks, acts, hs, m, n - 1);
      WornStep(o, v, ks, hs[n - 1], acts[n - 1], hs[n]);
    }
  }

  /** Write success does not depend on the value. */
  lemma TakesAny(t: Tree, p: Path, x: Value, y: Value)
    ensures SetPath(t, p, x).Some? <==> SetPath(t, p, y).Some?
  {
    SetFailsIff(t, p, x);
    SetFailsIff(t, p, y);
    hide SetPath, GetPath;
  }

  lemma NowSeparate(o: Settings, v: Views, ks: seq<KeyCells>, ls: seq<KeyCells>)
    requires Separate(v, ls)
    ensures Separate(v, NowKeys(o, v, ks, ls))
  {
    hide NowKey, SetPath, Parse;
    var ws := NowKeys(o, v, ks, ls);
    forall j | 0 <= j < |ls|
      ensures Alike(ls[j], ws[j]) && Parse(ws[j].key).Some? && Takes(v, ws[j], Parse(ws[j].key).value)
    {
      var p := Parse(ls[j].key).value;
      NowShape(o, v, ks, ls[j]);
      assert Takes(v, ls[j], p);
      TakesAny(v.env, p, ls[j].effective, ws[j].effective);
      TakesAny(v.raw, p, ls[j].raw, ws[j].raw);
      TakesAny(v.merged, p, ls[j].raw, ws[j].raw);
    }
  }

  /** Separate keys show different maps when their values differ. */
  lemma SeparateTell(o: Settings, v: Views, ks: seq<KeyCells>, ls: seq<KeyCells>)
    requires Separate(v, ks) && Separate(v, ls) && |ks| == |ls| && forall j :: 0 <= j < |ks| ==> Alike(ks[j], ls[j])
    requires TreesOf(ValueKeys(o, v, ks)) == TreesOf(ValueKeys(o, v, ls))
    ensures ks == ls
  {
    hide ValueKeys, Separate, GetPath, Parse;
    forall j | 0 <= j < |ks| ensures ks[j] == ls[j] {
      assert Alike(ks[j], ls[j]);
      SeparateShows(o, v, ks, j);
      SeparateShows(o, v, ls, j);
    }
  }

  /** Keys whose cells hold objects occur once. */
  lemma OnlyOnce(mem: Mem, ks: seq<KeyCells>, i: nat, j: nat)
    requires PrivatePayloads(mem, ks) && RawApart(mem, ks) && i < j < |ks| && ks[i] == ks[j]
    ensures !ks[i].rawCell.Ref? && !ks[i].effectiveCell.Ref?
  {
    hide Owns, Foot;
    assert RawFeet(mem, ks, i) == RawFeet(mem, ks, j) == {};
    assert Feet(mem, ks, i) == Feet(mem, ks, j) == {};
    if ks[i].rawCell.Ref? {
      CellInFeet(mem.nodes, ks[i].rawCell, ks[i].raw);
    }
    if ks[i].effectiveCell.Ref? {
      CellInFeet(mem.nodes, ks[i].effectiveCell, ks[i].effective);
    }
  }

  /** So a key has one worn value. */
  lemma NowIsWorn(o: Settings, v: Views, mem: Mem, ks: seq<KeyCells>, i: nat)
    requires PrivatePayloads(mem, ks) && RawApart(mem, ks) && i < |ks|
    ensures NowKey(o, v, ks, ks[i]) == WornKey(o, v, ks, i)
  {
    var j := IndexIn(ks, ks[i]);
    if i != j {
      OnlyOnce(mem, ks, if i < j then i else j, if i < j then j else i);
    }
  }

  /** The payloads that the later replay uses are as they were pushed. */
  ghost predicate Intact(o: Settings, v: Views, ks: seq<KeyCells>, ls: seq<KeyCells>) {
    forall i :: 0 <= i < |ks| && ks[i] in ls ==> WornKey(o, v, ks, i) == ks[i]
  }

  lemma IntactIff(o: Settings, v: Views, mem: Mem, ks: seq<KeyCells>, ls: seq<KeyCells>)
    requires PrivatePayloads(mem, ks) && RawApart(mem, ks)
    ensures Intact(o, v, ks, ls) <==> NowKeys(o, v, ks, ls) == ls
  {
    hide WornKey, NowKey, PrivatePayloads, RawApart;
    var ws := NowKeys(o, v, ks, ls);
    if Intact(o, v, ks, ls) {
      forall j | 0 <= j < |ls| ensures ws[j] == ls[j] {
        NowIntact(o, v, ks, ls, j);
      }
    }
    if ws == ls {
      forall i | 0 <= i < |ks| && ks[i] in ls ensures WornKey(o, v, ks, i) == ks[i] {
        var j :| 0 <= j < |ls| && ls[j] == ks[i];
        assert ws[j] == NowKey(o, v, ks, ls[j]);
        NowIsWorn(o, v, mem, ks, i);
      }
    }
  }

  lemma NowIntact(o: Settings, v: Views, ks: seq<KeyCells>, ls: seq<KeyCells>, j: nat)
    requires Intact(o, v, ks, ls) && j < |ls|
    ensures NowKey(o, v, ks, ls[j]) == ls[j]
  {
    hide WornKey;
  }

  /** A run in which only the restore at step m replays keys below map-valued ones. */
  ghost predicate OverlapsAt(o: Settings, s: Overrides.Shared, acts: seq<Act>, hs: seq<HeapStack>, m: nat) {
    && Wellformed(s) && s.stack == [] && HeapRun(o, hs, acts) && Shows(hs[0], s)
    && m < |acts| && ReplaysApart(o, s, acts[..m]) && acts[m].RestoreAct? && Replays(hs[m], acts[m].id)
    && Whole(hs[m + 1].stack)
    && ApartSteps(hs, acts, m + 1, |acts|)
  }

  lemma PrefixRun(o: Settings, acts: seq<Act>, hs: seq<HeapStack>, m: nat)
    requires HeapRun(o, hs, acts) && m < |acts|
    ensures HeapRun(o, hs[..m + 1], acts[..m]) && HeapStep(o, hs[m], acts[m], hs[m + 1])
  {
    hide HeapStep;
  }

  lemma OverlapStart(o: Settings, s: Overrides.Shared, acts: seq<Act>, hs: seq<HeapStack>, m: nat)
    requires OverlapsAt(o, s, acts, hs, m)
    ensures PrivateState(hs[m], TreesOf(s.content.View())) && RestoreStep(hs[m], acts[m].id, hs[m + 1])
    ensures FramesOf(hs[m].stack) == Run(o, s, acts[..m]).stack && PathKeys(FramesOf(hs[m].stack))
  {
    PrefixRun(o, acts, hs, m);
    assert acts[..m][..m] == acts[..m] && hs[..m + 1][m] == hs[m];
    hide HeapStep, ReplaysApart, PrivateState, Replays, ApartStep, PathKeys, Shows, Run, Wellformed;
    PrivateRun(o, s, acts[..m], hs[..m + 1], m);
    HeapShowsRun(o, s, acts[..m], hs[..m + 1], m);
    ShowsFrames(hs[m], Run(o, s, acts[..m]));
    RunPathKeys(o, s, acts[..m]);
  }

  /** The first restore that overlaps is right in all three maps. */
  lemma OverlapIsRight(o: Settings, s: Overrides.Shared, acts: seq<Act>, hs: seq<HeapStack>, m: nat)
    requires OverlapsAt(o, s, acts, hs, m)
    ensures var h := hs[m + 1];
            && FramesOf(h.stack) == Without(Run(o, s, acts[..m]).stack, acts[m].id)
            && TreeRoots(h.mem, h.live, TreesOf(Replay(o, s.content.View(), FramesOf(h.stack))))
  {
    OverlapStart(o, s, acts, hs, m);
    var h, v := hs[m], s.content.View();
    assert h.stack != [] by { BaseOfRestore(h, acts[m].id, hs[m + 1]); }
    hide RestoreStep, TreeRoots, FramesOf, HeapRun, Shows, Remaining;
    RestoreIsRight(o, h, acts[m].id, hs[m + 1], v);
  }

  /** Every later restore shows the payloads as the overlapping one left them. */
  lemma OverlapRunReads(o: Settings, s: Overrides.Shared, acts: seq<Act>, hs: seq<HeapStack>, m: nat, n: nat)
    requires OverlapsAt(o, s, acts, hs, m) && m < n < |acts| && acts[n].RestoreAct? && Replays(hs[n], acts[n].id)
    requires Whole(hs[n + 1].stack)
    ensures var v, ks, h := s.content.View(), StackKeys(hs[m + 1].stack), hs[n + 1];
            ReadsRoots(h.mem, h.live, TreesOf(ValueKeys(o, v, NowKeys(o, v, ks, StackKeys(h.stack)))))
  {
    OverlapStart(o, s, acts, hs, m);
    var h, v, ks := hs[n], s.content.View(), StackKeys(hs[m + 1].stack);
    StepsPrefix(hs, acts, m + 1, n);
    assert HeapStep(o, hs[n], acts[n], hs[n + 1]);
    hide RestoreStep, PrivateState, WornState, FramesOf, Shows, Replays, StackKeys, ReadsRoots, PathKeys, NowKeys,
      Apart;
    OverlapWears(o, hs[m], acts[m].id, hs[m + 1], v);
    WornRun(o, v, ks, acts, hs, m + 1, n);
    UnshadowedApart(hs[n + 1].stack);
    LaterRestore(o, v, ks, h, acts[n].id, hs[n + 1]);
  }

  /** And when no key of the survivors contains another, it is right exactly when
      the payloads it replays are as they were pushed. */
  lemma OverlapRunIff(o: Settings, s: Overrides.Shared, acts: seq<Act>, hs: seq<HeapStack>, m: nat, n: nat)
    requires OverlapsAt(o, s, acts, hs, m) && m < n < |acts| && acts[n].RestoreAct? && Replays(hs[n], acts[n].id)
    requires Whole(hs[n + 1].stack) && Separate(s.content.View(), StackKeys(hs[n + 1].stack))
    ensures var v, h := s.content.View(), hs[n + 1];
            ReadsRoots(h.mem, h.live, TreesOf(Replay(o, v, FramesOf(h.stack)))) <==>
            Intact(o, v, StackKeys(hs[m + 1].stack), StackKeys(h.stack))
  {
    OverlapRunReads(o, s, acts, hs, m, n);
    OverlapStart(o, s, acts, hs, m);
    var h, v, ks, ls := hs[n + 1], s.content.View(), StackKeys(hs[m + 1].stack), StackKeys(hs[n + 1].stack);
    RestKeys(hs[m], acts[m].id, hs[m + 1], TreesOf(v));
    hide *;
    IntactIff(o, v, hs[m].mem, ks, ls);
    StackIsReplay(o, v, h.stack);
    NowSeparate(o, v, ks, ls);
    NowAlike(o, v, ks, ls);
    if ReadsRoots(h.mem, h.live, TreesOf(ValueKeys(o, v, ls))) {
      RootsUnique(h.mem, h.live, TreesOf(ValueKeys(o, v, ls)), TreesOf(ValueKeys(o, v, NowKeys(o, v, ks, ls))));
      SeparateTell(o, v, ls, NowKeys(o, v, ks, ls));
    }
  }

  lemma RestKeys(h: HeapStack, id: nat, h': HeapStack, base: Trees)
    requires PrivateState(h, base) && RestoreStep(h, id, h') && Replays(h, id) && Whole(h'.stack)
    ensures PrivatePayloads(h.mem, StackKeys(h'.stack)) && RawApart(h.mem, StackKeys(h'.stack))
  {
    assert h.stack != [] by { BaseOfRestore(h, id, h'); }
    var _ := CopiedBase(h, id, h', base);
    hide RestoreStep, PrivateStack, Ordered, TreeRoots, FramesOf, Remaining, PrivatePayloads, RawApart, StackKeys;
    RestPrivate(h.mem, h.stack, id);
    RemainingOrdered(h.stack, id);
    StackPrivate(h.mem, h'.stack);
  }
}
