/** What one restore does to the payload objects of the frames it replays, as
    pushes left them. */
module RestoreWear {
  import opened Values
  import opened Paths
  import opened Store
  import opened StoreTrees
  import opened SharedObjects
  import opened Snapshots
  import opened Overrides
  import opened OverrideHeap
  import opened OverrideHeapRuns
  import opened PayloadWear
  import opened RawWear

  ghost predicate PrivateFrame(mem: Mem, f: HeapFrame) {
    var payload, effective := f.frame.payload, EffectiveValues(f.frame.payload, f.frame.effective);
    && Complete(f) && OwnsAll(mem.nodes, f.raw, payload, map[]) && OwnsAll(mem.nodes, f.effective, effective, map[])
    && FootAll(mem.nodes, f.raw, payload, map[]) !! FootAll(mem.nodes, f.effective, effective, map[])
  }

  /** Every frame has its payload objects to itself. */
  ghost predicate PrivateStack(mem: Mem, stack: seq<HeapFrame>) {
    && (forall f :: f in stack ==> PrivateFrame(mem, f))
    && forall f, g :: f in stack && g in stack && f.frame.id != g.frame.id ==> FrameFeet(mem, f) !! FrameFeet(mem, g)
  }

  ghost predicate Ordered(stack: seq<HeapFrame>) {
    forall i, j :: 0 <= i < j < |stack| ==> stack[i].frame.id < stack[j].frame.id
  }

  lemma PrivateFrameStays(mem: Mem, mem': Mem, f: HeapFrame)
    requires PrivateFrame(mem, f) && Extends(mem, mem')
    ensures PrivateFrame(mem', f) && FrameFeet(mem', f) == FrameFeet(mem, f) <= mem.nodes.Keys
  {
    var p, e := f.frame.payload, EffectiveValues(f.frame.payload, f.frame.effective);
    AllAllocated(mem.nodes, f.raw, p);
    AllAllocated(mem.nodes, f.effective, e);
    hide OwnsAll, FootAll;
    OwnsAllFrame(mem.nodes, mem'.nodes, f.raw, p, map[]);
    OwnsAllFrame(mem.nodes, mem'.nodes, f.effective, e, map[]);
  }

  lemma FreshIsPrivate(mem: Mem, mem': Mem, f: HeapFrame)
    requires FreshFrame(mem, mem', f)
    ensures PrivateFrame(mem', f) && FrameFeet(mem', f) !! mem.nodes.Keys
  {
    hide OwnsAll, FootAll;
  }

  lemma PushedFacts(h: HeapStack, now: Trees, after: Trees, f: HeapFrame, h': HeapStack)
    requires Pushed(h, now, after, f, h')
    ensures Extends(h.mem, h'.mem) && FreshFrame(h.mem, h'.mem, f)
    ensures h'.stack == h.stack + [f] && h'.lastId == f.frame.id == h.lastId + 1
  {
    hide FreshFrame;
    FreshAreTrees(h.mem, h'.mem, h'.live, after);
  }

  /** Pushes leave every payload to its frame. */
  lemma PushKeepsPrivate(o: Settings, h: HeapStack, payload: map<string, Value>, effective: map<string, Value>,
      h': HeapStack)
    requires PrivateStack(h.mem, h.stack) && Ordered(h.stack) && PushStep(o, h, payload, effective, h')
    requires forall f :: f in h.stack ==> f.frame.id <= h.lastId
    ensures PrivateStack(h'.mem, h'.stack) && Ordered(h'.stack) && forall f :: f in h'.stack ==> f.frame.id <= h'.lastId
  {
    hide ReadsRoots, SetKeys, FreshRoots, FreshFrame, PrivateFrame, FrameFeet;
    if h' != h {
      var f := h'.stack[|h'.stack| - 1];
      var v: Views, w: Views :| Pushed(h, TreesOf(v), TreesOf(w), f, h');
      PushedFacts(h, TreesOf(v), TreesOf(w), f, h');
      FreshIsPrivate(h.mem, h'.mem, f);
      forall g | g in h.stack
        ensures PrivateFrame(h'.mem, g) && FrameFeet(h'.mem, g) == FrameFeet(h.mem, g) <= h.mem.nodes.Keys
      {
        PrivateFrameStays(h.mem, h'.mem, g);
      }
    }
  }

  lemma {:induction false} CellsInAt(f: HeapFrame, keys: seq<string>, i: nat)
    requires Complete(f) && (forall k :: k in keys ==> k in f.frame.payload) && i < |CellsIn(f, keys)|
    ensures |CellsIn(f, keys)| == |keys| && CellsIn(f, keys)[i].key == keys[i]
    decreases |keys|
  {
    var n := |keys| - 1;
    if i < |CellsIn(f, keys[..n])| {
      CellsInAt(f, keys[..n], i);
    } else if n > 0 {
      CellsInSize(f, keys[..n]);
    }
  }

  lemma {:induction false} CellsInSize(f: HeapFrame, keys: seq<string>)
    requires Complete(f) && forall k :: k in keys ==> k in f.frame.payload
    ensures |CellsIn(f, keys)| == |keys|
    decreases |keys|
  {
    if keys != [] {
      CellsInSize(f, keys[..|keys| - 1]);
    }
  }

  lemma DistinctInFrame(f: HeapFrame, i: nat, j: nat)
    requires Complete(f) && i < j < |FrameKeys(f)|
    ensures FrameKeys(f)[i].key != FrameKeys(f)[j].key
  {
    var keys := PayloadKeys(f.frame);
    CellsInAt(f, keys, i);
    CellsInAt(f, keys, j);
    LessTotal(keys[i], keys[j]);
    assert Less(keys[i], keys[j]);
  }

  /** A frame has each of its keys once. */
  lemma {:induction false} DistinctKeys(stack: seq<HeapFrame>, i: nat, j: nat)
    requires Whole(stack) && i < j < |StackKeys(stack)| && OwnerOf(stack, i) == OwnerOf(stack, j)
    ensures StackKeys(stack)[i].key != StackKeys(stack)[j].key
    decreases |stack|
  {
    var m := |stack| - 1;
    var before := StackKeys(stack[..m]);
    hide FrameKeys;
    if j < |before| {
      DistinctKeys(stack[..m], i, j);
    } else if i < |before| {
      OwnerFacts(stack[..m], i);
    } else {
      DistinctInFrame(stack[m], i - |before|, j - |before|);
    }
  }

  lemma CellFeet(mem: Mem, f: HeapFrame, k: string)
    requires PrivateFrame(mem, f) && k in f.frame.payload
    ensures var c := CellsOf(f, k);
            && Owns(mem.nodes, c.rawCell, c.raw, map[]) && Owns(mem.nodes, c.effectiveCell, c.effective, map[])
            && Foot(mem.nodes, c.rawCell, c.raw, map[]) <=
               FootAll(mem.nodes, f.raw, f.frame.payload, map[]) <= FrameFeet(mem, f)
            && Foot(mem.nodes, c.effectiveCell, c.effective, map[]) <=
               FootAll(mem.nodes, f.effective, EffectiveValues(f.frame.payload, f.frame.effective), map[]) <=
               FrameFeet(mem, f)
  {
    hide Owns, Foot;
    assert EffectiveValues(f.frame.payload, f.frame.effective)[k] == CellsOf(f, k).effective;
  }

  lemma OwnApart(mem: Mem, f: HeapFrame, k: string, l: string)
    requires PrivateFrame(mem, f) && k in f.frame.payload && l in f.frame.payload
    ensures var c, d := CellsOf(f, k), CellsOf(f, l);
            && Foot(mem.nodes, c.effectiveCell, c.effective, map[]) !! Foot(mem.nodes, d.rawCell, d.raw, map[])
            && (k != l ==> Foot(mem.nodes, c.effectiveCell, c.effective, map[]) !!
                           Foot(mem.nodes, d.effectiveCell, d.effective, map[]))
            && (k != l ==> Foot(mem.nodes, c.rawCell, c.raw, map[]) !! Foot(mem.nodes, d.rawCell, d.raw, map[]))
  {
    CellFeet(mem, f, k);
    CellFeet(mem, f, l);
    hide Owns, Foot, FootAll;
    assert EffectiveValues(f.frame.payload, f.frame.effective)[k] == CellsOf(f, k).effective;
    assert EffectiveValues(f.frame.payload, f.frame.effective)[l] == CellsOf(f, l).effective;
  }

  /** Any two keys of a stack. */
  lemma KeysApart(mem: Mem, stack: seq<HeapFrame>, j: nat, l: nat)
    requires PrivateStack(mem, stack) && Ordered(stack) && Whole(stack)
    requires j < |StackKeys(stack)| && l < |StackKeys(stack)|
    ensures Feet(mem, StackKeys(stack), j) !! RawFeet(mem, StackKeys(stack), l)
    ensures j < l ==> Feet(mem, StackKeys(stack), j) !! Feet(mem, StackKeys(stack), l)
    ensures j < l ==> RawFeet(mem, StackKeys(stack), j) !! RawFeet(mem, StackKeys(stack), l)
  {
    OwnerFacts(stack, j);
    OwnerFacts(stack, l);
    var m, n, ks := OwnerOf(stack, j), OwnerOf(stack, l), StackKeys(stack);
    if j < l && m == n { DistinctKeys(stack, j, l); }
    hide StackKeys, OwnerOf, Foot, FrameFeet, PrivateFrame, Complete;
    var f, g := stack[m], stack[n];
    assert f in stack && g in stack;
    CellFeet(mem, f, ks[j].key);
    CellFeet(mem, g, ks[l].key);
    if m == n {
      OwnApart(mem, f, ks[j].key, ks[l].key);
    } else {
      assert f.frame.id != g.frame.id;
    }
  }

  lemma KeyOwned(mem: Mem, stack: seq<HeapFrame>, j: nat)
    requires PrivateStack(mem, stack) && Whole(stack) && j < |StackKeys(stack)|
    ensures var k := StackKeys(stack)[j];
            Owns(mem.nodes, k.rawCell, k.raw, map[]) && Owns(mem.nodes, k.effectiveCell, k.effective, map[])
  {
    OwnerFacts(stack, j);
    hide Owns, PrivateFrame, StackKeys, OwnerOf, CellsOf;
    CellFeet(mem, stack[OwnerOf(stack, j)], StackKeys(stack)[j].key);
  }

  lemma StackPrivate(mem: Mem, stack: seq<HeapFrame>)
    requires PrivateStack(mem, stack) && Ordered(stack) && Whole(stack)
    ensures PrivatePayloads(mem, StackKeys(stack)) && RawApart(mem, StackKeys(stack))
  {
    hide StackKeys, Owns, Feet, RawFeet, PrivateStack, Ordered, Complete;
    var ks := StackKeys(stack);
    forall j | 0 <= j < |ks|
      ensures Owns(mem.nodes, ks[j].rawCell, ks[j].raw, map[])
      ensures Owns(mem.nodes, ks[j].effectiveCell, ks[j].effective, map[])
    {
      KeyOwned(mem, stack, j);
    }
    forall j, l | 0 <= j < |ks| && 0 <= l < |ks|
      ensures Feet(mem, ks, j) !! RawFeet(mem, ks, l) && (j < l ==> Feet(mem, ks, j) !! Feet(mem, ks, l))
      ensures j < l ==> RawFeet(mem, ks, j) !! RawFeet(mem, ks, l)
    {
      KeysApart(mem, stack, j, l);
    }
  }

  lemma {:induction false} RemainingOrdered(stack: seq<HeapFrame>, id: nat)
    requires Ordered(stack)
    ensures Ordered(Remaining(stack, id))
    decreases |stack|
  {
    if stack != [] {
      var n := |stack| - 1;
      RemainingOrdered(stack[..n], id);
      RemainingIs(stack[..n], id);
      var r := Remaining(stack[..n], id);
      forall i | 0 <= i < |r| ensures r[i].frame.id < stack[n].frame.id {
        assert r[i] in stack[..n];
      }
    }
  }

  /** One restore over frames that still have their payload to themselves: all
      three live maps are the intended ones, whatever lies below what. */
  lemma RestoreIsRight(o: Settings, h: HeapStack, id: nat, h': HeapStack, v: Views)
    requires PrivateStack(h.mem, h.stack) && Ordered(h.stack) && TreeRoots(h.mem, h.base, TreesOf(v))
    requires RestoreStep(h, id, h') && InStack(FramesOf(h.stack), id) && Remaining(h.stack, id) != []
    ensures FramesOf(h'.stack) == Without(FramesOf(h.stack), id)
    ensures TreeRoots(h'.mem, h'.live, TreesOf(Replay(o, v, FramesOf(h'.stack))))
  {
    RemainingIs(h.stack, id);
    RemainingOrdered(h.stack, id);
    RestPrivate(h.mem, h.stack, id);
    var mem := CopiedBase(h, id, h', TreesOf(v));
    hide *;
    StackPrivate(h.mem, h'.stack);
    LiveMapsRight(o, h.mem, mem, h'.live, v, StackKeys(h'.stack));
    StackIsReplay(o, v, h'.stack);
    AreTrees(h'.mem, h'.live, TreesOf(Replay(o, v, FramesOf(h'.stack))));
  }

  lemma AreTrees(mem: Mem, r: Roots, t: Trees)
    requires forall w: Which :: Owns(mem.nodes, Ref(r.At(w)), Map(t.At(w)), map[])
    ensures TreeRoots(mem, r, t)
  {
  }

  /** But the payload object of a map-valued key, effective or raw, holds what the
      later keys below it that reached it have made of it: it is as it was pushed
      exactly when they change nothing. */
  lemma RestoreWears(o: Settings, h: HeapStack, id: nat, h': HeapStack, v: Views, i: nat, p: Path, a: nat)
    requires PrivateStack(h.mem, h.stack) && Ordered(h.stack) && TreeRoots(h.mem, h.base, TreesOf(v))
    requires RestoreStep(h, id, h') && InStack(FramesOf(h.stack), id) && Remaining(h.stack, id) != [] && Whole(h'.stack)
    requires i < |StackKeys(h'.stack)| && Parse(StackKeys(h'.stack)[i].key) == Some(p)
    ensures var ks, after := StackKeys(h'.stack), h'.mem.nodes;
            && (ks[i].effective.Map? && ks[i].effectiveCell == Ref(a) ==>
                var m := Map(Worn(v.env, ks, i, p).m);
                && Owns(after, Ref(a), m, map[])
                && (Owns(after, Ref(a), ks[i].effective, map[]) <==> m == ks[i].effective))
            && (ks[i].raw.Map? && ks[i].rawCell == Ref(a) ==>
                var m := Map(RawWorn(o, v, ks, i, p).m);
                && Owns(after, Ref(a), m, map[])
                && (Owns(after, Ref(a), ks[i].raw, map[]) <==> m == ks[i].raw))
  {
    RemainingIs(h.stack, id);
    RemainingOrdered(h.stack, id);
    RestPrivate(h.mem, h.stack, id);
    var mem := CopiedBase(h, id, h', TreesOf(v));
    hide *;
    StackPrivate(h.mem, h'.stack);
    var ks := StackKeys(h'.stack);
    if ks[i].effective.Map? && ks[i].effectiveCell == Ref(a) {
      PayloadWornIff(o, h.mem, mem, h'.live, v, ks, i, p, a);
    }
    if ks[i].raw.Map? && ks[i].rawCell == Ref(a) {
      RawPayloadWornIff(o, h.mem, mem, h'.live, v, ks, i, p, a);
    }
  }

  lemma RestPrivate(mem: Mem, stack: seq<HeapFrame>, id: nat)
    requires PrivateStack(mem, stack)
    ensures PrivateStack(mem, Remaining(stack, id))
  {
    hide PrivateFrame, FrameFeet;
    RemainingIs(stack, id);
  }

  /** The copy of the base that a restore replays on. */
  lemma CopiedBase(h: HeapStack, id: nat, h': HeapStack, base: Trees) returns (mem: Mem)
    requires RestoreStep(h, id, h') && InStack(FramesOf(h.stack), id) && Remaining(h.stack, id) != []
    requires TreeRoots(h.mem, h.base, base)
    ensures h'.stack == Remaining(h.stack, id) && Whole(h'.stack)
    ensures FreshRoots(h.mem, mem, h'.live, base) && mem.Valid() && AllMaps(mem, h'.live)
    ensures h'.mem == HeapKeys(mem, h'.live, StackKeys(h'.stack))
  {
    hide ReadsRoots, TreeRoots, FreshRoots, HeapKeys, StackKeys, FramesOf, Remaining;
    var rest := h'.stack;
    var read: Trees, m: Mem :| Replayed(h, rest, read, m, h');
    TreesRead(h.mem, h.base, base);
    RootsUnique(h.mem, h.base, read, base);
    mem := m;
  }
}
