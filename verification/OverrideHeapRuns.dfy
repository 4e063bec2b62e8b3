/** Runs of pushes and restores on the heap. While no replayed key lies below a
    map-valued one, the live maps read as the maps of Overrides.Run after every
    step, so its theorems hold of the loop that does not copy. */
module OverrideHeapRuns {
  import opened Values
  import opened Paths
  import opened Store
  import opened StoreTrees
  import opened SharedObjects
  import opened Snapshots
  import opened Overrides
  import opened OverrideHeap

  /** A frame, and the cells of its private copies of the payload. A key that was
      not materialized has its raw cell in both. */
  datatype HeapFrame = HeapFrame(frame: Frame, raw: map<string, Cell>, effective: map<string, Cell>)

  predicate Complete(f: HeapFrame) { f.raw.Keys == f.frame.payload.Keys == f.effective.Keys }

  function CellsOf(f: HeapFrame, k: string): KeyCells
    requires Complete(f) && k in f.frame.payload
  {
    KeyCells(k, f.frame.payload[k], EffectiveOf(f.frame.payload, f.frame.effective, k), f.raw[k], f.effective[k])
  }

  function CellsIn(f: HeapFrame, keys: seq<string>): seq<KeyCells>
    requires Complete(f) && forall k :: k in keys ==> k in f.frame.payload
  {
    if keys == [] then []
    else
      assert keys[|keys| - 1] in keys;
      CellsIn(f, keys[..|keys| - 1]) + [CellsOf(f, keys[|keys| - 1])]
  }

  function FrameKeys(f: HeapFrame): seq<KeyCells>
    requires Complete(f)
  {
    CellsIn(f, PayloadKeys(f.frame))
  }

  function StackKeys(stack: seq<HeapFrame>): seq<KeyCells>
    requires forall f :: f in stack ==> Complete(f)
  {
    if stack == [] then [] else StackKeys(stack[..|stack| - 1]) + FrameKeys(stack[|stack| - 1])
  }

  function FramesOf(stack: seq<HeapFrame>): seq<Frame> {
    seq(|stack|, i requires 0 <= i < |stack| => stack[i].frame)
  }

  lemma {:induction false} ReplaySnoc(o: Settings, v: Views, keys: seq<string>, k: string,
      payload: map<string, Value>, effective: map<string, Value>)
    requires k in payload && forall j :: j in keys ==> j in payload
    ensures ReplayKeys(o, v, keys + [k], payload, effective) ==
            ReplayKey(o, ReplayKeys(o, v, keys, payload, effective), k, payload[k], EffectiveOf(payload, effective, k))
    decreases |keys|
  {
    hide ReplayKey;
    if keys == [] {
      assert [k][1..] == [];
    } else {
      assert keys[0] in keys && (keys + [k])[0] == keys[0] && (keys + [k])[1..] == keys[1..] + [k];
      var v' := ReplayKey(o, v, keys[0], payload[keys[0]], EffectiveOf(payload, effective, keys[0]));
      ReplaySnoc(o, v', keys[1..], k, payload, effective);
    }
  }

  lemma {:induction false} CellsInReplay(o: Settings, v: Views, f: HeapFrame, keys: seq<string>)
    requires Complete(f) && forall k :: k in keys ==> k in f.frame.payload
    ensures ValueKeys(o, v, CellsIn(f, keys)) == ReplayKeys(o, v, keys, f.frame.payload, f.frame.effective)
    decreases |keys|
  {
    hide ReplayKey, ReplayKeys;
    if keys == [] {
      NothingReplayed(o, v, keys, f.frame.payload, f.frame.effective);
    } else {
      var n := |keys| - 1;
      CellsInReplay(o, v, f, keys[..n]);
      assert keys[n] in keys && keys[..n] + [keys[n]] == keys;
      var ks := CellsIn(f, keys);
      assert ks[..|ks| - 1] == CellsIn(f, keys[..n]);
      ReplaySnoc(o, v, keys[..n], keys[n], f.frame.payload, f.frame.effective);
    }
  }

  lemma NothingReplayed(o: Settings, v: Views, keys: seq<string>, payload: map<string, Value>,
      effective: map<string, Value>)
    requires keys == []
    ensures ReplayKeys(o, v, keys, payload, effective) == v
  {
  }

  lemma {:induction false} ValueKeysSplit(o: Settings, v: Views, a: seq<KeyCells>, b: seq<KeyCells>)
    ensures ValueKeys(o, v, a + b) == ValueKeys(o, ValueKeys(o, v, a), b)
    decreases |b|
  {
    hide ReplayKey;
    if b == [] {
      assert a + b == a;
    } else {
      ValueKeysSplit(o, v, a, b[..|b| - 1]);
      assert (a + b)[..|a + b| - 1] == a + b[..|b| - 1];
    }
  }

  /** The keys of the stack in order are the replay of its frames. */
  lemma {:induction false} StackIsReplay(o: Settings, v: Views, stack: seq<HeapFrame>)
    requires forall f :: f in stack ==> Complete(f)
    ensures ValueKeys(o, v, StackKeys(stack)) == Replay(o, v, FramesOf(stack))
    decreases |stack|
  {
    hide ReplayKeys, ReplayKey;
    if stack != [] {
      var n := |stack| - 1;
      StackIsReplay(o, v, stack[..n]);
      assert FramesOf(stack)[..n] == FramesOf(stack[..n]);
      ValueKeysSplit(o, v, StackKeys(stack[..n]), FrameKeys(stack[n]));
      CellsInReplay(o, ValueKeys(o, v, StackKeys(stack[..n])), stack[n], PayloadKeys(stack[n].frame));
    } else {
      assert StackKeys(stack) == [];
    }
  }

  /** The value of a key, in either map, is a map. */
  predicate MapAt(f: Frame, k: string)
    requires k in f.payload
  {
    f.payload[k].Map? || EffectiveOf(f.payload, f.effective, k).Map?
  }

  /** No key lies strictly below a map-valued key of its own or an earlier frame. */
  ghost predicate Unshadowed(stack: seq<Frame>) {
    forall i, j, k, l :: 0 <= i <= j < |stack| && k in stack[i].payload && l in stack[j].payload && MapAt(stack[i], k)
      ==> !Below(k, l)
  }

  /** Every listed key comes from a frame, and its cells from the frame's. */
  lemma {:induction false} CellsInFrom(f: HeapFrame, keys: seq<string>, i: nat)
    requires Complete(f) && (forall k :: k in keys ==> k in f.frame.payload) && i < |CellsIn(f, keys)|
    ensures CellsIn(f, keys)[i].key in f.frame.payload && CellsIn(f, keys)[i] == CellsOf(f, CellsIn(f, keys)[i].key)
    decreases |keys|
  {
    var n := |keys| - 1;
    if i < |CellsIn(f, keys[..n])| {
      CellsInFrom(f, keys[..n], i);
    }
  }

  /** The frame that the i-th key of the stack belongs to. */
  function OwnerOf(stack: seq<HeapFrame>, i: nat): nat
    requires (forall f :: f in stack ==> Complete(f)) && i < |StackKeys(stack)|
    decreases |stack|
  {
    var m := |stack| - 1;
    if i < |StackKeys(stack[..m])| then OwnerOf(stack[..m], i) else m
  }

  lemma {:induction false} OwnerFacts(stack: seq<HeapFrame>, i: nat)
    requires (forall f :: f in stack ==> Complete(f)) && i < |StackKeys(stack)|
    ensures var n, k := OwnerOf(stack, i), StackKeys(stack)[i];
            n < |stack| && k.key in stack[n].frame.payload && k == CellsOf(stack[n], k.key)
    decreases |stack|
  {
    hide CellsOf, FrameKeys;
    var m := |stack| - 1;
    var before := StackKeys(stack[..m]);
    if i < |before| {
      OwnerFacts(stack[..m], i);
      assert StackKeys(stack)[i] == before[i];
    } else {
      KeysFrom(stack[m], i - |before|);
    }
  }

  lemma KeysFrom(f: HeapFrame, i: nat)
    requires Complete(f) && i < |FrameKeys(f)|
    ensures FrameKeys(f)[i].key in f.frame.payload && FrameKeys(f)[i] == CellsOf(f, FrameKeys(f)[i].key)
  {
    CellsInFrom(f, PayloadKeys(f.frame), i);
  }

  lemma {:induction false} OwnersOrdered(stack: seq<HeapFrame>, i: nat, j: nat)
    requires (forall f :: f in stack ==> Complete(f)) && i <= j < |StackKeys(stack)|
    ensures OwnerOf(stack, i) <= OwnerOf(stack, j)
    decreases |stack|
  {
    var m := |stack| - 1;
    assert m >= 0;
    hide StackKeys;
    if j < |StackKeys(stack[..m])| {
      OwnersOrdered(stack[..m], i, j);
    } else if i < |StackKeys(stack[..m])| {
      OwnerFacts(stack[..m], i);
    }
  }

  lemma UnshadowedApart(stack: seq<HeapFrame>)
    requires (forall f :: f in stack ==> Complete(f)) && Unshadowed(FramesOf(stack))
    ensures Apart(StackKeys(stack))
  {
    hide StackKeys, OwnerOf;
    var fs, ks := FramesOf(stack), StackKeys(stack);
    forall i, j | 0 <= i < j < |ks| && MapValued(ks[i]) ensures !Below(ks[i].key, ks[j].key) {
      OwnerFacts(stack, i);
      OwnerFacts(stack, j);
      OwnersOrdered(stack, i, j);
      var a, b := OwnerOf(stack, i), OwnerOf(stack, j);
      assert fs[a] == stack[a].frame && fs[b] == stack[b].frame;
      assert MapAt(fs[a], ks[i].key) && ks[j].key in fs[b].payload;
    }
  }

  function WithCell(pay: StoreTrees.Shared, c: Cell, v: Value): StoreTrees.Shared {
    if c.Ref? then pay[c.addr := v] else pay
  }

  /** The table of the payload objects of a list of keys. */
  function TableOf(ks: seq<KeyCells>): StoreTrees.Shared {
    if ks == [] then map[]
    else
      var k := ks[|ks| - 1];
      WithCell(WithCell(TableOf(ks[..|ks| - 1]), k.rawCell, k.raw), k.effectiveCell, k.effective)
  }

  /** The cells of a key hold its values. */
  ghost predicate CellsRead(mem: Mem, k: KeyCells) {
    Reads(mem.nodes, k.rawCell, k.raw) && Reads(mem.nodes, k.effectiveCell, k.effective)
  }

  ghost predicate FrameReads(mem: Mem, f: HeapFrame) {
    Complete(f) && forall k :: k in f.frame.payload ==> CellsRead(mem, CellsOf(f, k))
  }

  /** Everything the table says is so. */
  lemma TableAdds(mem: Mem, pay: StoreTrees.Shared, c: Cell, v: Value)
    requires mem.Valid() && TableReads(mem, pay) && Reads(mem.nodes, c, v)
    ensures TableReads(mem, WithCell(pay, c, v))
    ensures Payload(c, WithCell(pay, c, v)) && ValueOf(c, WithCell(pay, c, v)) == v
    ensures forall a :: a in pay ==> a in WithCell(pay, c, v) && WithCell(pay, c, v)[a] == pay[a]
  {
    if c.Ref? && c.addr in pay {
      ReadsUnique(mem.nodes, c, v, pay[c.addr]);
    }
  }

  lemma ListedLater(k: KeyCells, pay: StoreTrees.Shared, pay': StoreTrees.Shared)
    requires Listed(k, pay) && forall a :: a in pay ==> a in pay' && pay'[a] == pay[a]
    ensures Listed(k, pay')
  {
  }

  lemma {:induction false} TableFacts(mem: Mem, ks: seq<KeyCells>)
    requires mem.Valid() && forall k :: k in ks ==> CellsRead(mem, k)
    ensures TableReads(mem, TableOf(ks)) && forall k :: k in ks ==> Listed(k, TableOf(ks))
    decreases |ks|
  {
    if ks != [] {
      var n := |ks| - 1;
      var k, before := ks[n], TableOf(ks[..n]);
      assert k in ks && ks == ks[..n] + [k];
      TableFacts(mem, ks[..n]);
      assert CellsRead(mem, k);
      var half := WithCell(before, k.rawCell, k.raw);
      hide Reads, WithCell, TableReads, Listed;
      TableAdds(mem, before, k.rawCell, k.raw);
      TableAdds(mem, half, k.effectiveCell, k.effective);
      forall j | j in ks ensures Listed(j, TableOf(ks)) {
        if j in ks[..n] {
          ListedLater(j, before, TableOf(ks));
        } else {
          BothListed(k, half, TableOf(ks));
        }
      }
    }
  }

  lemma BothListed(k: KeyCells, half: StoreTrees.Shared, pay: StoreTrees.Shared)
    requires Payload(k.rawCell, half) && ValueOf(k.rawCell, half) == k.raw
    requires Payload(k.effectiveCell, pay) && ValueOf(k.effectiveCell, pay) == k.effective
    requires forall a :: a in half ==> a in pay && pay[a] == half[a]
    ensures Listed(k, pay)
  {
  }

  /** The override state on the heap: the live maps, the captured base, and the
      frames in push order. */
  datatype HeapStack = HeapStack(mem: Mem, live: Roots, base: Roots, stack: seq<HeapFrame>, lastId: nat)

  ghost predicate Whole(stack: seq<HeapFrame>) { forall f :: f in stack ==> Complete(f) }

  function EffectiveValues(payload: map<string, Value>, effective: map<string, Value>): map<string, Value> {
    map k | k in payload :: EffectiveOf(payload, effective, k)
  }

  /** The cells of a frame are new trees that hold its values, apart from each other. */
  ghost predicate FreshFrame(mem: Mem, mem': Mem, f: HeapFrame) {
    var payload, effective := f.frame.payload, EffectiveValues(f.frame.payload, f.frame.effective);
    && Complete(f) && OwnsAll(mem'.nodes, f.raw, payload, map[]) && OwnsAll(mem'.nodes, f.effective, effective, map[])
    && FootAll(mem'.nodes, f.raw, payload, map[]) !! mem.nodes.Keys
    && FootAll(mem'.nodes, f.effective, effective, map[]) !! mem.nodes.Keys
    && FootAll(mem'.nodes, f.raw, payload, map[]) !! FootAll(mem'.nodes, f.effective, effective, map[])
  }

  /** The payload objects of a frame. */
  ghost function FrameFeet(mem: Mem, f: HeapFrame): set<nat> {
    FootAll(mem.nodes, f.raw, f.frame.payload, map[]) +
    FootAll(mem.nodes, f.effective, EffectiveValues(f.frame.payload, f.frame.effective), map[])
  }

  /** The payload of a frame shares nothing with three trees. */
  ghost predicate FrameApart(mem: Mem, f: HeapFrame, r: Roots, t: Trees) {
    forall w: Which :: FrameFeet(mem, f) !! Foot(mem.nodes, Ref(r.At(w)), Map(t.At(w)), map[])
  }

  /** A push that succeeds: the candidate's maps and the frame's payload are copies
      of their own, and the first push also copies the live maps as the base. */
  ghost predicate Pushed(h: HeapStack, now: Trees, after: Trees, f: HeapFrame, h': HeapStack) {
    && FreshRoots(h.mem, h'.mem, h'.live, after) && FreshFrame(h.mem, h'.mem, f)
    && h'.stack == h.stack + [f] && h'.lastId == f.frame.id == h.lastId + 1
    && (if h.stack == [] then FreshRoots(h.mem, h'.mem, h'.base, now) && FrameApart(h'.mem, f, h'.base, now)
        else h'.base == h.base)
  }

  /** Override: what the live maps hold is copied and the keys are set in order;
      a push that fails, or whose candidate is not valid, changes nothing. */
  ghost predicate PushStep(o: Settings, h: HeapStack, payload: map<string, Value>, effective: map<string, Value>,
      h': HeapStack) {
    exists v: Views :: ReadsRoots(h.mem, h.live, TreesOf(v)) &&
      match SetKeys(o, v, SortedKeys(payload.Keys), payload, effective)
      case None => h' == h
      case Some(v') =>
        if !o.valid(v'.env) then h' == h
        else h'.stack != [] && var f := h'.stack[|h'.stack| - 1];
             f.frame == Frame(h.lastId + 1, payload, effective) && Pushed(h, TreesOf(v), TreesOf(v'), f, h')
  }

  function Remaining(stack: seq<HeapFrame>, id: nat): seq<HeapFrame> {
    if stack == [] then []
    else Remaining(stack[..|stack| - 1], id) +
         if stack[|stack| - 1].frame.id == id then [] else [stack[|stack| - 1]]
  }

  /** The loop of a restore runs on copies of the base, with the payload objects of
      the frames as they are. */
  ghost predicate Replayed(h: HeapStack, rest: seq<HeapFrame>, base: Trees, mem: Mem, h': HeapStack) {
    && Whole(rest) && ReadsRoots(h.mem, h.base, base) && FreshRoots(h.mem, mem, h'.live, base)
    && mem.Valid() && AllMaps(mem, h'.live)
    && h'.mem == HeapKeys(mem, h'.live, StackKeys(rest))
    && h'.base == h.base && h'.stack == rest && h'.lastId == h.lastId
  }

  ghost predicate RestoreStep(h: HeapStack, id: nat, h': HeapStack) {
    if !InStack(FramesOf(h.stack), id) then h' == h
    else
      var rest := Remaining(h.stack, id);
      if rest == [] then h' == h.(live := h.base, stack := [])
      else exists base: Trees, mem: Mem :: Replayed(h, rest, base, mem, h')
  }

  ghost predicate HeapStep(o: Settings, h: HeapStack, a: Act, h': HeapStack) {
    match a
    case PushAct(payload, effective) => PushStep(o, h, payload, effective, h')
    case RestoreAct(id) => RestoreStep(h, id, h')
  }

  /** A run on the heap: the states before, between and after the acts. */
  ghost predicate HeapRun(o: Settings, hs: seq<HeapStack>, acts: seq<Act>) {
    |hs| == |acts| + 1 && forall i :: 0 <= i < |acts| ==> HeapStep(o, hs[i], acts[i], hs[i + 1])
  }

  /** The three maps are trees of their own. */
  ghost predicate TreeRoots(mem: Mem, r: Roots, t: Trees) {
    forall w: Which :: Owns(mem.nodes, Ref(r.At(w)), Map(t.At(w)), map[])
  }

  /** The heap holds the override state s: the live maps and the payloads read as
      its values, and what is captured, or will be, is a tree of its own. */
  ghost predicate Shows(h: HeapStack, s: Overrides.Shared) {
    && h.mem.Valid() && !s.closed && h.lastId == s.lastId && FramesOf(h.stack) == s.stack && Whole(h.stack)
    && ReadsRoots(h.mem, h.live, TreesOf(s.content.View()))
    && (if s.stack == [] then TreeRoots(h.mem, h.live, TreesOf(s.content.View()))
        else s.base.Some? && TreeRoots(h.mem, h.base, TreesOf(s.base.value.views)))
    && forall f :: f in h.stack ==> FrameReads(h.mem, f)
  }

  lemma RootsUnique(mem: Mem, r: Roots, t: Trees, u: Trees)
    requires ReadsRoots(mem, r, t) && ReadsRoots(mem, r, u)
    ensures t == u
  {
    hide Reads;
    forall w: Which ensures t.At(w) == u.At(w) {
      ReadsUnique(mem.nodes, Ref(r.At(w)), Map(t.At(w)), Map(u.At(w)));
    }
    assert t.At(Effective) == u.At(Effective) && t.At(Unresolved) == u.At(Unresolved) && t.At(Merged) == u.At(Merged);
  }

  lemma TreesRead(mem: Mem, r: Roots, t: Trees)
    requires TreeRoots(mem, r, t)
    ensures ReadsRoots(mem, r, t)
  {
    hide Reads, Owns;
    forall w: Which ensures Reads(mem.nodes, Ref(r.At(w)), Map(t.At(w))) {
      OwnsReads(mem.nodes, Ref(r.At(w)), Map(t.At(w)), map[]);
    }
  }

  lemma TreesStay(mem: Mem, mem': Mem, r: Roots, t: Trees)
    requires TreeRoots(mem, r, t) && Extends(mem, mem')
    ensures TreeRoots(mem', r, t)
  {
    hide Owns, Foot;
    forall w: Which ensures Owns(mem'.nodes, Ref(r.At(w)), Map(t.At(w)), map[]) {
      FootAllocated(mem.nodes, Ref(r.At(w)), Map(t.At(w)), map[]);
      OwnsFrame(mem.nodes, mem'.nodes, Ref(r.At(w)), Map(t.At(w)), map[]);
    }
  }

  lemma FreshAreTrees(mem: Mem, mem': Mem, r: Roots, t: Trees)
    requires FreshRoots(mem, mem', r, t)
    ensures TreeRoots(mem', r, t) && Extends(mem, mem')
  {
    hide Owns, Foot, Same;
  }

  lemma FramesStay(mem: Mem, mem': Mem, f: HeapFrame)
    requires FrameReads(mem, f) && Extends(mem, mem')
    ensures FrameReads(mem', f)
  {
    hide Reads;
    forall k | k in f.frame.payload ensures CellsRead(mem', CellsOf(f, k)) {
      var c := CellsOf(f, k);
      assert CellsRead(mem, c);
      ReadsStays(mem.nodes, mem'.nodes, c.rawCell, c.raw);
      ReadsStays(mem.nodes, mem'.nodes, c.effectiveCell, c.effective);
    }
  }

  lemma FreshFrameReads(mem: Mem, mem': Mem, f: HeapFrame)
    requires FreshFrame(mem, mem', f)
    ensures FrameReads(mem', f)
  {
    hide Reads, Owns, Foot, FootAll;
    forall k | k in f.frame.payload ensures CellsRead(mem', CellsOf(f, k)) {
      var c := CellsOf(f, k);
      assert EffectiveValues(f.frame.payload, f.frame.effective)[k] == c.effective;
      OwnsReads(mem'.nodes, c.rawCell, c.raw, map[]);
      OwnsReads(mem'.nodes, c.effectiveCell, c.effective, map[]);
    }
  }

  /** What a candidate does to the maps does not depend on the attribution. */
  lemma {:induction false} MapsOfSet(o: Settings, v: Views, u: Views, keys: seq<string>, payload: map<string, Value>,
      effective: map<string, Value>)
    requires (forall k :: k in keys ==> k in payload) && TreesOf(v) == TreesOf(u)
    ensures SetKeys(o, v, keys, payload, effective).Some? <==> SetKeys(o, u, keys, payload, effective).Some?
    ensures SetKeys(o, v, keys, payload, effective).Some? ==>
              TreesOf(SetKeys(o, v, keys, payload, effective).value) ==
              TreesOf(SetKeys(o, u, keys, payload, effective).value)
    decreases |keys|
  {
    hide SetPath, Parse, TrackValue;
    if keys != [] {
      assert keys[0] in keys;
      var e := EffectiveOf(payload, effective, keys[0]);
      var x, y := SetKey(o, v, keys[0], payload[keys[0]], e, "override"), SetKey(o, u, keys[0], payload[keys[0]], e,
          "override");
      if x.Some? {
        MapsOfSet(o, x.value, y.value, keys[1..], payload, effective);
      }
    }
  }

  lemma {:induction false} RemainingIs(stack: seq<HeapFrame>, id: nat)
    ensures FramesOf(Remaining(stack, id)) == Without(FramesOf(stack), id)
    ensures forall f :: f in Remaining(stack, id) ==> f in stack
    decreases |stack|
  {
    if stack != [] {
      var n := |stack| - 1;
      RemainingIs(stack[..n], id);
      assert FramesOf(stack)[..n] == FramesOf(stack[..n]);
      FramesSnoc(Remaining(stack[..n], id), stack[n]);
    }
  }

  lemma FramesSnoc(stack: seq<HeapFrame>, f: HeapFrame)
    ensures FramesOf(stack + [f]) == FramesOf(stack) + [f.frame]
    ensures FramesOf(stack + []) == FramesOf(stack)
  {
    assert stack + [] == stack;
  }

  lemma ShowsPush(o: Settings, h: HeapStack, s: Overrides.Shared, payload: map<string, Value>,
      effective: map<string, Value>, h': HeapStack)
    requires Shows(h, s) && PushStep(o, h, payload, effective, h')
    ensures Shows(h', Push(o, s, payload, effective).GetOr(s))
  {
    hide ReadsRoots, TreeRoots, SetKeys, FrameReads, Pushed, SensitiveAfter, StackKeys;
    var v: Views :| ReadsRoots(h.mem, h.live, TreesOf(v)) &&
        match SetKeys(o, v, SortedKeys(payload.Keys), payload, effective)
        case None => h' == h
        case Some(v') =>
          if !o.valid(v'.env) then h' == h
          else h'.stack != [] && var f := h'.stack[|h'.stack| - 1];
               f.frame == Frame(h.lastId + 1, payload, effective) && Pushed(h, TreesOf(v), TreesOf(v'), f, h');
    RootsUnique(h.mem, h.live, TreesOf(v), TreesOf(s.content.View()));
    MapsOfSet(o, v, s.content.View(), SortedKeys(payload.Keys), payload, effective);
    var c := SetKeys(o, v, SortedKeys(payload.Keys), payload, effective);
    if c.Some? && o.valid(c.value.env) {
      PushedIds(h, TreesOf(v), TreesOf(c.value), h'.stack[|h'.stack| - 1], h');
      hide Shows;
      PushedShows(h, s, TreesOf(c.value), h'.stack[|h'.stack| - 1], h', Push(o, s, payload, effective).value);
    }
  }

  lemma PushedIds(h: HeapStack, now: Trees, after: Trees, f: HeapFrame, h': HeapStack)
    requires Pushed(h, now, after, f, h')
    ensures h'.lastId == f.frame.id == h.lastId + 1
  {
    hide FreshRoots, FreshFrame;
  }

  /** A heap after a push shows a state after the same push. */
  lemma PushedShows(h: HeapStack, s: Overrides.Shared, after: Trees, f: HeapFrame, h': HeapStack, s': Overrides.Shared)
    requires Shows(h, s) && Pushed(h, TreesOf(s.content.View()), after, f, h')
    requires !s'.closed && s'.lastId == h'.lastId && s'.stack == s.stack + [f.frame]
    requires TreesOf(s'.content.View()) == after
    requires if s.stack == [] then s'.base.Some? && TreesOf(s'.base.value.views) == TreesOf(s.content.View())
             else s'.base == s.base
    ensures Shows(h', s')
  {
    hide ReadsRoots, TreeRoots, Extends, FrameReads, FreshRoots, FreshFrame;
    FramesSnoc(h.stack, f);
    FreshAreTrees(h.mem, h'.mem, h'.live, after);
    TreesRead(h'.mem, h'.live, after);
    if h.stack == [] {
      FreshAreTrees(h.mem, h'.mem, h'.base, TreesOf(s.content.View()));
    } else {
      assert s.stack[0] == h.stack[0].frame;
      TreesStay(h.mem, h'.mem, h.base, TreesOf(s.base.value.views));
    }
    FreshFrameReads(h.mem, h'.mem, f);
    FreshFrameWhole(h.mem, h'.mem, f);
    forall g | g in h'.stack ensures FrameReads(h'.mem, g) {
      if g in h.stack {
        FramesStay(h.mem, h'.mem, g);
      }
    }
    ExtendsValid(h.mem, h'.mem);
  }

  lemma FreshFrameWhole(mem: Mem, mem': Mem, f: HeapFrame)
    requires FreshFrame(mem, mem', f)
    ensures Complete(f)
  {
  }

  lemma ExtendsValid(mem: Mem, mem': Mem)
    requires Extends(mem, mem')
    ensures mem.Valid() && mem'.Valid()
  {
  }

  lemma StackListed(mem: Mem, stack: seq<HeapFrame>)
    requires mem.Valid() && Whole(stack) && forall f :: f in stack ==> FrameReads(mem, f)
    ensures TableReads(mem, TableOf(StackKeys(stack)))
    ensures forall k :: k in StackKeys(stack) ==> Listed(k, TableOf(StackKeys(stack)))
  {
    hide StackKeys, TableReads, Listed, CellsRead, OwnerOf;
    var ks := StackKeys(stack);
    forall i | 0 <= i < |ks| ensures CellsRead(mem, ks[i]) {
      OwnerFacts(stack, i);
      assert FrameReads(mem, stack[OwnerOf(stack, i)]);
    }
    TableFacts(mem, ks);
  }

  lemma ShowsReplay(o: Settings, h: HeapStack, rest: seq<HeapFrame>, base: Trees, mem: Mem, v: Views, h': HeapStack)
    requires h.mem.Valid() && Replayed(h, rest, base, mem, h') && base == TreesOf(v) && Unshadowed(FramesOf(rest))
    requires forall f :: f in rest ==> FrameReads(h.mem, f)
    ensures Extends(h.mem, h'.mem) && ReadsRoots(h'.mem, h'.live, TreesOf(Replay(o, v, FramesOf(rest))))
  {
    hide Unshadowed, Extends, FrameReads, ReadsRoots, FreshRoots, StackKeys, Replay, HeapKeys, Apart, Listed, TableOf;
    UnshadowedApart(rest);
    StackListed(h.mem, rest);
    ReplayOnHeap(o, h.mem, mem, h'.live, v, StackKeys(rest), TableOf(StackKeys(rest)));
    StackIsReplay(o, v, rest);
  }

  lemma ShowsRestore(o: Settings, h: HeapStack, s: Overrides.Shared, id: nat, h': HeapStack)
    requires Shows(h, s) && Anchored(s) && RestoreStep(h, id, h')
    requires InStack(s.stack, id) ==> Unshadowed(Restore(o, s, id).stack)
    ensures Shows(h', Restore(o, s, id))
  {
    hide ReadsRoots, TreeRoots, Extends, FrameReads, Replayed, SensitiveAfter, StackKeys, Replay, Unshadowed;
    RemainingIs(h.stack, id);
    var rest := Remaining(h.stack, id);
    if InStack(s.stack, id) {
      assert s.stack != [];
      if rest == [] {
        TreesRead(h.mem, h.base, TreesOf(s.base.value.views));
      } else {
        var base: Trees, mem: Mem :| Replayed(h, rest, base, mem, h');
        var v := s.base.value.views;
        ReplayedFacts(h, rest, base, mem, h');
        TreesRead(h.mem, h.base, TreesOf(v));
        RootsUnique(h.mem, h.base, base, TreesOf(v));
        assert FramesOf(rest) != [];
        ShowsReplay(o, h, rest, base, mem, v, h');
        TreesStay(h.mem, h'.mem, h.base, TreesOf(v));
        ExtendsValid(h.mem, h'.mem);
        forall f | f in rest ensures FrameReads(h'.mem, f) {
          FramesStay(h.mem, h'.mem, f);
        }
      }
    }
  }

  lemma ReplayedFacts(h: HeapStack, rest: seq<HeapFrame>, base: Trees, mem: Mem, h': HeapStack)
    requires Replayed(h, rest, base, mem, h')
    ensures ReadsRoots(h.mem, h.base, base) && Whole(rest)
    ensures h'.base == h.base && h'.stack == rest && h'.lastId == h.lastId
  {
    hide ReadsRoots, FreshRoots, HeapKeys;
  }

  /** Whenever frames are replayed, none of their keys lies below a map-valued one. */
  ghost predicate ReplaysApart(o: Settings, s: Overrides.Shared, acts: seq<Act>)
    requires Wellformed(s)
  {
    forall n :: 0 <= n < |acts| && acts[n].RestoreAct? && InStack(Run(o, s, acts[..n]).stack, acts[n].id) ==>
      Unshadowed(Run(o, s, acts[..n + 1]).stack)
  }

  lemma RunPrefix(o: Settings, s: Overrides.Shared, acts: seq<Act>, n: nat)
    requires Wellformed(s) && n < |acts|
    ensures Anchored(Run(o, s, acts[..n]))
    ensures Run(o, s, acts[..n + 1]) == Apply(o, Run(o, s, acts[..n]), acts[n])
  {
    hide Apply;
    assert acts[..n + 1][..n] == acts[..n];
  }

  /** The heap shows the state of Overrides.Run after every act. */
  lemma {:induction false} HeapShowsRun(o: Settings, s: Overrides.Shared, acts: seq<Act>, hs: seq<HeapStack>, n: nat)
    requires Wellformed(s) && HeapRun(o, hs, acts) && Shows(hs[0], s) && ReplaysApart(o, s, acts) && n <= |acts|
    ensures Shows(hs[n], Run(o, s, acts[..n]))
  {
    hide Shows, Unshadowed, PushStep, RestoreStep, Push, Restore, Run;
    if n == 0 {
      EmptyRun(o, s, acts);
    } else {
      HeapShowsRun(o, s, acts, hs, n - 1);
      RunPrefix(o, s, acts, n - 1);
      var before := Run(o, s, acts[..n - 1]);
      assert HeapStep(o, hs[n - 1], acts[n - 1], hs[n]);
      match acts[n - 1] {
        case PushAct(payload, effective) => ShowsPush(o, hs[n - 1], before, payload, effective, hs[n]);
        case RestoreAct(id) => ShowsRestore(o, hs[n - 1], before, id, hs[n]);
      }
    }
  }

  lemma EmptyRun(o: Settings, s: Overrides.Shared, acts: seq<Act>)
    requires Wellformed(s)
    ensures Run(o, s, acts[..0]) == s
  {
  }

  /** Before the first push, and after the last restore, the maps are the same. */
  lemma {:induction false} EmptyIsBase(o: Settings, s: Overrides.Shared, acts: seq<Act>)
    requires Wellformed(s) && s.stack == []
    ensures var r := Run(o, s, acts);
            if r.stack == [] then r.content.View() == s.content.View()
            else r.base.Some? && r.base.value.views == s.content.View()
    decreases |acts|
  {
    hide SetKeys, SensitiveAfter, Replay, Without, Wellformed;
    if acts != [] {
      var n := |acts| - 1;
      EmptyIsBase(o, s, acts[..n]);
      assert acts[..n + 1] == acts;
      RunPrefix(o, s, acts, n);
    }
  }

  /** Overrides.AnyOrder on the heap: after any run of pushes and restores, in any
      order, that never replays a key below a map-valued one, the live objects read
      as the maps before the run with exactly the surviving frames replayed in push
      order. */
  lemma AnyOrderOnHeap(o: Settings, s: Overrides.Shared, acts: seq<Act>, hs: seq<HeapStack>)
    requires Wellformed(s) && s.stack == [] && HeapRun(o, hs, acts) && Shows(hs[0], s) && ReplaysApart(o, s, acts)
    ensures var h := hs[|acts|];
            && (forall id :: InStack(FramesOf(h.stack), id) <==> Survives(o, s, acts, id))
            && ReadsRoots(h.mem, h.live, TreesOf(Run(o, s, acts).content.View()))
            && ReadsRoots(h.mem, h.live, TreesOf(Replay(o, s.content.View(), FramesOf(h.stack))))
  {
    assert !s.closed;
    HeapShowsRun(o, s, acts, hs, |acts|);
    assert acts[..|acts|] == acts;
    assert hs[|acts|].stack != [] ==> FramesOf(hs[|acts|].stack) != [];
    NoFrames(o, s.content.View(), hs[|acts|].stack);
    hide ReadsRoots, TreeRoots, InStack, Survives, Replay, Run, FramesOf, HeapStep;
    AnyOrder(o, s, acts);
    EmptyIsBase(o, s, acts);
    forall id ensures InStack(Run(o, s, acts).stack, id) <==> Survives(o, s, acts, id) {
      Survivors(o, s, acts, id);
    }
  }

  lemma NoFrames(o: Settings, v: Views, stack: seq<HeapFrame>)
    ensures stack == [] ==> Replay(o, v, FramesOf(stack)) == v
  {
  }

  lemma CellsSnoc(f: HeapFrame, keys: seq<string>, i: nat)
    requires Complete(f) && i < |keys| && forall k :: k in keys ==> k in f.frame.payload
    ensures keys[i] in f.frame.payload && forall k :: k in keys[..i + 1] ==> k in f.frame.payload
    ensures CellsIn(f, keys[..i + 1]) == CellsIn(f, keys[..i]) + [CellsOf(f, keys[i])]
  {
    assert keys[..i + 1][..i] == keys[..i];
    assert keys[i] in keys;
  }

  lemma KeysSnoc(mem: Mem, r: Roots, ks: seq<KeyCells>, k: KeyCells)
    requires mem.Valid() && AllMaps(mem, r)
    ensures HeapKeys(mem, r, ks + [k]) == HeapKey(HeapKeys(mem, r, ks), r, k)
  {
    hide HeapKey;
    assert (ks + [k])[..|ks|] == ks;
  }

  lemma StackSnoc(stack: seq<HeapFrame>, i: nat)
    requires Whole(stack) && i < |stack|
    ensures Complete(stack[i]) && Whole(stack[..i]) && Whole(stack[..i + 1])
    ensures StackKeys(stack[..i + 1]) == StackKeys(stack[..i]) + FrameKeys(stack[i])
  {
    assert stack[..i + 1][..i] == stack[..i];
  }

  /** One key: the three writes of the loop body. */
  method ReplayOne(heap: Heap, r: Roots, k: KeyCells)
    requires heap.mem.Valid() && AllMaps(heap.mem, r)
    modifies heap
    ensures heap.mem == HeapKey(old(heap.mem), r, k)
  {
    hide HeapSet, Parse;
    var e := heap.Set(r.env, k.key, k.effectiveCell);
    if e.Err? {
      return;
    }
    var u := heap.Set(r.raw, k.key, k.rawCell);
    if u.Err? {
      return;
    }
    var _ := heap.Set(r.merged, k.key, k.rawCell);
  }

  /** The loops of a restore over the surviving frames and their sorted keys. */
  method ReplayFrames(heap: Heap, r: Roots, stack: seq<HeapFrame>)
    requires heap.mem.Valid() && AllMaps(heap.mem, r) && Whole(stack)
    modifies heap
    ensures heap.mem == HeapKeys(old(heap.mem), r, StackKeys(stack))
  {
    hide HeapKey, StackKeys, CellsIn, HeapKeys, CellsOf;
    ghost var mem := heap.mem;
    NoKeys(mem, r, stack);
    for i := 0 to |stack|
      invariant heap.mem.Valid() && AllMaps(heap.mem, r)
      invariant heap.mem == HeapKeys(mem, r, StackKeys(stack[..i]))
    {
      var f, keys := stack[i], PayloadKeys(stack[i].frame);
      StackSnoc(stack, i);
      ghost var done := StackKeys(stack[..i]);
      NoCells(f, keys, done);
      for j := 0 to |keys|
        invariant heap.mem.Valid() && AllMaps(heap.mem, r)
        invariant forall k :: k in keys[..j] ==> k in f.frame.payload
        invariant heap.mem == HeapKeys(mem, r, done + CellsIn(f, keys[..j]))
      {
        CellsSnoc(f, keys, j);
        KeysSnoc(mem, r, done + CellsIn(f, keys[..j]), CellsOf(f, keys[j]));
        assert done + CellsIn(f, keys[..j + 1]) == done + CellsIn(f, keys[..j]) + [CellsOf(f, keys[j])];
        ReplayOne(heap, r, CellsOf(f, keys[j]));
      }
      assert keys[..|keys|] == keys;
    }
    assert stack[..|stack|] == stack;
  }

  lemma NoKeys(mem: Mem, r: Roots, stack: seq<HeapFrame>)
    requires mem.Valid() && AllMaps(mem, r)
    ensures HeapKeys(mem, r, StackKeys(stack[..0])) == mem
  {
  }

  lemma NoCells(f: HeapFrame, keys: seq<string>, done: seq<KeyCells>)
    requires Complete(f)
    ensures done + CellsIn(f, keys[..0]) == done
  {
  }
}
