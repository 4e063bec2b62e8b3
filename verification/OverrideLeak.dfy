/** What the loop that does not copy can do: a frame outlived by one of its keys,
    and that every step of the heap machine can be taken. */
module OverrideLeak {
  import opened Values
  import opened Paths
  import opened Store
  import opened StoreTrees
  import opened SharedObjects
  import opened Snapshots
  import opened Overrides
  import opened OverrideHeap
  import opened OverrideHeapRuns
  import PayloadWear

  lemma ExtendsOn(mem: Mem, mem1: Mem, mem2: Mem)
    requires Extends(mem, mem1) && Extends(mem1, mem2)
    ensures Extends(mem, mem2)
  {
  }

  /** A new object with the given entries. */
  lemma AllocEntries(mem: Mem, m: map<string, Cell>, t: Tree) returns (mem': Mem, a: nat)
    requires mem.Valid() && OwnsAll(mem.nodes, m, t, map[])
    ensures Extends(mem, mem') && a !in mem.nodes && Owns(mem'.nodes, Ref(a), Map(t), map[])
    ensures Foot(mem'.nodes, Ref(a), Map(t), map[]) == {a} + FootAll(mem.nodes, m, t, map[])
  {
    a := mem.next;
    mem' := Mem(mem.nodes[a := Entries(m)], a + 1);
    AllAllocated(mem.nodes, m, t);
    OwnsAllFrame(mem.nodes, mem'.nodes, m, t, map[]);
    hide OwnsAll, FootAll, Owns, Foot;
    StoreTrees.Fold(mem'.nodes, a, t, map[]);
  }

  /** There is a new tree for every value: what a deep copy makes. */
  lemma {:induction false} Plant(mem: Mem, v: Value) returns (mem': Mem, c: Cell)
    requires mem.Valid()
    ensures Extends(mem, mem') && Owns(mem'.nodes, c, v, map[])
    ensures Foot(mem'.nodes, c, v, map[]) !! mem.nodes.Keys
    decreases v, 1, 0
  {
    if v.Map? {
      var mem1, m := PlantAll(mem, v.entries, v.entries.Keys);
      assert Restricted(v.entries, v.entries.Keys) == v.entries;
      var mem2, a := AllocEntries(mem1, m, v.entries);
      OnlyOld(mem, mem1, a);
      ExtendsOn(mem, mem1, mem2);
      mem', c := mem2, Ref(a);
    } else {
      mem', c := mem, Leaf(v);
    }
  }

  lemma OnlyOld(mem: Mem, mem1: Mem, a: nat)
    requires Extends(mem, mem1) && a !in mem1.nodes
    ensures a !in mem.nodes
  {
  }

  function Restricted(t: Tree, keys: set<string>): Tree { map k | k in t && k in keys :: t[k] }

  lemma {:induction false} PlantAll(mem: Mem, t: Tree, keys: set<string>) returns (mem': Mem, m: map<string, Cell>)
    requires mem.Valid() && keys <= t.Keys
    ensures Extends(mem, mem') && OwnsAll(mem'.nodes, m, Restricted(t, keys), map[])
    ensures FootAll(mem'.nodes, m, Restricted(t, keys), map[]) !! mem.nodes.Keys
    decreases Map(t), 0, |keys|
  {
    mem', m := mem, map[];
    if keys != {} {
      var k :| k in keys;
      var rest := Restricted(t, keys - {k});
      var mem1, m1 := PlantAll(mem, t, keys - {k});
      var mem2, c := Plant(mem1, t[k]);
      hide Owns, OwnsAll, Foot, FootAll;
      AllAllocated(mem1.nodes, m1, rest);
      OwnsAllFrame(mem1.nodes, mem2.nodes, m1, rest, map[]);
      ExtendsOn(mem, mem1, mem2);
      StoreTrees.Extend(mem2.nodes, m1, rest, k, c, t[k], map[]);
      assert Restricted(t, keys) == rest[k := t[k]];
      mem', m := mem2, m1[k := c];
    }
  }

  /** A tree that is new in mem' with respect to mem, and stays so. */
  ghost predicate NewTree(mem: Mem, mem': Mem, root: nat, t: Tree) {
    Owns(mem'.nodes, Ref(root), Map(t), map[]) && Foot(mem'.nodes, Ref(root), Map(t), map[]) !! mem.nodes.Keys
  }

  lemma NewTreeStays(mem: Mem, mem1: Mem, mem2: Mem, root: nat, t: Tree)
    requires NewTree(mem, mem1, root, t) && Extends(mem1, mem2)
    ensures NewTree(mem, mem2, root, t)
    ensures Foot(mem2.nodes, Ref(root), Map(t), map[]) == Foot(mem1.nodes, Ref(root), Map(t), map[]) <= mem1.nodes.Keys
  {
    hide Owns, Foot;
    FootAllocated(mem1.nodes, Ref(root), Map(t), map[]);
    OwnsFrame(mem1.nodes, mem2.nodes, Ref(root), Map(t), map[]);
  }

  lemma PlantRoot(mem: Mem, t: Tree) returns (mem': Mem, root: nat)
    requires mem.Valid()
    ensures Extends(mem, mem') && NewTree(mem, mem', root, t)
  {
    var c;
    mem', c := Plant(mem, Map(t));
    if c.NilMap? {
      root := mem'.next;
      EmptyEntries(mem', t);
      mem', root := AllocEntries(mem', map[], t);
    } else {
      root := c.addr;
    }
  }

  lemma EmptyEntries(mem: Mem, t: Tree)
    requires t == map[]
    ensures OwnsAll(mem.nodes, map[], t, map[]) && FootAll(mem.nodes, map[], t, map[]) == {}
  {
  }

  lemma NewTreeOlder(mem: Mem, mem1: Mem, mem2: Mem, root: nat, t: Tree)
    requires Extends(mem, mem1) && NewTree(mem1, mem2, root, t)
    ensures NewTree(mem, mem2, root, t)
  {
    hide Owns, Foot;
  }

  lemma ThreeFresh(mem: Mem, mem': Mem, r: Roots, t: Trees)
    requires Extends(mem, mem')
    requires NewTree(mem, mem', r.env, t.env) && NewTree(mem, mem', r.raw, t.raw)
    requires NewTree(mem, mem', r.merged, t.merged)
    requires Foot(mem'.nodes, Ref(r.env), Map(t.env), map[]) !! Foot(mem'.nodes, Ref(r.raw), Map(t.raw), map[])
    requires Foot(mem'.nodes, Ref(r.env), Map(t.env), map[]) !! Foot(mem'.nodes, Ref(r.merged), Map(t.merged), map[])
    requires Foot(mem'.nodes, Ref(r.raw), Map(t.raw), map[]) !! Foot(mem'.nodes, Ref(r.merged), Map(t.merged), map[])
    ensures FreshRoots(mem, mem', r, t)
  {
    hide Owns, Foot, Extends;
  }

  /** A later new tree is apart from an earlier one. */
  lemma LaterApart(mem: Mem, mem1: Mem, mem2: Mem, a: nat, x: Tree, b: nat, y: Tree)
    requires NewTree(mem, mem1, a, x) && Extends(mem1, mem2) && NewTree(mem1, mem2, b, y)
    ensures NewTree(mem, mem2, a, x)
    ensures Foot(mem2.nodes, Ref(a), Map(x), map[]) !! Foot(mem2.nodes, Ref(b), Map(y), map[])
  {
    NewTreeStays(mem, mem1, mem2, a, x);
    hide Owns, Foot, Extends;
  }

  lemma PlantRoots(mem: Mem, t: Trees) returns (mem': Mem, r: Roots)
    requires mem.Valid()
    ensures FreshRoots(mem, mem', r, t)
  {
    hide NewTree, Foot, FreshRoots, Same;
    var mem1, e := PlantRoot(mem, t.env);
    var mem2, u := PlantRoot(mem1, t.raw);
    var mem3, m := PlantRoot(mem2, t.merged);
    mem', r := mem3, Roots(e, u, m);
    ExtendsOn(mem, mem1, mem2);
    ExtendsOn(mem, mem2, mem3);
    ExtendsOn(mem1, mem2, mem3);
    hide Extends;
    NewTreeStays(mem, mem1, mem2, e, t.env);
    NewTreeStays(mem1, mem2, mem3, u, t.raw);
    LaterApart(mem, mem1, mem3, e, t.env, u, t.raw);
    LaterApart(mem, mem2, mem3, e, t.env, m, t.merged);
    LaterApart(mem1, mem2, mem3, u, t.raw, m, t.merged);
    NewTreeOlder(mem, mem1, mem3, u, t.raw);
    NewTreeOlder(mem, mem2, mem3, m, t.merged);
    ThreeFresh(mem, mem3, r, t);
  }

  /** New cells for the payload of a frame. */
  lemma PlantFrame(mem: Mem, frame: Frame) returns (mem': Mem, f: HeapFrame)
    requires mem.Valid()
    ensures Extends(mem, mem') && f.frame == frame && FreshFrame(mem, mem', f)
  {
    var p, e := frame.payload, EffectiveValues(frame.payload, frame.effective);
    var mem1, raw := PlantAll(mem, p, p.Keys);
    assert Restricted(p, p.Keys) == p;
    var mem2, effective := PlantAll(mem1, e, e.Keys);
    assert Restricted(e, e.Keys) == e;
    mem', f := mem2, HeapFrame(frame, raw, effective);
    AllAllocated(mem1.nodes, raw, p);
    OwnsAllFrame(mem1.nodes, mem2.nodes, raw, p, map[]);
    ExtendsOn(mem, mem1, mem2);
    SameKeys(mem2.nodes, raw, p);
    SameKeys(mem2.nodes, effective, e);
    hide OwnsAll, FootAll;
  }

  lemma SameKeys(h: Nodes, m: map<string, Cell>, t: Tree)
    requires OwnsAll(h, m, t, map[])
    ensures m.Keys == t.Keys
  {
  }

  lemma FreshRootsStay(mem: Mem, mem1: Mem, mem2: Mem, r: Roots, t: Trees)
    requires FreshRoots(mem, mem1, r, t) && Extends(mem1, mem2)
    ensures FreshRoots(mem, mem2, r, t)
  {
    ExtendsOn(mem, mem1, mem2);
    hide Owns, Foot, Extends;
    forall w: Which
      ensures Owns(mem2.nodes, Ref(r.At(w)), Map(t.At(w)), map[])
      ensures Foot(mem2.nodes, Ref(r.At(w)), Map(t.At(w)), map[]) == Foot(mem1.nodes, Ref(r.At(w)), Map(t.At(w)), map[])
    {
      NewTreeStays(mem, mem1, mem2, r.At(w), t.At(w));
    }
  }

  lemma FreshRootsOlder(mem: Mem, mem1: Mem, mem2: Mem, r: Roots, t: Trees)
    requires Extends(mem, mem1) && FreshRoots(mem1, mem2, r, t)
    ensures FreshRoots(mem, mem2, r, t)
  {
    ExtendsOn(mem, mem1, mem2);
    hide Owns, Foot;
  }

  lemma FreshFrameStays(mem: Mem, mem1: Mem, mem2: Mem, f: HeapFrame)
    requires FreshFrame(mem, mem1, f) && Extends(mem1, mem2)
    ensures FreshFrame(mem, mem2, f) && FrameFeet(mem2, f) == FrameFeet(mem1, f) <= mem1.nodes.Keys
  {
    var p, e := f.frame.payload, EffectiveValues(f.frame.payload, f.frame.effective);
    AllAllocated(mem1.nodes, f.raw, p);
    AllAllocated(mem1.nodes, f.effective, e);
    hide OwnsAll, FootAll;
    OwnsAllFrame(mem1.nodes, mem2.nodes, f.raw, p, map[]);
    OwnsAllFrame(mem1.nodes, mem2.nodes, f.effective, e, map[]);
  }

  lemma PlantedApart(mem1: Mem, mem2: Mem, mem3: Mem, f: HeapFrame, base: Roots, t: Trees)
    requires Extends(mem1, mem2) && FreshRoots(mem2, mem3, base, t)
    requires FrameFeet(mem3, f) <= mem1.nodes.Keys
    ensures FrameApart(mem3, f, base, t)
  {
    hide Foot, FrameFeet, Owns;
    forall w: Which ensures FrameFeet(mem3, f) !! Foot(mem3.nodes, Ref(base.At(w)), Map(t.At(w)), map[]) {
    }
  }

  /** Every push can be taken where the live maps can be read. */
  lemma CanPush(o: Settings, h: HeapStack, v: Views, payload: map<string, Value>, effective: map<string, Value>)
    returns (h': HeapStack)
    requires h.mem.Valid() && ReadsRoots(h.mem, h.live, TreesOf(v))
    ensures PushStep(o, h, payload, effective, h')
  {
    hide ReadsRoots, FreshRoots, FreshFrame, Extends, SetKeys;
    h' := h;
    var c := SetKeys(o, v, SortedKeys(payload.Keys), payload, effective);
    if c.Some? && o.valid(c.value.env) {
      var mem1, f := PlantFrame(h.mem, Frame(h.lastId + 1, payload, effective));
      ExtendsValid(h.mem, mem1);
      var mem2, live := PlantRoots(mem1, TreesOf(c.value));
      FreshAreTrees(mem1, mem2, live, TreesOf(c.value));
      ExtendsValid(mem1, mem2);
      var mem3, base := PlantRoots(mem2, TreesOf(v));
      FreshAreTrees(mem2, mem3, base, TreesOf(v));
      ExtendsOn(h.mem, mem1, mem2);
      ExtendsOn(mem1, mem2, mem3);
      FreshFrameStays(h.mem, mem1, mem3, f);
      FreshRootsOlder(h.mem, mem1, mem2, live, TreesOf(c.value));
      FreshRootsStay(h.mem, mem2, mem3, live, TreesOf(c.value));
      FreshRootsOlder(h.mem, mem2, mem3, base, TreesOf(v));
      h' := HeapStack(mem3, live, if h.stack == [] then base else h.base, h.stack + [f], h.lastId + 1);
      PlantedApart(mem1, mem2, mem3, f, base, TreesOf(v));
      assert Pushed(h, TreesOf(v), TreesOf(c.value), f, h');
    }
  }

  lemma RootsAreMaps(mem: Mem, mem': Mem, r: Roots, t: Trees)
    requires FreshRoots(mem, mem', r, t)
    ensures mem'.Valid() && AllMaps(mem', r)
  {
    hide Foot, Same, OwnsAll, FootAll;
    assert Owns(mem'.nodes, Ref(r.At(Effective)), Map(t.At(Effective)), map[]);
    assert Owns(mem'.nodes, Ref(r.At(Unresolved)), Map(t.At(Unresolved)), map[]);
    assert Owns(mem'.nodes, Ref(r.At(Merged)), Map(t.At(Merged)), map[]);
  }

  /** Every restore can be taken where the captured base can be read. */
  lemma CanRestore(h: HeapStack, base: Trees, id: nat) returns (h': HeapStack)
    requires h.mem.Valid() && Whole(h.stack) && (h.stack != [] ==> ReadsRoots(h.mem, h.base, base))
    ensures RestoreStep(h, id, h')
  {
    hide ReadsRoots, FreshRoots, HeapKeys, StackKeys;
    RemainingIs(h.stack, id);
    var rest := Remaining(h.stack, id);
    if !InStack(FramesOf(h.stack), id) {
      h' := h;
    } else if rest == [] {
      h' := h.(live := h.base, stack := []);
    } else {
      var mem, live := PlantRoots(h.mem, base);
      RootsAreMaps(h.mem, mem, live, base);
      h' := HeapStack(HeapKeys(mem, live, StackKeys(rest)), live, h.base, rest, h.lastId);
      assert Replayed(h, rest, base, mem, h');
    }
  }

  /** As long as the heap shows the state, every act can be taken. */
  lemma CanStep(o: Settings, h: HeapStack, s: Overrides.Shared, a: Act) returns (h': HeapStack)
    requires Shows(h, s)
    ensures HeapStep(o, h, a, h')
  {
    hide ReadsRoots, TreeRoots, FrameReads, PushStep, RestoreStep;
    match a {
      case PushAct(payload, effective) =>
        h' := CanPush(o, h, s.content.View(), payload, effective);
      case RestoreAct(id) =>
        if s.stack == [] {
          h' := CanRestore(h, Trees(map[], map[], map[]), id);
        } else {
          TreesRead(h.mem, h.base, TreesOf(s.base.value.views));
          h' := CanRestore(h, TreesOf(s.base.value.views), id);
        }
    }
  }

  /** The same tree in all three maps. */
  function All(t: Tree): Trees { Trees(t, t, t) }

  lemma EmptyRoots(mem0: Mem, mem: Mem, r: Roots)
    requires FreshRoots(mem0, mem, r, All(map[]))
    ensures forall a :: a in {r.env, r.raw, r.merged} ==>
              a in mem.nodes && a !in mem0.nodes && mem.nodes[a] == Entries(map[])
    ensures r.env != r.raw && r.env != r.merged && r.raw != r.merged
  {
    forall w: Which ensures r.At(w) in mem.nodes && r.At(w) !in mem0.nodes && mem.nodes[r.At(w)] == Entries(map[])
      ensures Foot(mem.nodes, Ref(r.At(w)), Map(All(map[]).At(w)), map[]) == {r.At(w)}
    {
      assert Owns(mem.nodes, Ref(r.At(w)), Map(All(map[]).At(w)), map[]);
    }
    hide Owns, Foot;
    assert r.At(Effective) == r.env && r.At(Unresolved) == r.raw && r.At(Merged) == r.merged;
  }

  const ONLY_X: Tree := map["x" := Number(1)]

  const WITH_Y: Tree := map["x" := Number(1), "y" := Number(2)]

  lemma ReadsOnlyX(h: Nodes, a: nat)
    requires Reads(h, Ref(a), Map(ONLY_X))
    ensures a in h && h[a] == Entries(map["x" := Leaf(Number(1))])
  {
    assert ONLY_X.Keys == {"x"};
    var m := h[a].m;
    assert Reads(h, m["x"], ONLY_X["x"]);
    assert m == map["x" := Leaf(Number(1))];
  }

  lemma KeysOfTwo()
    ensures Parse("a") == Some(["a"]) && Parse("z") == Some(["z"]) && Parse("a.y") == Some(["a", "y"])
  {
    SplitOfDotFree("a");
    SplitOfDotFree("z");
    SplitOfDotFree("y");
    SplitOfConcat("a", "y");
    assert "a" + "." + "y" == "a.y" && ["a"] + ["y"] == ["a", "y"];
  }

  /** A map at "a", in one key. */
  function KeyA(rawCell: nat, effectiveCell: nat): KeyCells {
    KeyCells("a", Map(ONLY_X), Map(ONLY_X), Ref(rawCell), Ref(effectiveCell))
  }

  const KEY_Y := KeyCells("a.y", Number(2), Number(2), Leaf(Number(2)), Leaf(Number(2)))

  /** The three roots hold one entry each. */
  ghost predicate Holding(mem: Mem, r: Roots, ra: nat, ea: nat) {
    && AllMaps(mem, r)
    && mem.nodes[r.env].m == map["a" := Ref(ea)]
    && mem.nodes[r.raw].m == map["a" := Ref(ra)] == mem.nodes[r.merged].m
  }

  lemma PlaceA(mem0: Mem, mem: Mem, r: Roots, ra: nat, ea: nat)
    requires FreshRoots(mem0, mem, r, All(map[])) && ra in mem0.nodes && ea in mem0.nodes
    ensures mem.Valid() && AllMaps(mem, r)
    ensures var mem' := HeapKey(mem, r, KeyA(ra, ea)); Holding(mem', r, ra, ea) && Extends(mem0, mem')
  {
    EmptyRoots(mem0, mem, r);
    KeysOfTwo();
    hide Owns, Foot, Parse;
  }

  /** The second key is written into the objects of the first. */
  lemma PlaceY(mem: Mem, r: Roots, ra: nat, ea: nat, x: map<string, Cell>)
    requires mem.Valid() && Holding(mem, r, ra, ea)
    requires ra in mem.nodes && ea in mem.nodes && mem.nodes[ra] == Entries(x) == mem.nodes[ea]
    requires ra != r.env && ra != r.raw && ra != r.merged && ea != r.env && ea != r.raw && ea != r.merged
    ensures HeapKey(mem, r, KEY_Y) ==
            mem.(nodes := mem.nodes[ea := Entries(x["y" := Leaf(Number(2))])][ra := Entries(x["y" := Leaf(Number(2))])])
  {
    KeysOfTwo();
    hide Parse;
    var c := Leaf(Number(2));
    SetInto(mem, r.env, ea, c);
    var mem1 := mem.Put(ea, "y", c);
    SetInto(mem1, r.raw, ra, c);
    var mem2 := mem1.Put(ra, "y", c);
    SetInto(mem2, r.merged, ra, c);
    assert x["y" := c]["y" := c] == x["y" := c];
  }

  lemma SetInto(mem: Mem, root: nat, a: nat, c: Cell)
    requires mem.Valid() && mem.IsMap(root) && mem.IsMap(a) && "a" in mem.nodes[root].m
    requires mem.nodes[root].m["a"] == Ref(a)
    ensures HeapSet(mem, root, ["a", "y"], c) == Some(mem.Put(a, "y", c))
  {
    var p: Path := ["a", "y"];
    assert p[1..] == ["y"];
  }

  lemma HoldingReads(mem: Mem, r: Roots, ra: nat, ea: nat, t: Tree)
    requires Holding(mem, r, ra, ea) && Reads(mem.nodes, Ref(ra), Map(t)) && Reads(mem.nodes, Ref(ea), Map(t))
    ensures ReadsRoots(mem, r, All(map["a" := Map(t)]))
  {
    var v: Tree := map["a" := Map(t)];
    forall w: Which ensures Reads(mem.nodes, Ref(r.At(w)), Map(v)) {
      assert mem.nodes[r.At(w)].m.Keys == {"a"} == v.Keys;
    }
  }

  lemma ReadsWithY(h: Nodes, a: nat)
    requires a in h && h[a] == Entries(map["x" := Leaf(Number(1)), "y" := Leaf(Number(2))])
    ensures Reads(h, Ref(a), Map(WITH_Y))
  {
    assert WITH_Y.Keys == {"x", "y"};
  }

  lemma KeysTwice(mem: Mem, r: Roots, k: KeyCells, l: KeyCells)
    requires mem.Valid() && AllMaps(mem, r)
    ensures HeapKeys(mem, r, [k]) == HeapKey(mem, r, k)
    ensures HeapKeys(mem, r, [k, l]) == HeapKey(HeapKey(mem, r, k), r, l)
  {
    hide HeapKey;
    assert [k][..0] == [] && [k, l][..1] == [k];
  }

  lemma HoldingStays(mem: Mem, mem': Mem, r: Roots, ra: nat, ea: nat)
    requires Holding(mem, r, ra, ea)
    requires forall b :: b == r.env || b == r.raw || b == r.merged ==> b in mem'.nodes && mem'.nodes[b] == mem.nodes[b]
    ensures Holding(mem', r, ra, ea)
  {
  }

  lemma ShowsY(mem: Mem, r: Roots, ra: nat, ea: nat)
    requires mem.Valid() && Holding(mem, r, ra, ea) && AllMaps(mem, r)
    requires ra in mem.nodes && ea in mem.nodes
    requires mem.nodes[ra] == Entries(map["x" := Leaf(Number(1))]) == mem.nodes[ea]
    requires ra != r.env && ra != r.raw && ra != r.merged && ea != r.env && ea != r.raw && ea != r.merged
    ensures var mem' := HeapKey(mem, r, KEY_Y);
            && ReadsRoots(mem', r, All(map["a" := Map(WITH_Y)]))
            && Reads(mem'.nodes, Ref(ra), Map(WITH_Y)) && Reads(mem'.nodes, Ref(ea), Map(WITH_Y))
            && forall b :: b in mem.nodes && b != ra && b != ea ==> b in mem'.nodes && mem'.nodes[b] == mem.nodes[b]
  {
    hide Reads, HeapKey, ReadsRoots, Holding;
    PlaceY(mem, r, ra, ea, map["x" := Leaf(Number(1))]);
    var mem' := HeapKey(mem, r, KEY_Y);
    HoldingStays(mem, mem', r, ra, ea);
    assert map["x" := Leaf(Number(1))]["y" := Leaf(Number(2))] == map["x" := Leaf(Number(1)), "y" := Leaf(Number(2))];
    ReadsWithY(mem'.nodes, ra);
    ReadsWithY(mem'.nodes, ea);
    HoldingReads(mem', r, ra, ea, WITH_Y);
  }

  /** Both frames replayed together: the live maps are right, and the payload
      objects of the first have the second's leaf. */
  lemma ReplayBoth(mem0: Mem, mem: Mem, r: Roots, ra: nat, ea: nat)
    requires FreshRoots(mem0, mem, r, All(map[]))
    requires Reads(mem0.nodes, Ref(ra), Map(ONLY_X)) && Reads(mem0.nodes, Ref(ea), Map(ONLY_X))
    ensures mem.Valid() && AllMaps(mem, r)
    ensures var mem' := HeapKeys(mem, r, [KeyA(ra, ea), KEY_Y]);
            && ReadsRoots(mem', r, All(map["a" := Map(WITH_Y)]))
            && Reads(mem'.nodes, Ref(ra), Map(WITH_Y)) && Reads(mem'.nodes, Ref(ea), Map(WITH_Y))
            && forall b :: b in mem0.nodes && b != ra && b != ea ==> b in mem'.nodes && mem'.nodes[b] == mem0.nodes[b]
  {
    ReadsOnlyX(mem0.nodes, ra);
    ReadsOnlyX(mem0.nodes, ea);
    EmptyRoots(mem0, mem, r);
    hide Reads, HeapKey, HeapKeys, ReadsRoots, FreshRoots, Holding;
    PlaceA(mem0, mem, r, ra, ea);
    KeysTwice(mem, r, KeyA(ra, ea), KEY_Y);
    var mem1 := HeapKey(mem, r, KeyA(ra, ea));
    assert mem1.nodes[ra] == mem0.nodes[ra] && mem1.nodes[ea] == mem0.nodes[ea];
    ShowsY(mem1, r, ra, ea);
  }

  /** The first frame replayed alone shows what its payload objects hold. */
  lemma ReplayFirst(mem0: Mem, mem: Mem, r: Roots, ra: nat, ea: nat, t: Tree)
    requires FreshRoots(mem0, mem, r, All(map[]))
    requires Reads(mem0.nodes, Ref(ra), Map(t)) && Reads(mem0.nodes, Ref(ea), Map(t))
    ensures mem.Valid() && AllMaps(mem, r)
    ensures ReadsRoots(HeapKeys(mem, r, [KeyA(ra, ea)]), r, All(map["a" := Map(t)]))
  {
    assert ra in mem0.nodes && ea in mem0.nodes;
    hide Reads, HeapKey, ReadsRoots, FreshRoots;
    PlaceA(mem0, mem, r, ra, ea);
    var mem1 := HeapKey(mem, r, KeyA(ra, ea));
    KeysTwice(mem, r, KeyA(ra, ea), KEY_Y);
    hide HeapKeys;
    ReadsStays(mem0.nodes, mem1.nodes, Ref(ra), Map(t));
    ReadsStays(mem0.nodes, mem1.nodes, Ref(ea), Map(t));
    HoldingReads(mem1, r, ra, ea, t);
  }

  lemma OneKeySorted(k: string)
    ensures SortedKeys({k}) == [k]
  {
    assert SortedKeys({k})[0] in {k};
  }

  /** An Override of one key. */
  function One(id: nat, k: string, v: Value): Frame { Frame(id, map[k := v], map[k := v]) }

  lemma KeysOfOne(f: HeapFrame, k: string, v: Value)
    requires f.frame.payload == map[k := v] == f.frame.effective && Complete(f)
    ensures StackKeys([f]) == FrameKeys(f) == [KeyCells(k, v, v, f.raw[k], f.effective[k])]
  {
    OneKeySorted(k);
    assert f.frame.payload.Keys == {k};
    assert [k][..0] == [] && [f][..0] == [];
    assert CellsIn(f, [k]) == CellsIn(f, []) + [CellsOf(f, k)];
    assert StackKeys([f]) == StackKeys([]) + FrameKeys(f);
  }

  lemma KeysOfBoth(f: HeapFrame, g: HeapFrame)
    requires Complete(f) && Complete(g)
    ensures StackKeys([f, g]) == StackKeys([f]) + StackKeys([g])
  {
    hide FrameKeys, Complete;
    assert [f, g][..1] == [f] && [f][..0] == [] && [g][..0] == [];
    assert StackKeys([f]) == StackKeys([]) + FrameKeys(f) && StackKeys([g]) == StackKeys([]) + FrameKeys(g);
  }

  /** An Override of one key that has the value in both forms. */
  function PushOne(k: string, v: Value): Act { PushAct(map[k := v], map[k := v]) }

  lemma SetOne(o: Settings, v: Views, k: string, x: Value, p: Path)
    requires Parse(k) == Some(p)
    requires SetPath(v.env, p, x).Some? && SetPath(v.raw, p, x).Some? && SetPath(v.merged, p, x).Some?
    ensures var r := SetKeys(o, v, SortedKeys(map[k := x].Keys), map[k := x], map[k := x]);
            && r.Some? && r.value.env == SetPath(v.env, p, x).value && r.value.raw == SetPath(v.raw, p, x).value
            && r.value.merged == SetPath(v.merged, p, x).value
  {
    hide SetPath, Parse, TrackValue;
    assert map[k := x].Keys == {k};
    OneKeySorted(k);
    assert [k][1..] == [];
  }

  /** A push of one key onto a state whose three maps hold t. */
  lemma PushOneIs(o: Settings, s: Overrides.Shared, k: string, x: Value, p: Path, t: Tree)
    requires Anchored(s) && !s.closed && (forall e :: o.valid(e)) && Parse(k) == Some(p)
    requires TreesOf(s.content.View()) == All(t) && SetPath(t, p, x).Some?
    ensures var r := Apply(o, s, PushOne(k, x));
            && !r.closed && r.stack == s.stack + [One(s.lastId + 1, k, x)] && r.lastId == s.lastId + 1
            && TreesOf(r.content.View()) == All(SetPath(t, p, x).value)
            && (if s.stack == [] then r.base.Some? && TreesOf(r.base.value.views) == All(t) else r.base == s.base)
  {
    hide SetPath, Parse, SetKeys, SensitiveAfter;
    SetOne(o, s.content.View(), k, x, p);
  }

  const A_X: Tree := map["a" := Map(ONLY_X)]

  const A_XY: Tree := map["a" := Map(WITH_Y)]

  /** What a stack with the map alone replays to. */
  lemma MapAlone(o: Settings, s: Overrides.Shared, id: nat, v: Views)
    requires TreesOf(v) == All(map[])
    ensures TreesOf(Replay(o, v, [One(id, "a", Map(ONLY_X))])) == All(A_X)
    ensures Unshadowed([One(id, "a", Map(ONLY_X))])
  {
    var f := One(id, "a", Map(ONLY_X));
    KeysOfTwo();
    OneKeySorted("a");
    assert f.payload.Keys == {"a"};
    assert [f][..0] == [] && ["a"][1..] == [];
    hide TrackValue, Parse;
    assert Replay(o, v, []) == v;
    assert Replay(o, v, [f]) == ReplayFrame(o, v, f);
    assert ReplayKeys(o, v, ["a"], f.payload, f.effective) == ReplayKey(o, v, "a", Map(ONLY_X), Map(ONLY_X));
  }

  const Z: Tree := map["z" := Number(0)]

  lemma SetsOfTwo()
    ensures SetPath(map[], ["a"], Map(ONLY_X)) == Some(A_X)
    ensures SetPath(A_X, ["a", "y"], Number(2)) == Some(A_XY)
    ensures SetPath(map[], ["z"], Number(0)) == Some(Z)
    ensures SetPath(Z, ["a"], Map(ONLY_X)) == Some(A_X + Z)
    ensures SetPath(A_X + Z, ["a", "y"], Number(2)) == Some(A_XY + Z)
  {
    assert ["a", "y"][1..] == ["y"];
    assert ONLY_X["y" := Number(2)] == WITH_Y;
    assert A_X["a" := Map(WITH_Y)] == A_XY && Z["a" := Map(ONLY_X)] == A_X + Z;
    assert (A_X + Z)["a" := Map(WITH_Y)] == A_XY + Z;
  }

  /** A state over empty base maps with the given frames. */
  ghost predicate Stacked(s: Overrides.Shared, frames: seq<Frame>, t: Tree) {
    && Anchored(s) && !s.closed && s.stack == frames && s.lastId == |frames| && TreesOf(s.content.View()) == All(t)
    && (frames != [] ==> TreesOf(s.base.value.views) == All(map[])) && (frames == [] ==> t == map[])
  }

  lemma PushStacked(o: Settings, s: Overrides.Shared, frames: seq<Frame>, t: Tree, k: string, x: Value, p: Path,
      t': Tree)
    requires Stacked(s, frames, t) && (forall e :: o.valid(e)) && Parse(k) == Some(p) && SetPath(t, p, x) == Some(t')
    ensures Stacked(Apply(o, s, PushOne(k, x)), frames + [One(|frames| + 1, k, x)], t')
  {
    hide SetPath, Parse, Apply, PushOne, One;
    PushOneIs(o, s, k, x, p, t);
  }

  /** Restoring one frame of several leaves the others over the same base. */
  lemma RestoreStacked(o: Settings, s: Overrides.Shared, id: nat, rest: seq<Frame>)
    requires Anchored(s) && !s.closed && InStack(s.stack, id) && Without(s.stack, id) == rest != []
    requires TreesOf(s.base.value.views) == All(map[])
    ensures var r := Apply(o, s, RestoreAct(id));
            && Anchored(r) && !r.closed && r.stack == rest && TreesOf(r.base.value.views) == All(map[])
            && r.content.View() == Replay(o, s.base.value.views, rest)
  {
    ActiveHasBase(s, id);
    hide Replay, Without, InStack, SensitiveAfter;
  }

  lemma WithoutOne(f: Frame, g: Frame, h: Frame)
    requires f.id != g.id && f.id != h.id && g.id != h.id
    ensures Without([f, g], g.id) == [f] && Without([f, g, h], f.id) == [g, h] && InStack([f, g], g.id)
    ensures InStack([f, g, h], f.id)
  {
    assert [f, g][..1] == [f] && [f][..0] == [] && [f, g, h][..2] == [f, g];
    assert Without([], f.id) == [] == Without([], g.id);
    assert Without([f], g.id) == [] + [f] && Without([f], f.id) == [] + [];
    assert Without([f, g], f.id) == [] + [g] && Without([f, g], g.id) == [f] + [];
    assert g in [f, g] && f in [f, g, h];
  }

  function PushZ(): Act { PushOne("z", Number(0)) }

  function PushA(): Act { PushOne("a", Map(ONLY_X)) }

  function PushY(): Act { PushOne("a.y", Number(2)) }

  function FrameA(id: nat): Frame { One(id, "a", Map(ONLY_X)) }

  function FrameY(id: nat): Frame { One(id, "a.y", Number(2)) }

  /** The maps at "a", then the key below it, on any frames that came before. */
  lemma PushStackedA(o: Settings, s: Overrides.Shared, frames: seq<Frame>, t: Tree, u: Tree)
    requires Stacked(s, frames, t) && (forall e :: o.valid(e)) && SetPath(t, ["a"], Map(ONLY_X)) == Some(u)
    ensures Stacked(Apply(o, s, PushA()), frames + [FrameA(|frames| + 1)], u)
  {
    KeysOfTwo();
    hide SetPath, Stacked, One, PushOne, Parse, Apply;
    PushStacked(o, s, frames, t, "a", Map(ONLY_X), ["a"], u);
  }

  lemma PushStackedY(o: Settings, s: Overrides.Shared, frames: seq<Frame>, t: Tree, u: Tree)
    requires Stacked(s, frames, t) && (forall e :: o.valid(e)) && SetPath(t, ["a", "y"], Number(2)) == Some(u)
    ensures Stacked(Apply(o, s, PushY()), frames + [FrameY(|frames| + 1)], u)
  {
    KeysOfTwo();
    hide SetPath, Stacked, One, PushOne, Parse, Apply;
    PushStacked(o, s, frames, t, "a.y", Number(2), ["a", "y"], u);
  }

  /** One step of a heap that shows its state. */
  lemma ShowsStep(o: Settings, h: HeapStack, s: Overrides.Shared, a: Act, h': HeapStack)
    requires Shows(h, s) && Anchored(s) && HeapStep(o, h, a, h')
    requires a.RestoreAct? && InStack(s.stack, a.id) ==> Unshadowed(Restore(o, s, a.id).stack)
    ensures Shows(h', Apply(o, s, a))
  {
    hide Shows, PushStep, RestoreStep, Push, Restore, Unshadowed, InStack;
    match a {
      case PushAct(payload, effective) => ShowsPush(o, h, s, payload, effective, h');
      case RestoreAct(id) => ShowsRestore(o, h, s, id, h');
    }
  }

  lemma PushesUnrestored(s: Overrides.Shared, frames: seq<Frame>, t: Tree)
    requires Stacked(s, frames, t)
    ensures Anchored(s) && PushA().PushAct? && PushY().PushAct? && PushZ().PushAct? && s.stack == frames && !s.closed
    ensures frames != [] ==> s.base.Some? && TreesOf(s.base.value.views) == All(map[])
  {
  }

  lemma ShowsReads(h: HeapStack, s: Overrides.Shared, t: Trees)
    requires Shows(h, s) && TreesOf(s.content.View()) == t
    ensures ReadsRoots(h.mem, h.live, t)
  {
  }

  lemma FramesIds()
    ensures FrameA(1).id == 1 && FrameY(2).id == 2 && FrameA(2).id == 2 && FrameY(3).id == 3
    ensures [] + [FrameA(0 + 1)] == [FrameA(1)] && [FrameA(1)] + [FrameY(1 + 1)] == [FrameA(1), FrameY(2)]
    ensures forall z: Frame :: [z] + [FrameA(1 + 1)] == [z, FrameA(2)] &&
                [z, FrameA(2)] + [FrameY(2 + 1)] == [z, FrameA(2), FrameY(3)]
  {
  }

  /** The two frames alone are clean: restoring the second replays the first with
      its payload as it was pushed. */
  lemma TwoFramesClean(o: Settings, s: Overrides.Shared, h0: HeapStack, h1: HeapStack, h2: HeapStack, h3: HeapStack)
    requires Stacked(s, [], map[]) && (forall e :: o.valid(e)) && Shows(h0, s)
    requires HeapStep(o, h0, PushA(), h1) && HeapStep(o, h1, PushY(), h2) && HeapStep(o, h2, RestoreAct(2), h3)
    ensures ReadsRoots(h3.mem, h3.live, All(A_X))
  {
    SetsOfTwo();
    FramesIds();
    hide *;
    PushesUnrestored(s, [], map[]);
    PushStackedA(o, s, [], map[], A_X);
    ShowsStep(o, h0, s, PushA(), h1);
    var s1 := Apply(o, s, PushA());
    PushesUnrestored(s1, [FrameA(1)], A_X);
    PushStackedY(o, s1, [FrameA(1)], A_X, A_XY);
    ShowsStep(o, h1, s1, PushY(), h2);
    var s2 := Apply(o, s1, PushY());
    PushesUnrestored(s2, [FrameA(1), FrameY(2)], A_XY);
    LastStep(o, s2, h2, h3);
  }

  lemma LastStep(o: Settings, s: Overrides.Shared, h: HeapStack, h': HeapStack)
    requires Shows(h, s) && Anchored(s) && !s.closed && s.stack == [FrameA(1), FrameY(2)]
    requires TreesOf(s.base.value.views) == All(map[]) && HeapStep(o, h, RestoreAct(2), h')
    ensures ReadsRoots(h'.mem, h'.live, All(A_X))
  {
    var f, g := FrameA(1), FrameY(2);
    WithoutOne(f, g, Frame(3, map[], map[]));
    MapAlone(o, s, 1, s.base.value.views);
    RestoreStacked(o, s, 2, [f]);
    hide Shows, HeapStep, Replay, Unshadowed, Without, InStack, Restore, One, ReadsRoots, All;
    RestoreIs(o, s, 2);
    ShowsStep(o, h, s, RestoreAct(2), h');
    ShowsReads(h', Apply(o, s, RestoreAct(2)), All(A_X));
  }

  lemma RestoreIs(o: Settings, s: Overrides.Shared, id: nat)
    requires Anchored(s)
    ensures Apply(o, s, RestoreAct(id)) == Restore(o, s, id)
  {
  }

  lemma CellsOfOne(mem: Mem, f: HeapFrame, id: nat, k: string, v: Value)
    requires f.frame == One(id, k, v) && FrameReads(mem, f)
    ensures Complete(f) && f.raw.Keys == {k} == f.effective.Keys
    ensures Reads(mem.nodes, f.raw[k], v) && Reads(mem.nodes, f.effective[k], v)
  {
    hide Reads;
    assert f.frame.payload.Keys == {k};
    assert CellsRead(mem, CellsOf(f, k));
  }

  lemma MapCell(h: Nodes, c: Cell)
    requires Reads(h, c, Map(ONLY_X))
    ensures c.Ref?
  {
    assert "x" in ONLY_X;
  }

  /** The cells of the two frames. */
  lemma CellsOfTwo(mem: Mem, f: HeapFrame, g: HeapFrame, i: nat, j: nat) returns (ra: nat, ea: nat)
    requires f.frame == FrameA(i) && g.frame == FrameY(j) && FrameReads(mem, f) && FrameReads(mem, g)
    ensures Complete(f) && Complete(g)
    ensures StackKeys([f, g]) == [KeyA(ra, ea), KEY_Y] && StackKeys([f]) == [KeyA(ra, ea)]
    ensures Reads(mem.nodes, Ref(ra), Map(ONLY_X)) && Reads(mem.nodes, Ref(ea), Map(ONLY_X))
  {
    CellsOfOne(mem, f, i, "a", Map(ONLY_X));
    CellsOfOne(mem, g, j, "a.y", Number(2));
    MapCell(mem.nodes, f.raw["a"]);
    MapCell(mem.nodes, f.effective["a"]);
    ra, ea := f.raw["a"].addr, f.effective["a"].addr;
    hide StackKeys, FrameKeys, FrameReads;
    KeysOfOne(f, "a", Map(ONLY_X));
    KeysOfOne(g, "a.y", Number(2));
    KeysOfBoth(f, g);
  }

  lemma RemainingOfThree(z: HeapFrame, f: HeapFrame, g: HeapFrame)
    requires z.frame.id == 1 && f.frame.id == 2 && g.frame.id == 3
    ensures Remaining([z, f, g], 1) == [f, g] && Remaining([f, g], 3) == [f]
  {
    assert [z, f, g][..2] == [z, f] && [z, f][..1] == [z] && [z][..0] == [] && [f, g][..1] == [f] && [f][..0] == [];
    assert Remaining([], 1) == [] == Remaining([], 3);
    assert Remaining([z], 1) == [] + [] && Remaining([f], 3) == [] + [f];
    assert Remaining([z, f], 1) == [] + [f] && Remaining([f, g], 3) == [f] + [];
  }

  /** The base is none of the payload objects, so it is still empty. */
  lemma BaseUntouched(mem: Mem, mem': Mem, r: Roots, ra: nat, ea: nat)
    requires TreeRoots(mem, r, All(map[]))
    requires Reads(mem.nodes, Ref(ra), Map(ONLY_X)) && Reads(mem.nodes, Ref(ea), Map(ONLY_X))
    requires forall b :: b in mem.nodes && b != ra && b != ea ==> b in mem'.nodes && mem'.nodes[b] == mem.nodes[b]
    ensures ReadsRoots(mem', r, All(map[]))
  {
    ReadsOnlyX(mem.nodes, ra);
    ReadsOnlyX(mem.nodes, ea);
    forall w: Which ensures Reads(mem'.nodes, Ref(r.At(w)), Map(All(map[]).At(w))) {
      assert Owns(mem.nodes, Ref(r.At(w)), Map(All(map[]).At(w)), map[]);
      assert mem.nodes[r.At(w)].m.Keys == {};
      assert "x" in mem.nodes[ra].m && "x" in mem.nodes[ea].m;
    }
  }

  /** Restoring the first of three frames: both others are replayed together. */
  lemma JointRestore(h: HeapStack, z: HeapFrame, f: HeapFrame, g: HeapFrame, h': HeapStack) returns (ra: nat, ea: nat)
    requires h.mem.Valid() && h.stack == [z, f, g] && z.frame.id == 1 && f.frame == FrameA(2) && g.frame == FrameY(3)
    requires FrameReads(h.mem, f) && FrameReads(h.mem, g) && TreeRoots(h.mem, h.base, All(map[]))
    requires RestoreStep(h, 1, h')
    ensures h'.stack == [f, g] && StackKeys([f]) == [KeyA(ra, ea)] && Complete(f) && h'.mem.Valid()
    ensures ReadsRoots(h'.mem, h'.live, All(A_XY)) && ReadsRoots(h'.mem, h'.base, All(map[]))
    ensures Reads(h'.mem.nodes, Ref(ra), Map(WITH_Y)) && Reads(h'.mem.nodes, Ref(ea), Map(WITH_Y))
  {
    assert FramesOf(h.stack)[0].id == 1 && FramesOf(h.stack)[0] in FramesOf(h.stack);
    RemainingOfThree(z, f, g);
    ra, ea := CellsOfTwo(h.mem, f, g, 2, 3);
    hide Remaining, ReadsRoots, TreeRoots, FreshRoots, HeapKeys, Reads, FrameReads, All, KeyA;
    var base: Trees, mem: Mem :| Replayed(h, [f, g], base, mem, h');
    TreesRead(h.mem, h.base, All(map[]));
    RootsUnique(h.mem, h.base, base, All(map[]));
    ReplayBoth(h.mem, mem, h'.live, ra, ea);
    BaseUntouched(h.mem, h'.mem, h.base, ra, ea);
  }

  /** Restoring the last of the two that are left: the first is replayed alone. */
  lemma LoneRestore(h: HeapStack, f: HeapFrame, g: HeapFrame, h': HeapStack, ra: nat, ea: nat, t: Tree)
    requires h.mem.Valid() && h.stack == [f, g] && f.frame.id == 2 && g.frame.id == 3 && Complete(f)
    requires StackKeys([f]) == [KeyA(ra, ea)] && ReadsRoots(h.mem, h.base, All(map[]))
    requires Reads(h.mem.nodes, Ref(ra), Map(t)) && Reads(h.mem.nodes, Ref(ea), Map(t))
    requires RestoreStep(h, 3, h')
    ensures ReadsRoots(h'.mem, h'.live, All(map["a" := Map(t)]))
  {
    assert FramesOf(h.stack)[1].id == 3 && FramesOf(h.stack)[1] in FramesOf(h.stack);
    RemainingOfThree(HeapFrame(FrameA(1), map[], map[]), f, g);
    hide Remaining, ReadsRoots, FreshRoots, HeapKeys, Reads, All, KeyA;
    var base: Trees, mem: Mem :| Replayed(h, [f], base, mem, h');
    RootsUnique(h.mem, h.base, base, All(map[]));
    ReplayFirst(h.mem, mem, h'.live, ra, ea, t);
  }

  /** As values: the last restore leaves the map of the second frame as pushed. */
  lemma ThreeFramesMeant(o: Settings, s: Overrides.Shared, z: Frame)
    requires Stacked(s, [z, FrameA(2), FrameY(3)], A_XY + Z) && z == FrameZ()
    ensures Anchored(Apply(o, s, RestoreAct(1)))
    ensures TreesOf(Apply(o, Apply(o, s, RestoreAct(1)), RestoreAct(3)).content.View()) == All(A_X) != All(A_XY)
  {
    var f, g := FrameA(2), FrameY(3);
    PushesUnrestored(s, [z, f, g], A_XY + Z);
    WithoutOne(z, f, g);
    WithoutOne(f, g, z);
    RestoreStacked(o, s, 1, [f, g]);
    var r := Apply(o, s, RestoreAct(1));
    hide Apply, Replay, Without, InStack, Stacked, Unshadowed, All;
    RestoreStacked(o, r, 3, [f]);
    MapAlone(o, r, 2, r.base.value.views);
    LeafDiffers();
  }

  lemma LeafDiffers()
    ensures All(A_X) != All(A_XY)
  {
    assert A_X["a"].entries == ONLY_X && A_XY["a"].entries == WITH_Y;
    assert "y" in WITH_Y && "y" !in ONLY_X;
    assert All(A_X).env == A_X && All(A_XY).env == A_XY;
  }

  lemma LeakOnHeap(o: Settings, s: Overrides.Shared, h: HeapStack, h1: HeapStack, h2: HeapStack)
    requires Stacked(s, [FrameZ(), FrameA(2), FrameY(3)], A_XY + Z) && Shows(h, s)
    requires HeapStep(o, h, RestoreAct(1), h1) && HeapStep(o, h1, RestoreAct(3), h2)
    ensures ReadsRoots(h1.mem, h1.live, All(A_XY)) && ReadsRoots(h2.mem, h2.live, All(A_XY))
  {
    var z, f, g := StackOnHeap(s, h);
    hide *;
    RestoreIsStep(o, h, 1, h1);
    RestoreIsStep(o, h1, 3, h2);
    var ra, ea := JointRestore(h, z, f, g, h1);
    FrameIds(f, g);
    LoneRestore(h1, f, g, h2, ra, ea, WITH_Y);
    LeakedTree();
  }

  lemma LeakedTree()
    ensures map["a" := Map(WITH_Y)] == A_XY
  {
  }

  lemma FrameIds(f: HeapFrame, g: HeapFrame)
    requires f.frame == FrameA(2) && g.frame == FrameY(3)
    ensures f.frame.id == 2 && g.frame.id == 3
  {
  }

  lemma RestoreIsStep(o: Settings, h: HeapStack, id: nat, h': HeapStack)
    ensures HeapStep(o, h, RestoreAct(id), h') <==> RestoreStep(h, id, h')
  {
  }

  lemma StackOnHeap(s: Overrides.Shared, h: HeapStack) returns (z: HeapFrame, f: HeapFrame, g: HeapFrame)
    requires Stacked(s, [FrameZ(), FrameA(2), FrameY(3)], A_XY + Z) && Shows(h, s)
    ensures h.mem.Valid() && h.stack == [z, f, g] && z.frame.id == 1 && f.frame == FrameA(2) && g.frame == FrameY(3)
    ensures FrameReads(h.mem, f) && FrameReads(h.mem, g) && TreeRoots(h.mem, h.base, All(map[]))
    ensures Whole(h.stack)
  {
    ShowsStack(h, s);
    FrameByFrame(h.stack, s.stack);
    hide Shows, FrameReads, TreeRoots, FramesOf, FrameA, FrameY, All;
    z, f, g := h.stack[0], h.stack[1], h.stack[2];
    assert h.stack == [z, f, g];
  }

  lemma ShowsStack(h: HeapStack, s: Overrides.Shared)
    requires Shows(h, s)
    ensures FramesOf(h.stack) == s.stack && h.mem.Valid() && Whole(h.stack)
    ensures forall f :: f in h.stack ==> FrameReads(h.mem, f)
    ensures s.stack != [] ==> s.base.Some? && TreeRoots(h.mem, h.base, TreesOf(s.base.value.views))
  {
    hide ReadsRoots, TreeRoots, FrameReads;
  }

  lemma FrameByFrame(stack: seq<HeapFrame>, frames: seq<Frame>)
    requires FramesOf(stack) == frames
    ensures |stack| == |frames| && forall i :: 0 <= i < |stack| ==> stack[i].frame == frames[i]
  {
  }

  lemma RunSnoc(o: Settings, s: Overrides.Shared, acts: seq<Act>, a: Act)
    requires Wellformed(s)
    ensures Anchored(Run(o, s, acts)) && Run(o, s, acts + [a]) == Apply(o, Run(o, s, acts), a)
  {
    hide Apply;
    assert (acts + [a])[..|acts|] == acts;
  }

  function FrameZ(): Frame { One(1, "z", Number(0)) }

  lemma PushStackedZ(o: Settings, s: Overrides.Shared)
    requires Stacked(s, [], map[]) && (forall e :: o.valid(e))
    ensures Stacked(Apply(o, s, PushZ()), [FrameZ()], Z)
  {
    SetsOfTwo();
    KeysOfTwo();
    hide SetPath, Stacked, PushOne, Parse, Apply;
    PushStacked(o, s, [], map[], "z", Number(0), ["z"], Z);
    assert [] + [FrameZ()] == [FrameZ()];
  }

  /** The three pushes. */
  lemma ThreePushed(o: Settings, s: Overrides.Shared, h0: HeapStack, h1: HeapStack, h2: HeapStack, h3: HeapStack)
    returns (r: Overrides.Shared)
    requires Wellformed(s) && Stacked(s, [], map[]) && (forall e :: o.valid(e)) && Shows(h0, s)
    requires HeapStep(o, h0, PushZ(), h1) && HeapStep(o, h1, PushA(), h2) && HeapStep(o, h2, PushY(), h3)
    ensures r == Run(o, s, [] + [PushZ()] + [PushA()] + [PushY()])
    ensures Stacked(r, [FrameZ(), FrameA(2), FrameY(3)], A_XY + Z) && Shows(h3, r)
  {
    SetsOfTwo();
    FramesIds();
    hide *;
    RunSnoc(o, s, [], PushZ());
    RunSnoc(o, s, [] + [PushZ()], PushA());
    RunSnoc(o, s, [] + [PushZ()] + [PushA()], PushY());
    RunOfNothing(o, s);
    PushesUnrestored(s, [], map[]);
    PushStackedZ(o, s);
    ShowsStep(o, h0, s, PushZ(), h1);
    var s1 := Apply(o, s, PushZ());
    PushesUnrestored(s1, [FrameZ()], Z);
    PushStackedA(o, s1, [FrameZ()], Z, A_X + Z);
    ShowsStep(o, h1, s1, PushA(), h2);
    var s2 := Apply(o, s1, PushA());
    PushesUnrestored(s2, [FrameZ(), FrameA(2)], A_X + Z);
    PushStackedY(o, s2, [FrameZ(), FrameA(2)], A_X + Z, A_XY + Z);
    ShowsStep(o, h2, s2, PushY(), h3);
    r := Apply(o, s2, PushY());
  }

  lemma RunOfNothing(o: Settings, s: Overrides.Shared)
    requires Wellformed(s)
    ensures Run(o, s, []) == s
  {
  }

  /** The leak: a frame at an unrelated key, a frame with a map, a frame with a key
      below the map. Restoring the first replays the other two together, which
      puts the third frame's leaf into the second frame's payload objects; once
      the third is restored, its leaf is still there, in all three maps. */
  lemma ThreeFramesLeak(o: Settings, s: Overrides.Shared, hs: seq<HeapStack>)
    requires Wellformed(s) && Stacked(s, [], map[]) && (forall e :: o.valid(e)) && |hs| == 6 && Shows(hs[0], s)
    requires HeapStep(o, hs[0], PushZ(), hs[1]) && HeapStep(o, hs[1], PushA(), hs[2])
    requires HeapStep(o, hs[2], PushY(), hs[3])
    requires HeapStep(o, hs[3], RestoreAct(1), hs[4]) && HeapStep(o, hs[4], RestoreAct(3), hs[5])
    ensures ReadsRoots(hs[4].mem, hs[4].live, All(A_XY)) && ReadsRoots(hs[5].mem, hs[5].live, All(A_XY))
    ensures var r := Run(o, s, [] + [PushZ()] + [PushA()] + [PushY()] + [RestoreAct(1)] + [RestoreAct(3)]);
            TreesOf(r.content.View()) == All(A_X) != All(A_XY)
  {
    hide *;
    var s3 := ThreePushed(o, s, hs[0], hs[1], hs[2], hs[3]);
    RunSnoc(o, s, [] + [PushZ()] + [PushA()] + [PushY()], RestoreAct(1));
    RunSnoc(o, s, [] + [PushZ()] + [PushA()] + [PushY()] + [RestoreAct(1)], RestoreAct(3));
    ThreeFramesMeant(o, s3, FrameZ());
    LeakOnHeap(o, s3, hs[3], hs[4], hs[5]);
  }

  /** Such a run exists from every heap that shows such a state. */
  lemma LeakHappens(o: Settings, s: Overrides.Shared, h0: HeapStack) returns (hs: seq<HeapStack>)
    requires Wellformed(s) && Stacked(s, [], map[]) && (forall e :: o.valid(e)) && Shows(h0, s)
    ensures |hs| == 6 && hs[0] == h0
    ensures HeapStep(o, hs[0], PushZ(), hs[1]) && HeapStep(o, hs[1], PushA(), hs[2])
    ensures HeapStep(o, hs[2], PushY(), hs[3])
    ensures HeapStep(o, hs[3], RestoreAct(1), hs[4]) && HeapStep(o, hs[4], RestoreAct(3), hs[5])
  {
    hide *;
    PushesUnrestored(s, [], map[]);
    PushStackedZ(o, s);
    var h1 := CanStep(o, h0, s, PushZ());
    ShowsStep(o, h0, s, PushZ(), h1);
    var s1 := Apply(o, s, PushZ());
    PushesUnrestored(s1, [FrameZ()], Z);
    var h2 := CanStep(o, h1, s1, PushA());
    ShowsStep(o, h1, s1, PushA(), h2);
    var s2 := Apply(o, s1, PushA());
    ApplyAnchored(o, s1, PushA());
    var h3 := CanStep(o, h2, s2, PushY());
    var s3 := ThreePushed(o, s, h0, h1, h2, h3);
    var h4 := CanStep(o, h3, s3, RestoreAct(1));
    RestoreIsStep(o, h3, 1, h4);
    var z, f, g := StackOnHeap(s3, h3);
    var ra, ea := JointRestore(h3, z, f, g, h4);
    WholeTail(z, f, g);
    var h5 := CanRestore(h4, All(map[]), 3);
    RestoreIsStep(o, h4, 3, h5);
    hs := [h0, h1, h2, h3, h4, h5];
  }

  lemma ApplyAnchored(o: Settings, s: Overrides.Shared, a: Act)
    requires Anchored(s) && a.PushAct?
    ensures Anchored(Apply(o, s, a))
  {
  }

  lemma WholeTail(z: HeapFrame, f: HeapFrame, g: HeapFrame)
    requires Whole([z, f, g])
    ensures Whole([f, g])
  {
    assert f in [z, f, g] && g in [z, f, g];
    hide Complete;
  }

  /** A heap that shows such a state: three empty maps. */
  lemma EmptyHeap(s: Overrides.Shared) returns (h: HeapStack)
    requires Stacked(s, [], map[])
    ensures Shows(h, s)
  {
    var r := Roots(0, 1, 2);
    h := HeapStack(Mem(map[0 := Entries(map[]), 1 := Entries(map[]), 2 := Entries(map[])], 3), r, r, [], 0);
    forall w: Which ensures Owns(h.mem.nodes, Ref(r.At(w)), Map(TreesOf(s.content.View()).At(w)), map[]) {
      EmptyMap(h.mem.nodes, r.At(w), map[]);
    }
    hide Owns;
    TreesRead(h.mem, r, TreesOf(s.content.View()));
  }

  /** So there is a leaking run from three empty maps: its heap starts as the value
      state does, and ends with a leaf that no value-level run has. */
  lemma LeakFromNothing(o: Settings, s: Overrides.Shared) returns (hs: seq<HeapStack>)
    requires Wellformed(s) && Stacked(s, [], map[]) && forall e :: o.valid(e)
    ensures |hs| == 6 && Shows(hs[0], s)
    ensures HeapStep(o, hs[0], PushZ(), hs[1]) && HeapStep(o, hs[1], PushA(), hs[2])
    ensures HeapStep(o, hs[2], PushY(), hs[3])
    ensures HeapStep(o, hs[3], RestoreAct(1), hs[4]) && HeapStep(o, hs[4], RestoreAct(3), hs[5])
    ensures ReadsRoots(hs[5].mem, hs[5].live, All(A_XY))
    ensures var r := Run(o, s, [] + [PushZ()] + [PushA()] + [PushY()] + [RestoreAct(1)] + [RestoreAct(3)]);
            TreesOf(r.content.View()) == All(A_X) != All(A_XY)
  {
    hide *;
    var h0 := EmptyHeap(s);
    hs := LeakHappens(o, s, h0);
    ThreeFramesLeak(o, s, hs);
  }

  /** What a worn payload does: the next replay of its frame alone shows the map
      that was pushed exactly when the payload object still holds it. */
  lemma WearShowsIff(o: Settings, mem0: Mem, mem: Mem, r: Roots, v: Views, k: KeyCells, p: Path, m: Tree)
    requires FreshRoots(mem0, mem, r, TreesOf(v)) && CellsRead(mem0, k) && k.effective.Map?
    requires Parse(k.key) == Some(p) && SetPath(v.env, p, Map(m)).Some?
    ensures mem.Valid() && AllMaps(mem, r)
    ensures Reads(HeapKeys(mem, r, [k]).nodes, Ref(r.env), Map(SetPath(v.env, p, Map(m)).value)) <==>
            k.effective == Map(m)
  {
    var meant, shown := SetPath(v.env, p, Map(m)).value, SetPath(v.env, p, k.effective).GetOr(v.env);
    FreshAreTrees(mem0, mem, r, TreesOf(v));
    ExtendsValid(mem0, mem);
    EnvShown(o, v, k, p);
    hide FreshRoots, Reads, SetPath, GetPath, HeapKeys, ValueKeys, Parse, Listed, CellsRead, TableReads;
    TableFacts(mem0, [k]);
    ReplayOnHeap(o, mem0, mem, r, v, [k], TableOf([k]));
    var after := HeapKeys(mem, r, [k]);
    assert Reads(after.nodes, Ref(r.At(Effective)), Map(TreesOf(ValueKeys(o, v, [k])).At(Effective)));
    PayloadWear.SetEither(v.env, p, Map(m), k.effective);
    GetAfterSet(v.env, p, Map(m));
    GetAfterSet(v.env, p, k.effective);
    if Reads(after.nodes, Ref(r.env), Map(meant)) {
      ReadsUnique(after.nodes, Ref(r.env), Map(meant), Map(shown));
    }
  }

  lemma EnvShown(o: Settings, v: Views, k: KeyCells, p: Path)
    requires Parse(k.key) == Some(p)
    ensures ValueKeys(o, v, [k]).env == SetPath(v.env, p, k.effective).GetOr(v.env)
  {
    hide SetPath, Parse;
    assert [k][..0] == [];
    assert ValueKeys(o, v, []) == v;
  }
}
