/** When a part of the heap is a tree, the in-place Set is SetPath on the value
    it represents, and touches nothing outside that tree. Objects listed in pay
    are allowed to be shared: they are represented by the given values and are
    never written. */
module StoreTrees {
  import opened Values
  import opened Paths
  import opened Store

  type Shared = map<nat, Value>

  type Nodes = map<nat, Node>

  /** The private heap objects that make up the value v at cell c. */
  ghost function Foot(h: Nodes, c: Cell, v: Value, pay: Shared): set<nat>
    decreases v, 1
  {
    if c.Ref? && c.addr !in pay && c.addr in h && h[c.addr].Entries? && v.Map?
    then {c.addr} + FootAll(h, h[c.addr].m, v.entries, pay)
    else {}
  }

  ghost function FootAll(h: Nodes, m: map<string, Cell>, t: Tree, pay: Shared): set<nat>
    decreases Map(t), 0
  {
    set k, x | k in t && k in m && x in Foot(h, m[k], t[k], pay) :: x
  }

  /** Cell c represents the value v, and its private objects form a tree. */
  ghost predicate Owns(h: Nodes, c: Cell, v: Value, pay: Shared)
    decreases v, 1
  {
    match c
    case Leaf(x) => v == x && !v.Map?
    case NilMap => v == Map(map[])
    case Ref(a) =>
      if a in pay then v == pay[a]
      else
        && v.Map? && a in h && h[a].Entries?
        && OwnsAll(h, h[a].m, v.entries, pay)
        && a !in FootAll(h, h[a].m, v.entries, pay)
  }

  ghost predicate OwnsAll(h: Nodes, m: map<string, Cell>, t: Tree, pay: Shared)
    decreases Map(t), 0
  {
    && m.Keys == t.Keys
    && (forall k :: k in t ==> Owns(h, m[k], t[k], pay))
    && (forall k, l :: k in t && l in t && k != l ==>
          Foot(h, m[k], t[k], pay) !! Foot(h, m[l], t[l], pay))
  }

  /** No map strictly inside the path is one of the shared objects. */
  ghost predicate Clear(mem: Mem, root: nat, p: Path, pay: Shared)
    decreases |p|
  {
    root !in pay &&
    (|p| > 1 && mem.IsMap(root) && p[0] in mem.nodes[root].m && mem.nodes[root].m[p[0]].Ref? ==>
       Clear(mem, mem.nodes[root].m[p[0]].addr, p[1..], pay))
  }

  ghost predicate Same(h: Nodes, h': Nodes, s: set<nat>) {
    forall a :: a in s && a in h ==> a in h' && h'[a] == h[a]
  }

  lemma {:induction false} FootAllocated(h: Nodes, c: Cell, v: Value, pay: Shared)
    ensures Foot(h, c, v, pay) <= h.Keys
    decreases v
  {
    if c.Ref? && c.addr in h && h[c.addr].Entries? && v.Map? {
      var m, t := h[c.addr].m, v.entries;
      forall k | k in t && k in m ensures Foot(h, m[k], t[k], pay) <= h.Keys {
        FootAllocated(h, m[k], t[k], pay);
      }
    }
  }

  /** Ownership only depends on the objects in the footprint. */
  lemma {:induction false} OwnsFrame(h: Nodes, h': Nodes, c: Cell, v: Value, pay: Shared)
    requires Owns(h, c, v, pay) && Same(h, h', Foot(h, c, v, pay))
    ensures Owns(h', c, v, pay) && Foot(h', c, v, pay) == Foot(h, c, v, pay)
    decreases v, 1
  {
    if c.Ref? && c.addr !in pay {
      OwnsAllFrame(h, h', h[c.addr].m, v.entries, pay);
    }
  }

  lemma {:induction false} OwnsAllFrame(h: Nodes, h': Nodes, m: map<string, Cell>, t: Tree, pay: Shared)
    requires OwnsAll(h, m, t, pay) && Same(h, h', FootAll(h, m, t, pay))
    ensures OwnsAll(h', m, t, pay) && FootAll(h', m, t, pay) == FootAll(h, m, t, pay)
    decreases Map(t), 0
  {
    forall k | k in t
      ensures Owns(h', m[k], t[k], pay) && Foot(h', m[k], t[k], pay) == Foot(h, m[k], t[k], pay)
    {
      OwnsFrame(h, h', m[k], t[k], pay);
    }
  }

  lemma Unfold(h: Nodes, a: nat, t: Tree, pay: Shared)
    requires Owns(h, Ref(a), Map(t), pay) && a !in pay
    ensures a in h && h[a].Entries? && h[a].m.Keys == t.Keys
    ensures OwnsAll(h, h[a].m, t, pay)
    ensures a !in FootAll(h, h[a].m, t, pay)
    ensures Foot(h, Ref(a), Map(t), pay) == {a} + FootAll(h, h[a].m, t, pay)
    ensures forall k :: k in t ==> Owns(h, h[a].m[k], t[k], pay)
  {
  }

  lemma Fold(h: Nodes, a: nat, t: Tree, pay: Shared)
    requires a !in pay && a in h && h[a].Entries?
    requires OwnsAll(h, h[a].m, t, pay) && a !in FootAll(h, h[a].m, t, pay)
    ensures Owns(h, Ref(a), Map(t), pay)
    ensures Foot(h, Ref(a), Map(t), pay) == {a} + FootAll(h, h[a].m, t, pay)
  {
  }

  lemma EmptyMap(h: Nodes, a: nat, pay: Shared)
    requires a !in pay && a in h && h[a] == Entries(map[])
    ensures Owns(h, Ref(a), Map(map[]), pay)
    ensures Foot(h, Ref(a), Map(map[]), pay) == {a}
  {
  }

  lemma Shape(h: Nodes, c: Cell, v: Value, pay: Shared)
    requires Owns(h, c, v, pay)
    ensures c.Leaf? ==> v == c.v && !v.Map?
    ensures c.NilMap? ==> v == Map(map[])
    ensures c.Ref? && c.addr !in pay ==> v.Map? && c.addr in h && h[c.addr].Entries?
  {
  }

  /** The objects of every entry but k. */
  ghost function Rest(h: Nodes, m: map<string, Cell>, t: Tree, k: string, pay: Shared): set<nat> {
    FootAll(h, m - {k}, t - {k}, pay)
  }

  lemma Separate(h: Nodes, m: map<string, Cell>, t: Tree, k: string, pay: Shared)
    requires OwnsAll(h, m, t, pay)
    ensures OwnsAll(h, m - {k}, t - {k}, pay)
    ensures Rest(h, m, t, k, pay) <= FootAll(h, m, t, pay)
    ensures k in t ==> Owns(h, m[k], t[k], pay) && Rest(h, m, t, k, pay) !! Foot(h, m[k], t[k], pay)
    ensures k in t ==> FootAll(h, m, t, pay) == Rest(h, m, t, k, pay) + Foot(h, m[k], t[k], pay)
  {
    var m', t' := m - {k}, t - {k};
    assert forall l :: l in t' ==> m'[l] == m[l] && t'[l] == t[l];
  }

  lemma Extend(h: Nodes, m: map<string, Cell>, t: Tree, k: string, c: Cell, v: Value, pay: Shared)
    requires OwnsAll(h, m, t, pay) && Owns(h, c, v, pay) && k !in t
    requires Foot(h, c, v, pay) !! FootAll(h, m, t, pay)
    ensures OwnsAll(h, m[k := c], t[k := v], pay)
    ensures FootAll(h, m[k := c], t[k := v], pay) == FootAll(h, m, t, pay) + Foot(h, c, v, pay)
  {
    hide Owns, Foot;
    var m', t' := m[k := c], t[k := v];
    forall l | l in t
      ensures m'[l] == m[l] && t'[l] == t[l] && Foot(h, m[l], t[l], pay) <= FootAll(h, m, t, pay)
    {
    }
    forall x ensures x in FootAll(h, m', t', pay) <==> x in FootAll(h, m, t, pay) || x in Foot(h, c, v, pay) {
      if x in FootAll(h, m, t, pay) {
        var l :| l in t && x in Foot(h, m[l], t[l], pay);
        assert x in Foot(h, m'[l], t'[l], pay);
      }
      if x in Foot(h, c, v, pay) {
        assert x in Foot(h, m'[k], t'[k], pay);
      }
    }
  }

  /** The map at root after its entry k has become c, representing v, and the
      objects of its other entries are untouched. */
  lemma Graft(h: Nodes, h': Nodes, root: nat, t: Tree, k: string, c: Cell, v: Value, pay: Shared)
    requires root !in pay && Owns(h, Ref(root), Map(t), pay)
    requires root in h' && h'[root] == Entries(h[root].m[k := c])
    requires Same(h, h', Rest(h, h[root].m, t, k, pay))
    requires Owns(h', c, v, pay) && root !in Foot(h', c, v, pay)
    requires Foot(h', c, v, pay) !! Rest(h, h[root].m, t, k, pay)
    ensures Owns(h', Ref(root), Map(t[k := v]), pay)
    ensures Foot(h', Ref(root), Map(t[k := v]), pay) == {root} + Rest(h, h[root].m, t, k, pay) + Foot(h', c, v, pay)
  {
    hide Owns, OwnsAll, Foot, FootAll;
    Unfold(h, root, t, pay);
    var m := h[root].m;
    Separate(h, m, t, k, pay);
    OwnsAllFrame(h, h', m - {k}, t - {k}, pay);
    Extend(h', m - {k}, t - {k}, k, c, v, pay);
    assert (m - {k})[k := c] == m[k := c] && (t - {k})[k := v] == t[k := v];
    Fold(h', root, t[k := v], pay);
  }

  /** What a write of c to the tree at root leaves behind: the new tree, made of
      old objects of that tree, objects of c, and new objects; no other object
      is changed. */
  ghost predicate Wrote(mem: Mem, mem': Mem, root: nat, t: Tree, t': Tree, c: Cell, v: Value, pay: Shared) {
    && Owns(mem'.nodes, Ref(root), Map(t'), pay)
    && Same(mem.nodes, mem'.nodes, mem.nodes.Keys - Foot(mem.nodes, Ref(root), Map(t), pay))
    && (forall a :: a in Foot(mem'.nodes, Ref(root), Map(t'), pay) ==>
          a in Foot(mem.nodes, Ref(root), Map(t), pay) || a in Foot(mem.nodes, c, v, pay) || a >= mem.next)
  }

  ghost predicate Writable(mem: Mem, root: nat, t: Tree, c: Cell, v: Value, pay: Shared) {
    && mem.Valid()
    && (forall a :: a in pay ==> a < mem.next)
    && root !in pay
    && Owns(mem.nodes, Ref(root), Map(t), pay)
    && Owns(mem.nodes, c, v, pay)
    && Foot(mem.nodes, Ref(root), Map(t), pay) !! Foot(mem.nodes, c, v, pay)
  }

  /** A write that ends with entry k of the root map holding x, representing w,
      and leaves the root's other entries and everything outside alone. */
  lemma Lift(mem: Mem, mem': Mem, root: nat, t: Tree, k: string, x: Cell, w: Value, c: Cell, v: Value, pay: Shared)
    requires Writable(mem, root, t, c, v, pay)
    requires root in mem'.nodes && mem'.nodes[root] == Entries(mem.nodes[root].m[k := x])
    requires Owns(mem'.nodes, x, w, pay)
    requires forall a :: a in mem.nodes && a != root &&
                         (a in Rest(mem.nodes, mem.nodes[root].m, t, k, pay) ||
                             a !in Foot(mem.nodes, Ref(root), Map(t), pay)) ==>
                           a in mem'.nodes && mem'.nodes[a] == mem.nodes[a]
    requires forall a :: a in Foot(mem'.nodes, x, w, pay) ==>
                         a != root && a !in Rest(mem.nodes, mem.nodes[root].m, t, k, pay) &&
                         (a in Foot(mem.nodes, Ref(root), Map(t), pay) || a in Foot(mem.nodes, c, v, pay) ||
                             a >= mem.next)
    ensures Wrote(mem, mem', root, t, t[k := w], c, v, pay)
  {
    hide Owns, OwnsAll, Foot, FootAll, Rest;
    Unfold(mem.nodes, root, t, pay);
    Separate(mem.nodes, mem.nodes[root].m, t, k, pay);
    Graft(mem.nodes, mem'.nodes, root, t, k, x, w, pay);
  }

  /** Replacing one entry of the root map. */
  lemma PutRefines(mem: Mem, root: nat, t: Tree, k: string, c: Cell, v: Value, pay: Shared)
    requires Writable(mem, root, t, c, v, pay)
    ensures Wrote(mem, mem.Put(root, k, c), root, t, t[k := v], c, v, pay)
  {
    hide Owns, OwnsAll, Foot, FootAll, Rest;
    Unfold(mem.nodes, root, t, pay);
    Separate(mem.nodes, mem.nodes[root].m, t, k, pay);
    OwnsFrame(mem.nodes, mem.Put(root, k, c).nodes, c, v, pay);
    Lift(mem, mem.Put(root, k, c), root, t, k, c, v, c, v, pay);
  }

  /** A freshly made map can be written. */
  lemma FreshWritable(mem: Mem, mem': Mem, c: Cell, v: Value, pay: Shared)
    requires mem.Valid() && mem'.Valid() && Owns(mem.nodes, c, v, pay)
    requires forall a :: a in pay ==> a < mem.next
    requires mem'.next == mem.next + 1 && mem.next in mem'.nodes && mem'.nodes[mem.next] == Entries(map[])
    requires Same(mem.nodes, mem'.nodes, Foot(mem.nodes, c, v, pay))
    ensures Writable(mem', mem.next, map[], c, v, pay)
    ensures Foot(mem'.nodes, c, v, pay) == Foot(mem.nodes, c, v, pay) <= mem.nodes.Keys
    ensures Foot(mem'.nodes, Ref(mem.next), Map(map[]), pay) == {mem.next}
  {
    hide Owns, OwnsAll, Foot, FootAll;
    FootAllocated(mem.nodes, c, v, pay);
    EmptyMap(mem'.nodes, mem.next, pay);
    OwnsFrame(mem.nodes, mem'.nodes, c, v, pay);
  }

  /** Lift for an entry that had no objects and now holds a fresh map. */
  lemma LiftFresh(mem: Mem, mem': Mem, root: nat, t: Tree, k: string, s: Tree, c: Cell, v: Value, pay: Shared)
    requires Writable(mem, root, t, c, v, pay)
    requires root in mem'.nodes && mem'.nodes[root] == Entries(mem.nodes[root].m[k := Ref(mem.next)])
    requires k !in mem.nodes[root].m || mem.nodes[root].m[k] == NilMap
    requires Owns(mem'.nodes, Ref(mem.next), Map(s), pay)
    requires forall a :: a in mem.nodes && a != root ==> a in mem'.nodes && mem'.nodes[a] == mem.nodes[a]
    requires forall a :: a in Foot(mem'.nodes, Ref(mem.next), Map(s), pay) ==>
               a in Foot(mem.nodes, c, v, pay) || a >= mem.next
    ensures Wrote(mem, mem', root, t, t[k := Map(s)], c, v, pay)
  {
    hide Owns, OwnsAll, Foot, FootAll, Rest;
    FootAllocated(mem.nodes, Ref(root), Map(t), pay);
    Unfold(mem.nodes, root, t, pay);
    Separate(mem.nodes, mem.nodes[root].m, t, k, pay);
    Lift(mem, mem', root, t, k, Ref(mem.next), Map(s), c, v, pay);
  }

  lemma {:induction false} FillRefines(mem: Mem, a: nat, p: Path, c: Cell, v: Value, pay: Shared)
    requires Writable(mem, a, map[], c, v, pay)
    ensures SetPath(map[], p, v).Some?
    ensures Wrote(mem, Fill(mem, a, p, c), a, map[], SetPath(map[], p, v).value, c, v, pay)
    decreases |p|
  {
    Unfold(mem.nodes, a, map[], pay);
    SetOnEmpty(p, v);
    if |p| == 1 {
      PutRefines(mem, a, map[], p[0], c, v, pay);
    } else {
      var mem1 := mem.Put(a, p[0], Ref(mem.next)).Alloc();
      FreshWritable(mem, mem1, c, v, pay);
      hide Owns, OwnsAll, Foot, FootAll, Rest, Wrote, Writable;
      FillRefines(mem1, mem.next, p[1..], c, v, pay);
      NilDone(mem, Fill(mem1, mem.next, p[1..], c), a, map[], p[0], SetPath(map[], p[1..], v).value, c, v, pay);
    }
  }

  lemma {:induction false} SetOnEmpty(p: Path, v: Value)
    ensures SetPath(map[], p, v).Some?
    decreases |p|
  {
    if |p| > 1 {
      SetOnEmpty(p[1..], v);
    }
  }

  /** HeapSet on a tree is SetPath on the value it represents. */
  lemma {:induction false} SetRefines(mem: Mem, root: nat, t: Tree, p: Path, c: Cell, v: Value, pay: Shared)
    requires Writable(mem, root, t, c, v, pay) && Clear(mem, root, p, pay)
    ensures HeapSet(mem, root, p, c).None? <==> SetPath(t, p, v).None?
    ensures HeapSet(mem, root, p, c).Some? ==>
              Wrote(mem, HeapSet(mem, root, p, c).value, root, t, SetPath(t, p, v).value, c, v, pay)
    decreases |p|
  {
    var h, k := mem.nodes, p[0];
    Unfold(h, root, t, pay);
    if |p| == 1 {
      PutRefines(mem, root, t, k, c, v, pay);
    } else if k !in t {
      MissingRefines(mem, root, t, p, c, v, pay);
    } else {
      assert Owns(h, h[root].m[k], t[k], pay);
      if h[root].m[k] == NilMap {
        NilRefines(mem, root, t, p, c, v, pay);
      } else if h[root].m[k].Ref? {
        DescendRefines(mem, root, t, p, c, v, pay);
      }
    }
  }

  /** How one step of each Set begins when the entry is absent or a nil map. */
  lemma FreshSteps(mem: Mem, root: nat, t: Tree, p: Path, c: Cell, v: Value)
    requires mem.Valid() && mem.IsMap(root) && |p| > 1 && Child(t, p[0]) == Some(map[])
    ensures SetPath(map[], p[1..], v).Some?
    ensures SetPath(t, p, v) == Some(t[p[0] := Map(SetPath(map[], p[1..], v).value)])
    ensures p[0] !in mem.nodes[root].m ==>
              HeapSet(mem, root, p, c) == Some(Fill(mem.Alloc(), mem.next, p[1..], c).Put(root, p[0], Ref(mem.next)))
    ensures p[0] in mem.nodes[root].m && mem.nodes[root].m[p[0]] == NilMap ==>
              HeapSet(mem, root, p, c) == HeapSet(mem.Put(root, p[0], Ref(mem.next)).Alloc(), mem.next, p[1..], c)
  {
    SetOnEmpty(p[1..], v);
  }

  /** The end of a Set that first stored a fresh map at k. */
  lemma NilDone(mem: Mem, mem': Mem, root: nat, t: Tree, k: string, s: Tree, c: Cell, v: Value, pay: Shared)
    requires Writable(mem, root, t, c, v, pay)
    requires k !in mem.nodes[root].m || mem.nodes[root].m[k] == NilMap
    requires Wrote(mem.Put(root, k, Ref(mem.next)).Alloc(), mem', mem.next, map[], s, c, v, pay)
    ensures Wrote(mem, mem', root, t, t[k := Map(s)], c, v, pay)
  {
    hide Owns, OwnsAll, Foot, FootAll, Rest;
    Unfold(mem.nodes, root, t, pay);
    var mem1 := mem.Put(root, k, Ref(mem.next)).Alloc();
    FreshWritable(mem, mem1, c, v, pay);
    LiftFresh(mem, mem', root, t, k, s, c, v, pay);
  }

  /** The end of a Set that stored a finished branch at k. */
  lemma MissingDone(mem: Mem, mem1: Mem, root: nat, t: Tree, k: string, s: Tree, c: Cell, v: Value, pay: Shared)
    requires Writable(mem, root, t, c, v, pay) && mem1.IsMap(root)
    requires k !in mem.nodes[root].m
    requires Wrote(mem.Alloc(), mem1, mem.next, map[], s, c, v, pay)
    ensures Wrote(mem, mem1.Put(root, k, Ref(mem.next)), root, t, t[k := Map(s)], c, v, pay)
  {
    hide Owns, OwnsAll, Foot, FootAll, Rest;
    Unfold(mem.nodes, root, t, pay);
    FreshWritable(mem, mem.Alloc(), c, v, pay);
    var mem2 := mem1.Put(root, k, Ref(mem.next));
    OwnsFrame(mem1.nodes, mem2.nodes, Ref(mem.next), Map(s), pay);
    LiftFresh(mem, mem2, root, t, k, s, c, v, pay);
  }

  lemma MissingRefines(mem: Mem, root: nat, t: Tree, p: Path, c: Cell, v: Value, pay: Shared)
    requires Writable(mem, root, t, c, v, pay) && |p| > 1 && p[0] !in t
    ensures SetPath(t, p, v).Some? && HeapSet(mem, root, p, c).Some?
    ensures Wrote(mem, HeapSet(mem, root, p, c).value, root, t, SetPath(t, p, v).value, c, v, pay)
  {
    Unfold(mem.nodes, root, t, pay);
    FreshWritable(mem, mem.Alloc(), c, v, pay);
    FillRefines(mem.Alloc(), mem.next, p[1..], c, v, pay);
    FreshSteps(mem, root, t, p, c, v);
    hide Owns, OwnsAll, Foot, FootAll, Rest, HeapSet, SetPath, Wrote, Writable;
    MissingDone(mem, Fill(mem.Alloc(), mem.next, p[1..], c), root, t, p[0], SetPath(map[], p[1..], v).value, c, v, pay);
  }

  lemma FreshClear(mem: Mem, root: nat, k: string, q: Path, pay: Shared)
    requires mem.Valid() && mem.IsMap(root) && forall a :: a in pay ==> a < mem.next
    ensures Clear(mem.Put(root, k, Ref(mem.next)).Alloc(), mem.next, q, pay)
  {
  }

  lemma {:induction false} NilRefines(mem: Mem, root: nat, t: Tree, p: Path, c: Cell, v: Value, pay: Shared)
    requires Writable(mem, root, t, c, v, pay) && |p| > 1
    requires p[0] in t && p[0] in mem.nodes[root].m && mem.nodes[root].m[p[0]] == NilMap
    ensures SetPath(t, p, v).Some? && HeapSet(mem, root, p, c).Some?
    ensures Wrote(mem, HeapSet(mem, root, p, c).value, root, t, SetPath(t, p, v).value, c, v, pay)
    decreases |p|, 0
  {
    hide Owns, OwnsAll, Foot, FootAll, Rest, HeapSet, SetPath, Wrote, Clear;
    var k, b := p[0], mem.next;
    Unfold(mem.nodes, root, t, pay);
    Shape(mem.nodes, NilMap, t[k], pay);
    FreshSteps(mem, root, t, p, c, v);
    var mem1 := mem.Put(root, k, Ref(b)).Alloc();
    FreshWritable(mem, mem1, c, v, pay);
    FreshClear(mem, root, k, p[1..], pay);
    hide Writable;
    SetRefines(mem1, b, map[], p[1..], c, v, pay);
    NilDone(mem, HeapSet(mem1, b, p[1..], c).value, root, t, k, SetPath(map[], p[1..], v).value, c, v, pay);
  }

  lemma {:induction false} DescendRefines(mem: Mem, root: nat, t: Tree, p: Path, c: Cell, v: Value, pay: Shared)
    requires Writable(mem, root, t, c, v, pay) && Clear(mem, root, p, pay) && |p| > 1
    requires p[0] in t && p[0] in mem.nodes[root].m && mem.nodes[root].m[p[0]].Ref?
    ensures HeapSet(mem, root, p, c).None? <==> SetPath(t, p, v).None?
    ensures HeapSet(mem, root, p, c).Some? ==>
              Wrote(mem, HeapSet(mem, root, p, c).value, root, t, SetPath(t, p, v).value, c, v, pay)
    decreases |p|, 0
  {
    hide Owns, OwnsAll, Foot, FootAll, Rest;
    var h, k := mem.nodes, p[0];
    Unfold(h, root, t, pay);
    var a := h[root].m[k].addr;
    Separate(h, h[root].m, t, k, pay);
    assert Clear(mem, a, p[1..], pay);
    Shape(h, Ref(a), t[k], pay);
    var m := t[k].entries;
    SetRefines(mem, a, m, p[1..], c, v, pay);
    if HeapSet(mem, a, p[1..], c).Some? {
      var mem2, s := HeapSet(mem, a, p[1..], c).value, Map(SetPath(m, p[1..], v).value);
      FootAllocated(h, Ref(root), Map(t), pay);
      assert h[root].m[k := Ref(a)] == h[root].m;
      Lift(mem, mem2, root, t, k, Ref(a), s, c, v, pay);
    }
  }

  /** In-place Set on a heap tree with no shared objects: get-after-set, no
      effect at incomparable paths, and the object graph stays a tree. */
  lemma SetOnTree(mem: Mem, root: nat, t: Tree, p: Path, c: Cell, v: Value, q: Path)
    requires Writable(mem, root, t, c, v, map[])
    requires HeapSet(mem, root, p, c).Some?
    ensures SetPath(t, p, v).Some?
    ensures Owns(HeapSet(mem, root, p, c).value.nodes, Ref(root), Map(SetPath(t, p, v).value), map[])
    ensures GetPath(SetPath(t, p, v).value, p) == Some(v)
    ensures !Comparable(p, q) ==> GetPath(SetPath(t, p, v).value, q) == GetPath(t, q)
  {
    ClearWhenUnshared(mem, root, p);
    SetRefines(mem, root, t, p, c, v, map[]);
    GetAfterSet(t, p, v);
    if !Comparable(p, q) {
      SetFrame(t, p, v, q);
    }
  }

  lemma {:induction false} ClearWhenUnshared(mem: Mem, root: nat, p: Path)
    ensures Clear(mem, root, p, map[])
    decreases |p|
  {
    if |p| > 1 && mem.IsMap(root) && p[0] in mem.nodes[root].m && mem.nodes[root].m[p[0]].Ref? {
      ClearWhenUnshared(mem, mem.nodes[root].m[p[0]].addr, p[1..]);
    }
  }

  /** Get over a heap tree reads the value it represents. */
  lemma {:induction false} GetRefines(mem: Mem, root: nat, t: Tree, p: Path, pay: Shared)
    requires Owns(mem.nodes, Ref(root), Map(t), pay) && Clear(mem, root, p, pay)
    ensures HeapGet(mem, root, p).None? <==> GetPath(t, p).None?
    ensures HeapGet(mem, root, p).Some? ==>
              Owns(mem.nodes, HeapGet(mem, root, p).value, GetPath(t, p).value, pay)
    decreases |p|
  {
    Unfold(mem.nodes, root, t, pay);
    if |p| > 1 && p[0] in t {
      var c := mem.nodes[root].m[p[0]];
      assert Owns(mem.nodes, c, t[p[0]], pay);
      if c.Ref? {
        assert Clear(mem, c.addr, p[1..], pay);
        GetRefines(mem, c.addr, t[p[0]].entries, p[1..], pay);
      }
    }
  }
}
