/** What the loop that does not copy does to the payload objects it stores: while
    an object is part of the live map, every later key below it is written into
    it. */
module PayloadWear {
  import opened Values
  import opened Paths
  import opened Store
  import opened StoreTrees
  import opened SharedObjects
  import opened Snapshots
  import opened OverrideHeap

  /** A write below an object is a write into that object. */
  lemma {:induction false} SetThrough(mem: Mem, root: nat, p: Path, a: nat, q: Path, c: Cell)
    requires mem.Valid() && mem.IsMap(root) && mem.IsMap(a) && HeapGet(mem, root, p) == Some(Ref(a))
    ensures HeapSet(mem, root, p + q, c) == HeapSet(mem, a, q, c)
    decreases |p|
  {
    assert (p + q)[1..] == p[1..] + q;
    if |p| > 1 {
      SetThrough(mem, mem.nodes[root].m[p[0]].addr, p[1..], a, q, c);
    } else {
      assert p[1..] + q == q;
    }
  }

  /** A cell without shared objects represents one value. */
  lemma {:induction false} OwnsUnique(h: Nodes, c: Cell, v: Value, w: Value)
    requires Owns(h, c, v, map[]) && Owns(h, c, w, map[])
    ensures v == w
    decreases v
  {
    if c.Ref? {
      forall k | k in v.entries ensures v.entries[k] == w.entries[k] {
        OwnsUnique(h, h[c.addr].m[k], v.entries[k], w.entries[k]);
      }
      assert v.entries == w.entries;
    }
  }

  /** What Set leaves at its path represents the value that was stored. */
  lemma StoredValue(mem: Mem, root: nat, t: Tree, p: Path, c: Cell, v: Value, pay: Shared)
    requires Writable(mem, root, t, c, v, pay) && SetPath(t, p, v).Some?
    requires forall b :: b in pay ==> !pay[b].Map?
    ensures HeapSet(mem, root, p, c).Some? && mem.IsMap(root) && HeapSet(mem, root, p, c).value.IsMap(root)
    ensures Wrote(mem, HeapSet(mem, root, p, c).value, root, t, SetPath(t, p, v).value, c, v, pay)
    ensures var mem' := HeapSet(mem, root, p, c).value;
            HeapGet(mem', root, p).Some? && Owns(mem'.nodes, HeapGet(mem', root, p).value, v, pay)
  {
    OwnsRoot(mem, root, t, pay);
    hide Owns, OwnsAll, Foot, FootAll, HeapSet, SetPath, HeapGet, Clear;
    ClearForWrite(mem, root, t, p, pay, v);
    SetRefines(mem, root, t, p, c, v, pay);
    var mem', t' := HeapSet(mem, root, p, c).value, SetPath(t, p, v).value;
    OwnsRoot(mem', root, t', pay);
    GetAfterSet(t, p, v);
    SetTwice(t, p, v, v);
    ClearForWrite(mem', root, t', p, pay, v);
    GetRefines(mem', root, t', p, pay);
  }

  /** Set stores the cell it was given, not a copy. */
  lemma StoredCell(mem: Mem, root: nat, t: Tree, p: Path, a: nat, m: Tree)
    requires Writable(mem, root, t, Ref(a), Map(m), map[]) && SetPath(t, p, Map(m)).Some?
    ensures HeapSet(mem, root, p, Ref(a)).Some?
    ensures Wrote(mem, HeapSet(mem, root, p, Ref(a)).value, root, t, SetPath(t, p, Map(m)).value, Ref(a), Map(m), map[])
    ensures mem.IsMap(root) && HeapSet(mem, root, p, Ref(a)).value.IsMap(root)
    ensures HeapGet(HeapSet(mem, root, p, Ref(a)).value, root, p) == Some(Ref(a))
  {
    StandIn(mem, root, t, a, m);
    SetEither(t, p, Map(m), Null);
    hide Owns, OwnsAll, Foot, FootAll, HeapSet, SetPath, HeapGet, Clear, Writable;
    StoredValue(mem, root, t, p, Ref(a), Map(m), map[]);
    StoredValue(mem, root, t, p, Ref(a), Null, map[a := Null]);
    var mem' := HeapSet(mem, root, p, Ref(a)).value;
    OnlyThatCell(mem'.nodes, HeapGet(mem', root, p).value, a, m);
  }

  lemma OnlyThatCell(h: Nodes, c: Cell, a: nat, m: Tree)
    requires Owns(h, c, Map(m), map[]) && Owns(h, c, Null, map[a := Null])
    ensures c == Ref(a)
  {
  }

  /** The object at a may stand for a leaf instead of its map. */
  lemma StandIn(mem: Mem, root: nat, t: Tree, a: nat, m: Tree)
    requires Writable(mem, root, t, Ref(a), Map(m), map[])
    ensures Writable(mem, root, t, Ref(a), Null, map[a := Null])
  {
    hide OwnsAll, FootAll;
    assert a in Foot(mem.nodes, Ref(a), Map(m), map[]) && root in Foot(mem.nodes, Ref(root), Map(t), map[]);
    NoneShared(mem.nodes, Ref(root), Map(t), map[a := Null]);
  }

  lemma {:induction false} SetEither(t: Tree, p: Path, v: Value, w: Value)
    ensures SetPath(t, p, v).Some? <==> SetPath(t, p, w).Some?
    decreases |p|
  {
    if |p| > 1 && Child(t, p[0]).Some? {
      SetEither(Child(t, p[0]).value, p[1..], v, w);
    }
  }

  /** Where a write succeeds, the maps on its way are none of the shared objects
      that stand for leaves. */
  lemma {:induction false} ClearForWrite(mem: Mem, root: nat, t: Tree, p: Path, pay: Shared, v: Value)
    requires root !in pay && Owns(mem.nodes, Ref(root), Map(t), pay) && SetPath(t, p, v).Some?
    requires forall a :: a in pay ==> !pay[a].Map?
    ensures Clear(mem, root, p, pay)
    decreases |p|
  {
    var h, k := mem.nodes, p[0];
    Unfold(h, root, t, pay);
    if |p| > 1 && k in h[root].m && h[root].m[k].Ref? {
      var a := h[root].m[k].addr;
      assert Owns(h, Ref(a), t[k], pay);
      ClearForWrite(mem, a, t[k].entries, p[1..], pay, v);
    }
  }

  /** The tree with a leaf in the place of the object at p. */
  ghost predicate StandsIn(h: Nodes, root: nat, t: Tree, p: Path, a: nat, m: Tree, mark: Value) {
    && SetPath(t, p, mark).Some?
    && Owns(h, Ref(root), Map(SetPath(t, p, mark).value), map[a := mark])
    && Owns(h, Ref(a), Map(m), map[])
    && Foot(h, Ref(root), Map(SetPath(t, p, mark).value), map[a := mark]) !! Foot(h, Ref(a), Map(m), map[])
    && Foot(h, Ref(root), Map(SetPath(t, p, mark).value), map[a := mark]) + Foot(h, Ref(a), Map(m), map[]) <=
       Foot(h, Ref(root), Map(t), map[])
    && root != a
  }

  lemma {:induction false} Stand(mem: Mem, root: nat, t: Tree, p: Path, a: nat, m: Tree, mark: Value)
    requires Owns(mem.nodes, Ref(root), Map(t), map[]) && mem.IsMap(root)
    requires HeapGet(mem, root, p) == Some(Ref(a)) && GetPath(t, p) == Some(Map(m)) && !mark.Map?
    ensures StandsIn(mem.nodes, root, t, p, a, m, mark)
    decreases |p|
  {
    var k := p[0];
    Unfold(mem.nodes, root, t, map[]);
    if |p| == 1 {
      StandHere(mem.nodes, root, t, k, a, m, mark);
      assert p == [k];
    } else {
      var b := mem.nodes[root].m[k].addr;
      assert Owns(mem.nodes, Ref(b), t[k], map[]);
      Stand(mem, b, t[k].entries, p[1..], a, m, mark);
      hide Owns, OwnsAll, Foot, FootAll, HeapGet, GetPath, StandsIn;
      StandBelow(mem.nodes, root, t, p, b, a, m, mark);
    }
  }

  lemma StandHere(h: Nodes, root: nat, t: Tree, k: string, a: nat, m: Tree, mark: Value)
    requires Owns(h, Ref(root), Map(t), map[]) && root in h && h[root].Entries? && !mark.Map?
    requires k in t && t[k] == Map(m) && k in h[root].m && h[root].m[k] == Ref(a)
    ensures StandsIn(h, root, t, [k], a, m, mark)
  {
    Unfold(h, root, t, map[]);
    assert Owns(h, Ref(a), t[k], map[]);
    assert a in Foot(h, Ref(a), t[k], map[]);
    PutStand(h, root, t, k, Ref(a), mark, a, mark);
  }

  lemma StandBelow(h: Nodes, root: nat, t: Tree, p: Path, b: nat, a: nat, m: Tree, mark: Value)
    requires Owns(h, Ref(root), Map(t), map[]) && root in h && h[root].Entries? && |p| > 1
    requires p[0] in t && t[p[0]].Map? && p[0] in h[root].m && h[root].m[p[0]] == Ref(b)
    requires StandsIn(h, b, t[p[0]].entries, p[1..], a, m, mark)
    ensures StandsIn(h, root, t, p, a, m, mark)
  {
    OwnObject(h, a, m);
    hide Owns, OwnsAll, Foot, FootAll;
    PutStand(h, root, t, p[0], Ref(b), Map(SetPath(t[p[0]].entries, p[1..], mark).value), a, mark);
  }

  lemma OwnObject(h: Nodes, a: nat, m: Tree)
    ensures Owns(h, Ref(a), Map(m), map[]) ==> a in Foot(h, Ref(a), Map(m), map[])
  {
  }

  /** One level: the other entries do not know the object at a. */
  lemma PutStand(h: Nodes, root: nat, t: Tree, k: string, c: Cell, v: Value, a: nat, mark: Value)
    requires Owns(h, Ref(root), Map(t), map[]) && root in h && h[root].Entries?
    requires k in t && k in h[root].m && h[root].m[k] == c
    requires a in Foot(h, c, t[k], map[]) && Owns(h, c, v, map[a := mark])
    requires Foot(h, c, v, map[a := mark]) <= Foot(h, c, t[k], map[])
    ensures root != a && Owns(h, Ref(root), Map(t[k := v]), map[a := mark])
    ensures Foot(h, Ref(root), Map(t[k := v]), map[a := mark]) ==
            {root} + Rest(h, h[root].m, t, k, map[]) + Foot(h, c, v, map[a := mark])
    ensures Foot(h, Ref(root), Map(t), map[]) == {root} + Rest(h, h[root].m, t, k, map[]) + Foot(h, c, t[k], map[])
    ensures Rest(h, h[root].m, t, k, map[]) !! Foot(h, c, t[k], map[]) && root !in Foot(h, c, t[k], map[])
  {
    EntryFeet(h, root, t, k);
    var m, pay := h[root].m, map[a := mark];
    hide Owns, OwnsAll, Foot, FootAll;
    NoneSharedAll(h, m - {k}, t - {k}, pay);
    ExtendAgain(h, m, t, k, c, v, pay);
    StoreTrees.Fold(h, root, t[k := v], pay);
  }

  lemma ExtendAgain(h: Nodes, m: map<string, Cell>, t: Tree, k: string, c: Cell, v: Value, pay: StoreTrees.Shared)
    requires k in m && m[k] == c && Owns(h, c, v, pay) && OwnsAll(h, m - {k}, t - {k}, pay)
    requires Foot(h, c, v, pay) !! FootAll(h, m - {k}, t - {k}, pay)
    ensures OwnsAll(h, m, t[k := v], pay)
    ensures FootAll(h, m, t[k := v], pay) == FootAll(h, m - {k}, t - {k}, pay) + Foot(h, c, v, pay)
  {
    hide Owns, OwnsAll, Foot, FootAll;
    StoreTrees.Extend(h, m - {k}, t - {k}, k, c, v, pay);
    assert (m - {k})[k := c] == m && (t - {k})[k := v] == t[k := v];
  }

  /** The objects of a tree, entry k apart. */
  lemma EntryFeet(h: Nodes, root: nat, t: Tree, k: string)
    requires Owns(h, Ref(root), Map(t), map[]) && root in h && h[root].Entries? && k in t && k in h[root].m
    ensures var rest, own := Rest(h, h[root].m, t, k, map[]), Foot(h, h[root].m[k], t[k], map[]);
            && Foot(h, Ref(root), Map(t), map[]) == {root} + rest + own
            && rest !! own && root !in own && root !in rest
            && OwnsAll(h, h[root].m - {k}, t - {k}, map[])
  {
    Unfold(h, root, t, map[]);
    hide Owns, OwnsAll, Foot, FootAll;
    Separate(h, h[root].m, t, k, map[]);
  }

  /** A write at a prefix of p hides what was written at p. */
  lemma {:induction false} SetOver(t: Tree, p: Path, x: Value, r: Path, v: Value)
    requires SetPath(t, p, x).Some? && r <= p
    ensures SetPath(t, r, v).Some? && SetPath(SetPath(t, p, x).value, r, v) == SetPath(t, r, v)
    decreases |p|
  {
    var k, t' := p[0], SetPath(t, p, x).value;
    assert r[0] == k;
    SetStep(t, p, x);
    if |r| > 1 {
      SetOver(Child(t, k).value, p[1..], x, r[1..], v);
      UpdateTwice(t, k, t'[k], SetPath(t', r, v).value[k]);
    } else {
      UpdateTwice(t, k, t'[k], v);
    }
  }

  /** A write below a map is a write into that map. */
  lemma {:induction false} SetInside(t: Tree, p: Path, m: Tree, q: Path, v: Value)
    requires GetPath(t, p) == Some(Map(m))
    ensures SetPath(t, p + q, v).Some? <==> SetPath(m, q, v).Some?
    ensures SetPath(m, q, v).Some? ==>
              GetPath(SetPath(t, p + q, v).value, p) == Some(Map(SetPath(m, q, v).value))
    decreases |p|
  {
    assert (p + q)[1..] == p[1..] + q;
    if |p| > 1 {
      SetInside(t[p[0]].entries, p[1..], m, q, v);
    } else {
      assert p[1..] + q == q;
    }
  }

  lemma {:induction false} SetWhereGet(t: Tree, p: Path, v: Value)
    requires GetPath(t, p).Some?
    ensures SetPath(t, p, v).Some?
    decreases |p|
  {
    if |p| > 1 {
      SetWhereGet(t[p[0]].entries, p[1..], v);
    }
  }

  /** Get only looks at the objects of the tree that are its own. */
  lemma {:induction false} GetSame(mem: Mem, mem': Mem, root: nat, t: Tree, p: Path, pay: StoreTrees.Shared)
    requires Owns(mem.nodes, Ref(root), Map(t), pay) && Clear(mem, root, p, pay) && mem.IsMap(root)
    requires Same(mem.nodes, mem'.nodes, Foot(mem.nodes, Ref(root), Map(t), pay))
    ensures mem'.IsMap(root) && HeapGet(mem', root, p) == HeapGet(mem, root, p)
    decreases |p|
  {
    Unfold(mem.nodes, root, t, pay);
    var k, m := p[0], mem.nodes[root].m;
    if |p| > 1 && k in t && m[k].Ref? {
      assert Owns(mem.nodes, m[k], t[k], pay) && Clear(mem, m[k].addr, p[1..], pay);
      assert Foot(mem.nodes, m[k], t[k], pay) <= FootAll(mem.nodes, m, t, pay);
      Shape(mem.nodes, m[k], t[k], pay);
      GetSame(mem, mem', m[k].addr, t[k].entries, p[1..], pay);
    }
  }

  /** A value that holds no mark holds none of the objects that stand for it. */
  lemma {:induction false} NoMark(h: Nodes, c: Cell, v: Value, a: nat, mark: Value)
    requires Owns(h, c, v, map[a := mark]) && v != mark
    requires forall p: Path :: v.Map? ==> GetPath(v.entries, p) != Some(mark)
    ensures Owns(h, c, v, map[]) && Foot(h, c, v, map[]) == Foot(h, c, v, map[a := mark])
    decreases v, 1
  {
    if c.Ref? {
      NoMarkAll(h, h[c.addr].m, v.entries, a, mark);
    }
  }

  lemma {:induction false} NoMarkAll(h: Nodes, m: map<string, Cell>, t: Tree, a: nat, mark: Value)
    requires OwnsAll(h, m, t, map[a := mark]) && forall p: Path :: GetPath(t, p) != Some(mark)
    ensures OwnsAll(h, m, t, map[]) && FootAll(h, m, t, map[]) == FootAll(h, m, t, map[a := mark])
    decreases Map(t), 0
  {
    forall k | k in t
      ensures Owns(h, m[k], t[k], map[]) && Foot(h, m[k], t[k], map[]) == Foot(h, m[k], t[k], map[a := mark])
    {
      assert GetPath(t, [k]) == Some(t[k]);
      forall p: Path | t[k].Map? ensures GetPath(t[k].entries, p) != Some(mark) {
        assert ([k] + p)[1..] == p;
        assert GetPath(t, [k] + p) == GetPath(t[k].entries, p);
      }
      NoMark(h, m[k], t[k], a, mark);
    }
  }

  /** The live map holds the object at a under p, where its value is m. */
  ghost predicate Attached(mem: Mem, root: nat, t: Tree, p: Path, a: nat, m: Tree) {
    && mem.IsMap(root) && Owns(mem.nodes, Ref(root), Map(t), map[])
    && HeapGet(mem, root, p) == Some(Ref(a)) && GetPath(t, p) == Some(Map(m))
  }

  /** The write of a cell into a tree that has none of its objects. */
  lemma Written(mem: Mem, root: nat, t: Tree, r: Path, c: Cell, v: Value)
    requires Writable(mem, root, t, c, v, map[])
    ensures mem.IsMap(root) && mem.Valid()
    ensures HeapSet(mem, root, r, c).Some? <==> SetPath(t, r, v).Some?
    ensures var mem', t' := HeapSet(mem, root, r, c).GetOr(mem), SetPath(t, r, v).GetOr(t);
            && mem'.Valid() && mem'.IsMap(root) && mem.next <= mem'.next && Wrote(mem, mem', root, t, t', c, v, map[])
  {
    OwnsRoot(mem, root, t, map[]);
    hide Owns, OwnsAll, Foot, FootAll, HeapSet, SetPath, Clear;
    ClearWhenUnshared(mem, root, r);
    SetRefines(mem, root, t, r, c, v, map[]);
  }

  /** A large leaf. */
  function MarkFor(t: Tree): Value { List([Map(t)]) }

  lemma MarkForNew(t: Tree)
    ensures !MarkFor(t).Map? && MarkFor(t) != Map(t) && forall p: Path :: GetPath(t, p) != Some(MarkFor(t))
  {
    assert MarkFor(t).items[0] == Map(t);
    assert Map(t) < MarkFor(t);
    forall p: Path | GetPath(t, p).Some? ensures GetPath(t, p).value != MarkFor(t) {
      Inside(t, p, MarkFor(t));
    }
  }

  /** A tree in which the object at a stands for a leaf can be written like any. */
  lemma MarkedWrite(mem: Mem, root: nat, s: Tree, a: nat, mark: Value, r: Path, c: Cell, v: Value)
    requires mem.Valid() && mem.IsMap(root) && root != a && a < mem.next && !mark.Map?
    requires Owns(mem.nodes, Ref(root), Map(s), map[a := mark]) && Owns(mem.nodes, c, v, map[])
    requires Foot(mem.nodes, Ref(root), Map(s), map[a := mark]) !! Foot(mem.nodes, c, v, map[])
    requires a !in Foot(mem.nodes, c, v, map[]) && SetPath(s, r, v).Some?
    ensures HeapSet(mem, root, r, c).Some?
    ensures Wrote(mem, HeapSet(mem, root, r, c).value, root, s, SetPath(s, r, v).value, c, v, map[a := mark])
    ensures Foot(mem.nodes, c, v, map[a := mark]) == Foot(mem.nodes, c, v, map[])
  {
    var pay := map[a := mark];
    hide Owns, OwnsAll, Foot, FootAll, HeapSet, SetPath, Clear;
    NoneShared(mem.nodes, c, v, pay);
    ClearForWrite(mem, root, s, r, pay, v);
    SetRefines(mem, root, s, r, c, v, pay);
  }

  lemma ObjectFacts(mem: Mem, root: nat, t: Tree, p: Path, a: nat, m: Tree, mark: Value)
    requires mem.Valid() && Attached(mem, root, t, p, a, m) && !mark.Map?
    ensures StandsIn(mem.nodes, root, t, p, a, m, mark)
    ensures mem.IsMap(a) && a < mem.next && a in Foot(mem.nodes, Ref(a), Map(m), map[])
  {
    Stand(mem, root, t, p, a, m, mark);
    assert Owns(mem.nodes, Ref(a), Map(m), map[]);
  }

  /** What the place p holds in a tree that can also be read with a mark there. */
  lemma PlaceHolds(mem: Mem, root: nat, t: Tree, s: Tree, p: Path, a: nat, m: Tree, mark: Value)
    requires mem.Valid() && mem.IsMap(root) && root != a && !mark.Map? && SetPath(s, p, mark).Some?
    requires Owns(mem.nodes, Ref(root), Map(t), map[]) && GetPath(t, p) == Some(Map(m))
    requires Owns(mem.nodes, Ref(root), Map(s), map[a := mark]) && GetPath(s, p) == Some(mark)
    ensures Attached(mem, root, t, p, a, m)
  {
    hide Owns, OwnsAll, Foot, FootAll, SetPath, GetPath, Clear, HeapGet;
    ClearWhenUnshared(mem, root, p);
    GetRefines(mem, root, t, p, map[]);
    ClearForWrite(mem, root, s, p, map[a := mark], mark);
    GetRefines(mem, root, s, p, map[a := mark]);
    CellIs(mem.nodes, HeapGet(mem, root, p).value, a, m, mark);
  }

  lemma CellIs(h: Nodes, c: Cell, a: nat, m: Tree, mark: Value)
    requires Owns(h, c, Map(m), map[]) && Owns(h, c, mark, map[a := mark]) && !mark.Map?
    ensures c == Ref(a)
  {
  }

  /** A write at an incomparable path leaves the object where it is. */
  lemma AttachedElsewhere(mem: Mem, root: nat, t: Tree, p: Path, a: nat, m: Tree, r: Path, c: Cell, v: Value)
    requires Writable(mem, root, t, c, v, map[]) && Attached(mem, root, t, p, a, m) && !Comparable(p, r)
    ensures Attached(HeapSet(mem, root, r, c).GetOr(mem), root, SetPath(t, r, v).GetOr(t), p, a, m)
  {
    Written(mem, root, t, r, c, v);
    if SetPath(t, r, v).Some? {
      var mark := Null;
      ObjectFacts(mem, root, t, p, a, m, mark);
      var s := SetPath(t, p, mark).value;
      hide Owns, OwnsAll, Foot, FootAll, HeapSet, SetPath, GetPath, Clear, HeapGet;
      SetElsewhereSucceeds(t, p, mark, r, v);
      MarkedWrite(mem, root, s, a, mark, r, c, v);
      SetFrame(t, r, v, p);
      GetAfterSet(t, p, mark);
      SetFrame(s, r, v, p);
      var s', mem' := SetPath(s, r, v).value, HeapSet(mem, root, r, c).value;
      SetWhereGet(s', p, mark);
      PlaceHolds(mem', root, SetPath(t, r, v).value, s', p, a, m, mark);
    }
  }

  /** A write below it goes into the object. */
  lemma AttachedBelow(mem: Mem, root: nat, t: Tree, p: Path, a: nat, m: Tree, q: Path, c: Cell, v: Value)
    requires Writable(mem, root, t, c, v, map[]) && Attached(mem, root, t, p, a, m)
    ensures Attached(HeapSet(mem, root, p + q, c).GetOr(mem), root, SetPath(t, p + q, v).GetOr(t), p, a,
                     SetPath(m, q, v).GetOr(m))
  {
    Written(mem, root, t, p + q, c, v);
    SetInside(t, p, m, q, v);
    if SetPath(t, p + q, v).Some? {
      var mark := Null;
      ObjectFacts(mem, root, t, p, a, m, mark);
      var s := SetPath(t, p, mark).value;
      hide Owns, OwnsAll, Foot, FootAll, HeapSet, SetPath, GetPath, Clear, HeapGet;
      SetThrough(mem, root, p, a, q, c);
      assert Writable(mem, a, m, c, v, map[]);
      Written(mem, a, m, q, c, v);
      var mem' := HeapSet(mem, a, q, c).value;
      FootAllocated(mem.nodes, Ref(root), Map(s), map[a := mark]);
      OwnsFrame(mem.nodes, mem'.nodes, Ref(root), Map(s), map[a := mark]);
      GetAfterSet(t, p, mark);
      SetWhereGet(s, p, mark);
      PlaceHolds(mem', root, SetPath(t, p + q, v).value, s, p, a, SetPath(m, q, v).value, mark);
    }
  }

  /** A write at or above its place takes the object out of the live map, as it is. */
  lemma AttachedAbove(mem: Mem, root: nat, t: Tree, p: Path, a: nat, m: Tree, r: Path, c: Cell, v: Value)
    requires Writable(mem, root, t, c, v, map[]) && Attached(mem, root, t, p, a, m) && r <= p
    ensures HeapSet(mem, root, r, c).Some? && SetPath(t, r, v).Some?
    ensures var h, h' := mem.nodes, HeapSet(mem, root, r, c).value.nodes;
            && Owns(h', Ref(a), Map(m), map[])
            && Foot(h', Ref(a), Map(m), map[]) == Foot(h, Ref(a), Map(m), map[]) <= Foot(h, Ref(root), Map(t), map[])
            && Foot(h', Ref(a), Map(m), map[]) !! Foot(h', Ref(root), Map(SetPath(t, r, v).value), map[])
  {
    Written(mem, root, t, r, c, v);
    SetWhereGet(t, p, Null);
    SetOver(t, p, Null, r, v);
    var t' := SetPath(t, r, v).value;
    var mark := MarkFor(t');
    MarkForNew(t');
    ObjectFacts(mem, root, t, p, a, m, mark);
    var s, pay := SetPath(t, p, mark).value, map[a := mark];
    hide Owns, OwnsAll, Foot, FootAll, HeapSet, SetPath, GetPath, HeapGet, MarkFor;
    SetOver(t, p, mark, r, v);
    MarkedWrite(mem, root, s, a, mark, r, c, v);
    var mem' := HeapSet(mem, root, r, c).value;
    NoMark(mem'.nodes, Ref(root), Map(t'), a, mark);
    FootAllocated(mem.nodes, Ref(a), Map(m), map[]);
    OwnsFrame(mem.nodes, mem'.nodes, Ref(a), Map(m), map[]);
  }

  /** A set of objects that refer to each other only. */
  ghost predicate Enclosed(mem: Mem, region: set<nat>) {
    && region <= mem.nodes.Keys
    && forall x, y :: x in region && PointsTo(mem.nodes[x], y) ==> y in region
  }

  ghost predicate PointsTo(n: Node, y: nat) {
    match n
    case Entries(m) => exists k :: k in m && m[k] == Ref(y)
    case Pointer(c) => c == Ref(y)
  }

  predicate CellIn(c: Cell, region: set<nat>) { c.Ref? ==> c.addr in region }

  /** A write inside a region stays inside, new objects included. */
  ghost predicate StaysInside(mem: Mem, mem': Mem, region: set<nat>, region': set<nat>) {
    && mem'.Valid() && mem.next <= mem'.next && Enclosed(mem', region')
    && region <= region' && (forall x :: x in region' ==> x in region || x >= mem.next)
    && forall x :: x in mem.nodes && x !in region ==> x in mem'.nodes && mem'.nodes[x] == mem.nodes[x]
  }

  lemma InsideOn(mem: Mem, mem1: Mem, mem2: Mem, a: set<nat>, b: set<nat>, c: set<nat>)
    requires mem.Valid() && StaysInside(mem, mem1, a, b) && StaysInside(mem1, mem2, b, c)
    ensures StaysInside(mem, mem2, a, c)
  {
    hide Enclosed;
  }

  lemma PutInside(mem: Mem, a: nat, k: string, c: Cell, region: set<nat>)
    requires mem.Valid() && mem.IsMap(a) && a in region && Enclosed(mem, region) && CellIn(c, region)
    ensures StaysInside(mem, mem.Put(a, k, c), region, region)
  {
    var mem' := mem.Put(a, k, c);
    forall x, y | x in region && x in mem'.nodes && PointsTo(mem'.nodes[x], y) ensures y in region {
      if x == a {
        assert c == Ref(y) || PointsTo(mem.nodes[a], y);
      }
    }
  }

  lemma AllocInside(mem: Mem, region: set<nat>)
    requires mem.Valid() && Enclosed(mem, region)
    ensures StaysInside(mem, mem.Alloc(), region, region + {mem.next})
  {
  }

  /** A new map under k. */
  lemma NestInside(mem: Mem, a: nat, k: string, region: set<nat>)
    requires mem.Valid() && mem.IsMap(a) && a in region && Enclosed(mem, region)
    ensures StaysInside(mem, mem.Put(a, k, Ref(mem.next)).Alloc(), region, region + {mem.next})
  {
    var mem' := mem.Put(a, k, Ref(mem.next)).Alloc();
    forall x, y | x in region + {mem.next} && x in mem'.nodes && PointsTo(mem'.nodes[x], y)
      ensures y in region + {mem.next}
    {
      if x == a {
        assert y == mem.next || PointsTo(mem.nodes[a], y);
      }
    }
  }

  lemma {:induction false} FillInside(mem: Mem, a: nat, p: Path, c: Cell, region: set<nat>) returns (region': set<nat>)
    requires mem.Valid() && mem.IsMap(a) && a in region && Enclosed(mem, region) && CellIn(c, region)
    ensures StaysInside(mem, Fill(mem, a, p, c), region, region')
    decreases |p|
  {
    hide Enclosed;
    if |p| == 1 {
      region' := region;
      PutInside(mem, a, p[0], c, region);
    } else {
      var mem1, more := mem.Put(a, p[0], Ref(mem.next)).Alloc(), region + {mem.next};
      NestInside(mem, a, p[0], region);
      region' := FillInside(mem1, mem.next, p[1..], c, more);
      InsideOn(mem, mem1, Fill(mem1, mem.next, p[1..], c), region, more, region');
    }
  }

  lemma {:induction false} SetInsideRegion(mem: Mem, root: nat, p: Path, c: Cell, region: set<nat>)
    returns (region': set<nat>)
    requires mem.Valid() && mem.IsMap(root) && root in region && Enclosed(mem, region) && CellIn(c, region)
    ensures StaysInside(mem, HeapSet(mem, root, p, c).GetOr(mem), region, region')
    decreases |p|
  {
    region' := region;
    var m := mem.nodes[root].m;
    if |p| == 1 {
      PutInside(mem, root, p[0], c, region);
    } else if p[0] !in m {
      var mem1 := mem.Alloc();
      AllocInside(mem, region);
      region' := FillInside(mem1, mem.next, p[1..], c, region + {mem.next});
      var mem2 := Fill(mem1, mem.next, p[1..], c);
      InsideOn(mem, mem1, mem2, region, region + {mem.next}, region');
      PutInside(mem2, root, p[0], Ref(mem.next), region');
      InsideOn(mem, mem2, mem2.Put(root, p[0], Ref(mem.next)), region, region', region');
    } else if m[p[0]] == NilMap {
      var mem1 := mem.Put(root, p[0], Ref(mem.next)).Alloc();
      NestInside(mem, root, p[0], region);
      region' := SetInsideRegion(mem1, mem.next, p[1..], c, region + {mem.next});
      var mem2 := HeapSet(mem1, mem.next, p[1..], c).GetOr(mem1);
      InsideOn(mem, mem1, mem2, region, region + {mem.next}, region');
      FreshSucceeds(mem1, mem.next, p[1..], c);
    } else if m[p[0]].Ref? && mem.IsMap(m[p[0]].addr) {
      assert PointsTo(mem.nodes[root], m[p[0]].addr);
      region' := SetInsideRegion(mem, m[p[0]].addr, p[1..], c, region);
    }
  }

  lemma FreshSucceeds(mem: Mem, a: nat, p: Path, c: Cell)
    requires mem.Valid() && mem.IsMap(a) && mem.nodes[a].m == map[]
    ensures HeapSet(mem, a, p, c).Some?
  {
  }

  /** What the effective map holds after some keys. */
  function EnvTree(t: Tree, ks: seq<KeyCells>): Tree
    decreases |ks|
  {
    if ks == [] then t
    else
      var k, before := ks[|ks| - 1], EnvTree(t, ks[..|ks| - 1]);
      match Parse(k.key)
      case None => before
      case Some(p) => SetPath(before, p, k.effective).GetOr(before)
  }

  /** The map of a payload object, and whether the live map still holds it. */
  datatype Wear = Wear(attached: bool, m: Tree)

  /** A later key below it is written into the object; one at or above its place
      takes it out of the live map. */
  function WornBy(w: Wear, p: Path, k: KeyCells): Wear {
    match Parse(k.key)
    case None => w
    case Some(r) =>
      if !w.attached then w
      else if StrictPrefix(p, r) then w.(m := SetPath(w.m, r[|p|..], k.effective).GetOr(w.m))
      else if r <= p then w.(attached := false)
      else w
  }

  /** What becomes of the payload of key i, a map stored at p. */
  function Worn(t: Tree, ks: seq<KeyCells>, i: nat, p: Path): Wear
    requires i < |ks| && ks[i].effective.Map?
    decreases |ks|
  {
    var n := |ks| - 1;
    if i == n then Wear(SetPath(EnvTree(t, ks[..n]), p, ks[n].effective).Some?, ks[n].effective.entries)
    else WornBy(Worn(t, ks[..n], i, p), p, ks[n])
  }

  /** The objects of key j's effective payload. */
  ghost function Feet(mem: Mem, ks: seq<KeyCells>, j: nat): set<nat>
    requires j < |ks|
  {
    Foot(mem.nodes, ks[j].effectiveCell, ks[j].effective, map[])
  }

  /** The keys from n on have their payload to themselves. */
  ghost predicate Pending(mem: Mem, root: nat, t: Tree, ks: seq<KeyCells>, n: nat, region: set<nat>) {
    && mem.Valid() && mem.IsMap(root) && Owns(mem.nodes, Ref(root), Map(t), map[])
    && Foot(mem.nodes, Ref(root), Map(t), map[]) !! region
    && (forall j :: n <= j < |ks| ==>
          && Owns(mem.nodes, ks[j].effectiveCell, ks[j].effective, map[])
          && Feet(mem, ks, j) !! region && Feet(mem, ks, j) !! Foot(mem.nodes, Ref(root), Map(t), map[]))
    && forall j, l :: n <= j < l < |ks| ==> Feet(mem, ks, j) !! Feet(mem, ks, l)
  }

  /** An object the live map does not hold any more, or never held. */
  ghost predicate Loose(mem: Mem, root: nat, t: Tree, ks: seq<KeyCells>, n: nat, a: nat, m: Tree, region: set<nat>) {
    var own := Foot(mem.nodes, Ref(a), Map(m), map[]);
    && Owns(mem.nodes, Ref(a), Map(m), map[])
    && own !! Foot(mem.nodes, Ref(root), Map(t), map[]) && own !! region
    && forall j :: n <= j < |ks| ==> own !! Feet(mem, ks, j)
  }

  ghost predicate Wearing(mem: Mem, root: nat, t: Tree, ks: seq<KeyCells>, n: nat, p: Path, a: nat, w: Wear,
      region: set<nat>) {
    if w.attached then Attached(mem, root, t, p, a, w.m) else Loose(mem, root, t, ks, n, a, w.m, region)
  }

  lemma PendingWritable(mem: Mem, root: nat, t: Tree, ks: seq<KeyCells>, n: nat, region: set<nat>)
    requires Pending(mem, root, t, ks, n, region) && n < |ks|
    ensures Writable(mem, root, t, ks[n].effectiveCell, ks[n].effective, map[])
  {
    assert root in Foot(mem.nodes, Ref(root), Map(t), map[]);
  }

  /** The write of key n into the effective map, at r. */
  lemma PendingStep(mem: Mem, root: nat, t: Tree, ks: seq<KeyCells>, n: nat, r: Path, region: set<nat>)
    requires Pending(mem, root, t, ks, n, region) && n < |ks| && forall x :: x in region ==> x < mem.next
    ensures var c, v := ks[n].effectiveCell, ks[n].effective;
            var mem', t' := HeapSet(mem, root, r, c).GetOr(mem), SetPath(t, r, v).GetOr(t);
            && Pending(mem', root, t', ks, n + 1, region) && mem.next <= mem'.next
            && Same(mem.nodes, mem'.nodes, mem.nodes.Keys - Foot(mem.nodes, Ref(root), Map(t), map[]))
            && (forall x :: x in Foot(mem'.nodes, Ref(root), Map(t'), map[]) ==>
                  x in Foot(mem.nodes, Ref(root), Map(t), map[]) || x in Feet(mem, ks, n) || x >= mem.next)
            && forall j :: n < j < |ks| ==> Feet(mem', ks, j) == Feet(mem, ks, j)
  {
    var c, v := ks[n].effectiveCell, ks[n].effective;
    PendingWritable(mem, root, t, ks, n, region);
    hide Owns, Foot, HeapSet, SetPath;
    Written(mem, root, t, r, c, v);
    var mem', t' := HeapSet(mem, root, r, c).GetOr(mem), SetPath(t, r, v).GetOr(t);
    forall j | n < j < |ks|
      ensures Owns(mem'.nodes, ks[j].effectiveCell, ks[j].effective, map[]) && Feet(mem', ks, j) == Feet(mem, ks, j)
      ensures Feet(mem, ks, j) <= mem.nodes.Keys
    {
      FootAllocated(mem.nodes, ks[j].effectiveCell, ks[j].effective, map[]);
      OwnsFrame(mem.nodes, mem'.nodes, ks[j].effectiveCell, ks[j].effective, map[]);
    }
  }

  /** The state after the write of key n into the effective map. */
  lemma LooseStep(mem: Mem, root: nat, t: Tree, ks: seq<KeyCells>, n: nat, r: Path, a: nat, m: Tree, region: set<nat>)
    requires Pending(mem, root, t, ks, n, region) && n < |ks| && forall x :: x in region ==> x < mem.next
    requires Loose(mem, root, t, ks, n, a, m, region)
    ensures Loose(HeapSet(mem, root, r, ks[n].effectiveCell).GetOr(mem), root,
                  SetPath(t, r, ks[n].effective).GetOr(t), ks, n + 1, a, m, region)
  {
    PendingIs(mem, root, t, ks, n, region);
    hide Owns, Foot, HeapSet, SetPath, Pending, Feet;
    PendingStep(mem, root, t, ks, n, r, region);
    var mem' := HeapSet(mem, root, r, ks[n].effectiveCell).GetOr(mem);
    FootAllocated(mem.nodes, Ref(a), Map(m), map[]);
    OwnsFrame(mem.nodes, mem'.nodes, Ref(a), Map(m), map[]);
  }

  lemma PendingIs(mem: Mem, root: nat, t: Tree, ks: seq<KeyCells>, n: nat, region: set<nat>)
    requires Pending(mem, root, t, ks, n, region)
    ensures mem.Valid() && mem.IsMap(root) && Owns(mem.nodes, Ref(root), Map(t), map[])
    ensures Foot(mem.nodes, Ref(root), Map(t), map[]) !! region
    ensures forall j :: n <= j < |ks| ==>
              Feet(mem, ks, j) !! region && Feet(mem, ks, j) !! Foot(mem.nodes, Ref(root), Map(t), map[])
  {
  }

  lemma WearingStep(mem: Mem, root: nat, t: Tree, ks: seq<KeyCells>, n: nat, r: Path, p: Path, a: nat, w: Wear,
      region: set<nat>)
    requires Pending(mem, root, t, ks, n, region) && n < |ks| && forall x :: x in region ==> x < mem.next
    requires Wearing(mem, root, t, ks, n, p, a, w, region) && Parse(ks[n].key) == Some(r)
    ensures Wearing(HeapSet(mem, root, r, ks[n].effectiveCell).GetOr(mem), root,
                    SetPath(t, r, ks[n].effective).GetOr(t), ks, n + 1, p, a, WornBy(w, p, ks[n]), region)
  {
    PendingIs(mem, root, t, ks, n, region);
    hide Owns, Foot, HeapSet, SetPath, Pending, Feet, Attached, Loose, Parse;
    PendingWritable(mem, root, t, ks, n, region);
    var c, v := ks[n].effectiveCell, ks[n].effective;
    if !w.attached {
      LooseStep(mem, root, t, ks, n, r, a, w.m, region);
    } else if StrictPrefix(p, r) {
      assert r == p + r[|p|..];
      AttachedBelow(mem, root, t, p, a, w.m, r[|p|..], c, v);
    } else if r <= p {
      AttachedAbove(mem, root, t, p, a, w.m, r, c, v);
      PendingStep(mem, root, t, ks, n, r, region);
      TakenOut(mem, HeapSet(mem, root, r, c).value, root, t, SetPath(t, r, v).value, ks, n, a, w.m, region);
    } else {
      NotComparable(p, r);
      AttachedElsewhere(mem, root, t, p, a, w.m, r, c, v);
    }
  }

  lemma NotComparable(p: Path, r: Path)
    requires !StrictPrefix(p, r) && !(r <= p)
    ensures !Comparable(p, r)
  {
  }

  lemma TakenOut(mem: Mem, mem': Mem, root: nat, t: Tree, t': Tree, ks: seq<KeyCells>, n: nat, a: nat, m: Tree,
      region: set<nat>)
    requires Pending(mem, root, t, ks, n, region) && n < |ks|
    requires Owns(mem'.nodes, Ref(a), Map(m), map[])
    requires Foot(mem'.nodes, Ref(a), Map(m), map[]) <= Foot(mem.nodes, Ref(root), Map(t), map[])
    requires Foot(mem'.nodes, Ref(a), Map(m), map[]) !! Foot(mem'.nodes, Ref(root), Map(t'), map[])
    requires forall j :: n < j < |ks| ==> Feet(mem', ks, j) == Feet(mem, ks, j)
    ensures Loose(mem', root, t', ks, n + 1, a, m, region)
  {
    PendingIs(mem, root, t, ks, n, region);
    hide Owns, Foot, Pending, Feet;
  }

  /** The payload's own key: it is stored, or stays out. */
  lemma WearingStart(mem: Mem, root: nat, t: Tree, ks: seq<KeyCells>, n: nat, p: Path, a: nat, m: Tree,
      region: set<nat>)
    requires Pending(mem, root, t, ks, n, region) && n < |ks| && forall x :: x in region ==> x < mem.next
    requires ks[n].effectiveCell == Ref(a) && ks[n].effective == Map(m)
    ensures Wearing(HeapSet(mem, root, p, Ref(a)).GetOr(mem), root, SetPath(t, p, Map(m)).GetOr(t), ks, n + 1, p, a,
                    Wear(SetPath(t, p, Map(m)).Some?, m), region)
  {
    PendingWritable(mem, root, t, ks, n, region);
    PendingOwn(mem, root, t, ks, n, a, m, region);
    hide Owns, Foot, HeapSet, SetPath, HeapGet, Pending, Feet, Loose, Writable;
    if SetPath(t, p, Map(m)).Some? {
      StoredCell(mem, root, t, p, a, m);
      GetAfterSet(t, p, Map(m));
    } else {
      PendingStep(mem, root, t, ks, n, p, region);
      WrittenNot(mem, root, t, p, Ref(a), Map(m));
    }
  }

  lemma WrittenNot(mem: Mem, root: nat, t: Tree, r: Path, c: Cell, v: Value)
    requires Writable(mem, root, t, c, v, map[]) && mem.IsMap(root) && mem.Valid() && SetPath(t, r, v).None?
    ensures HeapSet(mem, root, r, c).None?
  {
    Written(mem, root, t, r, c, v);
  }

  lemma PendingOwn(mem: Mem, root: nat, t: Tree, ks: seq<KeyCells>, n: nat, a: nat, m: Tree, region: set<nat>)
    requires Pending(mem, root, t, ks, n, region) && n < |ks|
    requires ks[n].effectiveCell == Ref(a) && ks[n].effective == Map(m)
    ensures Loose(mem, root, t, ks, n + 1, a, m, region)
  {
    hide Owns, Foot;
    assert Feet(mem, ks, n) == Foot(mem.nodes, Ref(a), Map(m), map[]);
  }

  /** What happens in a region is not noticed outside. */
  lemma PendingFrame(mem: Mem, mem': Mem, root: nat, t: Tree, ks: seq<KeyCells>, n: nat, region: set<nat>,
      region': set<nat>)
    requires Pending(mem, root, t, ks, n, region) && StaysInside(mem, mem', region, region')
    ensures Pending(mem', root, t, ks, n, region')
    ensures Foot(mem'.nodes, Ref(root), Map(t), map[]) == Foot(mem.nodes, Ref(root), Map(t), map[])
    ensures forall j :: n <= j < |ks| ==> Feet(mem', ks, j) == Feet(mem, ks, j)
  {
    TreeFrame(mem, mem', Ref(root), Map(t), region, region');
    forall j | n <= j < |ks|
      ensures Owns(mem'.nodes, ks[j].effectiveCell, ks[j].effective, map[]) && Feet(mem', ks, j) == Feet(mem, ks, j)
      ensures Feet(mem', ks, j) !! region'
    {
      TreeFrame(mem, mem', ks[j].effectiveCell, ks[j].effective, region, region');
    }
    assert mem'.IsMap(root) by { assert Owns(mem'.nodes, Ref(root), Map(t), map[]); }
    hide Owns, Foot, Enclosed;
  }

  lemma TreeFrame(mem: Mem, mem': Mem, c: Cell, v: Value, region: set<nat>, region': set<nat>)
    requires mem.Valid() && Owns(mem.nodes, c, v, map[]) && Foot(mem.nodes, c, v, map[]) !! region
    requires StaysInside(mem, mem', region, region')
    ensures Owns(mem'.nodes, c, v, map[]) && Foot(mem'.nodes, c, v, map[]) == Foot(mem.nodes, c, v, map[])
    ensures Foot(mem'.nodes, c, v, map[]) !! region'
  {
    hide Owns, Foot, Enclosed;
    FootAllocated(mem.nodes, c, v, map[]);
    OwnsFrame(mem.nodes, mem'.nodes, c, v, map[]);
  }

  lemma WearingFrame(mem: Mem, mem': Mem, root: nat, t: Tree, ks: seq<KeyCells>, n: nat, p: Path, a: nat, w: Wear,
      region: set<nat>, region': set<nat>)
    requires Pending(mem, root, t, ks, n, region) && StaysInside(mem, mem', region, region')
    requires Wearing(mem, root, t, ks, n, p, a, w, region)
    ensures Wearing(mem', root, t, ks, n, p, a, w, region')
  {
    PendingFrame(mem, mem', root, t, ks, n, region, region');
    PendingIs(mem, root, t, ks, n, region);
    InsideValid(mem, mem', region, region');
    if w.attached {
      hide Owns, Foot, HeapGet, GetPath, Pending;
      ClearWhenUnshared(mem, root, p);
      SameOutside(mem, mem', Foot(mem.nodes, Ref(root), Map(t), map[]), region, region');
      GetSame(mem, mem', root, t, p, map[]);
      PendingIs(mem', root, t, ks, n, region');
    } else {
      hide Owns, Foot, Pending;
      TreeFrame(mem, mem', Ref(a), Map(w.m), region, region');
    }
  }

  lemma InsideValid(mem: Mem, mem': Mem, region: set<nat>, region': set<nat>)
    requires StaysInside(mem, mem', region, region')
    ensures mem'.Valid() && forall x :: x in region' ==> x < mem'.next
  {
  }

  lemma SameOutside(mem: Mem, mem': Mem, feet: set<nat>, region: set<nat>, region': set<nat>)
    requires StaysInside(mem, mem', region, region') && feet !! region
    ensures Same(mem.nodes, mem'.nodes, feet)
  {
  }

  /** The unresolved and the merged map, and the raw payloads, keep to themselves. */
  ghost predicate RawWorld(mem: Mem, r: Roots, ks: seq<KeyCells>, region: set<nat>) {
    && Enclosed(mem, region) && r.raw in region && r.merged in region
    && forall k :: k in ks ==> CellIn(k.rawCell, region)
  }

  /** In front of key n of the loop. */
  ghost predicate InFront(mem: Mem, r: Roots, t: Tree, ks: seq<KeyCells>, n: nat, i: nat, p: Path, a: nat,
      region: set<nat>)
    requires i < |ks| && ks[i].effective.Map? && n <= |ks|
  {
    && AllMaps(mem, r) && RawWorld(mem, r, ks, region)
    && Pending(mem, r.env, EnvTree(t, ks[..n]), ks, n, region)
    && (n > i ==> Wearing(mem, r.env, EnvTree(t, ks[..n]), ks, n, p, a, WornUpTo(t, ks, n, i, p), region))
  }

  function WornUpTo(t: Tree, ks: seq<KeyCells>, n: nat, i: nat, p: Path): Wear
    requires i < n <= |ks| && ks[i].effective.Map?
  {
    Worn(t, ks[..n], i, p)
  }

  lemma WornNext(t: Tree, ks: seq<KeyCells>, n: nat, i: nat, p: Path)
    requires i <= n < |ks| && ks[i].effective.Map?
    ensures i < n ==> WornUpTo(t, ks, n + 1, i, p) == WornBy(WornUpTo(t, ks, n, i, p), p, ks[n])
    ensures i == n ==> WornUpTo(t, ks, n + 1, i, p) ==
                       Wear(SetPath(EnvTree(t, ks[..n]), p, ks[n].effective).Some?, ks[n].effective.entries)
  {
    hide SetPath, WornBy, EnvTree;
    assert ks[..n + 1][..n] == ks[..n];
  }

  lemma EnvNext(t: Tree, ks: seq<KeyCells>, n: nat)
    requires n < |ks|
    ensures EnvTree(t, ks[..n + 1]) ==
            match Parse(ks[n].key)
            case None => EnvTree(t, ks[..n])
            case Some(p) => SetPath(EnvTree(t, ks[..n]), p, ks[n].effective).GetOr(EnvTree(t, ks[..n]))
  {
    assert ks[..n + 1][..n] == ks[..n];
  }

  lemma RegionKept(mem: Mem, mem': Mem, region: set<nat>, feet: set<nat>)
    requires Enclosed(mem, region) && Same(mem.nodes, mem'.nodes, mem.nodes.Keys - feet) && feet !! region
    ensures Enclosed(mem', region)
  {
    assert forall x :: x in region ==> x in mem'.nodes && mem'.nodes[x] == mem.nodes[x];
  }

  lemma RegionLow(mem: Mem, region: set<nat>)
    requires mem.Valid() && Enclosed(mem, region)
    ensures forall x :: x in region ==> x < mem.next
  {
  }

  /** The write of key n into the effective map. */
  lemma EnvStep(mem: Mem, r: Roots, t: Tree, ks: seq<KeyCells>, n: nat, i: nat, p: Path, a: nat, region: set<nat>,
      q: Path)
    requires i < |ks| && n < |ks|
    requires ks[i].effective.Map? && Parse(ks[i].key) == Some(p) && ks[i].effectiveCell == Ref(a)
    requires InFront(mem, r, t, ks, n, i, p, a, region) && Parse(ks[n].key) == Some(q) && mem.Valid()
    ensures var mem' := HeapSet(mem, r.env, q, ks[n].effectiveCell).GetOr(mem);
            mem'.Valid() && AllMaps(mem', r) && InFront(mem', r, t, ks, n + 1, i, p, a, region)
  {
    var root, before := r.env, EnvTree(t, ks[..n]);
    PendingIs(mem, root, before, ks, n, region);
    RegionLow(mem, region);
    EnvNext(t, ks, n);
    if i <= n { WornNext(t, ks, n, i, p); }
    SetKeepsMaps(mem, r, q, ks[n].effectiveCell);
    hide Owns, Foot, HeapSet, SetPath, Pending, Feet, Wearing, Parse, Enclosed, EnvTree, WornUpTo, WornBy;
    PendingStep(mem, root, before, ks, n, q, region);
    var mem' := HeapSet(mem, root, q, ks[n].effectiveCell).GetOr(mem);
    RegionKept(mem, mem', region, Foot(mem.nodes, Ref(root), Map(before), map[]));
    if n > i {
      WearingStep(mem, root, before, ks, n, q, p, a, WornUpTo(t, ks, n, i, p), region);
    } else if n == i {
      WearingStart(mem, root, before, ks, n, p, a, ks[n].effective.entries, region);
    }
  }

  lemma SetKeepsMaps(mem: Mem, r: Roots, q: Path, c: Cell)
    requires mem.Valid() && AllMaps(mem, r)
    ensures var mem' := HeapSet(mem, r.env, q, c).GetOr(mem); mem'.Valid() && AllMaps(mem', r)
  {
    hide HeapSet;
  }

  /** A write into one of the other two maps. */
  lemma RawStep(mem: Mem, r: Roots, t: Tree, ks: seq<KeyCells>, n: nat, i: nat, p: Path, a: nat, region: set<nat>,
      root: nat, q: Path, k: KeyCells) returns (region': set<nat>)
    requires i < |ks| && n <= |ks| && ks[i].effective.Map? && InFront(mem, r, t, ks, n, i, p, a, region) && mem.Valid()
    requires k in ks && (root == r.raw || root == r.merged)
    ensures mem.IsMap(root)
    ensures var mem' := HeapSet(mem, root, q, k.rawCell).GetOr(mem);
            mem'.Valid() && AllMaps(mem', r) && InFront(mem', r, t, ks, n, i, p, a, region')
  {
    hide Owns, Foot, HeapSet, SetPath, Pending, Feet, Wearing, Parse, Enclosed, EnvTree, WornUpTo, WornBy;
    region' := SetInsideRegion(mem, root, q, k.rawCell, region);
    var mem', before := HeapSet(mem, root, q, k.rawCell).GetOr(mem), EnvTree(t, ks[..n]);
    assert forall b :: mem.IsMap(b) ==> mem'.IsMap(b);
    PendingFrame(mem, mem', r.env, before, ks, n, region, region');
    if n > i {
      WearingFrame(mem, mem', r.env, before, ks, n, p, a, WornUpTo(t, ks, n, i, p), region, region');
    }
  }

  /** One key of the loop. */
  lemma KeyWear(mem: Mem, r: Roots, t: Tree, ks: seq<KeyCells>, n: nat, i: nat, p: Path, a: nat, region: set<nat>)
    returns (region': set<nat>)
    requires i < |ks| && n < |ks|
    requires ks[i].effective.Map? && Parse(ks[i].key) == Some(p) && ks[i].effectiveCell == Ref(a)
    requires InFront(mem, r, t, ks, n, i, p, a, region) && mem.Valid()
    ensures InFront(HeapKey(mem, r, ks[n]), r, t, ks, n + 1, i, p, a, region')
  {
    var k := ks[n];
    region' := region;
    if Parse(k.key).None? {
      NoKeyWear(mem, r, t, ks, n, i, p, a, region);
    } else {
      var q := Parse(k.key).value;
      hide InFront, HeapSet, Parse;
      EnvStep(mem, r, t, ks, n, i, p, a, region, q);
      var e := HeapSet(mem, r.env, q, k.effectiveCell);
      if e.Some? {
        region' := RawStep(e.value, r, t, ks, n + 1, i, p, a, region', r.raw, q, k);
        var u := HeapSet(e.value, r.raw, q, k.rawCell);
        if u.Some? {
          region' := RawStep(u.value, r, t, ks, n + 1, i, p, a, region', r.merged, q, k);
        }
      }
    }
  }

  /** A key that does not parse is never written. */
  lemma NoKeyWear(mem: Mem, r: Roots, t: Tree, ks: seq<KeyCells>, n: nat, i: nat, p: Path, a: nat, region: set<nat>)
    requires i < |ks| && n < |ks| && ks[i].effective.Map? && Parse(ks[i].key) == Some(p)
    requires InFront(mem, r, t, ks, n, i, p, a, region) && Parse(ks[n].key).None?
    ensures InFront(mem, r, t, ks, n + 1, i, p, a, region)
  {
    EnvNext(t, ks, n);
    if i < n { WornNext(t, ks, n, i, p); }
    hide Owns, Foot, Parse, EnvTree, WornUpTo, Attached;
  }

  lemma {:induction false} KeysWear(mem: Mem, r: Roots, t: Tree, ks: seq<KeyCells>, n: nat, i: nat, p: Path, a: nat,
      region: set<nat>) returns (region': set<nat>)
    requires i < |ks| && n <= |ks|
    requires ks[i].effective.Map? && Parse(ks[i].key) == Some(p) && ks[i].effectiveCell == Ref(a)
    requires InFront(mem, r, t, ks, 0, i, p, a, region) && mem.Valid() && AllMaps(mem, r)
    ensures InFront(HeapKeys(mem, r, ks[..n]), r, t, ks, n, i, p, a, region')
    decreases n
  {
    hide InFront, HeapKey, Parse;
    if n == 0 {
      region' := region;
    } else {
      region' := KeysWear(mem, r, t, ks, n - 1, i, p, a, region);
      assert ks[..n][..n - 1] == ks[..n - 1];
      region' := KeyWear(HeapKeys(mem, r, ks[..n - 1]), r, t, ks, n - 1, i, p, a, region');
    }
  }

  lemma {:induction false} FeetEnclosed(mem: Mem, c: Cell, v: Value, x: nat, y: nat)
    requires Owns(mem.nodes, c, v, map[]) && x in Foot(mem.nodes, c, v, map[])
    ensures x in mem.nodes
    ensures PointsTo(mem.nodes[x], y) ==> y in Foot(mem.nodes, c, v, map[])
    decreases v
  {
    var m, t := mem.nodes[c.addr].m, v.entries;
    if x == c.addr {
      if PointsTo(mem.nodes[x], y) {
        var k :| k in m && m[k] == Ref(y);
        assert Owns(mem.nodes, m[k], t[k], map[]);
        assert y in Foot(mem.nodes, m[k], t[k], map[]);
      }
    } else {
      var k :| k in t && k in m && x in Foot(mem.nodes, m[k], t[k], map[]);
      assert Owns(mem.nodes, m[k], t[k], map[]);
      FeetEnclosed(mem, m[k], t[k], x, y);
    }
  }

  /** The objects of key j's raw payload. */
  ghost function RawFeet(mem: Mem, ks: seq<KeyCells>, j: nat): set<nat>
    requires j < |ks|
  {
    Foot(mem.nodes, ks[j].rawCell, ks[j].raw, map[])
  }

  /** Payloads as pushes leave them: trees of their own, the effective ones apart
      from each other and from the raw ones. */
  ghost predicate PrivatePayloads(mem: Mem, ks: seq<KeyCells>) {
    && (forall j :: 0 <= j < |ks| ==>
          Owns(mem.nodes, ks[j].rawCell, ks[j].raw, map[]) &&
          Owns(mem.nodes, ks[j].effectiveCell, ks[j].effective, map[]))
    && (forall j, l :: 0 <= j < l < |ks| ==> Feet(mem, ks, j) !! Feet(mem, ks, l))
    && forall j, l :: 0 <= j < |ks| && 0 <= l < |ks| ==> Feet(mem, ks, j) !! RawFeet(mem, ks, l)
  }

  lemma PayloadsStay(mem: Mem, mem': Mem, ks: seq<KeyCells>)
    requires PrivatePayloads(mem, ks) && Extends(mem, mem')
    ensures PrivatePayloads(mem', ks)
    ensures forall j :: 0 <= j < |ks| ==> Feet(mem', ks, j) == Feet(mem, ks, j) <= mem.nodes.Keys
    ensures forall j :: 0 <= j < |ks| ==> RawFeet(mem', ks, j) == RawFeet(mem, ks, j) <= mem.nodes.Keys
  {
    hide Owns, Foot;
    forall j | 0 <= j < |ks|
      ensures Owns(mem'.nodes, ks[j].rawCell, ks[j].raw, map[]) && RawFeet(mem', ks, j) == RawFeet(mem, ks, j)
      ensures Owns(mem'.nodes, ks[j].effectiveCell, ks[j].effective, map[]) && Feet(mem', ks, j) == Feet(mem, ks, j)
      ensures Feet(mem, ks, j) <= mem.nodes.Keys && RawFeet(mem, ks, j) <= mem.nodes.Keys
    {
      FootAllocated(mem.nodes, ks[j].rawCell, ks[j].raw, map[]);
      FootAllocated(mem.nodes, ks[j].effectiveCell, ks[j].effective, map[]);
      OwnsFrame(mem.nodes, mem'.nodes, ks[j].rawCell, ks[j].raw, map[]);
      OwnsFrame(mem.nodes, mem'.nodes, ks[j].effectiveCell, ks[j].effective, map[]);
    }
  }

  ghost function RawRegion(mem: Mem, r: Roots, t: Trees, ks: seq<KeyCells>): set<nat> {
    Foot(mem.nodes, Ref(r.raw), Map(t.raw), map[]) + Foot(mem.nodes, Ref(r.merged), Map(t.merged), map[]) +
    set j, x | 0 <= j < |ks| && x in RawFeet(mem, ks, j) :: x
  }

  lemma CellInFeet(h: Nodes, c: Cell, v: Value)
    requires Owns(h, c, v, map[]) && c.Ref?
    ensures c.addr in Foot(h, c, v, map[])
  {
  }

  lemma RegionMembers(mem: Mem, r: Roots, t: Trees, ks: seq<KeyCells>)
    requires PrivatePayloads(mem, ks)
    requires Owns(mem.nodes, Ref(r.raw), Map(t.raw), map[]) && Owns(mem.nodes, Ref(r.merged), Map(t.merged), map[])
    ensures var region := RawRegion(mem, r, t, ks);
            r.raw in region && r.merged in region && forall k :: k in ks ==> CellIn(k.rawCell, region)
  {
    hide Owns, Foot;
    CellInFeet(mem.nodes, Ref(r.raw), Map(t.raw));
    CellInFeet(mem.nodes, Ref(r.merged), Map(t.merged));
    forall j | 0 <= j < |ks| ensures CellIn(ks[j].rawCell, RawRegion(mem, r, t, ks)) {
      if ks[j].rawCell.Ref? {
        CellInFeet(mem.nodes, ks[j].rawCell, ks[j].raw);
        assert ks[j].rawCell.addr in RawFeet(mem, ks, j);
      }
    }
  }

  lemma RegionEnclosed(mem: Mem, r: Roots, t: Trees, ks: seq<KeyCells>)
    requires PrivatePayloads(mem, ks)
    requires Owns(mem.nodes, Ref(r.raw), Map(t.raw), map[]) && Owns(mem.nodes, Ref(r.merged), Map(t.merged), map[])
    ensures RawWorld(mem, r, ks, RawRegion(mem, r, t, ks))
  {
    hide *;
    RegionMembers(mem, r, t, ks);
    var region := RawRegion(mem, r, t, ks);
    forall x | x in region ensures x in mem.nodes && forall y :: PointsTo(mem.nodes[x], y) ==> y in region {
      forall y ensures x in mem.nodes && (PointsTo(mem.nodes[x], y) ==> y in region) {
        RegionStep(mem, r, t, ks, x, y);
      }
    }
    RegionIsWorld(mem, r, ks, region);
  }

  lemma RegionIsWorld(mem: Mem, r: Roots, ks: seq<KeyCells>, region: set<nat>)
    requires forall x :: x in region ==> x in mem.nodes && forall y :: PointsTo(mem.nodes[x], y) ==> y in region
    requires r.raw in region && r.merged in region && forall k :: k in ks ==> CellIn(k.rawCell, region)
    ensures RawWorld(mem, r, ks, region)
  {
    hide PointsTo, CellIn;
  }

  lemma RegionStep(mem: Mem, r: Roots, t: Trees, ks: seq<KeyCells>, x: nat, y: nat)
    requires PrivatePayloads(mem, ks)
    requires Owns(mem.nodes, Ref(r.raw), Map(t.raw), map[]) && Owns(mem.nodes, Ref(r.merged), Map(t.merged), map[])
    requires x in RawRegion(mem, r, t, ks)
    ensures x in mem.nodes && (PointsTo(mem.nodes[x], y) ==> y in RawRegion(mem, r, t, ks))
  {
    hide Owns, Foot, PointsTo;
    if x in Foot(mem.nodes, Ref(r.raw), Map(t.raw), map[]) {
      FeetEnclosed(mem, Ref(r.raw), Map(t.raw), x, y);
    } else if x in Foot(mem.nodes, Ref(r.merged), Map(t.merged), map[]) {
      FeetEnclosed(mem, Ref(r.merged), Map(t.merged), x, y);
    } else {
      var j :| 0 <= j < |ks| && x in RawFeet(mem, ks, j);
      FeetEnclosed(mem, ks[j].rawCell, ks[j].raw, x, y);
      assert PointsTo(mem.nodes[x], y) ==> y in RawFeet(mem, ks, j);
    }
  }

  lemma StartPending(mem0: Mem, mem: Mem, r: Roots, t: Trees, ks: seq<KeyCells>)
    requires FreshRoots(mem0, mem, r, t) && PrivatePayloads(mem0, ks)
    ensures mem.Valid() && AllMaps(mem, r)
    ensures Pending(mem, r.env, t.env, ks, 0, RawRegion(mem, r, t, ks))
    ensures RawWorld(mem, r, ks, RawRegion(mem, r, t, ks))
  {
    assert r.At(Effective) == r.env && r.At(Unresolved) == r.raw && r.At(Merged) == r.merged;
    assert t.At(Effective) == t.env && t.At(Unresolved) == t.raw && t.At(Merged) == t.merged;
    PayloadsStay(mem0, mem, ks);
    OwnsMap(mem, r.env, t.env);
    OwnsMap(mem, r.raw, t.raw);
    OwnsMap(mem, r.merged, t.merged);
    hide Owns, Foot;
    RegionEnclosed(mem, r, t, ks);
  }

  lemma OwnsMap(mem: Mem, root: nat, t: Tree)
    requires Owns(mem.nodes, Ref(root), Map(t), map[])
    ensures mem.IsMap(root)
  {
  }

  lemma {:induction false} EnvOfKeys(o: Settings, v: Views, ks: seq<KeyCells>)
    ensures ValueKeys(o, v, ks).env == EnvTree(v.env, ks)
    decreases |ks|
  {
    hide SetPath, Parse;
    if ks != [] {
      EnvOfKeys(o, v, ks[..|ks| - 1]);
    }
  }

  /** The general condition. Private payloads are replayed on fresh copies of the
      base: the effective map is right, whatever lies below what; and afterwards a
      map payload holds what the later keys below it that reached it have made of
      it, so it is intact exactly when they change nothing. */
  lemma PayloadWornIff(o: Settings, mem0: Mem, mem: Mem, r: Roots, v: Views, ks: seq<KeyCells>, i: nat, p: Path,
      a: nat)
    requires FreshRoots(mem0, mem, r, TreesOf(v)) && PrivatePayloads(mem0, ks)
    requires i < |ks| && ks[i].effective.Map? && Parse(ks[i].key) == Some(p) && ks[i].effectiveCell == Ref(a)
    ensures mem.Valid() && AllMaps(mem, r)
    ensures var after, m := HeapKeys(mem, r, ks), Worn(v.env, ks, i, p).m;
            && Owns(after.nodes, Ref(r.env), Map(ValueKeys(o, v, ks).env), map[])
            && Owns(after.nodes, Ref(a), Map(m), map[])
            && (Owns(after.nodes, Ref(a), ks[i].effective, map[]) <==> Map(m) == ks[i].effective)
  {
    hide Owns, Foot, HeapKeys, Parse, FreshRoots, PrivatePayloads, Worn, Enclosed;
    StartPending(mem0, mem, r, TreesOf(v), ks);
    assert ks[..0] == [] && ks[..|ks|] == ks && EnvTree(v.env, []) == v.env;
    var region := KeysWear(mem, r, v.env, ks, |ks|, i, p, a, RawRegion(mem, r, TreesOf(v), ks));
    var after, w := HeapKeys(mem, r, ks), Worn(v.env, ks, i, p);
    EnvOfKeys(o, v, ks);
    PendingIs(after, r.env, EnvTree(v.env, ks), ks, |ks|, region);
    WornHolds(after, r.env, EnvTree(v.env, ks), ks, |ks|, p, a, w, region);
    if Owns(after.nodes, Ref(a), ks[i].effective, map[]) {
      OwnsUnique(after.nodes, Ref(a), ks[i].effective, Map(w.m));
    }
  }

  lemma WornHolds(mem: Mem, root: nat, t: Tree, ks: seq<KeyCells>, n: nat, p: Path, a: nat, w: Wear, region: set<nat>)
    requires Wearing(mem, root, t, ks, n, p, a, w, region)
    ensures Owns(mem.nodes, Ref(a), Map(w.m), map[])
  {
    hide Owns, Foot, HeapGet, GetPath;
    if w.attached {
      ClearWhenUnshared(mem, root, p);
      GetRefines(mem, root, t, p, map[]);
    }
  }

  lemma NotBelow(k: string, l: string, p: Path, r: Path)
    requires Parse(k) == Some(p) && Parse(l) == Some(r) && !Below(k, l)
    ensures !StrictPrefix(p, r)
  {
    BelowIsStrictPrefix(k, l);
    assert p <= r ==> r[..|p|] == p;
  }

  /** Without a key below an earlier map, nothing wears. */
  lemma {:induction false} ApartIsIntact(t: Tree, ks: seq<KeyCells>, i: nat, p: Path)
    requires i < |ks| && ks[i].effective.Map? && Parse(ks[i].key) == Some(p) && Apart(ks)
    ensures Worn(t, ks, i, p).m == ks[i].effective.entries
    decreases |ks|
  {
    var n := |ks| - 1;
    if i < n {
      ApartPrefix(ks, n);
      ApartIsIntact(t, ks[..n], i, p);
      if Parse(ks[n].key).Some? {
        NotBelow(ks[i].key, ks[n].key, p, Parse(ks[n].key).value);
      }
    }
  }
}
