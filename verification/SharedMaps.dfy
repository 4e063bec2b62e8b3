/** Two maps of the heap that share payload objects: the unresolved and the merged
    map of a replay. A write to both is one write where their paths meet in a
    shared object, and two writes apart elsewhere. */
module SharedMaps {
  import opened Values
  import opened Paths
  import opened Store
  import opened StoreTrees
  import opened SharedObjects
  import opened PayloadWear

  /** A get along a new branch that leads to c at p. */
  ghost predicate OnBranch(mem: Mem, a: nat, p: Path, c: Cell, q: Path, n: nat) {
    && mem.IsMap(a) && HeapGet(mem, a, q).Some?
    && (q == p ==> HeapGet(mem, a, q) == Some(c))
    && (|q| < |p| ==> HeapGet(mem, a, q).value.Ref? && HeapGet(mem, a, q).value.addr >= n)
  }

  /** Gets along the branch that Fill makes, read in any heap that agrees on it. */
  lemma {:induction false} FillGets(mem: Mem, a: nat, p: Path, c: Cell, q: Path, mem': Mem)
    requires mem.Valid() && mem.IsMap(a) && a < mem.next && mem.nodes[a].m == map[] && q <= p
    requires var f := Fill(mem, a, p, c);
             forall x :: x in f.nodes && (x == a || x >= mem.next) ==> x in mem'.nodes && mem'.nodes[x] == f.nodes[x]
    ensures OnBranch(mem', a, p, c, q, mem.next)
    decreases |p|
  {
    assert q[0] == p[0];
    if |p| > 1 {
      FillStep(mem, a, p, c);
      assert mem'.nodes[a] == Entries(map[p[0] := Ref(mem.next)]);
      hide Fill, OnBranch;
      var mem1 := mem.Put(a, p[0], Ref(mem.next)).Alloc();
      if |q| > 1 {
        FillGets(mem1, mem.next, p[1..], c, q[1..], mem');
        BranchLower(mem', a, mem.next, p, c, q, mem1.next);
      } else {
        BranchTop(mem', a, p, c, q, mem.next);
      }
    } else {
      assert q == p;
    }
  }

  lemma BranchLower(mem: Mem, a: nat, b: nat, p: Path, c: Cell, q: Path, n: nat)
    requires a in mem.nodes && mem.nodes[a] == Entries(map[p[0] := Ref(b)]) && |p| > 1 && |q| > 1 && q[0] == p[0]
    requires OnBranch(mem, b, p[1..], c, q[1..], n) && b < n
    ensures OnBranch(mem, a, p, c, q, b)
  {
    assert q[1..] == p[1..] <==> q == p;
  }

  lemma BranchTop(mem: Mem, a: nat, p: Path, c: Cell, q: Path, b: nat)
    requires a in mem.nodes && mem.nodes[a] == Entries(map[p[0] := Ref(b)]) && |p| > 1 && q == [p[0]]
    ensures OnBranch(mem, a, p, c, q, b)
  {
  }

  lemma FillStep(mem: Mem, a: nat, p: Path, c: Cell)
    requires mem.Valid() && mem.IsMap(a) && a < mem.next && mem.nodes[a].m == map[] && |p| > 1
    ensures var f, mem1 := Fill(mem, a, p, c), mem.Put(a, p[0], Ref(mem.next)).Alloc();
            && mem1.Valid() && mem1.IsMap(mem.next) && mem1.nodes[mem.next].m == map[]
            && f == Fill(mem1, mem.next, p[1..], c)
            && a in f.nodes && f.nodes[a] == Entries(map[p[0] := Ref(mem.next)])
  {
  }

  /** A heap tree after a write, read along a path. */
  ghost predicate GetsAfter(mem: Mem, mem': Mem, root: nat, r: Path, c: Cell, q: Path)
    requires mem.IsMap(root) && mem'.IsMap(root)
  {
    var old', new' := HeapGet(mem, root, q), HeapGet(mem', root, q);
    && (q == r ==> new' == Some(c))
    && (StrictPrefix(q, r) ==>
          new'.Some? && new'.value.Ref? &&
          if old'.Some? && old'.value.Ref? then new' == old' else new'.value.addr >= mem.next)
    && (!Comparable(q, r) && old'.Some? ==> new' == old')
  }

  /** Paths that leave the written one at the root are not affected. */
  lemma OtherEntry(mem: Mem, mem': Mem, root: nat, t: Tree, k: string, c: Cell, q: Path)
    requires Owns(mem.nodes, Ref(root), Map(t), map[]) && mem.IsMap(root) && mem'.IsMap(root) && q[0] != k
    requires mem'.nodes[root].m == mem.nodes[root].m[k := c]
    requires Same(mem.nodes, mem'.nodes, Rest(mem.nodes, mem.nodes[root].m, t, k, map[]))
    ensures HeapGet(mem', root, q) == HeapGet(mem, root, q)
  {
    var h, m, l := mem.nodes, mem.nodes[root].m, q[0];
    Unfold(h, root, t, map[]);
    if |q| > 1 && l in m && m[l].Ref? {
      assert Owns(h, m[l], t[l], map[]);
      Shape(h, m[l], t[l], map[]);
      assert (m - {k})[l] == m[l] && (t - {k})[l] == t[l];
      assert Foot(h, m[l], t[l], map[]) <= Rest(h, m, t, k, map[]);
      ClearWhenUnshared(mem, m[l].addr, q[1..]);
      GetSame(mem, mem', m[l].addr, t[l].entries, q[1..], map[]);
    }
  }

  ghost predicate SetsAsMeant(mem: Mem, root: nat, r: Path, c: Cell, q: Path)
    requires mem.Valid() && mem.IsMap(root)
  {
    var mem' := HeapSet(mem, root, r, c);
    mem'.Some? && mem'.value.IsMap(root) && GetsAfter(mem, mem'.value, root, r, c, q)
  }

  /** What a write does to every get on a tree. */
  lemma {:induction false} SetGets(mem: Mem, root: nat, t: Tree, r: Path, c: Cell, v: Value, q: Path)
    requires Writable(mem, root, t, c, v, map[]) && mem.IsMap(root) && SetPath(t, r, v).Some?
    ensures SetsAsMeant(mem, root, r, c, q)
    decreases |r|, 1
  {
    Written(mem, root, t, r, c, v);
    Unfold(mem.nodes, root, t, map[]);
    var k := r[0];
    if |r| == 1 {
      PutGets(mem, root, t, r, c, q);
    } else if k !in t {
      MissingGets(mem, root, t, r, c, v, q);
    } else {
      assert Owns(mem.nodes, mem.nodes[root].m[k], t[k], map[]);
      if mem.nodes[root].m[k] == NilMap {
        NilGets(mem, root, t, r, c, v, q);
      } else {
        DescendGets(mem, root, t, r, c, v, q);
      }
    }
  }

  lemma RootApart(mem: Mem, root: nat, t: Tree, k: string)
    requires Owns(mem.nodes, Ref(root), Map(t), map[]) && mem.IsMap(root)
    ensures root !in Rest(mem.nodes, mem.nodes[root].m, t, k, map[])
    ensures Rest(mem.nodes, mem.nodes[root].m, t, k, map[]) <= mem.nodes.Keys
  {
    Unfold(mem.nodes, root, t, map[]);
    FootAllocated(mem.nodes, Ref(root), Map(t), map[]);
    hide Owns, OwnsAll, Foot, FootAll;
    Separate(mem.nodes, mem.nodes[root].m, t, k, map[]);
  }

  lemma PutGets(mem: Mem, root: nat, t: Tree, r: Path, c: Cell, q: Path)
    requires mem.Valid() && Owns(mem.nodes, Ref(root), Map(t), map[]) && mem.IsMap(root) && |r| == 1
    ensures GetsAfter(mem, mem.Put(root, r[0], c), root, r, c, q)
  {
    RootApart(mem, root, t, r[0]);
    if q[0] != r[0] {
      OtherEntry(mem, mem.Put(root, r[0], c), root, t, r[0], c, q);
    }
  }

  /** The heap after a write whose first key is missing. */
  lemma MissingHeap(mem: Mem, root: nat, r: Path, c: Cell)
    requires mem.Valid() && mem.IsMap(root) && |r| > 1 && r[0] !in mem.nodes[root].m
    ensures HeapSet(mem, root, r, c).Some? && HeapSet(mem, root, r, c).value.IsMap(root)
    ensures var f, mem' := Fill(mem.Alloc(), mem.next, r[1..], c), HeapSet(mem, root, r, c).value;
            && mem'.nodes[root].m == mem.nodes[root].m[r[0] := Ref(mem.next)]
            && (forall x :: x in mem.nodes && x != root ==> x in mem'.nodes && mem'.nodes[x] == mem.nodes[x])
            && forall x :: x in f.nodes && x >= mem.next ==> x in mem'.nodes && mem'.nodes[x] == f.nodes[x]
  {
  }

  lemma MissingGets(mem: Mem, root: nat, t: Tree, r: Path, c: Cell, v: Value, q: Path)
    requires Writable(mem, root, t, c, v, map[]) && mem.IsMap(root) && |r| > 1 && r[0] !in mem.nodes[root].m
    ensures SetsAsMeant(mem, root, r, c, q)
  {
    var k, b := r[0], mem.next;
    hide Owns, OwnsAll, Foot, FootAll, Rest, HeapSet, Fill, HeapGet, GetsAfter;
    RootApart(mem, root, t, k);
    MissingHeap(mem, root, r, c);
    var mem' := HeapSet(mem, root, r, c).value;
    if q[0] != k {
      OtherEntry(mem, mem', root, t, k, Ref(b), q);
      OtherGets(mem, mem', root, r, c, q);
    } else if |q| == 1 {
      ShortGets(mem, mem', root, b, r, c, q);
    } else if q <= r {
      FillGets(mem.Alloc(), b, r[1..], c, q[1..], mem');
      BranchGets(mem, mem', root, b, r, c, q);
    } else {
      AwayGets(mem, mem', root, r, c, q);
    }
  }

  lemma BranchGets(mem: Mem, mem': Mem, root: nat, b: nat, r: Path, c: Cell, q: Path)
    requires mem.IsMap(root) && mem'.IsMap(root) && mem'.IsMap(b) && |r| > 1 && |q| > 1 && q <= r
    requires r[0] !in mem.nodes[root].m && r[0] in mem'.nodes[root].m && mem'.nodes[root].m[r[0]] == Ref(b)
    requires q[1..] == r[1..] ==> HeapGet(mem', b, q[1..]) == Some(c)
    requires |q[1..]| < |r[1..]| ==>
               HeapGet(mem', b, q[1..]).Some? && HeapGet(mem', b, q[1..]).value.Ref? &&
               HeapGet(mem', b, q[1..]).value.addr >= mem.next
    ensures GetsAfter(mem, mem', root, r, c, q)
  {
    assert q[1..] == r[1..] <==> q == r;
  }

  lemma AwayGets(mem: Mem, mem': Mem, root: nat, r: Path, c: Cell, q: Path)
    requires mem.IsMap(root) && mem'.IsMap(root) && |r| > 1 && q[0] == r[0] && |q| > 1 && !(q <= r)
    requires r[0] !in mem.nodes[root].m
    ensures GetsAfter(mem, mem', root, r, c, q)
  {
  }

  /** One level down, along the written path. */
  lemma GetsLower(mem: Mem, mem': Mem, root: nat, b: nat, r: Path, c: Cell, q: Path)
    requires mem.IsMap(root) && mem'.IsMap(root) && mem'.IsMap(b) && |r| > 1 && |q| > 1 && q[0] == r[0]
    requires r[0] in mem'.nodes[root].m && mem'.nodes[root].m[r[0]] == Ref(b)
    requires mem.IsMap(b) && r[0] in mem.nodes[root].m && mem.nodes[root].m[r[0]] == Ref(b)
    requires GetsAfter(mem, mem', b, r[1..], c, q[1..])
    ensures GetsAfter(mem, mem', root, r, c, q)
  {
    assert q[1..] == r[1..] <==> q == r;
    assert q[1..] <= r[1..] <==> q <= r by { assert q == [q[0]] + q[1..] && r == [r[0]] + r[1..]; }
    assert r[1..] <= q[1..] <==> r <= q by { assert q == [q[0]] + q[1..] && r == [r[0]] + r[1..]; }
  }

  lemma {:induction false} DescendGets(mem: Mem, root: nat, t: Tree, r: Path, c: Cell, v: Value, q: Path)
    requires Writable(mem, root, t, c, v, map[]) && mem.IsMap(root) && SetPath(t, r, v).Some? && |r| > 1
    requires r[0] in t && r[0] in mem.nodes[root].m && mem.nodes[root].m[r[0]].Ref?
    ensures SetsAsMeant(mem, root, r, c, q)
    decreases |r|, 0
  {
    var h, k := mem.nodes, r[0];
    Unfold(h, root, t, map[]);
    var b := h[root].m[k].addr;
    assert Owns(h, Ref(b), t[k], map[]);
    Shape(h, Ref(b), t[k], map[]);
    EntryFeet(h, root, t, k);
    RootApart(mem, root, t, k);
    var m := t[k].entries;
    assert Writable(mem, b, m, c, v, map[]);
    Written(mem, b, m, r[1..], c, v);
    var mem' := HeapSet(mem, b, r[1..], c).value;
    assert HeapSet(mem, root, r, c) == Some(mem');
    hide Owns, OwnsAll, Foot, FootAll, Rest, HeapSet, SetPath, GetsAfter;
    assert mem'.nodes[root] == mem.nodes[root];
    if q[0] != k {
      assert mem.nodes[root].m[k := Ref(b)] == mem.nodes[root].m;
      OtherEntry(mem, mem', root, t, k, Ref(b), q);
      OtherGets(mem, mem', root, r, c, q);
    } else if |q| > 1 {
      SetGets(mem, b, m, r[1..], c, v, q[1..]);
      GetsLower(mem, mem', root, b, r, c, q);
    } else {
      ShortGets(mem, mem', root, b, r, c, q);
    }
  }

  lemma OtherGets(mem: Mem, mem': Mem, root: nat, r: Path, c: Cell, q: Path)
    requires mem.IsMap(root) && mem'.IsMap(root) && q[0] != r[0] && HeapGet(mem', root, q) == HeapGet(mem, root, q)
    ensures GetsAfter(mem, mem', root, r, c, q)
  {
  }

  lemma ShortGets(mem: Mem, mem': Mem, root: nat, b: nat, r: Path, c: Cell, q: Path)
    requires mem.IsMap(root) && mem'.IsMap(root) && |r| > 1 && q == [r[0]]
    requires r[0] in mem'.nodes[root].m && mem'.nodes[root].m[r[0]] == Ref(b)
    requires (r[0] in mem.nodes[root].m && mem.nodes[root].m[r[0]] == Ref(b)) ||
             (b >= mem.next && (r[0] in mem.nodes[root].m ==> !mem.nodes[root].m[r[0]].Ref?))
    ensures GetsAfter(mem, mem', root, r, c, q)
  {
  }

  /** A nil map on the way is replaced by a new one. */
  lemma {:induction false} NilGets(mem: Mem, root: nat, t: Tree, r: Path, c: Cell, v: Value, q: Path)
    requires Writable(mem, root, t, c, v, map[]) && mem.IsMap(root) && |r| > 1
    requires r[0] in t && r[0] in mem.nodes[root].m && mem.nodes[root].m[r[0]] == NilMap
    ensures SetsAsMeant(mem, root, r, c, q)
    decreases |r|, 0
  {
    var k, b := r[0], mem.next;
    hide Owns, OwnsAll, Foot, FootAll, Rest, HeapSet, SetPath, GetsAfter, HeapGet;
    Unfold(mem.nodes, root, t, map[]);
    RootApart(mem, root, t, k);
    NilHeap(mem, root, t, r, c, v);
    var mem1 := mem.Put(root, k, Ref(b)).Alloc();
    var mem' := HeapSet(mem1, b, r[1..], c).value;
    if q[0] != k {
      OtherEntry(mem, mem', root, t, k, Ref(b), q);
      OtherGets(mem, mem', root, r, c, q);
    } else if |q| > 1 {
      SetGets(mem1, b, map[], r[1..], c, v, q[1..]);
      NewLower(mem, mem1, mem', root, b, r, c, q);
    } else {
      ShortGets(mem, mem', root, b, r, c, q);
    }
  }

  lemma NilFirst(mem: Mem, root: nat, t: Tree, r: Path, c: Cell, v: Value)
    requires Writable(mem, root, t, c, v, map[]) && mem.IsMap(root) && mem.Valid() && |r| > 1
    requires r[0] in t && r[0] in mem.nodes[root].m && mem.nodes[root].m[r[0]] == NilMap
    ensures var mem1 := mem.Put(root, r[0], Ref(mem.next)).Alloc();
            && mem1.Valid() && Writable(mem1, mem.next, map[], c, v, map[])
            && SetPath(map[], r[1..], v).Some?
            && HeapSet(mem, root, r, c) == HeapSet(mem1, mem.next, r[1..], c)
  {
    Unfold(mem.nodes, root, t, map[]);
    Shape(mem.nodes, NilMap, t[r[0]], map[]);
    hide Owns, OwnsAll, Foot, FootAll, Rest;
    FreshSteps(mem, root, t, r, c, v);
    FreshWritable(mem, mem.Put(root, r[0], Ref(mem.next)).Alloc(), c, v, map[]);
  }

  lemma NilHeap(mem: Mem, root: nat, t: Tree, r: Path, c: Cell, v: Value)
    requires Writable(mem, root, t, c, v, map[]) && mem.IsMap(root) && mem.Valid() && |r| > 1
    requires r[0] in t && r[0] in mem.nodes[root].m && mem.nodes[root].m[r[0]] == NilMap
    ensures var mem1 := mem.Put(root, r[0], Ref(mem.next)).Alloc();
            && mem1.Valid() && mem1.IsMap(mem.next) && Writable(mem1, mem.next, map[], c, v, map[])
            && SetPath(map[], r[1..], v).Some? && HeapSet(mem1, mem.next, r[1..], c).Some?
            && HeapSet(mem, root, r, c) == HeapSet(mem1, mem.next, r[1..], c)
            && var mem' := HeapSet(mem1, mem.next, r[1..], c).value;
               && mem'.IsMap(root) && mem'.IsMap(mem.next) && mem'.nodes[root] == mem1.nodes[root]
               && Same(mem.nodes, mem'.nodes, mem.nodes.Keys - {root})
  {
    hide Writable, HeapSet, SetPath, Owns, Foot;
    NilFirst(mem, root, t, r, c, v);
    var mem1 := mem.Put(root, r[0], Ref(mem.next)).Alloc();
    Written(mem1, mem.next, map[], r[1..], c, v);
    EmptyMap(mem1.nodes, mem.next, map[]);
  }

  lemma NewLower(mem: Mem, mem1: Mem, mem': Mem, root: nat, b: nat, r: Path, c: Cell, q: Path)
    requires mem.IsMap(root) && mem'.IsMap(root) && mem'.IsMap(b) && |r| > 1 && |q| > 1 && q[0] == r[0]
    requires r[0] in mem'.nodes[root].m && mem'.nodes[root].m[r[0]] == Ref(b)
    requires r[0] in mem.nodes[root].m ==> mem.nodes[root].m[r[0]] == NilMap
    requires mem1.IsMap(b) && mem1.nodes[b].m == map[] && mem1.next >= mem.next
    requires GetsAfter(mem1, mem', b, r[1..], c, q[1..])
    ensures GetsAfter(mem, mem', root, r, c, q)
  {
    assert q[1..] == r[1..] <==> q == r;
    assert q[1..] <= r[1..] <==> q <= r by { assert q == [q[0]] + q[1..] && r == [r[0]] + r[1..]; }
  }

  /** A get below an object is a get from that object. */
  lemma {:induction false} GetThrough(mem: Mem, root: nat, p: Path, x: nat, q: Path)
    requires mem.IsMap(root) && mem.IsMap(x) && HeapGet(mem, root, p) == Some(Ref(x))
    ensures HeapGet(mem, root, p + q) == HeapGet(mem, x, q)
    decreases |p|
  {
    assert (p + q)[1..] == p[1..] + q;
    if |p| > 1 {
      GetThrough(mem, mem.nodes[root].m[p[0]].addr, p[1..], x, q);
    } else {
      assert p[1..] + q == q;
    }
  }

  /** A get that finds something goes through maps. */
  lemma {:induction false} GetAbove(mem: Mem, root: nat, p: Path, q: Path)
    requires mem.IsMap(root) && HeapGet(mem, root, p + q).Some?
    ensures var c := HeapGet(mem, root, p); c.Some? && c.value.Ref? && mem.IsMap(c.value.addr)
    decreases |p|
  {
    assert (p + q)[1..] == p[1..] + q;
    if |p| > 1 {
      GetAbove(mem, mem.nodes[root].m[p[0]].addr, p[1..], q);
    }
  }

  /** What is found at a place of a tree. */
  lemma {:induction false} PlaceFacts(mem: Mem, root: nat, t: Tree, q: Path, x: nat)
    requires Owns(mem.nodes, Ref(root), Map(t), map[]) && mem.IsMap(root) && HeapGet(mem, root, q) == Some(Ref(x))
    ensures mem.IsMap(x) && x != root && GetPath(t, q).Some? && GetPath(t, q).value.Map?
    ensures Owns(mem.nodes, Ref(x), GetPath(t, q).value, map[])
    ensures x in Foot(mem.nodes, Ref(x), GetPath(t, q).value, map[])
    ensures Foot(mem.nodes, Ref(x), GetPath(t, q).value, map[]) <= Foot(mem.nodes, Ref(root), Map(t), map[])
    decreases |q|
  {
    var h, k := mem.nodes, q[0];
    var m := h[root].m;
    Unfold(h, root, t, map[]);
    EntryFeet(h, root, t, k);
    assert Owns(h, m[k], t[k], map[]);
    Shape(h, m[k], t[k], map[]);
    if |q| > 1 {
      hide Owns, OwnsAll, Foot, FootAll;
      PlaceFacts(mem, m[k].addr, t[k].entries, q[1..], x);
    }
  }

  /** Every object of a tree but its root has a place. */
  lemma {:induction false} PlaceOf(mem: Mem, root: nat, t: Tree, y: nat) returns (q: Path)
    requires Owns(mem.nodes, Ref(root), Map(t), map[]) && mem.IsMap(root)
    requires y in Foot(mem.nodes, Ref(root), Map(t), map[]) && y != root
    ensures HeapGet(mem, root, q) == Some(Ref(y))
    decreases Map(t)
  {
    var h := mem.nodes;
    var m := h[root].m;
    Unfold(h, root, t, map[]);
    var k :| k in t && k in m && y in Foot(h, m[k], t[k], map[]);
    assert Owns(h, m[k], t[k], map[]);
    Shape(h, m[k], t[k], map[]);
    var b := m[k].addr;
    if y == b {
      q := [k];
    } else {
      var rest := PlaceOf(mem, b, t[k].entries, y);
      q := [k] + rest;
      assert q[1..] == rest;
    }
  }

  /** And only one. */
  lemma {:induction false} PlaceUnique(mem: Mem, root: nat, t: Tree, p: Path, q: Path, y: nat)
    requires Owns(mem.nodes, Ref(root), Map(t), map[]) && mem.IsMap(root)
    requires HeapGet(mem, root, p) == Some(Ref(y)) == HeapGet(mem, root, q)
    ensures p == q
    decreases |p|
  {
    var h := mem.nodes;
    var m := h[root].m;
    Unfold(h, root, t, map[]);
    PlaceEntry(mem, root, t, p, y);
    PlaceEntry(mem, root, t, q, y);
    assert p[0] == q[0];
    if |p| > 1 && |q| > 1 {
      assert Owns(h, m[p[0]], t[p[0]], map[]);
      PlaceUnique(mem, m[p[0]].addr, t[p[0]].entries, p[1..], q[1..], y);
      assert p == [p[0]] + p[1..] && q == [q[0]] + q[1..];
    } else if |p| > 1 {
      PlaceFacts(mem, m[p[0]].addr, t[p[0]].entries, p[1..], y);
    } else if |q| > 1 {
      PlaceFacts(mem, m[q[0]].addr, t[q[0]].entries, q[1..], y);
    }
  }

  lemma PlaceEntry(mem: Mem, root: nat, t: Tree, q: Path, y: nat)
    requires Owns(mem.nodes, Ref(root), Map(t), map[]) && mem.IsMap(root) && HeapGet(mem, root, q) == Some(Ref(y))
    ensures q[0] in t && q[0] in mem.nodes[root].m && mem.nodes[root].m[q[0]].Ref?
    ensures y in Foot(mem.nodes, mem.nodes[root].m[q[0]], t[q[0]], map[])
    ensures |q| > 1 ==> t[q[0]].Map? && mem.IsMap(mem.nodes[root].m[q[0]].addr) &&
                        Owns(mem.nodes, mem.nodes[root].m[q[0]], t[q[0]], map[])
  {
    var h, k := mem.nodes, q[0];
    var m := h[root].m;
    Unfold(h, root, t, map[]);
    assert Owns(h, m[k], t[k], map[]);
    Shape(h, m[k], t[k], map[]);
    if |q| > 1 {
      PlaceFacts(mem, m[k].addr, t[k].entries, q[1..], y);
    }
  }

  /** A write that passes none of some objects changes none of them. */
  lemma {:induction false} ClearKeeps(mem: Mem, root: nat, r: Path, c: Cell, pay: Shared)
    requires mem.Valid() && mem.IsMap(root) && Clear(mem, root, r, pay) && pay.Keys <= mem.nodes.Keys
    ensures Same(mem.nodes, HeapSet(mem, root, r, c).GetOr(mem).nodes, pay.Keys)
    decreases |r|
  {
    var m := mem.nodes[root].m;
    if |r| > 1 && r[0] in m {
      if m[r[0]].Ref? && mem.IsMap(m[r[0]].addr) {
        ClearKeeps(mem, m[r[0]].addr, r[1..], c, pay);
      } else if m[r[0]].NilMap? {
        var mem1 := mem.Put(root, r[0], Ref(mem.next)).Alloc();
        FreshClear(mem, root, r[0], r[1..], pay);
        ClearKeeps(mem1, mem.next, r[1..], c, pay);
        FreshSucceeds(mem1, mem.next, r[1..], c);
      }
    } else if |r| > 1 {
      MissingHeap(mem, root, r, c);
    }
  }

  /** A write that is not clear of some objects passes one of them. */
  lemma {:induction false} NotClear(mem: Mem, root: nat, r: Path, pay: Shared) returns (q: Path, x: nat)
    requires mem.IsMap(root) && root !in pay && !Clear(mem, root, r, pay)
    ensures StrictPrefix(q, r) && HeapGet(mem, root, q) == Some(Ref(x)) && x in pay
    decreases |r|
  {
    var b := mem.nodes[root].m[r[0]].addr;
    if b in pay {
      q, x := [r[0]], b;
    } else {
      var rest: Path;
      rest, x := NotClear(mem, b, r[1..], pay);
      q := [r[0]] + rest;
      assert q[1..] == rest && r == [r[0]] + r[1..];
    }
  }

  ghost function TreeFeet(mem: Mem, root: nat, t: Tree): set<nat> { Foot(mem.nodes, Ref(root), Map(t), map[]) }

  /** Where the tree at a holds an object of the tree at b, so does that one. */
  ghost predicate OneWay(mem: Mem, a: nat, b: nat, u: Tree)
    requires mem.IsMap(a) && mem.IsMap(b)
  {
    forall q: Path, x: nat :: HeapGet(mem, a, q) == Some(Ref(x)) && x in TreeFeet(mem, b, u) ==>
      HeapGet(mem, b, q) == Some(Ref(x))
  }

  /** Two trees that share objects at equal places only. */
  ghost predicate Paired(mem: Mem, a: nat, t: Tree, b: nat, u: Tree) {
    && mem.Valid() && mem.IsMap(a) && mem.IsMap(b)
    && Owns(mem.nodes, Ref(a), Map(t), map[]) && Owns(mem.nodes, Ref(b), Map(u), map[])
    && a !in TreeFeet(mem, b, u) && b !in TreeFeet(mem, a, t)
    && OneWay(mem, a, b, u) && OneWay(mem, b, a, t)
  }

  /** What one tree write leaves, as far as feet go. */
  ghost predicate FeetGrow(mem: Mem, mem': Mem, root: nat, t: Tree, t': Tree, c: Cell, v: Value) {
    && mem'.Valid() && mem'.IsMap(root) && mem.next <= mem'.next
    && Owns(mem'.nodes, Ref(root), Map(t'), map[])
    && forall x :: x in TreeFeet(mem', root, t') ==>
         x in TreeFeet(mem, root, t) || x in Foot(mem.nodes, c, v, map[]) || x >= mem.next
  }

  lemma WriteFeet(mem: Mem, root: nat, t: Tree, r: Path, c: Cell, v: Value)
    requires Writable(mem, root, t, c, v, map[])
    ensures mem.Valid() && mem.IsMap(root)
    ensures HeapSet(mem, root, r, c).Some? <==> SetPath(t, r, v).Some?
    ensures var mem', t' := HeapSet(mem, root, r, c).GetOr(mem), SetPath(t, r, v).GetOr(t);
            && FeetGrow(mem, mem', root, t, t', c, v)
            && Same(mem.nodes, mem'.nodes, mem.nodes.Keys - TreeFeet(mem, root, t))
  {
    hide Owns, Foot, HeapSet, SetPath;
    Written(mem, root, t, r, c, v);
  }

  /** Gets of a tree, before and after a write. */
  lemma GetsBack(mem: Mem, root: nat, t: Tree, r: Path, c: Cell, v: Value, q: Path, y: nat)
    requires Writable(mem, root, t, c, v, map[]) && mem.Valid() && mem.IsMap(root) && SetPath(t, r, v).Some?
    requires HeapSet(mem, root, r, c).Some? && HeapGet(HeapSet(mem, root, r, c).value, root, q) == Some(Ref(y))
    ensures !(r <= q) ==> HeapGet(mem, root, q) == Some(Ref(y)) || (StrictPrefix(q, r) && y >= mem.next)
    ensures r == q ==> c == Ref(y)
    ensures StrictPrefix(r, q) ==> c.Ref? && HeapSet(mem, root, r, c).value.IsMap(c.addr) &&
                                   HeapGet(HeapSet(mem, root, r, c).value, c.addr, q[|r|..]) == Some(Ref(y))
  {
    SetGets(mem, root, t, r, c, v, q);
    SetGets(mem, root, t, r, c, v, r);
    Written(mem, root, t, r, c, v);
    var mem', t' := HeapSet(mem, root, r, c).value, SetPath(t, r, v).value;
    hide Owns, OwnsAll, Foot, FootAll, HeapSet, SetPath, HeapGet, GetPath;
    if StrictPrefix(r, q) {
      assert q == r + q[|r|..];
      GetAbove(mem', root, r, q[|r|..]);
      GetThrough(mem', root, r, c.addr, q[|r|..]);
    } else if !Comparable(q, r) {
      PlaceFacts(mem', root, t', q, y);
      SetFrame(t, r, v, q);
      ClearWhenUnshared(mem, root, q);
      GetRefines(mem, root, t, q, map[]);
    }
  }

  lemma GetsOn(mem: Mem, root: nat, t: Tree, r: Path, c: Cell, v: Value, q: Path, y: nat)
    requires Writable(mem, root, t, c, v, map[]) && mem.Valid() && mem.IsMap(root) && SetPath(t, r, v).Some?
    requires HeapSet(mem, root, r, c).Some? && HeapGet(mem, root, q) == Some(Ref(y)) && !(r <= q)
    ensures HeapSet(mem, root, r, c).value.IsMap(root)
    ensures HeapGet(HeapSet(mem, root, r, c).value, root, q) == Some(Ref(y))
  {
    SetGets(mem, root, t, r, c, v, q);
  }

  lemma GetsAt(mem: Mem, root: nat, t: Tree, r: Path, c: Cell, v: Value)
    requires Writable(mem, root, t, c, v, map[]) && mem.Valid() && mem.IsMap(root) && SetPath(t, r, v).Some?
    ensures HeapSet(mem, root, r, c).Some? && HeapSet(mem, root, r, c).value.IsMap(root)
    ensures HeapGet(HeapSet(mem, root, r, c).value, root, r) == Some(c)
  {
    SetGets(mem, root, t, r, c, v, r);
  }

  /** A pair of trees, and a cell that is in neither. */
  ghost predicate PairWritable(mem: Mem, a: nat, t: Tree, b: nat, u: Tree, c: Cell, v: Value) {
    Paired(mem, a, t, b, u) && Writable(mem, a, t, c, v, map[]) && Writable(mem, b, u, c, v, map[])
  }

  lemma PairSwap(mem: Mem, a: nat, t: Tree, b: nat, u: Tree, c: Cell, v: Value)
    requires PairWritable(mem, a, t, b, u, c, v)
    ensures PairWritable(mem, b, u, a, t, c, v)
  {
    hide Owns, OneWay, TreeFeet, Foot, Writable;
  }

  lemma WritablePart(mem: Mem, root: nat, t: Tree, c: Cell, v: Value)
    requires Writable(mem, root, t, c, v, map[])
    ensures mem.Valid() && TreeFeet(mem, root, t) !! Foot(mem.nodes, c, v, map[])
    ensures root in TreeFeet(mem, root, t) && TreeFeet(mem, root, t) <= mem.nodes.Keys
  {
    FootAllocated(mem.nodes, Ref(root), Map(t), map[]);
  }

  /** An object of one tree that the other has after a write, it had before. */
  lemma SharedBefore(mem: Mem, mem': Mem, a: nat, t: Tree, b: nat, u: Tree, u': Tree, c: Cell, v: Value, y: nat)
    requires PairWritable(mem, a, t, b, u, c, v) && FeetGrow(mem, mem', b, u, u', c, v)
    requires y in TreeFeet(mem, a, t) && y in TreeFeet(mem', b, u')
    ensures y in TreeFeet(mem, b, u)
  {
    WritablePart(mem, a, t, c, v);
    hide Owns, Foot, TreeFeet;
  }

  /** Two paths that meet in a shared object: one write serves both trees. */
  lemma ThroughBoth(mem: Mem, a: nat, t: Tree, b: nat, u: Tree, r: Path, c: Cell, v: Value, q: Path, x: nat)
    requires PairWritable(mem, a, t, b, u, c, v) && StrictPrefix(q, r)
    requires HeapGet(mem, a, q) == Some(Ref(x)) && x in TreeFeet(mem, b, u)
    ensures HeapGet(mem, b, q) == Some(Ref(x)) && mem.IsMap(x) && HeapSet(mem, a, r, c) == HeapSet(mem, b, r, c)
    ensures SetPath(t, r, v).Some? <==> SetPath(u, r, v).Some?
    ensures x < mem.next
  {
    SharedPlace(mem, a, t, b, u, q, x);
    hide *;
    WriteFeet(mem, a, t, r, c, v);
    WriteFeet(mem, b, u, r, c, v);
    assert r == q + r[|q|..];
    SetThrough(mem, a, q, x, r[|q|..], c);
    SetThrough(mem, b, q, x, r[|q|..], c);
  }

  lemma SharedPlace(mem: Mem, a: nat, t: Tree, b: nat, u: Tree, q: Path, x: nat)
    requires Paired(mem, a, t, b, u) && HeapGet(mem, a, q) == Some(Ref(x)) && x in TreeFeet(mem, b, u)
    ensures HeapGet(mem, b, q) == Some(Ref(x)) && mem.IsMap(x) && x < mem.next && mem.Valid()
  {
    hide Owns, Foot, HeapGet, TreeFeet;
    PlaceFacts(mem, a, t, q, x);
  }

  /** After such a write, gets that run through the meeting point agree. */
  lemma ThroughNew(mem: Mem, mem': Mem, a: nat, t: Tree, b: nat, u: Tree, r: Path, c: Cell, v: Value, q: Path, x: nat,
      p: Path, y: nat)
    requires PairWritable(mem, a, t, b, u, c, v) && StrictPrefix(q, r)
    requires SetPath(t, r, v).Some? && SetPath(u, r, v).Some?
    requires HeapGet(mem, a, q) == Some(Ref(x)) == HeapGet(mem, b, q) && mem.IsMap(x) && x < mem.next
    requires HeapSet(mem, a, r, c) == Some(mem') == HeapSet(mem, b, r, c)
    requires mem'.IsMap(a) && HeapGet(mem', a, p) == Some(Ref(y)) && StrictPrefix(p, r) && y >= mem.next
    ensures mem'.IsMap(b) && HeapGet(mem', b, p) == Some(Ref(y))
  {
    GetsOn(mem, a, t, r, c, v, q, x);
    GetsOn(mem, b, u, r, c, v, q, x);
    hide Owns, Foot, TreeFeet, HeapSet, SetPath, Writable, Paired, HeapGet;
    if p <= q {
      assert p != q;
      assert q == p + q[|p|..];
      GetAbove(mem, a, p, q[|p|..]);
      var z := HeapGet(mem, a, p).value.addr;
      GetsOn(mem, a, t, r, c, v, p, z);
      assert false;
    } else {
      assert q == r[..|q|] && p == r[..|p|];
      assert p == q + p[|q|..];
      GetThrough(mem', a, q, x, p[|q|..]);
      GetThrough(mem', b, q, x, p[|q|..]);
    }
  }

  lemma OneWayThrough(mem: Mem, mem': Mem, a: nat, t: Tree, b: nat, u: Tree, r: Path, c: Cell, v: Value, q: Path,
      x: nat)
    requires PairWritable(mem, a, t, b, u, c, v) && StrictPrefix(q, r)
    requires HeapGet(mem, a, q) == Some(Ref(x)) && x in TreeFeet(mem, b, u)
    requires HeapSet(mem, a, r, c) == Some(mem') && mem'.IsMap(a) && mem'.IsMap(b) && SetPath(u, r, v).Some?
    ensures OneWay(mem', a, b, SetPath(u, r, v).value)
  {
    ThroughBoth(mem, a, t, b, u, r, c, v, q, x);
    WriteFeet(mem, b, u, r, c, v);
    GetsAt(mem, a, t, r, c, v);
    GetsAt(mem, b, u, r, c, v);
    var u' := SetPath(u, r, v).value;
    hide Owns, Foot, TreeFeet, HeapSet, SetPath, Writable, HeapGet, FeetGrow;
    forall p: Path, y: nat | HeapGet(mem', a, p) == Some(Ref(y)) && y in TreeFeet(mem', b, u')
      ensures HeapGet(mem', b, p) == Some(Ref(y))
    {
      GetsBack(mem, a, t, r, c, v, p, y);
      if StrictPrefix(r, p) {
        assert p == r + p[|r|..];
        GetThrough(mem', b, r, c.addr, p[|r|..]);
      } else if p != r {
        NotAtOrBelow(p, r);
        if HeapGet(mem, a, p) == Some(Ref(y)) {
          OldThrough(mem, mem', a, t, b, u, u', r, c, v, p, y);
        } else {
          ThroughNew(mem, mem', a, t, b, u, r, c, v, q, x, p, y);
        }
      }
    }
  }

  lemma OldThrough(mem: Mem, mem': Mem, a: nat, t: Tree, b: nat, u: Tree, u': Tree, r: Path, c: Cell, v: Value,
      p: Path, y: nat)
    requires PairWritable(mem, a, t, b, u, c, v) && FeetGrow(mem, mem', b, u, u', c, v)
    requires mem.IsMap(a) && HeapGet(mem, a, p) == Some(Ref(y)) && y in TreeFeet(mem', b, u') && !(r <= p)
    requires mem.Valid() && mem.IsMap(b) && HeapSet(mem, b, r, c) == Some(mem') && SetPath(u, r, v).Some?
    ensures mem'.IsMap(b) && HeapGet(mem', b, p) == Some(Ref(y))
  {
    PairIs(mem, a, t, b, u, c, v);
    PlaceInFeet(mem, a, t, p, y);
    SharedBefore(mem, mem', a, t, b, u, u', c, v, y);
    SharedPlace(mem, a, t, b, u, p, y);
    hide *;
    GetsOn(mem, b, u, r, c, v, p, y);
  }

  lemma NotAtOrBelow(p: Path, r: Path)
    requires !StrictPrefix(r, p) && p != r
    ensures !(r <= p)
  {
  }

  lemma PlaceInFeet(mem: Mem, root: nat, t: Tree, p: Path, y: nat)
    requires Owns(mem.nodes, Ref(root), Map(t), map[]) && mem.IsMap(root) && HeapGet(mem, root, p) == Some(Ref(y))
    ensures y in TreeFeet(mem, root, t)
  {
    hide Owns, Foot;
    PlaceFacts(mem, root, t, p, y);
  }

  lemma RootsStayApart(mem: Mem, mem': Mem, a: nat, t: Tree, b: nat, u: Tree, u': Tree, c: Cell, v: Value)
    requires PairWritable(mem, a, t, b, u, c, v) && FeetGrow(mem, mem', b, u, u', c, v)
    ensures a !in TreeFeet(mem', b, u')
  {
    WritablePart(mem, a, t, c, v);
    hide Owns, Foot, TreeFeet;
  }

  lemma PairThrough(mem: Mem, a: nat, t: Tree, b: nat, u: Tree, r: Path, c: Cell, v: Value, q: Path, x: nat)
    requires PairWritable(mem, a, t, b, u, c, v) && StrictPrefix(q, r) && SetPath(t, r, v).Some?
    requires HeapGet(mem, a, q) == Some(Ref(x)) && x in TreeFeet(mem, b, u)
    ensures HeapSet(mem, a, r, c).Some? && SetPath(u, r, v).Some?
    ensures Paired(HeapSet(mem, a, r, c).value, a, SetPath(t, r, v).value, b, SetPath(u, r, v).value)
    ensures HeapSet(mem, b, r, c) == HeapSet(mem, a, r, c)
  {
    ThroughBoth(mem, a, t, b, u, r, c, v, q, x);
    WriteFeet(mem, a, t, r, c, v);
    WriteFeet(mem, b, u, r, c, v);
    PairSwap(mem, a, t, b, u, c, v);
    PlaceInFeet(mem, a, t, q, x);
    var mem', t', u' := HeapSet(mem, a, r, c).value, SetPath(t, r, v).value, SetPath(u, r, v).value;
    hide Owns, Foot, TreeFeet, HeapSet, SetPath, Writable, HeapGet, OneWay, PairWritable;
    OneWayThrough(mem, mem', a, t, b, u, r, c, v, q, x);
    OneWayThrough(mem, mem', b, u, a, t, r, c, v, q, x);
    RootsStayApart(mem, mem', a, t, b, u, u', c, v);
    RootsStayApart(mem, mem', b, u, a, t, t', c, v);
  }

  /** Setting what is there already changes nothing. */
  lemma {:induction false} SetAgain(mem: Mem, root: nat, r: Path, c: Cell)
    requires mem.Valid() && mem.IsMap(root) && HeapGet(mem, root, r) == Some(c)
    ensures HeapSet(mem, root, r, c) == Some(mem)
    decreases |r|
  {
    var m := mem.nodes[root].m;
    if |r| > 1 {
      SetAgain(mem, m[r[0]].addr, r[1..], c);
    } else {
      assert m[r[0] := c] == m && mem.nodes[root := Entries(m)] == mem.nodes;
    }
  }

  lemma {:induction false} ClearMeans(mem: Mem, root: nat, r: Path, pay: Shared, q: Path, x: nat)
    requires mem.IsMap(root) && Clear(mem, root, r, pay) && StrictPrefix(q, r) && HeapGet(mem, root, q) == Some(Ref(x))
    ensures x !in pay
    decreases |r|
  {
    assert q[0] == r[0];
    var b := mem.nodes[root].m[r[0]].addr;
    assert Clear(mem, b, r[1..], pay);
    if |q| > 1 {
      ClearMeans(mem, b, r[1..], pay, q[1..], x);
    }
  }

  function AsTable(feet: set<nat>): Shared { map x | x in feet :: Null }

  /** The tree at root is as it was. */
  ghost predicate Untouched(mem: Mem, mem': Mem, root: nat, t: Tree) {
    && mem.IsMap(root) && mem'.IsMap(root) && Owns(mem'.nodes, Ref(root), Map(t), map[])
    && TreeFeet(mem', root, t) == TreeFeet(mem, root, t)
    && forall q: Path :: HeapGet(mem', root, q) == HeapGet(mem, root, q)
  }

  lemma SameIsUntouched(mem: Mem, mem': Mem, root: nat, t: Tree)
    requires Owns(mem.nodes, Ref(root), Map(t), map[]) && mem.IsMap(root)
    requires Same(mem.nodes, mem'.nodes, TreeFeet(mem, root, t))
    ensures Untouched(mem, mem', root, t)
  {
    hide Owns, Foot;
    OwnsFrame(mem.nodes, mem'.nodes, Ref(root), Map(t), map[]);
    ClearWhenUnshared(mem, root, [""]);
    GetSame(mem, mem', root, t, [""], map[]);
    forall q: Path ensures HeapGet(mem', root, q) == HeapGet(mem, root, q) {
      ClearWhenUnshared(mem, root, q);
      GetSame(mem, mem', root, t, q, map[]);
    }
  }

  lemma {:induction false} FeetAreMaps(mem: Mem, c: Cell, v: Value, x: nat)
    requires x in Foot(mem.nodes, c, v, map[])
    ensures mem.IsMap(x)
    decreases v
  {
    if x != c.addr {
      var m, t := mem.nodes[c.addr].m, v.entries;
      var k :| k in t && k in m && x in Foot(mem.nodes, m[k], t[k], map[]);
      FeetAreMaps(mem, m[k], t[k], x);
    }
  }

  lemma FeetStay(mem: Mem, root: nat, t: Tree, r: Path, c: Cell)
    requires mem.Valid() && mem.IsMap(root) && HeapSet(mem, root, r, c).Some?
    ensures TreeFeet(mem, root, t) <= HeapSet(mem, root, r, c).value.nodes.Keys
  {
    hide Foot, HeapSet;
    var mem' := HeapSet(mem, root, r, c).value;
    assert forall b :: mem.IsMap(b) ==> mem'.IsMap(b);
    forall x | x in TreeFeet(mem, root, t) ensures x in mem'.nodes {
      FeetAreMaps(mem, Ref(root), Map(t), x);
    }
  }

  /** The first write, when its path meets none of the other tree's objects. */
  lemma ApartFirst(mem: Mem, a: nat, t: Tree, b: nat, u: Tree, r: Path, c: Cell, v: Value)
    requires PairWritable(mem, a, t, b, u, c, v) && SetPath(t, r, v).Some?
    requires Clear(mem, a, r, AsTable(TreeFeet(mem, b, u)))
    ensures HeapSet(mem, a, r, c).Some?
    ensures var mem' := HeapSet(mem, a, r, c).value;
            && Untouched(mem, mem', b, u) && Writable(mem', b, u, c, v, map[])
            && Foot(mem'.nodes, c, v, map[]) == Foot(mem.nodes, c, v, map[])
            && FeetGrow(mem, mem', a, t, SetPath(t, r, v).value, c, v)
            && Same(mem.nodes, mem'.nodes, mem.nodes.Keys - TreeFeet(mem, a, t))
  {
    WriteFeet(mem, a, t, r, c, v);
    WritablePart(mem, a, t, c, v);
    WritablePart(mem, b, u, c, v);
    var mem' := HeapSet(mem, a, r, c).value;
    hide Owns, Foot, HeapSet, SetPath, HeapGet, OneWay;
    ClearKeeps(mem, a, r, c, AsTable(TreeFeet(mem, b, u)));
    FootAllocated(mem.nodes, c, v, map[]);
    OwnsFrame(mem.nodes, mem'.nodes, c, v, map[]);
    SameIsUntouched(mem, mem', b, u);
  }

  lemma SecondPathClear(mem: Mem, mem1: Mem, a: nat, t: Tree, t': Tree, b: nat, u: Tree, r: Path, c: Cell, v: Value)
    requires PairWritable(mem, a, t, b, u, c, v) && Clear(mem, a, r, AsTable(TreeFeet(mem, b, u)))
    requires FeetGrow(mem, mem1, a, t, t', c, v) && Untouched(mem, mem1, b, u)
    ensures Clear(mem1, b, r, AsTable(TreeFeet(mem, a, t) + TreeFeet(mem1, a, t')))
  {
    var feet := TreeFeet(mem, a, t) + TreeFeet(mem1, a, t');
    PairSwap(mem, a, t, b, u, c, v);
    RootsStayApart(mem, mem1, b, u, a, t, t', c, v);
    if !Clear(mem1, b, r, AsTable(feet)) {
      hide Owns, Foot, TreeFeet, Writable, Clear, FeetGrow;
      var q, x := NotClear(mem1, b, r, AsTable(feet));
      PlaceInFeet(mem, b, u, q, x);
      if x !in TreeFeet(mem, a, t) {
        SharedBefore(mem, mem1, b, u, a, t, t', c, v, x);
      }
      ClearMeans(mem, a, r, AsTable(TreeFeet(mem, b, u)), q, x);
    }
  }

  /** The second write meets none of the first tree's objects either. */
  lemma ApartSecond(mem: Mem, a: nat, t: Tree, b: nat, u: Tree, r: Path, c: Cell, v: Value)
    requires PairWritable(mem, a, t, b, u, c, v) && SetPath(t, r, v).Some?
    requires Clear(mem, a, r, AsTable(TreeFeet(mem, b, u)))
    ensures HeapSet(mem, a, r, c).Some? && HeapSet(mem, a, r, c).value.Valid() && HeapSet(mem, a, r, c).value.IsMap(b)
    ensures var mem1 := HeapSet(mem, a, r, c).value;
            var mem2 := HeapSet(mem1, b, r, c).GetOr(mem1);
            && Untouched(mem1, mem2, a, SetPath(t, r, v).value)
            && Same(mem1.nodes, mem2.nodes, TreeFeet(mem, a, t))
  {
    ApartFirst(mem, a, t, b, u, r, c, v);
    var mem1, t' := HeapSet(mem, a, r, c).value, SetPath(t, r, v).value;
    var feet := TreeFeet(mem, a, t) + TreeFeet(mem1, a, t');
    FeetInNodes(mem1, a, t');
    WritablePart(mem, a, t, c, v);
    WritablePart(mem, b, u, c, v);
    PairSwap(mem, a, t, b, u, c, v);
    RootsStayApart(mem, mem1, b, u, a, t, t', c, v);
    hide Owns, Foot, HeapSet, SetPath, HeapGet, TreeFeet, Writable;
    SecondPathClear(mem, mem1, a, t, t', b, u, r, c, v);
    FeetStay(mem, a, t, r, c);
    ClearKeeps(mem1, b, r, c, AsTable(feet));
    SameIsUntouched(mem1, HeapSet(mem1, b, r, c).GetOr(mem1), a, t');
  }

  lemma FeetInNodes(mem: Mem, root: nat, t: Tree)
    ensures TreeFeet(mem, root, t) <= mem.nodes.Keys
  {
    FootAllocated(mem.nodes, Ref(root), Map(t), map[]);
  }

  /** A write that fails finds no object at or below its path. */
  lemma BlockedHoldsNothing(mem: Mem, root: nat, t: Tree, r: Path, v: Value, p: Path, y: nat)
    requires Owns(mem.nodes, Ref(root), Map(t), map[]) && mem.IsMap(root) && HeapGet(mem, root, p) == Some(Ref(y))
    requires r <= p
    ensures SetPath(t, r, v).Some?
  {
    PlaceFacts(mem, root, t, p, y);
    SetWhereGet(t, p, Null);
    SetOver(t, p, Null, r, v);
  }

  /** What is found below the stored cell belongs to it. */
  lemma BelowStored(mem: Mem, c: Cell, v: Value, q: Path, y: nat)
    requires c.Ref? && mem.IsMap(c.addr) && Owns(mem.nodes, c, v, map[]) && HeapGet(mem, c.addr, q) == Some(Ref(y))
    ensures y in Foot(mem.nodes, c, v, map[])
  {
    PlaceInFeet(mem, c.addr, v.entries, q, y);
  }

  /** The two writes, one after the other. */
  ghost predicate BothWritten(mem: Mem, mem1: Mem, mem2: Mem, a: nat, t: Tree, b: nat, u: Tree, r: Path, c: Cell,
      v: Value) {
    && PairWritable(mem, a, t, b, u, c, v) && SetPath(t, r, v).Some?
    && HeapSet(mem, a, r, c) == Some(mem1)
    && Untouched(mem, mem1, b, u) && Writable(mem1, b, u, c, v, map[])
    && Foot(mem1.nodes, c, v, map[]) == Foot(mem.nodes, c, v, map[])
    && FeetGrow(mem, mem1, a, t, SetPath(t, r, v).value, c, v)
    && mem1.Valid() && mem1.IsMap(b) && HeapSet(mem1, b, r, c).GetOr(mem1) == mem2
    && Untouched(mem1, mem2, a, SetPath(t, r, v).value)
    && FeetGrow(mem1, mem2, b, u, SetPath(u, r, v).GetOr(u), c, v)
    && (HeapSet(mem1, b, r, c).Some? <==> SetPath(u, r, v).Some?)
  }

  lemma ApartBoth(mem: Mem, a: nat, t: Tree, b: nat, u: Tree, r: Path, c: Cell, v: Value) returns (mem1: Mem, mem2: Mem)
    requires PairWritable(mem, a, t, b, u, c, v) && SetPath(t, r, v).Some?
    requires Clear(mem, a, r, AsTable(TreeFeet(mem, b, u)))
    ensures BothWritten(mem, mem1, mem2, a, t, b, u, r, c, v)
    ensures Same(mem1.nodes, mem2.nodes, TreeFeet(mem, a, t))
    ensures Same(mem.nodes, mem1.nodes, mem.nodes.Keys - TreeFeet(mem, a, t))
    ensures Same(mem1.nodes, mem2.nodes, mem1.nodes.Keys - TreeFeet(mem, b, u))
  {
    PairIs(mem, a, t, b, u, c, v);
    hide Owns, Foot, TreeFeet, HeapSet, SetPath, Writable, Clear, Untouched, FeetGrow, PairWritable;
    ApartFirst(mem, a, t, b, u, r, c, v);
    ApartSecond(mem, a, t, b, u, r, c, v);
    mem1 := HeapSet(mem, a, r, c).value;
    WriteFeet(mem1, b, u, r, c, v);
    mem2 := HeapSet(mem1, b, r, c).GetOr(mem1);
    FeetAsBefore(mem, mem1, b, u);
  }

  lemma PairIs(mem: Mem, a: nat, t: Tree, b: nat, u: Tree, c: Cell, v: Value)
    requires PairWritable(mem, a, t, b, u, c, v)
    ensures mem.Valid() && mem.IsMap(a) && mem.IsMap(b)
    ensures Writable(mem, a, t, c, v, map[]) && Writable(mem, b, u, c, v, map[])
  {
    hide Owns, Foot, OneWay, TreeFeet;
  }

  lemma FeetAsBefore(mem: Mem, mem1: Mem, b: nat, u: Tree)
    requires Untouched(mem, mem1, b, u)
    ensures TreeFeet(mem1, b, u) == TreeFeet(mem, b, u)
  {
  }

  /** What the first tree holds after both writes, the second holds too. */
  lemma ApartOneWay(mem: Mem, mem1: Mem, mem2: Mem, a: nat, t: Tree, b: nat, u: Tree, r: Path, c: Cell, v: Value)
    requires BothWritten(mem, mem1, mem2, a, t, b, u, r, c, v) && mem2.IsMap(a) && mem2.IsMap(b)
    ensures OneWay(mem2, a, b, SetPath(u, r, v).GetOr(u))
  {
    var u' := SetPath(u, r, v).GetOr(u);
    forall p: Path, y: nat | HeapGet(mem2, a, p) == Some(Ref(y)) && y in TreeFeet(mem2, b, u')
      ensures HeapGet(mem2, b, p) == Some(Ref(y))
    {
      hide Owns, Foot, TreeFeet, HeapSet, SetPath, Writable, HeapGet, OneWay;
      GetsBack(mem, a, t, r, c, v, p, y);
      if r <= p {
        ApartBelow(mem, mem1, mem2, a, t, b, u, r, c, v, p, y);
      } else {
        ApartNotFresh(mem, mem1, mem2, a, t, b, u, r, c, v, p, y);
        ApartOld(mem, mem1, mem2, a, t, b, u, r, c, v, p, y);
      }
    }
  }

  lemma ApartBelow(mem: Mem, mem1: Mem, mem2: Mem, a: nat, t: Tree, b: nat, u: Tree, r: Path, c: Cell, v: Value,
      p: Path, y: nat)
    requires BothWritten(mem, mem1, mem2, a, t, b, u, r, c, v) && mem2.IsMap(a) && mem2.IsMap(b)
    requires HeapGet(mem2, a, p) == Some(Ref(y)) && y in TreeFeet(mem2, b, SetPath(u, r, v).GetOr(u)) && r <= p
    ensures HeapGet(mem2, b, p) == Some(Ref(y))
  {
    if SetPath(u, r, v).Some? {
      ApartStored(mem, mem1, mem2, a, t, b, u, r, c, v, p, y);
    } else {
      ApartNotStored(mem, mem1, mem2, a, t, b, u, r, c, v, p, y);
      assert false;
    }
  }

  lemma ApartStored(mem: Mem, mem1: Mem, mem2: Mem, a: nat, t: Tree, b: nat, u: Tree, r: Path, c: Cell, v: Value,
      p: Path, y: nat)
    requires BothWritten(mem, mem1, mem2, a, t, b, u, r, c, v) && mem2.IsMap(a) && mem2.IsMap(b)
    requires HeapGet(mem2, a, p) == Some(Ref(y)) && SetPath(u, r, v).Some? && r <= p
    ensures HeapGet(mem2, b, p) == Some(Ref(y))
  {
    hide *;
    BothFacts(mem, mem1, mem2, a, t, b, u, r, c, v);
    UntouchedGet(mem1, mem2, a, SetPath(t, r, v).value, p);
    UntouchedGet(mem1, mem2, a, SetPath(t, r, v).value, r);
    GetsAt(mem, a, t, r, c, v);
    GetsAt(mem1, b, u, r, c, v);
    OtherBack(mem, mem1, a, t, r, c, v, p, y);
    if p != r {
      assert p == r + p[|r|..];
      GetAbove(mem2, a, r, p[|r|..]);
      GetThrough(mem2, a, r, c.addr, p[|r|..]);
      GetThrough(mem2, b, r, c.addr, p[|r|..]);
    }
  }

  lemma ApartNotStored(mem: Mem, mem1: Mem, mem2: Mem, a: nat, t: Tree, b: nat, u: Tree, r: Path, c: Cell, v: Value,
      p: Path, y: nat)
    requires BothWritten(mem, mem1, mem2, a, t, b, u, r, c, v) && mem2.IsMap(a) && mem2.IsMap(b)
    requires HeapGet(mem2, a, p) == Some(Ref(y)) && SetPath(u, r, v).None? && r <= p
    ensures mem2 == mem1 && y !in TreeFeet(mem1, b, u)
  {
    BothFacts(mem, mem1, mem2, a, t, b, u, r, c, v);
    hide Owns, Foot, TreeFeet, HeapSet, SetPath, Writable, HeapGet, BothWritten, Untouched;
    UntouchedGet(mem1, mem2, a, SetPath(t, r, v).value, p);
    OtherBack(mem, mem1, a, t, r, c, v, p, y);
    WritablePart(mem1, b, u, c, v);
    WritableCell(mem1, b, u, c, v);
    if p != r {
      BelowStored(mem1, c, v, p[|r|..], y);
    } else {
      CellInFeet(mem1.nodes, c, v);
    }
  }

  lemma WritableCell(mem: Mem, root: nat, t: Tree, c: Cell, v: Value)
    requires Writable(mem, root, t, c, v, map[])
    ensures Owns(mem.nodes, c, v, map[])
  {
  }

  lemma ApartOld(mem: Mem, mem1: Mem, mem2: Mem, a: nat, t: Tree, b: nat, u: Tree, r: Path, c: Cell, v: Value,
      p: Path, y: nat)
    requires BothWritten(mem, mem1, mem2, a, t, b, u, r, c, v) && mem2.IsMap(a) && mem2.IsMap(b)
    requires HeapGet(mem, a, p) == Some(Ref(y)) && y in TreeFeet(mem2, b, SetPath(u, r, v).GetOr(u)) && !(r <= p)
    ensures HeapGet(mem2, b, p) == Some(Ref(y))
  {
    PlaceInFeet(mem, a, t, p, y);
    WritablePart(mem, a, t, c, v);
    hide Owns, Foot, TreeFeet, HeapSet, SetPath, Writable, HeapGet;
    assert y in TreeFeet(mem, b, u);
    assert HeapGet(mem, b, p) == Some(Ref(y));
    if SetPath(u, r, v).Some? {
      GetsOn(mem1, b, u, r, c, v, p, y);
    }
  }

  lemma ApartNotFresh(mem: Mem, mem1: Mem, mem2: Mem, a: nat, t: Tree, b: nat, u: Tree, r: Path, c: Cell, v: Value,
      p: Path, y: nat)
    requires BothWritten(mem, mem1, mem2, a, t, b, u, r, c, v) && mem2.IsMap(a) && mem2.IsMap(b)
    requires HeapGet(mem2, a, p) == Some(Ref(y)) && y in TreeFeet(mem2, b, SetPath(u, r, v).GetOr(u))
    ensures y < mem.next
  {
    PlaceInFeet(mem1, a, SetPath(t, r, v).value, p, y);
    FeetInNodes(mem1, a, SetPath(t, r, v).value);
    WritablePart(mem, b, u, c, v);
    FootAllocated(mem.nodes, c, v, map[]);
    hide Owns, Foot, TreeFeet, HeapSet, SetPath, Writable, HeapGet, OneWay;
  }

  /** And the other way. */
  lemma ApartOtherWay(mem: Mem, mem1: Mem, mem2: Mem, a: nat, t: Tree, b: nat, u: Tree, r: Path, c: Cell, v: Value)
    requires BothWritten(mem, mem1, mem2, a, t, b, u, r, c, v) && mem2.IsMap(a) && mem2.IsMap(b)
    ensures OneWay(mem2, b, a, SetPath(t, r, v).value)
  {
    var t' := SetPath(t, r, v).value;
    forall p: Path, y: nat | HeapGet(mem2, b, p) == Some(Ref(y)) && y in TreeFeet(mem2, a, t')
      ensures HeapGet(mem2, a, p) == Some(Ref(y))
    {
      OtherPlace(mem, mem1, mem2, a, t, b, u, r, c, v, p, y);
    }
  }

  lemma OtherPlace(mem: Mem, mem1: Mem, mem2: Mem, a: nat, t: Tree, b: nat, u: Tree, r: Path, c: Cell, v: Value,
      p: Path, y: nat)
    requires BothWritten(mem, mem1, mem2, a, t, b, u, r, c, v) && mem2.IsMap(a) && mem2.IsMap(b)
    requires HeapGet(mem2, b, p) == Some(Ref(y)) && y in TreeFeet(mem2, a, SetPath(t, r, v).value)
    ensures HeapGet(mem2, a, p) == Some(Ref(y))
  {
    if SetPath(u, r, v).Some? && r <= p {
      OtherBelow(mem, mem1, mem2, a, t, b, u, r, c, v, p, y);
    } else {
      OtherBefore(mem, mem1, mem2, a, t, b, u, r, c, v, p, y);
      hide Owns, Foot, TreeFeet, HeapSet, SetPath, Writable, HeapGet, OneWay, FeetGrow;
      OtherOld(mem, mem1, a, t, b, u, r, c, v, p, y);
    }
  }

  lemma OtherBelow(mem: Mem, mem1: Mem, mem2: Mem, a: nat, t: Tree, b: nat, u: Tree, r: Path, c: Cell, v: Value,
      p: Path, y: nat)
    requires BothWritten(mem, mem1, mem2, a, t, b, u, r, c, v) && mem2.IsMap(a) && mem2.IsMap(b)
    requires HeapGet(mem2, b, p) == Some(Ref(y)) && SetPath(u, r, v).Some? && r <= p
    ensures HeapGet(mem2, a, p) == Some(Ref(y))
  {
    hide *;
    BothFacts(mem, mem1, mem2, a, t, b, u, r, c, v);
    GetsAt(mem, a, t, r, c, v);
    UntouchedGet(mem1, mem2, a, SetPath(t, r, v).value, r);
    OtherBack(mem1, mem2, b, u, r, c, v, p, y);
    if p != r {
      assert p == r + p[|r|..];
      GetThrough(mem2, a, r, c.addr, p[|r|..]);
    }
  }

  lemma OtherBack(mem: Mem, mem': Mem, root: nat, t: Tree, r: Path, c: Cell, v: Value, p: Path, y: nat)
    requires Writable(mem, root, t, c, v, map[]) && mem.Valid() && mem.IsMap(root) && SetPath(t, r, v).Some?
    requires HeapSet(mem, root, r, c) == Some(mem') && mem'.IsMap(root) && HeapGet(mem', root, p) == Some(Ref(y))
    requires r <= p
    ensures p == r ==> c == Ref(y)
    ensures p != r ==> |r| < |p| && c.Ref? && mem'.IsMap(c.addr) && HeapGet(mem', c.addr, p[|r|..]) == Some(Ref(y))
  {
    hide Writable, HeapSet, SetPath, HeapGet;
    GetsBack(mem, root, t, r, c, v, p, y);
  }

  lemma UntouchedGet(mem: Mem, mem': Mem, root: nat, t: Tree, q: Path)
    requires Untouched(mem, mem', root, t)
    ensures mem.IsMap(root) && mem'.IsMap(root) && HeapGet(mem', root, q) == HeapGet(mem, root, q)
  {
  }

  lemma OtherBefore(mem: Mem, mem1: Mem, mem2: Mem, a: nat, t: Tree, b: nat, u: Tree, r: Path, c: Cell, v: Value,
      p: Path, y: nat)
    requires BothWritten(mem, mem1, mem2, a, t, b, u, r, c, v) && mem2.IsMap(a) && mem2.IsMap(b)
    requires HeapGet(mem2, b, p) == Some(Ref(y)) && y in TreeFeet(mem2, a, SetPath(t, r, v).value)
    requires !(SetPath(u, r, v).Some? && r <= p)
    ensures HeapGet(mem, b, p) == Some(Ref(y)) && y in TreeFeet(mem1, a, SetPath(t, r, v).value)
  {
    FeetInNodes(mem1, a, SetPath(t, r, v).value);
    hide Owns, Foot, TreeFeet, HeapSet, SetPath, Writable, HeapGet, OneWay, PairWritable;
    if SetPath(u, r, v).Some? {
      GetsBack(mem1, b, u, r, c, v, p, y);
    }
  }

  lemma OtherOld(mem: Mem, mem1: Mem, a: nat, t: Tree, b: nat, u: Tree, r: Path, c: Cell, v: Value, p: Path, y: nat)
    requires PairWritable(mem, a, t, b, u, c, v) && SetPath(t, r, v).Some? && HeapSet(mem, a, r, c) == Some(mem1)
    requires FeetGrow(mem, mem1, a, t, SetPath(t, r, v).value, c, v)
    requires HeapGet(mem, b, p) == Some(Ref(y)) && y in TreeFeet(mem1, a, SetPath(t, r, v).value)
    requires !(SetPath(u, r, v).Some? && r <= p)
    ensures mem1.IsMap(a) && HeapGet(mem1, a, p) == Some(Ref(y))
  {
    PlaceInFeet(mem, b, u, p, y);
    PairSwap(mem, a, t, b, u, c, v);
    SharedBefore(mem, mem1, b, u, a, t, SetPath(t, r, v).value, c, v, y);
    if r <= p {
      BlockedHoldsNothing(mem, b, u, r, v, p, y);
    }
    hide Owns, Foot, TreeFeet, HeapSet, SetPath, Writable, HeapGet;
    assert HeapGet(mem, a, p) == Some(Ref(y));
    GetsOn(mem, a, t, r, c, v, p, y);
  }

  /** What stood at or below the written path is out of the tree. */
  lemma TakenOff(mem: Mem, b: nat, u: Tree, r: Path, c: Cell, v: Value, z: Path, y: nat)
    requires Writable(mem, b, u, c, v, map[]) && mem.Valid() && mem.IsMap(b) && SetPath(u, r, v).Some?
    requires HeapSet(mem, b, r, c).Some? && HeapGet(mem, b, z) == Some(Ref(y)) && r <= z
    ensures y !in TreeFeet(HeapSet(mem, b, r, c).value, b, SetPath(u, r, v).value)
  {
    var mem', u' := HeapSet(mem, b, r, c).value, SetPath(u, r, v).value;
    WriteFeet(mem, b, u, r, c, v);
    PlaceInFeet(mem, b, u, z, y);
    PlaceFacts(mem, b, u, z, y);
    WritablePart(mem, b, u, c, v);
    StoredStays(mem, mem', b, u, c, v);
    hide Owns, Foot, TreeFeet, HeapSet, SetPath, HeapGet, Writable;
    if y in TreeFeet(mem', b, u') {
      var q := PlaceOf(mem', b, u', y);
      GetsBack(mem, b, u, r, c, v, q, y);
      if r <= q {
        StoredHas(mem, mem', c, v, r, q, y);
      } else {
        PlaceUnique(mem, b, u, q, z, y);
      }
    }
  }

  lemma StoredStays(mem: Mem, mem': Mem, b: nat, u: Tree, c: Cell, v: Value)
    requires Writable(mem, b, u, c, v, map[]) && Same(mem.nodes, mem'.nodes, mem.nodes.Keys - TreeFeet(mem, b, u))
    ensures Owns(mem'.nodes, c, v, map[]) && Foot(mem'.nodes, c, v, map[]) == Foot(mem.nodes, c, v, map[])
  {
    hide Owns, Foot;
    FootAllocated(mem.nodes, c, v, map[]);
    OwnsFrame(mem.nodes, mem'.nodes, c, v, map[]);
  }

  lemma StoredHas(mem: Mem, mem': Mem, c: Cell, v: Value, r: Path, q: Path, y: nat)
    requires Owns(mem'.nodes, c, v, map[]) && Foot(mem'.nodes, c, v, map[]) == Foot(mem.nodes, c, v, map[])
    requires r == q ==> c == Ref(y)
    requires StrictPrefix(r, q) ==> c.Ref? && mem'.IsMap(c.addr) && HeapGet(mem', c.addr, q[|r|..]) == Some(Ref(y))
    requires r <= q
    ensures y in Foot(mem.nodes, c, v, map[])
  {
    hide Owns, Foot, HeapGet;
    if r == q {
      CellInFeet(mem'.nodes, c, v);
    } else {
      BelowStored(mem', c, v, q[|r|..], y);
    }
  }

  /** What the two writes of one key leave of a pair. */
  ghost predicate PairLater(mem: Mem, mem1: Mem, mem2: Mem, a: nat, t: Tree, t': Tree, b: nat, u: Tree, u': Tree,
      r: Path, c: Cell, v: Value)
    requires mem.IsMap(a)
  {
    && Paired(mem2, a, t', b, u') && mem.next <= mem2.next
    && Untouched(mem1, mem2, a, t')
    && Same(mem1.nodes, mem2.nodes, TreeFeet(mem, a, t))
    && Same(mem.nodes, mem2.nodes, mem.nodes.Keys - TreeFeet(mem, a, t) - TreeFeet(mem, b, u))
    && (forall x :: x in TreeFeet(mem2, a, t') ==>
          x in TreeFeet(mem, a, t) || x in Foot(mem.nodes, c, v, map[]) || x >= mem.next)
    && (forall x :: x in TreeFeet(mem2, b, u') ==>
          x in TreeFeet(mem, b, u) || x in Foot(mem.nodes, c, v, map[]) || x >= mem.next)
    && forall z: Path, y: nat :: HeapGet(mem, a, z) == Some(Ref(y)) && r <= z ==> y !in TreeFeet(mem2, b, u')
  }

  lemma RemovedThere(mem: Mem, memb: Mem, mem2: Mem, a: nat, t: Tree, b: nat, u: Tree, r: Path, c: Cell, v: Value,
      z: Path, y: nat)
    requires PairWritable(mem, a, t, b, u, c, v) && Writable(memb, b, u, c, v, map[]) && memb.Valid() && memb.IsMap(b)
    requires HeapSet(memb, b, r, c).GetOr(memb) == mem2 && (HeapSet(memb, b, r, c).Some? <==> SetPath(u, r, v).Some?)
    requires mem.IsMap(b) && forall q: Path :: HeapGet(memb, b, q) == HeapGet(mem, b, q)
    requires forall x :: x in TreeFeet(mem2, b, SetPath(u, r, v).GetOr(u)) ==>
               x in TreeFeet(mem, b, u) || x in Foot(mem.nodes, c, v, map[]) || x >= mem.next
    requires mem.IsMap(a) && HeapGet(mem, a, z) == Some(Ref(y)) && r <= z
    ensures y !in TreeFeet(mem2, b, SetPath(u, r, v).GetOr(u))
  {
    PlaceInFeet(mem, a, t, z, y);
    WritablePart(mem, a, t, c, v);
    hide Owns, Foot, TreeFeet, HeapSet, SetPath, HeapGet, Writable;
    if y in TreeFeet(mem, b, u) {
      assert HeapGet(mem, b, z) == Some(Ref(y));
      BlockedHoldsNothing(mem, b, u, r, v, z, y);
      TakenOff(memb, b, u, r, c, v, z, y);
    }
  }

  lemma LaterThrough(mem: Mem, a: nat, t: Tree, b: nat, u: Tree, r: Path, c: Cell, v: Value, q: Path, x: nat)
    requires PairWritable(mem, a, t, b, u, c, v) && StrictPrefix(q, r) && SetPath(t, r, v).Some?
    requires HeapGet(mem, a, q) == Some(Ref(x)) && x in TreeFeet(mem, b, u)
    ensures HeapSet(mem, a, r, c).Some? && SetPath(u, r, v).Some?
    ensures var mem1 := HeapSet(mem, a, r, c).value;
            && mem1.Valid() && mem1.IsMap(b) && HeapSet(mem1, b, r, c) == Some(mem1)
            && PairLater(mem, mem1, mem1, a, t, SetPath(t, r, v).value, b, u, SetPath(u, r, v).value, r, c, v)
  {
    PairIs(mem, a, t, b, u, c, v);
    PairThrough(mem, a, t, b, u, r, c, v, q, x);
    var mem1, t', u' := HeapSet(mem, a, r, c).value, SetPath(t, r, v).value, SetPath(u, r, v).value;
    SameIsUntouchedSelf(mem1, a, t', b, u');
    hide Owns, Foot, TreeFeet, HeapSet, SetPath, HeapGet, Writable, PairWritable, Untouched, OneWay;
    WriteFeet(mem, a, t, r, c, v);
    WriteFeet(mem, b, u, r, c, v);
    GetsAt(mem, b, u, r, c, v);
    SetAgain(mem1, b, r, c);
    forall z: Path, y: nat | HeapGet(mem, a, z) == Some(Ref(y)) && r <= z ensures y !in TreeFeet(mem1, b, u') {
      RemovedThere(mem, mem, mem1, a, t, b, u, r, c, v, z, y);
    }
  }

  lemma SameIsUntouchedSelf(mem: Mem, a: nat, t: Tree, b: nat, u: Tree)
    requires Paired(mem, a, t, b, u)
    ensures Untouched(mem, mem, a, t)
  {
  }

  lemma LaterApart(mem: Mem, a: nat, t: Tree, b: nat, u: Tree, r: Path, c: Cell, v: Value)
    returns (mem1: Mem, mem2: Mem)
    requires PairWritable(mem, a, t, b, u, c, v) && SetPath(t, r, v).Some?
    requires Clear(mem, a, r, AsTable(TreeFeet(mem, b, u)))
    ensures mem.IsMap(a) && mem.Valid() && HeapSet(mem, a, r, c) == Some(mem1)
    ensures mem1.Valid() && mem1.IsMap(b) && mem2 == HeapSet(mem1, b, r, c).GetOr(mem1)
    ensures HeapSet(mem1, b, r, c).Some? <==> SetPath(u, r, v).Some?
    ensures PairLater(mem, mem1, mem2, a, t, SetPath(t, r, v).value, b, u, SetPath(u, r, v).GetOr(u), r, c, v)
  {
    PairIs(mem, a, t, b, u, c, v);
    mem1, mem2 := ApartBoth(mem, a, t, b, u, r, c, v);
    var t', u' := SetPath(t, r, v).value, SetPath(u, r, v).GetOr(u);
    hide Owns, Foot, TreeFeet, HeapSet, SetPath, HeapGet, Writable, PairWritable, Paired, BothWritten, FeetGrow;
    hide Untouched;
    BothFacts(mem, mem1, mem2, a, t, b, u, r, c, v);
    ApartPaired(mem, mem1, mem2, a, t, b, u, r, c, v);
    ApartGrows(mem, mem1, mem2, a, t, b, u, r, c, v);
    forall z: Path, y: nat | HeapGet(mem, a, z) == Some(Ref(y)) && r <= z ensures y !in TreeFeet(mem2, b, u') {
      ApartRemoved(mem, mem1, mem2, a, t, b, u, r, c, v, z, y);
    }
  }

  lemma BothFacts(mem: Mem, mem1: Mem, mem2: Mem, a: nat, t: Tree, b: nat, u: Tree, r: Path, c: Cell, v: Value)
    requires BothWritten(mem, mem1, mem2, a, t, b, u, r, c, v)
    ensures mem.Valid() && mem.IsMap(a) && mem.IsMap(b) && Writable(mem, a, t, c, v, map[]) && SetPath(t, r, v).Some?
    ensures HeapSet(mem, a, r, c) == Some(mem1) && mem1.Valid() && mem1.IsMap(b)
    ensures mem2 == HeapSet(mem1, b, r, c).GetOr(mem1) && (HeapSet(mem1, b, r, c).Some? <==> SetPath(u, r, v).Some?)
    ensures SetPath(u, r, v).Some? ==> HeapSet(mem1, b, r, c) == Some(mem2)
    ensures Untouched(mem1, mem2, a, SetPath(t, r, v).value) && Writable(mem1, b, u, c, v, map[])
  {
    hide Owns, Foot, TreeFeet, HeapSet, SetPath, HeapGet, Writable, OneWay;
  }

  lemma ApartPaired(mem: Mem, mem1: Mem, mem2: Mem, a: nat, t: Tree, b: nat, u: Tree, r: Path, c: Cell, v: Value)
    requires BothWritten(mem, mem1, mem2, a, t, b, u, r, c, v)
    ensures Paired(mem2, a, SetPath(t, r, v).value, b, SetPath(u, r, v).GetOr(u))
  {
    ApartRoots(mem, mem1, mem2, a, t, b, u, r, c, v);
    hide Owns, Foot, TreeFeet, HeapSet, SetPath, HeapGet, Writable, PairWritable, OneWay;
    ApartOneWay(mem, mem1, mem2, a, t, b, u, r, c, v);
    ApartOtherWay(mem, mem1, mem2, a, t, b, u, r, c, v);
  }

  lemma ApartGrows(mem: Mem, mem1: Mem, mem2: Mem, a: nat, t: Tree, b: nat, u: Tree, r: Path, c: Cell, v: Value)
    requires BothWritten(mem, mem1, mem2, a, t, b, u, r, c, v)
    requires Same(mem.nodes, mem1.nodes, mem.nodes.Keys - TreeFeet(mem, a, t))
    requires Same(mem1.nodes, mem2.nodes, mem1.nodes.Keys - TreeFeet(mem, b, u))
    ensures mem.next <= mem2.next
    ensures Same(mem.nodes, mem2.nodes, mem.nodes.Keys - TreeFeet(mem, a, t) - TreeFeet(mem, b, u))
    ensures forall x :: x in TreeFeet(mem2, a, SetPath(t, r, v).value) ==>
              x in TreeFeet(mem, a, t) || x in Foot(mem.nodes, c, v, map[]) || x >= mem.next
    ensures forall x :: x in TreeFeet(mem2, b, SetPath(u, r, v).GetOr(u)) ==>
              x in TreeFeet(mem, b, u) || x in Foot(mem.nodes, c, v, map[]) || x >= mem.next
  {
    hide Owns, Foot, TreeFeet, HeapSet, SetPath, HeapGet, Writable, PairWritable;
  }

  lemma ApartRemoved(mem: Mem, mem1: Mem, mem2: Mem, a: nat, t: Tree, b: nat, u: Tree, r: Path, c: Cell, v: Value,
      z: Path, y: nat)
    requires BothWritten(mem, mem1, mem2, a, t, b, u, r, c, v)
    requires forall x :: x in TreeFeet(mem2, b, SetPath(u, r, v).GetOr(u)) ==>
               x in TreeFeet(mem, b, u) || x in Foot(mem.nodes, c, v, map[]) || x >= mem.next
    requires mem.IsMap(a) && HeapGet(mem, a, z) == Some(Ref(y)) && r <= z
    ensures y !in TreeFeet(mem2, b, SetPath(u, r, v).GetOr(u))
  {
    hide Owns, Foot, TreeFeet, HeapSet, SetPath, HeapGet, Writable, PairWritable, FeetGrow;
    RemovedThere(mem, mem1, mem2, a, t, b, u, r, c, v, z, y);
  }

  lemma ApartRoots(mem: Mem, mem1: Mem, mem2: Mem, a: nat, t: Tree, b: nat, u: Tree, r: Path, c: Cell, v: Value)
    requires BothWritten(mem, mem1, mem2, a, t, b, u, r, c, v)
    ensures a !in TreeFeet(mem2, b, SetPath(u, r, v).GetOr(u)) && b !in TreeFeet(mem2, a, SetPath(t, r, v).value)
  {
    WritablePart(mem, a, t, c, v);
    WritablePart(mem, b, u, c, v);
    hide Owns, Foot, TreeFeet, HeapSet, SetPath, HeapGet, OneWay;
  }

  /** One key, written to both trees. */
  lemma PairStep(mem: Mem, a: nat, t: Tree, b: nat, u: Tree, r: Path, c: Cell, v: Value) returns (mem1: Mem, mem2: Mem)
    requires PairWritable(mem, a, t, b, u, c, v) && SetPath(t, r, v).Some?
    ensures mem.IsMap(a) && mem.Valid() && HeapSet(mem, a, r, c) == Some(mem1)
    ensures mem1.Valid() && mem1.IsMap(b) && mem2 == HeapSet(mem1, b, r, c).GetOr(mem1)
    ensures HeapSet(mem1, b, r, c).Some? <==> SetPath(u, r, v).Some?
    ensures PairLater(mem, mem1, mem2, a, t, SetPath(t, r, v).value, b, u, SetPath(u, r, v).GetOr(u), r, c, v)
  {
    PairIs(mem, a, t, b, u, c, v);
    PairApartRoot(mem, a, t, b, u, c, v);
    hide Owns, Foot, TreeFeet, HeapSet, SetPath, HeapGet, Writable, PairWritable, PairLater, Clear;
    var pay := AsTable(TreeFeet(mem, b, u));
    if Clear(mem, a, r, pay) {
      mem1, mem2 := LaterApart(mem, a, t, b, u, r, c, v);
    } else {
      var q, x := NotClear(mem, a, r, pay);
      LaterThrough(mem, a, t, b, u, r, c, v, q, x);
      mem1 := HeapSet(mem, a, r, c).value;
      mem2 := mem1;
    }
  }

  lemma PairApartRoot(mem: Mem, a: nat, t: Tree, b: nat, u: Tree, c: Cell, v: Value)
    requires PairWritable(mem, a, t, b, u, c, v)
    ensures a !in AsTable(TreeFeet(mem, b, u))
  {
    hide Owns, Foot, TreeFeet, Writable, OneWay;
  }
}
