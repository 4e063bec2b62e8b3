/** Writes into a heap tree whose cells may be objects of somebody else. As long
    as no write passes through such an object, it stands for its value. */
module SharedObjects {
  import opened Values
  import opened Paths
  import opened Store
  import opened StoreTrees

  predicate Payload(c: Cell, pay: Shared) { if c.Ref? then c.addr in pay else c.NilMap? || !c.v.Map? }

  function ValueOf(c: Cell, pay: Shared): Value
    requires Payload(c, pay)
  {
    match c
    case Leaf(v) => v
    case NilMap => Map(map[])
    case Ref(a) => pay[a]
  }

  predicate StrictPrefix(p: seq<string>, q: seq<string>) { |p| < |q| && p <= q }

  /** A tree without shared objects stays one when objects elsewhere are shared. */
  lemma {:induction false} NoneShared(h: Nodes, c: Cell, v: Value, pay: Shared)
    requires Owns(h, c, v, map[]) && Foot(h, c, v, map[]) !! pay.Keys
    ensures Owns(h, c, v, pay) && Foot(h, c, v, pay) == Foot(h, c, v, map[])
    decreases v, 1
  {
    if c.Ref? {
      assert c.addr in Foot(h, c, v, map[]);
      NoneSharedAll(h, h[c.addr].m, v.entries, pay);
    }
  }

  lemma {:induction false} NoneSharedAll(h: Nodes, m: map<string, Cell>, t: Tree, pay: Shared)
    requires OwnsAll(h, m, t, map[]) && FootAll(h, m, t, map[]) !! pay.Keys
    ensures OwnsAll(h, m, t, pay) && FootAll(h, m, t, pay) == FootAll(h, m, t, map[])
    decreases Map(t), 0
  {
    forall k | k in t ensures Owns(h, m[k], t[k], pay) && Foot(h, m[k], t[k], pay) == Foot(h, m[k], t[k], map[]) {
      assert Foot(h, m[k], t[k], map[]) <= FootAll(h, m, t, map[]);
      NoneShared(h, m[k], t[k], pay);
    }
  }

  lemma {:induction false} Inside(t: Tree, p: Path, big: Value)
    requires Map(t) < big && GetPath(t, p).Some?
    ensures GetPath(t, p).value < big
    decreases |p|
  {
    assert t[p[0]] < Map(t);
    if |p| > 1 {
      Inside(t[p[0]].entries, p[1..], big);
    }
  }

  lemma {:induction false} SetAbove(t: Tree, p: Path, v: Value, q: Path)
    requires SetPath(t, p, v).Some? && StrictPrefix(q, p)
    ensures GetPath(SetPath(t, p, v).value, q).Some? && GetPath(SetPath(t, p, v).value, q).value.Map?
    decreases |p|
  {
    assert q[0] == p[0];
    if |q| > 1 {
      SetAbove(Child(t, p[0]).value, p[1..], v, q[1..]);
    }
  }

  lemma {:induction false} SetBelow(t: Tree, p: Path, v: Value, q: Path)
    requires SetPath(t, p, v).Some? && StrictPrefix(p, q) && (v.Map? ==> v.entries == map[])
    ensures GetPath(SetPath(t, p, v).value, q).None?
    decreases |p|
  {
    assert q[0] == p[0];
    if |p| > 1 {
      SetBelow(Child(t, p[0]).value, p[1..], v, q[1..]);
    }
  }

  /** After a write, a marked place was marked before or is the place written. */
  lemma MarkedAfter(t: Tree, p: Path, v: Value, mark: Value, q: Path)
    requires SetPath(t, p, v).Some? && !mark.Map? && (v.Map? ==> v.entries == map[])
    requires GetPath(SetPath(t, p, v).value, q) == Some(mark)
    ensures GetPath(t, q) == Some(mark) || (q == p && v == mark)
  {
    GetAfterSet(t, p, v);
    if !Comparable(p, q) {
      SetFrame(t, p, v, q);
    } else if |q| < |p| {
      SetAbove(t, p, v, q);
    } else if |p| < |q| {
      SetBelow(t, p, v, q);
    } else {
      assert p == q;
    }
  }

  function Marked(pay: Shared, mark: Value): Shared { map a | a in pay :: mark }

  /** If no map on the way is marked, the write meets no shared object. */
  lemma {:induction false} ClearFromMarks(mem: Mem, root: nat, s: Tree, p: Path, pay: Shared, mark: Value)
    requires root !in pay && Owns(mem.nodes, Ref(root), Map(s), Marked(pay, mark))
    requires forall q: Path :: StrictPrefix(q, p) ==> GetPath(s, q) != Some(mark)
    ensures Clear(mem, root, p, Marked(pay, mark)) && Clear(mem, root, p, pay)
    decreases |p|
  {
    var h, k := mem.nodes, p[0];
    Unfold(h, root, s, Marked(pay, mark));
    if |p| > 1 && k in h[root].m && h[root].m[k].Ref? {
      var a := h[root].m[k].addr;
      assert Owns(h, Ref(a), s[k], Marked(pay, mark));
      assert StrictPrefix([k], p) && GetPath(s, [k]) == Some(s[k]);
      assert a !in pay;
      Shape(h, Ref(a), s[k], Marked(pay, mark));
      forall q: Path | StrictPrefix(q, p[1..]) ensures GetPath(s[k].entries, q) != Some(mark) {
        assert StrictPrefix([k] + q, p) by { assert p == [k] + p[1..]; }
        assert ([k] + q)[1..] == q;
        assert GetPath(s, [k] + q) == GetPath(s[k].entries, q);
      }
      ClearFromMarks(mem, a, s[k].entries, p[1..], pay, mark);
    }
  }

  lemma PayloadFoot(h: Nodes, c: Cell, pay: Shared)
    requires Payload(c, pay)
    ensures Owns(h, c, ValueOf(c, pay), pay) && Foot(h, c, ValueOf(c, pay), pay) == {}
  {
  }

  /** The marked value of a payload cell. */
  function MarkOf(c: Cell, pay: Shared, mark: Value): Value
    requires Payload(c, pay)
  {
    ValueOf(c, Marked(pay, mark))
  }

  lemma OwnsRoot(mem: Mem, root: nat, t: Tree, pay: Shared)
    requires Owns(mem.nodes, Ref(root), Map(t), pay) && root !in pay
    ensures mem.IsMap(root)
  {
  }

  /** A write of a payload cell that meets no shared object. */
  lemma WriteStep(mem: Mem, root: nat, t: Tree, p: Path, c: Cell, pay: Shared)
    requires mem.Valid() && mem.IsMap(root) && root !in pay && (forall a :: a in pay ==> a < mem.next)
    requires Owns(mem.nodes, Ref(root), Map(t), pay) && Payload(c, pay) && Clear(mem, root, p, pay)
    ensures var mem' := HeapSet(mem, root, p, c).GetOr(mem);
            var t' := SetPath(t, p, ValueOf(c, pay)).GetOr(t);
            && mem'.Valid() && mem.next <= mem'.next
            && Owns(mem'.nodes, Ref(root), Map(t'), pay)
            && Same(mem.nodes, mem'.nodes, mem.nodes.Keys - Foot(mem.nodes, Ref(root), Map(t), pay))
            && forall a :: a in Foot(mem'.nodes, Ref(root), Map(t'), pay) ==>
                a in Foot(mem.nodes, Ref(root), Map(t), pay) || a >= mem.next
  {
    PayloadFoot(mem.nodes, c, pay);
    hide Owns, OwnsAll, Foot, FootAll, Clear, HeapSet, SetPath;
    SetRefines(mem, root, t, p, c, ValueOf(c, pay), pay);
  }

  /** What a reader sees who follows the references from a cell, shared or not. */
  ghost predicate Reads(h: Nodes, c: Cell, v: Value)
    decreases v
  {
    match c
    case Leaf(x) => v == x && !v.Map?
    case NilMap => v == Map(map[])
    case Ref(a) =>
      && v.Map? && a in h && h[a].Entries? && h[a].m.Keys == v.entries.Keys
      && forall k :: k in v.entries ==> Reads(h, h[a].m[k], v.entries[k])
  }

  lemma {:induction false} ReadsUnique(h: Nodes, c: Cell, v: Value, w: Value)
    requires Reads(h, c, v) && Reads(h, c, w)
    ensures v == w
    decreases v
  {
    if c.Ref? {
      forall k | k in v.entries ensures v.entries[k] == w.entries[k] {
        ReadsUnique(h, h[c.addr].m[k], v.entries[k], w.entries[k]);
      }
      assert v.entries == w.entries;
    }
  }

  lemma {:induction false} ReadsStays(h: Nodes, h': Nodes, c: Cell, v: Value)
    requires Reads(h, c, v) && Same(h, h', h.Keys)
    ensures Reads(h', c, v)
    decreases v
  {
    if c.Ref? {
      forall k | k in v.entries ensures Reads(h', h[c.addr].m[k], v.entries[k]) {
        ReadsStays(h, h', h[c.addr].m[k], v.entries[k]);
      }
    }
  }

  /** A tree over shared objects reads as its value. */
  lemma {:induction false} OwnsReads(h: Nodes, c: Cell, v: Value, pay: Shared)
    requires Owns(h, c, v, pay) && forall a :: a in pay ==> Reads(h, Ref(a), pay[a])
    ensures Reads(h, c, v)
    decreases v, 1
  {
    if c.Ref? && c.addr !in pay {
      OwnsAllRead(h, h[c.addr].m, v.entries, pay);
    }
  }

  lemma {:induction false} OwnsAllRead(h: Nodes, m: map<string, Cell>, t: Tree, pay: Shared)
    requires OwnsAll(h, m, t, pay) && forall a :: a in pay ==> Reads(h, Ref(a), pay[a])
    ensures forall k :: k in t ==> Reads(h, m[k], t[k])
    decreases Map(t), 0
  {
    forall k | k in t ensures Reads(h, m[k], t[k]) {
      OwnsReads(h, m[k], t[k], pay);
    }
  }

  /** The private objects of a tree do not depend on what the shared ones stand for. */
  lemma {:induction false} SameFoot(h: Nodes, c: Cell, v: Value, w: Value, pay: Shared, qay: Shared)
    requires pay.Keys == qay.Keys && Owns(h, c, v, pay) && Owns(h, c, w, qay)
    ensures Foot(h, c, v, pay) == Foot(h, c, w, qay)
    decreases v, 1
  {
    if c.Ref? && c.addr !in pay {
      SameFootAll(h, h[c.addr].m, v.entries, w.entries, pay, qay);
    }
  }

  lemma {:induction false} SameFootAll(h: Nodes, m: map<string, Cell>, t: Tree, s: Tree, pay: Shared, qay: Shared)
    requires pay.Keys == qay.Keys && OwnsAll(h, m, t, pay) && OwnsAll(h, m, s, qay)
    ensures FootAll(h, m, t, pay) == FootAll(h, m, s, qay)
    decreases Map(t), 0
  {
    forall k | k in t ensures Foot(h, m[k], t[k], pay) == Foot(h, m[k], s[k], qay) {
      SameFoot(h, m[k], t[k], s[k], pay, qay);
    }
  }

  lemma AllAllocated(h: Nodes, m: map<string, Cell>, t: Tree)
    ensures FootAll(h, m, t, map[]) <= h.Keys
  {
    hide Foot;
    forall k | k in t && k in m ensures Foot(h, m[k], t[k], map[]) <= h.Keys {
      FootAllocated(h, m[k], t[k], map[]);
    }
  }
}
