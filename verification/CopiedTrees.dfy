/** The deep copy of a tree is a tree of its own, with the same value: what a
    restore replays on is private (internal/dictutil/copy.go, config_override.go). */
module CopiedTrees {
  import opened Values
  import opened Paths
  import opened Store
  import opened StoreTrees
  import opened GraphCopy

  /** The objects of the copy are the images of those of the source. */
  ghost predicate FootImage(f: Renaming, source: set<nat>, copied: set<nat>) {
    source <= f.Keys && forall x :: x in copied <==> exists a :: a in source && f[a] == x
  }

  ghost predicate ImageMap(m: map<string, Cell>, m': map<string, Cell>, f: Renaming) {
    m'.Keys == m.Keys && forall k :: k in m ==> Knows(m[k], f) && m'[k] == Image(m[k], f)
  }

  lemma {:induction false} CopyOwns(h: Mem, mem: Mem, f: Renaming, c: Cell, v: Value)
    requires Copying(h, mem, f, {}) && Knows(c, f) && Owns(h.nodes, c, v, map[])
    ensures Owns(mem.nodes, Image(c, f), v, map[])
    ensures FootImage(f, Foot(h.nodes, c, v, map[]), Foot(mem.nodes, Image(c, f), v, map[]))
    decreases v, 1
  {
    if c.Ref? {
      var a := c.addr;
      assert IsImage(h.nodes[a], mem.nodes[f[a]], f);
      hide Copying;
      Unfold(h.nodes, a, v.entries, map[]);
      hide Owns, OwnsAll, Foot, FootAll;
      CopyOwnsAll(h, mem, f, h.nodes[a].m, mem.nodes[f[a]].m, v.entries);
      CopyRoot(h, mem, f, a, v.entries);
    }
  }

  lemma CopyRoot(h: Mem, mem: Mem, f: Renaming, a: nat, t: Tree)
    requires Copying(h, mem, f, {}) && a in f && a in h.nodes && h.nodes[a].Entries? && f[a] in mem.nodes &&
              mem.nodes[f[a]].Entries?
    requires Owns(h.nodes, Ref(a), Map(t), map[]) && OwnsAll(mem.nodes, mem.nodes[f[a]].m, t, map[])
    requires FootImage(f, FootAll(h.nodes, h.nodes[a].m, t, map[]), FootAll(mem.nodes, mem.nodes[f[a]].m, t, map[]))
    ensures Owns(mem.nodes, Ref(f[a]), Map(t), map[])
    ensures FootImage(f, Foot(h.nodes, Ref(a), Map(t), map[]), Foot(mem.nodes, Ref(f[a]), Map(t), map[]))
  {
    Unfold(h.nodes, a, t, map[]);
    hide Owns, OwnsAll, Foot, FootAll, IsImage;
    Fold(mem.nodes, f[a], t, map[]);
  }

  lemma {:induction false} CopyOwnsAll(h: Mem, mem: Mem, f: Renaming, m: map<string, Cell>, m': map<string, Cell>,
      t: Tree)
    requires Copying(h, mem, f, {}) && ImageMap(m, m', f) && OwnsAll(h.nodes, m, t, map[])
    ensures OwnsAll(mem.nodes, m', t, map[])
    ensures FootImage(f, FootAll(h.nodes, m, t, map[]), FootAll(mem.nodes, m', t, map[]))
    decreases Map(t), 0
  {
    hide Owns, Foot, FootImage, Copying;
    forall k | k in t
      ensures Owns(mem.nodes, m'[k], t[k], map[])
      ensures FootImage(f, Foot(h.nodes, m[k], t[k], map[]), Foot(mem.nodes, m'[k], t[k], map[]))
    {
      CopyOwns(h, mem, f, m[k], t[k]);
    }
    forall k, l | k in t && l in t && k != l
      ensures Foot(mem.nodes, m'[k], t[k], map[]) !! Foot(mem.nodes, m'[l], t[l], map[])
    {
      ApartImages(h, mem, f, Foot(h.nodes, m[k], t[k], map[]), Foot(h.nodes, m[l], t[l], map[]),
                  Foot(mem.nodes, m'[k], t[k], map[]), Foot(mem.nodes, m'[l], t[l], map[]));
    }
    UnionImage(h, mem, f, m, m', t);
  }

  lemma ApartImages(h: Mem, mem: Mem, f: Renaming, a: set<nat>, b: set<nat>, a': set<nat>, b': set<nat>)
    requires Copying(h, mem, f, {}) && FootImage(f, a, a') && FootImage(f, b, b') && a !! b
    ensures a' !! b'
  {
    hide IsImage;
  }

  lemma UnionImage(h: Mem, mem: Mem, f: Renaming, m: map<string, Cell>, m': map<string, Cell>, t: Tree)
    requires m.Keys == t.Keys == m'.Keys
    requires forall k :: k in t ==> FootImage(f, Foot(h.nodes, m[k], t[k], map[]), Foot(mem.nodes, m'[k], t[k], map[]))
    ensures FootImage(f, FootAll(h.nodes, m, t, map[]), FootAll(mem.nodes, m', t, map[]))
  {
    hide Foot;
    var source, copied := FootAll(h.nodes, m, t, map[]), FootAll(mem.nodes, m', t, map[]);
    forall x ensures x in copied <==> exists a :: a in source && a in f && f[a] == x {
      if x in copied {
        var k :| k in t && x in Foot(mem.nodes, m'[k], t[k], map[]);
        var a :| a in Foot(h.nodes, m[k], t[k], map[]) && f[a] == x;
        assert a in source;
      }
      if a :| a in source && a in f && f[a] == x {
        var k :| k in t && a in Foot(h.nodes, m[k], t[k], map[]);
        assert x in Foot(mem.nodes, m'[k], t[k], map[]);
      }
    }
  }

  /** The copy represents the same value, with none of the objects that existed
      before; so writes to either never show in the other. */
  lemma CopyIsPrivateTree(h: Mem, mem: Mem, c: Cell, r: Cell, f: Renaming, v: Value)
    requires IsCopy(h, mem, c, r, f) && Owns(h.nodes, c, v, map[])
    ensures Owns(mem.nodes, r, v, map[]) && Owns(mem.nodes, c, v, map[])
    ensures Foot(mem.nodes, r, v, map[]) !! h.nodes.Keys
  {
    CopyOwns(h, mem, f, c, v);
    hide Owns, Foot, IsImage, Reaches;
    OwnsFrame(h.nodes, mem.nodes, c, v, map[]);
  }
}
