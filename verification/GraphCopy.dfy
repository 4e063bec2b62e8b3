/** DeepCopyValue over a heap of maps and pointers, which may be shared and may
    be cyclic (internal/dictutil/copy.go). */
module GraphCopy {
  import opened Values
  import opened Paths
  import opened Store

  type Renaming = map<nat, nat>

  /** The cells held directly by a node. */
  predicate Holds(n: Node, c: Cell) {
    match n
    case Entries(m) => exists k :: k in m && m[k] == c
    case Pointer(t) => t == c
  }

  ghost predicate Edge(h: map<nat, Node>, a: nat, b: nat) {
    a in h && Holds(h[a], Ref(b))
  }

  /** Every reference leads to an allocated object. */
  ghost predicate Closed(h: map<nat, Node>) {
    forall a, b :: Edge(h, a, b) ==> b in h
  }

  ghost predicate Walk(h: map<nat, Node>, p: seq<nat>) {
    forall i :: 0 <= i < |p| - 1 ==> Edge(h, p[i], p[i + 1])
  }

  ghost predicate Reaches(h: map<nat, Node>, a: nat, b: nat) {
    exists p :: |p| > 0 && p[0] == a && p[|p| - 1] == b && Walk(h, p)
  }

  lemma ReachesStep(h: map<nat, Node>, a: nat, b: nat, d: nat)
    requires Edge(h, a, b) && Reaches(h, b, d)
    ensures Reaches(h, a, d)
  {
    var p :| |p| > 0 && p[0] == b && p[|p| - 1] == d && Walk(h, p);
    var q := [a] + p;
    assert q[|q| - 1] == d && Walk(h, q);
  }

  lemma ReachesSelf(h: map<nat, Node>, a: nat)
    ensures Reaches(h, a, a)
  {
    assert Walk(h, [a]);
  }

  predicate Knows(c: Cell, f: Renaming) { c.Ref? ==> c.addr in f }

  function Image(c: Cell, f: Renaming): Cell
    requires Knows(c, f)
  {
    if c.Ref? then Ref(f[c.addr]) else c
  }

  ghost predicate IsImage(n: Node, n': Node, f: Renaming) {
    match n
    case Entries(m) =>
      n'.Entries? && n'.m.Keys == m.Keys && forall k :: k in m ==> Knows(m[k], f) && n'.m[k] == Image(m[k], f)
    case Pointer(t) =>
      n'.Pointer? && Knows(t, f) && n'.target == Image(t, f)
  }

  ghost predicate Injective(f: Renaming) {
    forall a, b :: a in f && b in f && f[a] == f[b] ==> a == b
  }

  /** f renames part of the heap h into fresh objects of mem, and every renamed
      object not still being filled (grey) has a finished copy. */
  ghost predicate Copying(h: Mem, mem: Mem, f: Renaming, grey: set<nat>) {
    && h.Valid() && mem.Valid() && mem.next >= h.next
    && (forall a :: a in h.nodes ==> a in mem.nodes && mem.nodes[a] == h.nodes[a])
    && f.Keys <= h.nodes.Keys && Injective(f)
    && (forall a :: a in f ==> h.next <= f[a] && f[a] in mem.nodes)
    && (forall a :: a in f && a !in grey ==> IsImage(h.nodes[a], mem.nodes[f[a]], f))
  }

  lemma ImageGrows(n: Node, n': Node, f: Renaming, f': Renaming)
    requires IsImage(n, n', f)
    requires forall a :: a in f ==> a in f' && f'[a] == f[a]
    ensures IsImage(n, n', f')
  {
  }

  /** A new object starts to be copied. */
  lemma Start(h: Mem, mem: Mem, f: Renaming, grey: set<nat>, a: nat, n: Node)
    requires Copying(h, mem, f, grey) && a in h.nodes && a !in f
    ensures Copying(h, Mem(mem.nodes[mem.next := n], mem.next + 1), f[a := mem.next], grey + {a})
  {
    forall d | d in f && d !in grey + {a} ensures IsImage(h.nodes[d], mem.nodes[f[d]], f[a := mem.next]) {
      ImageGrows(h.nodes[d], mem.nodes[f[d]], f, f[a := mem.next]);
    }
  }

  /** What one recursive call may change: it visits more objects, all of them
      reachable from c, and leaves unfinished copies alone. */
  ghost predicate Advanced(h: Mem, mem: Mem, f: Renaming, mem': Mem, f': Renaming, grey: set<nat>, c: Cell) {
    && (forall a :: a in f ==> a in f' && f'[a] == f[a])
    && (forall a :: a in grey && a in f && f[a] in mem.nodes ==>
          f[a] in mem'.nodes && mem'.nodes[f[a]] == mem.nodes[f[a]])
    && (forall a :: a in f' && a !in f ==> c.Ref? && Reaches(h.nodes, c.addr, a))
  }

  lemma PointerHolds(h: Mem, a: nat, c: Cell)
    requires Closed(h.nodes) && a in h.nodes && h.nodes[a] == Pointer(c)
    ensures c.Ref? ==> c.addr in h.nodes && Edge(h.nodes, a, c.addr)
  {
    assert c.Ref? ==> Edge(h.nodes, a, c.addr);
  }

  lemma EntryHolds(h: Mem, a: nat, m: map<string, Cell>, k: string)
    requires Closed(h.nodes) && a in h.nodes && h.nodes[a] == Entries(m) && k in m
    ensures m[k].Ref? ==> m[k].addr in h.nodes && Edge(h.nodes, a, m[k].addr)
  {
    assert Holds(h.nodes[a], m[k]);
    assert m[k].Ref? ==> Edge(h.nodes, a, m[k].addr);
  }

  /** Start, seen from the call that copies a. */
  lemma Started(h: Mem, mem: Mem, f: Renaming, grey: set<nat>, a: nat, n: Node)
    requires Copying(h, mem, f, grey) && a in h.nodes && a !in f && grey <= f.Keys
    ensures Copying(h, Mem(mem.nodes[mem.next := n], mem.next + 1), f[a := mem.next], grey + {a})
    ensures Advanced(h, mem, f, Mem(mem.nodes[mem.next := n], mem.next + 1), f[a := mem.next], grey, Ref(a))
    ensures grey + {a} <= f[a := mem.next].Keys
    ensures h.nodes.Keys - f[a := mem.next].Keys < h.nodes.Keys - f.Keys
  {
    ReachesSelf(h.nodes, a);
    Start(h, mem, f, grey, a, n);
    assert a in h.nodes.Keys - f.Keys && a !in h.nodes.Keys - f[a := mem.next].Keys;
  }

  /** The unfinished copy of a is written. */
  lemma Write(h: Mem, mem: Mem, f: Renaming, grey: set<nat>, a: nat, n: Node)
    requires Copying(h, mem, f, grey) && a in f && a in grey
    ensures f[a] in mem.nodes
    ensures Copying(h, mem.(nodes := mem.nodes[f[a] := n]), f, grey)
  {
    hide IsImage;
    var mem' := mem.(nodes := mem.nodes[f[a] := n]);
    forall d | d in f && d !in grey ensures IsImage(h.nodes[d], mem'.nodes[f[d]], f) {
      assert f[d] != f[a];
    }
  }

  lemma Grown(h: Mem, mem1: Mem, f1: Renaming, mem2: Mem, f2: Renaming, grey: set<nat>, a: nat, c: Cell)
    requires Advanced(h, mem1, f1, mem2, f2, grey + {a}, c)
    requires Copying(h, mem1, f1, grey + {a}) && Copying(h, mem2, f2, grey + {a}) && a in f1
    ensures a in f2 && f2[a] == f1[a] && f1[a] in mem1.nodes && f1[a] in mem2.nodes &&
              mem2.nodes[f1[a]] == mem1.nodes[f1[a]]
    ensures forall d :: d in f1 ==> d in f2 && f2[d] == f1[d]
    ensures h.nodes.Keys - f2.Keys <= h.nodes.Keys - f1.Keys
    ensures f1.Keys <= f2.Keys && Injective(f2)
  {
    hide IsImage, Reaches;
  }

  lemma AdvancedOn(h: Mem, mem0: Mem, f0: Renaming, mem1: Mem, f1: Renaming, mem2: Mem, f2: Renaming,
                   grey: set<nat>, a: nat, c: Cell, n: Node)
    requires Advanced(h, mem0, f0, mem1, f1, grey, Ref(a))
    requires Advanced(h, mem1, f1, mem2, f2, grey + {a}, c)
    requires Injective(f2) && grey <= f0.Keys && a in f1 && a !in grey && (c.Ref? ==> Edge(h.nodes, a, c.addr))
    ensures Advanced(h, mem0, f0, mem2.(nodes := mem2.nodes[f1[a] := n]), f2, grey, Ref(a))
  {
    hide Reaches, Edge;
    forall d | d in f2 && d !in f0 ensures Reaches(h.nodes, a, d) {
      if d !in f1 {
        ReachesStep(h.nodes, a, c.addr, d);
      }
    }
    forall d | d in grey && d in f0 && f0[d] in mem0.nodes
      ensures f0[d] in mem2.nodes && f0[d] != f1[a] && mem2.nodes[f0[d]] == mem0.nodes[f0[d]]
    {
      assert f1[d] == f0[d] && f2[d] == f0[d];
    }
  }

  /** One cell of a has been copied, and the copy of a is rewritten as n. */
  lemma Stepped(h: Mem, mem0: Mem, f0: Renaming, mem1: Mem, f1: Renaming, mem2: Mem, f2: Renaming,
                grey: set<nat>, a: nat, c: Cell, n: Node)
    requires Advanced(h, mem0, f0, mem1, f1, grey, Ref(a))
    requires Advanced(h, mem1, f1, mem2, f2, grey + {a}, c)
    requires Copying(h, mem1, f1, grey + {a}) && Copying(h, mem2, f2, grey + {a})
    requires grey <= f0.Keys && a !in f0 && a in f1 && (c.Ref? ==> Edge(h.nodes, a, c.addr))
    ensures a in f2 && f2[a] == f1[a] && f1[a] in mem1.nodes && f1[a] in mem2.nodes &&
              mem2.nodes[f1[a]] == mem1.nodes[f1[a]]
    ensures Copying(h, mem2.(nodes := mem2.nodes[f1[a] := n]), f2, grey + {a})
    ensures Advanced(h, mem0, f0, mem2.(nodes := mem2.nodes[f1[a] := n]), f2, grey, Ref(a))
    ensures forall d :: d in f1 ==> d in f2 && f2[d] == f1[d]
    ensures f1.Keys <= f2.Keys && h.nodes.Keys - f2.Keys <= h.nodes.Keys - f1.Keys
  {
    hide *;
    Grown(h, mem1, f1, mem2, f2, grey, a, c);
    Write(h, mem2, f2, grey + {a}, a, n);
    AdvancedOn(h, mem0, f0, mem1, f1, mem2, f2, grey, a, c, n);
  }

  /** The copy of a map with the entries in todo still missing. */
  ghost predicate Partial(m: map<string, Cell>, todo: set<string>, n: Node, f: Renaming) {
    && n.Entries? && n.m.Keys == m.Keys - todo
    && forall k :: k in m && k !in todo ==> Knows(m[k], f) && n.m[k] == Image(m[k], f)
  }

  lemma PartialStart(m: map<string, Cell>, f: Renaming)
    ensures Partial(m, m.Keys, Entries(map[]), f)
  {
  }

  lemma PartialStep(m: map<string, Cell>, todo: set<string>, n: Node, f: Renaming, f': Renaming, k: string, x: Cell)
    requires Partial(m, todo, n, f) && k in todo && todo <= m.Keys
    requires forall d :: d in f ==> d in f' && f'[d] == f[d]
    requires Knows(m[k], f') && x == Image(m[k], f')
    ensures Partial(m, todo - {k}, Entries(n.m[k := x]), f')
  {
  }

  lemma EntriesDone(h: Mem, mem: Mem, f: Renaming, grey: set<nat>, a: nat, m: map<string, Cell>)
    requires Copying(h, mem, f, grey + {a}) && a in f && a in h.nodes && h.nodes[a] == Entries(m)
    requires f[a] in mem.nodes && Partial(m, {}, mem.nodes[f[a]], f)
    ensures Copying(h, mem, f, grey)
  {
    Finished(h, mem, f, grey, a);
  }

  lemma PointerDone(h: Mem, mem: Mem, f: Renaming, grey: set<nat>, a: nat, t: Cell)
    requires Copying(h, mem, f, grey + {a}) && a in f && a in h.nodes && h.nodes[a] == Pointer(t)
    requires Knows(t, f) && f[a] in mem.nodes && mem.nodes[f[a]] == Pointer(Image(t, f))
    ensures Copying(h, mem, f, grey)
  {
    Finished(h, mem, f, grey, a);
  }

  lemma Finished(h: Mem, mem: Mem, f: Renaming, grey: set<nat>, a: nat)
    requires Copying(h, mem, f, grey + {a}) && a in f && a in h.nodes && f[a] in mem.nodes
    requires IsImage(h.nodes[a], mem.nodes[f[a]], f)
    ensures Copying(h, mem, f, grey)
  {
  }

  class Copier {
    ghost const h: Mem
    var mem: Mem
    var visited: Renaming

    constructor (mem: Mem)
      ensures this.mem == mem && this.visited == map[] && h == mem
    {
      this.mem, this.visited, this.h := mem, map[], mem;
    }

    /** deepCopyRV. The recursion ends because each call that goes further has
        visited one more of the finitely many objects. */
    method Copy(c: Cell, ghost grey: set<nat>) returns (r: Cell)
      requires Closed(h.nodes) && Copying(h, mem, visited, grey)
      requires grey <= visited.Keys && (c.Ref? ==> c.addr in h.nodes)
      modifies this
      ensures Copying(h, mem, visited, grey)
      ensures Advanced(h, old(mem), old(visited), mem, visited, grey, c)
      ensures Knows(c, visited) && r == Image(c, visited)
      decreases h.nodes.Keys - visited.Keys, 1
    {
      if !c.Ref? {
        return c;
      }
      if c.addr in visited {
        return Ref(visited[c.addr]);
      }
      var node := mem.nodes[c.addr];
      if node.Pointer? {
        CopyPointer(c.addr, node.target, grey);
      } else {
        CopyEntries(c.addr, node.m, grey);
      }
      return Ref(visited[c.addr]);
    }

    method CopyPointer(a: nat, t: Cell, ghost grey: set<nat>)
      requires Closed(h.nodes) && Copying(h, mem, visited, grey) && grey <= visited.Keys
      requires a in h.nodes && a !in visited && h.nodes[a] == Pointer(t)
      modifies this
      ensures Copying(h, mem, visited, grey) && a in visited
      ensures Advanced(h, old(mem), old(visited), mem, visited, grey, Ref(a))
      decreases h.nodes.Keys - visited.Keys, 0
    {
      hide *;
      var mem0, f0, b := mem, visited, mem.next;
      PointerHolds(h, a, t);
      Started(h, mem0, f0, grey, a, Pointer(NilMap));
      var mem1, f1 := Mem(mem0.nodes[b := Pointer(NilMap)], b + 1), f0[a := b];
      mem, visited := mem1, f1;
      var t' := Copy(t, grey + {a});
      var mem2, f2 := mem, visited;
      Stepped(h, mem0, f0, mem1, f1, mem2, f2, grey, a, t, Pointer(t'));
      mem := mem2.(nodes := mem2.nodes[b := Pointer(t')]);
      PointerDone(h, mem, f2, grey, a, t);
    }

    method CopyEntries(a: nat, m: map<string, Cell>, ghost grey: set<nat>)
      requires Closed(h.nodes) && Copying(h, mem, visited, grey) && grey <= visited.Keys
      requires a in h.nodes && a !in visited && h.nodes[a] == Entries(m)
      modifies this
      ensures Copying(h, mem, visited, grey) && a in visited
      ensures Advanced(h, old(mem), old(visited), mem, visited, grey, Ref(a))
      decreases h.nodes.Keys - visited.Keys, 0
    {
      hide *;
      var mem0, f0, b := mem, visited, mem.next;
      Started(h, mem0, f0, grey, a, Entries(map[]));
      PartialStart(m, f0[a := b]);
      mem, visited := Mem(mem0.nodes[b := Entries(map[])], b + 1), f0[a := b];
      var todo := m.Keys;
      while todo != {}
        invariant todo <= m.Keys
        invariant Copying(h, mem, visited, grey + {a}) && a in visited && visited[a] == b
        invariant Advanced(h, mem0, f0, mem, visited, grey, Ref(a))
        invariant b in mem.nodes && mem.nodes[b].Entries? && Partial(m, todo, mem.nodes[b], visited)
        invariant grey <= visited.Keys && h.nodes.Keys - visited.Keys < h.nodes.Keys - f0.Keys
        decreases todo
      {
        var k :| k in todo;
        EntryHolds(h, a, m, k);
        var mem1, f1 := mem, visited;
        var x := Copy(m[k], grey + {a});
        var mem2, f2 := mem, visited;
        var n := Entries(mem1.nodes[b].m[k := x]);
        Stepped(h, mem0, f0, mem1, f1, mem2, f2, grey, a, m[k], n);
        PartialStep(m, todo, mem1.nodes[b], f1, f2, k, x);
        mem := mem2.(nodes := mem2.nodes[b := n]);
        todo := todo - {k};
      }
      EntriesDone(h, mem, visited, grey, a, m);
    }
  }

  /** r is a copy of c: f renames exactly the objects reachable from c, one to
      one, into objects that did not exist before. */
  ghost predicate IsCopy(h: Mem, mem: Mem, c: Cell, r: Cell, f: Renaming) {
    && Copying(h, mem, f, {})
    && Knows(c, f) && r == Image(c, f)
    && (forall a :: a in f <==> c.Ref? && Reaches(h.nodes, c.addr, a))
  }

  lemma {:induction false} WalkStaysInside(h: map<nat, Node>, f: Renaming, p: seq<nat>)
    requires |p| > 0 && Walk(h, p) && p[0] in f
    requires forall a, b :: a in f && Edge(h, a, b) ==> b in f
    ensures p[|p| - 1] in f
    decreases |p|
  {
    if |p| > 1 {
      assert Edge(h, p[0], p[1]);
      WalkStaysInside(h, f, p[1..]);
    }
  }

  lemma CopiedEdges(h: Mem, mem: Mem, f: Renaming)
    requires Copying(h, mem, f, {})
    ensures forall a, b :: a in f && Edge(h.nodes, a, b) ==> b in f
  {
    forall a, b | a in f && Edge(h.nodes, a, b) ensures b in f {
      assert IsImage(h.nodes[a], mem.nodes[f[a]], f);
    }
  }

  /** DeepCopyValue: a new graph isomorphic to the reachable one. */
  method DeepCopy(mem: Mem, c: Cell) returns (r: Cell, mem': Mem, f: Renaming)
    requires mem.Valid() && Closed(mem.nodes) && (c.Ref? ==> c.addr in mem.nodes)
    ensures IsCopy(mem, mem', c, r, f)
  {
    var copier := new Copier(mem);
    r := copier.Copy(c, {});
    mem', f := copier.mem, copier.visited;
    CopiedEdges(mem, mem', f);
    forall a | c.Ref? && Reaches(mem.nodes, c.addr, a) ensures a in f {
      var p :| |p| > 0 && p[0] == c.addr && p[|p| - 1] == a && Walk(mem.nodes, p);
      WalkStaysInside(mem.nodes, f, p);
    }
  }

  /** No object of the copy is an object of the source: everything reachable
      from the copy is an image, and images are fresh. */
  lemma CopyIsIsolated(h: Mem, mem: Mem, c: Cell, r: Cell, f: Renaming, b: nat)
    requires IsCopy(h, mem, c, r, f) && Closed(h.nodes) && (c.Ref? ==> c.addr in h.nodes)
    requires r.Ref? && Reaches(mem.nodes, r.addr, b)
    ensures b >= h.next && b !in h.nodes && exists a :: a in f && f[a] == b
  {
    var p :| |p| > 0 && p[0] == r.addr && p[|p| - 1] == b && Walk(mem.nodes, p);
    CopyWalk(h, mem, f, p);
  }

  lemma {:induction false} CopyWalk(h: Mem, mem: Mem, f: Renaming, p: seq<nat>)
    requires Copying(h, mem, f, {}) && |p| > 0 && Walk(mem.nodes, p)
    requires exists a :: a in f && f[a] == p[0]
    ensures exists a :: a in f && f[a] == p[|p| - 1]
    decreases |p|
  {
    if |p| > 1 {
      var a :| a in f && f[a] == p[0];
      assert Edge(mem.nodes, p[0], p[1]);
      assert IsImage(h.nodes[a], mem.nodes[f[a]], f);
      assert exists d :: d in f && f[d] == p[1];
      CopyWalk(h, mem, f, p[1..]);
    }
  }

  /** Reading any path in the copy gives the image of what it gives in the
      source, so equal paths meet (sharing, cycles) exactly when they did. */
  lemma {:induction false} CopyReads(h: Mem, mem: Mem, f: Renaming, a: nat, p: Path)
    requires Copying(h, mem, f, {}) && a in f && h.IsMap(a)
    ensures mem.IsMap(f[a])
    ensures match HeapGet(h, a, p)
            case None => HeapGet(mem, f[a], p).None?
            case Some(x) => Knows(x, f) && HeapGet(mem, f[a], p) == Some(Image(x, f))
    decreases |p|
  {
    assert IsImage(h.nodes[a], mem.nodes[f[a]], f);
    var m := h.nodes[a].m;
    if |p| > 1 && p[0] in m && m[p[0]].Ref? {
      var d := m[p[0]].addr;
      assert IsImage(h.nodes[d], mem.nodes[f[d]], f);
      if h.IsMap(d) {
        CopyReads(h, mem, f, d, p[1..]);
      }
    }
  }
}
