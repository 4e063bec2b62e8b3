/** Go maps live on a heap and are shared by reference. This module makes that
    heap explicit, gives the in-place Get and Set of configmap/path.go as
    methods over it, and proves that on a tree they mean GetPath and SetPath. */
module Store {
  import opened Values
  import opened Paths

  /** What a map entry or a pointer holds: a leaf value, a nil map, or the
      address of a heap object. */
  datatype Cell = Leaf(v: Value) | NilMap | Ref(addr: nat)

  datatype Node = Entries(m: map<string, Cell>) | Pointer(target: Cell)

  /** The heap: every address at or above next is free. */
  datatype Mem = Mem(nodes: map<nat, Node>, next: nat) {
    ghost predicate Valid() { forall a :: a in nodes ==> a < next }

    predicate IsMap(a: nat) { a in nodes && nodes[a].Entries? }

    function Put(a: nat, k: string, c: Cell): Mem
      requires IsMap(a)
    {
      this.(nodes := nodes[a := Entries(nodes[a].m[k := c])])
    }

    /** make(map[string]any): the new map is at address next. */
    function Alloc(): Mem { Mem(nodes[next := Entries(map[])], next + 1) }
  }

  /** Fills the empty map at a with the chain of new maps that leads to c. */
  function Fill(mem: Mem, a: nat, p: Path, c: Cell): (r: Mem)
    requires mem.IsMap(a) && mem.Valid()
    ensures r.Valid() && r.next >= mem.next
    ensures forall b :: b in mem.nodes && b != a ==> b in r.nodes && r.nodes[b] == mem.nodes[b]
    ensures r.IsMap(a)
    decreases |p|
  {
    if |p| == 1 then mem.Put(a, p[0], c)
    else Fill(mem.Put(a, p[0], Ref(mem.next)).Alloc(), mem.next, p[1..], c)
  }

  /** Set over the heap. None is a path conflict. */
  function HeapSet(mem: Mem, root: nat, p: Path, c: Cell): (r: Option<Mem>)
    requires mem.Valid() && mem.IsMap(root)
    ensures r.Some? ==> r.value.Valid() && r.value.next >= mem.next
    ensures r.Some? ==> forall b :: mem.IsMap(b) ==> r.value.IsMap(b)
    decreases |p|
  {
    var m := mem.nodes[root].m;
    if |p| == 1 then Some(mem.Put(root, p[0], c))
    else if p[0] !in m then
      Some(Fill(mem.Alloc(), mem.next, p[1..], c).Put(root, p[0], Ref(mem.next)))
    else match m[p[0]]
      case Leaf(_) => None
      case NilMap => HeapSet(mem.Put(root, p[0], Ref(mem.next)).Alloc(), mem.next, p[1..], c)
      case Ref(a) => if mem.IsMap(a) then HeapSet(mem, a, p[1..], c) else None
  }

  function HeapGet(mem: Mem, root: nat, p: Path): Option<Cell>
    requires mem.IsMap(root)
    decreases |p|
  {
    var m := mem.nodes[root].m;
    if p[0] !in m then None
    else if |p| == 1 then Some(m[p[0]])
    else match m[p[0]]
      case Ref(a) => if mem.IsMap(a) then HeapGet(mem, a, p[1..]) else None
      case _ => None
  }

  datatype SetError = InvalidPath | PathConflict

  class Heap {
    var mem: Mem

    constructor ()
      ensures mem == Mem(map[], 0)
    {
      mem := Mem(map[], 0);
    }

    /** buildBranch: a fresh chain of maps ending in c. */
    method BuildBranch(p: Path, c: Cell) returns (a: nat)
      requires mem.Valid()
      modifies this
      ensures a == old(mem).next
      ensures mem == Fill(old(mem).Alloc(), a, p, c)
    {
      a := mem.next;
      mem := mem.Alloc();
      var current, i := a, 0;
      while i < |p| - 1
        invariant 0 <= i <= |p| - 1
        invariant mem.Valid() && mem.IsMap(current)
        invariant Fill(mem, current, p[i..], c) == Fill(old(mem).Alloc(), a, p, c)
      {
        var nested := mem.next;
        assert p[i..][1..] == p[i + 1..];
        mem := mem.Put(current, p[i], Ref(nested)).Alloc();
        current, i := nested, i + 1;
      }
      mem := mem.Put(current, p[i], c);
    }

    /** Set: walks a cursor, creates missing maps, and stores c itself. */
    method Set(root: nat, path: string, c: Cell) returns (r: Result<(), SetError>)
      requires mem.Valid() && mem.IsMap(root)
      modifies this
      ensures mem.Valid() && mem.IsMap(root)
      ensures Parse(path).None? ==> r == Err(InvalidPath)
      ensures Parse(path).Some? ==>
                match HeapSet(old(mem), root, Parse(path).value, c)
                case None => r == Err(PathConflict)
                case Some(mem') => r == Ok(()) && mem == mem'
      ensures r.Err? ==> mem == old(mem)
    {
      hide Parse, Fill;
      var parsed := Parse(path);
      if parsed.None? {
        return Err(InvalidPath);
      }
      var p := parsed.value;
      var current, i := root, 0;
      ghost var made := false;
      while i < |p| - 1
        invariant 0 <= i <= |p| - 1
        invariant mem.Valid() && mem.IsMap(current) && mem.IsMap(root)
        invariant HeapSet(mem, current, p[i..], c) == HeapSet(old(mem), root, p, c)
        invariant made ==> mem.nodes[current].m == map[]
        invariant !made ==> mem == old(mem)
      {
        var m := mem.nodes[current].m;
        assert p[i..][1..] == p[i + 1..];
        if p[i] !in m {
          var branch := BuildBranch(p[i + 1..], c);
          mem := mem.Put(current, p[i], Ref(branch));
          return Ok(());
        }
        match m[p[i]] {
          case Leaf(_) =>
            return Err(PathConflict);
          case NilMap =>
            var nested := mem.next;
            mem := mem.Put(current, p[i], Ref(nested)).Alloc();
            current, made := nested, true;
          case Ref(a) =>
            if !mem.IsMap(a) {
              return Err(PathConflict);
            }
            current := a;
        }
        i := i + 1;
      }
      assert p[i..] == [p[i]];
      mem := mem.Put(current, p[i], c);
      return Ok(());
    }

    /** Get: follows the path; None when it is invalid, missing, or blocked. */
    method Get(root: nat, path: string) returns (r: Option<Cell>)
      requires mem.IsMap(root)
      ensures r == if Parse(path).None? then None else HeapGet(mem, root, Parse(path).value)
    {
      var parsed := Parse(path);
      if parsed.None? {
        return None;
      }
      var p := parsed.value;
      var current, i := Ref(root), 0;
      while i < |p|
        invariant 0 <= i <= |p|
        invariant i < |p| && current.Ref? && mem.IsMap(current.addr) ==>
                    HeapGet(mem, current.addr, p[i..]) == HeapGet(mem, root, p)
        invariant i < |p| && !(current.Ref? && mem.IsMap(current.addr)) ==> HeapGet(mem, root, p).None?
        invariant i == |p| ==> HeapGet(mem, root, p) == Some(current)
      {
        if !current.Ref? || !mem.IsMap(current.addr) {
          return None;
        }
        var m := mem.nodes[current.addr].m;
        if p[i] !in m {
          return None;
        }
        assert i + 1 < |p| ==> p[i..][1..] == p[i + 1..];
        current, i := m[p[i]], i + 1;
      }
      return Some(current);
    }
  }
}
