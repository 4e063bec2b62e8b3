/** The override stack on the heap (config_override.go). A push copies what it is
    given; the replay loop of a restore stores the frames' own payload objects in
    the live maps, without copying them, the same raw object in two of them. */
module OverrideHeap {
  import opened Values
  import opened Paths
  import opened Store
  import opened StoreTrees
  import opened SharedObjects
  import opened Snapshots

  datatype Which = Effective | Unresolved | Merged

  /** The objects of the three live maps. */
  datatype Roots = Roots(env: nat, raw: nat, merged: nat) {
    function At(w: Which): nat { match w case Effective => env case Unresolved => raw case Merged => merged }
  }

  /** What they stand for. */
  datatype Trees = Trees(env: Tree, raw: Tree, merged: Tree) {
    function At(w: Which): Tree { match w case Effective => env case Unresolved => raw case Merged => merged }

    function With(w: Which, t: Tree): Trees {
      match w case Effective => this.(env := t) case Unresolved => this.(raw := t) case Merged => this.(merged := t)
    }
  }

  function TreesOf(v: Views): Trees { Trees(v.env, v.raw, v.merged) }

  /** One key of a frame: its two values, and the cells that hold them. */
  datatype KeyCells = KeyCells(key: string, raw: Value, effective: Value, rawCell: Cell, effectiveCell: Cell) {
    function ValueAt(w: Which): Value { if w == Effective then effective else raw }

    function CellAt(w: Which): Cell { if w == Effective then effectiveCell else rawCell }
  }

  predicate AllMaps(mem: Mem, r: Roots) { mem.IsMap(r.env) && mem.IsMap(r.raw) && mem.IsMap(r.merged) }

  /** One key of the loop: each map in turn, skipping the rest at the first that
      cannot take it. */
  function HeapKey(mem: Mem, r: Roots, k: KeyCells): (mem': Mem)
    requires mem.Valid() && AllMaps(mem, r)
    ensures mem'.Valid() && AllMaps(mem', r) && mem.next <= mem'.next
  {
    match Parse(k.key)
    case None => mem
    case Some(p) =>
      match HeapSet(mem, r.env, p, k.effectiveCell)
      case None => mem
      case Some(mem1) =>
        match HeapSet(mem1, r.raw, p, k.rawCell)
        case None => mem1
        case Some(mem2) => HeapSet(mem2, r.merged, p, k.rawCell).GetOr(mem2)
  }

  function HeapKeys(mem: Mem, r: Roots, ks: seq<KeyCells>): (mem': Mem)
    requires mem.Valid() && AllMaps(mem, r)
    ensures mem'.Valid() && AllMaps(mem', r) && mem.next <= mem'.next
    decreases |ks|
  {
    if ks == [] then mem else HeapKey(HeapKeys(mem, r, ks[..|ks| - 1]), r, ks[|ks| - 1])
  }

  function ValueKeys(o: Settings, v: Views, ks: seq<KeyCells>): Views
    decreases |ks|
  {
    if ks == [] then v
    else
      var k := ks[|ks| - 1];
      ReplayKey(o, ValueKeys(o, v, ks[..|ks| - 1]), k.key, k.raw, k.effective)
  }

  predicate MapValued(k: KeyCells) { k.raw.Map? || k.effective.Map? }

  /** No key lies strictly below an earlier one that holds a map. */
  ghost predicate Apart(ks: seq<KeyCells>) {
    forall i, j :: 0 <= i < j < |ks| && MapValued(ks[i]) ==> !Below(ks[i].key, ks[j].key)
  }

  /** The cells are leaves, or objects that the table gives the key's values. */
  ghost predicate Listed(k: KeyCells, pay: Shared) {
    && Payload(k.rawCell, pay) && ValueOf(k.rawCell, pay) == k.raw
    && Payload(k.effectiveCell, pay) && ValueOf(k.effectiveCell, pay) == k.effective
  }

  /** The table of shared objects: they exist, and they stand for maps. */
  ghost predicate Table(mem: Mem, pay: Shared) { forall a :: a in pay ==> a < mem.next && pay[a].Map? }

  /** A leaf that occurs nowhere, to mark the places of shared objects. */
  ghost predicate New(mark: Value, t: Tree) { !mark.Map? && forall p: Path :: GetPath(t, p) != Some(mark) }

  ghost predicate NewTo(mark: Value, k: KeyCells) { !mark.Map? && k.raw != mark && k.effective != mark }

  /** Marks stand only at keys that hold a map. */
  ghost predicate MarksPlaced(s: Tree, ks: seq<KeyCells>, mark: Value) {
    forall q: Path :: GetPath(s, q) == Some(mark) ==>
      exists i :: 0 <= i < |ks| && MapValued(ks[i]) && Parse(ks[i].key) == Some(q)
  }

  /** One live map during the replay: the tree it stands for, the same tree with
      the shared objects marked, and no object that existed before. */
  ghost predicate Placed(mem: Mem, root: nat, t: Tree, s: Tree, ks: seq<KeyCells>, pay: Shared, mark: Value,
      before: set<nat>) {
    && root !in pay
    && Owns(mem.nodes, Ref(root), Map(t), pay)
    && Owns(mem.nodes, Ref(root), Map(s), Marked(pay, mark))
    && MarksPlaced(s, ks, mark)
    && Foot(mem.nodes, Ref(root), Map(t), pay) !! before
  }

  lemma MarksStep(s: Tree, ks: seq<KeyCells>, k: KeyCells, p: Path, c: Cell, v: Value, pay: Shared, mark: Value)
    requires MarksPlaced(s, ks, mark) && Payload(c, pay) && !mark.Map? && (c.Leaf? ==> c.v != mark)
    requires Parse(k.key) == Some(p) && (c.Ref? ==> MapValued(k))
    ensures MarksPlaced(s, ks + [k], mark)
    ensures MarksPlaced(SetPath(s, p, MarkOf(c, pay, mark)).GetOr(s), ks + [k], mark)
  {
    hide SetPath, GetPath, MapValued, Parse;
    var x := MarkOf(c, pay, mark);
    var s' := SetPath(s, p, x).GetOr(s);
    assert (ks + [k])[|ks|] == k;
    forall q: Path | GetPath(s, q) == Some(mark)
      ensures exists i :: 0 <= i < |ks + [k]| && MapValued((ks + [k])[i]) && Parse((ks + [k])[i].key) == Some(q)
    {
      var i :| 0 <= i < |ks| && MapValued(ks[i]) && Parse(ks[i].key) == Some(q);
      assert (ks + [k])[i] == ks[i];
    }
    forall q: Path | GetPath(s', q) == Some(mark)
      ensures exists i :: 0 <= i < |ks + [k]| && MapValued((ks + [k])[i]) && Parse((ks + [k])[i].key) == Some(q)
    {
      if SetPath(s, p, x).Some? {
        MarkedAfter(s, p, x, mark, q);
      }
    }
  }

  /** No shared object lies on the way of a key that is below no map-valued one. */
  lemma KeyClear(mem: Mem, root: nat, t: Tree, s: Tree, ks: seq<KeyCells>, k: KeyCells, p: Path, pay: Shared,
      mark: Value, before: set<nat>)
    requires Placed(mem, root, t, s, ks, pay, mark, before) && Apart(ks + [k]) && Parse(k.key) == Some(p)
    ensures Clear(mem, root, p, pay) && Clear(mem, root, p, Marked(pay, mark))
  {
    hide Owns, Foot, MapValued;
    forall q: Path | StrictPrefix(q, p) ensures GetPath(s, q) != Some(mark) {
      if GetPath(s, q) == Some(mark) {
        assert p[..|q|] == q;
        var i :| 0 <= i < |ks| && MapValued(ks[i]) && Parse(ks[i].key) == Some(q);
        assert (ks + [k])[i] == ks[i] && (ks + [k])[|ks|] == k;
        BelowIsStrictPrefix(ks[i].key, k.key);
      }
    }
    ClearFromMarks(mem, root, s, p, pay, mark);
  }

  /** What one write leaves: the old objects it may change, and the new tree. */
  ghost predicate Grown(mem: Mem, mem': Mem, root: nat, t: Tree, t': Tree, pay: Shared) {
    && mem'.Valid() && mem.next <= mem'.next
    && Same(mem.nodes, mem'.nodes, mem.nodes.Keys - Foot(mem.nodes, Ref(root), Map(t), pay))
    && forall a :: a in Foot(mem'.nodes, Ref(root), Map(t'), pay) ==>
         a in Foot(mem.nodes, Ref(root), Map(t), pay) || a >= mem.next
  }

  /** A write of a payload cell into one of the maps. */
  lemma WriteOne(mem: Mem, root: nat, t: Tree, s: Tree, ks: seq<KeyCells>, k: KeyCells, p: Path, c: Cell, v: Value,
      pay: Shared, mark: Value, before: set<nat>) returns (s': Tree)
    requires mem.Valid() && mem.IsMap(root) && Table(mem, pay) && (forall a :: a in before ==> a < mem.next)
    requires Placed(mem, root, t, s, ks, pay, mark, before) && Apart(ks + [k]) && Parse(k.key) == Some(p)
    requires Payload(c, pay) && ValueOf(c, pay) == v && (v.Map? ==> MapValued(k)) && v != mark && !mark.Map?
    ensures HeapSet(mem, root, p, c).Some? <==> SetPath(t, p, v).Some?
    ensures var mem', t' := HeapSet(mem, root, p, c).GetOr(mem), SetPath(t, p, v).GetOr(t);
            Grown(mem, mem', root, t, t', pay) && Placed(mem', root, t', s', ks + [k], pay, mark, before)
  {
    CellShape(mem, c, pay, mark, v);
    hide Owns, OwnsAll, Foot, FootAll, Clear, HeapSet, SetPath, MarksPlaced, Payload, MapValued, Apart;
    KeyClear(mem, root, t, s, ks, k, p, pay, mark, before);
    WriteStep(mem, root, t, p, c, pay);
    WriteStep(mem, root, s, p, c, Marked(pay, mark));
    WriteSucceeds(mem, root, t, p, c, v, pay);
    MarksStep(s, ks, k, p, c, v, pay, mark);
    s' := SetPath(s, p, MarkOf(c, pay, mark)).GetOr(s);
  }

  lemma CellShape(mem: Mem, c: Cell, pay: Shared, mark: Value, v: Value)
    requires Table(mem, pay) && Payload(c, pay) && ValueOf(c, pay) == v && v != mark
    ensures (c.Ref? ==> v.Map?) && (c.Leaf? ==> c.v != mark)
    ensures Payload(c, Marked(pay, mark)) && ValueOf(c, Marked(pay, mark)) == MarkOf(c, pay, mark)
    ensures forall a :: a in Marked(pay, mark) ==> a < mem.next
  {
  }

  lemma WriteSucceeds(mem: Mem, root: nat, t: Tree, p: Path, c: Cell, v: Value, pay: Shared)
    requires mem.Valid() && mem.IsMap(root) && root !in pay && (forall a :: a in pay ==> a < mem.next)
    requires Owns(mem.nodes, Ref(root), Map(t), pay) && Payload(c, pay) && ValueOf(c, pay) == v
    requires Clear(mem, root, p, pay)
    ensures HeapSet(mem, root, p, c).Some? <==> SetPath(t, p, v).Some?
  {
    PayloadFoot(mem.nodes, c, pay);
    hide Owns, OwnsAll, Foot, FootAll, Clear, HeapSet, SetPath;
    SetRefines(mem, root, t, p, c, v, pay);
  }

  /** The other maps are not touched. */
  lemma KeepOther(mem: Mem, mem': Mem, x: nat, xt: Tree, xt': Tree, root: nat, t: Tree, s: Tree, ks: seq<KeyCells>,
      k: KeyCells, pay: Shared, mark: Value, before: set<nat>)
    requires Placed(mem, root, t, s, ks, pay, mark, before) && Grown(mem, mem', x, xt, xt', pay) && mem.Valid()
    requires Foot(mem.nodes, Ref(root), Map(t), pay) !! Foot(mem.nodes, Ref(x), Map(xt), pay)
    ensures Placed(mem', root, t, s, ks, pay, mark, before) && Placed(mem', root, t, s, ks + [k], pay, mark, before)
    ensures Foot(mem'.nodes, Ref(root), Map(t), pay) !! Foot(mem'.nodes, Ref(x), Map(xt'), pay)
    ensures Foot(mem'.nodes, Ref(root), Map(t), pay) == Foot(mem.nodes, Ref(root), Map(t), pay)
  {
    hide Owns, OwnsAll, Foot, FootAll, MapValued, Parse, GetPath;
    SameFoot(mem.nodes, Ref(root), Map(t), Map(s), pay, Marked(pay, mark));
    FootAllocated(mem.nodes, Ref(root), Map(t), pay);
    OwnsFrame(mem.nodes, mem'.nodes, Ref(root), Map(t), pay);
    OwnsFrame(mem.nodes, mem'.nodes, Ref(root), Map(s), Marked(pay, mark));
    assert forall i :: 0 <= i < |ks| ==> (ks + [k])[i] == ks[i];
  }

  /** Where the replay stands: the three live maps, apart from each other, and
      nothing that existed before has changed. */
  ghost predicate Standing(mem0: Mem, mem: Mem, r: Roots, t: Trees, s: Trees, ks: seq<KeyCells>, pay: Shared,
      mark: Value) {
    && mem0.Valid() && mem.Valid() && mem0.next <= mem.next && Same(mem0.nodes, mem.nodes, mem0.nodes.Keys)
    && Table(mem0, pay)
    && (forall w: Which :: Placed(mem, r.At(w), t.At(w), s.At(w), ks, pay, mark, mem0.nodes.Keys))
    && forall w: Which, x: Which :: w != x ==>
         Foot(mem.nodes, Ref(r.At(w)), Map(t.At(w)), pay) !! Foot(mem.nodes, Ref(r.At(x)), Map(t.At(x)), pay)
  }

  lemma StandingMaps(mem0: Mem, mem: Mem, r: Roots, t: Trees, s: Trees, ks: seq<KeyCells>, pay: Shared, mark: Value)
    requires Standing(mem0, mem, r, t, s, ks, pay, mark)
    ensures AllMaps(mem, r) && mem.Valid()
  {
    hide Foot, MarksPlaced, Same, OwnsAll;
    assert mem.IsMap(r.At(Effective)) && mem.IsMap(r.At(Unresolved)) && mem.IsMap(r.At(Merged));
  }

  /** After a write into one map, nothing that existed before has changed. */
  lemma BeforeKept(mem0: Mem, mem: Mem, mem': Mem, root: nat, t: Tree, t': Tree, pay: Shared)
    requires mem0.Valid() && mem0.next <= mem.next && Same(mem0.nodes, mem.nodes, mem0.nodes.Keys)
    requires Grown(mem, mem', root, t, t', pay) && Foot(mem.nodes, Ref(root), Map(t), pay) !! mem0.nodes.Keys
    ensures mem0.next <= mem'.next && Same(mem0.nodes, mem'.nodes, mem0.nodes.Keys)
  {
    hide Foot;
  }

  /** A write of one key into one of the maps. */
  lemma StepAt(mem0: Mem, mem: Mem, r: Roots, t: Trees, s: Trees, ks: seq<KeyCells>, k: KeyCells, p: Path,
      pay: Shared, mark: Value, w: Which) returns (s': Trees)
    requires Standing(mem0, mem, r, t, s, ks, pay, mark) && Apart(ks + [k]) && Parse(k.key) == Some(p)
    requires mem.Valid() && mem.IsMap(r.At(w)) && Listed(k, pay) && NewTo(mark, k)
    ensures HeapSet(mem, r.At(w), p, k.CellAt(w)).Some? <==> SetPath(t.At(w), p, k.ValueAt(w)).Some?
    ensures Standing(mem0, HeapSet(mem, r.At(w), p, k.CellAt(w)).GetOr(mem), r,
                     t.With(w, SetPath(t.At(w), p, k.ValueAt(w)).GetOr(t.At(w))), s', ks + [k], pay, mark)
  {
    hide Owns, OwnsAll, Foot, FootAll, HeapSet, SetPath, MarksPlaced, Payload, ValueOf, Apart, Placed, Same, Grown;
    var root, a, before := r.At(w), t.At(w), mem0.nodes.Keys;
    var mem', a' := HeapSet(mem, root, p, k.CellAt(w)).GetOr(mem), SetPath(a, p, k.ValueAt(w)).GetOr(a);
    PlacedFoot(mem, root, a, s.At(w), ks, pay, mark, before);
    var b := WriteOne(mem, root, a, s.At(w), ks, k, p, k.CellAt(w), k.ValueAt(w), pay, mark, before);
    BeforeKept(mem0, mem, mem', root, a, a', pay);
    GrownValid(mem, mem', root, a, a', pay);
    s' := s.With(w, b);
    var t' := t.With(w, a');
    forall x: Which | x != w
      ensures Placed(mem', r.At(x), t'.At(x), s'.At(x), ks + [k], pay, mark, before)
      ensures Foot(mem'.nodes, Ref(r.At(x)), Map(t'.At(x)), pay) !! Foot(mem'.nodes, Ref(root), Map(a'), pay)
      ensures Foot(mem'.nodes, Ref(r.At(x)), Map(t'.At(x)), pay) == Foot(mem.nodes, Ref(r.At(x)), Map(t.At(x)), pay)
    {
      KeepOther(mem, mem', root, a, a', r.At(x), t.At(x), s.At(x), ks, k, pay, mark, before);
    }
  }

  lemma PlacedFoot(mem: Mem, root: nat, t: Tree, s: Tree, ks: seq<KeyCells>, pay: Shared, mark: Value,
      before: set<nat>)
    requires Placed(mem, root, t, s, ks, pay, mark, before)
    ensures Foot(mem.nodes, Ref(root), Map(t), pay) !! before
  {
  }

  lemma GrownValid(mem: Mem, mem': Mem, root: nat, t: Tree, t': Tree, pay: Shared)
    requires Grown(mem, mem', root, t, t', pay)
    ensures mem'.Valid() && mem.next <= mem'.next
  {
  }

  lemma MorePlaces(s: Tree, ks: seq<KeyCells>, k: KeyCells, mark: Value)
    requires MarksPlaced(s, ks, mark)
    ensures MarksPlaced(s, ks + [k], mark)
  {
    hide MapValued, Parse;
    assert forall i :: 0 <= i < |ks| ==> (ks + [k])[i] == ks[i];
  }

  lemma Skipped(mem0: Mem, mem: Mem, r: Roots, t: Trees, s: Trees, ks: seq<KeyCells>, k: KeyCells, pay: Shared,
      mark: Value)
    requires Standing(mem0, mem, r, t, s, ks, pay, mark)
    ensures Standing(mem0, mem, r, t, s, ks + [k], pay, mark)
  {
    hide Owns, Foot, MarksPlaced, Same;
    forall w: Which ensures Placed(mem, r.At(w), t.At(w), s.At(w), ks + [k], pay, mark, mem0.nodes.Keys) {
      MorePlaces(s.At(w), ks, k, mark);
    }
  }

  lemma AgainApart(ks: seq<KeyCells>, k: KeyCells)
    requires Apart(ks + [k])
    ensures Apart(ks + [k] + [k])
  {
    hide MapValued;
    var l, m := ks + [k], ks + [k] + [k];
    forall i, j | 0 <= i < j < |m| && MapValued(m[i]) ensures !Below(m[i].key, m[j].key) {
      assert m[i] == l[i] && (j < |l| ==> m[j] == l[j]);
      if j == |l| && i < |ks| {
        assert l[|ks|] == k;
      }
    }
  }

  lemma AgainPlaced(mem0: Mem, mem: Mem, r: Roots, t: Trees, s: Trees, ks: seq<KeyCells>, k: KeyCells, pay: Shared,
      mark: Value)
    requires Standing(mem0, mem, r, t, s, ks + [k] + [k], pay, mark)
    ensures Standing(mem0, mem, r, t, s, ks + [k], pay, mark)
  {
    hide Owns, Foot, Same, MapValued, Parse, GetPath;
    var l, m := ks + [k], ks + [k] + [k];
    assert forall i :: 0 <= i < |l| ==> m[i] == l[i];
    assert m[|l|] == l[|ks|] == k;
    forall w: Which ensures Placed(mem, r.At(w), t.At(w), s.At(w), l, pay, mark, mem0.nodes.Keys) {
      assert Placed(mem, r.At(w), t.At(w), s.At(w), m, pay, mark, mem0.nodes.Keys);
      forall q: Path | GetPath(s.At(w), q) == Some(mark)
        ensures exists i :: 0 <= i < |l| && MapValued(l[i]) && Parse(l[i].key) == Some(q)
      {
        var i :| 0 <= i < |m| && MapValued(m[i]) && Parse(m[i].key) == Some(q);
        assert l[if i < |l| then i else |ks|] == m[i];
      }
    }
  }

  /** The next write of the same key. */
  lemma NextAt(mem0: Mem, mem: Mem, r: Roots, t: Trees, s: Trees, ks: seq<KeyCells>, k: KeyCells, p: Path,
      pay: Shared, mark: Value, w: Which) returns (s': Trees)
    requires Standing(mem0, mem, r, t, s, ks + [k], pay, mark) && Apart(ks + [k]) && Parse(k.key) == Some(p)
    requires mem.Valid() && mem.IsMap(r.At(w)) && Listed(k, pay) && NewTo(mark, k)
    ensures HeapSet(mem, r.At(w), p, k.CellAt(w)).Some? <==> SetPath(t.At(w), p, k.ValueAt(w)).Some?
    ensures Standing(mem0, HeapSet(mem, r.At(w), p, k.CellAt(w)).GetOr(mem), r,
                     t.With(w, SetPath(t.At(w), p, k.ValueAt(w)).GetOr(t.At(w))), s', ks + [k], pay, mark)
  {
    hide Standing, HeapSet, SetPath, Listed, Apart;
    AgainApart(ks, k);
    s' := StepAt(mem0, mem, r, t, s, ks + [k], k, p, pay, mark, w);
    AgainPlaced(mem0, HeapSet(mem, r.At(w), p, k.CellAt(w)).GetOr(mem), r,
                t.With(w, SetPath(t.At(w), p, k.ValueAt(w)).GetOr(t.At(w))), s', ks, k, pay, mark);
  }

  /** One key on the heap is one key on the values. */
  lemma KeyStep(o: Settings, mem0: Mem, mem: Mem, r: Roots, v: Views, s: Trees, ks: seq<KeyCells>, k: KeyCells,
      pay: Shared, mark: Value) returns (s': Trees)
    requires Standing(mem0, mem, r, TreesOf(v), s, ks, pay, mark) && Apart(ks + [k]) && mem.Valid() && AllMaps(mem, r)
    requires Listed(k, pay) && NewTo(mark, k)
    ensures Standing(mem0, HeapKey(mem, r, k), r, TreesOf(ReplayKey(o, v, k.key, k.raw, k.effective)), s', ks + [k],
                     pay, mark)
  {
    hide Standing, HeapSet, SetPath, Listed, Apart, Parse, TrackValue;
    Skipped(mem0, mem, r, TreesOf(v), s, ks, k, pay, mark);
    s' := s;
    if Parse(k.key).Some? {
      var p, t := Parse(k.key).value, TreesOf(v);
      s' := StepAt(mem0, mem, r, t, s, ks, k, p, pay, mark, Effective);
      var e := HeapSet(mem, r.env, p, k.effectiveCell);
      if e.Some? {
        var t1 := t.With(Effective, SetPath(v.env, p, k.effective).value);
        StandingMaps(mem0, e.value, r, t1, s', ks + [k], pay, mark);
        s' := NextAt(mem0, e.value, r, t1, s', ks, k, p, pay, mark, Unresolved);
        var u := HeapSet(e.value, r.raw, p, k.rawCell);
        if u.Some? {
          var t2 := t1.With(Unresolved, SetPath(v.raw, p, k.raw).value);
          StandingMaps(mem0, u.value, r, t2, s', ks + [k], pay, mark);
          s' := NextAt(mem0, u.value, r, t2, s', ks, k, p, pay, mark, Merged);
        }
      } else {
        s' := s;
      }
    }
  }

  lemma ApartPrefix(ks: seq<KeyCells>, n: nat)
    requires Apart(ks) && n <= |ks|
    ensures Apart(ks[..n])
  {
  }

  lemma {:induction false} KeysStanding(o: Settings, mem0: Mem, mem: Mem, r: Roots, v: Views, ks: seq<KeyCells>,
      pay: Shared, mark: Value) returns (s: Trees)
    requires Standing(mem0, mem, r, TreesOf(v), TreesOf(v), [], pay, mark) && mem.Valid() && AllMaps(mem, r)
    requires Apart(ks) && forall k :: k in ks ==> Listed(k, pay) && NewTo(mark, k)
    ensures Standing(mem0, HeapKeys(mem, r, ks), r, TreesOf(ValueKeys(o, v, ks)), s, ks, pay, mark)
    decreases |ks|
  {
    hide Standing, HeapKey, ReplayKey, Listed, Apart, NewTo;
    s := TreesOf(v);
    if ks != [] {
      var n := |ks| - 1;
      ApartPrefix(ks, n);
      s := KeysStanding(o, mem0, mem, r, v, ks[..n], pay, mark);
      assert ks[..n] + [ks[n]] == ks && ks[n] in ks;
      s := KeyStep(o, mem0, HeapKeys(mem, r, ks[..n]), r, ValueKeys(o, v, ks[..n]), s, ks[..n], ks[n], pay, mark);
    }
  }

  /** A value larger than all that occurs. */
  ghost function BigMark(t: Trees, ks: seq<KeyCells>): Value {
    List([Map(t.env), Map(t.raw), Map(t.merged)] + seq(|ks|, i requires 0 <= i < |ks| => ks[i].raw) +
         seq(|ks|, i requires 0 <= i < |ks| => ks[i].effective))
  }

  lemma BigMarkIsNew(t: Trees, ks: seq<KeyCells>)
    ensures forall w: Which :: New(BigMark(t, ks), t.At(w))
    ensures forall k :: k in ks ==> NewTo(BigMark(t, ks), k)
  {
    var mark := BigMark(t, ks);
    forall w: Which, p: Path | GetPath(t.At(w), p).Some? ensures GetPath(t.At(w), p).value != mark {
      assert mark.items[match w case Effective => 0 case Unresolved => 1 case Merged => 2] == Map(t.At(w));
      Inside(t.At(w), p, mark);
    }
    forall i | 0 <= i < |ks| ensures NewTo(mark, ks[i]) {
      assert mark.items[3 + i] == ks[i].raw && mark.items[3 + |ks| + i] == ks[i].effective;
      assert mark.items[3 + i] < mark && mark.items[3 + |ks| + i] < mark;
    }
  }

  /** The heap has grown, and nothing on it has changed. */
  ghost predicate Extends(mem: Mem, mem': Mem) {
    mem.Valid() && mem'.Valid() && mem.next <= mem'.next && Same(mem.nodes, mem'.nodes, mem.nodes.Keys)
  }

  /** Three new trees of their own. */
  ghost predicate FreshRoots(mem: Mem, mem': Mem, r: Roots, t: Trees) {
    && Extends(mem, mem')
    && (forall w: Which ::
          && Owns(mem'.nodes, Ref(r.At(w)), Map(t.At(w)), map[])
          && Foot(mem'.nodes, Ref(r.At(w)), Map(t.At(w)), map[]) !! mem.nodes.Keys)
    && forall w: Which, x: Which :: w != x ==>
         Foot(mem'.nodes, Ref(r.At(w)), Map(t.At(w)), map[]) !! Foot(mem'.nodes, Ref(r.At(x)), Map(t.At(x)), map[])
  }

  ghost predicate ReadsRoots(mem: Mem, r: Roots, t: Trees) {
    forall w: Which :: Reads(mem.nodes, Ref(r.At(w)), Map(t.At(w)))
  }

  lemma FreshPlaced(mem: Mem, mem': Mem, root: nat, t: Tree, pay: Shared, mark: Value)
    requires Owns(mem'.nodes, Ref(root), Map(t), map[])
    requires Foot(mem'.nodes, Ref(root), Map(t), map[]) !! mem.nodes.Keys
    requires pay.Keys <= mem.nodes.Keys && New(mark, t)
    ensures Placed(mem', root, t, t, [], pay, mark, mem.nodes.Keys)
    ensures Foot(mem'.nodes, Ref(root), Map(t), pay) == Foot(mem'.nodes, Ref(root), Map(t), map[])
  {
    assert root in Foot(mem'.nodes, Ref(root), Map(t), map[]);
    hide Owns, Foot, GetPath;
    NoneShared(mem'.nodes, Ref(root), Map(t), pay);
    NoneShared(mem'.nodes, Ref(root), Map(t), Marked(pay, mark));
  }

  lemma FreshStands(mem: Mem, mem': Mem, r: Roots, t: Trees, pay: Shared, mark: Value)
    requires FreshRoots(mem, mem', r, t) && Table(mem, pay) && pay.Keys <= mem.nodes.Keys
    requires forall w: Which :: New(mark, t.At(w))
    ensures Standing(mem, mem', r, t, t, [], pay, mark)
  {
    hide Owns, Foot, Same, Placed, Table, New;
    forall w: Which
      ensures Placed(mem', r.At(w), t.At(w), t.At(w), [], pay, mark, mem.nodes.Keys)
      ensures Foot(mem'.nodes, Ref(r.At(w)), Map(t.At(w)), pay) == Foot(mem'.nodes, Ref(r.At(w)), Map(t.At(w)), map[])
    {
      FreshPlaced(mem, mem', r.At(w), t.At(w), pay, mark);
    }
  }

  /** The objects that the table lists hold what it says. */
  ghost predicate TableReads(mem: Mem, pay: Shared) {
    Table(mem, pay) && pay.Keys <= mem.nodes.Keys && forall a :: a in pay ==> Reads(mem.nodes, Ref(a), pay[a])
  }

  /** Replaying without copying on fresh copies of the base: the live maps read as
      the values replayed, and no object that existed before has changed, so the
      payloads are as they were. */
  lemma ReplayOnHeap(o: Settings, mem: Mem, mem1: Mem, r: Roots, v: Views, ks: seq<KeyCells>, pay: Shared)
    requires FreshRoots(mem, mem1, r, TreesOf(v)) && TableReads(mem, pay)
    requires Apart(ks) && forall k :: k in ks ==> Listed(k, pay)
    ensures mem1.Valid() && AllMaps(mem1, r)
    ensures Extends(mem, HeapKeys(mem1, r, ks))
    ensures ReadsRoots(HeapKeys(mem1, r, ks), r, TreesOf(ValueKeys(o, v, ks)))
  {
    var mark := BigMark(TreesOf(v), ks);
    BigMarkIsNew(TreesOf(v), ks);
    hide Owns, Foot, Same, Placed, New, NewTo, Apart, Listed, BigMark, ReplayKey, HeapKey, Reads, HeapKeys, ValueKeys;
    FreshStands(mem, mem1, r, TreesOf(v), pay, mark);
    StandingMaps(mem, mem1, r, TreesOf(v), TreesOf(v), [], pay, mark);
    var s := KeysStanding(o, mem, mem1, r, v, ks, pay, mark);
    var mem2, t := HeapKeys(mem1, r, ks), TreesOf(ValueKeys(o, v, ks));
    forall a | a in pay ensures Reads(mem2.nodes, Ref(a), pay[a]) {
      ReadsStays(mem.nodes, mem2.nodes, Ref(a), pay[a]);
    }
    forall w: Which ensures Reads(mem2.nodes, Ref(r.At(w)), Map(t.At(w))) {
      PlacedReads(mem2, r.At(w), t.At(w), s.At(w), ks, pay, mark, mem.nodes.Keys);
    }
  }

  lemma PlacedReads(mem: Mem, root: nat, t: Tree, s: Tree, ks: seq<KeyCells>, pay: Shared, mark: Value,
      before: set<nat>)
    requires Placed(mem, root, t, s, ks, pay, mark, before) && forall a :: a in pay ==> Reads(mem.nodes, Ref(a), pay[a])
    ensures Reads(mem.nodes, Ref(root), Map(t))
  {
    hide Owns, Foot, Reads;
    OwnsReads(mem.nodes, Ref(root), Map(t), pay);
  }
}
