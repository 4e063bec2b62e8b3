/** What the loop that does not copy does to the raw payload objects, which it
    stores in two of the live maps. */
module RawWear {
  import opened Values
  import opened Paths
  import opened Store
  import opened StoreTrees
  import opened SharedObjects
  import opened Snapshots
  import opened OverrideHeap
  import opened PayloadWear
  import opened SharedMaps

  /** The effective map takes the key, so the loop goes on to the other two. */
  predicate Reaches(env: Tree, k: KeyCells) {
    Parse(k.key).Some? && SetPath(env, Parse(k.key).value, k.effective).Some?
  }

  /** A later key below it that reaches the unresolved map is written into the
      object; one at or above its place takes it out. */
  function RawWornBy(w: Wear, p: Path, env: Tree, k: KeyCells): Wear {
    if !w.attached || !Reaches(env, k) then w
    else
      var r := Parse(k.key).value;
      if StrictPrefix(p, r) then w.(m := SetPath(w.m, r[|p|..], k.raw).GetOr(w.m))
      else if r <= p then w.(attached := false)
      else w
  }

  /** What becomes of the raw payload of key i, a map stored at p. */
  function RawWorn(o: Settings, v: Views, ks: seq<KeyCells>, i: nat, p: Path): Wear
    requires i < |ks| && ks[i].raw.Map?
    decreases |ks|
  {
    var n := |ks| - 1;
    var before := ValueKeys(o, v, ks[..n]);
    if i == n then Wear(Reaches(before.env, ks[n]) && SetPath(before.raw, p, ks[n].raw).Some?, ks[n].raw.entries)
    else RawWornBy(RawWorn(o, v, ks[..n], i, p), p, before.env, ks[n])
  }

  /** The keys from n on have their raw payload to themselves. */
  ghost predicate RawPending(mem: Mem, a: nat, t: Tree, b: nat, u: Tree, ks: seq<KeyCells>, n: nat) {
    && Paired(mem, a, t, b, u)
    && (forall j :: n <= j < |ks| ==>
          && Owns(mem.nodes, ks[j].rawCell, ks[j].raw, map[])
          && RawFeet(mem, ks, j) !! TreeFeet(mem, a, t) && RawFeet(mem, ks, j) !! TreeFeet(mem, b, u))
    && forall j, l :: n <= j < l < |ks| ==> RawFeet(mem, ks, j) !! RawFeet(mem, ks, l)
  }

  /** An object that neither map holds any more, or ever held. */
  ghost predicate RawLoose(mem: Mem, a: nat, t: Tree, b: nat, u: Tree, ks: seq<KeyCells>, n: nat, x: nat, m: Tree) {
    var own := TreeFeet(mem, x, m);
    && Owns(mem.nodes, Ref(x), Map(m), map[])
    && own !! TreeFeet(mem, a, t) && own !! TreeFeet(mem, b, u)
    && forall j :: n <= j < |ks| ==> own !! RawFeet(mem, ks, j)
  }

  ghost predicate RawWearing(mem: Mem, a: nat, t: Tree, b: nat, u: Tree, ks: seq<KeyCells>, n: nat, p: Path, x: nat,
      w: Wear) {
    if w.attached then Attached(mem, a, t, p, x, w.m) else RawLoose(mem, a, t, b, u, ks, n, x, w.m)
  }

  lemma RawPendingWritable(mem: Mem, a: nat, t: Tree, b: nat, u: Tree, ks: seq<KeyCells>, n: nat)
    requires RawPending(mem, a, t, b, u, ks, n) && n < |ks|
    ensures PairWritable(mem, a, t, b, u, ks[n].rawCell, ks[n].raw)
  {
    assert a in Foot(mem.nodes, Ref(a), Map(t), map[]) && b in Foot(mem.nodes, Ref(b), Map(u), map[]);
    hide Owns, Foot, OneWay;
  }

  /** The writes of key n into the two maps. */
  lemma RawPendingStep(mem: Mem, mem1: Mem, mem2: Mem, a: nat, t: Tree, t': Tree, b: nat, u: Tree, u': Tree, r: Path,
      ks: seq<KeyCells>, n: nat)
    requires RawPending(mem, a, t, b, u, ks, n) && n < |ks| && mem.IsMap(a)
    requires PairLater(mem, mem1, mem2, a, t, t', b, u, u', r, ks[n].rawCell, ks[n].raw)
    ensures RawPending(mem2, a, t', b, u', ks, n + 1)
    ensures forall j :: n < j < |ks| ==> RawFeet(mem2, ks, j) == RawFeet(mem, ks, j)
  {
    hide Owns, Foot, OneWay, HeapGet, Untouched;
    forall j | n < j < |ks|
      ensures Owns(mem2.nodes, ks[j].rawCell, ks[j].raw, map[]) && RawFeet(mem2, ks, j) == RawFeet(mem, ks, j)
      ensures RawFeet(mem, ks, j) <= mem.nodes.Keys
    {
      FootAllocated(mem.nodes, ks[j].rawCell, ks[j].raw, map[]);
      OwnsFrame(mem.nodes, mem2.nodes, ks[j].rawCell, ks[j].raw, map[]);
    }
    assert mem.Valid();
  }

  lemma LooseLater(mem: Mem, mem1: Mem, mem2: Mem, a: nat, t: Tree, t': Tree, b: nat, u: Tree, u': Tree, r: Path,
      ks: seq<KeyCells>, n: nat, x: nat, m: Tree)
    requires RawPending(mem, a, t, b, u, ks, n) && n < |ks| && mem.IsMap(a)
    requires PairLater(mem, mem1, mem2, a, t, t', b, u, u', r, ks[n].rawCell, ks[n].raw)
    requires RawLoose(mem, a, t, b, u, ks, n, x, m)
    ensures RawLoose(mem2, a, t', b, u', ks, n + 1, x, m)
  {
    RawPendingStep(mem, mem1, mem2, a, t, t', b, u, u', r, ks, n);
    PendingValid(mem, a, t, b, u, ks, n);
    FeetInNodes(mem, x, m);
    hide Owns, Foot, OneWay, HeapGet, Untouched, Paired, RawPending;
    OwnsFrame(mem.nodes, mem2.nodes, Ref(x), Map(m), map[]);
  }

  lemma PendingValid(mem: Mem, a: nat, t: Tree, b: nat, u: Tree, ks: seq<KeyCells>, n: nat)
    requires RawPending(mem, a, t, b, u, ks, n)
    ensures mem.Valid() && mem.IsMap(a) && mem.IsMap(b)
    ensures forall j :: n <= j < |ks| ==>
              RawFeet(mem, ks, j) !! TreeFeet(mem, a, t) && RawFeet(mem, ks, j) !! TreeFeet(mem, b, u)
  {
    hide Owns, Foot, OneWay, TreeFeet, RawFeet;
  }

  /** The object is taken out of the first map, and so of the second. */
  lemma TakenOutOfBoth(mem: Mem, mem1: Mem, mem2: Mem, a: nat, t: Tree, t': Tree, b: nat, u: Tree, u': Tree, r: Path,
      ks: seq<KeyCells>, n: nat, p: Path, x: nat, m: Tree)
    requires RawPending(mem, a, t, b, u, ks, n) && n < |ks| && mem.IsMap(a) && r <= p
    requires PairLater(mem, mem1, mem2, a, t, t', b, u, u', r, ks[n].rawCell, ks[n].raw)
    requires Attached(mem, a, t, p, x, m) && Owns(mem1.nodes, Ref(x), Map(m), map[])
    requires TreeFeet(mem1, x, m) == TreeFeet(mem, x, m) && TreeFeet(mem, x, m) <= TreeFeet(mem, a, t)
    requires TreeFeet(mem1, x, m) !! TreeFeet(mem1, a, t')
    ensures RawLoose(mem2, a, t', b, u', ks, n + 1, x, m)
  {
    RawPendingStep(mem, mem1, mem2, a, t, t', b, u, u', r, ks, n);
    PendingValid(mem, a, t, b, u, ks, n);
    hide Owns, Foot, OneWay, HeapGet, Paired, RawPending, RawFeet;
    OwnsFrame(mem1.nodes, mem2.nodes, Ref(x), Map(m), map[]);
    FeetAsBefore(mem1, mem2, a, t');
    forall y | y in TreeFeet(mem, x, m) ensures y !in TreeFeet(mem2, b, u') {
      var z := PlaceUnder(mem, a, t, p, x, m, y);
      PrefixOn(r, p, z);
    }
  }

  lemma PrefixOn(r: Path, p: Path, z: Path)
    requires r <= p && p <= z
    ensures r <= z
  {
  }

  /** The place of an object inside another. */
  lemma PlaceUnder(mem: Mem, a: nat, t: Tree, p: Path, x: nat, m: Tree, y: nat) returns (z: Path)
    requires Attached(mem, a, t, p, x, m) && y in TreeFeet(mem, x, m)
    ensures p <= z && HeapGet(mem, a, z) == Some(Ref(y))
  {
    PlaceFacts(mem, a, t, p, x);
    if y == x {
      z := p;
    } else {
      hide Owns, Foot;
      var w := PlaceOf(mem, x, m, y);
      z := p + w;
      GetThrough(mem, a, p, x, w);
    }
  }

  lemma AttachedKept(mem1: Mem, mem2: Mem, a: nat, t: Tree, p: Path, x: nat, m: Tree)
    requires Attached(mem1, a, t, p, x, m) && Untouched(mem1, mem2, a, t)
    ensures Attached(mem2, a, t, p, x, m)
  {
  }

  /** The writes of key n, seen from an earlier payload. */
  lemma RawWearingStep(mem: Mem, mem1: Mem, mem2: Mem, a: nat, t: Tree, b: nat, u: Tree, u': Tree, r: Path,
      ks: seq<KeyCells>, n: nat, p: Path, x: nat, w: Wear, env: Tree)
    requires RawPending(mem, a, t, b, u, ks, n) && n < |ks| && mem.IsMap(a) && mem.Valid()
    requires Reaches(env, ks[n]) && Parse(ks[n].key) == Some(r)
    requires SetPath(t, r, ks[n].raw).Some? && HeapSet(mem, a, r, ks[n].rawCell) == Some(mem1)
    requires PairLater(mem, mem1, mem2, a, t, SetPath(t, r, ks[n].raw).value, b, u, u', r, ks[n].rawCell, ks[n].raw)
    requires RawWearing(mem, a, t, b, u, ks, n, p, x, w)
    ensures RawWearing(mem2, a, SetPath(t, r, ks[n].raw).value, b, u', ks, n + 1, p, x, RawWornBy(w, p, env, ks[n]))
  {
    var c, v, t' := ks[n].rawCell, ks[n].raw, SetPath(t, r, ks[n].raw).value;
    RawPendingWritable(mem, a, t, b, u, ks, n);
    PairIs(mem, a, t, b, u, c, v);
    UntouchedLater(mem, mem1, mem2, a, t, t', b, u, u', r, c, v);
    hide Owns, Foot, OneWay, HeapGet, HeapSet, SetPath, RawPending, Attached, RawLoose, Parse, PairLater, Reaches;
    hide Writable, PairWritable, Untouched;
    if !w.attached {
      LooseLater(mem, mem1, mem2, a, t, t', b, u, u', r, ks, n, x, w.m);
    } else if StrictPrefix(p, r) {
      assert r == p + r[|p|..];
      AttachedBelow(mem, a, t, p, x, w.m, r[|p|..], c, v);
      AttachedKept(mem1, mem2, a, t', p, x, SetPath(w.m, r[|p|..], v).GetOr(w.m));
    } else if r <= p {
      AttachedAbove(mem, a, t, p, x, w.m, r, c, v);
      TakenOutOfBoth(mem, mem1, mem2, a, t, t', b, u, u', r, ks, n, p, x, w.m);
    } else {
      NotComparable(p, r);
      AttachedElsewhere(mem, a, t, p, x, w.m, r, c, v);
      AttachedKept(mem1, mem2, a, t', p, x, w.m);
    }
  }

  lemma UntouchedLater(mem: Mem, mem1: Mem, mem2: Mem, a: nat, t: Tree, t': Tree, b: nat, u: Tree, u': Tree, r: Path,
      c: Cell, v: Value)
    requires mem.IsMap(a) && PairLater(mem, mem1, mem2, a, t, t', b, u, u', r, c, v)
    ensures Untouched(mem1, mem2, a, t')
  {
    hide Owns, Foot, OneWay, HeapGet;
  }

  /** Where the unresolved map cannot take the key, nothing wears. */
  lemma RawBlocked(t: Tree, r: Path, v: Value, mem: Mem, a: nat, p: Path, x: nat, w: Wear, env: Tree, k: KeyCells)
    requires Reaches(env, k) && Parse(k.key) == Some(r) && k.raw == v && SetPath(t, r, v).None?
    requires w.attached ==> Attached(mem, a, t, p, x, w.m)
    ensures RawWornBy(w, p, env, k) == w
  {
    if w.attached {
      if StrictPrefix(p, r) {
        assert r == p + r[|p|..];
        SetInside(t, p, w.m, r[|p|..], v);
      } else if r <= p {
        SetWhereGet(t, p, Null);
        SetOver(t, p, Null, r, v);
      }
    }
  }

  /** The payload's own key. */
  lemma RawWearingStart(mem: Mem, mem1: Mem, mem2: Mem, a: nat, t: Tree, b: nat, u: Tree, u': Tree, p: Path,
      ks: seq<KeyCells>, n: nat, x: nat, m: Tree)
    requires RawPending(mem, a, t, b, u, ks, n) && n < |ks| && mem.IsMap(a) && mem.Valid()
    requires ks[n].rawCell == Ref(x) && ks[n].raw == Map(m)
    requires SetPath(t, p, Map(m)).Some? && HeapSet(mem, a, p, Ref(x)) == Some(mem1)
    requires PairLater(mem, mem1, mem2, a, t, SetPath(t, p, Map(m)).value, b, u, u', p, Ref(x), Map(m))
    ensures Attached(mem2, a, SetPath(t, p, Map(m)).value, p, x, m)
  {
    var t' := SetPath(t, p, Map(m)).value;
    RawPendingWritable(mem, a, t, b, u, ks, n);
    PairIs(mem, a, t, b, u, Ref(x), Map(m));
    UntouchedLater(mem, mem1, mem2, a, t, t', b, u, u', p, Ref(x), Map(m));
    hide Foot, OneWay, HeapGet, HeapSet, SetPath, RawPending, PairLater, Writable, PairWritable, Untouched, Owns;
    StoredCell(mem, a, t, p, x, m);
    WroteOwns(mem, mem1, a, t, t', Ref(x), Map(m));
    GetAfterSet(t, p, Map(m));
    AttachedKept(mem1, mem2, a, t', p, x, m);
  }

  lemma WroteOwns(mem: Mem, mem': Mem, root: nat, t: Tree, t': Tree, c: Cell, v: Value)
    requires Wrote(mem, mem', root, t, t', c, v, map[])
    ensures Owns(mem'.nodes, Ref(root), Map(t'), map[])
  {
  }

  /** Before its key, or where the key is blocked, a payload is loose. */
  lemma RawLooseStart(mem: Mem, a: nat, t: Tree, b: nat, u: Tree, ks: seq<KeyCells>, n: nat, x: nat, m: Tree)
    requires RawPending(mem, a, t, b, u, ks, n) && n < |ks| && ks[n].rawCell == Ref(x) && ks[n].raw == Map(m)
    ensures RawLoose(mem, a, t, b, u, ks, n + 1, x, m) && RawPending(mem, a, t, b, u, ks, n + 1)
  {
    hide Owns, Foot, Paired;
    assert RawFeet(mem, ks, n) == TreeFeet(mem, x, m);
  }

  lemma RawPendingSkip(mem: Mem, a: nat, t: Tree, b: nat, u: Tree, ks: seq<KeyCells>, n: nat, p: Path, x: nat, w: Wear)
    requires RawPending(mem, a, t, b, u, ks, n) && n < |ks|
    ensures RawPending(mem, a, t, b, u, ks, n + 1)
    ensures RawWearing(mem, a, t, b, u, ks, n, p, x, w) ==> RawWearing(mem, a, t, b, u, ks, n + 1, p, x, w)
  {
    hide Owns, Foot, Paired, HeapGet, GetPath, TreeFeet, RawFeet;
  }

  /** What stays inside a region contains the objects of its cells. */
  lemma {:induction false} FeetInRegion(mem: Mem, c: Cell, v: Value, region: set<nat>)
    requires Enclosed(mem, region) && CellIn(c, region) && Owns(mem.nodes, c, v, map[])
    ensures Foot(mem.nodes, c, v, map[]) <= region
    decreases v
  {
    if c.Ref? {
      var m, t := mem.nodes[c.addr].m, v.entries;
      forall k | k in t ensures Foot(mem.nodes, m[k], t[k], map[]) <= region {
        assert m[k].Ref? ==> PointsTo(mem.nodes[c.addr], m[k].addr);
        FeetInRegion(mem, m[k], t[k], region);
      }
    }
  }

  /** The two maps and the payloads, as long as their region is not touched. */
  lemma RawFrame(mem: Mem, mem': Mem, a: nat, t: Tree, b: nat, u: Tree, ks: seq<KeyCells>, n: nat, p: Path, x: nat,
      w: Wear, region: set<nat>)
    requires RawPending(mem, a, t, b, u, ks, n) && Enclosed(mem, region) && mem'.Valid()
    requires a in region && b in region && (forall k :: k in ks ==> CellIn(k.rawCell, region))
    requires Same(mem.nodes, mem'.nodes, region)
    ensures RawPending(mem', a, t, b, u, ks, n)
    ensures x in region && RawWearing(mem, a, t, b, u, ks, n, p, x, w) ==>
              RawWearing(mem', a, t, b, u, ks, n, p, x, w)
  {
    PairFrame(mem, mem', a, t, b, u, region);
    forall j | n <= j < |ks|
      ensures Owns(mem'.nodes, ks[j].rawCell, ks[j].raw, map[]) && RawFeet(mem', ks, j) == RawFeet(mem, ks, j)
    {
      FeetInRegion(mem, ks[j].rawCell, ks[j].raw, region);
      OwnsFrame(mem.nodes, mem'.nodes, ks[j].rawCell, ks[j].raw, map[]);
    }
    if x in region && RawWearing(mem, a, t, b, u, ks, n, p, x, w) {
      if w.attached {
        AttachedKept(mem, mem', a, t, p, x, w.m);
      } else {
        FeetInRegion(mem, Ref(x), Map(w.m), region);
        OwnsFrame(mem.nodes, mem'.nodes, Ref(x), Map(w.m), map[]);
      }
    }
    hide Owns, Foot, OneWay;
  }

  lemma PairFrame(mem: Mem, mem': Mem, a: nat, t: Tree, b: nat, u: Tree, region: set<nat>)
    requires Paired(mem, a, t, b, u) && Enclosed(mem, region) && mem'.Valid() && a in region && b in region
    requires Same(mem.nodes, mem'.nodes, region)
    ensures Paired(mem', a, t, b, u) && Untouched(mem, mem', a, t) && Untouched(mem, mem', b, u)
  {
    FeetInRegion(mem, Ref(a), Map(t), region);
    FeetInRegion(mem, Ref(b), Map(u), region);
    hide Owns, Foot, HeapGet;
    SameIsUntouched(mem, mem', a, t);
    SameIsUntouched(mem, mem', b, u);
  }

  /** The two maps in front of key n. */
  ghost predicate RawFront(mem: Mem, r: Roots, v: Views, ks: seq<KeyCells>, n: nat, m: nat, env: Tree, p: Path, x: nat,
      w: Option<Wear>, region: set<nat>)
  {
    && mem.Valid() && AllMaps(mem, r) && RawWorld(mem, r, ks, region)
    && Pending(mem, r.env, env, ks, m, region)
    && RawPending(mem, r.raw, v.raw, r.merged, v.merged, ks, n)
    && (w.Some? ==> RawWearing(mem, r.raw, v.raw, r.merged, v.merged, ks, n, p, x, w.value))
  }

  /** The write of key n into the effective map. */
  lemma RawEnvStep(mem: Mem, r: Roots, v: Views, ks: seq<KeyCells>, n: nat, p: Path, x: nat, w: Option<Wear>,
      region: set<nat>, q: Path)
    requires RawFront(mem, r, v, ks, n, n, v.env, p, x, w, region) && n < |ks| && x in region
    ensures HeapSet(mem, r.env, q, ks[n].effectiveCell).Some? <==> SetPath(v.env, q, ks[n].effective).Some?
    ensures RawFront(HeapSet(mem, r.env, q, ks[n].effectiveCell).GetOr(mem), r, v, ks, n, n + 1,
                     SetPath(v.env, q, ks[n].effective).GetOr(v.env), p, x, w, region)
  {
    var root, mem' := r.env, HeapSet(mem, r.env, q, ks[n].effectiveCell).GetOr(mem);
    PendingIs(mem, root, v.env, ks, n, region);
    RegionLow(mem, region);
    SetKeepsMaps(mem, r, q, ks[n].effectiveCell);
    PendingWritable(mem, root, v.env, ks, n, region);
    hide Owns, Foot, HeapSet, SetPath, Pending, Feet, RawPending, RawWearing, Enclosed, Writable;
    Written(mem, root, v.env, q, ks[n].effectiveCell, ks[n].effective);
    PendingStep(mem, root, v.env, ks, n, q, region);
    RegionKept(mem, mem', region, Foot(mem.nodes, Ref(root), Map(v.env), map[]));
    SameRegion(mem, mem', region, Foot(mem.nodes, Ref(root), Map(v.env), map[]));
    RawFrame(mem, mem', r.raw, v.raw, r.merged, v.merged, ks, n, p, x, w.GetOr(Wear(false, map[])), region);
  }

  lemma SameRegion(mem: Mem, mem': Mem, region: set<nat>, feet: set<nat>)
    requires Same(mem.nodes, mem'.nodes, mem.nodes.Keys - feet) && feet !! region
    ensures Same(mem.nodes, mem'.nodes, region)
  {
  }

  /** Key n is the payload's own. */
  ghost predicate OwnKey(k: KeyCells, q: Path, p: Path, x: nat) {
    q == p && k.rawCell == Ref(x) && k.raw.Map?
  }

  /** What is known of the payload after key n, which the effective map took at q. */
  ghost function NextWear(w: Option<Wear>, own: bool, p: Path, env: Tree, raw: Tree, k: KeyCells): Option<Wear> {
    if w.Some? then Some(RawWornBy(w.value, p, env, k))
    else if own && k.raw.Map? then Some(Wear(Reaches(env, k) && SetPath(raw, p, k.raw).Some?, k.raw.entries))
    else None
  }

  /** The writes of key n into the other two maps, where the first takes it. */
  lemma RawBothStep(mem: Mem, r: Roots, v: Views, ks: seq<KeyCells>, n: nat, env': Tree, p: Path, x: nat,
      w: Option<Wear>, own: bool, region: set<nat>, q: Path) returns (mem1: Mem, mem2: Mem, region': set<nat>)
    requires n < |ks| && RawFront(mem, r, v, ks, n, n + 1, env', p, x, w, region)
    requires Parse(ks[n].key) == Some(q) && Reaches(v.env, ks[n]) && SetPath(v.raw, q, ks[n].raw).Some?
    requires own ==> OwnKey(ks[n], q, p, x) && w.None?
    ensures mem.Valid() && mem.IsMap(r.raw) && HeapSet(mem, r.raw, q, ks[n].rawCell) == Some(mem1)
    ensures mem1.Valid() && mem1.IsMap(r.merged) && mem2 == HeapSet(mem1, r.merged, q, ks[n].rawCell).GetOr(mem1)
    ensures RawFront(mem2, r, v.(raw := SetPath(v.raw, q, ks[n].raw).value,
                                 merged := SetPath(v.merged, q, ks[n].raw).GetOr(v.merged)),
                     ks, n + 1, n + 1, env', p, x, NextWear(w, own, p, v.env, v.raw, ks[n]), region')
  {
    var k, a, b := ks[n], r.raw, r.merged;
    hide Owns, Foot, HeapSet, SetPath, Pending, Feet, RawPending, RawWearing, Enclosed, Attached, Parse, Reaches;
    hide PairLater;
    PendingValid(mem, a, v.raw, b, v.merged, ks, n);
    RawPendingWritable(mem, a, v.raw, b, v.merged, ks, n);
    mem1, mem2 := PairStep(mem, a, v.raw, b, v.merged, q, k.rawCell, k.raw);
    var t', u' := SetPath(v.raw, q, k.raw).value, SetPath(v.merged, q, k.raw).GetOr(v.merged);
    assert k in ks;
    var reg1 := SetInsideRegion(mem, a, q, k.rawCell, region);
    MoreRegion(mem, mem1, r, ks, region, reg1);
    region' := SetInsideRegion(mem1, b, q, k.rawCell, reg1);
    MoreRegion(mem1, mem2, r, ks, reg1, region');
    SetsKeepMaps(mem, mem1, mem2, r, q, k.rawCell);
    PendingFrame(mem, mem1, r.env, env', ks, n + 1, region, reg1);
    PendingFrame(mem1, mem2, r.env, env', ks, n + 1, reg1, region');
    RawPendingStep(mem, mem1, mem2, a, v.raw, t', b, v.merged, u', q, ks, n);
    if w.Some? {
      RawWearingStep(mem, mem1, mem2, a, v.raw, b, v.merged, u', q, ks, n, p, x, w.value, v.env);
    } else if own {
      RawWearingStart(mem, mem1, mem2, a, v.raw, b, v.merged, u', p, ks, n, x, k.raw.entries);
      WearingIs(mem2, a, t', b, u', ks, n + 1, p, x, k.raw.entries);
    }
  }

  lemma WearingIs(mem: Mem, a: nat, t: Tree, b: nat, u: Tree, ks: seq<KeyCells>, n: nat, p: Path, x: nat, m: Tree)
    requires Attached(mem, a, t, p, x, m)
    ensures RawWearing(mem, a, t, b, u, ks, n, p, x, Wear(true, m))
  {
  }

  lemma MoreRegion(mem: Mem, mem': Mem, r: Roots, ks: seq<KeyCells>, region: set<nat>, region': set<nat>)
    requires RawWorld(mem, r, ks, region) && StaysInside(mem, mem', region, region')
    ensures RawWorld(mem', r, ks, region') && mem'.Valid()
  {
    hide Enclosed;
  }

  lemma SetsKeepMaps(mem: Mem, mem1: Mem, mem2: Mem, r: Roots, q: Path, c: Cell)
    requires mem.Valid() && AllMaps(mem, r) && HeapSet(mem, r.raw, q, c) == Some(mem1)
    requires mem1.Valid() && mem1.IsMap(r.merged) && mem2 == HeapSet(mem1, r.merged, q, c).GetOr(mem1)
    ensures mem2.Valid() && AllMaps(mem2, r) && AllMaps(mem1, r)
  {
    hide HeapSet;
  }

  /** The writes of key n, where the unresolved map blocks it. */
  lemma RawBlockedStep(mem: Mem, r: Roots, v: Views, ks: seq<KeyCells>, n: nat, env': Tree, p: Path, x: nat,
      w: Option<Wear>, own: bool, region: set<nat>, q: Path)
    requires n < |ks| && RawFront(mem, r, v, ks, n, n + 1, env', p, x, w, region)
    requires Parse(ks[n].key) == Some(q) && Reaches(v.env, ks[n]) && SetPath(v.raw, q, ks[n].raw).None?
    requires own ==> OwnKey(ks[n], q, p, x) && w.None?
    ensures mem.Valid() && mem.IsMap(r.raw) && HeapSet(mem, r.raw, q, ks[n].rawCell).None?
    ensures RawFront(mem, r, v, ks, n + 1, n + 1, env', p, x, NextWear(w, own, p, v.env, v.raw, ks[n]), region)
  {
    var k, a, b := ks[n], r.raw, r.merged;
    RawPendingWritable(mem, a, v.raw, b, v.merged, ks, n);
    PairIs(mem, a, v.raw, b, v.merged, k.rawCell, k.raw);
    if w.Some? {
      RawBlocked(v.raw, q, k.raw, mem, a, p, x, w.value, v.env, k);
    }
    hide Owns, Foot, HeapSet, SetPath, Pending, Feet, RawPending, Enclosed, Attached, Parse, Reaches, RawLoose;
    hide PairWritable, Writable, RawWornBy;
    WriteFeet(mem, a, v.raw, q, k.rawCell, k.raw);
    RawPendingSkip(mem, a, v.raw, b, v.merged, ks, n, p, x, w.GetOr(Wear(false, map[])));
    if own && w.None? {
      RawLooseStart(mem, a, v.raw, b, v.merged, ks, n, x, k.raw.entries);
    }
  }

  /** A key that the effective map does not take. */
  lemma RawSkippedStep(mem: Mem, r: Roots, v: Views, ks: seq<KeyCells>, n: nat, p: Path, x: nat, w: Option<Wear>,
      own: bool, region: set<nat>)
    requires n < |ks| && RawFront(mem, r, v, ks, n, n + 1, v.env, p, x, w, region) && !Reaches(v.env, ks[n])
    requires own ==> ks[n].rawCell == Ref(x) && ks[n].raw.Map? && w.None?
    ensures RawFront(mem, r, v, ks, n + 1, n + 1, v.env, p, x, NextWear(w, own, p, v.env, v.raw, ks[n]), region)
  {
    var k, a, b := ks[n], r.raw, r.merged;
    hide Owns, Foot, SetPath, Pending, Feet, RawPending, Enclosed, Attached, Parse, Reaches, RawLoose;
    RawPendingSkip(mem, a, v.raw, b, v.merged, ks, n, p, x, w.GetOr(Wear(false, map[])));
    if own && w.None? {
      RawLooseStart(mem, a, v.raw, b, v.merged, ks, n, x, k.raw.entries);
    }
  }

  lemma FrontSame(mem: Mem, r: Roots, v: Views, v': Views, ks: seq<KeyCells>, n: nat, m: nat, env: Tree, p: Path,
      x: nat, w: Option<Wear>, region: set<nat>)
    requires RawFront(mem, r, v, ks, n, m, env, p, x, w, region) && v'.raw == v.raw && v'.merged == v.merged
    ensures RawFront(mem, r, v', ks, n, m, env, p, x, w, region)
  {
  }

  lemma FrontSkips(mem: Mem, r: Roots, v: Views, ks: seq<KeyCells>, n: nat, env: Tree, p: Path, x: nat,
      w: Option<Wear>, region: set<nat>)
    requires RawFront(mem, r, v, ks, n, n, env, p, x, w, region) && n < |ks|
    ensures RawFront(mem, r, v, ks, n, n + 1, env, p, x, w, region)
  {
    hide Owns, Foot, RawPending, RawWearing, Enclosed;
  }

  lemma FrontIs(mem: Mem, r: Roots, v: Views, ks: seq<KeyCells>, n: nat, m: nat, env: Tree, p: Path, x: nat,
      w: Option<Wear>, region: set<nat>)
    requires RawFront(mem, r, v, ks, n, m, env, p, x, w, region)
    ensures mem.Valid() && AllMaps(mem, r) && forall k :: k in ks ==> CellIn(k.rawCell, region)
  {
    hide Pending, RawPending, RawWearing, Enclosed;
  }

  /** The state after key n of the loop. */
  ghost predicate FrontAfter(o: Settings, mem: Mem, r: Roots, v: Views, ks: seq<KeyCells>, n: nat, p: Path, x: nat,
      w: Option<Wear>, own: bool, region: set<nat>)
    requires n < |ks| && mem.Valid() && AllMaps(mem, r)
  {
    var v' := ReplayKey(o, v, ks[n].key, ks[n].raw, ks[n].effective);
    RawFront(HeapKey(mem, r, ks[n]), r, v', ks, n + 1, n + 1, v'.env, p, x, NextWear(w, own, p, v.env, v.raw, ks[n]),
             region)
  }

  lemma KeyNotTaken(o: Settings, mem: Mem, r: Roots, v: Views, ks: seq<KeyCells>, n: nat, p: Path, x: nat,
      w: Option<Wear>, own: bool, region: set<nat>)
    requires n < |ks| && mem.Valid() && AllMaps(mem, r) && !Reaches(v.env, ks[n])
    requires Parse(ks[n].key).Some? ==> HeapSet(mem, r.env, Parse(ks[n].key).value, ks[n].effectiveCell).None?
    requires RawFront(mem, r, v, ks, n, n + 1, v.env, p, x, w, region)
    requires own ==> ks[n].rawCell == Ref(x) && ks[n].raw.Map? && w.None?
    ensures FrontAfter(o, mem, r, v, ks, n, p, x, w, own, region)
  {
    hide RawFront, HeapSet, SetPath, Parse, NextWear, TrackValue;
    RawSkippedStep(mem, r, v, ks, n, p, x, w, own, region);
  }

  lemma KeyBlocked(o: Settings, mem: Mem, mem': Mem, r: Roots, v: Views, ks: seq<KeyCells>, n: nat, env': Tree, p: Path,
      x: nat, w: Option<Wear>, own: bool, region: set<nat>, q: Path)
    requires n < |ks| && mem.Valid() && AllMaps(mem, r) && Reaches(v.env, ks[n]) && Parse(ks[n].key) == Some(q)
    requires HeapSet(mem, r.env, q, ks[n].effectiveCell) == Some(mem')
    requires SetPath(v.env, q, ks[n].effective) == Some(env')
    requires RawFront(mem', r, v, ks, n, n + 1, env', p, x, w, region) && SetPath(v.raw, q, ks[n].raw).None?
    requires own ==> OwnKey(ks[n], q, p, x) && w.None?
    ensures FrontAfter(o, mem, r, v, ks, n, p, x, w, own, region)
  {
    hide RawFront, HeapSet, SetPath, Parse, NextWear, TrackValue;
    RawBlockedStep(mem', r, v, ks, n, env', p, x, w, own, region, q);
    FrontSame(mem', r, v, v.(env := env'), ks, n + 1, n + 1, env', p, x, NextWear(w, own, p, v.env, v.raw, ks[n]),
              region);
  }

  lemma KeyTaken(o: Settings, mem: Mem, mem': Mem, r: Roots, v: Views, ks: seq<KeyCells>, n: nat, env': Tree, p: Path,
      x: nat, w: Option<Wear>, own: bool, region: set<nat>, q: Path) returns (region': set<nat>)
    requires n < |ks| && mem.Valid() && AllMaps(mem, r) && Reaches(v.env, ks[n]) && Parse(ks[n].key) == Some(q)
    requires HeapSet(mem, r.env, q, ks[n].effectiveCell) == Some(mem')
    requires SetPath(v.env, q, ks[n].effective) == Some(env')
    requires RawFront(mem', r, v, ks, n, n + 1, env', p, x, w, region) && SetPath(v.raw, q, ks[n].raw).Some?
    requires own ==> OwnKey(ks[n], q, p, x) && w.None?
    ensures FrontAfter(o, mem, r, v, ks, n, p, x, w, own, region')
  {
    hide RawFront, HeapSet, SetPath, Parse, NextWear, TrackValue, Reaches;
    var mem1, mem2;
    mem1, mem2, region' := RawBothStep(mem', r, v, ks, n, env', p, x, w, own, region, q);
    var u := v.(raw := SetPath(v.raw, q, ks[n].raw).value,
                merged := SetPath(v.merged, q, ks[n].raw).GetOr(v.merged));
    var v' := ReplayKey(o, v, ks[n].key, ks[n].raw, ks[n].effective);
    assert v'.raw == u.raw && v'.merged == u.merged && v'.env == env';
    FrontSame(mem2, r, u, v', ks, n + 1, n + 1, env', p, x, NextWear(w, own, p, v.env, v.raw, ks[n]), region');
  }

  /** One key of the loop. */
  lemma RawKeyStep(o: Settings, mem: Mem, r: Roots, v: Views, ks: seq<KeyCells>, n: nat, p: Path, x: nat,
      w: Option<Wear>, own: bool, region: set<nat>) returns (region': set<nat>)
    requires n < |ks| && RawFront(mem, r, v, ks, n, n, v.env, p, x, w, region) && x in region
    requires own ==> ks[n].rawCell == Ref(x) && ks[n].raw.Map? && Parse(ks[n].key) == Some(p) && w.None?
    ensures mem.Valid() && AllMaps(mem, r) && FrontAfter(o, mem, r, v, ks, n, p, x, w, own, region')
  {
    var k := ks[n];
    FrontIs(mem, r, v, ks, n, n, v.env, p, x, w, region);
    hide RawFront, HeapSet, SetPath, Parse, FrontAfter;
    region' := region;
    if Parse(k.key).None? {
      FrontSkips(mem, r, v, ks, n, v.env, p, x, w, region);
      KeyNotTaken(o, mem, r, v, ks, n, p, x, w, own, region);
    } else {
      var q := Parse(k.key).value;
      RawEnvStep(mem, r, v, ks, n, p, x, w, region, q);
      var e := HeapSet(mem, r.env, q, k.effectiveCell);
      if e.None? {
        KeyNotTaken(o, mem, r, v, ks, n, p, x, w, own, region);
      } else {
        var env' := SetPath(v.env, q, k.effective).value;
        if SetPath(v.raw, q, k.raw).None? {
          KeyBlocked(o, mem, e.value, r, v, ks, n, env', p, x, w, own, region, q);
        } else {
          region' := KeyTaken(o, mem, e.value, r, v, ks, n, env', p, x, w, own, region, q);
        }
      }
    }
  }

  /** The payload looked at: a map under key i, or none when i is too large. */
  ghost predicate Watching(r: Roots, ks: seq<KeyCells>, i: nat, p: Path, x: nat) {
    if i < |ks| then ks[i].rawCell == Ref(x) && ks[i].raw.Map? && Parse(ks[i].key) == Some(p) else x == r.raw
  }

  ghost function WearAt(o: Settings, v: Views, ks: seq<KeyCells>, n: nat, i: nat, p: Path): Option<Wear>
    requires n <= |ks| && (i < |ks| ==> ks[i].raw.Map?)
  {
    if i < n then Some(RawWorn(o, v, ks[..n], i, p)) else None
  }

  lemma WearAtNext(o: Settings, v: Views, ks: seq<KeyCells>, n: nat, i: nat, p: Path)
    requires n < |ks| && (i < |ks| ==> ks[i].raw.Map?)
    ensures var before := ValueKeys(o, v, ks[..n]);
            WearAt(o, v, ks, n + 1, i, p) ==
            NextWear(WearAt(o, v, ks, n, i, p), i == n, p, before.env, before.raw, ks[n])
  {
    hide RawWornBy, ValueKeys, Reaches, SetPath;
    assert ks[..n + 1][..n] == ks[..n];
  }

  lemma WatchedInRegion(mem: Mem, r: Roots, v: Views, ks: seq<KeyCells>, n: nat, m: nat, env: Tree, i: nat, p: Path,
      x: nat, w: Option<Wear>, region: set<nat>)
    requires RawFront(mem, r, v, ks, n, m, env, p, x, w, region) && Watching(r, ks, i, p, x)
    ensures x in region
  {
    hide Pending, RawPending, RawWearing, Enclosed;
    if i < |ks| {
      assert ks[i] in ks;
    }
  }

  lemma {:induction false} RawKeysWear(o: Settings, mem: Mem, r: Roots, v: Views, ks: seq<KeyCells>, n: nat, i: nat,
      p: Path, x: nat, region: set<nat>) returns (region': set<nat>)
    requires n <= |ks| && Watching(r, ks, i, p, x) && mem.Valid() && AllMaps(mem, r)
    requires RawFront(mem, r, v, ks, 0, 0, v.env, p, x, None, region)
    ensures var v' := ValueKeys(o, v, ks[..n]);
            RawFront(HeapKeys(mem, r, ks[..n]), r, v', ks, n, n, v'.env, p, x, WearAt(o, v, ks, n, i, p), region')
    decreases n
  {
    hide RawFront, HeapKey, Parse, ReplayKey, NextWear;
    if n == 0 {
      region' := region;
    } else {
      var before, v1 := HeapKeys(mem, r, ks[..n - 1]), ValueKeys(o, v, ks[..n - 1]);
      region' := RawKeysWear(o, mem, r, v, ks, n - 1, i, p, x, region);
      assert ks[..n][..n - 1] == ks[..n - 1];
      WatchedInRegion(before, r, v1, ks, n - 1, n - 1, v1.env, i, p, x, WearAt(o, v, ks, n - 1, i, p), region');
      region' := RawKeyStep(o, before, r, v1, ks, n - 1, p, x, WearAt(o, v, ks, n - 1, i, p), i == n - 1, region');
      WearAtNext(o, v, ks, n - 1, i, p);
    }
  }

  /** The raw payloads are apart from each other, too. */
  ghost predicate RawApart(mem: Mem, ks: seq<KeyCells>) {
    forall j, l :: 0 <= j < l < |ks| ==> RawFeet(mem, ks, j) !! RawFeet(mem, ks, l)
  }

  lemma StartRaw(mem0: Mem, mem: Mem, r: Roots, v: Views, ks: seq<KeyCells>, p: Path, x: nat)
    requires FreshRoots(mem0, mem, r, TreesOf(v)) && PrivatePayloads(mem0, ks) && RawApart(mem0, ks)
    ensures mem.Valid() && AllMaps(mem, r)
    ensures RawFront(mem, r, v, ks, 0, 0, v.env, p, x, None, RawRegion(mem, r, TreesOf(v), ks))
  {
    StartPending(mem0, mem, r, TreesOf(v), ks);
    PayloadsStay(mem0, mem, ks);
    StartPair(mem0, mem, r, v);
    assert r.At(Unresolved) == r.raw && r.At(Merged) == r.merged;
    assert TreesOf(v).At(Unresolved) == v.raw && TreesOf(v).At(Merged) == v.merged;
    hide Owns, Foot, Pending, RawWorld, Paired, RawRegion;
  }

  lemma StartPair(mem0: Mem, mem: Mem, r: Roots, v: Views)
    requires FreshRoots(mem0, mem, r, TreesOf(v))
    ensures Paired(mem, r.raw, v.raw, r.merged, v.merged)
  {
    assert r.At(Unresolved) == r.raw && r.At(Merged) == r.merged;
    assert TreesOf(v).At(Unresolved) == v.raw && TreesOf(v).At(Merged) == v.merged;
    OwnsMap(mem, r.raw, v.raw);
    OwnsMap(mem, r.merged, v.merged);
    CellInFeet(mem.nodes, Ref(r.raw), Map(v.raw));
    CellInFeet(mem.nodes, Ref(r.merged), Map(v.merged));
    hide Owns, Foot, HeapGet;
    forall q: Path, y: nat | HeapGet(mem, r.raw, q) == Some(Ref(y)) ensures y in TreeFeet(mem, r.raw, v.raw) {
      PlaceInFeet(mem, r.raw, v.raw, q, y);
    }
    forall q: Path, y: nat | HeapGet(mem, r.merged, q) == Some(Ref(y)) ensures y in TreeFeet(mem, r.merged, v.merged) {
      PlaceInFeet(mem, r.merged, v.merged, q, y);
    }
  }

  lemma FrontTrees(mem: Mem, r: Roots, v: Views, ks: seq<KeyCells>, n: nat, p: Path, x: nat, w: Option<Wear>,
      region: set<nat>)
    requires RawFront(mem, r, v, ks, n, n, v.env, p, x, w, region)
    ensures forall k: Which :: Owns(mem.nodes, Ref(r.At(k)), Map(TreesOf(v).At(k)), map[])
    ensures w.Some? ==> Owns(mem.nodes, Ref(x), Map(w.value.m), map[])
  {
    if w.Some? && w.value.attached {
      PlaceFacts(mem, r.raw, v.raw, p, x);
    }
    hide Owns, Foot, HeapGet, OneWay;
  }

  /** Private payloads, replayed on fresh copies of the base: all three live maps
      are right, whatever lies below what. */
  lemma LiveMapsRight(o: Settings, mem0: Mem, mem: Mem, r: Roots, v: Views, ks: seq<KeyCells>)
    requires FreshRoots(mem0, mem, r, TreesOf(v)) && PrivatePayloads(mem0, ks) && RawApart(mem0, ks)
    ensures mem.Valid() && AllMaps(mem, r)
    ensures forall k: Which ::
              Owns(HeapKeys(mem, r, ks).nodes, Ref(r.At(k)), Map(TreesOf(ValueKeys(o, v, ks)).At(k)), map[])
  {
    hide Owns, Foot, HeapKeys, ValueKeys, FreshRoots, PrivatePayloads, RawApart, RawFront, RawWorn;
    StartRaw(mem0, mem, r, v, ks, [""], r.raw);
    assert ks[..|ks|] == ks;
    var region := RawKeysWear(o, mem, r, v, ks, |ks|, |ks|, [""], r.raw, RawRegion(mem, r, TreesOf(v), ks));
    FrontTrees(HeapKeys(mem, r, ks), r, ValueKeys(o, v, ks), ks, |ks|, [""], r.raw, None, region);
  }

  /** And a raw payload holds what the later keys below it that reached it have
      made of it, although each of them was written twice. */
  lemma RawPayloadWornIff(o: Settings, mem0: Mem, mem: Mem, r: Roots, v: Views, ks: seq<KeyCells>, i: nat, p: Path,
      x: nat)
    requires FreshRoots(mem0, mem, r, TreesOf(v)) && PrivatePayloads(mem0, ks) && RawApart(mem0, ks)
    requires i < |ks| && ks[i].raw.Map? && Parse(ks[i].key) == Some(p) && ks[i].rawCell == Ref(x)
    ensures mem.Valid() && AllMaps(mem, r)
    ensures var after, m := HeapKeys(mem, r, ks), RawWorn(o, v, ks, i, p).m;
            && Owns(after.nodes, Ref(x), Map(m), map[])
            && (Owns(after.nodes, Ref(x), ks[i].raw, map[]) <==> Map(m) == ks[i].raw)
  {
    hide Owns, Foot, HeapKeys, ValueKeys, FreshRoots, PrivatePayloads, RawApart, RawFront, RawWorn, Parse;
    StartRaw(mem0, mem, r, v, ks, p, x);
    assert ks[..|ks|] == ks;
    var region := RawKeysWear(o, mem, r, v, ks, |ks|, i, p, x, RawRegion(mem, r, TreesOf(v), ks));
    var after, w := HeapKeys(mem, r, ks), RawWorn(o, v, ks, i, p);
    FrontTrees(after, r, ValueKeys(o, v, ks), ks, |ks|, p, x, Some(w), region);
    if Owns(after.nodes, Ref(x), ks[i].raw, map[]) {
      OwnsUnique(after.nodes, Ref(x), ks[i].raw, Map(w.m));
    }
  }

  /** Without a key below an earlier map, nothing wears. */
  lemma {:induction false} ApartIsIntactRaw(o: Settings, v: Views, ks: seq<KeyCells>, i: nat, p: Path)
    requires i < |ks| && ks[i].raw.Map? && Parse(ks[i].key) == Some(p) && Apart(ks)
    ensures RawWorn(o, v, ks, i, p).m == ks[i].raw.entries
    decreases |ks|
  {
    hide ValueKeys, SetPath;
    var n := |ks| - 1;
    if i < n {
      ApartPrefix(ks, n);
      ApartIsIntactRaw(o, v, ks[..n], i, p);
      if Parse(ks[n].key).Some? {
        NotBelow(ks[i].key, ks[n].key, p, Parse(ks[n].key).value);
      }
    }
  }
}
