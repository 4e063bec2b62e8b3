/** Recursive comparison of two configurations (diff/differ.go). */
module Diff {
  import opened Values
  import opened Paths

  datatype Kind = Added | Removed | Modified

  /** One difference; Null stands for a value that is not populated. */
  datatype ConfigDiff = ConfigDiff(key: string, kind: Kind, oldValue: Value, newValue: Value, path: string,
      nested: seq<ConfigDiff>)

  /** Leaves are compared by their JSON text. */
  type Json = Value -> string

  function DiffAt(json: Json, a: Tree, b: Tree, k: string, path: string): seq<ConfigDiff>
    requires k in a || k in b
    decreases Map(a), 0, 0
  {
    if k !in a then [ConfigDiff(k, Added, Null, b[k], path, [])]
    else if k !in b then [ConfigDiff(k, Removed, a[k], Null, path, [])]
    else if a[k].Map? && b[k].Map? then
      var nested := DiffMaps(json, a[k].entries, b[k].entries, path);
      if nested == [] then [] else [ConfigDiff(k, Modified, a[k], b[k], path, nested)]
    else if json(a[k]) != json(b[k]) then [ConfigDiff(k, Modified, a[k], b[k], path, [])]
    else []
  }

  function DiffKeys(json: Json, a: Tree, b: Tree, prefix: string, keys: seq<string>): seq<ConfigDiff>
    requires forall k :: k in keys ==> k in a || k in b
    decreases Map(a), 0, |keys|
  {
    if keys == [] then []
    else
      assert keys[0] in keys;
      DiffAt(json, a, b, keys[0], ChildPath(prefix, keys[0])) + DiffKeys(json, a, b, prefix, keys[1..])
  }

  function DiffMaps(json: Json, a: Tree, b: Tree, prefix: string): seq<ConfigDiff>
    decreases Map(a), 1, 0
  {
    DiffKeys(json, a, b, prefix, SortedKeys(a.Keys + b.Keys))
  }

  lemma KeysEnds(json: Json, a: Tree, b: Tree, prefix: string, keys: seq<string>)
    ensures keys[0..] == keys && keys[|keys|..] == []
    ensures DiffKeys(json, a, b, prefix, []) == []
  {
  }

  lemma DiffMapsUnfold(json: Json, a: Tree, b: Tree, prefix: string)
    ensures forall k :: k in SortedKeys(a.Keys + b.Keys) <==> k in a.Keys + b.Keys
    ensures DiffMaps(json, a, b, prefix) == DiffKeys(json, a, b, prefix, SortedKeys(a.Keys + b.Keys))
  {
    hide DiffKeys;
  }

  lemma KeysStep(json: Json, a: Tree, b: Tree, prefix: string, keys: seq<string>, i: nat, done: seq<ConfigDiff>)
    requires i < |keys| && forall k :: k in keys ==> k in a || k in b
    ensures (forall k :: k in keys[i..] ==> k in keys) && (forall k :: k in keys[i + 1..] ==> k in keys)
    ensures keys[i] in a || keys[i] in b
    ensures done + DiffKeys(json, a, b, prefix, keys[i..]) ==
            (done + DiffAt(json, a, b, keys[i], ChildPath(prefix, keys[i]))) + DiffKeys(json, a, b, prefix,
                keys[i + 1..])
  {
    hide DiffAt;
    assert keys[i..][0] == keys[i] && keys[i..][1..] == keys[i + 1..] && keys[i] in keys;
  }

  method Compare(json: Json, a: Tree, b: Tree, prefix: string) returns (diffs: seq<ConfigDiff>)
    ensures diffs == DiffMaps(json, a, b, prefix)
    decreases Map(a), 1
  {
    hide *;
    var keys := SortedKeys(a.Keys + b.Keys);
    DiffMapsUnfold(json, a, b, prefix);
    KeysEnds(json, a, b, prefix, keys);
    diffs := [];
    for i := 0 to |keys|
      invariant forall k :: k in keys[i..] ==> k in keys
      invariant diffs + DiffKeys(json, a, b, prefix, keys[i..]) == DiffKeys(json, a, b, prefix, keys)
    {
      KeysStep(json, a, b, prefix, keys, i, diffs);
      var here := CompareAt(json, a, b, keys[i], ChildPath(prefix, keys[i]));
      diffs := diffs + here;
    }
  }

  /** The differences at one key. */
  method CompareAt(json: Json, a: Tree, b: Tree, k: string, path: string) returns (diffs: seq<ConfigDiff>)
    requires k in a || k in b
    ensures diffs == DiffAt(json, a, b, k, path)
    decreases Map(a), 0
  {
    hide DiffMaps;
    if k !in a {
      return [ConfigDiff(k, Added, Null, b[k], path, [])];
    }
    if k !in b {
      return [ConfigDiff(k, Removed, a[k], Null, path, [])];
    }
    if a[k].Map? && b[k].Map? {
      var nested := Compare(json, a[k].entries, b[k].entries, path);
      return if |nested| > 0 then [ConfigDiff(k, Modified, a[k], b[k], path, nested)] else [];
    }
    return if json(a[k]) != json(b[k]) then [ConfigDiff(k, Modified, a[k], b[k], path, [])] else [];
  }

  /** Equal up to the JSON text of the leaves. */
  ghost predicate Same(json: Json, a: Tree, b: Tree)
    decreases Map(a)
  {
    a.Keys == b.Keys && forall k :: k in a ==>
      if a[k].Map? && b[k].Map? then Same(json, a[k].entries, b[k].entries) else json(a[k]) == json(b[k])
  }

  /** The trees agree at k, up to leaves. */
  ghost predicate Agrees(json: Json, t: Tree, b: Tree, k: string) {
    (k in t <==> k in b) &&
    (k in b ==> if t[k].Map? && b[k].Map? then Same(json, t[k].entries, b[k].entries) else json(t[k]) == json(b[k]))
  }

  lemma SameByKeys(json: Json, a: Tree, b: Tree)
    ensures Same(json, a, b) <==> forall k :: k in a.Keys + b.Keys ==> Agrees(json, a, b, k)
  {
    if forall k :: k in a.Keys + b.Keys ==> Agrees(json, a, b, k) {
      forall k ensures k in a <==> k in b {
        if k in a.Keys + b.Keys { assert Agrees(json, a, b, k); }
      }
      assert a.Keys == b.Keys;
      forall k | k in a
        ensures if a[k].Map? && b[k].Map? then Same(json, a[k].entries, b[k].entries) else json(a[k]) == json(b[k])
      {
        assert k in a.Keys + b.Keys && Agrees(json, a, b, k);
      }
    }
  }

  lemma {:induction false} DiffKeysEmpty(json: Json, a: Tree, b: Tree, prefix: string, keys: seq<string>)
    requires forall k :: k in keys ==> k in a || k in b
    ensures DiffKeys(json, a, b, prefix, keys) == [] <==> forall k :: k in keys ==>
              DiffAt(json, a, b, k, ChildPath(prefix, k)) == []
    decreases |keys|
  {
    hide DiffAt;
    if keys != [] {
      assert keys[0] in keys;
      DiffKeysEmpty(json, a, b, prefix, keys[1..]);
      assert forall k :: k in keys ==> k == keys[0] || k in keys[1..];
    }
  }

  lemma EmptyAt(json: Json, a: Tree, b: Tree, k: string, path: string)
    requires k in a || k in b
    requires k in a && k in b && a[k].Map? && b[k].Map? ==>
               (DiffMaps(json, a[k].entries, b[k].entries, path) == [] <==> Same(json, a[k].entries, b[k].entries))
    ensures DiffAt(json, a, b, k, path) == [] <==> Agrees(json, a, b, k)
  {
    hide DiffMaps, Same;
  }

  /** No difference is reported exactly when the trees are equal up to leaves. */
  lemma {:induction false} EmptyIff(json: Json, a: Tree, b: Tree, prefix: string)
    ensures DiffMaps(json, a, b, prefix) == [] <==> Same(json, a, b)
    decreases Map(a)
  {
    hide Same, Agrees, DiffKeys, DiffAt;
    DiffKeysEmpty(json, a, b, prefix, SortedKeys(a.Keys + b.Keys));
    SameByKeys(json, a, b);
    hide DiffMaps;
    forall k | k in a.Keys + b.Keys ensures DiffAt(json, a, b, k, ChildPath(prefix, k)) == [] <==>
        Agrees(json, a, b, k) {
      if k in a && k in b && a[k].Map? && b[k].Map? {
        EmptyIff(json, a[k].entries, b[k].entries, ChildPath(prefix, k));
      }
      EmptyAt(json, a, b, k, ChildPath(prefix, k));
    }
    DiffMapsUnfold(json, a, b, prefix);
  }

  /** Carries a list of differences out on a tree. */
  function ApplyOne(t: Tree, d: ConfigDiff): Tree
    decreases d, 1
  {
    if d.kind == Removed then t - {d.key}
    else if d.kind == Modified && d.nested != [] && d.oldValue.Map? then t[d.key := Map(ApplyAll(d.oldValue.entries,
        d.nested))]
    else t[d.key := d.newValue]
  }

  function ApplyAll(t: Tree, ds: seq<ConfigDiff>): Tree
    decreases ds, 0
  {
    if ds == [] then t
    else
      assert ds[0] in ds;
      ApplyAll(ApplyOne(t, ds[0]), ds[1..])
  }

  lemma {:induction false} ApplyConcat(t: Tree, ds: seq<ConfigDiff>, es: seq<ConfigDiff>)
    ensures ApplyAll(t, ds + es) == ApplyAll(ApplyAll(t, ds), es)
    decreases |ds|
  {
    hide ApplyOne;
    if ds != [] {
      assert (ds + es)[0] == ds[0] && (ds + es)[1..] == ds[1..] + es;
      ApplyConcat(ApplyOne(t, ds[0]), ds[1..], es);
    } else {
      assert ds + es == es;
    }
  }

  lemma {:induction false} SameRefl(json: Json, a: Tree)
    ensures Same(json, a, a)
    decreases Map(a)
  {
    forall k | k in a && a[k].Map? ensures Same(json, a[k].entries, a[k].entries) {
      SameRefl(json, a[k].entries);
    }
  }

  /** Carrying out the differences at one key. */
  lemma ApplyHere(json: Json, a: Tree, b: Tree, k: string, path: string, t: Tree)
    requires k in a || k in b
    requires (k in t <==> k in a) && (k in a ==> t[k] == a[k])
    ensures var ds, t' := DiffAt(json, a, b, k, path), ApplyAll(t, DiffAt(json, a, b, k, path));
            && t' - {k} == t - {k}
            && (ds == [] ==> t' == t)
            && (ds != [] ==> (k in t' <==> k in b))
            && (ds != [] && k in b ==>
                  t'[k] == if ds[0].nested != [] then Map(ApplyAll(a[k].entries, ds[0].nested)) else b[k])
            && (ds != [] && ds[0].nested != [] ==>
                  && k in a && k in b && a[k].Map? && b[k].Map?
                  && ds[0].nested == DiffMaps(json, a[k].entries, b[k].entries, path))
  {
    hide DiffMaps;
    var ds := DiffAt(json, a, b, k, path);
    if ds != [] {
      assert ds[1..] == [];
      assert ApplyAll(t, ds) == ApplyOne(t, ds[0]);
    }
  }

  lemma {:induction false} ApplyAt(json: Json, a: Tree, b: Tree, k: string, path: string, t: Tree)
    requires k in a || k in b
    requires (k in t <==> k in a) && (k in a ==> t[k] == a[k])
    ensures var t' := ApplyAll(t, DiffAt(json, a, b, k, path));
            Agrees(json, t', b, k) && t' - {k} == t - {k}
    decreases Map(a), 0, 0
  {
    var ds := DiffAt(json, a, b, k, path);
    ApplyHere(json, a, b, k, path, t);
    if k in b && b[k].Map? {
      SameRefl(json, b[k].entries);
    }
    hide ApplyAll, DiffMaps, Same, DiffAt;
    if k in a && k in b && a[k].Map? && b[k].Map? {
      EmptyIff(json, a[k].entries, b[k].entries, path);
      ApplyGives(json, a[k].entries, b[k].entries, path);
    }
    EmptyAt(json, a, b, k, path);
  }

  lemma {:induction false} ApplyKeys(json: Json, a: Tree, b: Tree, prefix: string, keys: seq<string>, t: Tree)
    requires Sorted(keys) && forall k :: k in keys ==> k in a || k in b
    requires forall k :: k in keys ==> (k in t <==> k in a) && (k in a ==> t[k] == a[k])
    ensures var t' := ApplyAll(t, DiffKeys(json, a, b, prefix, keys));
            && (forall k :: k in keys ==> Agrees(json, t', b, k))
            && (forall k :: k !in keys ==> (k in t' <==> k in t) && (k in t ==> t'[k] == t[k]))
    decreases Map(a), 0, |keys|
  {
    hide DiffAt, ApplyOne, Agrees;
    if keys != [] {
      var k := keys[0];
      var head := DiffAt(json, a, b, k, ChildPath(prefix, k));
      var t1 := ApplyAll(t, head);
      ApplyAt(json, a, b, k, ChildPath(prefix, k), t);
      forall l | l != k ensures (l in t1 <==> l in t) && (l in t ==> t1[l] == t[l]) {
        assert l in t1 - {k} <==> l in t - {k};
        if l in t { assert (t1 - {k})[l] == (t - {k})[l]; }
      }
      forall l | l in keys[1..] ensures l != k {
        LessTotal(k, k);
      }
      ApplyKeys(json, a, b, prefix, keys[1..], t1);
      ApplyConcat(t, head, DiffKeys(json, a, b, prefix, keys[1..]));
      var t' := ApplyAll(t, DiffKeys(json, a, b, prefix, keys));
      AgreesKept(json, t1, t', b, k);
    }
  }

  lemma AgreesKept(json: Json, t: Tree, t': Tree, b: Tree, k: string)
    requires Agrees(json, t, b, k) && (k in t' <==> k in t) && (k in t ==> t'[k] == t[k])
    ensures Agrees(json, t', b, k)
  {
  }

  /** Carrying the differences out on the first tree gives the second, up to leaves. */
  lemma {:induction false} ApplyGives(json: Json, a: Tree, b: Tree, prefix: string)
    ensures Same(json, ApplyAll(a, DiffMaps(json, a, b, prefix)), b)
    decreases Map(a), 1, 0
  {
    hide DiffMaps, DiffKeys, ApplyAll, Same, Agrees;
    var keys := SortedKeys(a.Keys + b.Keys);
    DiffMapsUnfold(json, a, b, prefix);
    ApplyKeys(json, a, b, prefix, keys, a);
    var t' := ApplyAll(a, DiffMaps(json, a, b, prefix));
    forall k | k in t'.Keys + b.Keys ensures k in keys {
    }
    SameByKeys(json, t', b);
  }

  lemma {:induction false} SameIsEqual(json: Json, a: Tree, b: Tree)
    requires forall x, y :: json(x) == json(y) ==> x == y
    ensures Same(json, a, b) <==> a == b
    decreases Map(a)
  {
    forall k | k in a && k in b && a[k].Map? && b[k].Map?
      ensures Same(json, a[k].entries, b[k].entries) <==> a[k] == b[k]
    {
      SameIsEqual(json, a[k].entries, b[k].entries);
    }
    if a == b {
      SameRefl(json, a);
    }
  }

  function SwapKind(k: Kind): Kind { match k case Added => Removed case Removed => Added case Modified => Modified }

  function Swap(d: ConfigDiff): ConfigDiff
    decreases d
  {
    ConfigDiff(d.key, SwapKind(d.kind), d.newValue, d.oldValue, d.path, SwapAll(d.nested))
  }

  function SwapAll(ds: seq<ConfigDiff>): (r: seq<ConfigDiff>)
    ensures |r| == |ds|
    decreases ds
  {
    seq(|ds|, i requires 0 <= i < |ds| => Swap(ds[i]))
  }

  /** Swapping the trees swaps added and removed, and old and new, at every level. */
  lemma {:induction false} Symmetric(json: Json, a: Tree, b: Tree, prefix: string)
    ensures DiffMaps(json, b, a, prefix) == SwapAll(DiffMaps(json, a, b, prefix))
    decreases Map(a), 1, 0
  {
    assert a.Keys + b.Keys == b.Keys + a.Keys;
    SymmetricKeys(json, a, b, prefix, SortedKeys(a.Keys + b.Keys));
  }

  lemma SymmetricAt(json: Json, a: Tree, b: Tree, k: string, path: string)
    requires k in a || k in b
    requires k in a && k in b && a[k].Map? && b[k].Map? ==>
               DiffMaps(json, b[k].entries, a[k].entries, path) == SwapAll(DiffMaps(json, a[k].entries, b[k].entries,
                   path))
    ensures DiffAt(json, b, a, k, path) == SwapAll(DiffAt(json, a, b, k, path))
  {
    hide DiffMaps;
    var ds, es := DiffAt(json, a, b, k, path), DiffAt(json, b, a, k, path);
    assert |es| == |ds| <= 1;
    if ds != [] {
      assert SwapAll(ds)[0] == Swap(ds[0]);
      assert ds[0].nested == [] ==> SwapAll(ds[0].nested) == [];
      assert es[0] == Swap(ds[0]);
    }
  }

  lemma {:induction false} SymmetricKeys(json: Json, a: Tree, b: Tree, prefix: string, keys: seq<string>)
    requires forall k :: k in keys ==> k in a || k in b
    ensures DiffKeys(json, b, a, prefix, keys) == SwapAll(DiffKeys(json, a, b, prefix, keys))
    decreases Map(a), 0, |keys|
  {
    if keys != [] {
      var k, path := keys[0], ChildPath(prefix, keys[0]);
      assert k in keys;
      if k in a && k in b && a[k].Map? && b[k].Map? {
        Symmetric(json, a[k].entries, b[k].entries, path);
      }
      SymmetricAt(json, a, b, k, path);
      hide DiffAt, Swap, SwapAll;
      SymmetricKeys(json, a, b, prefix, keys[1..]);
      SwapAllConcat(DiffAt(json, a, b, k, path), DiffKeys(json, a, b, prefix, keys[1..]));
    } else {
      assert SwapAll([]) == [];
    }
  }

  lemma SwapAllConcat(d: seq<ConfigDiff>, ds: seq<ConfigDiff>)
    ensures SwapAll(d + ds) == SwapAll(d) + SwapAll(ds)
  {
    hide Swap;
  }

  /** Keys ascend strictly, and each path is its key's below the prefix, at every
      level. */
  ghost predicate Tidy(ds: seq<ConfigDiff>, prefix: string)
    decreases ds, 0
  {
    && (forall i, j :: 0 <= i < j < |ds| ==> Less(ds[i].key, ds[j].key))
    && (forall i :: 0 <= i < |ds| ==> TidyEntry(ds[i], prefix))
  }

  ghost predicate TidyEntry(d: ConfigDiff, prefix: string)
    decreases d, 1
  {
    d.path == ChildPath(prefix, d.key) && Tidy(d.nested, d.path)
  }

  lemma {:induction false} DiffIsTidy(json: Json, a: Tree, b: Tree, prefix: string)
    ensures Tidy(DiffMaps(json, a, b, prefix), prefix)
    decreases Map(a), 1, 0
  {
    TidyKeys(json, a, b, prefix, SortedKeys(a.Keys + b.Keys));
  }

  lemma TidyAt(json: Json, a: Tree, b: Tree, k: string, path: string)
    requires k in a || k in b
    requires k in a && k in b && a[k].Map? && b[k].Map? ==> Tidy(DiffMaps(json, a[k].entries, b[k].entries, path), path)
    ensures var d := DiffAt(json, a, b, k, path);
            |d| <= 1 && (d != [] ==> d[0].key == k && d[0].path == path && Tidy(d[0].nested, path))
  {
    hide DiffMaps;
  }

  lemma TidyJoin(d: seq<ConfigDiff>, ds: seq<ConfigDiff>, k: string, prefix: string)
    requires |d| <= 1 && (d != [] ==> d[0].key == k && TidyEntry(d[0], prefix))
    requires Tidy(ds, prefix) && forall i :: 0 <= i < |ds| ==> Less(k, ds[i].key)
    ensures Tidy(d + ds, prefix)
  {
    hide TidyEntry, Less;
  }

  lemma {:induction false} TidyKeys(json: Json, a: Tree, b: Tree, prefix: string, keys: seq<string>)
    requires Sorted(keys) && forall k :: k in keys ==> k in a || k in b
    ensures Tidy(DiffKeys(json, a, b, prefix, keys), prefix)
    ensures forall i :: 0 <= i < |DiffKeys(json, a, b, prefix, keys)| ==>
              DiffKeys(json, a, b, prefix, keys)[i].key in keys
    decreases Map(a), 0, |keys|
  {
    if keys != [] {
      hide DiffAt, DiffMaps, ChildPath, Less;
      var k, path := keys[0], ChildPath(prefix, keys[0]);
      assert k in keys;
      if k in a && k in b && a[k].Map? && b[k].Map? {
        DiffIsTidy(json, a[k].entries, b[k].entries, path);
      }
      TidyAt(json, a, b, k, path);
      TidyKeys(json, a, b, prefix, keys[1..]);
      var d, ds := DiffAt(json, a, b, k, path), DiffKeys(json, a, b, prefix, keys[1..]);
      hide Tidy, Sorted;
      LaterKeys(keys, ds);
      TidyJoin(d, ds, k, prefix);
    }
  }

  lemma LaterKeys(keys: seq<string>, ds: seq<ConfigDiff>)
    requires Sorted(keys) && keys != [] && forall i :: 0 <= i < |ds| ==> ds[i].key in keys[1..]
    ensures forall i :: 0 <= i < |ds| ==> Less(keys[0], ds[i].key) && ds[i].key in keys
  {
    hide Less;
    forall i | 0 <= i < |ds| ensures Less(keys[0], ds[i].key) && ds[i].key in keys {
      assert ds[i].key in keys[1..];
      var j :| 1 <= j < |keys| && keys[j] == ds[i].key;
    }
  }

  datatype Counts = Counts(total: nat, added: nat, removed: nat, modified: nat) {
    function Plus(c: Counts): Counts {
      Counts(total + c.total, added + c.added, removed + c.removed, modified + c.modified)
    }
  }

  function One(k: Kind): Counts {
    Counts(1, if k == Added then 1 else 0, if k == Removed then 1 else 0, if k == Modified then 1 else 0)
  }

  function Count(ds: seq<ConfigDiff>): Counts
    decreases ds
  {
    if ds == [] then Counts(0, 0, 0, 0)
    else
      assert ds[0] in ds;
      One(ds[0].kind).Plus(Count(ds[0].nested)).Plus(Count(ds[1..]))
  }

  lemma CountParts(ds: seq<ConfigDiff>)
    ensures ds == [] ==> Count(ds) == Counts(0, 0, 0, 0)
    ensures ds != [] ==> Count(ds) == One(ds[0].kind).Plus(Count(ds[0].nested)).Plus(Count(ds[1..]))
  {
    hide One;
  }

  /** Summary's counters, updated in place through the recursion. */
  class Summary {
    var counts: Counts

    constructor ()
      ensures counts == Counts(0, 0, 0, 0)
    {
      counts := Counts(0, 0, 0, 0);
    }

    method CountDiffs(ds: seq<ConfigDiff>)
      modifies this
      ensures counts == old(counts).Plus(Count(ds))
      decreases ds
    {
      hide Count, One;
      for i := 0 to |ds|
        invariant counts.Plus(Count(ds[i..])) == old(counts).Plus(Count(ds))
      {
        assert ds[i..][0] == ds[i] && ds[i..][1..] == ds[i + 1..];
        CountParts(ds[i..]);
        CountParts(ds[i].nested);
        ghost var before := counts;
        counts := counts.Plus(One(ds[i].kind));
        if |ds[i].nested| > 0 {
          CountDiffs(ds[i].nested);
        }
        Regroup(before, One(ds[i].kind), Count(ds[i].nested), Count(ds[i + 1..]));
      }
      CountParts(ds[|ds|..]);
    }
  }

  lemma Regroup(a: Counts, b: Counts, c: Counts, d: Counts)
    ensures a.Plus(b).Plus(c).Plus(d) == a.Plus(b.Plus(c).Plus(d))
    ensures a.Plus(Counts(0, 0, 0, 0)) == a
  {
  }

  /** The total is the sum of the three kinds. */
  lemma {:induction false} TotalIsSum(ds: seq<ConfigDiff>)
    ensures Count(ds).total == Count(ds).added + Count(ds).removed + Count(ds).modified
    decreases ds
  {
    CountParts(ds);
    hide Count;
    if ds != [] {
      assert ds[0] in ds;
      TotalIsSum(ds[0].nested);
      TotalIsSum(ds[1..]);
    }
  }

  function Exchanged(c: Counts): Counts { Counts(c.total, c.removed, c.added, c.modified) }

  lemma SwapParts(ds: seq<ConfigDiff>)
    requires ds != []
    ensures var es := SwapAll(ds);
            One(es[0].kind) == Exchanged(One(ds[0].kind)) && es[0].nested == SwapAll(ds[0].nested) &&
                es[1..] == SwapAll(ds[1..])
  {
    assert SwapAll(ds)[0] == Swap(ds[0]);
  }

  /** Swapping exchanges the counts of added and removed entries. */
  lemma {:induction false} CountSwapped(ds: seq<ConfigDiff>)
    ensures Count(SwapAll(ds)) == Exchanged(Count(ds))
    decreases ds
  {
    hide Count, SwapAll, One;
    CountParts(ds);
    CountParts(SwapAll(ds));
    if ds != [] {
      assert ds[0] in ds;
      CountSwapped(ds[0].nested);
      CountSwapped(ds[1..]);
      SwapParts(ds);
    }
  }

  /** At, below or above a sensitive path. */
  predicate Matches(path: string, paths: seq<string>) {
    exists i :: 0 <= i < |paths| && (path == paths[i] || Below(paths[i], path) || Below(path, paths[i]))
  }

  /** In terms of segments: one path is a prefix of the other. */
  lemma MatchesIff(path: string, paths: seq<string>)
    ensures Matches(path, paths) <==> exists i :: 0 <= i < |paths| && Comparable(Split(path), Split(paths[i]))
  {
    forall i | 0 <= i < |paths|
      ensures path == paths[i] || Below(paths[i], path) || Below(path, paths[i]) <==>
              Comparable(Split(path), Split(paths[i]))
    {
      AtOrBelow(path, paths[i]);
      AtOrBelow(paths[i], path);
    }
  }

  function Hide(v: Value, hit: bool, replacement: Value): Value { if hit && v != Null then replacement else v }

  function RedactOne(d: ConfigDiff, paths: seq<string>, replacement: Value): ConfigDiff
    decreases d
  {
    var hit := Matches(d.path, paths);
    ConfigDiff(d.key, d.kind, Hide(d.oldValue, hit, replacement), Hide(d.newValue, hit, replacement), d.path,
               RedactAll(d.nested, paths, replacement))
  }

  function RedactAll(ds: seq<ConfigDiff>, paths: seq<string>, replacement: Value): (r: seq<ConfigDiff>)
    ensures |r| == |ds|
    decreases ds
  {
    seq(|ds|, i requires 0 <= i < |ds| => RedactOne(ds[i], paths, replacement))
  }

  method MatchesSensitive(path: string, paths: seq<string>) returns (r: bool)
    ensures r == Matches(path, paths)
  {
    for i := 0 to |paths|
      invariant forall j :: 0 <= j < i ==> path != paths[j] && !Below(paths[j], path) && !Below(path, paths[j])
    {
      if path == paths[i] || Below(paths[i], path) || Below(path, paths[i]) {
        return true;
      }
    }
    return false;
  }

  method Redact(ds: seq<ConfigDiff>, paths: seq<string>, replacement: Value) returns (r: seq<ConfigDiff>)
    ensures r == RedactAll(ds, paths, replacement)
    decreases ds
  {
    r := [];
    for i := 0 to |ds|
      invariant |r| == i && forall j :: 0 <= j < i ==> r[j] == RedactOne(ds[j], paths, replacement)
    {
      var item := ds[i];
      var hit := MatchesSensitive(item.path, paths);
      if hit {
        if item.oldValue != Null {
          item := item.(oldValue := replacement);
        }
        if item.newValue != Null {
          item := item.(newValue := replacement);
        }
      }
      var nested := Redact(ds[i].nested, paths, replacement);
      r := r + [item.(nested := nested)];
    }
  }

  /** The entry reached by a list of positions, level by level. */
  function EntryAt(ds: seq<ConfigDiff>, at: seq<nat>): Option<ConfigDiff>
    requires at != []
    decreases |at|
  {
    if at[0] >= |ds| then None
    else if |at| == 1 then Some(ds[at[0]])
    else EntryAt(ds[at[0]].nested, at[1..])
  }

  /** Redaction keeps the shape: the same entries at every level, with key, kind
      and path; and it replaces exactly the populated values of the entries at,
      above or below a sensitive path. */
  lemma {:induction false} RedactedEntry(ds: seq<ConfigDiff>, paths: seq<string>, replacement: Value, at: seq<nat>)
    requires at != []
    ensures EntryAt(RedactAll(ds, paths, replacement), at).Some? <==> EntryAt(ds, at).Some?
    ensures EntryAt(ds, at).Some? ==>
              var d, r := EntryAt(ds, at).value, EntryAt(RedactAll(ds, paths, replacement), at).value;
              && r.key == d.key && r.kind == d.kind && r.path == d.path && |r.nested| == |d.nested|
              && r.oldValue == (if Matches(d.path, paths) && d.oldValue != Null then replacement else d.oldValue)
              && r.newValue == (if Matches(d.path, paths) && d.newValue != Null then replacement else d.newValue)
    decreases |at|
  {
    if at[0] < |ds| && |at| > 1 {
      RedactedEntry(ds[at[0]].nested, paths, replacement, at[1..]);
    }
  }

  /** The entry at that position has that kind. */
  ghost predicate KindAt(ds: seq<ConfigDiff>, at: seq<nat>, kind: Kind) {
    at != [] && EntryAt(ds, at).Some? && EntryAt(ds, at).value.kind == kind
  }

  /** All positions of entries of that kind, at every level, each once. */
  ghost predicate Lists(ds: seq<ConfigDiff>, kind: Kind, ats: seq<seq<nat>>) {
    && (forall i, j :: 0 <= i < j < |ats| ==> ats[i] != ats[j])
    && forall at: seq<nat> :: at in ats <==> KindAt(ds, at, kind)
  }

  function Tallied(c: Counts, kind: Kind): nat {
    match kind case Added => c.added case Removed => c.removed case Modified => c.modified
  }

  lemma KindStep(ds: seq<ConfigDiff>, at: seq<nat>, kind: Kind)
    requires ds != [] && at != []
    ensures KindAt(ds, at, kind) <==>
            if at == [0] then ds[0].kind == kind
            else if at[0] == 0 then KindAt(ds[0].nested, at[1..], kind)
            else KindAt(ds[1..], [at[0] - 1] + at[1..], kind)
  {
    if at[0] > 0 {
      assert ([at[0] - 1] + at[1..])[1..] == at[1..];
    }
  }

  predicate NonEmpty(ats: seq<seq<nat>>) { forall i :: 0 <= i < |ats| ==> ats[i] != [] }

  function Under(ats: seq<seq<nat>>): seq<seq<nat>> { seq(|ats|, i requires 0 <= i < |ats| => [0] + ats[i]) }

  function Moved(ats: seq<seq<nat>>): seq<seq<nat>>
    requires NonEmpty(ats)
  {
    seq(|ats|, i requires 0 <= i < |ats| => [ats[i][0] + 1] + ats[i][1..])
  }

  lemma UnderHas(ats: seq<seq<nat>>, at: seq<nat>)
    requires NonEmpty(ats)
    ensures at in Under(ats) <==> |at| > 1 && at[0] == 0 && at[1..] in ats
  {
    if |at| > 1 && at[0] == 0 && at[1..] in ats {
      var i :| 0 <= i < |ats| && ats[i] == at[1..];
      assert Under(ats)[i] == at;
    }
    if at in Under(ats) {
      var i :| 0 <= i < |ats| && Under(ats)[i] == at;
      assert at[1..] == ats[i];
    }
  }

  lemma MovedHas(ats: seq<seq<nat>>, at: seq<nat>)
    requires NonEmpty(ats)
    ensures at in Moved(ats) <==> at != [] && at[0] > 0 && [at[0] - 1] + at[1..] in ats
  {
    if at != [] && at[0] > 0 && [at[0] - 1] + at[1..] in ats {
      var i :| 0 <= i < |ats| && ats[i] == [at[0] - 1] + at[1..];
      assert ats[i][1..] == at[1..] && Moved(ats)[i] == at;
    }
    if at in Moved(ats) {
      var i :| 0 <= i < |ats| && Moved(ats)[i] == at;
      assert at[1..] == ats[i][1..];
      assert [at[0] - 1] + at[1..] == ats[i];
    }
  }

  lemma OnceEach(ats: seq<seq<nat>>)
    requires NonEmpty(ats) && forall i, j :: 0 <= i < j < |ats| ==> ats[i] != ats[j]
    ensures forall i, j :: 0 <= i < j < |ats| ==> Under(ats)[i] != Under(ats)[j] && Moved(ats)[i] != Moved(ats)[j]
  {
    forall i, j | 0 <= i < j < |ats| ensures Under(ats)[i] != Under(ats)[j] && Moved(ats)[i] != Moved(ats)[j] {
      assert Under(ats)[i][1..] == ats[i] && Under(ats)[j][1..] == ats[j];
      assert ats[i] == [ats[i][0]] + ats[i][1..] && ats[j] == [ats[j][0]] + ats[j][1..];
      assert Moved(ats)[i][1..] == ats[i][1..] && Moved(ats)[j][1..] == ats[j][1..];
    }
  }

  /** The positions of a list of entries, from those of its first one and the rest. */
  function Joined(first: bool, below: seq<seq<nat>>, later: seq<seq<nat>>): seq<seq<nat>>
    requires NonEmpty(later)
  {
    (if first then [[0]] else []) + Under(below) + Moved(later)
  }

  lemma JoinedOnce(first: bool, below: seq<seq<nat>>, later: seq<seq<nat>>)
    requires NonEmpty(below) && NonEmpty(later)
    requires forall i, j :: 0 <= i < j < |below| ==> below[i] != below[j]
    requires forall i, j :: 0 <= i < j < |later| ==> later[i] != later[j]
    ensures var all := Joined(first, below, later);
            && |all| == (if first then 1 else 0) + |below| + |later|
            && forall i, j :: 0 <= i < j < |all| ==> all[i] != all[j]
  {
    OnceEach(below);
    OnceEach(later);
    var a: seq<seq<nat>>, b, c := if first then [[0]] else [], Under(below), Moved(later);
    assert forall i :: 0 <= i < |b| ==> |b[i]| > 1 && b[i][0] == 0;
    assert forall i :: 0 <= i < |c| ==> c[i] != [] && c[i][0] > 0;
    hide Under, Moved;
    JoinOnce(a, b, c);
  }

  lemma JoinOnce(a: seq<seq<nat>>, b: seq<seq<nat>>, c: seq<seq<nat>>)
    requires |a| <= 1 && (a != [] ==> a[0] == [0])
    requires forall i :: 0 <= i < |b| ==> |b[i]| > 1 && b[i][0] == 0
    requires forall i :: 0 <= i < |c| ==> c[i] != [] && c[i][0] > 0
    requires forall i, j :: 0 <= i < j < |b| ==> b[i] != b[j]
    requires forall i, j :: 0 <= i < j < |c| ==> c[i] != c[j]
    ensures forall i, j :: 0 <= i < j < |a + b + c| ==> (a + b + c)[i] != (a + b + c)[j]
  {
    var all := a + b + c;
    assert forall i :: 0 <= i < |all| ==>
        all[i] == if i < |a| then a[i] else if i < |a| + |b| then b[i - |a|] else c[i - |a| - |b|];
  }

  lemma JoinedHas(first: bool, below: seq<seq<nat>>, later: seq<seq<nat>>, at: seq<nat>)
    requires NonEmpty(below) && NonEmpty(later) && at != []
    ensures at in Joined(first, below, later) <==>
            if at == [0] then first
            else if at[0] == 0 then at[1..] in below
            else [at[0] - 1] + at[1..] in later
  {
    UnderHas(below, at);
    MovedHas(later, at);
    hide Under, Moved;
    assert |at| == 1 ==> at == [at[0]];
    if at[0] == 0 && at != [0] {
      assert |at| > 1;
    }
  }

  lemma ListsNonEmpty(ds: seq<ConfigDiff>, kind: Kind, ats: seq<seq<nat>>)
    requires Lists(ds, kind, ats)
    ensures NonEmpty(ats)
  {
    forall i | 0 <= i < |ats| ensures ats[i] != [] {
      assert ats[i] in ats;
    }
  }

  lemma JoinLists(ds: seq<ConfigDiff>, kind: Kind, below: seq<seq<nat>>, later: seq<seq<nat>>)
    requires ds != [] && Lists(ds[0].nested, kind, below) && Lists(ds[1..], kind, later)
    ensures NonEmpty(later) && Lists(ds, kind, Joined(ds[0].kind == kind, below, later))
  {
    ListsNonEmpty(ds[0].nested, kind, below);
    ListsNonEmpty(ds[1..], kind, later);
    JoinedOnce(ds[0].kind == kind, below, later);
    var all := Joined(ds[0].kind == kind, below, later);
    forall at: seq<nat> ensures at in all <==> KindAt(ds, at, kind) {
      if at != [] {
        hide KindAt, Joined;
        JoinedHas(ds[0].kind == kind, below, later, at);
        KindStep(ds, at, kind);
      } else {
        NoneEmpty(ds[0].kind == kind, below, later);
      }
    }
  }

  lemma NoneEmpty(first: bool, below: seq<seq<nat>>, later: seq<seq<nat>>)
    requires NonEmpty(later)
    ensures [] !in Joined(first, below, later)
  {
  }

  lemma CountStep(ds: seq<ConfigDiff>, kind: Kind)
    requires ds != []
    ensures Tallied(Count(ds), kind) ==
            (if ds[0].kind == kind then 1 else 0) + Tallied(Count(ds[0].nested), kind) + Tallied(Count(ds[1..]), kind)
  {
    CountParts(ds);
    hide Count;
  }

  lemma NoEntries(kind: Kind)
    ensures Lists([], kind, []) && Tallied(Count([]), kind) == 0
  {
  }

  lemma JoinedSize(first: bool, below: seq<seq<nat>>, later: seq<seq<nat>>)
    requires NonEmpty(later)
    ensures |Joined(first, below, later)| == (if first then 1 else 0) + |below| + |later|
  {
  }

  /** Each counter is the number of entries of its kind, over all levels. */
  lemma {:induction false} CountsEntries(ds: seq<ConfigDiff>, kind: Kind) returns (ats: seq<seq<nat>>)
    ensures Lists(ds, kind, ats) && |ats| == Tallied(Count(ds), kind)
    decreases ds
  {
    hide *;
    ats := [];
    if ds == [] {
      NoEntries(kind);
    } else {
      CountStep(ds, kind);
      assert ds[0] in ds;
      var below := CountsEntries(ds[0].nested, kind);
      var later := CountsEntries(ds[1..], kind);
      JoinLists(ds, kind, below, later);
      JoinedSize(ds[0].kind == kind, below, later);
      ats := Joined(ds[0].kind == kind, below, later);
    }
  }

  /** The kind of a difference at a path. */
  function KindOf(a: Tree, b: Tree, keys: Path): Kind {
    if GetPath(a, keys).None? then Added else if GetPath(b, keys).None? then Removed else Modified
  }

  /** The entry says what the two trees hold at a path: its key and dotted path, the
      old and the new value, and which of the two has one. */
  ghost predicate Says(a: Tree, b: Tree, prefix: string, d: ConfigDiff, keys: Path) {
    && d.key == keys[|keys| - 1] && d.path == PathOf(prefix, keys) && d.kind == KindOf(a, b, keys)
    && d.oldValue == GetPath(a, keys).GetOr(Null) && d.newValue == GetPath(b, keys).GetOr(Null)
    && (GetPath(a, keys).Some? || GetPath(b, keys).Some?)
  }

  lemma SaysHere(json: Json, a: Tree, b: Tree, prefix: string, k: string)
    requires k in a || k in b
    ensures var ds := DiffAt(json, a, b, k, ChildPath(prefix, k));
            |ds| <= 1 && (ds != [] ==>
              && Says(a, b, prefix, ds[0], [k])
              && (ds[0].nested != [] ==>
                    k in a && k in b && a[k].Map? && b[k].Map? &&
                    ds[0].nested == DiffMaps(json, a[k].entries, b[k].entries, ChildPath(prefix, k))))
  {
    hide DiffMaps;
    assert PathOf(prefix, [k]) == PathOf(ChildPath(prefix, k), [k][1..]);
  }

  lemma {:induction false} DiffFrom(json: Json, a: Tree, b: Tree, prefix: string, keys: seq<string>, i: nat)
    returns (k: string)
    requires forall k :: k in keys ==> k in a || k in b
    requires i < |DiffKeys(json, a, b, prefix, keys)|
    ensures (k in a || k in b) && DiffAt(json, a, b, k, ChildPath(prefix, k)) == [DiffKeys(json, a, b, prefix, keys)[i]]
    decreases |keys|
  {
    hide DiffAt;
    k := keys[0];
    assert k in keys;
    SaysHere(json, a, b, prefix, k);
    var n := |DiffAt(json, a, b, k, ChildPath(prefix, k))|;
    if i >= n {
      k := DiffFrom(json, a, b, prefix, keys[1..], i - n);
    }
  }

  lemma SaysBelow(a: Tree, b: Tree, prefix: string, k: string, d: ConfigDiff, keys: Path)
    requires k in a && k in b && a[k].Map? && b[k].Map?
    requires Says(a[k].entries, b[k].entries, ChildPath(prefix, k), d, keys)
    ensures Says(a, b, prefix, d, [k] + keys)
  {
    var all := [k] + keys;
    assert all[1..] == keys && all[|all| - 1] == keys[|keys| - 1];
  }

  /** Every entry of a comparison, at every level, says what is so. */
  lemma {:induction false} EntrySays(json: Json, a: Tree, b: Tree, prefix: string, at: seq<nat>) returns (keys: Path)
    requires at != [] && EntryAt(DiffMaps(json, a, b, prefix), at).Some?
    ensures |keys| == |at| && Says(a, b, prefix, EntryAt(DiffMaps(json, a, b, prefix), at).value, keys)
    decreases |at|
  {
    var ds := DiffMaps(json, a, b, prefix);
    var k := DiffFrom(json, a, b, prefix, SortedKeys(a.Keys + b.Keys), at[0]);
    SaysHere(json, a, b, prefix, k);
    hide DiffMaps, DiffAt, Says;
    keys := [k];
    if |at| > 1 {
      var rest := EntrySays(json, a[k].entries, b[k].entries, ChildPath(prefix, k), at[1..]);
      SaysBelow(a, b, prefix, k, EntryAt(ds, at).value, rest);
      keys := [k] + rest;
    }
  }
}
