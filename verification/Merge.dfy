/** Merging two configuration trees, and folding a list of layers
    (internal/dictutil/merge.go, merge/merge.go, merge/strategy.go). */
module Merge {
  import opened Values
  import opened Paths

  /** DeepMerge: maps are merged key by key, anything else is replaced. */
  function DeepMerge(base: Tree, overlay: Tree): (r: Tree)
    ensures r.Keys == base.Keys + overlay.Keys
    decreases Map(overlay)
  {
    map k | k in base.Keys + overlay.Keys ::
      if k !in overlay then base[k]
      else if k in base && base[k].Map? && overlay[k].Map? then Map(DeepMerge(base[k].entries, overlay[k].entries))
      else overlay[k]
  }

  datatype Strategy = Replace | Shallow | Deep | Append | Prepend | Intersection | Union

  datatype Merger = Merger(default: Strategy, rules: map<string, Strategy>)

  /** The rule on the longest proper dotted prefix of the path with length at
      most n, or the default. */
  function RuleBelow(m: Merger, path: string, n: nat): Strategy {
    if n == 0 then m.default
    else if n < |path| && path[n] == '.' && path[..n] in m.rules then m.rules[path[..n]]
    else RuleBelow(m, path, n - 1)
  }

  /** resolveStrategy: the exact rule, else the most specific parent's. */
  function StrategyAt(m: Merger, path: string): Strategy {
    if path in m.rules then m.rules[path] else RuleBelow(m, path, |path|)
  }

  function ToList(v: Value): seq<Value> { if v.List? then v.items else [v] }

  /** Per-key intersection; Null stands for the nil that says "none". */
  function Intersect(base: Value, overlay: Value): Value
    decreases overlay, 1
  {
    if !base.Map? || !overlay.Map? then (if base == overlay then base else Null)
    else
      var kept := IntersectEntries(base.entries, overlay.entries);
      if kept == map[] then Null else Map(kept)
  }

  function IntersectEntries(base: Tree, overlay: Tree): Tree
    decreases Map(overlay), 0
  {
    map k | k in base && k in overlay &&
            (if base[k].Map? && overlay[k].Map? then Intersect(base[k],
                overlay[k]) != Null else base[k] == overlay[k]) ::
      Intersect(base[k], overlay[k])
  }

  function IntersectMaps(base: Tree, overlay: Tree): Tree
    decreases Map(overlay), 0
  {
    map k | k in base && k in overlay && IntersectValues(base[k], overlay[k]).Some? ::
        IntersectValues(base[k], overlay[k]).value
  }

  function IntersectValues(base: Value, overlay: Value): Option<Value>
    decreases overlay, 1
  {
    if base.Map? && overlay.Map? then
      var nested := IntersectMaps(base.entries, overlay.entries);
      if nested == map[] then None else Some(Map(nested))
    else if base == overlay then Some(base) else None
  }

  function Apply(m: Merger, s: Strategy, base: Value, overlay: Value, path: string): Value
    decreases overlay, 1
  {
    match s
    case Shallow => if base.Map? && overlay.Map? then Map(base.entries + overlay.entries) else overlay
    case Deep => if base.Map? && overlay.Map? then Map(MergeAt(m, base.entries, overlay.entries, path)) else overlay
    case Union => if base.Map? && overlay.Map? then Map(MergeAt(m, base.entries, overlay.entries, path)) else overlay
    case Append => List(ToList(base) + ToList(overlay))
    case Prepend => List(ToList(overlay) + ToList(base))
    case Intersection => Intersect(base, overlay)
    case Replace => overlay
  }

  function MergeAt(m: Merger, base: Tree, overlay: Tree, prefix: string): Tree
    decreases Map(overlay), 0
  {
    var top := StrategyAt(m, prefix);
    if top == Intersection then IntersectMaps(base, overlay)
    else
      var kept := if top == Replace then {} else base.Keys;
      map k | k in kept + overlay.Keys ::
        if k !in overlay then base[k]
        else if k !in base then overlay[k]
        else Apply(m, StrategyAt(m, ChildPath(prefix, k)), base[k], overlay[k], ChildPath(prefix, k))
  }

  /** AdvancedMerger.Merge. */
  function MergeTrees(m: Merger, base: Tree, overlay: Tree): Tree {
    if m.default == Shallow then
      map k | k in base.Keys + overlay.Keys ::
        if k !in overlay then base[k]
        else if k in base && k in m.rules then Apply(m, m.rules[k], base[k], overlay[k], k)
        else overlay[k]
    else MergeAt(m, base, overlay, "")
  }

  /** The loop of MergeAll over the layers that follow the first; absent ones
      are skipped. */
  function Fold(m: Merger, acc: Tree, layers: seq<Option<Tree>>): Tree
    decreases |layers|
  {
    if layers == [] then acc
    else
      var done := Fold(m, acc, layers[..|layers| - 1]);
      match layers[|layers| - 1]
      case None => done
      case Some(layer) => MergeTrees(m, done, layer)
  }

  function MergeAll(m: Merger, layers: seq<Option<Tree>>): Tree {
    if layers == [] then map[] else Fold(m, layers[0].GetOr(map[]), layers[1..])
  }

  method MergeLayers(m: Merger, layers: seq<Option<Tree>>) returns (r: Tree)
    ensures r == MergeAll(m, layers)
  {
    if |layers| == 0 {
      return map[];
    }
    r := layers[0].GetOr(map[]);
    var rest := layers[1..];
    for i := 0 to |rest|
      invariant r == Fold(m, layers[0].GetOr(map[]), rest[..i])
    {
      assert rest[..i + 1][..i] == rest[..i];
      if rest[i].Some? {
        r := MergeTrees(m, r, rest[i].value);
      }
    }
    assert rest[..|rest|] == rest;
  }

  /** The chosen rule does not depend on the order in which the rules are
      visited: prefixes of one path with equal length are equal. */
  method ResolveStrategy(m: Merger, path: string) returns (s: Strategy)
    ensures s == StrategyAt(m, path)
  {
    if path in m.rules {
      return m.rules[path];
    }
    var best, bestStrategy, todo := "", m.default, m.rules.Keys;
    while todo != {}
      invariant todo <= m.rules.Keys
      invariant best != "" ==> best in m.rules && Below(best, path) && bestStrategy == m.rules[best]
      invariant best == "" ==> bestStrategy == m.default
      invariant forall p :: p in m.rules && p !in todo && Below(p, path) ==> |p| <= |best|
      decreases todo
    {
      var p :| p in todo;
      if Below(p, path) && |p| > |best| {
        best, bestStrategy := p, m.rules[p];
      }
      todo := todo - {p};
    }
    RuleOfLongest(m, path, best, |path|);
    if best != "" {
      return bestStrategy;
    }
    return m.default;
  }

  lemma {:induction false} RuleOfLongest(m: Merger, path: string, best: string, n: nat)
    requires best != "" ==> best in m.rules && Below(best, path)
    requires forall p :: p in m.rules && Below(p, path) ==> |p| <= |best|
    requires |best| <= n
    ensures RuleBelow(m, path, n) == if best != "" then m.rules[best] else m.default
  {
    if n > 0 {
      if n < |path| && path[n] == '.' && path[..n] in m.rules {
        assert path[..n] + "." == path[..n + 1];
        assert Below(path[..n], path);
      }
      if n > |best| {
        RuleOfLongest(m, path, best, n - 1);
      } else {
        assert (best + ".")[n] == path[n];
        assert best == path[..n];
      }
    }
  }

  /** With deep merge or union as the default and no rules, the configurable
      merger is plain DeepMerge. */
  lemma AdvancedIsDeep(m: Merger, base: Tree, overlay: Tree)
    requires m.rules == map[] && (m.default == Deep || m.default == Union)
    ensures MergeTrees(m, base, overlay) == DeepMerge(base, overlay)
  {
    AdvancedIsDeepAt(m, base, overlay, "");
  }

  lemma {:induction false} NoRules(m: Merger, path: string, n: nat)
    requires m.rules == map[]
    ensures RuleBelow(m, path, n) == m.default
  {
    if n > 0 {
      NoRules(m, path, n - 1);
    }
  }

  lemma {:induction false} AdvancedIsDeepAt(m: Merger, base: Tree, overlay: Tree, prefix: string)
    requires m.rules == map[] && (m.default == Deep || m.default == Union)
    ensures MergeAt(m, base, overlay, prefix) == DeepMerge(base, overlay)
    decreases Map(overlay)
  {
    NoRules(m, prefix, |prefix|);
    forall k | k in base && k in overlay
      ensures Apply(m, StrategyAt(m, ChildPath(prefix, k)), base[k], overlay[k], ChildPath(prefix,
                k)) == DeepMerge(base, overlay)[k]
    {
      NoRules(m, ChildPath(prefix, k), |ChildPath(prefix, k)|);
      if base[k].Map? && overlay[k].Map? {
        AdvancedIsDeepAt(m, base[k].entries, overlay[k].entries, ChildPath(prefix, k));
      }
    }
  }

  /** Without rules, replace keeps the overlay only, and shallow merge replaces
      whole top-level entries. */
  lemma PlainStrategies(m: Merger, base: Tree, overlay: Tree)
    requires m.rules == map[]
    ensures m.default == Replace ==> MergeTrees(m, base, overlay) == overlay
    ensures m.default == Shallow ==> MergeTrees(m, base, overlay) == base + overlay
    ensures m.default == Intersection ==> MergeTrees(m, base, overlay) == IntersectMaps(base, overlay)
  {
    NoRules(m, "", 0);
    forall k | k in overlay ensures StrategyAt(m, ChildPath("", k)) == m.default {
      NoRules(m, k, |k|);
    }
    if m.default == Replace {
      hide StrategyAt;
      assert forall k :: k in base && k in overlay ==>
          Apply(m, Replace, base[k], overlay[k], ChildPath("", k)) == overlay[k];
      assert MergeAt(m, base, overlay, "") == overlay;
    }
  }

  /** An intersection holds a setting exactly when both trees hold it. */
  lemma {:induction false} IntersectionIff(a: Tree, b: Tree, p: Path, v: Value)
    requires !v.Map?
    ensures GetPath(IntersectMaps(a, b), p) == Some(v) <==> GetPath(a, p) == Some(v) && GetPath(b, p) == Some(v)
    decreases |p|
  {
    var k := p[0];
    if k in a && k in b && a[k].Map? && b[k].Map? {
      if |p| > 1 {
        IntersectionIff(a[k].entries, b[k].entries, p[1..], v);
      }
    }
  }

  lemma IntersectUnfold(a: Tree, b: Tree)
    requires forall k :: k in a && k in b ==> Intersect(a[k], b[k]) == IntersectValues(a[k], b[k]).GetOr(Null)
    ensures IntersectEntries(a, b) == IntersectMaps(a, b)
  {
    forall k | k in a && k in b
      ensures IntersectValues(a[k], b[k]).Some? <==> if a[k].Map? &&
                b[k].Map? then Intersect(a[k], b[k]) != Null else a[k] == b[k]
    {
      IntersectShape(a[k], b[k]);
    }
    hide IntersectValues, Intersect;
  }

  lemma IntersectShape(a: Value, b: Value)
    ensures a.Map? && b.Map? ==> IntersectValues(a, b).None? || IntersectValues(a, b).value.Map?
    ensures !(a.Map? && b.Map?) ==> IntersectValues(a, b) == if a == b then Some(a) else None
  {
  }

  /** The two intersections agree: the one under a rule marks with Null what the
      one at a whole level leaves out. */
  lemma {:induction false} IntersectionsAgree(a: Value, b: Value)
    ensures Intersect(a, b) == IntersectValues(a, b).GetOr(Null)
    decreases b
  {
    if a.Map? && b.Map? {
      forall k | k in a.entries && k in b.entries
        ensures Intersect(a.entries[k], b.entries[k]) == IntersectValues(a.entries[k], b.entries[k]).GetOr(Null)
      {
        IntersectionsAgree(a.entries[k], b.entries[k]);
      }
      IntersectUnfold(a.entries, b.entries);
    }
  }

  /** Whatever the strategy, no key is invented. */
  lemma KeysFromInputs(m: Merger, base: Tree, overlay: Tree)
    ensures MergeTrees(m, base, overlay).Keys <= base.Keys + overlay.Keys
  {
  }

  /** At every shared key both trees hold maps, compatible again, or neither does. */
  ghost predicate Compatible(a: Tree, b: Tree)
    decreases Map(a)
  {
    forall k :: k in a && k in b ==>
      (a[k].Map? <==> b[k].Map?) && (a[k].Map? ==> Compatible(a[k].entries, b[k].entries))
  }

  /** A value in a deep merge is the overlay's where the overlay defines the
      path, and the base's elsewhere. */
  lemma {:induction false} DeepMergeAt(a: Tree, b: Tree, p: Path)
    requires Compatible(a, b)
    ensures GetPath(b, p).None? ==> GetPath(DeepMerge(a, b), p) == GetPath(a, p)
    ensures GetPath(b, p).Some? && !GetPath(b, p).value.Map? ==> GetPath(DeepMerge(a, b), p) == GetPath(b, p)
    decreases |p|
  {
    if |p| > 1 && p[0] in a && p[0] in b && a[p[0]].Map? {
      DeepMergeAt(a[p[0]].entries, b[p[0]].entries, p[1..]);
    }
  }

  lemma {:induction false} CompatibleMerge(a: Tree, b: Tree, c: Tree)
    requires Compatible(a, b) && Compatible(a, c) && Compatible(b, c)
    ensures Compatible(DeepMerge(a, b), c)
    decreases Map(c)
  {
    var d := DeepMerge(a, b);
    forall k | k in d && k in c
      ensures (d[k].Map? <==> c[k].Map?) && (d[k].Map? ==> Compatible(d[k].entries, c[k].entries))
    {
      if k in a && k in b && a[k].Map? {
        CompatibleMerge(a[k].entries, b[k].entries, c[k].entries);
      }
    }
  }

  function DeepFold(layers: seq<Tree>): Tree {
    if layers == [] then map[] else DeepMerge(DeepFold(layers[..|layers| - 1]), layers[|layers| - 1])
  }

  function Present(layers: seq<Tree>): seq<Option<Tree>> { seq(|layers|,
      i requires 0 <= i < |layers| => Some(layers[i])) }

  /** Such a merger folds layers by plain deep merge. */
  lemma {:induction false} MergeAllIsDeepFold(m: Merger, layers: seq<Tree>)
    requires m.rules == map[] && (m.default == Deep || m.default == Union)
    ensures MergeAll(m, Present(layers)) == DeepFold(layers)
    decreases |layers|
  {
    if |layers| == 1 {
      assert DeepFold(layers[..0]) == map[];
      assert DeepMerge(map[], layers[0]) == layers[0];
    } else if layers != [] {
      var n := |layers| - 1;
      MergeAllIsDeepFold(m, layers[..n]);
      assert Present(layers[..n]) == Present(layers)[..n];
      assert Present(layers)[1..][..n - 1] == Present(layers[..n])[1..];
      AdvancedIsDeep(m, DeepFold(layers[..n]), layers[n]);
    }
  }

  lemma {:induction false} FoldCompatible(layers: seq<Tree>, c: Tree)
    requires forall i, j :: 0 <= i < j < |layers| ==> Compatible(layers[i], layers[j])
    requires forall i :: 0 <= i < |layers| ==> Compatible(layers[i], c)
    ensures Compatible(DeepFold(layers), c)
    decreases |layers|
  {
    if layers != [] {
      var n := |layers| - 1;
      FoldCompatible(layers[..n], c);
      FoldCompatible(layers[..n], layers[n]);
      CompatibleMerge(DeepFold(layers[..n]), layers[n], c);
    }
  }

  lemma NothingAt(p: Path)
    ensures GetPath(map[], p).None?
  {
  }

  /** The last layer that defines a path decides its value. */
  lemma {:induction false} LastLayerWins(layers: seq<Tree>, p: Path)
    requires forall i, j :: 0 <= i < j < |layers| ==> Compatible(layers[i], layers[j])
    ensures (forall i :: 0 <= i < |layers| ==> GetPath(layers[i], p).None?) ==> GetPath(DeepFold(layers), p).None?
    ensures forall n :: 0 <= n < |layers| && GetPath(layers[n], p).Some? && !GetPath(layers[n], p).value.Map? &&
                        (forall i :: n < i < |layers| ==> GetPath(layers[i], p).None?) ==>
              GetPath(DeepFold(layers), p) == GetPath(layers[n], p)
    decreases |layers|
  {
    hide GetPath, DeepMerge, Compatible;
    if layers == [] {
      NothingAt(p);
    } else {
      var n := |layers| - 1;
      LastLayerWins(layers[..n], p);
      FoldCompatible(layers[..n], layers[n]);
      DeepMergeAt(DeepFold(layers[..n]), layers[n], p);
    }
  }

  /** Everything in t is replaced by x. */
  ghost predicate Underlies(t: Tree, x: Tree)
    decreases Map(x)
  {
    forall k :: k in t ==> k in x && (t[k].Map? && x[k].Map? ==> Underlies(t[k].entries, x[k].entries))
  }

  lemma {:induction false} UnderliesIff(t: Tree, x: Tree)
    ensures DeepMerge(t, x) == x <==> Underlies(t, x)
    decreases Map(x)
  {
    var m := DeepMerge(t, x);
    forall k | k in x && k in t && x[k].Map? && t[k].Map?
      ensures m[k] == x[k] <==> Underlies(t[k].entries, x[k].entries)
    {
      UnderliesIff(t[k].entries, x[k].entries);
    }
    if Underlies(t, x) {
      assert forall k :: k in m ==> m[k] == x[k];
    }
  }

  /** No map of a is lost under a non-map of b only to meet a map of c that does
      not replace all of it. */
  ghost predicate Transparent(a: Tree, b: Tree, c: Tree)
    decreases Map(c)
  {
    forall k :: k in a && k in b && k in c && a[k].Map? && c[k].Map? ==>
      if b[k].Map? then Transparent(a[k].entries, b[k].entries, c[k].entries)
      else Underlies(a[k].entries, c[k].entries)
  }

  /** Deep merge is associative exactly where nothing is hidden that way. */
  lemma {:induction false} AssociativeIff(a: Tree, b: Tree, c: Tree)
    ensures DeepMerge(DeepMerge(a, b), c) == DeepMerge(a, DeepMerge(b, c)) <==> Transparent(a, b, c)
    decreases Map(c)
  {
    var l, r := DeepMerge(DeepMerge(a, b), c), DeepMerge(a, DeepMerge(b, c));
    forall k | k in l ensures l[k] == r[k] <==> TransparentAt(a, b, c, k) {
      if k in a && k in b && k in c && a[k].Map? && b[k].Map? && c[k].Map? {
        AssociativeIff(a[k].entries, b[k].entries, c[k].entries);
      } else if k in a && k in b && k in c && a[k].Map? && c[k].Map? {
        UnderliesIff(a[k].entries, c[k].entries);
      }
    }
    if Transparent(a, b, c) {
      assert forall k :: k in l ==> TransparentAt(a, b, c, k);
    }
  }

  ghost predicate TransparentAt(a: Tree, b: Tree, c: Tree, k: string) {
    k in a && k in b && k in c && a[k].Map? && c[k].Map? ==>
      if b[k].Map? then Transparent(a[k].entries, b[k].entries, c[k].entries)
      else Underlies(a[k].entries, c[k].entries)
  }

  lemma {:induction false} CompatibleIsTransparent(a: Tree, b: Tree, c: Tree)
    requires Compatible(a, b)
    ensures Transparent(a, b, c)
    decreases Map(c)
  {
    forall k | k in a && k in b && k in c && a[k].Map? && c[k].Map?
      ensures b[k].Map? && Transparent(a[k].entries, b[k].entries, c[k].entries)
    {
      CompatibleIsTransparent(a[k].entries, b[k].entries, c[k].entries);
    }
  }

  lemma NotAssociativeExample()
    ensures exists a, b, c :: DeepMerge(DeepMerge(a, b), c) != DeepMerge(a, DeepMerge(b, c))
  {
    var x: Tree := map["x" := Number(1)];
    var y: Tree := map["y" := Number(2)];
    var a: Tree := map["k" := Map(x)];
    var b: Tree := map["k" := Number(0)];
    var c: Tree := map["k" := Map(y)];
    assert DeepMerge(DeepMerge(a, b), c)["k"] == Map(y);
    assert DeepMerge(b, c)["k"] == Map(y);
    assert DeepMerge(a, DeepMerge(b, c))["k"] == Map(DeepMerge(x, y));
    assert "x" in DeepMerge(x, y) && "x" !in y;
  }
}
