/** What a merge with per-path rules holds, path by path (merge/strategy.go). */
module MergeRules {
  import opened Values
  import opened Paths
  import opened Merge

  /** A rule on a path above this one. The empty name is above nothing. */
  predicate Parent(m: Merger, p: string, path: string) { p in m.rules && p != "" && Below(p, path) }

  /** The rule in force at a path: its own, else that of its longest parent with
      one, else the default. */
  ghost predicate InForce(m: Merger, path: string, s: Strategy) {
    if path in m.rules then s == m.rules[path]
    else if exists p :: Parent(m, p, path) then
      exists p :: Parent(m, p, path) && s == m.rules[p] && forall q :: Parent(m, q, path) ==> |q| <= |p|
    else s == m.default
  }

  lemma InForceIff(m: Merger, path: string, s: Strategy)
    ensures InForce(m, path, s) <==> StrategyAt(m, path) == s
  {
    if path !in m.rules {
      if p :| Parent(m, p, path) {
        var best := LongestParent(m, path, p, m.rules.Keys);
        RuleOfLongest(m, path, best, |path|);
        forall p, q | Parent(m, p, path) && Parent(m, q, path) && |p| == |q| ensures p == q {
          assert p == path[..|p|] && q == path[..|q|];
        }
      } else {
        forall q | q in m.rules && Below(q, path) ensures q == "" { assert !Parent(m, q, path); }
        RuleOfLongest(m, path, "", |path|);
      }
    }
  }

  lemma {:induction false} LongestParent(m: Merger, path: string, p: string, todo: set<string>) returns (best: string)
    requires Parent(m, p, path)
    ensures Parent(m, best, path) && |p| <= |best| <= |path|
    ensures forall q :: q in todo && Parent(m, q, path) ==> |q| <= |best|
    decreases todo
  {
    best := p;
    if q :| q in todo {
      best := LongestParent(m, path, if Parent(m, q, path) && |q| > |p| then q else p, todo - {q});
    }
  }

  /** The rule for the entry at p; under a shallow default a top-level entry has
      its own rule or is replaced. */
  ghost predicate RuleAt(m: Merger, p: Path, s: Strategy) {
    if m.default == Shallow && |p| == 1 then s == (if p[0] in m.rules then m.rules[p[0]] else Replace)
    else InForce(m, PathOf("", p), s)
  }

  /** A whole level is under a strategy; a shallow default keeps every level. */
  ghost predicate RootRule(m: Merger, s: Strategy) { m.default != Shallow && InForce(m, "", s) }

  predicate MapOrNothing(t: Tree, p: Path) { GetPath(t, p).Some? ==> GetPath(t, p).value.Map? }

  /** The merge goes down to p: every entry above it is a map, where there is one,
      and merged key by key. */
  ghost predicate Descends(m: Merger, a: Tree, b: Tree, p: Path) {
    forall i :: 0 < i < |p| ==>
      && (RuleAt(m, p[..i], Deep) || RuleAt(m, p[..i], Union))
      && MapOrNothing(a, p[..i]) && MapOrNothing(b, p[..i])
  }

  /** What a strategy makes of two values. A value that is no list counts as a list
      of one. */
  ghost predicate Combines(s: Strategy, x: Value, y: Value, r: Value) {
    var xs, ys := if x.List? then x.items else [x], if y.List? then y.items else [y];
    match s
    case Replace => r == y
    case Append => r.List? && Follows(xs, ys, r.items)
    case Prepend => r.List? && Follows(ys, xs, r.items)
    case Shallow =>
      if x.Map? && y.Map? then
        && r.Map? && r.entries.Keys == x.entries.Keys + y.entries.Keys
        && forall k :: k in r.entries ==> r.entries[k] == if k in y.entries then y.entries[k] else x.entries[k]
      else r == y
    case Intersection =>
      if x.Map? && y.Map? then
        && (r.Map? || r == Null)
        && forall p: Path, v: Value :: !v.Map? ==>
             ((r.Map? && GetPath(r.entries, p) == Some(v)) <==>
              GetPath(x.entries, p) == Some(v) && GetPath(y.entries, p) == Some(v))
      else r == if x == y then x else Null
    case Deep => if x.Map? && y.Map? then r.Map? else r == y
    case Union => if x.Map? && y.Map? then r.Map? else r == y
  }

  /** First the elements of xs, then those of ys. */
  ghost predicate Follows(xs: seq<Value>, ys: seq<Value>, items: seq<Value>) {
    && |items| == |xs| + |ys|
    && (forall i :: 0 <= i < |xs| ==> items[i] == xs[i])
    && forall i :: 0 <= i < |ys| ==> items[|xs| + i] == ys[i]
  }

  lemma ApplyCombines(m: Merger, s: Strategy, x: Value, y: Value, path: string)
    ensures Combines(s, x, y, Apply(m, s, x, y, path))
  {
    hide MergeAt, GetPath, Intersect;
    if s == Intersection {
      IntersectCombines(m, x, y);
    }
  }

  lemma IntersectCombines(m: Merger, x: Value, y: Value)
    ensures Combines(Intersection, x, y, Intersect(x, y))
  {
    IntersectionsAgree(x, y);
    hide Intersect, IntersectMaps, GetPath;
    if x.Map? && y.Map? {
      var both := IntersectMaps(x.entries, y.entries);
      forall p: Path, v: Value | !v.Map?
        ensures GetPath(both, p) == Some(v) <==> GetPath(x.entries, p) == Some(v) && GetPath(y.entries, p) == Some(v)
      {
        IntersectionIff(x.entries, y.entries, p, v);
      }
      forall p ensures GetPath(map[], p).None? { NothingAt(p); }
    }
  }

  /** The same at any level. */
  ghost predicate DescendsAt(m: Merger, a: Tree, b: Tree, prefix: string, p: Path) {
    forall i :: 0 < i < |p| ==>
      && (StrategyAt(m, PathOf(prefix, p[..i])) == Deep || StrategyAt(m, PathOf(prefix, p[..i])) == Union)
      && MapOrNothing(a, p[..i]) && MapOrNothing(b, p[..i])
  }

  /** What a merge has at p, where drops says that the top level keeps no key of
      the base alone. */
  ghost predicate Holds(s: Strategy, drops: bool, a: Tree, b: Tree, r: Tree, p: Path) {
    var x, y := GetPath(a, p), GetPath(b, p);
    match (x, y)
    case (Some(v), Some(w)) => GetPath(r, p).Some? && Combines(s, v, w, GetPath(r, p).value)
    case (_, Some(_)) => GetPath(r, p) == y
    case (_, None) => GetPath(r, p) == if drops && p[0] !in b then None else x
  }

  lemma DescendsInto(m: Merger, a: Tree, b: Tree, prefix: string, p: Path)
    requires DescendsAt(m, a, b, prefix, p) && |p| > 1 && p[0] in a && p[0] in b
    ensures a[p[0]].Map? && b[p[0]].Map?
    ensures StrategyAt(m, ChildPath(prefix, p[0])) == Deep || StrategyAt(m, ChildPath(prefix, p[0])) == Union
    ensures DescendsAt(m, a[p[0]].entries, b[p[0]].entries, ChildPath(prefix, p[0]), p[1..])
  {
    hide StrategyAt;
    assert p[..1] == [p[0]] && PathOf(prefix, p[..1]) == ChildPath(prefix, p[0]) by {
      assert [p[0]][1..] == [];
    }
    assert MapOrNothing(a, p[..1]) && MapOrNothing(b, p[..1]);
    forall i | 0 < i < |p[1..]|
      ensures PathOf(prefix, p[..i + 1]) == PathOf(ChildPath(prefix, p[0]), p[1..][..i])
      ensures GetPath(a, p[..i + 1]) == GetPath(a[p[0]].entries, p[1..][..i])
      ensures GetPath(b, p[..i + 1]) == GetPath(b[p[0]].entries, p[1..][..i])
    {
      assert p[..i + 1][1..] == p[1..][..i];
    }
  }

  lemma {:induction false} MergedBelow(m: Merger, a: Tree, b: Tree, prefix: string, p: Path)
    requires DescendsAt(m, a, b, prefix, p) && StrategyAt(m, prefix) != Intersection
    ensures Holds(StrategyAt(m, PathOf(prefix, p)), StrategyAt(m, prefix) == Replace, a, b, MergeAt(m, a, b, prefix), p)
    decreases |p|
  {
    hide StrategyAt, Combines, Apply;
    var k, path, r := p[0], ChildPath(prefix, p[0]), MergeAt(m, a, b, prefix);
    if |p| == 1 {
      assert PathOf(path, p[1..]) == path;
      if k in a && k in b {
        ApplyCombines(m, StrategyAt(m, path), a[k], b[k], path);
      }
    } else if k in a && k in b {
      DescendsInto(m, a, b, prefix, p);
      MergedBelow(m, a[k].entries, b[k].entries, path, p[1..]);
      DeepApplies(m, StrategyAt(m, path), a[k], b[k], path);
      hide MergeAt, DescendsAt;
      assert GetPath(r, p) == GetPath(r[k].entries, p[1..]);
    }
  }

  lemma DeepApplies(m: Merger, s: Strategy, x: Value, y: Value, path: string)
    requires (s == Deep || s == Union) && x.Map? && y.Map?
    ensures Apply(m, s, x, y, path) == Map(MergeAt(m, x.entries, y.entries, path))
  {
  }

  lemma RuleStrategy(m: Merger, p: Path, s: Strategy)
    requires m.default != Shallow || |p| > 1
    ensures RuleAt(m, p, s) <==> StrategyAt(m, PathOf("", p)) == s
  {
    InForceIff(m, PathOf("", p), s);
    hide StrategyAt, InForce;
  }

  /** What a merge with rules holds at p: the values of both, combined by the rule
      in force at p; the overlay's where only that has p; the base's where only
      that has it, unless the whole level is replaced. */
  lemma MergedAt(m: Merger, a: Tree, b: Tree, p: Path, s: Strategy)
    requires Descends(m, a, b, p) && RuleAt(m, p, s) && !RootRule(m, Intersection)
    ensures Holds(s, RootRule(m, Replace), a, b, MergeTrees(m, a, b), p)
  {
    if m.default == Shallow {
      ShallowAt(m, a, b, p, s);
    } else {
      hide StrategyAt, InForce, Holds, MergeAt, RuleAt, MapOrNothing;
      InForceIff(m, "", Intersection);
      InForceIff(m, "", Replace);
      RuleStrategy(m, p, s);
      forall i | 0 < i < |p|
        ensures RuleAt(m, p[..i], Deep) <==> StrategyAt(m, PathOf("", p[..i])) == Deep
        ensures RuleAt(m, p[..i], Union) <==> StrategyAt(m, PathOf("", p[..i])) == Union
      {
        RuleStrategy(m, p[..i], Deep);
        RuleStrategy(m, p[..i], Union);
      }
      MergedBelow(m, a, b, "", p);
    }
  }

  /** Under a shallow default. */
  lemma ShallowAt(m: Merger, a: Tree, b: Tree, p: Path, s: Strategy)
    requires m.default == Shallow && Descends(m, a, b, p) && RuleAt(m, p, s)
    ensures Holds(s, false, a, b, MergeTrees(m, a, b), p)
  {
    hide StrategyAt, InForce, Combines, Apply, MergeAt;
    var k := p[0];
    if |p| == 1 {
      if k in a && k in b && k in m.rules {
        ApplyCombines(m, m.rules[k], a[k], b[k], k);
      } else if k in a && k in b {
        ReplaceCombines(a[k], b[k]);
      }
    } else if k in a && k in b {
      ShallowInto(m, a, b, p);
      ShallowBelow(m, a, b, p, s);
    }
  }

  lemma ReplaceCombines(x: Value, y: Value)
    ensures Combines(Replace, x, y, y)
  {
  }

  lemma ShallowInto(m: Merger, a: Tree, b: Tree, p: Path)
    requires m.default == Shallow && Descends(m, a, b, p) && |p| > 1 && p[0] in a && p[0] in b
    ensures p[0] in m.rules && (m.rules[p[0]] == Deep || m.rules[p[0]] == Union) && a[p[0]].Map? && b[p[0]].Map?
    ensures DescendsAt(m, a[p[0]].entries, b[p[0]].entries, p[0], p[1..])
  {
    hide StrategyAt, InForce;
    assert p[..1] == [p[0]];
    assert MapOrNothing(a, p[..1]) && MapOrNothing(b, p[..1]);
    assert RuleAt(m, p[..1], Deep) || RuleAt(m, p[..1], Union);
    forall i | 0 < i < |p[1..]|
      ensures MapOrNothing(a[p[0]].entries, p[1..][..i]) && MapOrNothing(b[p[0]].entries, p[1..][..i])
      ensures StrategyAt(m, PathOf(p[0], p[1..][..i])) == Deep || StrategyAt(m, PathOf(p[0], p[1..][..i])) == Union
    {
      assert p[..i + 1][1..] == p[1..][..i];
      assert MapOrNothing(a, p[..i + 1]) && MapOrNothing(b, p[..i + 1]);
      RuleStrategy(m, p[..i + 1], Deep);
      RuleStrategy(m, p[..i + 1], Union);
    }
  }

  lemma ShallowBelow(m: Merger, a: Tree, b: Tree, p: Path, s: Strategy)
    requires m.default == Shallow && |p| > 1 && p[0] in a && p[0] in b && RuleAt(m, p, s)
    requires p[0] in m.rules && (m.rules[p[0]] == Deep || m.rules[p[0]] == Union) && a[p[0]].Map? && b[p[0]].Map?
    requires DescendsAt(m, a[p[0]].entries, b[p[0]].entries, p[0], p[1..])
    ensures Holds(s, false, a, b, MergeTrees(m, a, b), p)
  {
    var k := p[0];
    assert StrategyAt(m, k) == m.rules[k];
    RuleStrategy(m, p, s);
    DeepApplies(m, m.rules[k], a[k], b[k], k);
    hide StrategyAt, InForce, Combines, Apply, MergeAt, RuleAt, DescendsAt;
    MergedBelow(m, a[k].entries, b[k].entries, k, p[1..]);
    assert ChildPath("", k) == k;
  }

  /** A rule of Intersection on the whole level: a setting stays if both have it. */
  lemma IntersectedLevel(m: Merger, a: Tree, b: Tree, p: Path, v: Value)
    requires RootRule(m, Intersection) && !v.Map?
    ensures GetPath(MergeTrees(m, a, b), p) == Some(v) <==> GetPath(a, p) == Some(v) && GetPath(b, p) == Some(v)
  {
    InForceIff(m, "", Intersection);
    IntersectionIff(a, b, p, v);
  }

  /** The values that the layers have at p, in order. */
  function ValuesAt(layers: seq<Tree>, p: Path): seq<Value>
    decreases |layers|
  {
    if layers == [] then []
    else
      var n := |layers| - 1;
      ValuesAt(layers[..n], p) + if GetPath(layers[n], p).Some? then [GetPath(layers[n], p).value] else []
  }

  /** The elements of some values in order. */
  function Elements(vs: seq<Value>): seq<Value> {
    if vs == [] then []
    else
      var v := vs[|vs| - 1];
      Elements(vs[..|vs| - 1]) + if v.List? then v.items else [v]
  }

  /** Every entry above p is a map, where a layer has one, and merged key by key. */
  ghost predicate AllDescend(m: Merger, layers: seq<Tree>, p: Path) {
    && (forall i :: 0 < i < |p| ==> RuleAt(m, p[..i], Deep) || RuleAt(m, p[..i], Union))
    && forall n, i :: 0 <= n < |layers| && 0 < i < |p| ==> MapOrNothing(layers[n], p[..i])
  }

  lemma MapsAbove(m: Merger, a: Tree, b: Tree, p: Path, i: nat)
    requires Descends(m, a, b, p) && !RootRule(m, Intersection) && 0 < i < |p|
    ensures MapOrNothing(MergeTrees(m, a, b), p[..i])
  {
    hide RuleAt, RootRule, MapOrNothing;
    var s := if RuleAt(m, p[..i], Deep) then Deep else Union;
    forall j | 0 < j < i ensures p[..i][..j] == p[..j] {
    }
    MergedAt(m, a, b, p[..i], s);
    assert MapOrNothing(a, p[..i]) && MapOrNothing(b, p[..i]);
    DeepKeepsMaps(a, b, MergeTrees(m, a, b), p[..i], s, RootRule(m, Replace));
  }

  lemma DeepKeepsMaps(a: Tree, b: Tree, r: Tree, p: Path, s: Strategy, drops: bool)
    requires Holds(s, drops, a, b, r, p) && (s == Deep || s == Union) && MapOrNothing(a, p) && MapOrNothing(b, p)
    ensures MapOrNothing(r, p)
  {
  }

  lemma MergeSnoc(m: Merger, layers: seq<Tree>)
    requires |layers| > 1
    ensures MergeAll(m, Present(layers)) ==
            MergeTrees(m, MergeAll(m, Present(layers[..|layers| - 1])), layers[|layers| - 1])
  {
    var n := |layers| - 1;
    hide MergeTrees;
    assert Present(layers)[1..][..n - 1] == Present(layers[..n])[1..];
  }

  lemma {:induction false} LayersDescend(m: Merger, layers: seq<Tree>, p: Path)
    requires AllDescend(m, layers, p) && !RootRule(m, Intersection) && layers != []
    ensures forall i :: 0 < i < |p| ==> MapOrNothing(MergeAll(m, Present(layers)), p[..i])
    decreases |layers|
  {
    hide RuleAt, RootRule, MapOrNothing, MergeTrees;
    if |layers| > 1 {
      var n := |layers| - 1;
      hide MergeAll;
      LayersDescend(m, layers[..n], p);
      MergeSnoc(m, layers);
      var before := MergeAll(m, Present(layers[..n]));
      assert forall i :: 0 < i < |p| ==> MapOrNothing(layers[n], p[..i]);
      forall i | 0 < i < |p| ensures MapOrNothing(MergeAll(m, Present(layers)), p[..i]) {
        MapsAbove(m, before, layers[n], p, i);
      }
    } else {
      assert forall i :: 0 < i < |p| ==> MapOrNothing(layers[0], p[..i]);
    }
  }

  /** Under a rule of append, a list gathers the elements of all layers, earlier
      layers first. */
  lemma {:induction false} AppendsAll(m: Merger, layers: seq<Tree>, p: Path)
    requires AllDescend(m, layers, p) && RuleAt(m, p, Append)
    requires !RootRule(m, Intersection) && !RootRule(m, Replace)
    ensures var vs, r := ValuesAt(layers, p), GetPath(MergeAll(m, Present(layers)), p);
            r == if vs == [] then None else if |vs| == 1 then Some(vs[0]) else Some(List(Elements(vs)))
    decreases |layers|
  {
    hide RuleAt, RootRule, MapOrNothing, MergeTrees, MergeAll, GetPath;
    if layers == [] {
      NoLayers(m, p);
    } else if |layers| == 1 {
      OneLayer(m, layers);
      assert ValuesAt(layers[..0], p) == [];
    } else {
      var n := |layers| - 1;
      AppendsAll(m, layers[..n], p);
      LayersDescend(m, layers[..n], p);
      MergeSnoc(m, layers);
      assert forall i :: 0 < i < |p| ==> MapOrNothing(layers[n], p[..i]);
      var before, vs := MergeAll(m, Present(layers[..n])), ValuesAt(layers[..n], p);
      MergedAt(m, before, layers[n], p, Append);
      AppendOne(before, layers[n], MergeTrees(m, before, layers[n]), p, vs);
    }
  }

  lemma NoLayers(m: Merger, p: Path)
    ensures GetPath(MergeAll(m, Present([])), p).None?
  {
  }

  lemma OneLayer(m: Merger, layers: seq<Tree>)
    requires |layers| == 1
    ensures MergeAll(m, Present(layers)) == layers[0]
  {
  }

  lemma ElementsSnoc(vs: seq<Value>, y: Value)
    ensures Elements(vs + [y]) == Elements(vs) + if y.List? then y.items else [y]
  {
    assert (vs + [y])[..|vs|] == vs;
  }

  lemma AppendValues(vs: seq<Value>, v: Value, y: Value, r: Value)
    requires vs != [] && v == (if |vs| == 1 then vs[0] else List(Elements(vs))) && Combines(Append, v, y, r)
    ensures r == List(Elements(vs + [y]))
  {
    hide *;
    AppendIs(v, y, r);
    ElementsSnoc(vs, y);
    FirstElements(vs);
    assert Elements(vs) == if v.List? then v.items else [v];
  }

  lemma FirstElements(vs: seq<Value>)
    ensures |vs| == 1 ==> Elements(vs) == if vs[0].List? then vs[0].items else [vs[0]]
  {
    if |vs| == 1 {
      assert vs[..0] == [];
    }
  }

  lemma AppendIs(v: Value, y: Value, r: Value)
    requires Combines(Append, v, y, r)
    ensures r == List((if v.List? then v.items else [v]) + if y.List? then y.items else [y])
  {
    hide GetPath;
    assert r.items == (if v.List? then v.items else [v]) + if y.List? then y.items else [y];
  }

  lemma AppendOne(a: Tree, b: Tree, r: Tree, p: Path, vs: seq<Value>)
    requires Holds(Append, false, a, b, r, p)
    requires GetPath(a, p) == if vs == [] then None else if |vs| == 1 then Some(vs[0]) else Some(List(Elements(vs)))
    ensures var ws := vs + if GetPath(b, p).Some? then [GetPath(b, p).value] else [];
            GetPath(r, p) == if ws == [] then None else if |ws| == 1 then Some(ws[0]) else Some(List(Elements(ws)))
  {
    hide GetPath, Elements, Combines;
    if GetPath(b, p).Some? {
      if vs != [] {
        AppendValues(vs, GetPath(a, p).value, GetPath(b, p).value, GetPath(r, p).value);
      }
    } else {
      assert vs + [] == vs;
    }
  }

  /** A layer that is absent after the first changes nothing. */
  lemma {:induction false} AbsentSkipped(m: Merger, layers: seq<Option<Tree>>, n: nat)
    requires 0 < n < |layers| && layers[n].None?
    ensures MergeAll(m, layers) == MergeAll(m, layers[..n] + layers[n + 1..])
  {
    var rest := layers[1..];
    assert (layers[..n] + layers[n + 1..])[1..] == rest[..n - 1] + rest[n..];
    assert (layers[..n] + layers[n + 1..])[0] == layers[0];
    FoldSkips(m, layers[0].GetOr(map[]), rest, n - 1);
  }

  lemma {:induction false} FoldSkips(m: Merger, acc: Tree, rest: seq<Option<Tree>>, n: nat)
    requires n < |rest| && rest[n].None?
    ensures Fold(m, acc, rest) == Fold(m, acc, rest[..n] + rest[n + 1..])
    decreases |rest|
  {
    hide MergeTrees;
    var k, less := |rest| - 1, rest[..n] + rest[n + 1..];
    if n == k {
      assert less == rest[..k];
    } else {
      FoldSkips(m, acc, rest[..k], n);
      assert less[..k - 1] == rest[..k][..n] + rest[..k][n + 1..] && less[k - 1] == rest[k];
    }
  }
}
