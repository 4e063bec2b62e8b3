/** When Extend and a later full reload give different environment maps. Extend
    resolves the new layer and merges it into the environment's map; a reload
    merges the layers and resolves the result (config_extend.go:70-80,
    config_load.go:119-132). */
module ExtendEnvironment {
  import opened Values
  import opened Load
  import opened EnvHandler
  import opened ExtendReload
  import Merge

  /** Merging x into a gives t. */
  ghost predicate Gives(a: Tree, x: Tree, t: Tree)
    decreases Map(x)
  {
    && t.Keys == a.Keys + x.Keys
    && forall k :: k in t ==>
         if k !in x then t[k] == a[k]
         else if !x[k].Map? then t[k] == x[k]
         else t[k].Map? && Gives(Section(a, k), x[k].entries, t[k].entries)
  }

  lemma {:induction false} GivesIff(a: Tree, x: Tree, t: Tree)
    ensures Gives(a, x, t) <==> Merge.DeepMerge(a, x) == t
    decreases Map(x)
  {
    var m := Merge.DeepMerge(a, x);
    forall k | k in x && k in t && x[k].Map? && t[k].Map?
      ensures m[k] == Map(Merge.DeepMerge(Section(a, k), x[k].entries))
      ensures Gives(Section(a, k), x[k].entries, t[k].entries) <==> m[k] == t[k]
    {
      UnderMap(a, x, k);
      GivesIff(Section(a, k), x[k].entries, t[k].entries);
    }
    if m == t {
      forall k | k in x && x[k].Map? ensures t[k].Map? {
        UnderMap(a, x, k);
      }
    }
  }

  /** A map under a key merges with the map there, or with nothing. */
  lemma UnderMap(a: Tree, x: Tree, k: string)
    requires k in x && x[k].Map?
    ensures Merge.DeepMerge(a, x)[k] == Map(Merge.DeepMerge(Section(a, k), x[k].entries))
  {
    OntoNothing(x[k].entries);
  }

  lemma OntoNothing(x: Tree)
    ensures Merge.DeepMerge(map[], x) == x && Merge.DeepMerge(x, map[]) == x
  {
  }

  /** Merging x into a and y into b gives the same, decided key by key. */
  ghost predicate SameMerge(a: Tree, x: Tree, b: Tree, y: Tree)
    decreases Map(x)
  {
    && a.Keys + x.Keys == b.Keys + y.Keys
    && forall k :: k in a.Keys + x.Keys ==>
         if k in x && k in y && x[k].Map? && y[k].Map?
         then SameMerge(Section(a, k), x[k].entries, Section(b, k), y[k].entries)
         else if k in x && x[k].Map? then k !in y && b[k].Map? && Gives(Section(a, k), x[k].entries, b[k].entries)
         else if k in y && y[k].Map? then k !in x && a[k].Map? && Gives(Section(b, k), y[k].entries, a[k].entries)
         else (if k in x then x[k] else a[k]) == (if k in y then y[k] else b[k])
  }

  lemma {:induction false} SameMergeIff(a: Tree, x: Tree, b: Tree, y: Tree)
    ensures SameMerge(a, x, b, y) <==> Merge.DeepMerge(a, x) == Merge.DeepMerge(b, y)
    decreases Map(x)
  {
    if a.Keys + x.Keys == b.Keys + y.Keys {
      forall k | k in a.Keys + x.Keys
        ensures SameAt(a, x, b, y, k) <==> Merge.DeepMerge(a, x)[k] == Merge.DeepMerge(b, y)[k]
      {
        if k in x && k in y && x[k].Map? && y[k].Map? {
          UnderMap(a, x, k);
          UnderMap(b, y, k);
          SameMergeIff(Section(a, k), x[k].entries, Section(b, k), y[k].entries);
        } else {
          hide SameMerge;
          SameElsewhere(a, x, b, y, k);
        }
      }
      SameByKey(a, x, b, y);
    }
  }

  /** A key that is not a map in both overlays. */
  lemma SameElsewhere(a: Tree, x: Tree, b: Tree, y: Tree, k: string)
    requires a.Keys + x.Keys == b.Keys + y.Keys && k in a.Keys + x.Keys
    requires !(k in x && k in y && x[k].Map? && y[k].Map?)
    ensures SameAt(a, x, b, y, k) <==> Merge.DeepMerge(a, x)[k] == Merge.DeepMerge(b, y)[k]
  {
    hide SameMerge, Gives;
    if k in x && x[k].Map? {
      UnderMap(a, x, k);
      if k !in y && b[k].Map? {
        GivesIff(Section(a, k), x[k].entries, b[k].entries);
      }
    } else if k in y && y[k].Map? {
      UnderMap(b, y, k);
      if k !in x && a[k].Map? {
        GivesIff(Section(b, k), y[k].entries, a[k].entries);
      }
    }
  }

  ghost predicate SameAt(a: Tree, x: Tree, b: Tree, y: Tree, k: string)
    requires a.Keys + x.Keys == b.Keys + y.Keys && k in a.Keys + x.Keys
  {
    if k in x && k in y && x[k].Map? && y[k].Map?
    then SameMerge(Section(a, k), x[k].entries, Section(b, k), y[k].entries)
    else if k in x && x[k].Map? then k !in y && b[k].Map? && Gives(Section(a, k), x[k].entries, b[k].entries)
    else if k in y && y[k].Map? then k !in x && a[k].Map? && Gives(Section(b, k), y[k].entries, a[k].entries)
    else (if k in x then x[k] else a[k]) == (if k in y then y[k] else b[k])
  }

  lemma SameByKey(a: Tree, x: Tree, b: Tree, y: Tree)
    requires a.Keys + x.Keys == b.Keys + y.Keys
    ensures SameMerge(a, x, b, y) <==> forall k :: k in a.Keys + x.Keys ==> SameAt(a, x, b, y, k)
  {
  }

  /** Every setting that a has and c would replace is in d again, or is equal in
      both: own is an environment section, default and next are those of a later
      layer. */
  ghost predicate Agree(own: Tree, default: Tree, next: Tree)
    decreases Map(own)
  {
    forall k :: k in own && k in default ==>
      if own[k].Map? && default[k].Map? then Agree(own[k].entries, default[k].entries, Section(next, k))
      else k in next || own[k] == default[k]
  }

  /** Four trees with no map over a non-map. */
  ghost predicate Aligned(a: Tree, b: Tree, c: Tree, d: Tree) {
    && Merge.Compatible(a, b) && Merge.Compatible(a, c) && Merge.Compatible(a, d)
    && Merge.Compatible(b, c) && Merge.Compatible(b, d) && Merge.Compatible(c, d)
  }

  /** Merging in the orders (a b) (c d) and (a c) (b d) gives the same exactly
      when b and c agree under d. */
  lemma {:induction false} InterchangeIff(a: Tree, b: Tree, c: Tree, d: Tree)
    requires Aligned(a, b, c, d)
    ensures Pairs(a, b, c, d) == Pairs(a, c, b, d) <==> Agree(b, c, d)
    decreases Map(b)
  {
    hide Pairs, Aligned;
    PairsKeys(a, b, c, d);
    PairsKeys(a, c, b, d);
    var l, r := Pairs(a, b, c, d), Pairs(a, c, b, d);
    forall k | k in l ensures l[k] == r[k] <==> AgreeAt(b, c, d, k) {
      if k in b && k in c && b[k].Map? && c[k].Map? {
        SectionsAligned(a, b, c, d, k);
        InterchangeIff(Section(a, k), b[k].entries, c[k].entries, Section(d, k));
      }
      InterchangeAt(a, b, c, d, k);
    }
    AgreeByKey(b, c, d);
    hide AgreeAt, Agree;
    assert l == r <==> forall k :: k in l ==> l[k] == r[k];
  }

  lemma SectionsAligned(a: Tree, b: Tree, c: Tree, d: Tree, k: string)
    requires Aligned(a, b, c, d)
    ensures Aligned(Section(a, k), Section(b, k), Section(c, k), Section(d, k))
  {
    PairAligned(a, b, k);
    PairAligned(a, c, k);
    PairAligned(a, d, k);
    PairAligned(b, c, k);
    PairAligned(b, d, k);
    PairAligned(c, d, k);
  }

  lemma PairAligned(a: Tree, b: Tree, k: string)
    requires Merge.Compatible(a, b)
    ensures Merge.Compatible(Section(a, k), Section(b, k))
  {
  }

  /** Maps only, or no map, at a key. */
  ghost predicate MapAt(t: Tree, k: string) { k in t ==> t[k].Map? }

  ghost predicate LeafAt(t: Tree, k: string) { k in t ==> !t[k].Map? }

  lemma MapMerges(a: Tree, b: Tree, k: string)
    requires MapAt(a, k) && MapAt(b, k)
    ensures MapAt(Merge.DeepMerge(a, b), k)
    ensures Section(Merge.DeepMerge(a, b), k) == Merge.DeepMerge(Section(a, k), Section(b, k))
  {
    OntoNothing(Section(a, k));
    OntoNothing(Section(b, k));
  }

  lemma LeafMerges(a: Tree, b: Tree, k: string)
    requires LeafAt(a, k) && LeafAt(b, k)
    ensures LeafAt(Merge.DeepMerge(a, b), k)
    ensures k in b ==> Merge.DeepMerge(a, b)[k] == b[k]
    ensures k in a && k !in b ==> Merge.DeepMerge(a, b)[k] == a[k]
  {
  }

  function Pairs(a: Tree, b: Tree, c: Tree, d: Tree): Tree {
    Merge.DeepMerge(Merge.DeepMerge(a, b), Merge.DeepMerge(c, d))
  }

  lemma PairsMaps(a: Tree, b: Tree, c: Tree, d: Tree, k: string)
    requires MapAt(a, k) && MapAt(b, k) && MapAt(c, k) && MapAt(d, k)
    ensures MapAt(Pairs(a, b, c, d), k)
    ensures Section(Pairs(a, b, c, d), k) == Pairs(Section(a, k), Section(b, k), Section(c, k), Section(d, k))
  {
    hide Merge.DeepMerge, Section, MapAt;
    MapMerges(a, b, k);
    MapMerges(c, d, k);
    MapMerges(Merge.DeepMerge(a, b), Merge.DeepMerge(c, d), k);
  }

  lemma PairsLeaves(a: Tree, b: Tree, c: Tree, d: Tree, k: string)
    requires LeafAt(a, k) && LeafAt(b, k) && LeafAt(c, k) && LeafAt(d, k) && k in Pairs(a, b, c, d)
    ensures Pairs(a, b, c, d)[k] == if k in d then d[k] else if k in c then c[k] else if k in b then b[k] else a[k]
  {
    hide LeafAt;
    LeafMerges(a, b, k);
    LeafMerges(c, d, k);
    LeafMerges(Merge.DeepMerge(a, b), Merge.DeepMerge(c, d), k);
  }

  lemma PairsKeys(a: Tree, b: Tree, c: Tree, d: Tree)
    ensures Pairs(a, b, c, d).Keys == a.Keys + b.Keys + c.Keys + d.Keys
  {
  }

  lemma AllMapsOrLeaves(a: Tree, b: Tree, c: Tree, d: Tree, k: string)
    requires Aligned(a, b, c, d)
    ensures (MapAt(a, k) && MapAt(b, k) && MapAt(c, k) && MapAt(d, k)) ||
            (LeafAt(a, k) && LeafAt(b, k) && LeafAt(c, k) && LeafAt(d, k))
  {
  }

  /** Where one of the middle trees is empty, the order does not matter. */
  lemma OneMiddle(a: Tree, b: Tree, c: Tree, d: Tree)
    requires Aligned(a, b, c, d) && (b == map[] || c == map[])
    ensures Pairs(a, b, c, d) == Pairs(a, c, b, d)
  {
    var m := if b == map[] then c else b;
    hide Merge.DeepMerge, Merge.Compatible, Merge.Transparent;
    OntoNothing(a);
    OntoNothing(d);
    Merge.CompatibleIsTransparent(a, m, d);
    Merge.AssociativeIff(a, m, d);
  }

  lemma InterchangeAt(a: Tree, b: Tree, c: Tree, d: Tree, k: string)
    requires Aligned(a, b, c, d) && k in Pairs(a, b, c, d) && k in Pairs(a, c, b, d)
    requires k in b && k in c && b[k].Map? && c[k].Map? ==>
               (Pairs(Section(a, k), b[k].entries, c[k].entries, Section(d, k)) ==
                Pairs(Section(a, k), c[k].entries, b[k].entries, Section(d, k)) <==>
                Agree(b[k].entries, c[k].entries, Section(d, k)))
    ensures Pairs(a, b, c, d)[k] == Pairs(a, c, b, d)[k] <==> AgreeAt(b, c, d, k)
  {
    AllMapsOrLeaves(a, b, c, d, k);
    hide Merge.Compatible, Pairs, Agree;
    if LeafAt(a, k) && LeafAt(b, k) && LeafAt(c, k) && LeafAt(d, k) {
      PairsLeaves(a, b, c, d, k);
      PairsLeaves(a, c, b, d, k);
    } else {
      PairsMaps(a, b, c, d, k);
      PairsMaps(a, c, b, d, k);
      if k !in b || k !in c {
        SectionsAligned(a, b, c, d, k);
        OneMiddle(Section(a, k), Section(b, k), Section(c, k), Section(d, k));
      }
    }
  }

  ghost predicate AgreeAt(own: Tree, default: Tree, next: Tree, k: string) {
    k in own && k in default ==>
      if own[k].Map? && default[k].Map? then Agree(own[k].entries, default[k].entries, Section(next, k))
      else k in next || own[k] == default[k]
  }

  lemma AgreeByKey(own: Tree, default: Tree, next: Tree)
    ensures Agree(own, default, next) <==> forall k :: k in own && k in default ==> AgreeAt(own, default, next, k)
  {
  }

  /** Everything in x is in t already. */
  ghost predicate Covered(x: Tree, t: Tree)
    decreases Map(x)
  {
    forall k :: k in x ==>
      k in t && if x[k].Map? && t[k].Map? then Covered(x[k].entries, t[k].entries) else x[k] == t[k]
  }

  lemma {:induction false} CoveredIff(t: Tree, x: Tree)
    ensures Merge.DeepMerge(t, x) == t <==> Covered(x, t)
    decreases Map(x)
  {
    var m := Merge.DeepMerge(t, x);
    forall k | k in x && k in t && x[k].Map? && t[k].Map?
      ensures m[k] == t[k] <==> Covered(x[k].entries, t[k].entries)
    {
      CoveredIff(t[k].entries, x[k].entries);
    }
    if Covered(x, t) {
      assert forall k :: k in m ==> m[k] == t[k];
    }
  }

  /** How deep maps are nested in a tree. */
  ghost function Height(t: Tree): nat
    decreases Map(t), 1, 0
  {
    Highest(t, t.Keys)
  }

  ghost function Highest(t: Tree, keys: set<string>): nat
    requires keys <= t.Keys
    decreases Map(t), 0, |keys|
  {
    if keys == {} then 0
    else
      var k :| k in keys;
      var rest := Highest(t, keys - {k});
      if t[k].Map? && Height(t[k].entries) >= rest then 1 + Height(t[k].entries) else rest
  }

  lemma {:induction false} HighestFacts(t: Tree, keys: set<string>, k: string, n: nat)
    requires keys <= t.Keys
    ensures k in keys && t[k].Map? ==> Height(t[k].entries) < Highest(t, keys)
    ensures (forall j :: j in keys && t[j].Map? ==> Height(t[j].entries) < n) ==> Highest(t, keys) <= n
    decreases |keys|
  {
    hide Height;
    if keys != {} {
      var j :| j in keys && Highest(t, keys) == var rest := Highest(t, keys - {j});
          if t[j].Map? && Height(t[j].entries) >= rest then 1 + Height(t[j].entries) else rest;
      HighestFacts(t, keys - {j}, k, n);
    }
  }

  lemma SectionLower(t: Tree, k: string)
    ensures if k in t && t[k].Map? then Height(Section(t, k)) < Height(t) else Section(t, k) == map[]
  {
    HighestFacts(t, t.Keys, k, 0);
  }

  lemma {:induction false} MergeLower(a: Tree, b: Tree, n: nat)
    requires Height(a) <= n && Height(b) <= n
    ensures Height(Merge.DeepMerge(a, b)) <= n
    decreases Map(b)
  {
    hide Highest;
    var m := Merge.DeepMerge(a, b);
    forall k | k in m && m[k].Map? ensures Height(m[k].entries) < n {
      SectionLower(a, k);
      SectionLower(b, k);
      if k in b && k in a && b[k].Map? && a[k].Map? {
        MergeLower(a[k].entries, b[k].entries, n - 1);
      }
    }
    HighestFacts(m, m.Keys, "", n);
  }

  lemma ResolveIs(t: Tree, env: string)
    requires IsAware(t, env)
    ensures Resolve(t, env) == Merge.DeepMerge(Section(t, DEFAULT), Section(t, env))
  {
    OntoNothing(Section(t, DEFAULT));
  }

  /** The two trees hold the same kind of value under a key. */
  ghost predicate SameKind(a: Tree, b: Tree, k: string) { k in a && k in b ==> (a[k].Map? <==> b[k].Map?) }

  lemma SectionMerges(a: Tree, b: Tree, k: string)
    requires SameKind(a, b, k)
    ensures Section(Merge.DeepMerge(a, b), k) == Merge.DeepMerge(Section(a, k), Section(b, k))
  {
    OntoNothing(Section(a, k));
    OntoNothing(Section(b, k));
  }

  /** Two environment-aware trees whose sections can be merged without a map
      meeting a non-map. */
  ghost predicate Sectioned(a: Tree, b: Tree, env: string) {
    && SameKind(a, b, DEFAULT) && SameKind(a, b, env)
    && Aligned(Section(a, DEFAULT), Section(a, env), Section(b, DEFAULT), Section(b, env))
  }

  lemma AwareMerges(a: Tree, b: Tree, env: string)
    requires IsAware(b, env)
    ensures IsAware(Merge.DeepMerge(a, b), env)
  {
    if !(env != "" && env in b) {
      var k :| k in b && k != DEFAULT && b[k].Map?;
      assert Merge.DeepMerge(a, b)[k].Map?;
    }
  }

  /** Resolving two sectioned layers and then merging gives what merging and then
      resolving gives, exactly when the earlier environment section agrees with
      the later default section. */
  lemma SectionedIff(a: Tree, b: Tree, env: string)
    requires IsAware(a, env) && IsAware(b, env) && Sectioned(a, b, env)
    ensures Merge.DeepMerge(Resolve(a, env), Resolve(b, env)) == Resolve(Merge.DeepMerge(a, b), env) <==>
            Agree(Section(a, env), Section(b, DEFAULT), Section(b, env))
  {
    var both := Merge.DeepMerge(a, b);
    AwareMerges(a, b, env);
    ResolveIs(a, env);
    ResolveIs(b, env);
    ResolveIs(both, env);
    SectionMerges(a, b, DEFAULT);
    SectionMerges(a, b, env);
    InterchangeIff(Section(a, DEFAULT), Section(a, env), Section(b, DEFAULT), Section(b, env));
    hide IsAware, Aligned, Merge.DeepMerge, Section, SameKind, Agree, Resolve;
  }

  ghost predicate NoSections(t: Tree, env: string) { DEFAULT !in t && env !in t }

  lemma NotItsOwnSection(t: Tree)
    ensures DEFAULT in t ==> t[DEFAULT] != Map(t)
  {
    if DEFAULT in t && t[DEFAULT] == Map(t) {
      SectionLower(t, DEFAULT);
    }
  }

  /** A layer without sections on top of a sectioned map: after a reload its
      settings are gone, unless it turned the whole map into a plain one. */
  lemma FlatLayerIff(a: Tree, b: Tree, env: string)
    requires IsAware(a, env) && !IsAware(b, env) && NoSections(b, env)
    ensures Merge.DeepMerge(Resolve(a, env), Resolve(b, env)) == Resolve(Merge.DeepMerge(a, b), env) <==>
            IsAware(Merge.DeepMerge(a, b), env) && Covered(b, Resolve(a, env))
  {
    var both := Merge.DeepMerge(a, b);
    ResolveIs(a, env);
    SectionMerges(a, b, DEFAULT);
    SectionMerges(a, b, env);
    OntoNothing(Section(a, DEFAULT));
    OntoNothing(Section(a, env));
    CoveredIff(Resolve(a, env), b);
    if IsAware(both, env) {
      ResolveIs(both, env);
    } else {
      assert both[DEFAULT] == a[DEFAULT];
      assert env != DEFAULT ==> Section(a, env) == map[];
      NotItsOwnSection(Section(a, DEFAULT));
    }
  }

  /** A sectioned layer on top of a map without sections: a reload shows the
      layer's sections alone. */
  lemma FlatBaseIff(a: Tree, b: Tree, env: string)
    requires !IsAware(a, env) && IsAware(b, env) && NoSections(a, env)
    ensures Merge.DeepMerge(Resolve(a, env), Resolve(b, env)) == Resolve(Merge.DeepMerge(a, b), env) <==>
            Merge.Underlies(a, Resolve(b, env))
  {
    AwareMerges(a, b, env);
    ResolveIs(b, env);
    ResolveIs(Merge.DeepMerge(a, b), env);
    SectionMerges(a, b, DEFAULT);
    SectionMerges(a, b, env);
    OntoNothing(Section(b, DEFAULT));
    OntoNothing(Section(b, env));
    Merge.UnderliesIff(a, Resolve(b, env));
  }

  /** Two plain maps that become environment-aware together never agree. */
  lemma PlainIff(a: Tree, b: Tree, env: string)
    requires !IsAware(a, env) && !IsAware(b, env)
    ensures Merge.DeepMerge(Resolve(a, env), Resolve(b, env)) == Resolve(Merge.DeepMerge(a, b), env) <==>
            !IsAware(Merge.DeepMerge(a, b), env)
  {
    var both := Merge.DeepMerge(a, b);
    if IsAware(both, env) {
      assert DEFAULT in both && both[DEFAULT].Map?;
      ResolveIs(both, env);
      SectionLower(both, DEFAULT);
      SectionLower(both, env);
      HeightOfNothing();
      MergeLower(Section(both, DEFAULT), Section(both, env), Height(both) - 1);
    }
  }

  lemma HeightOfNothing()
    ensures Height(map[]) == 0
  {
  }

  /** When resolving two layers and merging gives what merging and resolving
      gives, read off the two layers. The first cases are those of layers that
      keep their sections apart; the last two decide the rest key by key. */
  ghost predicate ResolveCommutes(base: Tree, layer: Tree, env: string) {
    var both, below, above := Merge.DeepMerge(base, layer), Resolve(base, env), Resolve(layer, env);
    if IsAware(base, env) && IsAware(layer, env) && Sectioned(base, layer, env)
    then Agree(Section(base, env), Section(layer, DEFAULT), Section(layer, env))
    else if IsAware(base, env) && !IsAware(layer, env) && NoSections(layer, env)
    then IsAware(both, env) && Covered(layer, below)
    else if !IsAware(base, env) && IsAware(layer, env) && NoSections(base, env) then Merge.Underlies(base, above)
    else if !IsAware(base, env) && !IsAware(layer, env) then !IsAware(both, env)
    else if IsAware(both, env) then SameMerge(below, above, Section(both, DEFAULT), Section(both, env))
    else SameMerge(below, above, base, layer)
  }

  lemma ResolveCommutesIff(base: Tree, layer: Tree, env: string)
    ensures Merge.DeepMerge(Resolve(base, env), Resolve(layer, env)) == Resolve(Merge.DeepMerge(base, layer), env) <==>
            ResolveCommutes(base, layer, env)
  {
    hide IsAware, Sectioned, NoSections, Resolve, Section, Merge.DeepMerge, SameMerge, Agree, Covered,
         Merge.Underlies;
    var both, below, above := Merge.DeepMerge(base, layer), Resolve(base, env), Resolve(layer, env);
    if IsAware(base, env) && IsAware(layer, env) && Sectioned(base, layer, env) {
      SectionedIff(base, layer, env);
    } else if IsAware(base, env) && !IsAware(layer, env) && NoSections(layer, env) {
      FlatLayerIff(base, layer, env);
    } else if !IsAware(base, env) && IsAware(layer, env) && NoSections(base, env) {
      FlatBaseIff(base, layer, env);
    } else if !IsAware(base, env) && !IsAware(layer, env) {
      PlainIff(base, layer, env);
    } else if IsAware(both, env) {
      ResolveIs(both, env);
      SameMergeIff(below, above, Section(both, DEFAULT), Section(both, env));
    } else {
      PlainResolve(both, env);
      SameMergeIff(below, above, base, layer);
    }
  }

  lemma PlainResolve(t: Tree, env: string)
    requires !IsAware(t, env)
    ensures Resolve(t, env) == t
  {
  }

  /** The exact condition, for every state and every layer under a deep merger:
      Extend and then a full reload while nothing changed leave the same
      environment map if and only if, with an environment file in use, the
      contributions merge to the same, and otherwise resolving the layers commutes
      with merging them. */
  lemma ExtendThenReloadIff(o: Options, s: Sources, w: World, l: Loader, s': Sources, r: Sources)
    requires ExtendedThenReloaded(o, s, w, l, s', r)
    requires o.merger.rules == map[] && (o.merger.default == Merge.Deep || o.merger.default == Merge.Union)
    ensures r.env == s'.env <==>
            var layer := LayerOf(o, w, l);
            if UsesFiles(s.loaders) || l.envFile
            then SameMerge(s.env, Resolve(layer, o.env), Contributions(o, s), Resolved(o, l, layer))
            else ResolveCommutes(s.merged, layer, o.env)
  {
    ExtendThenReload(o, s, w, l, s', r);
    var layer, env, m := LayerOf(o, w, l), o.env, o.merger;
    var own := Resolve(layer, env);
    assert Cached(s) by { hide Build, Reload, Extend, Assemble, RecordAll; }
    hide *;
    Merge.AdvancedIsDeep(m, s.merged, layer);
    Merge.AdvancedIsDeep(m, s.env, own);
    if UsesFiles(s.loaders) || l.envFile {
      Merge.AdvancedIsDeep(m, Contributions(o, s), Resolved(o, l, layer));
      SameMergeIff(s.env, own, Contributions(o, s), Resolved(o, l, layer));
    } else {
      ResolveCommutesIff(s.merged, layer, env);
    }
  }

  /** Resolving a layer with sections always changes it. */
  lemma ResolveChanges(t: Tree, env: string)
    ensures Resolve(t, env) == t <==> !IsAware(t, env)
  {
    if IsAware(t, env) {
      ResolveIs(t, env);
      HeightOfNothing();
      SectionLower(t, DEFAULT);
      SectionLower(t, env);
      hide Height, Merge.DeepMerge;
      if Height(t) > 0 {
        MergeLower(Section(t, DEFAULT), Section(t, env), Height(t) - 1);
      } else {
        OntoNothing(map[]);
      }
    }
  }

  /** With a merger that replaces, only a sectioned environment file comes out
      different: Extend resolves it, and the reload takes it whole. */
  lemma ReplaceExtendIff(o: Options, s: Sources, w: World, l: Loader, s': Sources, r: Sources)
    requires ExtendedThenReloaded(o, s, w, l, s', r) && o.merger.rules == map[] && o.merger.default == Merge.Replace
    ensures r.env == s'.env <==> !(l.envFile && IsAware(LayerOf(o, w, l), o.env))
  {
    ExtendThenReload(o, s, w, l, s', r);
    var layer, env, m := LayerOf(o, w, l), o.env, o.merger;
    assert Cached(s) by { hide Build, Reload, Extend, Assemble, RecordAll; }
    assert Resolved(o, l, layer) == if l.envFile then layer else Resolve(layer, env);
    hide *;
    Merge.PlainStrategies(m, s.merged, layer);
    Merge.PlainStrategies(m, s.env, Resolve(layer, env));
    if UsesFiles(s.loaders) || l.envFile {
      Merge.PlainStrategies(m, Contributions(o, s), Resolved(o, l, layer));
    }
    ResolveChanges(layer, env);
  }
}
