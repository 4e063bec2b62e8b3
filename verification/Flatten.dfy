/** Flattening a tree to dotted keys and listing its keys
    (internal/dictutil/flatten.go, configmap/path.go). */
module Flatten {
  import opened Values
  import opened Paths

  /** The dotted names of the leaves of t, seen below prefix. */
  function Names(prefix: string, t: Tree): set<string>
    decreases Map(t), 0
  {
    set k, n | k in t && n in NamesAt(ChildPath(prefix, k), t[k]) :: n
  }

  function NamesAt(name: string, v: Value): set<string>
    decreases v, 1
  {
    if v.Map? then Names(name, v.entries) else {name}
  }

  ghost predicate IsLeaf(t: Tree, p: Path) { GetPath(t, p).Some? && !GetPath(t, p).value.Map? }

  /** Each name belongs to a leaf, and each leaf has its name listed. */
  lemma {:induction false} NamesAreLeaves(prefix: string, t: Tree, n: string)
    ensures n in Names(prefix, t) <==> exists p: Path :: IsLeaf(t, p) && PathOf(prefix, p) == n
    decreases Map(t)
  {
    if n in Names(prefix, t) {
      var k :| k in t && n in NamesAt(ChildPath(prefix, k), t[k]);
      if t[k].Map? {
        NamesAreLeaves(ChildPath(prefix, k), t[k].entries, n);
        var q: Path :| IsLeaf(t[k].entries, q) && PathOf(ChildPath(prefix, k), q) == n;
        assert ([k] + q)[1..] == q;
        assert IsLeaf(t, [k] + q) && PathOf(prefix, [k] + q) == n;
      } else {
        assert IsLeaf(t, [k]) && PathOf(prefix, [k]) == n;
      }
    }
    if p: Path :| IsLeaf(t, p) && PathOf(prefix, p) == n {
      var k := p[0];
      if |p| > 1 {
        NamesAreLeaves(ChildPath(prefix, k), t[k].entries, n);
        assert IsLeaf(t[k].entries, p[1..]);
      } else {
        assert PathOf(ChildPath(prefix, k), p[1..]) == ChildPath(prefix, k);
      }
      assert n in NamesAt(ChildPath(prefix, k), t[k]);
    }
  }

  /** An entry of the flat map comes from a leaf of that name. */
  ghost predicate From(prefix: string, t: Tree, n: string, v: Value) {
    exists p: Path :: PathOf(prefix, p) == n && IsLeaf(t, p) && GetPath(t, p).value == v
  }

  lemma FromChild(prefix: string, t: Tree, k: string, n: string, v: Value)
    requires k in t
    ensures t[k].Map? && From(ChildPath(prefix, k), t[k].entries, n, v) ==> From(prefix, t, n, v)
    ensures !t[k].Map? && n == ChildPath(prefix, k) && v == t[k] ==> From(prefix, t, n, v)
  {
    if t[k].Map? && From(ChildPath(prefix, k), t[k].entries, n, v) {
      var q: Path :| PathOf(ChildPath(prefix, k), q) == n && IsLeaf(t[k].entries, q) &&
          GetPath(t[k].entries, q).value == v;
      assert ([k] + q)[1..] == q;
      assert PathOf(prefix, [k] + q) == n && IsLeaf(t, [k] + q) && GetPath(t, [k] + q).value == v;
    }
    if !t[k].Map? && n == ChildPath(prefix, k) && v == t[k] {
      assert GetPath(t, [k]) == Some(t[k]);
      assert PathOf(prefix, [k]) == n && IsLeaf(t, [k]);
    }
  }

  class Flattener {
    var result: map<string, Value>

    constructor ()
      ensures result == map[]
    {
      result := map[];
    }

    /** flatten writes into the shared result map, in whatever order the map is
        visited; leaves that share a name overwrite each other. */
    method Flatten(prefix: string, data: Tree)
      modifies this
      ensures result.Keys == old(result).Keys + Names(prefix, data)
      ensures forall n :: n in Names(prefix, data) ==> From(prefix, data, n, result[n])
      ensures forall n :: n in old(result) && n !in Names(prefix, data) ==> result[n] == old(result)[n]
      decreases Map(data)
    {
      hide From;
      var todo := data.Keys;
      while todo != {}
        invariant todo <= data.Keys
        invariant forall n :: n in result <==>
                    n in old(result) ||
                    exists k :: k in data && k !in todo && n in NamesAt(ChildPath(prefix, k), data[k])
        invariant forall k, n :: k in data && k !in todo && n in NamesAt(ChildPath(prefix, k), data[k]) ==>
                  From(prefix, data, n, result[n])
        invariant forall n :: n in old(result) && (forall k :: k in data && k !in todo ==>
                  n !in NamesAt(ChildPath(prefix, k), data[k])) ==>
                    result[n] == old(result)[n]
        decreases todo
      {
        var k :| k in todo;
        ghost var before := result;
        if data[k].Map? {
          Flatten(ChildPath(prefix, k), data[k].entries);
        } else {
          result := result[ChildPath(prefix, k) := data[k]];
        }
        forall n | n in NamesAt(ChildPath(prefix, k), data[k])
          ensures n in result && From(prefix, data, n, result[n])
        {
          FromChild(prefix, data, k, n, result[n]);
        }
        assert forall n :: n in before && n !in NamesAt(ChildPath(prefix, k), data[k]) ==>
            n in result && result[n] == before[n];
        assert forall n :: n in result <==> n in before || n in NamesAt(ChildPath(prefix, k), data[k]);
        todo := todo - {k};
      }
    }
  }

  /** The keys are non-empty and dot-free, at every level. */
  ghost predicate Clean(t: Tree)
    decreases Map(t)
  {
    forall k :: k in t ==> Segment(k) && (t[k].Map? ==> Clean(t[k].entries))
  }

  ghost predicate NoEmptyMap(t: Tree)
    decreases Map(t)
  {
    forall k :: k in t && t[k].Map? ==> t[k].entries != map[] && NoEmptyMap(t[k].entries)
  }

  /** Flatten: the flat map holds exactly the leaves. */
  method FlattenTree(data: Tree) returns (flat: map<string, Value>)
    ensures Flat(data, flat)
  {
    var f := new Flattener();
    f.Flatten("", data);
    flat := f.result;
  }

  lemma {:induction false} CleanPath(t: Tree, p: Path)
    requires Clean(t) && GetPath(t, p).Some?
    ensures forall i :: 0 <= i < |p| ==> Segment(p[i])
    decreases |p|
  {
    if |p| > 1 {
      CleanPath(t[p[0]].entries, p[1..]);
    }
  }

  lemma {:induction false} NameIsJoin(prefix: string, p: Path)
    requires forall i :: 0 <= i < |p| ==> Segment(p[i])
    ensures PathOf(prefix, p) == if prefix == "" then Join(p) else prefix + "." + Join(p)
    decreases |p|
  {
    if |p| > 1 {
      NameIsJoin(ChildPath(prefix, p[0]), p[1..]);
      if prefix != "" {
        assert prefix + "." + p[0] + "." + Join(p[1..]) == prefix + "." + (p[0] + "." + Join(p[1..]));
      }
    }
  }

  /** In a clean tree a name parses back to the path of its leaf. */
  lemma NameParses(t: Tree, p: Path)
    requires Clean(t) && GetPath(t, p).Some?
    ensures Parse(PathOf("", p)) == Some(p)
  {
    CleanPath(t, p);
    NameIsJoin("", p);
    SplitOfJoin(p);
    assert Split("") == [""];
    assert Segment(p[0]);
  }

  function Tails(s: set<Path>, k: string): set<Path> { set p | p in s && |p| > 1 && p[0] == k :: p[1..] }

  /** The part of t that holds the leaves at the paths in s. */
  ghost function Restrict(t: Tree, s: set<Path>): Tree
    decreases Map(t)
  {
    map k | k in t && exists p :: p in s && p[0] == k ::
      if t[k].Map? then Map(Restrict(t[k].entries, Tails(s, k))) else t[k]
  }

  lemma TailsAdd(s: set<Path>, p: Path, k: string)
    ensures Tails(s + {p}, k) == if |p| > 1 && p[0] == k then Tails(s, k) + {p[1..]} else Tails(s, k)
  {
    forall q ensures q in Tails(s + {p}, k) <==> q in Tails(s, k) || (|p| > 1 && p[0] == k && q == p[1..]) {
      if q in Tails(s + {p}, k) {
        var r :| r in s + {p} && |r| > 1 && r[0] == k && q == r[1..];
        if r in s { assert r[1..] in Tails(s, k); }
      }
      if q in Tails(s, k) {
        var r :| r in s && |r| > 1 && r[0] == k && q == r[1..];
        assert r in s + {p};
      }
      if |p| > 1 && p[0] == k && q == p[1..] { assert p in s + {p}; }
    }
  }

  /** Writing one more leaf extends the part that has been rebuilt. */
  lemma {:induction false} SetRestricted(t: Tree, s: set<Path>, p: Path)
    requires IsLeaf(t, p)
    ensures SetPath(Restrict(t, s), p, GetPath(t, p).value) == Some(Restrict(t, s + {p}))
    decreases |p|
  {
    var u, u', k := Restrict(t, s), Restrict(t, s + {p}), p[0];
    assert p in s + {p};
    forall l | l in t
      ensures l in u' <==> l in u || l == k
      ensures l in u && l != k ==> u'[l] == u[l]
    {
      TailsAdd(s, p, l);
      if q :| q in s + {p} && q[0] == l && l != k { assert q in s; }
      if q :| q in s && q[0] == l { assert q in s + {p}; }
    }
    TailsAdd(s, p, k);
    if |p| > 1 {
      var m := t[k].entries;
      SetRestricted(m, Tails(s, k), p[1..]);
      if k !in u {
        assert Tails(s, k) == {};
        assert Restrict(m, {}) == map[];
      }
      assert Child(u, k) == Some(Restrict(m, Tails(s, k)));
      assert u'[k] == Map(Restrict(m, Tails(s, k) + {p[1..]}));
    } else {
      assert u'[k] == t[k];
    }
    assert u' == u[k := u'[k]];
  }

  lemma {:induction false} LeafBelow(t: Tree)
    requires NoEmptyMap(t) && t != map[]
    ensures exists p: Path :: IsLeaf(t, p)
    decreases Map(t)
  {
    var k :| k in t;
    if t[k].Map? {
      LeafBelow(t[k].entries);
      var q: Path :| IsLeaf(t[k].entries, q);
      assert ([k] + q)[1..] == q;
      assert IsLeaf(t, [k] + q);
    } else {
      assert IsLeaf(t, [k]);
    }
  }

  lemma {:induction false} RestrictAll(t: Tree, s: set<Path>)
    requires NoEmptyMap(t) && forall p: Path :: p in s <==> IsLeaf(t, p)
    ensures Restrict(t, s) == t
    decreases Map(t)
  {
    forall k | k in t
      ensures exists p :: p in s && p[0] == k
      ensures t[k].Map? ==> Restrict(t[k].entries, Tails(s, k)) == t[k].entries
    {
      if t[k].Map? {
        LeafBelow(t[k].entries);
        var q: Path :| IsLeaf(t[k].entries, q);
        assert ([k] + q)[1..] == q;
        assert IsLeaf(t, [k] + q);
        forall q: Path ensures q in Tails(s, k) <==> IsLeaf(t[k].entries, q) {
          assert ([k] + q)[1..] == q;
          assert IsLeaf(t, [k] + q) <==> IsLeaf(t[k].entries, q);
        }
        RestrictAll(t[k].entries, Tails(s, k));
      } else {
        assert IsLeaf(t, [k]);
      }
    }
  }

  /** Set for each key in turn, with the value the flat map has for it. */
  function Replay(t: Tree, flat: map<string, Value>, keys: seq<string>): Option<Tree>
    requires forall k :: k in keys ==> k in flat
    decreases |keys|
  {
    if keys == [] then Some(t)
    else
      assert keys[0] in keys;
      var p := Parse(keys[0]);
      if p.None? then None
      else match SetPath(t, p.value, flat[keys[0]])
        case None => None
        case Some(t') => Replay(t', flat, keys[1..])
  }

  /** The paths named by keys. */
  ghost predicate Named(keys: seq<string>, s: set<Path>) {
    forall p: Path :: p in s <==> exists i :: 0 <= i < |keys| && Parse(keys[i]) == Some(p)
  }

  /** The flat map holds exactly the leaves of t under their names. */
  ghost predicate Flat(t: Tree, flat: map<string, Value>) {
    flat.Keys == Names("", t) && forall n :: n in flat ==> From("", t, n, flat[n])
  }

  lemma FlatEntry(t: Tree, flat: map<string, Value>, n: string) returns (p: Path)
    requires Clean(t) && Flat(t, flat) && n in flat
    ensures Parse(n) == Some(p) && IsLeaf(t, p) && GetPath(t, p).value == flat[n]
  {
    assert From("", t, n, flat[n]);
    p :| PathOf("", p) == n && IsLeaf(t, p) && GetPath(t, p).value == flat[n];
    NameParses(t, p);
  }

  lemma {:induction false} ReplayRestricted(t: Tree, flat: map<string, Value>, done: set<Path>, keys: seq<string>)
    returns (s: set<Path>)
    requires Clean(t) && Flat(t, flat) && forall k :: k in keys ==> k in flat
    ensures Replay(Restrict(t, done), flat, keys) == Some(Restrict(t, s))
    ensures forall p: Path :: p in s <==> p in done || exists k :: k in keys && Parse(k) == Some(p)
    decreases |keys|
  {
    if keys == [] {
      s := done;
    } else {
      assert keys[0] in keys;
      var p := FlatEntry(t, flat, keys[0]);
      SetRestricted(t, done, p);
      s := ReplayRestricted(t, flat, done + {p}, keys[1..]);
      assert keys == [keys[0]] + keys[1..];
    }
  }

  /** Flatten loses nothing: writing the flat entries back through Set, in any
      order, rebuilds the tree. */
  lemma FlattenRoundTrip(t: Tree, flat: map<string, Value>, keys: seq<string>)
    requires Clean(t) && NoEmptyMap(t) && Flat(t, flat)
    requires forall k :: k in keys <==> k in flat
    ensures Replay(map[], flat, keys) == Some(t)
  {
    assert Restrict(t, {}) == map[];
    var s := ReplayRestricted(t, flat, {}, keys);
    forall p: Path ensures p in s <==> IsLeaf(t, p) {
      if p in s {
        var k :| k in keys && Parse(k) == Some(p);
        var q := FlatEntry(t, flat, k);
      }
      if IsLeaf(t, p) {
        NamesAreLeaves("", t, PathOf("", p));
        NameParses(t, p);
      }
    }
    RestrictAll(t, s);
  }

  /** sort.Strings; equal strings are kept. */
  function Insert(x: string, s: seq<string>): seq<string> {
    if s == [] || Less(x, s[0]) then [x] + s else [s[0]] + Insert(x, s[1..])
  }

  function SortStrings(s: seq<string>): seq<string> {
    if s == [] then [] else Insert(s[0], SortStrings(s[1..]))
  }

  ghost predicate Ordered(s: seq<string>) {
    forall i, j :: 0 <= i < j < |s| ==> s[i] == s[j] || Less(s[i], s[j])
  }

  lemma {:induction false} InsertKeeps(x: string, s: seq<string>)
    ensures multiset(Insert(x, s)) == multiset(s) + multiset{x}
  {
    hide Less;
    if s != [] {
      assert s == [s[0]] + s[1..];
      InsertKeeps(x, s[1..]);
    }
  }

  lemma BeforeAll(x: string, s: seq<string>)
    requires Ordered(s) && s != [] && (x == s[0] || Less(x, s[0]))
    ensures Ordered([x] + s)
  {
    hide Less;
    forall j | 0 <= j < |s| ensures x == s[j] || Less(x, s[j]) {
      if j > 0 && s[0] != s[j] && x != s[0] { LessTransitive(x, s[0], s[j]); }
    }
  }

  lemma {:induction false} InsertOrdered(x: string, s: seq<string>)
    requires Ordered(s)
    ensures Ordered(Insert(x, s)) && multiset(Insert(x, s)) == multiset(s) + multiset{x}
  {
    InsertKeeps(x, s);
    hide Less;
    if s != [] {
      LessTotal(x, s[0]);
      if Less(x, s[0]) {
        BeforeAll(x, s);
      } else {
        var rest := Insert(x, s[1..]);
        InsertOrdered(x, s[1..]);
        forall j | 0 <= j < |rest| ensures s[0] == rest[j] || Less(s[0], rest[j]) {
          assert rest[j] in multiset(rest);
          assert rest[j] == x || rest[j] in s[1..];
        }
        if rest != [] {
          BeforeAll(s[0], rest);
        }
      }
    }
  }

  lemma {:induction false} SortOrdered(s: seq<string>)
    ensures Ordered(SortStrings(s)) && multiset(SortStrings(s)) == multiset(s)
  {
    if s != [] {
      SortOrdered(s[1..]);
      InsertOrdered(s[0], SortStrings(s[1..]));
      assert s == [s[0]] + s[1..];
    }
  }

  ghost predicate Distinct(s: seq<string>) { forall x :: multiset(s)[x] <= 1 }

  lemma {:induction false} NamesStart(name: string, v: Value, n: string)
    requires n in NamesAt(name, v)
    ensures name <= n && (n == name || name == "" || n[|name|] == '.')
    decreases v
  {
    if v.Map? {
      var k :| k in v.entries && n in NamesAt(ChildPath(name, k), v.entries[k]);
      NamesStart(ChildPath(name, k), v.entries[k], n);
      if name != "" {
        assert name + "." <= ChildPath(name, k) <= n;
        assert n[|name|] == (name + ".")[|name|];
      }
    }
  }

  /** Different keys of one clean map lead to different names. */
  lemma NamesApart(prefix: string, t: Tree, k: string, l: string, n: string)
    requires Clean(t) && k in t && l in t
    requires n in NamesAt(ChildPath(prefix, k), t[k]) && n in NamesAt(ChildPath(prefix, l), t[l])
    ensures k == l
  {
    NamesStart(ChildPath(prefix, k), t[k], n);
    NamesStart(ChildPath(prefix, l), t[l], n);
    var base := if prefix == "" then "" else prefix + ".";
    assert ChildPath(prefix, k) == base + k && ChildPath(prefix, l) == base + l;
    var rest := n[|base|..];
    assert k == rest[..|k|] && l == rest[..|l|];
    assert |k| < |rest| ==> rest[|k|] == '.';
    assert |l| < |rest| ==> rest[|l|] == '.';
    assert forall i :: 0 <= i < |k| ==> k[i] != '.';
    assert forall i :: 0 <= i < |l| ==> l[i] != '.';
  }

  /** collectKeys appends to the shared list while it recurses; in a clean tree
      it appends no name twice. */
  method CollectKeys(prefix: string, data: Tree, all: seq<string>) returns (r: seq<string>)
    ensures forall n :: n in r <==> n in all || n in Names(prefix, data)
    ensures Clean(data) && Distinct(all) && (forall n :: n in all ==> n !in Names(prefix, data)) ==> Distinct(r)
    decreases Map(data)
  {
    r := all;
    ghost var apart := Clean(data) && Distinct(all) && forall n :: n in all ==> n !in Names(prefix, data);
    var todo := data.Keys;
    while todo != {}
      invariant todo <= data.Keys
      invariant forall n :: n in r <==>
                  n in all || exists k :: k in data && k !in todo && n in NamesAt(ChildPath(prefix, k), data[k])
      invariant apart ==> Distinct(r)
      decreases todo
    {
      var k :| k in todo;
      ghost var name, before := ChildPath(prefix, k), r;
      if apart {
        forall n | n in r ensures n !in NamesAt(name, data[k]) {
          if n in NamesAt(name, data[k]) {
            assert n in Names(prefix, data);
            var l :| l in data && l !in todo && n in NamesAt(ChildPath(prefix, l), data[l]);
            NamesApart(prefix, data, k, l, n);
          }
        }
      }
      if data[k].Map? {
        r := CollectKeys(ChildPath(prefix, k), data[k].entries, r);
      } else {
        r := r + [ChildPath(prefix, k)];
        assert apart ==> Distinct(r) by {
          assert multiset(r) == multiset(before) + multiset{name};
          assert name in NamesAt(name, data[k]);
          assert apart ==> name !in multiset(before);
        }
      }
      todo := todo - {k};
    }
  }

  lemma FilterDistinct(all: seq<string>, kept: seq<string>)
    requires Distinct(all) && multiset(kept) <= multiset(all)
    ensures Distinct(kept)
  {
  }

  lemma Repeated(s: seq<string>, i: nat, j: nat)
    requires i < j < |s|
    ensures s[i] == s[j] ==> multiset(s)[s[i]] >= 2
  {
    assert s == s[..j] + s[j..];
    assert s[..j][i] == s[i] && s[j..][0] == s[j];
    assert multiset(s) == multiset(s[..j]) + multiset(s[j..]);
  }

  lemma OrderedDistinct(s: seq<string>)
    requires Ordered(s) && Distinct(s)
    ensures Sorted(s)
  {
    forall i, j | 0 <= i < j < |s| ensures Less(s[i], s[j]) {
      Repeated(s, i, j);
    }
  }

  /** The keys strictly below root. */
  method Filter(all: seq<string>, root: string) returns (filtered: seq<string>)
    ensures forall n :: n in filtered <==> n in all && Below(root, n)
    ensures multiset(filtered) <= multiset(all)
  {
    filtered := [];
    for i := 0 to |all|
      invariant forall n :: n in filtered <==> n in all[..i] && Below(root, n)
      invariant multiset(filtered) <= multiset(all[..i])
    {
      assert all[..i + 1] == all[..i] + [all[i]];
      if Below(root, all[i]) {
        filtered := filtered + [all[i]];
      }
    }
    assert all[..|all|] == all;
  }

  lemma SortKeeps(all: seq<string>)
    ensures Ordered(SortStrings(all)) && multiset(SortStrings(all)) == multiset(all)
    ensures forall n :: n in SortStrings(all) <==> n in all
  {
    hide SortStrings, Ordered;
    SortOrdered(all);
    assert forall n :: n in multiset(all) <==> n in all;
    assert forall n :: n in multiset(SortStrings(all)) <==> n in SortStrings(all);
  }

  /** Keys: the dotted names in order; with a prefix, those strictly below it. */
  method Keys(data: Tree, prefix: string) returns (r: seq<string>)
    ensures Ordered(r)
    ensures Clean(data) ==> Sorted(r)
    ensures prefix == "" ==> forall n :: n in r <==> n in Names("", data)
    ensures prefix != "" && Parse(TrimDot(prefix)).None? ==> r == []
    ensures prefix != "" && Parse(TrimDot(prefix)).Some? ==>
              forall n :: n in r <==> n in Names("", data) && Below(TrimDot(prefix), n)
  {
    hide Names, Below, Clean, TrimDot, SortStrings, Distinct, Split, Join;
    NoneTwice();
    var all := CollectKeys("", data, []);
    ghost var collected := all;
    if prefix != "" {
      var parts := Parse(TrimDot(prefix));
      if parts.None? {
        return [];
      }
      JoinOfSplit(TrimDot(prefix));
      all := Filter(all, Join(parts.value));
    }
    SortKeeps(all);
    r := SortStrings(all);
    if Clean(data) {
      FilterDistinct(collected, all);
      FilterDistinct(all, r);
      OrderedDistinct(r);
    }
  }

  lemma NoneTwice()
    ensures Distinct([])
  {
  }

  /** strings.TrimSuffix(s, "."). */
  function TrimDot(s: string): string { if s != "" && s[|s| - 1] == '.' then s[..|s| - 1] else s }
}
