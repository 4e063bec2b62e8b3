/** Which paths are sensitive (config_inspect.go, config_sensitive.go), what the
    redacted dump shows (config_redacted.go), and why the dump does not depend
    on any secret. */
module Redaction {
  import opened Values
  import opened Paths
  import opened SecretRef
  import opened Admission
  import opened Materialize

  const MARKER := "[REDACTED: secret-backed value]"

  /** Paths of the strings that hold a reference. Elements of a list share the
      path of the list. */
  function Classify(path: string, v: Value): set<string>
    decreases v
  {
    match v
    case Map(m) => set k, p | k in m && p in Classify(ChildPath(path, k), m[k]) :: p
    case List(items) => set i, p | 0 <= i < |items| && p in Classify(path, items[i]) :: p
    case Text(t) => if path != "" && Contains(t) then {path} else {}
    case _ => {}
  }

  function SensitivePaths(raw: Tree, declared: set<string>): set<string> { Classify("", Map(raw)) + declared }

  /** valuePathIsSensitive: at or below a sensitive path. */
  predicate Sensitive(path: string, paths: set<string>) {
    exists s :: s in paths && (path == s || Below(s, path))
  }

  /** In terms of segments: a sensitive path is a prefix of this one. */
  lemma SensitiveIff(path: string, paths: set<string>)
    ensures Sensitive(path, paths) <==> exists s :: s in paths && Split(s) <= Split(path)
  {
    forall s | s in paths ensures path == s || Below(s, path) <==> Split(s) <= Split(path) {
      AtOrBelow(s, path);
    }
  }

  function Redact(path: string, v: Value, paths: set<string>): Value
    decreases v
  {
    if path != "" && Sensitive(path, paths) then Text(MARKER)
    else match v
      case Map(m) => Map(map k | k in m :: Redact(ChildPath(path, k), m[k], paths))
      case List(items) => List(seq(|items|, i requires 0 <= i < |items| => Redact(path, items[i], paths)))
      case _ => v
  }

  /** collectSecretReferenceKeys adds to the caller's set while it recurses. */
  method Collect(path: string, v: Value, found: set<string>) returns (r: set<string>)
    ensures r == found + Classify(path, v)
    decreases v
  {
    r := found;
    match v {
      case Map(m) =>
        var todo := m.Keys;
        while todo != {}
          invariant todo <= m.Keys
          invariant forall p :: p in r <==>
                      p in found || exists k :: k in m && k !in todo && p in Classify(ChildPath(path, k), m[k])
          decreases todo
        {
          var k :| k in todo;
          r := Collect(ChildPath(path, k), m[k], r);
          todo := todo - {k};
        }
        assert forall p :: p in Classify(path, v) <==> exists k :: k in m && p in Classify(ChildPath(path, k), m[k]);
      case List(items) =>
        for i := 0 to |items|
          invariant forall p :: p in r <==> p in found || exists j :: 0 <= j < i && p in Classify(path, items[j])
        {
          r := Collect(path, items[i], r);
        }
        assert forall p :: p in Classify(path, v) <==> exists j :: 0 <= j < |items| && p in Classify(path, items[j]);
      case Text(t) =>
        if path != "" && Contains(t) {
          r := r + {path};
        }
      case _ =>
        assert Classify(path, v) == {};
    }
  }

  method IsSensitive(path: string, paths: set<string>) returns (r: bool)
    ensures r == Sensitive(path, paths)
  {
    var todo := paths;
    while todo != {}
      invariant todo <= paths
      invariant forall s :: s in paths && s !in todo ==> path != s && !Below(s, path)
      decreases todo
    {
      var s :| s in todo;
      if path == s || Below(s, path) {
        return true;
      }
      todo := todo - {s};
    }
    return false;
  }

  /** redactValue builds fresh maps and lists while it recurses. */
  method RedactValue(path: string, v: Value, paths: set<string>) returns (r: Value)
    ensures r == Redact(path, v, paths)
    decreases v
  {
    hide Sensitive, ChildPath;
    if path != "" {
      var s := IsSensitive(path, paths);
      if s {
        return Text(MARKER);
      }
    }
    match v {
      case Map(m) =>
        var out: Tree := map[];
        var todo := m.Keys;
        while todo != {}
          invariant todo <= m.Keys && out.Keys == m.Keys - todo
          invariant forall k :: k in out ==> out[k] == Redact(ChildPath(path, k), m[k], paths)
          decreases todo
        {
          var k :| k in todo;
          var x := RedactValue(ChildPath(path, k), m[k], paths);
          out := out[k := x];
          todo := todo - {k};
        }
        return Map(out);
      case List(items) =>
        var out := [];
        for i := 0 to |items|
          invariant |out| == i && forall j :: 0 <= j < i ==> out[j] == Redact(path, items[j], paths)
        {
          var x := RedactValue(path, items[i], paths);
          out := out + [x];
        }
        return List(out);
      case _ =>
        return v;
    }
  }

  /** A reference that sits at the empty path, reached through empty keys only. */
  ghost predicate Exposed(path: string, v: Value)
    decreases v
  {
    match v
    case Map(m) => exists k :: k in m && Exposed(ChildPath(path, k), m[k])
    case List(items) => exists i :: 0 <= i < |items| && Exposed(path, items[i])
    case Text(t) => path == "" && Contains(t)
    case _ => false
  }

  lemma SensitiveItself(path: string, paths: set<string>)
    ensures path in paths ==> Sensitive(path, paths)
  {
  }

  lemma TextAgrees(path: string, t: string, a: Store, b: Store, paths: set<string>)
    requires !Exposed(path, Text(t)) && Classify(path, Text(t)) <= paths
    ensures Redact(path, Filled(Text(t), a), paths) == Redact(path, Filled(Text(t), b), paths)
  {
    hide FillText, Contains, ReadsAll;
    if Contains(t) {
      SensitiveItself(path, paths);
    } else {
      PlainText(t, a);
      PlainText(t, b);
    }
  }

  lemma ListAgrees(path: string, items: seq<Value>, a: Store, b: Store, paths: set<string>)
    requires forall i :: 0 <= i < |items| ==>
               Redact(path, Filled(items[i], a), paths) == Redact(path, Filled(items[i], b), paths)
    ensures Redact(path, Filled(List(items), a), paths) == Redact(path, Filled(List(items), b), paths)
  {
    hide FillText, Sensitive;
    var x, y := Filled(List(items), a), Filled(List(items), b);
    assert |x.items| == |y.items| == |items|;
    assert forall i :: 0 <= i < |items| ==> x.items[i] == Filled(items[i], a) && y.items[i] == Filled(items[i], b);
  }

  lemma MapAgrees(path: string, m: Tree, a: Store, b: Store, paths: set<string>)
    requires forall k :: k in m ==>
               Redact(ChildPath(path, k), Filled(m[k], a), paths) == Redact(ChildPath(path, k), Filled(m[k], b), paths)
    ensures Redact(path, Filled(Map(m), a), paths) == Redact(path, Filled(Map(m), b), paths)
  {
    hide FillText, Sensitive, ChildPath;
    var x, y := Filled(Map(m), a), Filled(Map(m), b);
    assert forall k :: k in m ==> x.entries[k] == Filled(m[k], a) && y.entries[k] == Filled(m[k], b);
    hide Filled;
    SameRedaction(path, x.entries, y.entries, paths);
  }

  lemma SameRedaction(path: string, x: Tree, y: Tree, paths: set<string>)
    requires x.Keys == y.Keys
    requires forall k :: k in x ==> Redact(ChildPath(path, k), x[k], paths) == Redact(ChildPath(path, k), y[k], paths)
    ensures Redact(path, Map(x), paths) == Redact(path, Map(y), paths)
  {
    hide Sensitive, ChildPath;
  }

  lemma ExposedInside(path: string, v: Value)
    requires !Exposed(path, v)
    ensures v.List? ==> forall i :: 0 <= i < |v.items| ==>
              !Exposed(path, v.items[i]) && Classify(path, v.items[i]) <= Classify(path, v)
    ensures v.Map? ==> forall k :: k in v.entries ==>
              && !Exposed(ChildPath(path, k), v.entries[k])
              && Classify(ChildPath(path, k), v.entries[k]) <= Classify(path, v)
  {
    hide Contains, ChildPath;
  }

  lemma {:induction false} RedactAgrees(path: string, v: Value, a: Store, b: Store, paths: set<string>)
    requires !Exposed(path, v) && Classify(path, v) <= paths
    ensures Redact(path, Filled(v, a), paths) == Redact(path, Filled(v, b), paths)
    decreases v
  {
    hide Exposed, Classify, Redact;
    ExposedInside(path, v);
    match v {
      case Text(t) => TextAgrees(path, t, a, b, paths);
      case List(items) =>
        hide Filled;
        forall i | 0 <= i < |items|
          ensures Redact(path, Filled(items[i], a), paths) == Redact(path, Filled(items[i], b), paths)
        {
          RedactAgrees(path, items[i], a, b, paths);
        }
        ListAgrees(path, items, a, b, paths);
      case Map(m) =>
        hide Filled;
        forall k | k in m
          ensures Redact(ChildPath(path, k), Filled(m[k], a), paths) ==
                  Redact(ChildPath(path, k), Filled(m[k], b), paths)
        {
          RedactAgrees(ChildPath(path, k), m[k], a, b, paths);
        }
        MapAgrees(path, m, a, b, paths);
      case _ =>
    }
  }

  /** The redacted dump of a materialized tree is the same for every two stores
      that can materialize it. */
  ghost predicate NonInterfering(raw: Tree, declared: set<string>) {
    forall a: Store, b: Store :: Resolvable(Map(raw), a) && Resolvable(Map(raw), b) ==>
      Redact("", Filled(Map(raw), a), SensitivePaths(raw, declared)) ==
      Redact("", Filled(Map(raw), b), SensitivePaths(raw, declared))
  }

  function Constant(s: string): Store { (r: Reference) => Some(s) }

  lemma {:induction false} ConstantResolves(v: Value, s: string)
    ensures Resolvable(v, Constant(s))
    decreases v
  {
    match v {
      case List(items) =>
        forall i | 0 <= i < |items| ensures Resolvable(items[i], Constant(s)) {
          ConstantResolves(items[i], s);
        }
      case Map(m) =>
        forall k | k in m ensures Resolvable(m[k], Constant(s)) {
          ConstantResolves(m[k], s);
        }
      case _ =>
    }
  }

  lemma {:induction false} BuiltStarts(s: string, hits: seq<Hit>, texts: seq<string>)
    requires 0 < |texts| <= |hits| && Within(hits, s)
    ensures s[..hits[0].start] + texts[0] <= Built(s, hits, texts)
    decreases |texts|
  {
    var n := |texts| - 1;
    if n > 0 {
      assert texts[..n][0] == texts[0];
      BuiltStarts(s, hits, texts[..n]);
    } else {
      assert s[0..hits[0].start] == s[..hits[0].start];
    }
  }

  lemma SpliceStarts(s: string, hits: seq<Hit>, texts: seq<string>)
    requires |hits| == |texts| && Within(hits, s)
    ensures Built(s, hits, texts) <= Splice(s, hits, texts)
  {
    hide Built, Within;
  }

  lemma FetchedConstant(hits: seq<Hit>, x: string)
    requires hits != []
    ensures Fetched(hits, Constant(x))[0] == x
  {
    var store := Constant(x);
    assert store(hits[0].ref) == Some(x);
  }

  lemma FillParts(t: string, x: string)
    requires Contains(t)
    ensures var hits := Find(t, 0);
            && hits != [] && Within(hits, t)
            && Fetched(hits, Constant(x))[0] == x
            && Built(t, hits, Fetched(hits, Constant(x))) <= FillText(t, Constant(x))
  {
    hide Find, Built, Within, Splice, Fetched;
    FindWithin(t);
    FetchedConstant(Find(t, 0), x);
    SpliceStarts(t, Find(t, 0), Fetched(Find(t, 0), Constant(x)));
  }

  lemma PrefixThrough(a: string, b: string, c: string)
    requires a <= b <= c
    ensures a <= c
  {
  }

  lemma FillStarts(t: string, x: string)
    requires Contains(t)
    ensures var hits := Find(t, 0);
            hits != [] && hits[0].start <= |t| && t[..hits[0].start] + x <= FillText(t, Constant(x))
  {
    hide *;
    FillParts(t, x);
    var hits := Find(t, 0);
    var texts := Fetched(hits, Constant(x));
    HitInside(t, hits, 0);
    BuiltStarts(t, hits, texts);
    PrefixThrough(t[..hits[0].start] + x, Built(t, hits, texts), FillText(t, Constant(x)));
  }

  /** The text after the fill, where the first reference stood. */
  lemma ConstantShows(t: string, x: string)
    requires Contains(t) && x != ""
    ensures Find(t, 0) != [] && var n := Find(t, 0)[0].start;
            n <= |t| && n < |FillText(t, Constant(x))| && FillText(t, Constant(x))[n] == x[0]
  {
    hide *;
    FillStarts(t, x);
    var n := Find(t, 0)[0].start;
    assert (t[..n] + x)[n] == x[0];
  }

  lemma ConstantsDiffer(t: string)
    requires Contains(t)
    ensures FillText(t, Constant("a")) != FillText(t, Constant("b"))
  {
    hide *;
    ConstantShows(t, "a");
    ConstantShows(t, "b");
    assert "a"[0] == 'a' && "b"[0] == 'b';
  }

  lemma {:induction false} ExposedShows(v: Value, paths: set<string>)
    requires Exposed("", v)
    ensures Redact("", Filled(v, Constant("a")), paths) != Redact("", Filled(v, Constant("b")), paths)
    decreases v
  {
    var a, b := Constant("a"), Constant("b");
    match v {
      case Text(t) =>
        ConstantsDiffer(t);
      case List(items) =>
        var i :| 0 <= i < |items| && Exposed("", items[i]);
        ExposedShows(items[i], paths);
        assert Redact("", Filled(v, a), paths).items[i] != Redact("", Filled(v, b), paths).items[i];
      case Map(m) =>
        var k :| k in m && Exposed(ChildPath("", k), m[k]);
        ExposedPath(k, m[k]);
        ExposedShows(m[k], paths);
        assert Redact("", Filled(v, a), paths).entries[k] != Redact("", Filled(v, b), paths).entries[k];
    }
  }

  lemma {:induction false} ExposedPath(path: string, v: Value)
    requires Exposed(path, v)
    ensures path == ""
    decreases v
  {
    match v {
      case List(items) =>
        var i :| 0 <= i < |items| && Exposed(path, items[i]);
        ExposedPath(path, items[i]);
      case Map(m) =>
        var k :| k in m && Exposed(ChildPath(path, k), m[k]);
        ExposedPath(ChildPath(path, k), m[k]);
      case Text(t) =>
    }
  }

  /** Redaction hides every secret exactly when no reference sits at the empty
      path; a configuration with non-empty keys always qualifies. */
  lemma RedactionIff(raw: Tree, declared: set<string>)
    ensures NonInterfering(raw, declared) <==> !Exposed("", Map(raw))
    ensures "" !in raw ==> !Exposed("", Map(raw))
  {
    var paths := SensitivePaths(raw, declared);
    if !Exposed("", Map(raw)) {
      forall a: Store, b: Store | Resolvable(Map(raw), a) && Resolvable(Map(raw), b)
        ensures Redact("", Filled(Map(raw), a), paths) == Redact("", Filled(Map(raw), b), paths)
      {
        RedactAgrees("", Map(raw), a, b, paths);
      }
    } else {
      ExposedShows(Map(raw), paths);
      ConstantResolves(Map(raw), "a");
      ConstantResolves(Map(raw), "b");
    }
    if "" !in raw && Exposed("", Map(raw)) {
      var k :| k in raw && Exposed(ChildPath("", k), raw[k]);
      ExposedPath(k, raw[k]);
    }
  }

  lemma SensitiveBelow(path: string, key: string, paths: set<string>)
    requires path != "" && Sensitive(path, paths)
    ensures Sensitive(ChildPath(path, key), paths)
  {
    var s :| s in paths && (path == s || Below(s, path));
    assert Below(s, ChildPath(path, key)) by {
      assert path + "." <= path + "." + key;
      if Below(s, path) {
        assert s + "." <= path <= path + "." + key;
      }
    }
  }

  lemma {:induction false} SensitiveDownward(path: string, keys: seq<string>, paths: set<string>)
    requires path != "" && Sensitive(path, paths)
    ensures Sensitive(PathOf(path, keys), paths)
    decreases |keys|
  {
    if keys != [] {
      SensitiveBelow(path, keys[0], paths);
      SensitiveDownward(ChildPath(path, keys[0]), keys[1..], paths);
    }
  }

  /** No value inside v lies at or below a sensitive path. */
  ghost predicate Plain(path: string, v: Value, paths: set<string>)
    decreases v
  {
    (path == "" || !Sensitive(path, paths)) &&
    match v
    case Map(m) => forall k :: k in m ==> Plain(ChildPath(path, k), m[k], paths)
    case List(items) => forall i :: 0 <= i < |items| ==> Plain(path, items[i], paths)
    case _ => true
  }

  /** Such a value is shown as it is, lists and maps included. */
  lemma {:induction false} PlainUnchanged(path: string, v: Value, paths: set<string>)
    requires Plain(path, v, paths)
    ensures Redact(path, v, paths) == v
    decreases v
  {
    hide Sensitive;
    match v {
      case Map(m) =>
        forall k | k in m ensures Redact(ChildPath(path, k), m[k], paths) == m[k] {
          PlainUnchanged(ChildPath(path, k), m[k], paths);
        }
        assert Redact(path, v, paths).entries == m;
      case List(items) =>
        forall i | 0 <= i < |items| ensures Redact(path, items[i], paths) == items[i] {
          PlainUnchanged(path, items[i], paths);
        }
        assert Redact(path, v, paths).items == items;
      case _ =>
    }
  }

  /** Redaction touches nothing else: at a path that is not at or below a
      sensitive one the dump has the redaction of the value found there, and a
      value with nothing sensitive inside, such as any scalar, is shown unchanged. */
  lemma {:induction false} RedactKeeps(path: string, t: Tree, keys: Path, paths: set<string>)
    requires path == "" || !Sensitive(path, paths)
    requires GetPath(t, keys).Some? && !Sensitive(PathOf(path, keys), paths)
    ensures Redact(path, Map(t), paths).Map?
    ensures GetPath(Redact(path, Map(t), paths).entries, keys) ==
            Some(Redact(PathOf(path, keys), GetPath(t, keys).value, paths))
    ensures Plain(PathOf(path, keys), GetPath(t, keys).value, paths) ==>
              GetPath(Redact(path, Map(t), paths).entries, keys) == GetPath(t, keys)
    ensures !GetPath(t, keys).value.Map? && !GetPath(t, keys).value.List? ==>
              Plain(PathOf(path, keys), GetPath(t, keys).value, paths)
    decreases |keys|
  {
    var child := ChildPath(path, keys[0]);
    if Plain(PathOf(path, keys), GetPath(t, keys).value, paths) {
      PlainUnchanged(PathOf(path, keys), GetPath(t, keys).value, paths);
    }
    if |keys| > 1 {
      if child != "" && Sensitive(child, paths) {
        SensitiveDownward(child, keys[1..], paths);
      }
      RedactKeeps(child, t[keys[0]].entries, keys[1..], paths);
    } else {
      assert PathOf(path, keys) == child;
    }
  }

  /** One step of the dump. */
  lemma RedactStep(path: string, t: Tree, k: string, paths: set<string>)
    requires (path == "" || !Sensitive(path, paths)) && k in t
    ensures var child, r := ChildPath(path, k), Redact(path, Map(t), paths);
            && r.Map? && k in r.entries && r.entries[k] == Redact(child, t[k], paths)
            && (child != "" && Sensitive(child, paths) ==> r.entries[k] == Text(MARKER))
  {
    hide Sensitive, ChildPath;
  }

  lemma FirstKey(path: string, t: Tree, keys: Path)
    ensures PathOf(path, keys[..1]) == ChildPath(path, keys[0]) && (|keys| == 1 ==> keys[..1] == keys)
    ensures GetPath(t, keys[..1]) == if keys[0] in t then Some(t[keys[0]]) else None
  {
    assert keys[..1][1..] == [];
  }

  lemma NextKey(path: string, t: Tree, keys: Path, n: nat)
    requires 0 < n < |keys| && keys[0] in t && t[keys[0]].Map?
    ensures PathOf(path, keys[..n + 1]) == PathOf(ChildPath(path, keys[0]), keys[1..][..n])
    ensures GetPath(t, keys[..n + 1]) == GetPath(t[keys[0]].entries, keys[1..][..n])
  {
    assert keys[..n + 1][1..] == keys[1..][..n];
  }

  /** At a path at or below a sensitive one the dump stops at the marker. */
  lemma {:induction false} RedactHides(path: string, t: Tree, keys: Path, paths: set<string>) returns (n: nat)
    requires (path == "" || !Sensitive(path, paths)) && GetPath(t, keys).Some?
    requires PathOf(path, keys) != "" && Sensitive(PathOf(path, keys), paths)
    ensures Redact(path, Map(t), paths).Map? && 0 < n <= |keys|
    ensures GetPath(Redact(path, Map(t), paths).entries, keys[..n]) == Some(Text(MARKER))
    ensures Sensitive(PathOf(path, keys[..n]), paths)
    decreases |keys|
  {
    hide *;
    var child, r := ChildPath(path, keys[0]), Redact(path, Map(t), paths);
    IntoKey(path, t, keys);
    FirstKey(path, t, keys);
    RedactStep(path, t, keys[0], paths);
    FirstKey(path, r.entries, keys);
    n := 1;
    if !(child != "" && Sensitive(child, paths)) {
      var m := t[keys[0]].entries;
      n := RedactHides(child, m, keys[1..], paths);
      NextKey(path, r.entries, keys, n);
      n := n + 1;
    }
  }

  lemma IntoKey(path: string, t: Tree, keys: Path)
    requires GetPath(t, keys).Some?
    ensures keys[0] in t && PathOf(path, keys) == PathOf(ChildPath(path, keys[0]), keys[1..])
    ensures |keys| == 1 ==> PathOf(path, keys) == ChildPath(path, keys[0])
    ensures |keys| > 1 ==> t[keys[0]].Map? && GetPath(t[keys[0]].entries, keys[1..]).Some?
  {
  }
}
