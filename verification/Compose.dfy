/** Composition of configuration files through _defaults and _include
    (compose/composer.go). */
module Compose {
  import opened Values
  import opened Paths
  import Merge

  const MAX_DEPTH := 10

  /** What a traversal sees: the file system, how include paths are resolved
      and made canonical, the decoders, and the merger in use. */
  datatype Host = Host(
    disk: map<string, string>,
    resolve: (string, string) -> string,
    canonical: string -> Option<string>,
    decode: (string, string) -> Option<Tree>,
    merge: (Tree, Tree) -> Tree)

  datatype Error = TooDeep(source: string) | BadPath(path: string) | Unreadable(path: string) | Malformed(path: string)

  /** What a traversal leaves behind, even when it fails: the canonical paths
      visited, the dependency list, and the files opened. */
  datatype Trace = Trace(visited: set<string>, deps: seq<string>, read: seq<string>)

  datatype Outcome = Outcome(result: Result<Tree, Error>, trace: Trace)

  predicate Space(c: char) {
    var n := c as int;
    9 <= n <= 13 || n == 0x20 || n == 0x85 || n == 0xA0 || n == 0x1680 || 0x2000 <= n <= 0x200A ||
    n == 0x2028 || n == 0x2029 || n == 0x202F || n == 0x205F || n == 0x3000
  }

  function TrimLeft(s: string): string {
    if s != "" && Space(s[0]) then TrimLeft(s[1..]) else s
  }

  function TrimRight(s: string): string {
    if s != "" && Space(s[|s| - 1]) then TrimRight(s[..|s| - 1]) else s
  }

  function Trim(s: string): string { TrimRight(TrimLeft(s)) }

  /** The position of the first colon, or the length. */
  function Colon(s: string): (i: nat)
    ensures i <= |s| && ':' !in s[..i] && (i < |s| ==> s[i] == ':')
  {
    if s == "" || s[0] == ':' then 0
    else
      var i := Colon(s[1..]);
      assert s[..i + 1] == [s[0]] + s[1..][..i];
      i + 1
  }

  /** What one entry of _defaults adds. */
  function DefaultsOf(item: Value): Tree {
    match item
    case Text(s) =>
      var i := Colon(s);
      if i == |s| then map[] else map[Trim(s[..i]) := Text(Trim(s[i + 1..]))]
    case Map(m) => m - {"optional"}
    case _ => map[]
  }

  function DefaultsIn(items: seq<Value>): Tree {
    if items == [] then map[] else DefaultsIn(items[..|items| - 1]) + DefaultsOf(items[|items| - 1])
  }

  function Defaults(v: Value): Tree {
    match v
    case List(items) => DefaultsIn(items)
    case Text(_) => DefaultsOf(v)
    case _ => map[]
  }

  function TextsIn(items: seq<Value>): seq<string> {
    if items == [] then []
    else TextsIn(items[..|items| - 1]) + if items[|items| - 1].Text? then [items[|items| - 1].text] else []
  }

  /** The paths an _include names; entries that are not strings are ignored. */
  function IncludePaths(v: Value): seq<string> {
    match v
    case Text(s) => [s]
    case List(items) => TextsIn(items)
    case _ => []
  }

  function WithDefaults(h: Host, config: Tree): Tree {
    if "_defaults" in config then h.merge(Defaults(config["_defaults"]), config) - {"_defaults"} else config
  }

  function Compose(h: Host, config: Tree, source: string, depth: nat, t: Trace): Outcome
    decreases MAX_DEPTH - depth, 1, 0
  {
    if depth >= MAX_DEPTH then Outcome(Err(TooDeep(source)), t)
    else
      var local := WithDefaults(h, config);
      if "_include" !in local then Outcome(Ok(local - {"_merge_strategy"}), t)
      else
        var o := IncludeAll(h, IncludePaths(local["_include"]), map[], source, depth, t);
        if o.result.Err? then o
        else o.(result := Ok(h.merge(local, o.result.value) - {"_include"} - {"_merge_strategy"}))
  }

  /** The include loop from the first of paths on, acc being what was merged before. */
  function IncludeAll(h: Host, paths: seq<string>, acc: Tree, source: string, depth: nat, t: Trace): Outcome
    requires depth < MAX_DEPTH
    decreases MAX_DEPTH - depth, 0, |paths|
  {
    if paths == [] then Outcome(Ok(acc), t)
    else
      var resolved := h.resolve(source, paths[0]);
      var file := h.canonical(resolved);
      if file.None? then Outcome(Err(BadPath(paths[0])), t)
      else if file.value in t.visited then IncludeAll(h, paths[1..], acc, source, depth, t)
      else
        var o := LoadFile(h, resolved, file.value, depth, t.(visited := t.visited + {file.value},
            deps := t.deps + [file.value]));
        if o.result.Err? then o
        else IncludeAll(h, paths[1..], h.merge(acc, o.result.value), source, depth, o.trace)
  }

  function LoadFile(h: Host, path: string, file: string, depth: nat, t: Trace): Outcome
    requires depth < MAX_DEPTH
    decreases MAX_DEPTH - depth, 0, 0
  {
    var t' := t.(read := t.read + [file]);
    if file !in h.disk then Outcome(Err(Unreadable(path)), t')
    else
      var config := h.decode(path, h.disk[file]);
      if config.None? then Outcome(Err(Malformed(path)), t')
      else Compose(h, config.value, path, depth + 1, t')
  }

  const START := Trace({}, [], [])

  /** Composition of a loaded file: the outcome and everything it depends on. */
  function ComposeTop(h: Host, config: Tree, source: string): Outcome {
    Compose(h, config, source, 0, START)
  }

  class Composer {
    const host: Host
    var visited: set<string>
    var dependencies: seq<string>
    var read: seq<string>

    constructor (host: Host)
      ensures this.host == host && Traced() == START
    {
      this.host := host;
      visited, dependencies, read := {}, [], [];
    }

    function Traced(): Trace reads this { Trace(visited, dependencies, read) }

    static method ProcessDefaults(defaults: Value) returns (r: Tree)
      ensures r == Defaults(defaults)
    {
      var items := match defaults case List(items) => items case Text(_) => [defaults] case _ => [];
      assert DefaultsIn([]) == map[];
      assert defaults.Text? ==> [defaults][..0] == [] && DefaultsIn([defaults]) == DefaultsOf(defaults);
      r := map[];
      for i := 0 to |items|
        invariant r == DefaultsIn(items[..i])
      {
        assert items[..i + 1][..i] == items[..i];
        r := r + DefaultsOf(items[i]);
      }
      assert items[..|items|] == items;
    }

    static method PathsOf(includes: Value) returns (r: seq<string>)
      ensures r == IncludePaths(includes)
    {
      match includes {
        case Text(s) =>
          r := [s];
        case List(items) =>
          r := [];
          for i := 0 to |items|
            invariant r == TextsIn(items[..i])
          {
            assert items[..i + 1][..i] == items[..i];
            if items[i].Text? {
              r := r + [items[i].text];
            }
          }
          assert items[..|items|] == items;
        case _ =>
          r := [];
      }
    }

    method ComposeAt(config: Tree, source: string, depth: nat) returns (r: Result<Tree, Error>)
      modifies this
      ensures Outcome(r, Traced()) == Compose(host, config, source, depth, old(Traced()))
      decreases MAX_DEPTH - depth, 1, 0
    {
      if depth >= MAX_DEPTH {
        return Err(TooDeep(source));
      }
      var result := config;
      if "_defaults" in result {
        var base := ProcessDefaults(result["_defaults"]);
        result := host.merge(base, result);
        result := result - {"_defaults"};
      }
      if "_include" in result {
        var included := ProcessIncludes(result["_include"], source, depth);
        if included.Err? {
          return included;
        }
        result := host.merge(result, included.value);
        result := result - {"_include"};
      }
      result := result - {"_merge_strategy"};
      return Ok(result);
    }

    method ProcessIncludes(includes: Value, source: string, depth: nat) returns (r: Result<Tree, Error>)
      requires depth < MAX_DEPTH
      modifies this
      ensures Outcome(r, Traced()) == IncludeAll(host, IncludePaths(includes), map[], source, depth, old(Traced()))
      decreases MAX_DEPTH - depth, 0, 0
    {
      hide Compose;
      var paths := PathsOf(includes);
      var result: Tree := map[];
      for i := 0 to |paths|
        invariant IncludeAll(host, paths[i..], result, source, depth, Traced()) ==
                  IncludeAll(host, paths, map[], source, depth, old(Traced()))
      {
        assert paths[i..][1..] == paths[i + 1..];
        var resolved := host.resolve(source, paths[i]);
        var file := host.canonical(resolved);
        if file.None? {
          return Err(BadPath(paths[i]));
        }
        if file.value !in visited {
          visited := visited + {file.value};
          dependencies := dependencies + [file.value];
          var included := ReadAndCompose(resolved, file.value, depth);
          if included.Err? {
            return included;
          }
          result := host.merge(result, included.value);
        }
      }
      return Ok(result);
    }

    method ReadAndCompose(path: string, file: string, depth: nat) returns (r: Result<Tree, Error>)
      requires depth < MAX_DEPTH
      modifies this
      ensures Outcome(r, Traced()) == LoadFile(host, path, file, depth, old(Traced()))
      decreases MAX_DEPTH - depth - 1, 2
    {
      hide Compose;
      read := read + [file];
      if file !in host.disk {
        return Err(Unreadable(path));
      }
      var config := host.decode(path, host.disk[file]);
      if config.None? {
        return Err(Malformed(path));
      }
      r := ComposeAt(config.value, path, depth + 1);
    }
  }

  /** The merger takes its keys from its inputs. */
  ghost predicate KeepsKeys(h: Host) {
    forall a, b :: h.merge(a, b).Keys <= a.Keys + b.Keys
  }

  predicate Free(t: Tree) { "_include" !in t && "_defaults" !in t && "_merge_strategy" !in t }

  /** No directive survives composition. */
  lemma {:induction false} NoDirectives(h: Host, config: Tree, source: string, depth: nat, t: Trace)
    requires KeepsKeys(h) && Compose(h, config, source, depth, t).result.Ok?
    ensures Free(Compose(h, config, source, depth, t).result.value)
    decreases MAX_DEPTH - depth, 1, 0
  {
    var local := WithDefaults(h, config);
    if "_include" in local {
      NoDirectivesIncluded(h, IncludePaths(local["_include"]), map[], source, depth, t);
    }
  }

  lemma {:induction false} NoDirectivesIncluded(h: Host, paths: seq<string>, acc: Tree, source: string, depth: nat,
      t: Trace)
    requires depth < MAX_DEPTH && KeepsKeys(h) && Free(acc)
    requires IncludeAll(h, paths, acc, source, depth, t).result.Ok?
    ensures Free(IncludeAll(h, paths, acc, source, depth, t).result.value)
    decreases MAX_DEPTH - depth, 0, |paths|
  {
    hide Compose;
    if paths != [] {
      var resolved := h.resolve(source, paths[0]);
      var file := h.canonical(resolved).value;
      if file in t.visited {
        NoDirectivesIncluded(h, paths[1..], acc, source, depth, t);
      } else {
        var t1 := Trace(t.visited + {file}, t.deps + [file], t.read);
        var o := LoadFile(h, resolved, file, depth, t1);
        NoDirectives(h, h.decode(resolved, h.disk[file]).value, resolved, depth + 1, t1.(read := t.read + [file]));
        NoDirectivesIncluded(h, paths[1..], h.merge(acc, o.result.value), source, depth, o.trace);
      }
    }
  }

  /** The configurable merger qualifies under every strategy. */
  lemma MergersKeepKeys(h: Host, m: Merge.Merger)
    requires h.merge == ((a, b) => Merge.MergeTrees(m, a, b))
    ensures KeepsKeys(h)
  {
    forall a, b ensures h.merge(a, b).Keys <= a.Keys + b.Keys {
      Merge.KeysFromInputs(m, a, b);
    }
  }

  function DefaultsOfConfig(config: Tree): Tree {
    if "_defaults" in config then Defaults(config["_defaults"]) else map[]
  }

  /** What the includes of a composition merge to. */
  function IncludedOf(h: Host, config: Tree, source: string, depth: nat, t: Trace): Tree
    requires depth < MAX_DEPTH && h.merge == Deeply()
  {
    var local := WithDefaults(h, config);
    if "_include" !in local then map[]
    else
      var o := IncludeAll(h, IncludePaths(local["_include"]), map[], source, depth, t);
      if o.result.Ok? then o.result.value else map[]
  }

  function Deeply(): (Tree, Tree) -> Tree { (a, b) => Merge.DeepMerge(a, b) }

  predicate Directive(k: string) { k == "_include" || k == "_defaults" || k == "_merge_strategy" }

  /** With the default merger, a setting of an included file wins over the
      file's own, and that over the defaults. */
  lemma Precedence(h: Host, config: Tree, source: string, depth: nat, t: Trace, p: Path)
    requires depth < MAX_DEPTH && h.merge == Deeply() && !Directive(p[0])
    requires Compose(h, config, source, depth, t).result.Ok?
    requires Merge.Compatible(DefaultsOfConfig(config), config)
    requires Merge.Compatible(WithDefaults(h, config), IncludedOf(h, config, source, depth, t))
    ensures var composed := GetPath(Compose(h, config, source, depth, t).result.value, p);
            var included := GetPath(IncludedOf(h, config, source, depth, t), p);
            && (included.Some? && !included.value.Map? ==> composed == included)
            && (included.None? && GetPath(config, p).Some? && !GetPath(config, p).value.Map? ==>
                composed == GetPath(config, p))
            && (included.None? && GetPath(config, p).None? ==> composed == GetPath(DefaultsOfConfig(config), p))
  {
    var local := WithDefaults(h, config);
    hide IncludeAll, Defaults, IncludePaths, Merge.Compatible, Merge.DeepMerge;
    if "_defaults" in config {
      Merge.DeepMergeAt(DefaultsOfConfig(config), config, p);
    }
    if "_include" in local {
      Merge.DeepMergeAt(local, IncludedOf(h, config, source, depth, t), p);
    }
  }

  /** Each visited file is listed once, opened once, and nothing else is opened. */
  ghost predicate Once(t: Trace) {
    && (forall i, j :: 0 <= i < j < |t.deps| ==> t.deps[i] != t.deps[j])
    && (forall p :: p in t.visited <==> p in t.deps)
    && t.read == t.deps
  }

  lemma {:induction false} ReadsOnce(h: Host, config: Tree, source: string, depth: nat, t: Trace)
    requires Once(t)
    ensures Once(Compose(h, config, source, depth, t).trace)
    ensures t.deps <= Compose(h, config, source, depth, t).trace.deps
    decreases MAX_DEPTH - depth, 1, 0
  {
    var local := WithDefaults(h, config);
    if depth < MAX_DEPTH && "_include" in local {
      hide Once;
      ReadsOnceIncluded(h, IncludePaths(local["_include"]), map[], source, depth, t);
    }
  }

  lemma VisitOnce(t: Trace, file: string)
    requires Once(t) && file !in t.visited
    ensures Once(Trace(t.visited + {file}, t.deps + [file], t.read + [file]))
  {
  }

  lemma {:induction false} ReadsOnceIncluded(h: Host, paths: seq<string>, acc: Tree, source: string, depth: nat,
      t: Trace)
    requires depth < MAX_DEPTH && Once(t)
    ensures Once(IncludeAll(h, paths, acc, source, depth, t).trace)
    ensures t.deps <= IncludeAll(h, paths, acc, source, depth, t).trace.deps
    decreases MAX_DEPTH - depth, 0, |paths|
  {
    hide Compose, Once;
    if paths != [] && h.canonical(h.resolve(source, paths[0])).Some? {
      var resolved := h.resolve(source, paths[0]);
      var file := h.canonical(resolved).value;
      if file in t.visited {
        ReadsOnceIncluded(h, paths[1..], acc, source, depth, t);
      } else {
        var t1 := Trace(t.visited + {file}, t.deps + [file], t.read);
        var o := LoadFile(h, resolved, file, depth, t1);
        VisitOnce(t, file);
        if file in h.disk && h.decode(resolved, h.disk[file]).Some? {
          ReadsOnce(h, h.decode(resolved, h.disk[file]).value, resolved, depth + 1, t1.(read := t.read + [file]));
        }
        if o.result.Ok? {
          ReadsOnceIncluded(h, paths[1..], h.merge(acc, o.result.value), source, depth, o.trace);
        }
      }
    }
  }

  /** The dependency list of a composition has no duplicates and is exactly the
      files it opened, in that order. */
  lemma DependenciesExact(h: Host, config: Tree, source: string)
    ensures Once(ComposeTop(h, config, source).trace)
  {
    ReadsOnce(h, config, source, 0, START);
  }

  /** Every listed file could be opened, under its canonical name, and decoded. */
  ghost predicate Opened(h: Host, t: Trace) {
    forall f :: f in t.deps ==>
      f in h.disk && exists q :: h.canonical(q) == Some(f) && h.decode(q, h.disk[f]).Some?
  }

  lemma OpenOne(h: Host, t: Trace, q: string)
    requires Opened(h, t) && h.canonical(q).Some? && h.canonical(q).value in h.disk
    requires h.decode(q, h.disk[h.canonical(q).value]).Some?
    ensures var f := h.canonical(q).value; Opened(h, Trace(t.visited + {f}, t.deps + [f], t.read + [f]))
  {
  }

  lemma {:induction false} ComposedOpened(h: Host, config: Tree, source: string, depth: nat, t: Trace)
    requires Opened(h, t) && Compose(h, config, source, depth, t).result.Ok?
    ensures Opened(h, Compose(h, config, source, depth, t).trace)
    decreases MAX_DEPTH - depth, 1, 0
  {
    var local := WithDefaults(h, config);
    if "_include" in local {
      hide Opened;
      IncludedOpened(h, IncludePaths(local["_include"]), map[], source, depth, t);
    }
  }

  lemma {:induction false} IncludedOpened(h: Host, paths: seq<string>, acc: Tree, source: string, depth: nat, t: Trace)
    requires depth < MAX_DEPTH && Opened(h, t) && IncludeAll(h, paths, acc, source, depth, t).result.Ok?
    ensures Opened(h, IncludeAll(h, paths, acc, source, depth, t).trace)
    decreases MAX_DEPTH - depth, 0, |paths|
  {
    hide Compose, Opened;
    if paths != [] {
      var resolved := h.resolve(source, paths[0]);
      var file := h.canonical(resolved).value;
      if file in t.visited {
        IncludedOpened(h, paths[1..], acc, source, depth, t);
      } else {
        var t1 := Trace(t.visited + {file}, t.deps + [file], t.read);
        var o := LoadFile(h, resolved, file, depth, t1);
        OpenOne(h, t, resolved);
        ComposedOpened(h, h.decode(resolved, h.disk[file]).value, resolved, depth + 1, t1.(read := t.read + [file]));
        IncludedOpened(h, paths[1..], h.merge(acc, o.result.value), source, depth, o.trace);
      }
    }
  }

  /** A successful composition opened and decoded every file it lists. */
  lemma DependenciesOpened(h: Host, config: Tree, source: string)
    requires ComposeTop(h, config, source).result.Ok?
    ensures Opened(h, ComposeTop(h, config, source).trace)
  {
    ComposedOpened(h, config, source, 0, START);
  }

  /** Both hosts hold the same content, or none, at the listed files. */
  ghost predicate Agree(a: Host, b: Host, files: seq<string>) {
    && a.(disk := b.disk) == b
    && forall f :: f in files ==> (f in a.disk <==> f in b.disk) && (f in a.disk ==> a.disk[f] == b.disk[f])
  }

  /** Both hosts hold the same content at the listed files, where b has them. */
  ghost predicate AgreeWhereKept(a: Host, b: Host, files: seq<string>) {
    && a.(disk := b.disk) == b
    && forall f :: f in files && f in b.disk ==> f in a.disk && a.disk[f] == b.disk[f]
  }

  /** Some file listed beyond the first n has gone from b. */
  ghost predicate LostBeyond(b: Host, files: seq<string>, n: nat) {
    exists i :: n <= i < |files| && files[i] !in b.disk
  }

  lemma {:induction false} ComposeLost(a: Host, b: Host, config: Tree, source: string, depth: nat, t: Trace)
    requires Once(t) && AgreeWhereKept(a, b, Compose(a, config, source, depth, t).trace.deps)
    requires LostBeyond(b, Compose(a, config, source, depth, t).trace.deps, |t.deps|)
    ensures Compose(b, config, source, depth, t).result.Err?
    decreases MAX_DEPTH - depth, 1, 0
  {
    hide Once;
    var local := WithDefaults(a, config);
    assert WithDefaults(b, config) == local;
    assert depth < MAX_DEPTH && "_include" in local;
    IncludeLost(a, b, IncludePaths(local["_include"]), map[], source, depth, t);
  }

  lemma {:induction false} IncludeLost(a: Host, b: Host, paths: seq<string>, acc: Tree, source: string, depth: nat,
      t: Trace)
    requires depth < MAX_DEPTH && Once(t)
    requires AgreeWhereKept(a, b, IncludeAll(a, paths, acc, source, depth, t).trace.deps)
    requires LostBeyond(b, IncludeAll(a, paths, acc, source, depth, t).trace.deps, |t.deps|)
    ensures IncludeAll(b, paths, acc, source, depth, t).result.Err?
    decreases MAX_DEPTH - depth, 0, |paths|
  {
    hide Compose, Once;
    var all := IncludeAll(a, paths, acc, source, depth, t);
    assert paths != [] && a.canonical(a.resolve(source, paths[0])).Some?;
    var resolved := a.resolve(source, paths[0]);
    var file := a.canonical(resolved).value;
    if file in t.visited {
      IncludeLost(a, b, paths[1..], acc, source, depth, t);
    } else if file in b.disk {
      var t1 := Trace(t.visited + {file}, t.deps + [file], t.read);
      var t2 := t1.(read := t.read + [file]);
      var o := LoadFile(a, resolved, file, depth, t1);
      VisitOnce(t, file);
      var loaded := file in a.disk && a.decode(resolved, a.disk[file]).Some?;
      if loaded {
        ReadsOnce(a, a.decode(resolved, a.disk[file]).value, resolved, depth + 1, t2);
      }
      if o.result.Ok? {
        ReadsOnceIncluded(a, paths[1..], a.merge(acc, o.result.value), source, depth, o.trace);
      }
      assert t2.deps <= o.trace.deps <= all.trace.deps;
      assert file in all.trace.deps by { assert t2.deps[|t.deps|] == file; }
      if loaded {
        var config := a.decode(resolved, a.disk[file]).value;
        if LostBeyond(b, o.trace.deps, |t2.deps|) {
          ComposeLost(a, b, config, resolved, depth + 1, t2);
        } else {
          KeptSoFar(a, b, o.trace.deps, |t2.deps|);
          ComposeKept(a, b, config, resolved, depth + 1, t2);
          if o.result.Ok? {
            LostLater(b, all.trace.deps, |t.deps|, |o.trace.deps|, file);
            IncludeLost(a, b, paths[1..], a.merge(acc, o.result.value), source, depth, o.trace);
          }
        }
      }
    }
  }

  lemma KeptSoFar(a: Host, b: Host, files: seq<string>, n: nat)
    requires AgreeWhereKept(a, b, files) && !LostBeyond(b, files, n)
    ensures SameBeyond(a, b, files, n)
  {
  }

  lemma LostLater(b: Host, files: seq<string>, n: nat, m: nat, file: string)
    requires LostBeyond(b, files, n) && n < m <= |files| && files[n] == file && file in b.disk
    requires !LostBeyond(b, files[..m], n + 1)
    ensures LostBeyond(b, files, m)
  {
    forall i | n < i < m ensures files[i] in b.disk {
      assert files[..m][i] == files[i];
    }
    var i :| n <= i < |files| && files[i] !in b.disk;
    assert i >= m;
  }

  /** Both hosts hold the same content, or none, at the files listed beyond the
      first n. */
  ghost predicate SameBeyond(a: Host, b: Host, files: seq<string>, n: nat) {
    && a.(disk := b.disk) == b
    && forall i :: n <= i < |files| ==>
         (files[i] in a.disk <==> files[i] in b.disk) && (files[i] in a.disk ==> a.disk[files[i]] == b.disk[files[i]])
  }

  lemma SameFurther(a: Host, b: Host, files: seq<string>, all: seq<string>, n: nat, m: nat)
    requires SameBeyond(a, b, all, n) && n <= m && files <= all
    ensures SameBeyond(a, b, files, m)
  {
  }

  /** Locality: what a traversal adds to the list is all it depends on. */
  lemma {:induction false} ComposeKept(a: Host, b: Host, config: Tree, source: string, depth: nat, t: Trace)
    requires Once(t) && SameBeyond(a, b, Compose(a, config, source, depth, t).trace.deps, |t.deps|)
    ensures Compose(a, config, source, depth, t) == Compose(b, config, source, depth, t)
    decreases MAX_DEPTH - depth, 1, 0
  {
    hide Once, IncludeAll;
    var local := WithDefaults(a, config);
    assert WithDefaults(b, config) == local;
    if depth < MAX_DEPTH && "_include" in local {
      IncludeKept(a, b, IncludePaths(local["_include"]), map[], source, depth, t);
    }
  }

  lemma {:induction false} IncludeKept(a: Host, b: Host, paths: seq<string>, acc: Tree, source: string, depth: nat,
      t: Trace)
    requires depth < MAX_DEPTH && Once(t)
    requires SameBeyond(a, b, IncludeAll(a, paths, acc, source, depth, t).trace.deps, |t.deps|)
    ensures IncludeAll(a, paths, acc, source, depth, t) == IncludeAll(b, paths, acc, source, depth, t)
    decreases MAX_DEPTH - depth, 0, |paths|
  {
    hide Compose, Once;
    if paths != [] && a.canonical(a.resolve(source, paths[0])).Some? {
      var resolved := a.resolve(source, paths[0]);
      var file := a.canonical(resolved).value;
      if file in t.visited {
        IncludeKept(a, b, paths[1..], acc, source, depth, t);
      } else {
        var t1 := Trace(t.visited + {file}, t.deps + [file], t.read);
        var t2 := t1.(read := t.read + [file]);
        var o := LoadFile(a, resolved, file, depth, t1);
        var all := IncludeAll(a, paths, acc, source, depth, t);
        VisitOnce(t, file);
        var loaded := file in a.disk && a.decode(resolved, a.disk[file]).Some?;
        if loaded {
          ReadsOnce(a, a.decode(resolved, a.disk[file]).value, resolved, depth + 1, t2);
        }
        if o.result.Ok? {
          ReadsOnceIncluded(a, paths[1..], a.merge(acc, o.result.value), source, depth, o.trace);
        }
        assert t2.deps <= o.trace.deps <= all.trace.deps;
        assert all.trace.deps[|t.deps|] == file;
        SameFurther(a, b, o.trace.deps, all.trace.deps, |t.deps|, |t2.deps|);
        if loaded {
          ComposeKept(a, b, a.decode(resolved, a.disk[file]).value, resolved, depth + 1, t2);
        }
        if o.result.Ok? {
          SameFurther(a, b, all.trace.deps, all.trace.deps, |t.deps|, |o.trace.deps|);
          IncludeKept(a, b, paths[1..], a.merge(acc, o.result.value), source, depth, o.trace);
        }
      }
    }
  }

  /** A file of the list that goes missing makes the composition fail, whatever
      else changes on the disk outside the list. */
  lemma LostIncludeFails(a: Host, b: Host, config: Tree, source: string, f: string)
    requires AgreeWhereKept(a, b, ComposeTop(a, config, source).trace.deps)
    requires f in ComposeTop(a, config, source).trace.deps && f !in b.disk
    ensures ComposeTop(b, config, source).result.Err?
  {
    var d := ComposeTop(a, config, source).trace.deps;
    var i :| 0 <= i < |d| && d[i] == f;
    assert LostBeyond(b, d, 0);
    ComposeLost(a, b, config, source, 0, START);
  }

  /** Only a configuration with directives can fail to compose. */
  lemma FreeComposes(h: Host, config: Tree, source: string)
    requires Free(config)
    ensures ComposeTop(h, config, source).result.Ok?
  {
  }

  /** The dependency list is complete: while the listed files keep their content
      (or stay missing), composing again gives the same result and the same
      list, whatever else changes on the disk. */
  lemma DependenciesComplete(a: Host, b: Host, config: Tree, source: string)
    requires Agree(a, b, ComposeTop(a, config, source).trace.deps)
    ensures ComposeTop(a, config, source) == ComposeTop(b, config, source)
  {
    ComposeKept(a, b, config, source, 0, START);
  }
}
