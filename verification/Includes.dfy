/** Which of several included files, and of several defaults, decides a setting
    (compose/composer.go). */
module Includes {
  import opened Values
  import opened Paths
  import opened Compose
  import Merge

  /** The positions of at are those of the strings among the items, in order. */
  ghost predicate TextsAt(items: seq<Value>, paths: seq<string>, at: seq<nat>) {
    && |at| == |paths| && (forall i, j :: 0 <= i < j < |at| ==> at[i] < at[j])
    && (forall i :: 0 <= i < |at| ==> at[i] < |items| && items[at[i]] == Text(paths[i]))
    && forall n :: 0 <= n < |items| && items[n].Text? ==> n in at
  }

  /** An include list is read from front to back, and only strings count. */
  lemma {:induction false} IncludesInOrder(items: seq<Value>) returns (at: seq<nat>)
    ensures TextsAt(items, IncludePaths(List(items)), at)
    decreases |items|
  {
    at := [];
    if items == [] {
      assert TextsAt(items, [], at);
    } else {
      hide TextsAt;
      var n := |items| - 1;
      at := IncludesInOrder(items[..n]);
      assert items[..n] + [items[n]] == items;
      OneMoreText(items[..n], TextsIn(items[..n]), at, items[n]);
      assert items[n].Text? || TextsIn(items[..n]) + [] == TextsIn(items[..n]);
      if items[n].Text? {
        at := at + [n];
      }
    }
  }

  lemma OneMoreText(items: seq<Value>, paths: seq<string>, at: seq<nat>, x: Value)
    requires TextsAt(items, paths, at)
    ensures x.Text? ==> TextsAt(items + [x], paths + [x.text], at + [|items|])
    ensures !x.Text? ==> TextsAt(items + [x], paths, at)
  {
    var more := items + [x];
    assert more[|items|] == x && forall i :: 0 <= i < |items| ==> more[i] == items[i];
    if x.Text? {
      var at' := at + [|items|];
      forall n | 0 <= n < |more| && more[n].Text? ensures n in at' {
        if n < |items| {
          assert n in at;
        } else {
          assert at'[|at|] == n;
        }
      }
    }
  }

  /** What the j-th include adds: its own file composed, with the files visited so
      far; nothing when the file was among them. */
  function LayerAt(h: Host, paths: seq<string>, source: string, depth: nat, t: Trace, j: nat): Tree
    requires depth < MAX_DEPTH && j < |paths|
  {
    var before := IncludeAll(h, paths[..j], map[], source, depth, t).trace;
    var resolved := h.resolve(source, paths[j]);
    match h.canonical(resolved)
    case None => map[]
    case Some(file) =>
      if file in before.visited then map[]
      else
        var o := LoadFile(h, resolved, file, depth,
                          Trace(before.visited + {file}, before.deps + [file], before.read));
        if o.result.Ok? then o.result.value else map[]
  }

  function Layers(h: Host, paths: seq<string>, source: string, depth: nat, t: Trace): seq<Tree>
    requires depth < MAX_DEPTH
  {
    seq(|paths|, j requires 0 <= j < |paths| => LayerAt(h, paths, source, depth, t, j))
  }

  /** The loop over some includes and one more. */
  lemma {:induction false} IncludeSnoc(h: Host, paths: seq<string>, q: string, acc: Tree, source: string, depth: nat,
      t: Trace)
    requires depth < MAX_DEPTH
    ensures var o := IncludeAll(h, paths, acc, source, depth, t);
            IncludeAll(h, paths + [q], acc, source, depth, t) ==
            if o.result.Err? then o else IncludeAll(h, [q], o.result.value, source, depth, o.trace)
    decreases |paths|
  {
    hide LoadFile;
    if paths != [] {
      assert (paths + [q])[0] == paths[0] && (paths + [q])[1..] == paths[1..] + [q];
      var resolved := h.resolve(source, paths[0]);
      var file := h.canonical(resolved);
      if file.Some? {
        if file.value in t.visited {
          IncludeSnoc(h, paths[1..], q, acc, source, depth, t);
        } else {
          var t1 := t.(visited := t.visited + {file.value}, deps := t.deps + [file.value]);
          var o := LoadFile(h, resolved, file.value, depth, t1);
          if o.result.Ok? {
            IncludeSnoc(h, paths[1..], q, h.merge(acc, o.result.value), source, depth, o.trace);
          }
        }
      }
    } else {
      assert [] + [q] == [q];
    }
  }

  lemma LayersSnoc(h: Host, paths: seq<string>, source: string, depth: nat, t: Trace)
    requires depth < MAX_DEPTH && paths != []
    ensures var n := |paths| - 1;
            Layers(h, paths, source, depth, t) ==
            Layers(h, paths[..n], source, depth, t) + [LayerAt(h, paths, source, depth, t, n)]
  {
    hide IncludeAll, LoadFile;
    var n := |paths| - 1;
    forall j | 0 <= j < n
      ensures LayerAt(h, paths[..n], source, depth, t, j) == LayerAt(h, paths, source, depth, t, j)
    {
      assert paths[..n][..j] == paths[..j];
    }
  }

  lemma NothingMerged(a: Tree)
    ensures Merge.DeepMerge(a, map[]) == a
  {
  }

  lemma LastInclude(h: Host, paths: seq<string>, source: string, depth: nat, t: Trace)
    requires depth < MAX_DEPTH && h.merge == Deeply() && paths != []
    requires IncludeAll(h, paths, map[], source, depth, t).result.Ok?
    ensures var n := |paths| - 1;
            var before := IncludeAll(h, paths[..n], map[], source, depth, t);
            before.result.Ok? &&
            IncludeAll(h, paths, map[], source, depth, t).result.value ==
            Merge.DeepMerge(before.result.value, LayerAt(h, paths, source, depth, t, n))
  {
    hide LoadFile, Merge.DeepMerge;
    var n := |paths| - 1;
    assert paths[..n] + [paths[n]] == paths;
    IncludeSnoc(h, paths[..n], paths[n], map[], source, depth, t);
    var o := IncludeAll(h, paths[..n], map[], source, depth, t);
    NothingMerged(o.result.value);
    OneInclude(h, paths[n], o.result.value, source, depth, o.trace);
  }

  lemma OneInclude(h: Host, q: string, acc: Tree, source: string, depth: nat, t: Trace)
    requires depth < MAX_DEPTH && h.merge == Deeply()
    ensures var r, resolved := IncludeAll(h, [q], acc, source, depth, t).result, h.resolve(source, q);
            match h.canonical(resolved)
            case None => r.Err?
            case Some(file) =>
              if file in t.visited then r == Ok(acc)
              else
                var own := LoadFile(h, resolved, file, depth,
                                    Trace(t.visited + {file}, t.deps + [file], t.read)).result;
                if own.Err? then r.Err? else r == Ok(Merge.DeepMerge(acc, own.value))
  {
    hide LoadFile, Merge.DeepMerge;
    assert [q][1..] == [];
  }

  lemma {:induction false} IncludesFold(h: Host, paths: seq<string>, source: string, depth: nat, t: Trace)
    requires depth < MAX_DEPTH && h.merge == Deeply()
    requires IncludeAll(h, paths, map[], source, depth, t).result.Ok?
    ensures IncludeAll(h, paths, map[], source, depth, t).result.value ==
            Merge.DeepFold(Layers(h, paths, source, depth, t))
    decreases |paths|
  {
    if paths != [] {
      hide LayerAt, Merge.DeepMerge, LoadFile, IncludeAll, Layers;
      LastInclude(h, paths, source, depth, t);
      IncludesFold(h, paths[..|paths| - 1], source, depth, t);
      LayersSnoc(h, paths, source, depth, t);
    }
  }

  /** When the loop succeeds, every include named a file, and each is visited. */
  lemma {:induction false} IncludesVisited(h: Host, paths: seq<string>, acc: Tree, source: string, depth: nat,
      t: Trace)
    requires depth < MAX_DEPTH && IncludeAll(h, paths, acc, source, depth, t).result.Ok?
    ensures var after := IncludeAll(h, paths, acc, source, depth, t).trace;
            && t.visited <= after.visited
            && forall j :: 0 <= j < |paths| ==>
                 var file := h.canonical(h.resolve(source, paths[j])); file.Some? && file.value in after.visited
    decreases MAX_DEPTH - depth, 0, |paths|
  {
    hide Compose.Compose;
    if paths != [] {
      var resolved := h.resolve(source, paths[0]);
      var file := h.canonical(resolved).value;
      if file in t.visited {
        IncludesVisited(h, paths[1..], acc, source, depth, t);
      } else {
        var t1 := Trace(t.visited + {file}, t.deps + [file], t.read);
        var o := LoadFile(h, resolved, file, depth, t1);
        ComposeVisited(h, h.decode(resolved, h.disk[file]).value, resolved, depth + 1, t1.(read := t.read + [file]));
        IncludesVisited(h, paths[1..], h.merge(acc, o.result.value), source, depth, o.trace);
      }
      assert forall j :: 0 < j < |paths| ==> paths[j] == paths[1..][j - 1];
    }
  }

  lemma {:induction false} ComposeVisited(h: Host, config: Tree, source: string, depth: nat, t: Trace)
    requires Compose.Compose(h, config, source, depth, t).result.Ok?
    ensures t.visited <= Compose.Compose(h, config, source, depth, t).trace.visited
    decreases MAX_DEPTH - depth, 1, 0
  {
    var local := WithDefaults(h, config);
    if "_include" in local {
      IncludesVisited(h, IncludePaths(local["_include"]), map[], source, depth, t);
    }
  }

  /** The layers of the includes of a file. */
  function IncludedLayers(h: Host, config: Tree, source: string, depth: nat, t: Trace): seq<Tree>
    requires depth < MAX_DEPTH
  {
    var local := WithDefaults(h, config);
    if "_include" in local then Layers(h, IncludePaths(local["_include"]), source, depth, t) else []
  }

  /** The last listed include that defines a setting decides it, over every
      earlier one and over the file itself. */
  lemma LastIncludeWins(h: Host, config: Tree, source: string, depth: nat, t: Trace, p: Path, n: nat)
    requires depth < MAX_DEPTH && h.merge == Deeply() && !Directive(p[0])
    requires Compose.Compose(h, config, source, depth, t).result.Ok?
    requires Merge.Compatible(DefaultsOfConfig(config), config)
    requires Merge.Compatible(WithDefaults(h, config), IncludedOf(h, config, source, depth, t))
    requires var layers := IncludedLayers(h, config, source, depth, t);
             && n < |layers| && GetPath(layers[n], p).Some? && !GetPath(layers[n], p).value.Map?
             && (forall i, j :: 0 <= i < j < |layers| ==> Merge.Compatible(layers[i], layers[j]))
             && forall i :: n < i < |layers| ==> GetPath(layers[i], p).None?
    ensures GetPath(Compose.Compose(h, config, source, depth, t).result.value, p) ==
            GetPath(IncludedLayers(h, config, source, depth, t)[n], p)
  {
    var layers := IncludedLayers(h, config, source, depth, t);
    var paths := IncludePaths(WithDefaults(h, config)["_include"]);
    assert IncludeAll(h, paths, map[], source, depth, t).result.Ok?;
    hide IncludeAll, Merge.Compatible, Merge.DeepFold, LayerAt, GetPath;
    IncludesFold(h, paths, source, depth, t);
    Merge.LastLayerWins(layers, p);
    Precedence(h, config, source, depth, t, p);
  }

  ghost predicate Blank(s: string, i: nat, j: nat) { j <= |s| && forall k :: i <= k < j ==> Space(s[k]) }

  /** t is s without the spaces around it. */
  ghost predicate Trimmed(s: string, t: string) {
    exists i, j :: 0 <= i <= j <= |s| && s[i..j] == t && Blank(s, 0, i) && Blank(s, j, |s|) &&
      (t != "" ==> !Space(t[0]) && !Space(t[|t| - 1]))
  }

  lemma {:induction false} TrimLeftIs(s: string) returns (i: nat)
    ensures i <= |s| && TrimLeft(s) == s[i..] && Blank(s, 0, i) && (i < |s| ==> !Space(s[i]))
  {
    i := 0;
    if s != "" && Space(s[0]) {
      var j := TrimLeftIs(s[1..]);
      assert forall k :: 1 <= k < j + 1 ==> s[k] == s[1..][k - 1];
      i := j + 1;
    }
  }

  lemma {:induction false} TrimRightIs(s: string) returns (j: nat)
    ensures j <= |s| && TrimRight(s) == s[..j] && Blank(s, j, |s|) && (j > 0 ==> !Space(s[j - 1]))
  {
    j := |s|;
    if s != "" && Space(s[|s| - 1]) {
      j := TrimRightIs(s[..|s| - 1]);
      assert forall k :: j <= k < |s| - 1 ==> s[k] == s[..|s| - 1][k];
    }
  }

  lemma TrimIs(s: string, t: string)
    ensures Trimmed(s, t) <==> t == Trim(s)
  {
    hide TrimLeft, TrimRight, Space;
    var i := TrimLeftIs(s);
    var u := TrimLeft(s);
    var j := TrimRightIs(u);
    assert s[i..i + j] == u[..j] == Trim(s);
    forall k | i + j <= k < |s| ensures Space(s[k]) {
      assert s[k] == u[k - i];
    }
    assert Blank(s, i + j, |s|);
    if j > 0 {
      assert u[0] == s[i] && u[j - 1] == s[i + j - 1];
    }
    if Trimmed(s, t) {
      TrimOnce(s, t, i, i + j);
    }
  }

  lemma TrimOnce(s: string, t: string, i: nat, j: nat)
    requires Trimmed(s, t) && i <= j <= |s| && Blank(s, 0, i) && Blank(s, j, |s|)
    requires i < j ==> !Space(s[i]) && !Space(s[j - 1])
    ensures t == s[i..j]
  {
    hide Space;
    var k, l :| 0 <= k <= l <= |s| && s[k..l] == t && Blank(s, 0, k) && Blank(s, l, |s|) &&
      (t != "" ==> !Space(t[0]) && !Space(t[|t| - 1]));
    if k < l {
      assert t[0] == s[k] && t[|t| - 1] == s[l - 1];
      assert i <= k && l <= j;
    }
  }

  /** An entry of _defaults gives a key a value: "key: value", or a map's entries
      except "optional". */
  ghost predicate Gives(item: Value, k: string, v: Value) {
    match item
    case Text(s) =>
      exists i :: 0 <= i < |s| && s[i] == ':' && ':' !in s[..i] &&
        Trimmed(s[..i], k) && v.Text? && Trimmed(s[i + 1..], v.text)
    case Map(m) => k in m && k != "optional" && m[k] == v
    case _ => false
  }

  lemma GivesIff(item: Value, k: string, v: Value)
    ensures Gives(item, k, v) <==> k in DefaultsOf(item) && DefaultsOf(item)[k] == v
  {
    hide Trimmed, Trim;
    if item.Text? {
      var s, i := item.text, Colon(item.text);
      FirstColon(s);
      if i < |s| {
        TrimIs(s[..i], k);
        TrimIs(s[i + 1..], if v.Text? then v.text else "");
      }
    }
  }

  lemma FirstColon(s: string)
    ensures forall i :: 0 <= i < |s| && s[i] == ':' && ':' !in s[..i] ==> i == Colon(s)
  {
    var n := Colon(s);
    forall i | 0 <= i < |s| && s[i] == ':' && ':' !in s[..i] ensures i == n {
      assert forall k :: 0 <= k < i ==> s[..i][k] == s[k];
      assert forall k :: 0 <= k < n ==> s[..n][k] == s[k];
    }
  }

  /** What the last entry adds. */
  lemma DefaultsStep(items: seq<Value>, k: string)
    requires items != []
    ensures var n := |items| - 1;
            var before, all := Defaults(List(items[..n])), Defaults(List(items));
            && (forall v :: Gives(items[n], k, v) ==> k in all && all[k] == v)
            && (k in all ==> Gives(items[n], k, all[k]) || (k in before && all[k] == before[k]))
            && ((forall v :: !Gives(items[n], k, v)) && k in before ==> k in all && all[k] == before[k])
  {
    hide Gives, DefaultsOf;
    var n := |items| - 1;
    assert Defaults(List(items)) == Defaults(List(items[..n])) + DefaultsOf(items[n]);
    forall v ensures Gives(items[n], k, v) <==> k in DefaultsOf(items[n]) && DefaultsOf(items[n])[k] == v {
      GivesIff(items[n], k, v);
    }
    if k in DefaultsOf(items[n]) {
      assert Gives(items[n], k, DefaultsOf(items[n])[k]);
    }
  }

  /** Every default comes from an entry that gives it. */
  lemma {:induction false} DefaultGiven(items: seq<Value>, k: string)
    requires k in Defaults(List(items))
    ensures exists n :: 0 <= n < |items| && Gives(items[n], k, Defaults(List(items))[k])
    decreases |items|
  {
    var n, v := |items| - 1, Defaults(List(items))[k];
    assert items != [];
    hide Gives, Defaults;
    DefaultsStep(items, k);
    if !Gives(items[n], k, v) {
      DefaultGiven(items[..n], k);
      var m :| 0 <= m < n && Gives(items[..n][m], k, v);
      assert Gives(items[m], k, v);
    }
  }

  /** The last entry that gives a key decides its default. */
  lemma {:induction false} LastDefaultWins(items: seq<Value>, k: string, n: nat, v: Value)
    requires n < |items| && Gives(items[n], k, v) && forall i, w :: n < i < |items| ==> !Gives(items[i], k, w)
    ensures k in Defaults(List(items)) && Defaults(List(items))[k] == v
    decreases |items|
  {
    hide Gives, Defaults;
    DefaultsStep(items, k);
    if n < |items| - 1 {
      LastDefaultWins(items[..|items| - 1], k, n, v);
    }
  }

  /** One text is one entry, and anything else gives nothing. */
  lemma OtherDefaults(v: Value)
    ensures v.Text? ==> Defaults(v) == Defaults(List([v]))
    ensures !v.Text? && !v.List? ==> Defaults(v) == map[]
  {
    assert [v][..0] == [];
    hide DefaultsOf;
    assert DefaultsIn([v]) == DefaultsOf(v);
  }
}
