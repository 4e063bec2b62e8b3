/** Dotted key paths: parsing, and the value-level meaning of the path
    operations (configmap/path.go). Store.dfy ties the in-place operations to
    these functions. */
module Paths {
  import opened Values

  type Path = p: seq<string> | |p| > 0 witness [""]

  /** strings.Split(s, "."). */
  function Split(s: string): (parts: Path) {
    if s == "" then [""]
    else
      var rest := Split(s[1..]);
      if s[0] == '.' then [""] + rest else [[s[0]] + rest[0]] + rest[1..]
  }

  /** strings.Join(parts, "."). */
  function Join(parts: Path): string {
    if |parts| == 1 then parts[0] else parts[0] + "." + Join(parts[1..])
  }

  /** The dotted path of a key inside the map at path. */
  function ChildPath(path: string, key: string): string {
    if path == "" then key else path + "." + key
  }

  /** The dotted path of the keys below path. */
  function PathOf(path: string, keys: seq<string>): string
    decreases |keys|
  {
    if keys == [] then path else PathOf(ChildPath(path, keys[0]), keys[1..])
  }

  predicate Segment(s: string) { s != "" && '.' !in s }

  /** The segments of a path, unless it is empty or has an empty segment. */
  function Parse(path: string): Option<Path> {
    if path == "" || "" in Split(path) then None else Some(Split(path))
  }

  lemma {:induction false} JoinOfSplit(s: string)
    ensures Join(Split(s)) == s
  {
    if s != "" {
      var rest := Split(s[1..]);
      JoinOfSplit(s[1..]);
      var parts := Split(s);
      if s[0] == '.' {
        assert parts[1..] == rest;
      } else if |rest| > 1 {
        assert parts[1..] == rest[1..];
      }
    }
  }

  lemma {:induction false} SplitOfDotFree(s: string)
    requires '.' !in s
    ensures Split(s) == [s]
  {
    if s != "" {
      assert s[0] in s;
      SplitOfDotFree(s[1..]);
      assert s == [s[0]] + s[1..];
    }
  }

  lemma {:induction false} SplitOfConcat(a: string, b: string)
    requires '.' !in a
    ensures Split(a + "." + b) == [a] + Split(b)
  {
    if a == "" {
      assert (a + "." + b)[1..] == b;
    } else {
      assert a[0] in a;
      assert (a + "." + b)[1..] == a[1..] + "." + b;
      SplitOfConcat(a[1..], b);
      assert a == [a[0]] + a[1..];
    }
  }

  lemma {:induction false} SplitOfJoin(parts: Path)
    requires forall i :: 0 <= i < |parts| ==> '.' !in parts[i]
    ensures Split(Join(parts)) == parts
  {
    if |parts| == 1 {
      SplitOfDotFree(parts[0]);
    } else {
      SplitOfJoin(parts[1..]);
      SplitOfConcat(parts[0], Join(parts[1..]));
    }
  }

  /** strings.HasPrefix(b, a+"."): b lies strictly below a. */
  predicate Below(a: string, b: string) { a + "." <= b }

  /** The textual test HasPrefix(b, a+".") is the strict-prefix test on segments. */
  lemma {:induction false} BelowIsStrictPrefix(a: string, b: string)
    ensures Below(a, b) <==> |Split(a)| < |Split(b)| && Split(b)[..|Split(a)|] == Split(a)
  {
    if a == "" {
      if b != "" && b[0] != '.' {
        assert Split(b)[0] != "";
      }
    } else if b == "" {
    } else {
      var ra, rb := Split(a[1..]), Split(b[1..]);
      BelowIsStrictPrefix(a[1..], b[1..]);
      assert Below(a, b) <==> a[0] == b[0] && Below(a[1..], b[1..]) by {
        assert a + "." == [a[0]] + (a[1..] + ".");
        assert b == [b[0]] + b[1..];
      }
      if a[0] == '.' && b[0] == '.' {
        if |ra| < |rb| {
          assert Split(b)[..|Split(a)|] == [""] + rb[..|ra|];
          assert Split(b)[..|Split(a)|][1..] == rb[..|ra|];
        }
      } else if a[0] == '.' {
        assert Split(a)[0] == "" && Split(b)[0] != "";
      } else if b[0] == '.' {
        assert Split(a)[0] != "" && Split(b)[0] == "";
      } else if |ra| < |rb| {
        var pb := Split(b)[..|ra|];
        assert pb == [[b[0]] + rb[0]] + rb[..|ra|][1..];
        assert Split(a) == [[a[0]] + ra[0]] + ra[1..];
        if pb == Split(a) {
          assert pb[0] == Split(a)[0];
          assert ([b[0]] + rb[0])[1..] == ([a[0]] + ra[0])[1..];
          assert rb[0] == ra[0];
          assert pb[1..] == rb[..|ra|][1..];
          assert Split(a)[1..] == ra[1..];
          assert rb[..|ra|] == [rb[0]] + rb[..|ra|][1..];
          assert ra == [ra[0]] + ra[1..];
          assert rb[..|ra|] == ra;
        }
        if rb[..|ra|] == ra {
          assert rb[0] == rb[..|ra|][0];
        }
      }
    }
  }

  /** At or below a path: its segments are a prefix. */
  lemma AtOrBelow(a: string, b: string)
    ensures a == b || Below(a, b) <==> Split(a) <= Split(b)
  {
    BelowIsStrictPrefix(a, b);
    JoinOfSplit(a);
    JoinOfSplit(b);
    hide Split, Join, Below;
    var p, q := Split(a), Split(b);
    if p <= q && |p| == |q| {
      assert p == q;
    }
  }

  /** Get on a tree: the value at the path, if every step is a map holding it. */
  function GetPath(t: Tree, p: Path): Option<Value>
    decreases |p|
  {
    if p[0] !in t then None
    else if |p| == 1 then Some(t[p[0]])
    else if t[p[0]].Map? then GetPath(t[p[0]].entries, p[1..])
    else None
  }

  /** The map a write descends into at k: an absent key is an empty map, and
      None means that k holds something other than a map. */
  function Child(t: Tree, k: string): Option<Tree> {
    if k !in t then Some(map[]) else if t[k].Map? then Some(t[k].entries) else None
  }

  /** Set on a tree; None when a step on the way holds something other than a map. */
  function SetPath(t: Tree, p: Path, v: Value): Option<Tree>
    decreases |p|
  {
    if |p| == 1 then Some(t[p[0] := v])
    else match Child(t, p[0])
      case None => None
      case Some(m) =>
        match SetPath(m, p[1..], v)
        case None => None
        case Some(m') => Some(t[p[0] := Map(m')])
  }

  predicate Comparable(p: seq<string>, q: seq<string>) { p <= q || q <= p }

  lemma TailsIncomparable(p: Path, q: Path)
    requires !Comparable(p, q) && p[0] == q[0]
    ensures |p| > 1 && |q| > 1 && !Comparable(p[1..], q[1..])
  {
    assert p == [p[0]] + p[1..] && q == [q[0]] + q[1..];
  }

  /** A write fails exactly when a proper prefix of its path holds a non-map. */
  lemma {:induction false} SetFailsIff(t: Tree, p: Path, v: Value)
    ensures SetPath(t, p, v).None? <==>
            exists i :: 0 < i < |p| && GetPath(t, p[..i]).Some? && !GetPath(t, p[..i]).value.Map?
    decreases |p|
  {
    if |p| > 1 {
      assert p[..1] == [p[0]];
      if Child(t, p[0]).None? {
        assert GetPath(t, p[..1]) == Some(t[p[0]]);
      } else {
        var m := Child(t, p[0]).value;
        SetFailsIff(m, p[1..], v);
        forall i | 1 < i < |p|
          ensures GetPath(t, p[..i]) == GetPath(m, p[1..][..i - 1])
        {
          assert p[..i][1..] == p[1..][..i - 1];
        }
        if SetPath(m, p[1..], v).None? {
          var i :| 0 < i < |p[1..]| && GetPath(m, p[1..][..i]).Some? && !GetPath(m, p[1..][..i]).value.Map?;
          assert GetPath(t, p[..i + 1]) == GetPath(m, p[1..][..i]);
        }
      }
    }
  }

  /** Get after Set returns the stored value. */
  lemma {:induction false} GetAfterSet(t: Tree, p: Path, v: Value)
    requires SetPath(t, p, v).Some?
    ensures GetPath(SetPath(t, p, v).value, p) == Some(v)
    decreases |p|
  {
    if |p| > 1 {
      GetAfterSet(Child(t, p[0]).value, p[1..], v);
    }
  }

  /** Set changes nothing at a path that neither contains nor lies on its own. */
  lemma {:induction false} SetFrame(t: Tree, p: Path, v: Value, q: Path)
    requires SetPath(t, p, v).Some? && !Comparable(p, q)
    ensures GetPath(SetPath(t, p, v).value, q) == GetPath(t, q)
    decreases |p|
  {
    if p[0] == q[0] {
      TailsIncomparable(p, q);
      SetFrame(Child(t, p[0]).value, p[1..], v, q[1..]);
    }
  }

  /** A write elsewhere does not decide whether a write succeeds. */
  lemma {:induction false} SetElsewhereSucceeds(t: Tree, p: Path, x: Value, r: Path, v: Value)
    requires SetPath(t, p, x).Some? && !Comparable(p, r)
    ensures SetPath(SetPath(t, p, x).value, r, v).Some? <==> SetPath(t, r, v).Some?
    decreases |p|
  {
    if p[0] == r[0] {
      TailsIncomparable(p, r);
      SetElsewhereSucceeds(Child(t, p[0]).value, p[1..], x, r[1..], v);
    }
  }

  lemma UpdateTwice(t: Tree, k: string, x: Value, y: Value)
    ensures t[k := x][k := y] == t[k := y]
  {
  }

  lemma UpdatesCommute(t: Tree, k: string, x: Value, l: string, y: Value)
    requires k != l
    ensures t[k := x][l := y] == t[l := y][k := x]
  {
  }

  lemma SetStep(t: Tree, p: Path, v: Value)
    requires SetPath(t, p, v).Some?
    ensures p[0] in SetPath(t, p, v).value
    ensures SetPath(t, p, v).value == t[p[0] := SetPath(t, p, v).value[p[0]]]
    ensures |p| > 1 ==> Child(t, p[0]).Some? && Child(SetPath(t, p, v).value, p[0]) == SetPath(Child(t, p[0]).value,
              p[1..], v)
  {
  }

  lemma SetElsewhere(t: Tree, k: string, x: Value, q: Path, w: Value)
    requires k != q[0] && SetPath(t, q, w).Some?
    ensures SetPath(t[k := x], q, w) == Some(t[k := x][q[0] := SetPath(t, q, w).value[q[0]]])
  {
    assert Child(t[k := x], q[0]) == Child(t, q[0]);
  }

  /** Writes to incomparable paths commute. */
  lemma {:induction false} SetsCommute(t: Tree, p: Path, v: Value, q: Path, w: Value)
    requires !Comparable(p, q)
    requires SetPath(t, p, v).Some? && SetPath(t, q, w).Some?
    ensures SetPath(SetPath(t, p, v).value, q, w).Some?
    ensures SetPath(SetPath(t, p, v).value, q, w) == SetPath(SetPath(t, q, w).value, p, v)
    decreases |p|
  {
    var k, l, tp, tq := p[0], q[0], SetPath(t, p, v).value, SetPath(t, q, w).value;
    SetStep(t, p, v);
    SetStep(t, q, w);
    if k == l {
      TailsIncomparable(p, q);
      var m := Child(t, k).value;
      var mp, mq := Child(tp, k).value, Child(tq, k).value;
      SetsCommute(m, p[1..], v, q[1..], w);
      var m' := SetPath(mp, q[1..], w).value;
      assert SetPath(tp, q, w) == Some(tp[k := Map(m')]);
      assert SetPath(tq, p, v) == Some(tq[k := Map(m')]);
      UpdateTwice(t, k, tp[k], Map(m'));
      UpdateTwice(t, k, tq[k], Map(m'));
    } else {
      SetElsewhere(t, k, tp[k], q, w);
      SetElsewhere(t, l, tq[l], p, v);
      UpdatesCommute(t, k, tp[k], l, tq[l]);
    }
  }

  /** Setting twice at one path is setting once. */
  lemma {:induction false} SetTwice(t: Tree, p: Path, v: Value, w: Value)
    requires SetPath(t, p, v).Some?
    ensures SetPath(SetPath(t, p, v).value, p, w) == SetPath(t, p, w)
    decreases |p|
  {
    var k, t' := p[0], SetPath(t, p, v).value;
    if |p| > 1 {
      SetTwice(Child(t, k).value, p[1..], v, w);
      assert Child(t', k) == SetPath(Child(t, k).value, p[1..], v);
      if SetPath(t', p, w).Some? {
        UpdateTwice(t, k, t'[k], SetPath(t', p, w).value[k]);
      }
    } else {
      UpdateTwice(t, k, v, w);
    }
  }
}
