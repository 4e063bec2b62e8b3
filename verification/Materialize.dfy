/** Materialization: every reference in the unresolved tree is replaced by what
    the secret store returns (config_materialize.go, with the hook of
    config_secret_self.go). */
module Materialize {
  import opened Values
  import opened SecretRef
  import opened Admission

  /** What reading a reference gives: the text put in its place, or a failure. */
  type Store = Reference -> Option<string>

  predicate ReadsAll(hits: seq<Hit>, store: Store) { forall k :: 0 <= k < |hits| ==> store(hits[k].ref).Some? }

  function Fetched(hits: seq<Hit>, store: Store): (texts: seq<string>)
    ensures |texts| == |hits|
  {
    seq(|hits|, k requires 0 <= k < |hits| => store(hits[k].ref).GetOr(""))
  }

  /** The hook on one string. */
  function FillText(s: string, store: Store): string {
    FindWithin(s);
    Splice(s, Find(s, 0), Fetched(Find(s, 0), store))
  }

  /** No leaf of v fails to materialize. */
  predicate Resolvable(v: Value, store: Store)
    decreases v
  {
    match v
    case Text(t) => ReadsAll(Find(t, 0), store)
    case List(items) => forall i :: 0 <= i < |items| ==> Resolvable(items[i], store)
    case Map(m) => forall k :: k in m ==> Resolvable(m[k], store)
    case _ => true
  }

  /** The sequential result. */
  function Filled(v: Value, store: Store): (r: Value)
    ensures v.Map? <==> r.Map?
    ensures v.Map? ==> r.entries.Keys == v.entries.Keys
    decreases v
  {
    match v
    case Text(t) => Text(FillText(t, store))
    case List(items) => List(seq(|items|, i requires 0 <= i < |items| => Filled(items[i], store)))
    case Map(m) => Map(map k | k in m :: Filled(m[k], store))
    case _ => v
  }

  lemma PlainText(s: string, store: Store)
    requires !Contains(s)
    ensures FillText(s, store) == s && ReadsAll(Find(s, 0), store)
  {
  }

  /** A failed key, whose own materialization fails. */
  datatype Failure = Failure(key: string)

  datatype Status = Idle | Busy(index: nat) | Exited

  function Weight(ws: seq<Status>): nat {
    if ws == [] then 0
    else (match ws[0] case Exited => 0 case Idle => 1 case Busy(_) => 2) + Weight(ws[1..])
  }

  lemma {:induction false} WeightUpdate(ws: seq<Status>, w: nat, x: Status)
    requires w < |ws|
    ensures Weight(ws[w := x]) == Weight(ws) - Weight([ws[w]]) + Weight([x])
  {
    if w == 0 {
      assert ws[0 := x][1..] == ws[1..];
    } else {
      assert ws[w := x][1..] == ws[1..][w - 1 := x];
      WeightUpdate(ws[1..], w - 1, x);
    }
  }

  /** The value a job leaves behind, if it has run. */
  ghost predicate Done(store: Store, m: Tree, keys: seq<string>, values: seq<Option<Value>>, i: nat)
    requires i < |keys| == |values| && keys[i] in m
  {
    values[i].Some? && Resolvable(m[keys[i]], store) && values[i].value == Filled(m[keys[i]], store)
  }

  /** What holds between any two steps of the workers: no index is lost unless a
      failure is recorded, and a recorded failure is a real one. */
  ghost predicate PoolInv(store: Store, m: Tree, keys: seq<string>, values: seq<Option<Value>>, ws: seq<Status>,
                          next: nat, cause: Option<Failure>) {
    && |keys| == |values| && (forall k :: k in keys <==> k in m)
    && next <= |keys|
    && (forall w :: 0 <= w < |ws| && ws[w].Busy? ==> ws[w].index < next)
    && (cause.Some? ==> cause.value.key in m && !Resolvable(m[cause.value.key], store))
    && (cause.None? ==>
          (forall i :: 0 <= i < next ==> Done(store, m, keys, values, i) || Busy(i) in ws) &&
          (Exited in ws ==> next == |keys|))
  }

  lemma PoolStart(store: Store, m: Tree, keys: seq<string>, values: seq<Option<Value>>, ws: seq<Status>)
    requires |keys| == |values| && forall k :: k in keys <==> k in m
    requires forall w :: 0 <= w < |ws| ==> ws[w] == Idle
    ensures PoolInv(store, m, keys, values, ws, 0, None)
  {
  }

  lemma BusyIndex(store: Store, m: Tree, keys: seq<string>, values: seq<Option<Value>>, ws: seq<Status>,
                  next: nat, cause: Option<Failure>, w: nat)
    requires PoolInv(store, m, keys, values, ws, next, cause) && w < |ws| && ws[w].Busy?
    ensures ws[w].index < |keys| == |values| && keys[ws[w].index] in m
  {
    assert keys[ws[w].index] in keys;
  }

  /** An idle worker takes the next job, or exits: because the queue is empty,
      or because a failure is recorded, dropping the job it received. */
  lemma Receive(store: Store, m: Tree, keys: seq<string>, values: seq<Option<Value>>, ws: seq<Status>,
                next: nat, cause: Option<Failure>, w: nat, x: Status)
    requires PoolInv(store, m, keys, values, ws, next, cause) && w < |ws| && ws[w] == Idle
    requires x == if next < |keys| && cause.None? then Busy(next) else Exited
    ensures PoolInv(store, m, keys, values, ws[w := x], if next < |keys| then next + 1 else next, cause)
    ensures Weight(ws[w := x]) == Weight(ws) + (if x.Busy? then 1 else -1)
  {
    hide Resolvable, Filled;
    WeightUpdate(ws, w, x);
    forall i | 0 <= i < next && Busy(i) in ws ensures Busy(i) in ws[w := x] {
      var v :| 0 <= v < |ws| && ws[v] == Busy(i);
      assert ws[w := x][v] == Busy(i);
    }
    assert ws[w := x][w] == x;
    if cause.None? && Exited in ws[w := x] {
      var v :| 0 <= v < |ws| && ws[w := x][v] == Exited;
      assert v != w ==> ws[v] == Exited;
    }
  }

  lemma Fail(store: Store, m: Tree, keys: seq<string>, values: seq<Option<Value>>, ws: seq<Status>,
             next: nat, cause: Option<Failure>, w: nat)
    requires PoolInv(store, m, keys, values, ws, next, cause) && w < |ws| && ws[w].Busy?
    requires ws[w].index < |keys| && keys[ws[w].index] in m
    requires cause.Some? || !Resolvable(m[keys[ws[w].index]], store)
    ensures PoolInv(store, m, keys, values, ws[w := Idle], next,
              if cause.Some? then cause else Some(Failure(keys[ws[w].index])))
    ensures Weight(ws[w := Idle]) == Weight(ws) - 1
  {
    hide Resolvable, Filled;
    WeightUpdate(ws, w, Idle);
  }

  lemma Complete(store: Store, m: Tree, keys: seq<string>, values: seq<Option<Value>>, ws: seq<Status>,
                 next: nat, cause: Option<Failure>, w: nat)
    requires PoolInv(store, m, keys, values, ws, next, cause) && w < |ws| && ws[w].Busy?
    requires ws[w].index < |keys| == |values| && keys[ws[w].index] in m
    requires Resolvable(m[keys[ws[w].index]], store)
    ensures PoolInv(store, m, keys, values[ws[w].index := Some(Filled(m[keys[ws[w].index]], store))], ws[w := Idle],
              next, cause)
    ensures Weight(ws[w := Idle]) == Weight(ws) - 1
  {
    hide Resolvable, Filled;
    WeightUpdate(ws, w, Idle);
    var j := ws[w].index;
    var values' := values[j := Some(Filled(m[keys[j]], store))];
    forall i | 0 <= i < next && cause.None?
      ensures Done(store, m, keys, values', i) || Busy(i) in ws[w := Idle]
    {
      assert keys[i] in keys;
      if i != j && Busy(i) in ws {
        var v :| 0 <= v < |ws| && ws[v] == Busy(i);
        assert ws[w := Idle][v] == Busy(i);
      }
    }
    if cause.None? && Exited in ws[w := Idle] {
      var v :| 0 <= v < |ws| && ws[w := Idle][v] == Exited;
      assert ws[v] == Exited;
    }
  }

  /** When every worker has exited, either a real failure is recorded or every
      index is filled. */
  lemma PoolEnd(store: Store, m: Tree, keys: seq<string>, values: seq<Option<Value>>, ws: seq<Status>,
                next: nat, cause: Option<Failure>)
    requires PoolInv(store, m, keys, values, ws, next, cause) && |ws| > 0
    requires forall w :: 0 <= w < |ws| ==> ws[w] == Exited
    ensures cause.Some? ==> cause.value.key in m && !Resolvable(m[cause.value.key], store) && !Resolvable(Map(m), store)
    ensures cause.None? ==> Resolvable(Map(m), store)
    ensures cause.None? ==> forall i :: 0 <= i < |keys| ==> keys[i] in m && Done(store, m, keys, values, i)
    ensures cause.None? ==> Map(Collect(m, keys, values)) == Filled(Map(m), store)
  {
    assert ws[0] == Exited;
    if cause.None? {
      hide Resolvable, Filled;
      forall i | 0 <= i < |keys| ensures keys[i] in m && Done(store, m, keys, values, i) {
        assert keys[i] in keys;
      }
      forall k | k in m ensures Resolvable(m[k], store) && Collect(m, keys, values)[k] == Filled(m[k], store) {
        assert k in keys;
      }
      MapDone(m, Collect(m, keys, values), store);
    }
  }

  lemma MapDone(m: Tree, out: Tree, store: Store)
    requires out.Keys == m.Keys && forall k :: k in m ==> Resolvable(m[k], store) && out[k] == Filled(m[k], store)
    ensures Resolvable(Map(m), store) && Map(out) == Filled(Map(m), store)
  {
    hide FillText, ReadsAll;
    assert Filled(Map(m), store).entries == out;
  }

  /** The final loop over keys and values. */
  function Collect(m: Tree, keys: seq<string>, values: seq<Option<Value>>): Tree
    requires |keys| == |values|
  {
    map k | k in m && k in keys :: values[IndexOf(keys, k)].GetOr(Null)
  }

  function IndexOf(keys: seq<string>, k: string): (i: nat)
    requires k in keys
    ensures i < |keys| && keys[i] == k
  {
    if keys[0] == k then 0 else 1 + IndexOf(keys[1..], k)
  }

  lemma ListDone(items: seq<Value>, xs: seq<Value>, store: Store)
    requires |xs| == |items|
    requires forall i :: 0 <= i < |items| ==> Resolvable(items[i], store) && xs[i] == Filled(items[i], store)
    ensures Resolvable(List(items), store) && List(xs) == Filled(List(items), store)
  {
    hide FillText, ReadsAll;
    assert Filled(List(items), store).items == xs;
  }

  lemma ListFails(items: seq<Value>, i: nat, store: Store)
    requires i < |items| && !Resolvable(items[i], store)
    ensures !Resolvable(List(items), store)
  {
    hide ReadsAll;
  }

  class Materializer {
    const store: Store
    const concurrency: nat

    constructor (store: Store, concurrency: nat)
      ensures this.store == store && this.concurrency == concurrency
    {
      this.store, this.concurrency := store, concurrency;
    }

    method ApplyText(s: string) returns (r: Option<string>)
      ensures r == if ReadsAll(Find(s, 0), store) then Some(FillText(s, store)) else None
    {
      FindWithin(s);
      r := Replace(s, Find(s, 0));
    }

    /** The replacement callback, once per match; nothing is read after a failure. */
    method Replace(s: string, hits: seq<Hit>) returns (r: Option<string>)
      requires Within(hits, s)
      ensures r == if ReadsAll(hits, store) then Some(Splice(s, hits, Fetched(hits, store))) else None
    {
      hide Built, Within;
      var text := "";
      ghost var texts := Fetched(hits, store);
      BuiltSteps(s, hits, texts);
      for n := 0 to |hits|
        invariant forall k :: 0 <= k < n ==> store(hits[k].ref).Some?
        invariant text == Built(s, hits, texts[..n])
      {
        var got := store(hits[n].ref);
        if got.None? {
          return None;
        }
        HitInside(s, hits, n);
        text := text + s[EndOf(hits, n)..hits[n].start] + got.value;
      }
      assert texts[..|hits|] == texts;
      return Some(text + if EndOf(hits, |hits|) <= |s| then s[EndOf(hits, |hits|)..] else "");
    }

    /** One value, the way a worker or the sequential walk handles it. */
    method Apply(v: Value) returns (r: Option<Value>)
      ensures r.Some? <==> Resolvable(v, store)
      ensures r.Some? ==> r.value == Filled(v, store)
      decreases v, 2
    {
      match v {
        case Text(t) =>
          var x := ApplyText(t);
          return if x.Some? then Some(Text(x.value)) else None;
        case List(items) =>
          var xs := ApplyList(items);
          return if xs.Some? then Some(List(xs.value)) else None;
        case Map(m) =>
          var x := ApplyMap(m, false);
          return if x.Ok? then Some(Map(x.value)) else None;
        case _ =>
          return Some(v);
      }
    }

    /** applySecretHookToSlice: maps inside a list may use the pool again. */
    method ApplyList(items: seq<Value>) returns (r: Option<seq<Value>>)
      ensures r.Some? <==> Resolvable(List(items), store)
      ensures r.Some? ==> List(r.value) == Filled(List(items), store)
      decreases List(items), 1
    {
      hide Resolvable, Filled;
      var xs := [];
      for i := 0 to |items|
        invariant |xs| == i
        invariant forall j :: 0 <= j < i ==> Resolvable(items[j], store) && xs[j] == Filled(items[j], store)
      {
        if items[i].Map? {
          var x := ApplyMap(items[i].entries, true);
          assert items[i] == Map(items[i].entries);
          if x.Err? {
            ListFails(items, i, store);
            return None;
          }
          xs := xs + [Map(x.value)];
        } else {
          var x := Apply(items[i]);
          if x.None? {
            ListFails(items, i, store);
            return None;
          }
          xs := xs + [x.value];
        }
      }
      ListDone(items, xs, store);
      return Some(xs);
    }

    /** applySecretHookRecursiveMode. */
    method ApplyMap(m: Tree, parallel: bool) returns (r: Result<Tree, Failure>)
      ensures r.Ok? <==> Resolvable(Map(m), store)
      ensures r.Ok? ==> Map(r.value) == Filled(Map(m), store)
      ensures r.Err? ==> r.error.key in m && !Resolvable(m[r.error.key], store)
      decreases Map(m), 1
    {
      if parallel && concurrency > 1 && |m| > 1 {
        r := ApplyPool(m);
        return;
      }
      var result: Tree := map[];
      var todo := m.Keys;
      while todo != {}
        invariant todo <= m.Keys && result.Keys == m.Keys - todo
        invariant forall k :: k in result ==> Resolvable(m[k], store) && result[k] == Filled(m[k], store)
        decreases todo
      {
        var k :| k in todo;
        var x := Apply(m[k]);
        if x.None? {
          return Err(Failure(k));
        }
        result := result[k := x.value];
        todo := todo - {k};
      }
      return Ok(result);
    }

    /** applySecretHookMapParallel. Each turn of the loop is one step of a worker
        chosen by an arbitrary scheduler: it receives a job, gives up, or
        finishes the job it holds. A job that runs after the first failure may
        be cut short. */
    method ApplyPool(m: Tree) returns (r: Result<Tree, Failure>)
      requires concurrency > 1 && |m| > 1
      ensures r.Ok? <==> Resolvable(Map(m), store)
      ensures r.Ok? ==> Map(r.value) == Filled(Map(m), store)
      ensures r.Err? ==> r.error.key in m && !Resolvable(m[r.error.key], store)
      decreases Map(m), 0
    {
      hide *;
      var keys := SortedKeys(m.Keys);
      var n := |keys|;
      var values := new Option<Value>[n](_ => None);
      var workers := if concurrency < n then concurrency else n;
      var ws := seq(workers, _ => Idle);
      var next, cause := 0, None;
      PoolStart(store, m, keys, values[..], ws);
      while exists w :: 0 <= w < |ws| && ws[w] != Exited
        invariant |values[..]| == n && |ws| == workers && next <= n
        invariant PoolInv(store, m, keys, values[..], ws, next, cause)
        decreases 2 * (n - next) + Weight(ws)
      {
        var w :| 0 <= w < |ws| && ws[w] != Exited;
        ghost var values0, ws0 := values[..], ws;
        match ws[w] {
          case Idle =>
            var got := if next < n then Some(next) else None;
            var x := if got.Some? && cause.None? then Busy(next) else Exited;
            Receive(store, m, keys, values0, ws0, next, cause, w, x);
            ws, next := ws[w := x], if got.Some? then next + 1 else next;
          case Busy(i) =>
            BusyIndex(store, m, keys, values0, ws0, next, cause, w);
            var x := Apply(m[keys[i]]);
            var cutShort := *;
            if x.None? || (cause.Some? && cutShort) {
              Fail(store, m, keys, values0, ws0, next, cause, w);
              cause := if cause.Some? then cause else Some(Failure(keys[i]));
            } else {
              Complete(store, m, keys, values0, ws0, next, cause, w);
              values[i] := x;
              assert values[..] == values0[i := x];
            }
            ws := ws[w := Idle];
        }
      }
      PoolEnd(store, m, keys, values[..], ws, next, cause);
      if cause.Some? {
        return Err(cause.value);
      }
      r := Ok(Collect(m, keys, values[..]));
    }
  }
}
