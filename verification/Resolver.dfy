/** The substituting resolver over one store (secret/resolver.go). The store is
    an arbitrary oracle that may answer differently at every call; so is the
    expiry of a cache entry. */
module Resolver {
  import opened Values
  import opened Paths
  import opened SecretRef
  import opened Admission

  datatype Error = Unrouted(key: string) | StoreFailed(key: string) | BadField(field: string) | Synthesized

  /** One read of the store, and whether it succeeded. */
  datatype Call = Call(key: string, version: string, ok: bool)

  /** What resolution reads and changes: the cache and the reads made so far. */
  datatype State = State(cache: map<string, Value>, calls: seq<Call>)

  datatype Settings = Settings(
    prefix: string,
    cacheEnabled: bool,
    store: (nat, string, string) -> Option<Value>,
    expired: (nat, string) -> bool,
    format: Value -> string)

  function CacheKey(cfg: Settings, key: string, version: string): string { cfg.prefix + key + ":" + version }

  /** extractPath: the member of a structured secret. */
  function Extract(v: Value, field: string): Result<Value, Error> {
    if field == "" then Ok(v)
    else match GetPath(map["" := v], [""] + Split(field))
      case None => Err(BadField(field))
      case Some(x) => Ok(x)
  }

  function Usable(cfg: Settings, st: State, k: string): bool {
    cfg.cacheEnabled && k in st.cache && !cfg.expired(|st.calls|, k)
  }

  /** resolveKey on an open resolver. */
  function ResolveKey(cfg: Settings, st: State, r: Reference): (Result<Value, Error>, State) {
    var k := CacheKey(cfg, r.key, r.version);
    if Usable(cfg, st, k) then (Extract(st.cache[k], r.field), st)
    else match cfg.store(|st.calls|, cfg.prefix + r.key, r.version)
      case None => (Err(StoreFailed(r.key)), st.(calls := st.calls + [Call(cfg.prefix + r.key, r.version, false)]))
      case Some(v) =>
        (Extract(v, r.field),
         State(if cfg.cacheEnabled then st.cache[k := v] else st.cache,
               st.calls + [Call(cfg.prefix + r.key, r.version, true)]))
  }

  /** Resolving references in order, going no further than the first failure. */
  function ResolveAll(cfg: Settings, st: State, hits: seq<Hit>): (r: (Result<seq<Value>, Error>, State))
    ensures r.0.Ok? ==> |r.0.value| == |hits|
    decreases |hits|
  {
    if hits == [] then (Ok([]), st)
    else
      var (r, st1) := ResolveKey(cfg, st, hits[0].ref);
      match r
      case Err(e) => (Err(e), st1)
      case Ok(v) =>
        var (rest, st2) := ResolveAll(cfg, st1, hits[1..]);
        match rest
        case Err(e) => (Err(e), st2)
        case Ok(vs) => (Ok([v] + vs), st2)
  }

  function Texts(cfg: Settings, vs: seq<Value>): (texts: seq<string>)
    ensures |texts| == |vs|
  {
    seq(|vs|, i requires 0 <= i < |vs| => cfg.format(vs[i]))
  }

  /** The key of the first reference that names a provider. */
  function FirstRouted(hits: seq<Hit>): Option<string> {
    if hits == [] then None
    else if hits[0].ref.provider != "" then Some(hits[0].ref.key)
    else FirstRouted(hits[1..])
  }

  /** Resolve, as a function of the state it starts from. */
  function Resolved(cfg: Settings, st: State, value: string): (Result<string, Error>, State) {
    var hits := Find(value, 0);
    match FirstRouted(hits)
    case Some(key) => (Err(Unrouted(key)), st)
    case None =>
      if hits == [] then (Ok(value), st)
      else
        var (all, st') := ResolveAll(cfg, st, hits);
        match all
        case Err(e) => (Err(e), st')
        case Ok(vs) =>
          FindWithin(value);
          var text := Splice(value, hits, Texts(cfg, vs));
          if Contains(text) then (Err(Synthesized), st') else (Ok(text), st')
  }

  lemma ResolvedSteps(cfg: Settings, st: State, value: string)
    ensures var hits := Find(value, 0);
            && Within(hits, value)
            && (forall key :: FirstRouted(hits) == Some(key) ==> Resolved(cfg, st, value) == (Err(Unrouted(key)), st))
            && (hits == [] ==> Resolved(cfg, st, value) == (Ok(value), st))
            && (FirstRouted(hits).None? && hits != [] ==>
                  var (all, st') := ResolveAll(cfg, st, hits);
                  (all.Err? ==> Resolved(cfg, st, value) == (Err(all.error), st')) &&
                  (all.Ok? ==> var text := Splice(value, hits, Texts(cfg, all.value));
                               Resolved(cfg, st, value) == if Contains(text) then (Err(Synthesized),
                                   st') else (Ok(text), st')))
  {
    FindWithin(value);
  }

  /** No read follows a failed one, and reads never exceed references. */
  lemma {:induction false} NoReadAfterFailure(cfg: Settings, st: State, hits: seq<Hit>)
    ensures var (r, st') := ResolveAll(cfg, st, hits);
            && st.calls <= st'.calls && |st'.calls| <= |st.calls| + |hits|
            && (forall k :: |st.calls| <= k < |st'.calls| && !st'.calls[k].ok ==> k == |st'.calls| - 1 && r.Err?)
    decreases |hits|
  {
    if hits != [] {
      NoReadAfterFailure(cfg, ResolveKey(cfg, st, hits[0].ref).1, hits[1..]);
    }
  }

  /** When the n-th reference is the first to fail, only the references up to it
      have been looked at: the outcome is that of resolving them alone. */
  lemma {:induction false} StopsAtFailure(cfg: Settings, st: State, hits: seq<Hit>, n: nat)
    requires n <= |hits| && ResolveAll(cfg, st, hits[..n]).0.Err?
    ensures ResolveAll(cfg, st, hits) == ResolveAll(cfg, st, hits[..n])
    decreases |hits|
  {
    if n > 0 {
      assert hits[..n][1..] == hits[1..][..n - 1];
      var (r, st1) := ResolveKey(cfg, st, hits[0].ref);
      if r.Ok? {
        StopsAtFailure(cfg, st1, hits[1..], n - 1);
      }
    }
  }

  lemma {:induction false} ResolvePrefix(cfg: Settings, st: State, hits: seq<Hit>, n: nat)
    requires n < |hits|
    ensures var (r, st1) := ResolveAll(cfg, st, hits[..n]);
            r.Ok? ==>
              var (x, st2) := ResolveKey(cfg, st1, hits[n].ref);
              ResolveAll(cfg, st, hits[..n + 1]) == (if x.Ok? then Ok(r.value + [x.value]) else Err(x.error), st2)
    decreases |hits|
  {
    assert hits[..n + 1][1..] == hits[1..][..n];
    if n > 0 {
      assert hits[..n][1..] == hits[1..][..n - 1];
      var (r, st1) := ResolveKey(cfg, st, hits[0].ref);
      if r.Ok? {
        ResolvePrefix(cfg, st1, hits[1..], n - 1);
        assert hits[1..][n - 1] == hits[n] && hits[..n + 1][0] == hits[0];
        var (rest, st2) := ResolveAll(cfg, st1, hits[1..][..n - 1]);
        if rest.Ok? {
          assert ResolveAll(cfg, st, hits[..n]) == (Ok([r.value] + rest.value), st2);
          var (x, st3) := ResolveKey(cfg, st2, hits[n].ref);
          if x.Ok? {
            assert [r.value] + (rest.value + [x.value]) == [r.value] + rest.value + [x.value];
          }
        }
      }
    } else {
      assert hits[..1][1..] == [] && hits[..1][0] == hits[0];
      var (x, st2) := ResolveKey(cfg, st, hits[0].ref);
      if x.Ok? {
        assert [x.value] + [] == [] + [x.value];
      }
    }
  }

  class Resolver {
    const cfg: Settings
    var st: State

    constructor (cfg: Settings)
      ensures this.cfg == cfg && st == State(map[], [])
    {
      this.cfg := cfg;
      st := State(map[], []);
    }

    method ClearCache()
      modifies this
      ensures st == old(st).(cache := map[])
    {
      st := st.(cache := map[]);
    }

    /** extractPath moves a cursor through nested maps. */
    method ExtractPath(v: Value, field: string) returns (r: Result<Value, Error>)
      ensures r == Extract(v, field)
    {
      if field == "" {
        return Ok(v);
      }
      var parts, current, i := Split(field), v, 0;
      ghost var all := GetPath(map["" := v], [""] + parts);
      assert v.Map? ==> ([""] + parts)[1..] == parts;
      while i < |parts|
        invariant 0 <= i <= |parts|
        invariant i < |parts| ==> all == (if current.Map? then GetPath(current.entries, parts[i..]) else None)
        invariant i == |parts| ==> all == Some(current)
      {
        if !current.Map? || parts[i] !in current.entries {
          return Err(BadField(field));
        }
        assert i + 1 < |parts| ==> parts[i..][1..] == parts[i + 1..];
        current, i := current.entries[parts[i]], i + 1;
      }
      return Ok(current);
    }

    method Lookup(r: Reference) returns (x: Result<Value, Error>)
      modifies this
      ensures (x, st) == ResolveKey(cfg, old(st), r)
    {
      var k := CacheKey(cfg, r.key, r.version);
      if cfg.cacheEnabled && k in st.cache && !cfg.expired(|st.calls|, k) {
        x := ExtractPath(st.cache[k], r.field);
        return;
      }
      var fullKey := cfg.prefix + r.key;
      var got := cfg.store(|st.calls|, fullKey, r.version);
      st := st.(calls := st.calls + [Call(fullKey, r.version, got.Some?)]);
      if got.None? {
        return Err(StoreFailed(r.key));
      }
      if cfg.cacheEnabled {
        st := st.(cache := st.cache[k := got.value]);
      }
      x := ExtractPath(got.value, r.field);
    }

    /** Resolve. The replacement callback runs for every match, but once lastErr
        is set it does nothing. */
    method Resolve(value: string) returns (out: string, err: Option<Error>)
      modifies this
      ensures var (r, st') := Resolved(cfg, old(st), value);
              && st == st'
              && (r.Ok? ==> out == r.value && err.None?)
              && (r.Err? ==> out == value && err == Some(r.error))
    {
      ResolvedSteps(cfg, st, value);
      hide *;
      var hits := Find(value, 0);
      var routed := Route(hits);
      if routed.Some? {
        return value, Some(Unrouted(routed.value));
      }
      if hits == [] {
        return value, None;
      }
      var lastErr, text := ReplaceAll(value, hits);
      if lastErr.Some? {
        return value, lastErr;
      }
      if Contains(text) {
        return value, Some(Synthesized);
      }
      return text, None;
    }

    method Route(hits: seq<Hit>) returns (routed: Option<string>)
      ensures routed == FirstRouted(hits)
    {
      for n := 0 to |hits|
        invariant FirstRouted(hits) == FirstRouted(hits[n..])
      {
        assert hits[n..][1..] == hits[n + 1..];
        if hits[n].ref.provider != "" {
          return Some(hits[n].ref.key);
        }
      }
      return None;
    }

    method ReplaceAll(value: string, hits: seq<Hit>) returns (lastErr: Option<Error>, text: string)
      requires Within(hits, value)
      modifies this
      ensures var (all, st') := ResolveAll(cfg, old(st), hits);
              && st == st'
              && lastErr == (if all.Err? then Some(all.error) else None)
              && (all.Ok? ==> text == Splice(value, hits, Texts(cfg, all.value)))
    {
      hide ResolveKey, ResolveAll;
      lastErr, text := None, "";
      ghost var vs := [];
      ResolveNone(cfg, st);
      assert hits[..0] == [];
      for n := 0 to |hits|
        invariant lastErr.Some? ==> ResolveAll(cfg, old(st), hits) == (Err(lastErr.value), st)
        invariant lastErr.None? ==> |vs| == n && ResolveAll(cfg, old(st), hits[..n]) == (Ok(vs), st)
        invariant lastErr.None? ==> text == Built(value, hits, Texts(cfg, vs))
      {
        if lastErr.None? {
          ResolvePrefix(cfg, old(st), hits, n);
          var x := Lookup(hits[n].ref);
          if x.Err? {
            lastErr := Some(x.error);
            StopsAtFailure(cfg, old(st), hits, n + 1);
          } else {
            text := text + value[EndOf(hits, n)..hits[n].start] + cfg.format(x.value);
            assert Texts(cfg, vs + [x.value])[..n] == Texts(cfg, vs);
            vs := vs + [x.value];
          }
        }
      }
      assert hits[..|hits|] == hits;
      if lastErr.None? && EndOf(hits, |hits|) <= |value| {
        text := text + value[EndOf(hits, |hits|)..];
      }
    }
  }

  lemma ResolveNone(cfg: Settings, st: State)
    ensures ResolveAll(cfg, st, []) == (Ok([]), st)
  {
  }

  /** No read follows a failed read, nothing is read for a string without a
      reference or with a routed one, and each reference costs at most one. */
  lemma ResolvedReads(cfg: Settings, st: State, value: string)
    ensures var (r, st') := Resolved(cfg, st, value);
            && st.calls <= st'.calls && |st'.calls| <= |st.calls| + |Find(value, 0)|
            && (FirstRouted(Find(value, 0)).Some? ==> st' == st && r.Err?)
            && (forall k :: |st.calls| <= k < |st'.calls| && !st'.calls[k].ok ==> k == |st'.calls| - 1 && r.Err?)
  {
    hide Find, ResolveAll, Splice, Contains;
    NoReadAfterFailure(cfg, st, Find(value, 0));
  }

  /** Resolving a resolved string changes nothing and reads nothing. */
  lemma ResolveIdempotent(cfg: Settings, st: State, value: string)
    requires Resolved(cfg, st, value).0.Ok?
    ensures var (r, st') := Resolved(cfg, st, value);
            !Contains(r.value) && Resolved(cfg, st', r.value) == (r, st')
  {
    var (r, st') := Resolved(cfg, st, value);
    hide Find, ResolveAll, Splice;
    assert !Contains(r.value) ==> Find(r.value, 0) == [];
  }

  lemma NoColonAfter(a: string, v: string, k: nat)
    requires Component(v) && |a| < k < |a| + 1 + |v|
    ensures (a + ":" + v)[k] != ':'
  {
    assert (a + ":" + v)[k] == v[k - |a| - 1];
  }

  lemma LastColon(a: string, b: string, v: string, w: string)
    requires Component(v) && Component(w) && a + ":" + v == b + ":" + w
    ensures a == b && v == w
  {
    var s := a + ":" + v;
    assert s[|a|] == ':' && s[|b|] == ':' && |s| == |b| + 1 + |w|;
    if |a| < |b| {
      NoColonAfter(a, v, |b|);
    } else if |b| < |a| {
      NoColonAfter(b, w, |a|);
    }
    assert a == s[..|a|] && b == s[..|b|];
    assert v == s[|a| + 1..] && w == s[|b| + 1..];
  }

  /** Two references share a cache entry only when they name the same secret and
      version, so the cache never answers with another secret's value. */
  lemma CacheKeysDistinct(cfg: Settings, r: Reference, q: Reference)
    requires Valid(r) && Valid(q)
    ensures CacheKey(cfg, r.key, r.version) == CacheKey(cfg, q.key, q.version) <==>
            r.key == q.key && r.version == q.version
  {
    if CacheKey(cfg, r.key, r.version) == CacheKey(cfg, q.key, q.version) {
      LastColon(cfg.prefix + r.key, cfg.prefix + q.key, r.version, q.version);
      assert r.key == (cfg.prefix + r.key)[|cfg.prefix|..];
      assert q.key == (cfg.prefix + q.key)[|cfg.prefix|..];
    }
  }
}
