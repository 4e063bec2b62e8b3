/** Which value a resolver answers with: what the store returned for that secret
    and version, read at the field asked for, whatever was cached in between
    (secret/resolver.go). */
module ResolverAnswers {
  import opened Values
  import opened Paths
  import opened SecretRef
  import opened Admission
  import opened Resolver
  import opened Templates

  /** Read i asked for the key and version, and v came back. */
  ghost predicate ReadAt(cfg: Settings, calls: seq<Call>, i: nat, key: string, version: string, v: Value) {
    i < |calls| && calls[i] == Call(key, version, true) && cfg.store(i, key, version) == Some(v)
  }

  ghost predicate ReadFrom(cfg: Settings, calls: seq<Call>, key: string, version: string, v: Value) {
    exists i :: ReadAt(cfg, calls, i, key, version, v)
  }

  /** The cache holds only what the store returned for that secret and version. */
  ghost predicate Honest(cfg: Settings, st: State) {
    forall r: Reference :: Valid(r) && CacheKey(cfg, r.key, r.version) in st.cache ==>
      ReadFrom(cfg, st.calls, cfg.prefix + r.key, r.version, st.cache[CacheKey(cfg, r.key, r.version)])
  }

  /** The member of v that a field names. */
  ghost predicate AtField(v: Value, field: string, x: Value) {
    if field == "" then x == v else v.Map? && GetPath(v.entries, Split(field)) == Some(x)
  }

  lemma ExtractIff(v: Value, field: string, x: Value)
    ensures Extract(v, field) == Ok(x) <==> AtField(v, field, x)
    ensures Extract(v, field).Err? <==> Extract(v, field) == Err(BadField(field))
    ensures Extract(v, field).Err? <==> forall y :: !AtField(v, field, y)
  {
    assert ([""] + Split(field))[1..] == Split(field);
    hide GetPath;
    InsideWhole(v, Split(field));
    if Extract(v, field).Ok? {
      assert AtField(v, field, Extract(v, field).value);
    }
  }

  lemma InsideWhole(v: Value, p: Path)
    ensures GetPath(map["" := v], [""] + p) == if v.Map? then GetPath(v.entries, p) else None
  {
    assert ([""] + p)[1..] == p;
  }

  /** x is what the reference stands for, by one of the reads. */
  ghost predicate AnswerOf(cfg: Settings, calls: seq<Call>, r: Reference, x: Value) {
    exists v :: ReadFrom(cfg, calls, cfg.prefix + r.key, r.version, v) && AtField(v, r.field, x)
  }

  lemma MoreReads(cfg: Settings, a: State, b: State)
    requires Honest(cfg, a) && a.calls <= b.calls && b.cache == a.cache
    ensures Honest(cfg, b)
  {
    forall r: Reference | Valid(r) && CacheKey(cfg, r.key, r.version) in b.cache
      ensures ReadFrom(cfg, b.calls, cfg.prefix + r.key, r.version, b.cache[CacheKey(cfg, r.key, r.version)])
    {
      ReadStays(cfg, a.calls, b.calls, cfg.prefix + r.key, r.version, a.cache[CacheKey(cfg, r.key, r.version)]);
    }
  }

  lemma ReadStays(cfg: Settings, a: seq<Call>, b: seq<Call>, key: string, version: string, v: Value)
    requires ReadFrom(cfg, a, key, version, v) && a <= b
    ensures ReadFrom(cfg, b, key, version, v)
  {
    var i :| ReadAt(cfg, a, i, key, version, v);
    assert ReadAt(cfg, b, i, key, version, v);
  }

  /** A value read for a secret is put in the cache under it, and under no other. */
  lemma CachedHonest(cfg: Settings, st: State, r: Reference, v: Value)
    requires Honest(cfg, st) && Valid(r) && ReadFrom(cfg, st.calls, cfg.prefix + r.key, r.version, v)
    ensures Honest(cfg, st.(cache := st.cache[CacheKey(cfg, r.key, r.version) := v]))
  {
    hide CacheKey, ReadFrom, Valid;
    var k := CacheKey(cfg, r.key, r.version);
    forall q: Reference | Valid(q) && CacheKey(cfg, q.key, q.version) in st.cache[k := v]
      ensures ReadFrom(cfg, st.calls, cfg.prefix + q.key, q.version, st.cache[k := v][CacheKey(cfg, q.key, q.version)])
    {
      CacheKeysDistinct(cfg, q, r);
    }
  }

  /** One lookup, with a cache that is honest: the answer is the field asked for of
      a value the store returned for exactly this secret and version; from a read
      of its own unless a cached value is still usable, which it is then without
      one. It fails for a failed read, or for a field the value does not have. */
  lemma LookupAnswer(cfg: Settings, st: State, r: Reference)
    requires Valid(r) && Honest(cfg, st)
    ensures var (x, st'), k, n := ResolveKey(cfg, st, r), CacheKey(cfg, r.key, r.version), |st.calls|;
            && Honest(cfg, st') && st.calls <= st'.calls
            && (match x
                case Ok(y) => AnswerOf(cfg, st'.calls, r, y)
                case Err(StoreFailed(key)) =>
                  key == r.key && cfg.store(n, cfg.prefix + r.key, r.version).None? && |st'.calls| == n + 1
                case Err(BadField(field)) =>
                  field == r.field && exists v :: ReadFrom(cfg, st'.calls, cfg.prefix + r.key, r.version, v) &&
                                                  forall y :: !AtField(v, r.field, y)
                case Err(_) => false)
            && (cfg.cacheEnabled && k in st.cache && !cfg.expired(n, k) ==> st' == st)
            && (!cfg.cacheEnabled || k !in st.cache || cfg.expired(n, k) ==>
                  |st'.calls| == n + 1 &&
                  forall y :: x == Ok(y) ==>
                    exists v :: ReadAt(cfg, st'.calls, n, cfg.prefix + r.key, r.version, v) && AtField(v, r.field, y))
            && (cfg.cacheEnabled && x.Ok? ==> k in st'.cache)
  {
    var k, n := CacheKey(cfg, r.key, r.version), |st.calls|;
    var key := cfg.prefix + r.key;
    var (x, st') := ResolveKey(cfg, st, r);
    hide CacheKey, AtField, Extract, Honest, Valid;
    if cfg.cacheEnabled && k in st.cache && !cfg.expired(n, k) {
      HonestAt(cfg, st, r);
      FieldOf(cfg, st.calls, r, st.cache[k]);
    } else {
      var calls := st.calls + [Call(key, r.version, cfg.store(n, key, r.version).Some?)];
      MoreReads(cfg, st, st.(calls := calls));
      if cfg.store(n, key, r.version).Some? {
        var v := cfg.store(n, key, r.version).value;
        assert ReadAt(cfg, calls, n, key, r.version, v);
        FieldOf(cfg, calls, r, v);
        CachedHonest(cfg, st.(calls := calls), r, v);
        if x.Ok? {
          ExtractIff(v, r.field, x.value);
        }
      }
    }
  }

  lemma HonestAt(cfg: Settings, st: State, r: Reference)
    requires Honest(cfg, st) && Valid(r) && CacheKey(cfg, r.key, r.version) in st.cache
    ensures ReadFrom(cfg, st.calls, cfg.prefix + r.key, r.version, st.cache[CacheKey(cfg, r.key, r.version)])
  {
  }

  lemma FieldOf(cfg: Settings, calls: seq<Call>, r: Reference, v: Value)
    requires ReadFrom(cfg, calls, cfg.prefix + r.key, r.version, v)
    ensures match Extract(v, r.field)
            case Ok(y) => AnswerOf(cfg, calls, r, y) && AtField(v, r.field, y)
            case Err(e) => e == BadField(r.field) && forall y :: !AtField(v, r.field, y)
  {
    hide AtField, Extract;
    ExtractIff(v, r.field, if Extract(v, r.field).Ok? then Extract(v, r.field).value else v);
  }

  ghost predicate AnswersOf(cfg: Settings, calls: seq<Call>, refs: seq<Reference>, vs: seq<Value>) {
    |vs| == |refs| && forall n :: 0 <= n < |refs| ==> AnswerOf(cfg, calls, refs[n], vs[n])
  }

  lemma AnswerStays(cfg: Settings, a: seq<Call>, b: seq<Call>, r: Reference, x: Value)
    requires AnswerOf(cfg, a, r, x) && a <= b
    ensures AnswerOf(cfg, b, r, x)
  {
    hide AtField, ReadFrom;
    var v :| ReadFrom(cfg, a, cfg.prefix + r.key, r.version, v) && AtField(v, r.field, x);
    ReadStays(cfg, a, b, cfg.prefix + r.key, r.version, v);
  }

  /** What one lookup does to the reads and the cache. */
  lemma LookupBrief(cfg: Settings, st: State, r: Reference)
    requires Valid(r) && Honest(cfg, st)
    ensures var (x, st') := ResolveKey(cfg, st, r);
            && Honest(cfg, st') && st.calls <= st'.calls && (x.Ok? ==> AnswerOf(cfg, st'.calls, r, x.value))
            && (x.Err? ==> x.error.StoreFailed? || x.error.BadField?)
  {
    hide Honest, AnswerOf, AtField, ReadFrom, ReadAt, CacheKey, ResolveKey, Valid;
    LookupAnswer(cfg, st, r);
  }

  lemma {:induction false} AllAnswers(cfg: Settings, st: State, hits: seq<Hit>)
    requires Honest(cfg, st) && forall h :: h in hits ==> Valid(h.ref)
    ensures var (all, st') := ResolveAll(cfg, st, hits);
            && Honest(cfg, st') && st.calls <= st'.calls
            && (all.Ok? ==> AnswersOf(cfg, st'.calls, RefsOf(hits), all.value))
            && (all.Err? ==> all.error.StoreFailed? || all.error.BadField?)
    decreases |hits|
  {
    hide Honest, AnswerOf, ResolveKey, Valid;
    if hits != [] {
      var (x, st1) := ResolveKey(cfg, st, hits[0].ref);
      LookupBrief(cfg, st, hits[0].ref);
      if x.Ok? {
        AllAnswers(cfg, st1, hits[1..]);
        var (rest, st2) := ResolveAll(cfg, st1, hits[1..]);
        if rest.Ok? {
          AnswerStays(cfg, st1.calls, st2.calls, hits[0].ref, x.value);
          JoinAnswers(cfg, st2.calls, hits, x.value, rest.value);
        }
      }
    }
  }

  lemma JoinAnswers(cfg: Settings, calls: seq<Call>, hits: seq<Hit>, x: Value, rest: seq<Value>)
    requires hits != [] && AnswerOf(cfg, calls, hits[0].ref, x) && AnswersOf(cfg, calls, RefsOf(hits[1..]), rest)
    ensures AnswersOf(cfg, calls, RefsOf(hits), [x] + rest)
  {
    hide AnswerOf;
    forall n | 0 <= n < |hits| ensures AnswerOf(cfg, calls, RefsOf(hits)[n], ([x] + rest)[n]) {
      if n > 0 {
        assert AnswerOf(cfg, calls, RefsOf(hits[1..])[n - 1], rest[n - 1]);
      }
    }
  }

  lemma FoundValid(s: string)
    ensures forall h :: h in Find(s, 0) ==> Valid(h.ref)
  {
    hide Find, HitAt, Valid, Derives;
    forall h | h in Find(s, 0) ensures Valid(h.ref) {
      HitSpan(s, h.start);
      SecretRef.ParsedIsValid(s[h.start..h.end]);
    }
  }

  lemma {:induction false} Routed(hits: seq<Hit>)
    ensures FirstRouted(hits).Some? <==> exists n :: 0 <= n < |hits| && hits[n].ref.provider != ""
    decreases |hits|
  {
    if hits != [] {
      Routed(hits[1..]);
      assert forall n :: 0 < n < |hits| ==> hits[1..][n - 1] == hits[n];
    }
  }

  /** Values looked up for references, and the text of each. */
  ghost predicate Looked(cfg: Settings, calls: seq<Call>, refs: seq<Reference>, vs: seq<Value>, texts: seq<string>) {
    AnswersOf(cfg, calls, refs, vs) && |texts| == |vs| && forall n :: 0 <= n < |vs| ==> texts[n] == cfg.format(vs[n])
  }

  /** What a resolution of gaps and references may come to. */
  ghost predicate Outcome(cfg: Settings, st: State, gaps: seq<string>, refs: seq<Reference>, vs: seq<Value>,
      texts: seq<string>, r: Result<string, Error>, st': State)
    requires |gaps| == |refs| + 1
  {
    match r
    case Ok(out) =>
      && Looked(cfg, st'.calls, refs, vs, texts) && out == Weave(gaps, texts) && !Contains(out)
      && forall n :: 0 <= n < |refs| ==> refs[n].provider == ""
    case Err(Unrouted(_)) => st' == st && exists n :: 0 <= n < |refs| && refs[n].provider != ""
    case Err(Synthesized) => Looked(cfg, st'.calls, refs, vs, texts) && Contains(Weave(gaps, texts))
    case Err(_) => forall n :: 0 <= n < |refs| ==> refs[n].provider == ""
  }

  lemma NoReferences(cfg: Settings, st: State, value: string)
    requires Find(value, 0) == [] && Within([], value)
    ensures Outcome(cfg, st, GapsOf(value, []), [], [], [], Ok(value), st)
  {
    hide Find;
    assert GapsOf(value, []) == [value];
  }

  lemma RoutedText(cfg: Settings, st: State, hits: seq<Hit>, gaps: seq<string>, key: string)
    requires FirstRouted(hits) == Some(key) && |gaps| == |hits| + 1
    ensures Outcome(cfg, st, gaps, RefsOf(hits), [], [], Err(Unrouted(key)), st)
  {
    Routed(hits);
    hide FirstRouted, RefsOf;
    var n :| 0 <= n < |hits| && hits[n].ref.provider != "";
    assert RefsOf(hits)[n].provider != "";
  }

  lemma UnroutedRefs(hits: seq<Hit>)
    requires FirstRouted(hits).None?
    ensures forall n :: 0 <= n < |hits| ==> RefsOf(hits)[n].provider == ""
  {
    Routed(hits);
  }

  lemma ReadText(cfg: Settings, st: State, st': State, hits: seq<Hit>, gaps: seq<string>, vs: seq<Value>)
    requires FirstRouted(hits).None? && |gaps| == |hits| + 1 && AnswersOf(cfg, st'.calls, RefsOf(hits), vs)
    ensures |vs| == |hits| && var out := Weave(gaps, Texts(cfg, vs));
            Outcome(cfg, st, gaps, RefsOf(hits), vs, Texts(cfg, vs),
                    if Contains(out) then Err(Synthesized) else Ok(out), st')
  {
    UnroutedRefs(hits);
    hide FirstRouted, RefsOf, Weave, Contains, AnswerOf;
  }

  lemma FailedText(cfg: Settings, st: State, st': State, hits: seq<Hit>, gaps: seq<string>, e: Error)
    requires FirstRouted(hits).None? && |gaps| == |hits| + 1 && (e.StoreFailed? || e.BadField?)
    ensures Outcome(cfg, st, gaps, RefsOf(hits), [], [], Err(e), st')
  {
    UnroutedRefs(hits);
    hide FirstRouted, RefsOf, Weave, Contains;
  }

  lemma ResolvedOutcome(cfg: Settings, st: State, value: string) returns (vs: seq<Value>, texts: seq<string>)
    requires Honest(cfg, st) && Within(Find(value, 0), value)
    ensures var (r, st') := Resolved(cfg, st, value);
            && Honest(cfg, st') && st.calls <= st'.calls
            && Outcome(cfg, st, GapsOf(value, Find(value, 0)), RefsOf(Find(value, 0)), vs, texts, r, st')
  {
    hide *;
    var hits := Find(value, 0);
    var gaps := GapsOf(value, hits);
    ResolvedSteps(cfg, st, value);
    vs, texts := [], [];
    if FirstRouted(hits).Some? {
      RoutedText(cfg, st, hits, gaps, FirstRouted(hits).value);
    } else if hits == [] {
      NoReferences(cfg, st, value);
    } else {
      FoundValid(value);
      AllAnswers(cfg, st, hits);
      var (all, st') := ResolveAll(cfg, st, hits);
      if all.Ok? {
        vs, texts := all.value, Texts(cfg, all.value);
        ReadText(cfg, st, st', hits, gaps, vs);
        SpliceWeave(value, hits, Texts(cfg, vs));
      } else {
        FailedText(cfg, st, st', hits, gaps, all.error);
      }
    }
  }

  /** A whole text: what comes out is the text between its references as it was,
      and each reference replaced by the formatted answer for it, in order; a text
      with a routed reference fails without a read, and one whose answers spell a
      new reference fails too. */
  lemma ResolvedText(cfg: Settings, st: State, value: string)
    returns (gaps: seq<string>, slices: seq<string>, refs: seq<Reference>, vs: seq<Value>, texts: seq<string>)
    requires Honest(cfg, st)
    ensures |gaps| == |slices| + 1 && |refs| == |slices| && value == Weave(gaps, slices)
    ensures forall n :: 0 <= n < |slices| ==> SecretRef.Parse(slices[n]) == Some(refs[n])
    ensures var (r, st') := Resolved(cfg, st, value);
            Honest(cfg, st') && st.calls <= st'.calls && Outcome(cfg, st, gaps, refs, vs, texts, r, st')
  {
    hide *;
    FindWithin(value);
    var hits := Find(value, 0);
    gaps, slices, refs := GapsOf(value, hits), Originals(value, hits), RefsOf(hits);
    forall n | 0 <= n < |slices| ensures SecretRef.Parse(slices[n]) == Some(refs[n]) {
      OriginalsParse(value, n);
    }
    OwnPieces(value);
    vs, texts := ResolvedOutcome(cfg, st, value);
  }

  datatype Op = Resolving(value: string) | Looking(ref: Reference) | Clearing

  function After(cfg: Settings, st: State, ops: seq<Op>): State
    decreases |ops|
  {
    if ops == [] then st
    else
      var before := After(cfg, st, ops[..|ops| - 1]);
      match ops[|ops| - 1]
      case Resolving(value) => Resolved(cfg, before, value).1
      case Looking(r) => ResolveKey(cfg, before, r).1
      case Clearing => before.(cache := map[])
  }

  lemma ClearedHonest(cfg: Settings, st: State)
    ensures Honest(cfg, st.(cache := map[]))
  {
  }

  /** So in every session: the cache of a resolver only ever holds what the store
      returned for that secret and version. */
  lemma {:induction false} SessionHonest(cfg: Settings, ops: seq<Op>)
    requires forall op :: op in ops && op.Looking? ==> Valid(op.ref)
    ensures Honest(cfg, After(cfg, State(map[], []), ops))
    decreases |ops|
  {
    var start := State(map[], []);
    ClearedHonest(cfg, start);
    hide Honest, Resolved, ResolveKey, Valid, AnswerOf;
    if ops != [] {
      var n := |ops| - 1;
      SessionHonest(cfg, ops[..n]);
      var before := After(cfg, start, ops[..n]);
      match ops[n] {
        case Resolving(value) => var _, _, _, _, _ := ResolvedText(cfg, before, value);
        case Looking(r) => LookupBrief(cfg, before, r);
        case Clearing => ClearedHonest(cfg, before);
      }
    }
  }
}
