/** What substitution makes of a text with references in it: each reference is
    replaced by its own answer, and the text around them stays
    (config_secret_self.go, secret/resolver.go). */
module Templates {
  import opened Values
  import Paths
  import opened SecretRef
  import opened Admission
  import opened Materialize
  import opened Positions

  /** Gaps and texts in turn. */
  function Weave(gaps: seq<string>, texts: seq<string>): string
    requires |gaps| == |texts| + 1
    decreases |texts|
  {
    if texts == [] then gaps[0] else gaps[0] + (texts[0] + Weave(gaps[1..], texts[1..]))
  }

  /** What lies between the hits. */
  function GapsOf(s: string, hits: seq<Hit>): (gaps: seq<string>)
    requires Within(hits, s)
    ensures |gaps| == |hits| + 1
  {
    seq(|hits| + 1, n requires 0 <= n <= |hits| =>
      if n < |hits| then s[EndOf(hits, n)..hits[n].start]
      else if EndOf(hits, n) <= |s| then s[EndOf(hits, n)..] else "")
  }

  lemma {:induction false} WeaveSnoc(gaps: seq<string>, texts: seq<string>, gap: string, text: string)
    requires |gaps| == |texts| + 1
    ensures Weave(gaps + [gap], texts + [text]) == Weave(gaps, texts) + text + gap
    decreases |texts|
  {
    if texts != [] {
      assert (gaps + [gap])[1..] == gaps[1..] + [gap] && (texts + [text])[1..] == texts[1..] + [text];
      WeaveSnoc(gaps[1..], texts[1..], gap, text);
      Regrouped(gaps[0], texts[0], Weave(gaps[1..], texts[1..]), text, gap);
    } else {
      assert (gaps + [gap])[1..] == [gap] && [text][1..] == [];
    }
  }

  lemma Regrouped(a: string, b: string, c: string, d: string, e: string)
    ensures a + (b + (c + d + e)) == a + (b + c) + d + e
  {
  }

  lemma BuiltGap(s: string, hits: seq<Hit>, texts: seq<string>, n: nat)
    requires Within(hits, s) && |texts| == |hits| && n < |hits|
    ensures Built(s, hits, texts[..n + 1]) == Built(s, hits, texts[..n]) + GapsOf(s, hits)[n] + texts[n]
    ensures Built(s, hits, texts[..0]) == ""
  {
    BuiltSteps(s, hits, texts);
    hide Built, Within;
  }

  lemma Snoc(xs: seq<string>, n: nat)
    requires n < |xs|
    ensures xs[..n + 1] == xs[..n] + [xs[n]] && (n + 1 == |xs| ==> xs[..n + 1] == xs)
  {
  }

  lemma WeaveNext(gaps: seq<string>, texts: seq<string>, n: nat)
    requires 0 < n < |gaps| && n <= |texts|
    ensures Weave(gaps[..n + 1], texts[..n]) == Weave(gaps[..n], texts[..n - 1]) + texts[n - 1] + gaps[n]
  {
    hide Weave;
    Snoc(gaps, n);
    Snoc(texts, n - 1);
    WeaveSnoc(gaps[..n], texts[..n - 1], gaps[n], texts[n - 1]);
  }

  lemma WeaveFirst(gaps: seq<string>, texts: seq<string>)
    requires gaps != []
    ensures Weave(gaps[..1], texts[..0]) == gaps[0]
  {
  }

  lemma NothingBefore(gap: string, text: string)
    ensures "" + gap + text == gap + text
  {
  }

  lemma {:induction false} BuiltWeave(s: string, hits: seq<Hit>, texts: seq<string>, n: nat)
    requires Within(hits, s) && |texts| == |hits| && n < |hits|
    ensures Built(s, hits, texts[..n + 1]) == Weave(GapsOf(s, hits)[..n + 1], texts[..n]) + texts[n]
    decreases n
  {
    hide *;
    var gaps := GapsOf(s, hits);
    BuiltGap(s, hits, texts, n);
    if n > 0 {
      BuiltWeave(s, hits, texts, n - 1);
      WeaveNext(gaps, texts, n);
    } else {
      WeaveFirst(gaps, texts);
      NothingBefore(gaps[0], texts[0]);
    }
  }

  lemma SpliceLast(s: string, hits: seq<Hit>, texts: seq<string>)
    requires Within(hits, s) && |texts| == |hits|
    ensures Splice(s, hits, texts) == Built(s, hits, texts) + GapsOf(s, hits)[|hits|]
    ensures hits == [] ==> GapsOf(s, hits) == [s] && Splice(s, hits, texts) == s
  {
  }

  lemma SpliceSome(s: string, hits: seq<Hit>, texts: seq<string>)
    requires Within(hits, s) && |texts| == |hits| && hits != []
    ensures Splice(s, hits, texts) == Weave(GapsOf(s, hits), texts)
  {
    hide *;
    var n, gaps := |hits|, GapsOf(s, hits);
    Snoc(texts, n - 1);
    Snoc(gaps, n);
    SpliceLast(s, hits, texts);
    BuiltWeave(s, hits, texts, n - 1);
    WeaveNext(gaps, texts, n);
  }

  /** A substitution keeps the gaps and puts in the texts in order. */
  lemma SpliceWeave(s: string, hits: seq<Hit>, texts: seq<string>)
    requires Within(hits, s) && |texts| == |hits|
    ensures Splice(s, hits, texts) == Weave(GapsOf(s, hits), texts)
  {
    if hits != [] {
      SpliceSome(s, hits, texts);
    } else {
      SpliceLast(s, hits, texts);
      hide GapsOf, Splice;
    }
  }

  ghost predicate OpenerFree(s: string) { forall i :: 0 <= i < |s| ==> !OpenerAt(s, i) }

  /** A text with the references refs, spelled as in texts. */
  ghost predicate Spelled(gaps: seq<string>, texts: seq<string>, refs: seq<Reference>) {
    && |refs| == |texts| && |gaps| == |texts| + 1 && (forall n :: 0 <= n < |gaps| ==> OpenerFree(gaps[n]))
    && forall n :: 0 <= n < |texts| ==> Parse(texts[n]) == Some(refs[n])
  }

  lemma NoOpenerInGap(pre: string, gap: string, rest: string, j: nat)
    requires OpenerFree(gap) && (rest == "" || rest[0] == '$') && |pre| <= j < |pre| + |gap|
    ensures !OpenerAt(pre + (gap + rest), j)
  {
    var s, k := pre + (gap + rest), j - |pre|;
    assert s[j..] == gap[k..] + rest;
    assert !OpenerAt(gap, k);
    hide OpenerFree;
    if OpenerAt(s, j) {
      OpenerCuts(gap[k..], rest);
    }
  }

  lemma NoHitInGap(pre: string, gap: string, rest: string, j: nat)
    requires OpenerFree(gap) && (rest == "" || rest[0] == '$') && |pre| <= j < |pre| + |gap|
    ensures HitAt(pre + (gap + rest), j).None?
  {
    hide *;
    NoOpenerInGap(pre, gap, rest, j);
    if HitAt(pre + (gap + rest), j).Some? {
      HitSpan(pre + (gap + rest), j);
    }
  }

  /** No opener runs from a text into a reference. */
  lemma OpenerCuts(a: string, rest: string)
    requires OPENER <= a + rest && a != "" && (rest == "" || rest[0] == '$')
    ensures OPENER <= a
  {
    assert forall k :: 0 < k < |OPENER| ==> OPENER[k] != '$';
    assert forall k :: 0 <= k < |OPENER| ==> (a + rest)[k] == OPENER[k];
    assert rest != "" ==> (a + rest)[|a|] == rest[0];
    assert a == (a + rest)[..|a|];
  }

  lemma {:induction false} SkipGap(pre: string, gap: string, rest: string, j: nat)
    requires OpenerFree(gap) && (rest == "" || rest[0] == '$') && |pre| <= j <= |pre| + |gap|
    ensures Find(pre + (gap + rest), j) == Find(pre + (gap + rest), |pre| + |gap|)
    decreases |pre| + |gap| - j
  {
    hide HitAt, Find, OpenerFree;
    if j < |pre| + |gap| {
      NoHitInGap(pre, gap, rest, j);
      FindStep(pre + (gap + rest), j);
      SkipGap(pre, gap, rest, j + 1);
    }
  }

  /** Where the references of such a text are. */
  function HitsFrom(at: nat, gaps: seq<string>, texts: seq<string>, refs: seq<Reference>): (hits: seq<Hit>)
    requires |refs| == |texts| && |gaps| == |texts| + 1
    ensures |hits| == |texts|
    decreases |texts|
  {
    if texts == [] then []
    else
      var i := at + |gaps[0]|;
      [Hit(i, i + |texts[0]|, refs[0])] + HitsFrom(i + |texts[0]|, gaps[1..], texts[1..], refs[1..])
  }

  lemma SpelledRest(gaps: seq<string>, texts: seq<string>, refs: seq<Reference>)
    requires Spelled(gaps, texts, refs) && texts != []
    ensures Spelled(gaps[1..], texts[1..], refs[1..]) && OpenerFree(gaps[0]) && Derives(texts[0], refs[0])
    ensures texts[0] != "" && texts[0][0] == '$'
  {
    hide Parse, OpenerFree, Derives;
    ParseIff(texts[0], refs[0]);
    DerivedShape(texts[0], refs[0]);
  }

  lemma FindEnd(s: string)
    ensures Find(s, |s|) == []
  {
  }

  lemma FindsNext(pre: string, gap: string, text: string, r: Reference, rest: string)
    requires OpenerFree(gap) && Derives(text, r) && text != "" && text[0] == '$'
    ensures var s, i := pre + (gap + (text + rest)), |pre| + |gap|;
            && s == pre + gap + text + rest && i + |text| <= |s|
            && Find(s, |pre|) == [Hit(i, i + |text|, r)] + Find(s, i + |text|)
  {
    hide HitAt, Find, OpenerFree, Derives;
    var s, i := pre + (gap + (text + rest)), |pre| + |gap|;
    Cut(pre, gap, text, rest);
    SkipGap(pre, gap, text + rest, |pre|);
    HitComplete(s, i, i + |text|, r);
    FindStep(s, i);
  }

  lemma FindsNone(pre: string, gap: string)
    requires OpenerFree(gap)
    ensures Find(pre + gap, |pre|) == []
  {
    assert gap + "" == gap;
    hide Find, OpenerFree;
    SkipGap(pre, gap, "", |pre|);
    FindEnd(pre + gap);
  }

  lemma HitsNext(at: nat, gaps: seq<string>, texts: seq<string>, refs: seq<Reference>)
    requires |refs| == |texts| && |gaps| == |texts| + 1 && texts != []
    ensures var i := at + |gaps[0]|;
            HitsFrom(at, gaps, texts, refs) ==
            [Hit(i, i + |texts[0]|, refs[0])] + HitsFrom(i + |texts[0]|, gaps[1..], texts[1..], refs[1..])
    ensures Weave(gaps, texts) == gaps[0] + (texts[0] + Weave(gaps[1..], texts[1..]))
  {
  }

  lemma SpelledSizes(gaps: seq<string>, texts: seq<string>, refs: seq<Reference>)
    requires Spelled(gaps, texts, refs)
    ensures |refs| == |texts| && |gaps| == |texts| + 1 && OpenerFree(gaps[0])
    ensures texts == [] ==> Weave(gaps, texts) == gaps[0] && forall at: nat :: HitsFrom(at, gaps, texts, refs) == []
  {
    hide Parse, OpenerFree;
  }

  lemma {:induction false} FindsSpelled(pre: string, gaps: seq<string>, texts: seq<string>, refs: seq<Reference>)
    requires Spelled(gaps, texts, refs) && |refs| == |texts| && |gaps| == |texts| + 1
    ensures Find(pre + Weave(gaps, texts), |pre|) == HitsFrom(|pre|, gaps, texts, refs)
    decreases |texts|
  {
    hide *;
    SpelledSizes(gaps, texts, refs);
    if texts == [] {
      FindsNone(pre, gaps[0]);
    } else {
      SpelledRest(gaps, texts, refs);
      HitsNext(|pre|, gaps, texts, refs);
      FindsNext(pre, gaps[0], texts[0], refs[0], Weave(gaps[1..], texts[1..]));
      FindsSpelled(pre + gaps[0] + texts[0], gaps[1..], texts[1..], refs[1..]);
    }
  }

  lemma Cut(a: string, b: string, c: string, d: string)
    ensures var s, i := a + (b + (c + d)), |a| + |b|;
            && s[i..i + |c|] == c && s == a + b + c + d && s[|a|..i] == b && i + |c| <= |s|
  {
  }

  /** The pieces of such a text. */
  lemma {:induction false} PiecesAt(pre: string, gaps: seq<string>, texts: seq<string>, refs: seq<Reference>, n: nat)
    requires |refs| == |texts| && |gaps| == |texts| + 1 && n <= |texts|
    ensures var s, hits := pre + Weave(gaps, texts), HitsFrom(|pre|, gaps, texts, refs);
            var i := if n == 0 then |pre| else hits[n - 1].end;
            if n == |texts| then i <= |s| && s[i..] == gaps[n]
            else i <= hits[n].start <= hits[n].end <= |s| && s[i..hits[n].start] == gaps[n]
    decreases |texts|
  {
    if texts != [] {
      var rest := Weave(gaps[1..], texts[1..]);
      Cut(pre, gaps[0], texts[0], rest);
      if n > 0 {
        PiecesAt(pre + gaps[0] + texts[0], gaps[1..], texts[1..], refs[1..], n - 1);
      }
    }
  }

  /** A text with well-formed references and no other opener, after substitution:
      each reference's text is replaced by its own, in order. */
  lemma SpelledSplice(gaps: seq<string>, texts: seq<string>, refs: seq<Reference>, answers: seq<string>)
    requires Spelled(gaps, texts, refs) && |answers| == |texts|
    ensures var s := Weave(gaps, texts);
            && |Find(s, 0)| == |refs| && (forall n :: 0 <= n < |refs| ==> Find(s, 0)[n].ref == refs[n])
            && Within(Find(s, 0), s) && Splice(s, Find(s, 0), answers) == Weave(gaps, answers)
  {
    hide *;
    SpelledSizes(gaps, texts, refs);
    var s, hits := Weave(gaps, texts), HitsFrom(0, gaps, texts, refs);
    assert "" + s == s;
    FindsSpelled("", gaps, texts, refs);
    FindWithin(s);
    SpliceWeave(s, hits, answers);
    SpelledGaps(gaps, texts, refs);
    forall n | 0 <= n < |refs| ensures hits[n].ref == refs[n] {
      RefsFrom(0, gaps, texts, refs, n);
    }
  }

  lemma SpelledGaps(gaps: seq<string>, texts: seq<string>, refs: seq<Reference>)
    requires |refs| == |texts| && |gaps| == |texts| + 1
    requires Within(HitsFrom(0, gaps, texts, refs), Weave(gaps, texts))
    ensures GapsOf(Weave(gaps, texts), HitsFrom(0, gaps, texts, refs)) == gaps
  {
    hide Weave, HitsFrom;
    var s, hits := Weave(gaps, texts), HitsFrom(0, gaps, texts, refs);
    assert "" + s == s;
    forall n | 0 <= n < |gaps| ensures GapsOf(s, hits)[n] == gaps[n] {
      PiecesAt("", gaps, texts, refs, n);
    }
  }

  lemma {:induction false} RefsFrom(at: nat, gaps: seq<string>, texts: seq<string>, refs: seq<Reference>, n: nat)
    requires |refs| == |texts| && |gaps| == |texts| + 1 && n < |refs|
    ensures HitsFrom(at, gaps, texts, refs)[n].ref == refs[n]
    decreases n
  {
    if n > 0 {
      RefsFrom(at + |gaps[0]| + |texts[0]|, gaps[1..], texts[1..], refs[1..], n - 1);
    }
  }

  ghost predicate Answers(refs: seq<Reference>, store: Store, answers: seq<string>) {
    |answers| == |refs| && forall n :: 0 <= n < |refs| ==> store(refs[n]) == Some(answers[n])
  }

  lemma AnswersFetched(hits: seq<Hit>, refs: seq<Reference>, store: Store, answers: seq<string>)
    requires |hits| == |refs| && forall n :: 0 <= n < |refs| ==> hits[n].ref == refs[n]
    requires Answers(refs, store, answers)
    ensures ReadsAll(hits, store) && Fetched(hits, store) == answers
  {
  }

  /** A text whose openers all start references is filled by the store's answer
      for each of them, in its place. */
  lemma FilledTemplate(gaps: seq<string>, texts: seq<string>, refs: seq<Reference>, store: Store, answers: seq<string>)
    requires Spelled(gaps, texts, refs) && |gaps| == |texts| + 1 && Answers(refs, store, answers)
    ensures |answers| == |texts| && FillText(Weave(gaps, texts), store) == Weave(gaps, answers)
  {
    SpelledSizes(gaps, texts, refs);
    var s := Weave(gaps, texts);
    assert |answers| == |refs|;
    hide Find, Weave, Spelled, Splice, Answers;
    SpelledSplice(gaps, texts, refs, answers);
    AnswersFetched(Find(s, 0), refs, store, answers);
  }

  lemma OriginalsParse(s: string, n: nat)
    requires n < |Find(s, 0)| && Within(Find(s, 0), s)
    ensures SecretRef.Parse(Originals(s, Find(s, 0))[n]) == Some(Find(s, 0)[n].ref)
  {
    var h := Find(s, 0)[n];
    assert h in Find(s, 0);
    hide HitAt, Find, SecretRef.Parse;
    HitSpan(s, h.start);
  }

  lemma AnsweredPieces(s: string, refs: seq<Reference>, store: Store, answers: seq<string>)
    requires var hits := Find(s, 0);
             |hits| == |refs| && (forall n :: 0 <= n < |refs| ==> hits[n].ref == refs[n]) && Within(hits, s)
    requires Answers(refs, store, answers)
    ensures |answers| == |refs| && FillText(s, store) == Weave(GapsOf(s, Find(s, 0)), answers)
  {
    var hits := Find(s, 0);
    assert |answers| == |refs|;
    hide Find, Weave, Splice, GapsOf, Within, Answers;
    AnswersFetched(hits, refs, store, answers);
    SpliceWeave(s, hits, answers);
  }

  lemma OwnPieces(s: string)
    requires Within(Find(s, 0), s)
    ensures s == Weave(GapsOf(s, Find(s, 0)), Originals(s, Find(s, 0)))
  {
    hide *;
    SpliceBack(s, Find(s, 0));
    SpliceWeave(s, Find(s, 0), Originals(s, Find(s, 0)));
  }

  /** Any text: it is made of gaps and references, and what it is filled with is
      the same gaps and, for each reference, the answer for what its text parses
      to; it can be filled when all have one. */
  lemma FilledPieces(s: string, store: Store) returns (gaps: seq<string>, texts: seq<string>, refs: seq<Reference>)
    ensures |gaps| == |texts| + 1 && |refs| == |texts| && s == Weave(gaps, texts)
    ensures forall n :: 0 <= n < |texts| ==> SecretRef.Parse(texts[n]) == Some(refs[n])
    ensures ReadsAll(Find(s, 0), store) <==> forall n :: 0 <= n < |refs| ==> store(refs[n]).Some?
    ensures forall answers :: Answers(refs, store, answers) ==>
              |answers| == |texts| && FillText(s, store) == Weave(gaps, answers)
  {
    hide *;
    FindWithin(s);
    gaps, texts, refs := GapsOf(s, Find(s, 0)), Originals(s, Find(s, 0)), RefsOf(Find(s, 0));
    forall n | 0 <= n < |texts| ensures SecretRef.Parse(texts[n]) == Some(refs[n]) {
      OriginalsParse(s, n);
    }
    OwnPieces(s);
    RefsRead(Find(s, 0), store);
    forall answers | Answers(refs, store, answers)
      ensures |answers| == |texts| && FillText(s, store) == Weave(gaps, answers)
    {
      AnsweredPieces(s, refs, store, answers);
    }
  }

  function RefsOf(hits: seq<Hit>): (refs: seq<Reference>)
    ensures |refs| == |hits| && forall n :: 0 <= n < |hits| ==> refs[n] == hits[n].ref
  {
    seq(|hits|, n requires 0 <= n < |hits| => hits[n].ref)
  }

  lemma RefsRead(hits: seq<Hit>, store: Store)
    ensures ReadsAll(hits, store) <==> forall n :: 0 <= n < |hits| ==> store(RefsOf(hits)[n]).Some?
  {
    hide RefsOf;
    var refs := RefsOf(hits);
    forall n | 0 <= n < |hits| && ReadsAll(hits, store) ensures store(refs[n]).Some? {
      assert store(hits[n].ref).Some?;
    }
    forall n | 0 <= n < |hits| && store(refs[n]).Some? ensures store(hits[n].ref).Some? {
    }
  }

  /** A tree is filled string by string: every position holds what it held, a
      string with its references replaced. */
  lemma {:induction false} FilledAt(v: Value, pos: seq<Move>, store: Store)
    ensures match At(v, pos)
            case None => At(Filled(v, store), pos).None?
            case Some(Text(s)) => At(Filled(v, store), pos) == Some(Text(FillText(s, store)))
            case Some(List(items)) =>
              At(Filled(v, store), pos).Some? && At(Filled(v, store), pos).value.List? &&
              |At(Filled(v, store), pos).value.items| == |items|
            case Some(Map(m)) =>
              At(Filled(v, store), pos).Some? && At(Filled(v, store), pos).value.Map? &&
              At(Filled(v, store), pos).value.entries.Keys == m.Keys
            case Some(x) => At(Filled(v, store), pos) == Some(x)
    decreases |pos|
  {
    hide FillText;
    if pos != [] {
      AtInside(v, pos);
      AtInside(Filled(v, store), pos);
      if v.Map? && pos[0].Key? && pos[0].key in v.entries {
        FilledAt(v.entries[pos[0].key], pos[1..], store);
      } else if v.List? && pos[0].Item? && pos[0].index < |v.items| {
        FilledAt(v.items[pos[0].index], pos[1..], store);
      }
    }
  }

  /** A tree can be filled exactly when each of its strings can. */
  lemma ResolvableIff(v: Value, store: Store)
    ensures Resolvable(v, store) <==> forall pos, s :: TextAt(v, pos, s) ==> ReadsAll(Find(s, 0), store)
  {
    hide *;
    if Resolvable(v, store) {
      forall pos, s | TextAt(v, pos, s) ensures ReadsAll(Find(s, 0), store) {
        ResolvableDown(v, store, pos, s);
      }
    }
    if forall pos, s :: TextAt(v, pos, s) ==> ReadsAll(Find(s, 0), store) {
      ResolvableUp(v, store);
    }
  }

  lemma {:induction false} ResolvableDown(v: Value, store: Store, pos: seq<Move>, s: string)
    requires Resolvable(v, store) && TextAt(v, pos, s)
    ensures ReadsAll(Find(s, 0), store)
    decreases |pos|
  {
    hide ReadsAll, Find, TextAt;
    TextInside(v, pos, s);
    if v.Map? {
      ResolvableDown(v.entries[pos[0].key], store, pos[1..], s);
    } else if v.List? {
      ResolvableDown(v.items[pos[0].index], store, pos[1..], s);
    }
  }

  lemma {:induction false} ResolvableUp(v: Value, store: Store)
    requires forall pos, s :: TextAt(v, pos, s) ==> ReadsAll(Find(s, 0), store)
    ensures Resolvable(v, store)
    decreases v
  {
    assert v.Text? ==> TextAt(v, [], v.text);
    hide ReadsAll, Find, TextAt;
    match v {
      case List(items) =>
        forall i | 0 <= i < |items| ensures Resolvable(items[i], store) {
          forall pos, s | TextAt(items[i], pos, s) ensures ReadsAll(Find(s, 0), store) {
            TextOutside(v, Item(i), pos, s);
          }
          ResolvableUp(items[i], store);
        }
      case Map(m) =>
        forall k | k in m ensures Resolvable(m[k], store) {
          forall pos, s | TextAt(m[k], pos, s) ensures ReadsAll(Find(s, 0), store) {
            TextOutside(v, Key(k), pos, s);
          }
          ResolvableUp(m[k], store);
        }
      case _ =>
    }
  }

  /** A tree is admitted exactly when each of its strings is. */
  lemma AdmittedIff(v: Value)
    ensures AdmittedValue(v) <==> forall pos, s :: TextAt(v, pos, s) ==> Admitted(s)
  {
    hide *;
    if AdmittedValue(v) {
      forall pos, s | TextAt(v, pos, s) ensures Admitted(s) {
        AdmittedDown(v, pos, s);
      }
    }
    if forall pos, s :: TextAt(v, pos, s) ==> Admitted(s) {
      AdmittedUp(v);
    }
  }

  lemma {:induction false} AdmittedDown(v: Value, pos: seq<Move>, s: string)
    requires AdmittedValue(v) && TextAt(v, pos, s)
    ensures Admitted(s)
    decreases |pos|
  {
    hide Admitted, TextAt;
    TextInside(v, pos, s);
    if v.Map? {
      AdmittedDown(v.entries[pos[0].key], pos[1..], s);
    } else if v.List? {
      AdmittedDown(v.items[pos[0].index], pos[1..], s);
    }
  }

  lemma {:induction false} AdmittedUp(v: Value)
    requires forall pos, s :: TextAt(v, pos, s) ==> Admitted(s)
    ensures AdmittedValue(v)
    decreases v
  {
    assert v.Text? ==> TextAt(v, [], v.text);
    hide Admitted, TextAt;
    match v {
      case List(items) =>
        forall i | 0 <= i < |items| ensures AdmittedValue(items[i]) {
          forall pos, s | TextAt(items[i], pos, s) ensures Admitted(s) {
            TextOutside(v, Item(i), pos, s);
          }
          AdmittedUp(items[i]);
        }
      case Map(m) =>
        forall k | k in m ensures AdmittedValue(m[k]) {
          forall pos, s | TextAt(m[k], pos, s) ensures Admitted(s) {
            TextOutside(v, Key(k), pos, s);
          }
          AdmittedUp(m[k]);
        }
      case _ =>
    }
  }
}
