/** Scanning a string for references, and the admission check made before any
    provider is contacted (config_admission.go). */
module Admission {
  import opened Values
  import opened SecretRef

  /** A match of the grammar at s[start..end]. */
  datatype Hit = Hit(start: nat, end: nat, ref: Reference)

  /** The match that starts at position i, if there is one. */
  function HitAt(s: string, i: nat): (h: Option<Hit>)
    requires i <= |s|
    ensures h.Some? ==> h.value.start == i < h.value.end <= |s| && Derives(s[i..h.value.end], h.value.ref)
  {
    match MatchAt(s[i..])
    case None => None
    case Some(m) =>
      MatchSound(s[i..]);
      hide MatchAt, Derives;
      assert s[i..][..|s[i..]| - |m.rest|] == s[i..|s| - |m.rest|];
      Some(Hit(i, |s| - |m.rest|, m.ref))
  }

  /** HitAt misses nothing the grammar derives. */
  lemma HitComplete(s: string, i: nat, e: nat, r: Reference)
    requires i <= e <= |s| && Derives(s[i..e], r)
    ensures HitAt(s, i) == Some(Hit(i, e, r))
  {
    hide Derives;
    MatchComplete(s[i..e], r, s[e..]);
    assert s[i..] == s[i..e] + s[e..];
    hide MatchAt;
  }

  /** FindAllStringSubmatchIndex from position i: leftmost, non-overlapping. */
  function Find(s: string, i: nat): (hits: seq<Hit>)
    requires i <= |s|
    ensures forall h :: h in hits ==> i <= h.start < h.end <= |s| && HitAt(s, h.start) == Some(h)
    ensures forall j, k :: 0 <= j < k < |hits| ==> hits[j].end <= hits[k].start
    decreases |s| - i
  {
    hide HitAt;
    if i == |s| then []
    else match HitAt(s, i)
      case None => Find(s, i + 1)
      case Some(h) => [h] + Find(s, h.end)
  }

  /** Contains: s holds at least one reference. */
  predicate Contains(s: string) { Find(s, 0) != [] }

  lemma FindStep(s: string, i: nat)
    requires i < |s|
    ensures HitAt(s, i).None? ==> Find(s, i) == Find(s, i + 1)
    ensures HitAt(s, i).Some? ==> Find(s, i) == [HitAt(s, i).value] + Find(s, HitAt(s, i).value.end)
  {
    hide HitAt;
  }

  /** Scanning misses nothing: every match is found or overlaps an earlier hit. */
  lemma {:induction false} FindCovers(s: string, i: nat, j: nat)
    requires i <= j < |s| && HitAt(s, j).Some?
    ensures exists h :: h in Find(s, i) && h.start <= j < h.end
    decreases |s| - i
  {
    hide HitAt, Find;
    FindStep(s, i);
    match HitAt(s, i) {
      case None =>
        FindCovers(s, i + 1, j);
      case Some(m) =>
        assert Find(s, i)[0] == m;
        if j >= m.end {
          FindCovers(s, m.end, j);
          var h :| h in Find(s, m.end) && h.start <= j < h.end;
          assert h in Find(s, i);
        }
    }
  }

  function EndOf(hits: seq<Hit>, n: nat): nat
    requires n <= |hits|
  {
    if n == 0 then 0 else hits[n - 1].end
  }

  predicate Within(hits: seq<Hit>, s: string) {
    forall k :: 0 <= k < |hits| ==> EndOf(hits, k) <= hits[k].start <= hits[k].end <= |s|
  }

  lemma FindWithin(s: string)
    ensures Within(Find(s, 0), s)
  {
    forall k | 0 <= k < |Find(s, 0)|
      ensures EndOf(Find(s, 0), k) <= Find(s, 0)[k].start <= Find(s, 0)[k].end <= |s|
    {
      assert Find(s, 0)[k] in Find(s, 0);
    }
  }

  /** The text of s up to the end of the |texts|-th hit, with those hits replaced. */
  function Built(s: string, hits: seq<Hit>, texts: seq<string>): string
    requires |texts| <= |hits| && Within(hits, s)
    decreases |texts|
  {
    if texts == [] then ""
    else
      var n := |texts| - 1;
      Built(s, hits, texts[..n]) + s[EndOf(hits, n)..hits[n].start] + texts[n]
  }

  lemma HitInside(s: string, hits: seq<Hit>, n: nat)
    requires Within(hits, s) && n < |hits|
    ensures EndOf(hits, n) <= hits[n].start <= |s|
  {
  }

  lemma BuiltSteps(s: string, hits: seq<Hit>, texts: seq<string>)
    requires |texts| == |hits| && Within(hits, s)
    ensures Built(s, hits, texts[..0]) == ""
    ensures forall n :: 0 <= n < |hits| ==>
              Built(s, hits, texts[..n + 1]) == Built(s, hits, texts[..n]) + s[EndOf(hits, n)..hits[n].start] + texts[n]
  {
    forall n | 0 <= n < |hits|
      ensures Built(s, hits, texts[..n + 1]) == Built(s, hits, texts[..n]) + s[EndOf(hits, n)..hits[n].start] + texts[n]
    {
      assert texts[..n + 1][..n] == texts[..n];
    }
  }

  /** ReplaceAllStringFunc: s with every hit replaced by the text for it. */
  function Splice(s: string, hits: seq<Hit>, texts: seq<string>): string
    requires |hits| == |texts| && Within(hits, s)
  {
    var e := EndOf(hits, |hits|);
    Built(s, hits, texts) + if e <= |s| then s[e..] else ""
  }

  function Originals(s: string, hits: seq<Hit>): (texts: seq<string>)
    requires Within(hits, s)
    ensures |texts| == |hits|
  {
    seq(|hits|, k requires 0 <= k < |hits| => s[hits[k].start..hits[k].end])
  }

  lemma {:induction false} BuiltBack(s: string, hits: seq<Hit>, n: nat)
    requires Within(hits, s) && n <= |hits|
    ensures EndOf(hits, n) <= |s| && Built(s, hits, Originals(s, hits)[..n]) == s[..EndOf(hits, n)]
    decreases n
  {
    if n > 0 {
      BuiltBack(s, hits, n - 1);
      BuiltStep(s, hits, n);
      hide Built, Originals, Within;
      JoinCuts(s, EndOf(hits, n - 1), hits[n - 1].start, hits[n - 1].end);
    }
  }

  lemma BuiltStep(s: string, hits: seq<Hit>, n: nat)
    requires Within(hits, s) && 0 < n <= |hits|
    ensures var i, hit := EndOf(hits, n - 1), hits[n - 1];
            && i <= hit.start <= hit.end <= |s| && EndOf(hits, n) == hit.end
            && Built(s, hits, Originals(s, hits)[..n]) ==
               Built(s, hits, Originals(s, hits)[..n - 1]) + s[i..hit.start] + s[hit.start..hit.end]
  {
    assert Originals(s, hits)[..n][..n - 1] == Originals(s, hits)[..n - 1];
  }

  lemma JoinCuts(s: string, i: nat, j: nat, k: nat)
    requires i <= j <= k <= |s|
    ensures s[..i] + s[i..j] + s[j..k] == s[..k]
  {
  }

  /** Substitution touches nothing between the matches: putting every match's own
      text back gives the string back. */
  lemma SpliceBack(s: string, hits: seq<Hit>)
    requires Within(hits, s)
    ensures Splice(s, hits, Originals(s, hits)) == s
  {
    BuiltBack(s, hits, |hits|);
    assert Originals(s, hits)[..|hits|] == Originals(s, hits);
  }

  predicate OpenerAt(s: string, i: nat) { i <= |s| && OPENER <= s[i..] }

  /** Position behind the first closing brace at or after i. */
  function Close(s: string, i: nat): (e: Option<nat>)
    requires i <= |s|
    ensures e.Some? ==> i < e.value <= |s| && s[e.value - 1] == '}' && forall k :: i <= k < e.value - 1 ==> s[k] != '}'
    ensures e.None? ==> forall k :: i <= k < |s| ==> s[k] != '}'
    decreases |s| - i
  {
    if i == |s| then None else if s[i] == '}' then Some(i + 1) else Close(s, i + 1)
  }

  /** Matches of the looser pattern ${secret[^}]*}. */
  function Candidates(s: string, i: nat): (spans: seq<(nat, nat)>)
    requires i <= |s|
    ensures forall c :: c in spans ==> i <= c.0 < c.1 <= |s| && OpenerAt(s, c.0) && Close(s, c.0) == Some(c.1)
    decreases |s| - i
  {
    if i == |s| then []
    else if OpenerAt(s, i) && Close(s, i).Some? then [(i, Close(s, i).value)] + Candidates(s, Close(s, i).value)
    else Candidates(s, i + 1)
  }

  function Openers(s: string, i: nat): (at: seq<nat>)
    requires i <= |s|
    ensures forall k :: k in at <==> i <= k < |s| && OpenerAt(s, k)
    decreases |s| - i
  {
    if i == |s| then []
    else (if OpenerAt(s, i) then [i] else []) + Openers(s, i + 1)
  }

  /** A closed opener is a candidate, or lies inside an earlier candidate. */
  lemma {:induction false} CandidatesCover(s: string, i: nat, j: nat)
    requires i <= j < |s| && OpenerAt(s, j) && Close(s, j).Some?
    ensures exists c :: c in Candidates(s, i) && c.0 <= j < c.1
    decreases |s| - i
  {
    if OpenerAt(s, i) && Close(s, i).Some? {
      var e := Close(s, i).value;
      assert Candidates(s, i)[0] == (i, e);
      if j >= e {
        CandidatesCover(s, e, j);
        var c :| c in Candidates(s, e) && c.0 <= j < c.1;
        assert c in Candidates(s, i);
      }
    } else {
      CandidatesCover(s, i + 1, j);
    }
  }

  lemma {:induction false} CandidatesApart(s: string, i: nat, c: (nat, nat), d: (nat, nat))
    requires i <= |s| && c in Candidates(s, i) && d in Candidates(s, i) && c.0 < d.0
    ensures c.1 <= d.0
    decreases |s| - i
  {
    if OpenerAt(s, i) && Close(s, i).Some? {
      var e := Close(s, i).value;
      var rest := Candidates(s, e);
      assert Candidates(s, i) == [(i, e)] + rest;
      if c != (i, e) {
        CandidatesApart(s, e, c, d);
      }
    } else {
      CandidatesApart(s, i + 1, c, d);
    }
  }

  /** Exactly the last character closes. */
  predicate ClosedOnce(x: string) {
    |x| > 0 && x[|x| - 1] == '}' && forall k :: 0 <= k < |x| - 1 ==> x[k] != '}'
  }

  predicate NeverCloses(x: string) { forall k :: 0 <= k < |x| ==> x[k] != '}' }

  lemma ClosesLater(a: string, b: string)
    requires NeverCloses(a) && ClosedOnce(b)
    ensures ClosedOnce(a + b)
  {
    forall k | 0 <= k < |a + b| - 1 ensures (a + b)[k] != '}' {
      if k >= |a| { assert (a + b)[k] == b[k - |a|]; }
    }
  }

  lemma PartsOpen(r: Reference)
    requires Valid(r)
    ensures NeverCloses(if r.provider == "" then "" else "@" + r.provider)
    ensures NeverCloses(r.key) && NeverCloses(OPENER) && NeverCloses(":")
  {
    forall c: char | AliasChar(c) ensures c != '}' {
    }
  }

  lemma SpellCloses(r: Reference, form: nat)
    requires Valid(r) && form <= 2
    ensures ClosedOnce(Spell(r, form)) && OPENER <= Spell(r, form)
  {
    hide Suffix, Valid, NeverCloses, ClosedOnce;
    SuffixShape(r, form);
    PartsOpen(r);
    ClosesLater(r.key, Suffix(r, form));
    ClosesLater(":", r.key + Suffix(r, form));
    ClosesLater(if r.provider == "" then "" else "@" + r.provider, ":" + (r.key + Suffix(r, form)));
    ClosesLater(OPENER, (if r.provider == "" then "" else "@" + r.provider) + (":" + (r.key + Suffix(r, form))));
  }

  lemma DerivedShape(text: string, r: Reference)
    requires Derives(text, r)
    ensures OPENER <= text && |text| > |OPENER| && text[|text| - 1] == '}'
    ensures forall k :: 0 <= k < |text| - 1 ==> text[k] != '}'
  {
    var form :| 0 <= form <= 2 && Form(r, form) && text == Spell(r, form);
    SpellCloses(r, form);
    hide Spell, Form, Valid, Derives;
    assert |text| == |OPENER| ==> text == OPENER;
  }

  lemma SuffixShape(r: Reference, form: nat)
    requires Valid(r) && form <= 2
    ensures ClosedOnce(Suffix(r, form))
  {
  }

  lemma DerivedSpan(s: string, i: nat, e: nat, r: Reference)
    requires i <= e <= |s| && Derives(s[i..e], r)
    ensures OPENER <= s[i..] && i + |OPENER| < e && s[e - 1] == '}'
    ensures forall k :: i <= k < e - 1 ==> s[k] != '}'
  {
    hide Derives;
    var text := s[i..e];
    DerivedShape(text, r);
    assert s[i..] == text + s[e..];
    assert s[e - 1] == text[|text| - 1];
    forall k | i <= k < e - 1 ensures s[k] != '}' {
      assert s[k] == text[k - i];
    }
  }

  /** A reference starts with an opener and ends at the next closing brace. */
  lemma HitSpan(s: string, i: nat)
    requires i <= |s| && HitAt(s, i).Some?
    ensures OpenerAt(s, i) && i < |s|
    ensures Close(s, i) == Some(HitAt(s, i).value.end)
    ensures Parse(s[i..HitAt(s, i).value.end]) == Some(HitAt(s, i).value.ref)
  {
    hide HitAt, Derives, Parse, Close;
    var h := HitAt(s, i).value;
    DerivedSpan(s, i, h.end, h.ref);
    ParseIff(s[i..h.end], h.ref);
  }

  /** A candidate that parses is a reference, whatever follows it. */
  lemma CandidateMatches(s: string, i: nat, e: nat)
    requires i < e <= |s| && Parse(s[i..e]).Some?
    ensures HitAt(s, i) == Some(Hit(i, e, Parse(s[i..e]).value))
  {
    hide HitAt, Derives, Parse;
    ParseIff(s[i..e], Parse(s[i..e]).value);
    HitComplete(s, i, e, Parse(s[i..e]).value);
  }

  /** The opener at i starts one reference with no other opener inside it. */
  ghost predicate WellFormedAt(s: string, i: nat) {
    i <= |s| && HitAt(s, i).Some? &&
    forall j :: i < j < HitAt(s, i).value.end ==> !OpenerAt(s, j)
  }

  /** What admission is for: every opener starts a well-formed reference. */
  ghost predicate Admitted(s: string) {
    forall i :: 0 <= i < |s| && OpenerAt(s, i) ==> WellFormedAt(s, i)
  }

  datatype AdmitError = Malformed(candidate: string) | Unterminated(tail: string)

  /** admitSecretReferenceString: accepts exactly the admitted strings. */
  method AdmitString(s: string) returns (r: Result<(), AdmitError>)
    ensures r.Ok? <==> Admitted(s)
  {
    hide HitAt, Parse, Candidates, Close, WellFormedAt, OpenerAt, Openers;
    var candidates := Candidates(s, 0);
    for n := 0 to |candidates|
      invariant forall k :: 0 <= k < n ==> Parse(s[candidates[k].0..candidates[k].1]).Some?
    {
      var c := candidates[n];
      assert c in candidates;
      if Parse(s[c.0..c.1]).None? {
        BadCandidate(s, c);
        return Err(Malformed(s[c.0..c.1]));
      }
    }
    var consumed := {};
    for n := 0 to |candidates|
      invariant consumed == set k | 0 <= k < n :: candidates[k].0
    {
      consumed := consumed + {candidates[n].0};
    }
    var openers := Openers(s, 0);
    for n := 0 to |openers|
      invariant forall k :: 0 <= k < n ==> openers[k] in consumed
    {
      assert openers[n] in openers;
      if openers[n] !in consumed {
        assert forall c :: c in candidates ==> c.0 != openers[n];
        BadOpener(s, openers[n]);
        return Err(Unterminated(s[openers[n]..]));
      }
    }
    forall i | 0 <= i < |s| && OpenerAt(s, i) ensures WellFormedAt(s, i) {
      assert i in openers;
      var k :| 0 <= k < |candidates| && candidates[k].0 == i;
      assert candidates[k] in candidates;
      GoodOpener(s, i, candidates[k].1, openers, consumed);
    }
    return Ok(());
  }

  lemma BadCandidate(s: string, c: (nat, nat))
    requires c in Candidates(s, 0) && Parse(s[c.0..c.1]).None?
    ensures !Admitted(s)
  {
    hide HitAt, Parse, Candidates, Close;
    if WellFormedAt(s, c.0) {
      HitSpan(s, c.0);
    }
  }

  /** An opener that starts no candidate is inside one, or never closed. */
  lemma BadOpener(s: string, i: nat)
    requires i < |s| && OpenerAt(s, i) && forall c :: c in Candidates(s, 0) ==> c.0 != i
    ensures !Admitted(s)
  {
    hide HitAt, Parse, Candidates, Close;
    if WellFormedAt(s, i) {
      HitSpan(s, i);
      CandidatesCover(s, 0, i);
      var c :| c in Candidates(s, 0) && c.0 <= i < c.1;
      if WellFormedAt(s, c.0) {
        HitSpan(s, c.0);
      }
    }
  }

  lemma GoodOpener(s: string, i: nat, e: nat, openers: seq<nat>, consumed: set<nat>)
    requires (i, e) in Candidates(s, 0) && Parse(s[i..e]).Some?
    requires forall j :: 0 <= j < |s| && OpenerAt(s, j) ==> j in consumed
    requires forall j :: j in consumed ==> exists c :: c in Candidates(s, 0) && c.0 == j
    ensures WellFormedAt(s, i)
  {
    hide HitAt, Parse, Candidates, Close, OpenerAt;
    CandidateMatches(s, i, e);
    forall j | i < j < e ensures !OpenerAt(s, j) {
      if OpenerAt(s, j) {
        var c :| c in Candidates(s, 0) && c.0 == j;
        CandidatesApart(s, 0, (i, e), c);
      }
    }
  }

  /** In an admitted string the grammar's matches are exactly the openers, so
      no opener survives between or inside the references that get replaced. */
  lemma AdmittedHits(s: string, i: nat)
    requires Admitted(s) && i < |s|
    ensures OpenerAt(s, i) <==> exists h :: h in Find(s, 0) && h.start == i
  {
    hide HitAt, Find;
    if OpenerAt(s, i) {
      assert WellFormedAt(s, i);
      FindCovers(s, 0, i);
      var h :| h in Find(s, 0) && h.start <= i < h.end;
      HitSpan(s, h.start);
      assert WellFormedAt(s, h.start);
      assert h.start == i;
    }
    if h :| h in Find(s, 0) && h.start == i {
      HitSpan(s, i);
    }
  }

  /** admitSecretReferences over a tree. */
  ghost predicate AdmittedValue(v: Value)
    decreases v
  {
    match v
    case Text(t) => Admitted(t)
    case List(items) => forall i :: 0 <= i < |items| ==> AdmittedValue(items[i])
    case Map(m) => forall k :: k in m ==> AdmittedValue(m[k])
    case _ => true
  }

  /** The walk visits map entries in an arbitrary order and stops at the first
      rejected string. */
  method AdmitValue(v: Value) returns (r: Result<(), AdmitError>)
    ensures r.Ok? <==> AdmittedValue(v)
    decreases v
  {
    match v {
      case Text(t) =>
        r := AdmitString(t);
      case List(items) =>
        for i := 0 to |items|
          invariant forall j :: 0 <= j < i ==> AdmittedValue(items[j])
        {
          r := AdmitValue(items[i]);
          if r.Err? {
            return;
          }
        }
        return Ok(());
      case Map(m) =>
        var todo := m.Keys;
        while todo != {}
          invariant todo <= m.Keys && forall k :: k in m && k !in todo ==> AdmittedValue(m[k])
          decreases todo
        {
          var k :| k in todo;
          r := AdmitValue(m[k]);
          if r.Err? {
            return;
          }
          todo := todo - {k};
        }
        return Ok(());
      case _ =>
        return Ok(());
    }
  }
}
